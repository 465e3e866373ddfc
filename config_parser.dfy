/**
 * `GetConfigKeys` of the STM32 board configuration: each line of the
 * configuration file is `key = value`, `key = { v1, v2, ... }`, blank, or a
 * comment starting with `/` or `#`.  The parser works in a 120-byte line
 * buffer with a cursor, writes NULs into the buffer to cut out the key and
 * the values, and stores converted values into the variables named by a
 * table of entries.
 *
 * The functions below describe the parser on the contents of the buffer;
 * the class `BoardConfig` further down does the same work in place.
 */
module ConfigParser {
  import opened Common
  import opened Pins
  import opened ConfigValues
  import opened ConfigReader

  const MaxLineLength: nat := 120

  /**
   * One row of a configuration table: the key, the variable it sets (an
   * index into the board's variables), the variable's type, and for arrays
   * the number of entries the array holds.
   */
  datatype Entry = Entry(key: string, variable: nat, kind: Kind, maxArrayEntries: Option<nat>)

  /** Every entry names an existing variable. */
  predicate Fits(entries: seq<Entry>, values: seq<Value>) {
    forall i :: 0 <= i < |entries| ==> entries[i].variable < |values|
  }

  /** The character classes the parser's cursor loops skip over. */
  datatype Run =
    | Blanks           // spaces and tabs
    | KeyChars         // up to a blank, '=' or NUL
    | Separators       // blanks and '='
    | ArrayValueChars  // up to a blank, ',', '}', '/', '#', ';' or NUL
    | ValueChars       // up to a blank, ';', '/' or NUL

  predicate Continues(run: Run, c: char) {
    match run
    case Blanks => c != NUL && IsSpaceOrTab(c)
    case KeyChars => !IsSpaceOrTab(c) && c != '=' && c != NUL
    case Separators => c != NUL && (IsSpaceOrTab(c) || c == '=')
    case ArrayValueChars => c != NUL && !IsSpaceOrTab(c) && c != ',' && c != '}' && c != '/' && c != '#' && c != ';'
    case ValueChars => c != NUL && !IsSpaceOrTab(c) && c != ';' && c != '/'
  }

  /** `while (pos < bound && <run continues at line[pos]>) pos++;` */
  function Scan(b: seq<char>, pos: nat, bound: nat, run: Run): (e: nat)
    requires bound <= |b|
    ensures pos <= e && (e == pos || e <= bound)
    ensures forall k :: pos <= k < e ==> Continues(run, b[k])
    ensures e < bound ==> !Continues(run, b[e])
    decreases bound - pos
  {
    if pos < bound && Continues(run, b[pos]) then Scan(b, pos + 1, bound, run) else pos
  }

  /** The buffer, the cursor and the variables as the parser goes. */
  datatype Parse = Parse(line: seq<char>, pos: nat, values: seq<Value>)

  /**
   * The effect of one line of `len` characters held NUL-terminated in the
   * buffer `b`.  After the key, blanks and '=' are skipped up to `valueBound`
   * and a single value is looked for below `valueBound`: the parser as
   * written uses the end of the buffer there, and `LineEffect` below uses the
   * end of the line (README, Findings).  Every other cursor loop is as written.
   */
  function ParseLine(b: seq<char>, len: nat, valueBound: nat, entries: seq<Entry>, values: seq<Value>, names: map<string, Pin>): (r: Parse)
    requires |b| == MaxLineLength && len < MaxLineLength && b[len] == NUL
    requires len <= valueBound <= MaxLineLength && (valueBound == len || b[MaxLineLength - 1] == NUL)
    requires Fits(entries, values)
    ensures |r.line| == MaxLineLength && |r.values| == |values|
  {
    var p := Scan(b, 0, len, Blanks);
    if p < len && b[p] != '/' && b[p] != '#' then KeyedLine(b, len, valueBound, p, entries, values, names)
    else Parse(b, p, values)
  }

  /** A line whose key starts at `p`: cut the key out and look for an array or a single value. */
  function KeyedLine(b: seq<char>, len: nat, valueBound: nat, p: nat, entries: seq<Entry>, values: seq<Value>, names: map<string, Pin>): (r: Parse)
    requires |b| == MaxLineLength && p < len < MaxLineLength && b[len] == NUL
    requires len <= valueBound <= MaxLineLength && (valueBound == len || b[MaxLineLength - 1] == NUL)
    requires Fits(entries, values)
    ensures |r.line| == MaxLineLength && |r.values| == |values|
  {
    var k := Scan(b, p, len, KeyChars);
    var key := b[p..k];
    var b1 := b[k := NUL];
    var v := Scan(b1, k + 1, valueBound, Separators);
    if v < len && b1[v] == '{' then
      ArrayEntries(entries, 0, key, Parse(b1, v + 1, values), names)
    else if v < valueBound && b1[v] != NUL then
      SingleValue(b1, len, valueBound, key, v, entries, values, names)
    else Parse(b1, v, values)
  }

  /** A keyed line whose separators are followed by '{' is an array line. */
  lemma KeyedArrayCase(b: seq<char>, len: nat, p: nat, k: nat, v: nat, entries: seq<Entry>, values: seq<Value>, names: map<string, Pin>)
    requires |b| == MaxLineLength && p < len < MaxLineLength && b[len] == NUL && Fits(entries, values)
    requires k == Scan(b, p, len, KeyChars) && v == Scan(b[k := NUL], k + 1, len, Separators)
    requires v < len && b[k := NUL][v] == '{'
    ensures KeyedLine(b, len, len, p, entries, values, names) == ArrayEntries(entries, 0, b[p..k], Parse(b[k := NUL], v + 1, values), names)
  {
  }

  /** A keyed line whose separators are followed by anything else within the line has a single value. */
  lemma KeyedSingleCase(b: seq<char>, len: nat, p: nat, k: nat, v: nat, entries: seq<Entry>, values: seq<Value>, names: map<string, Pin>)
    requires |b| == MaxLineLength && p < len < MaxLineLength && b[len] == NUL && Fits(entries, values)
    requires k == Scan(b, p, len, KeyChars) && v == Scan(b[k := NUL], k + 1, len, Separators)
    requires v < len && b[k := NUL][v] != '{' && b[k := NUL][v] != NUL
    ensures KeyedLine(b, len, len, p, entries, values, names) == SingleValue(b[k := NUL], len, len, b[p..k], v, entries, values, names)
  {
  }

  /** A keyed line with nothing after its separators changes no variable; only the NUL after the key is written. */
  lemma KeyedEmptyCase(b: seq<char>, len: nat, p: nat, k: nat, v: nat, entries: seq<Entry>, values: seq<Value>, names: map<string, Pin>)
    requires |b| == MaxLineLength && p < len < MaxLineLength && b[len] == NUL && Fits(entries, values)
    requires k == Scan(b, p, len, KeyChars) && v == Scan(b[k := NUL], k + 1, len, Separators)
    requires v >= len || b[k := NUL][v] == NUL
    ensures KeyedLine(b, len, len, p, entries, values, names) == Parse(b[k := NUL], v, values)
  {
  }

  /** A single value starting at `v`, for the key `key`. */
  function SingleValue(b: seq<char>, len: nat, valueBound: nat, key: string, v: nat, entries: seq<Entry>, values: seq<Value>, names: map<string, Pin>): (r: Parse)
    requires |b| == MaxLineLength && len < MaxLineLength && b[len] == NUL && v < valueBound
    requires len <= valueBound <= MaxLineLength && (valueBound == len || b[MaxLineLength - 1] == NUL)
    requires Fits(entries, values)
    ensures |r.line| == MaxLineLength && |r.values| == |values|
  {
    assert !Continues(ValueChars, b[len]) && (valueBound == len || !Continues(ValueChars, b[MaxLineLength - 1]));
    var e := Scan(b, v, MaxLineLength, ValueChars);
    SingleEntries(entries, 0, key, Parse(b[e := NUL], e, values), v, e, names)
  }

  /** The effect of one line, with the value looked for within the line. */
  function LineEffect(b: seq<char>, len: nat, entries: seq<Entry>, values: seq<Value>, names: map<string, Pin>): (r: Parse)
    requires |b| == MaxLineLength && len < MaxLineLength && b[len] == NUL
    requires Fits(entries, values)
    ensures |r.line| == MaxLineLength && |r.values| == |values|
  {
    ParseLine(b, len, len, entries, values, names)
  }

  /** The effect of one line as the parser is written, which looks for the value up to the end of the buffer. */
  function LineEffectAsWritten(b: seq<char>, len: nat, entries: seq<Entry>, values: seq<Value>, names: map<string, Pin>): (r: Parse)
    requires |b| == MaxLineLength && len < MaxLineLength && b[len] == NUL && b[MaxLineLength - 1] == NUL
    requires Fits(entries, values)
    ensures |r.line| == MaxLineLength && |r.values| == |values|
  {
    ParseLine(b, len, MaxLineLength, entries, values, names)
  }

  /** `SetValueFromString` on the value text `line[v..e]`; a pin lookup lower-cases that text in place. */
  function SetValue(kind: Kind, slot: nat, st: Parse, v: nat, e: nat, names: map<string, Pin>): (r: Parse)
    requires v <= e <= |st.line| && slot < |st.values|
    ensures |r.line| == |st.line| && |r.values| == |st.values| && r.pos == st.pos
    ensures forall i :: 0 <= i < |st.line| ==> r.line[i] == if kind == PinKind && v <= i < e then LowerChar(st.line[i]) else st.line[i]
  {
    var text := st.line[v..e];
    var line := if kind == PinKind then st.line[..v] + Lower(text) + st.line[e..] else st.line;
    Parse(line, st.pos, st.values[slot := Converted(kind, text, st.values[slot], names)])
  }

  /** The single-value case: set every non-array entry whose key matches, ignoring case. */
  function SingleEntries(entries: seq<Entry>, i: nat, key: string, st: Parse, v: nat, e: nat, names: map<string, Pin>): (r: Parse)
    requires v <= e <= |st.line| && Fits(entries, st.values)
    ensures |r.line| == |st.line| && |r.values| == |st.values|
    decreases |entries| - i
  {
    if i >= |entries| then st
    else
      var en := entries[i];
      var next := if en.maxArrayEntries.None? && EqualsIgnoreCase(key, en.key)
        then SetValue(en.kind, en.variable, st, v, e, names) else st;
      SingleEntries(entries, i + 1, key, next, v, e, names)
  }

  /** The array case: read an array for every array entry whose key matches, from a shared cursor. */
  function ArrayEntries(entries: seq<Entry>, i: nat, key: string, st: Parse, names: map<string, Pin>): (r: Parse)
    requires |st.line| == MaxLineLength && Fits(entries, st.values)
    ensures |r.line| == MaxLineLength && |r.values| == |st.values|
    decreases |entries| - i
  {
    if i >= |entries| then st
    else
      var en := entries[i];
      var next := if en.maxArrayEntries.Some? && EqualsIgnoreCase(key, en.key)
        then ReadArray(en.maxArrayEntries.value, en.variable, st, names) else st;
      ArrayEntries(entries, i + 1, key, next, names)
  }

  /** Reading one array into the variable `slot` of at most `max` pins, after the opening brace. */
  function ReadArray(max: nat, slot: nat, st: Parse, names: map<string, Pin>): (r: Parse)
    requires |st.line| == MaxLineLength && slot < |st.values|
    ensures |r.line| == MaxLineLength && |r.values| == |st.values|
  {
    var p := Scan(st.line, st.pos, MaxLineLength, Blanks);
    SearchArray(max, slot, Parse(st.line, p, st.values), [], names)
  }

  /**
   * The `while (searching)` loop, with `read` the pins read so far.  The
   * variable is written only when the closing brace is reached after at least
   * one value; too many values, or the end of the value text before the
   * brace, leave it as it was.
   */
  function SearchArray(max: nat, slot: nat, st: Parse, read: seq<Pin>, names: map<string, Pin>): (r: Parse)
    requires |st.line| == MaxLineLength && slot < |st.values| && |read| <= max
    ensures |r.line| == MaxLineLength && |r.values| == |st.values|
    decreases MaxLineLength - st.pos
  {
    if st.pos < MaxLineLength then
      var b := st.line;
      var p := Scan(b, st.pos, MaxLineLength, Blanks);
      if p == MaxLineLength then Parse(b, p, st.values)
      else if b[p] == '}' then
        if |read| > 0 then Parse(b, p, st.values[slot := CopyPins(st.values[slot], read)])
        else Parse(b, p, st.values)
      else if |read| >= max then Parse(b, p, st.values)
      else
        var e := Scan(b, p, MaxLineLength, ArrayValueChars);
        if e == MaxLineLength || b[e] == NUL || b[e] == '/' || b[e] == '#' || b[e] == ';' then Parse(b, e, st.values)
        else
          var pin := LookupPinOf(names, b[p..e]);
          var b2 := CutValue(b, p, e);
          if b[e] == '}' then Parse(b2, e, st.values[slot := CopyPins(st.values[slot], read + [pin])])
          else SearchArray(max, slot, Parse(b2, e + 1, st.values), read + [pin], names)
    else st
  }

  /** The buffer after the value `b[p..e]` of an array was cut out with a NUL and lower-cased by the pin lookup. */
  function CutValue(b: seq<char>, p: nat, e: nat): (r: seq<char>)
    requires p <= e < |b|
    ensures |r| == |b|
  {
    var b1 := b[e := NUL];
    b1[..p] + Lower(b1[p..e]) + b1[e..]
  }

  /** Cutting out a value writes the NUL at its end and lower-cases it; nothing else changes. */
  lemma CutValueAt(b: seq<char>, p: nat, e: nat)
    requires p <= e < |b|
    ensures CutValue(b, p, e)[e] == NUL
    ensures forall i :: 0 <= i < |b| && i != e ==> CutValue(b, p, e)[i] == if p <= i < e then LowerChar(b[i]) else b[i]
  {
  }

  /** The step `SearchArray` takes on a value that ends in a blank, ',' or '}'. */
  lemma SearchValueStep(max: nat, slot: nat, st: Parse, read: seq<Pin>, names: map<string, Pin>, p: nat, e: nat)
    requires |st.line| == MaxLineLength && slot < |st.values| && |read| < max
    requires st.pos < MaxLineLength && p == Scan(st.line, st.pos, MaxLineLength, Blanks) && p < MaxLineLength && st.line[p] != '}'
    requires e == Scan(st.line, p, MaxLineLength, ArrayValueChars) && e < MaxLineLength
    requires st.line[e] != NUL && st.line[e] != '/' && st.line[e] != '#' && st.line[e] != ';'
    ensures var pin := LookupPinOf(names, st.line[p..e]);
      var b2 := CutValue(st.line, p, e);
      SearchArray(max, slot, st, read, names) ==
        if st.line[e] == '}' then Parse(b2, e, st.values[slot := CopyPins(st.values[slot], read + [pin])])
        else SearchArray(max, slot, Parse(b2, e + 1, st.values), read + [pin], names)
  {
  }

  /** The buffer after `ReadLine` stored `text` and its terminator. */
  function Stored(b: seq<char>, text: string): (r: seq<char>)
    requires |text| < |b|
    ensures |r| == |b| && r[|text|] == NUL
  {
    text + [NUL] + b[|text| + 1..]
  }

  /** The whole file: read the lines from `pos` one by one into the buffer `b` and apply each. */
  function ConfigLines(data: string, pos: nat, b: seq<char>, entries: seq<Entry>, values: seq<Value>, names: map<string, Pin>): (r: Parse)
    requires pos <= |data| && |b| == MaxLineLength && Fits(entries, values)
    ensures |r.values| == |values|
    decreases |data| - pos
  {
    match NextLine(data, pos, MaxLineLength)
    case EndOfInput => Parse(b, pos, values)
    case Line(text, next) =>
      NextLineShape(data, pos, MaxLineLength);
      var r := LineEffect(Stored(b, text), |text|, entries, values, names);
      ConfigLines(data, next, r.line, entries, r.values, names)
  }

  /** The line buffer as the parser starts with it. */
  function EmptyBuffer(): (b: seq<char>)
    ensures |b| == MaxLineLength
  {
    seq(MaxLineLength, _ => NUL)
  }
}
