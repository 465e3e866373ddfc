/**
 * Properties of the configuration parser of `ConfigParser`: what blank,
 * comment, single-value and array lines do to the variables, and that a
 * line's effect depends only on the line itself, not on what earlier lines
 * left in the buffer past its terminator.
 */
module ConfigProperties {
  import opened Common
  import opened Pins
  import opened ConfigValues
  import opened ConfigReader
  import opened ConfigParser

  // ---------------------------------------------------------------------
  // Cursor loops

  /** No cursor loop runs over a NUL. */
  lemma NulStopsEveryRun(run: Run)
    ensures !Continues(run, NUL)
  {
  }

  /** A cursor loop stops at the first position where its run does not continue, or at the bound. */
  lemma {:induction false} ScanStops(b: seq<char>, pos: nat, bound: nat, run: Run, j: nat)
    requires bound <= |b| && pos <= j <= bound
    requires forall k :: pos <= k < j ==> Continues(run, b[k])
    requires j == bound || !Continues(run, b[j])
    ensures Scan(b, pos, bound, run) == j
    decreases j - pos
  {
    if pos < j {
      ScanStops(b, pos + 1, bound, run, j);
    }
  }

  /** Two buffers that hold the same line up to and including its terminator at `len`. */
  predicate Agree(x: seq<char>, y: seq<char>, len: nat) {
    |x| == MaxLineLength && |y| == MaxLineLength && len < MaxLineLength && x[len] == NUL &&
    forall i :: 0 <= i <= len ==> x[i] == y[i]
  }

  /** A cursor loop that starts within the line stops at the terminator at the latest, seeing the same bytes in both buffers. */
  lemma {:induction false} ScanAgrees(x: seq<char>, y: seq<char>, pos: nat, bound: nat, run: Run, len: nat)
    requires Agree(x, y, len) && pos <= len && bound <= MaxLineLength
    ensures Scan(x, pos, bound, run) == Scan(y, pos, bound, run) <= len
    decreases bound - pos
  {
    NulStopsEveryRun(run);
    if pos < bound && Continues(run, x[pos]) {
      ScanAgrees(x, y, pos + 1, bound, run, len);
    }
  }

  // ---------------------------------------------------------------------
  // A line's effect depends only on the line

  /** Parser states that agree on the line, the cursor and the variables. */
  predicate StatesAgree(x: Parse, y: Parse, len: nat) {
    Agree(x.line, y.line, len) && x.pos == y.pos <= len && x.values == y.values
  }

  lemma CutAgrees(x: seq<char>, y: seq<char>, p: nat, e: nat, len: nat)
    requires Agree(x, y, len) && p <= e < len
    ensures Agree(CutValue(x, p, e), CutValue(y, p, e), len)
  {
    CutValueAt(x, p, e);
    CutValueAt(y, p, e);
  }

  lemma SliceAgrees(x: seq<char>, y: seq<char>, p: nat, e: nat, len: nat)
    requires Agree(x, y, len) && p <= e <= len
    ensures x[p..e] == y[p..e]
  {
  }

  /** The step `SearchArray` takes on a value that runs into the end of the buffer, a NUL, '/', '#' or ';'. */
  lemma SearchFails(max: nat, slot: nat, st: Parse, read: seq<Pin>, names: map<string, Pin>, p: nat, e: nat)
    requires |st.line| == MaxLineLength && slot < |st.values| && |read| < max
    requires st.pos < MaxLineLength && p == Scan(st.line, st.pos, MaxLineLength, Blanks) && p < MaxLineLength && st.line[p] != '}'
    requires e == Scan(st.line, p, MaxLineLength, ArrayValueChars)
    requires e == MaxLineLength || st.line[e] == NUL || st.line[e] == '/' || st.line[e] == '#' || st.line[e] == ';'
    ensures SearchArray(max, slot, st, read, names) == Parse(st.line, e, st.values)
  {
  }

  lemma {:induction false} SearchAgrees(max: nat, slot: nat, x: Parse, y: Parse, read: seq<Pin>, names: map<string, Pin>, len: nat)
    requires slot < |x.values| && |read| <= max && StatesAgree(x, y, len)
    ensures StatesAgree(SearchArray(max, slot, x, read, names), SearchArray(max, slot, y, read, names), len)
    decreases MaxLineLength - x.pos
  {
    var p := Scan(x.line, x.pos, MaxLineLength, Blanks);
    ScanAgrees(x.line, y.line, x.pos, MaxLineLength, Blanks, len);
    if x.line[p] != '}' && |read| < max {
      var e := Scan(x.line, p, MaxLineLength, ArrayValueChars);
      ScanAgrees(x.line, y.line, p, MaxLineLength, ArrayValueChars, len);
      var c := x.line[e];
      if c != NUL && c != '/' && c != '#' && c != ';' {
        SearchValueStep(max, slot, x, read, names, p, e);
        SearchValueStep(max, slot, y, read, names, p, e);
        SliceAgrees(x.line, y.line, p, e, len);
        CutAgrees(x.line, y.line, p, e, len);
        if c != '}' {
          var pin := LookupPinOf(names, x.line[p..e]);
          SearchAgrees(max, slot, Parse(CutValue(x.line, p, e), e + 1, x.values), Parse(CutValue(y.line, p, e), e + 1, y.values), read + [pin], names, len);
        }
      } else {
        SearchFails(max, slot, x, read, names, p, e);
        SearchFails(max, slot, y, read, names, p, e);
      }
    }
  }

  lemma {:induction false} ArrayEntriesAgree(entries: seq<Entry>, i: nat, key: string, x: Parse, y: Parse, names: map<string, Pin>, len: nat)
    requires Fits(entries, x.values) && StatesAgree(x, y, len)
    ensures StatesAgree(ArrayEntries(entries, i, key, x, names), ArrayEntries(entries, i, key, y, names), len)
    decreases |entries| - i
  {
    if i < |entries| {
      var en := entries[i];
      if en.maxArrayEntries.Some? && EqualsIgnoreCase(key, en.key) {
        var max := en.maxArrayEntries.value;
        var p := Scan(x.line, x.pos, MaxLineLength, Blanks);
        ScanAgrees(x.line, y.line, x.pos, MaxLineLength, Blanks, len);
        SearchAgrees(max, en.variable, Parse(x.line, p, x.values), Parse(y.line, p, y.values), [], names, len);
        ArrayEntriesAgree(entries, i + 1, key, ReadArray(max, en.variable, x, names), ReadArray(max, en.variable, y, names), names, len);
      } else {
        ArrayEntriesAgree(entries, i + 1, key, x, y, names, len);
      }
    }
  }

  lemma {:induction false} SingleEntriesAgree(entries: seq<Entry>, i: nat, key: string, x: Parse, y: Parse, v: nat, e: nat, names: map<string, Pin>, len: nat)
    requires Fits(entries, x.values) && StatesAgree(x, y, len) && v <= e <= len
    ensures StatesAgree(SingleEntries(entries, i, key, x, v, e, names), SingleEntries(entries, i, key, y, v, e, names), len)
    decreases |entries| - i
  {
    if i < |entries| {
      var en := entries[i];
      if en.maxArrayEntries.None? && EqualsIgnoreCase(key, en.key) {
        SliceAgrees(x.line, y.line, v, e, len);
        var x' := SetValue(en.kind, en.variable, x, v, e, names);
        var y' := SetValue(en.kind, en.variable, y, v, e, names);
        assert Agree(x'.line, y'.line, len);
        SingleEntriesAgree(entries, i + 1, key, x', y', v, e, names, len);
      } else {
        SingleEntriesAgree(entries, i + 1, key, x, y, v, e, names, len);
      }
    }
  }

  lemma SingleValueAgrees(b: seq<char>, c: seq<char>, len: nat, key: string, v: nat, entries: seq<Entry>, values: seq<Value>, names: map<string, Pin>)
    requires Agree(b, c, len) && v < len && Fits(entries, values)
    ensures SingleValue(b, len, len, key, v, entries, values, names).values == SingleValue(c, len, len, key, v, entries, values, names).values
  {
    var e := Scan(b, v, MaxLineLength, ValueChars);
    ScanAgrees(b, c, v, MaxLineLength, ValueChars, len);
    assert Agree(b[e := NUL], c[e := NUL], len);
    SingleEntriesAgree(entries, 0, key, Parse(b[e := NUL], e, values), Parse(c[e := NUL], e, values), v, e, names, len);
  }

  lemma KeyedLineAgrees(b: seq<char>, c: seq<char>, len: nat, p: nat, entries: seq<Entry>, values: seq<Value>, names: map<string, Pin>)
    requires Agree(b, c, len) && p < len && Fits(entries, values)
    ensures KeyedLine(b, len, len, p, entries, values, names).values == KeyedLine(c, len, len, p, entries, values, names).values
  {
    var k := Scan(b, p, len, KeyChars);
    ScanAgrees(b, c, p, len, KeyChars, len);
    SliceAgrees(b, c, p, k, len);
    var b1 := b[k := NUL];
    var c1 := c[k := NUL];
    assert Agree(b1, c1, len);
    if k < len {
      ScanAgrees(b1, c1, k + 1, len, Separators, len);
    }
    var v := Scan(b1, k + 1, len, Separators);
    assert v == Scan(c1, k + 1, len, Separators);
    if v < len && b1[v] == '{' {
      KeyedArrayCase(b, len, p, k, v, entries, values, names);
      KeyedArrayCase(c, len, p, k, v, entries, values, names);
      ArrayEntriesAgree(entries, 0, b[p..k], Parse(b1, v + 1, values), Parse(c1, v + 1, values), names, len);
    } else if v < len && b1[v] != NUL {
      KeyedSingleCase(b, len, p, k, v, entries, values, names);
      KeyedSingleCase(c, len, p, k, v, entries, values, names);
      SingleValueAgrees(b1, c1, len, b[p..k], v, entries, values, names);
    } else {
      KeyedEmptyCase(b, len, p, k, v, entries, values, names);
      KeyedEmptyCase(c, len, p, k, v, entries, values, names);
    }
  }

  /**
   * The variables a line sets depend only on the line and its terminator:
   * whatever an earlier, longer line left in the buffer after it is never read.
   */
  lemma LineEffectIgnoresStaleBytes(b: seq<char>, c: seq<char>, len: nat, entries: seq<Entry>, values: seq<Value>, names: map<string, Pin>)
    requires |b| == MaxLineLength && |c| == MaxLineLength && len < MaxLineLength && b[len] == NUL
    requires forall i :: 0 <= i <= len ==> b[i] == c[i]
    requires Fits(entries, values)
    ensures LineEffect(b, len, entries, values, names).values == LineEffect(c, len, entries, values, names).values
  {
    var p := Scan(b, 0, len, Blanks);
    ScanAgrees(b, c, 0, len, Blanks, len);
    if p < len && b[p] != '/' && b[p] != '#' {
      KeyedLineAgrees(b, c, len, p, entries, values, names);
    }
  }

  /**
   * The configuration a file sets does not depend on what the line buffer
   * held before the first line was read.
   */
  lemma {:induction false} ConfigLinesIgnoreBuffer(data: string, pos: nat, b: seq<char>, c: seq<char>, entries: seq<Entry>, values: seq<Value>, names: map<string, Pin>)
    requires pos <= |data| && |b| == MaxLineLength && |c| == MaxLineLength && Fits(entries, values)
    ensures ConfigLines(data, pos, b, entries, values, names).values == ConfigLines(data, pos, c, entries, values, names).values
    decreases |data| - pos
  {
    match NextLine(data, pos, MaxLineLength)
    case EndOfInput =>
    case Line(text, next) =>
      NextLineShape(data, pos, MaxLineLength);
      var bs := Stored(b, text);
      var cs := Stored(c, text);
      LineEffectIgnoresStaleBytes(bs, cs, |text|, entries, values, names);
      var rb := LineEffect(bs, |text|, entries, values, names);
      var rc := LineEffect(cs, |text|, entries, values, names);
      ConfigLinesIgnoreBuffer(data, next, rb.line, rc.line, entries, rb.values, names);
  }

  // ---------------------------------------------------------------------
  // The parser as written reads stale bytes

  /** The buffer the line "ab=cd" leaves behind, with the line "lcd" read over it. */
  function StaleBuffer(): (b: seq<char>)
    ensures |b| == MaxLineLength
  {
    "lcd" + [NUL, 'd'] + seq(MaxLineLength - 5, _ => NUL)
  }

  /**
   * The line "ab=cd" followed by the line "lcd", which holds a key only: the
   * parser as written takes the "d" left over from the first line as the
   * value of `lcd`, while the corrected parser leaves `lcd` alone.
   */
  lemma StaleValueAsWritten()
    ensures var entries := [Entry("ab", 0, StringKind, None), Entry("lcd", 1, StringKind, None)];
      var values := [StringValue(""), StringValue("")];
      var first := LineEffect(Stored(EmptyBuffer(), "ab=cd"), 5, entries, values, map[]);
      Stored(first.line, "lcd") == StaleBuffer() &&
      first.values == [StringValue("cd"), StringValue("")] &&
      LineEffectAsWritten(StaleBuffer(), 3, entries, first.values, map[]).values == [StringValue("cd"), StringValue("d")] &&
      LineEffect(StaleBuffer(), 3, entries, first.values, map[]).values == first.values
  {
    var entries := [Entry("ab", 0, StringKind, None), Entry("lcd", 1, StringKind, None)];
    var values := [StringValue(""), StringValue("")];
    FirstLineOfExample(entries, values);
    var first := LineEffect(Stored(EmptyBuffer(), "ab=cd"), 5, entries, values, map[]);
    StaleLineAsWritten(entries, first.values);
    StaleLineCorrected(entries, first.values);
  }

  lemma FirstLineOfExample(entries: seq<Entry>, values: seq<Value>)
    requires entries == [Entry("ab", 0, StringKind, None), Entry("lcd", 1, StringKind, None)]
    requires values == [StringValue(""), StringValue("")]
    ensures var first := LineEffect(Stored(EmptyBuffer(), "ab=cd"), 5, entries, values, map[]);
      Stored(first.line, "lcd") == StaleBuffer() && first.values == [StringValue("cd"), StringValue("")]
  {
    var t := Stored(EmptyBuffer(), "ab=cd");
    var st := Parse(t[2 := NUL][5 := NUL], 5, values);
    FirstLineLayout();
    assert st.line[3..5] == "cd";
    FirstValueTaken(entries, values, st);
    assert Stored(st.line, "lcd") == StaleBuffer();
    SingleLineAt(t, 5, 2, 3, 5, entries, values, map[]);
  }

  lemma FirstLineLayout()
    ensures var t := Stored(EmptyBuffer(), "ab=cd");
      SingleLayout(t, 5, 2, 3, 5) && t[0..2] == "ab" && t[3..5] == "cd"
  {
    assert "ab" + "=" + "cd" + "" == "ab=cd";
    StoredSingleLayout(EmptyBuffer(), "ab", "=", "cd", "");
  }

  lemma FirstValueTaken(entries: seq<Entry>, values: seq<Value>, st: Parse)
    requires entries == [Entry("ab", 0, StringKind, None), Entry("lcd", 1, StringKind, None)]
    requires values == [StringValue(""), StringValue("")]
    requires |st.line| == MaxLineLength && st.line[3..5] == "cd" && st.values == values
    ensures SingleEntries(entries, 0, "ab", st, 3, 5, map[]) == Parse(st.line, st.pos, [StringValue("cd"), StringValue("")])
  {
    assert EqualsIgnoreCase("ab", "ab") && !EqualsIgnoreCase("ab", "lcd") by {
      assert Lower("ab") == "ab" && Lower("lcd") == "lcd";
    }
    var st' := SetValue(StringKind, 0, st, 3, 5, map[]);
    assert st' == Parse(st.line, st.pos, [StringValue("cd"), StringValue("")]);
    assert SingleEntries(entries, 0, "ab", st, 3, 5, map[]) == SingleEntries(entries, 1, "ab", st', 3, 5, map[]);
    assert SingleEntries(entries, 1, "ab", st', 3, 5, map[]) == SingleEntries(entries, 2, "ab", st', 3, 5, map[]);
  }

  lemma StaleLineAsWritten(entries: seq<Entry>, values: seq<Value>)
    requires entries == [Entry("ab", 0, StringKind, None), Entry("lcd", 1, StringKind, None)]
    requires values == [StringValue("cd"), StringValue("")]
    ensures LineEffectAsWritten(StaleBuffer(), 3, entries, values, map[]).values == [StringValue("cd"), StringValue("d")]
  {
    var b := StaleBuffer();
    ScanStops(b, 0, 3, Blanks, 0);
    ScanStops(b, 0, 3, KeyChars, 3);
    var b1 := b[3 := NUL];
    assert b1 == b;
    ScanStops(b1, 4, MaxLineLength, Separators, 4);
    assert b[0..3] == "lcd";
    assert KeyedLine(b, 3, MaxLineLength, 0, entries, values, map[]) == SingleValue(b, 3, MaxLineLength, "lcd", 4, entries, values, map[]);
    StaleValueTaken(entries, values);
  }

  lemma StaleValueTaken(entries: seq<Entry>, values: seq<Value>)
    requires entries == [Entry("ab", 0, StringKind, None), Entry("lcd", 1, StringKind, None)]
    requires values == [StringValue("cd"), StringValue("")]
    ensures SingleValue(StaleBuffer(), 3, MaxLineLength, "lcd", 4, entries, values, map[]).values == [StringValue("cd"), StringValue("d")]
  {
    var b := StaleBuffer();
    ScanStops(b, 4, MaxLineLength, ValueChars, 5);
    assert !EqualsIgnoreCase("lcd", "ab") && EqualsIgnoreCase("lcd", "lcd") by {
      assert Lower("ab") == "ab" && Lower("lcd") == "lcd";
    }
    var st := Parse(b[5 := NUL], 5, values);
    assert st.line[4..5] == "d";
    var st' := SetValue(StringKind, 1, st, 4, 5, map[]);
    assert st'.values == [StringValue("cd"), StringValue("d")];
    assert SingleEntries(entries, 0, "lcd", st, 4, 5, map[]) == SingleEntries(entries, 1, "lcd", st, 4, 5, map[]);
    assert SingleEntries(entries, 1, "lcd", st, 4, 5, map[]) == SingleEntries(entries, 2, "lcd", st', 4, 5, map[]);
  }

  lemma StaleLineCorrected(entries: seq<Entry>, values: seq<Value>)
    requires entries == [Entry("ab", 0, StringKind, None), Entry("lcd", 1, StringKind, None)]
    requires values == [StringValue("cd"), StringValue("")]
    ensures LineEffect(StaleBuffer(), 3, entries, values, map[]).values == values
  {
    var b := StaleBuffer();
    ScanStops(b, 0, 3, Blanks, 0);
    ScanStops(b, 0, 3, KeyChars, 3);
    assert KeyedLine(b, 3, 3, 0, entries, values, map[]) == Parse(b[3 := NUL], 4, values);
  }

  /**
   * When every byte after the line is NUL, as with a fresh buffer, the parser
   * as written and the corrected parser agree: the two differ only in reading
   * bytes that an earlier, longer line left behind.
   */
  lemma AsWrittenAgreesOnCleanTail(b: seq<char>, len: nat, entries: seq<Entry>, values: seq<Value>, names: map<string, Pin>)
    requires |b| == MaxLineLength && len < MaxLineLength && Fits(entries, values)
    requires forall i :: len <= i < MaxLineLength ==> b[i] == NUL
    ensures LineEffectAsWritten(b, len, entries, values, names) == LineEffect(b, len, entries, values, names)
  {
    var p := Scan(b, 0, len, Blanks);
    if p < len && b[p] != '/' && b[p] != '#' {
      var k := Scan(b, p, len, KeyChars);
      SeparatorsStopWithinLine(b, len, k);
      var v := Scan(b[k := NUL], k + 1, len, Separators);
      assert len <= v < MaxLineLength ==> b[k := NUL][v] == NUL;
      KeyedLineOnCleanTail(b, len, p, k, v, entries, values, names);
    }
  }

  /** On a clean tail, the separator loop after the key stops at the same place for either bound. */
  lemma SeparatorsStopWithinLine(b: seq<char>, len: nat, k: nat)
    requires |b| == MaxLineLength && k <= len < MaxLineLength
    requires forall i :: len <= i < MaxLineLength ==> b[i] == NUL
    ensures Scan(b[k := NUL], k + 1, MaxLineLength, Separators) == Scan(b[k := NUL], k + 1, len, Separators)
  {
    var b1 := b[k := NUL];
    var v := Scan(b1, k + 1, len, Separators);
    NulStopsEveryRun(Separators);
    if k < len {
      assert b1[len] == NUL;
      ScanStops(b1, k + 1, MaxLineLength, Separators, v);
    } else if len + 1 < MaxLineLength {
      assert b1[len + 1] == NUL;
      ScanStops(b1, len + 1, MaxLineLength, Separators, len + 1);
    }
  }

  /** A keyed line whose separator loop stops at the same place for either bound, and not on a stale byte, has the same effect for either bound. */
  lemma KeyedLineOnCleanTail(b: seq<char>, len: nat, p: nat, k: nat, v: nat, entries: seq<Entry>, values: seq<Value>, names: map<string, Pin>)
    requires |b| == MaxLineLength && p < len < MaxLineLength && b[len] == NUL && b[MaxLineLength - 1] == NUL && Fits(entries, values)
    requires k == Scan(b, p, len, KeyChars)
    requires v == Scan(b[k := NUL], k + 1, len, Separators) == Scan(b[k := NUL], k + 1, MaxLineLength, Separators)
    requires len <= v < MaxLineLength ==> b[k := NUL][v] == NUL
    ensures KeyedLine(b, len, MaxLineLength, p, entries, values, names) == KeyedLine(b, len, len, p, entries, values, names)
  {
    var b1 := b[k := NUL];
    if v < len && b1[v] == '{' {
      KeyedArrayCase(b, len, p, k, v, entries, values, names);
    } else if v < len && b1[v] != NUL {
      KeyedSingleCase(b, len, p, k, v, entries, values, names);
      SingleValueEitherBound(b1, len, b[p..k], v, entries, values, names);
    } else {
      KeyedEmptyCase(b, len, p, k, v, entries, values, names);
    }
  }

  /** The bound that `SingleValue` is given only limits where it may be called, not what it does. */
  lemma SingleValueEitherBound(b: seq<char>, len: nat, key: string, v: nat, entries: seq<Entry>, values: seq<Value>, names: map<string, Pin>)
    requires |b| == MaxLineLength && len < MaxLineLength && b[len] == NUL && b[MaxLineLength - 1] == NUL && v < len
    requires Fits(entries, values)
    ensures SingleValue(b, len, MaxLineLength, key, v, entries, values, names) == SingleValue(b, len, len, key, v, entries, values, names)
  {
  }

  // ---------------------------------------------------------------------
  // Blank and comment lines

  /** A line that is blank, or whose first non-blank character is '/' or '#', changes nothing. */
  lemma BlankOrCommentLine(b: seq<char>, len: nat, j: nat, entries: seq<Entry>, values: seq<Value>, names: map<string, Pin>)
    requires |b| == MaxLineLength && len < MaxLineLength && b[len] == NUL && Fits(entries, values)
    requires j <= len && forall i :: 0 <= i < j ==> IsSpaceOrTab(b[i])
    requires j == len || b[j] == '/' || b[j] == '#'
    ensures LineEffect(b, len, entries, values, names) == Parse(b, j, values)
  {
    ScanStops(b, 0, len, Blanks, j);
  }

  // ---------------------------------------------------------------------
  // Single values

  /** The text of a key: at least one character, none of them a blank, '=' or NUL, and not starting a comment. */
  predicate KeyText(key: string) {
    |key| > 0 && key[0] != '/' && key[0] != '#' && forall i :: 0 <= i < |key| ==> Continues(KeyChars, key[i])
  }

  /** What separates a key from its value: blanks and '=', at least one. */
  predicate SeparatorText(sep: string) {
    |sep| > 0 && forall i :: 0 <= i < |sep| ==> Continues(Separators, sep[i])
  }

  /** The text of a single value: no blank, ';', '/' or NUL, and not starting with '=' or '{'. */
  predicate ValueText(value: string) {
    |value| > 0 && value[0] != '=' && value[0] != '{' && forall i :: 0 <= i < |value| ==> Continues(ValueChars, value[i])
  }

  /** What may follow a value: nothing, or a character that ends it. */
  predicate EndsValue(rest: string) {
    |rest| == 0 || !Continues(ValueChars, rest[0])
  }

  /**
   * The variables after a single value `text` for `key`, entry by entry:
   * every non-array entry whose key matches ignoring case gets the value
   * converted to its type; a pin entry lower-cases the text the later ones see.
   */
  function Applied(entries: seq<Entry>, key: string, text: string, values: seq<Value>, names: map<string, Pin>): (r: seq<Value>)
    requires Fits(entries, values)
    ensures |r| == |values|
    decreases |entries|
  {
    if |entries| == 0 then values
    else
      var en := entries[0];
      if en.maxArrayEntries.None? && EqualsIgnoreCase(key, en.key) then
        Applied(entries[1..], key, if en.kind == PinKind then Lower(text) else text,
          values[en.variable := Converted(en.kind, text, values[en.variable], names)], names)
      else Applied(entries[1..], key, text, values, names)
  }

  /** The entry loop of the single-value case sets what `Applied` says. */
  lemma {:induction false} SingleEntriesApplied(entries: seq<Entry>, i: nat, key: string, st: Parse, v: nat, e: nat, names: map<string, Pin>)
    requires v <= e <= |st.line| && Fits(entries, st.values) && i <= |entries|
    ensures SingleEntries(entries, i, key, st, v, e, names).values == Applied(entries[i..], key, st.line[v..e], st.values, names)
    decreases |entries| - i
  {
    if i < |entries| {
      var en := entries[i];
      assert entries[i..][0] == en && entries[i..][1..] == entries[i + 1..];
      if en.maxArrayEntries.None? && EqualsIgnoreCase(key, en.key) {
        var st' := SetValue(en.kind, en.variable, st, v, e, names);
        assert st'.line[v..e] == if en.kind == PinKind then Lower(st.line[v..e]) else st.line[v..e];
        SingleEntriesApplied(entries, i + 1, key, st', v, e, names);
      } else {
        SingleEntriesApplied(entries, i + 1, key, st, v, e, names);
      }
    }
  }

  /** The entry loop of the single-value case leaves the buffer alone unless a matching entry is a pin. */
  lemma {:induction false} SingleEntriesKeepLine(entries: seq<Entry>, i: nat, key: string, st: Parse, v: nat, e: nat, names: map<string, Pin>)
    requires v <= e <= |st.line| && Fits(entries, st.values)
    requires forall j :: i <= j < |entries| && entries[j].maxArrayEntries.None? && EqualsIgnoreCase(key, entries[j].key) ==> entries[j].kind != PinKind
    ensures SingleEntries(entries, i, key, st, v, e, names).line == st.line
    decreases |entries| - i
  {
    if i < |entries| {
      var en := entries[i];
      if en.maxArrayEntries.None? && EqualsIgnoreCase(key, en.key) {
        SingleEntriesKeepLine(entries, i + 1, key, SetValue(en.kind, en.variable, st, v, e, names), v, e, names);
      } else {
        SingleEntriesKeepLine(entries, i + 1, key, st, v, e, names);
      }
    }
  }

  /** The characters of a stored line `key + sep + value + rest`, part by part. */
  lemma StoredParts(b: seq<char>, key: string, sep: string, value: string, rest: string)
    requires |key + sep + value + rest| < |b|
    ensures var t := Stored(b, key + sep + value + rest);
      var v := |key| + |sep|;
      var e := v + |value|;
      t[..|key|] == key &&
      (forall i :: |key| <= i < v ==> t[i] == sep[i - |key|]) &&
      (forall i :: v <= i < e ==> t[i] == value[i - v]) &&
      (forall i :: e <= i < e + |rest| ==> t[i] == rest[i - e])
  {
    var t := Stored(b, key + sep + value + rest);
    assert t[..|key|] == (key + sep + value + rest)[..|key|];
  }

  /** The key scan of a line that starts with a key ending at `k`. */
  lemma KeyScan(t: seq<char>, len: nat, k: nat)
    requires |t| == MaxLineLength && len < MaxLineLength
    requires 0 < k < len && !Continues(KeyChars, t[k])
    requires forall i :: 0 <= i < k ==> Continues(KeyChars, t[i])
    ensures Scan(t, 0, len, KeyChars) == k
  {
    ScanStops(t, 0, len, KeyChars, k);
  }

  /** The key of a line that starts with one. */
  lemma KeyFound(t: seq<char>, len: nat, k: nat, entries: seq<Entry>, values: seq<Value>, names: map<string, Pin>)
    requires |t| == MaxLineLength && len < MaxLineLength && t[len] == NUL && Fits(entries, values)
    requires 0 < k < len && t[0] != '/' && t[0] != '#' && !Continues(KeyChars, t[k])
    requires forall i :: 0 <= i < k ==> Continues(KeyChars, t[i])
    ensures Scan(t, 0, len, KeyChars) == k
    ensures LineEffect(t, len, entries, values, names) == KeyedLine(t, len, len, 0, entries, values, names)
  {
    ScanStops(t, 0, len, Blanks, 0);
    ScanStops(t, 0, len, KeyChars, k);
  }

  /** After the key and its separators comes a single value. */
  lemma SingleValueFound(t: seq<char>, len: nat, k: nat, v: nat, entries: seq<Entry>, values: seq<Value>, names: map<string, Pin>)
    requires |t| == MaxLineLength && len < MaxLineLength && t[len] == NUL && Fits(entries, values)
    requires 0 < k < v < len && Scan(t, 0, len, KeyChars) == k
    requires forall i :: k < i < v ==> Continues(Separators, t[i])
    requires !Continues(Separators, t[v]) && t[v] != '{' && t[v] != NUL
    ensures KeyedLine(t, len, len, 0, entries, values, names) == SingleValue(t[k := NUL], len, len, t[0..k], v, entries, values, names)
  {
    ScanStops(t[k := NUL], k + 1, len, Separators, v);
  }

  /** The single value ends where its run does. */
  lemma SingleValueEnds(b1: seq<char>, len: nat, key: string, v: nat, e: nat, entries: seq<Entry>, values: seq<Value>, names: map<string, Pin>)
    requires |b1| == MaxLineLength && len < MaxLineLength && b1[len] == NUL && Fits(entries, values)
    requires v < e <= len && (forall i :: v <= i < e ==> Continues(ValueChars, b1[i])) && !Continues(ValueChars, b1[e])
    ensures SingleValue(b1, len, len, key, v, entries, values, names) == SingleEntries(entries, 0, key, Parse(b1[e := NUL], e, values), v, e, names)
  {
    ScanStops(b1, v, MaxLineLength, ValueChars, e);
  }

  /**
   * The layout of a single-value line held in `t`, ending at `len`: a key
   * in `t[0..k]`, separators in `t[k..v]` and a value in `t[v..e]` that
   * ends at `e`.
   */
  predicate SingleLayout(t: seq<char>, len: nat, k: nat, v: nat, e: nat) {
    |t| == MaxLineLength && len < MaxLineLength && t[len] == NUL &&
    0 < k < v < e <= len && t[0] != '/' && t[0] != '#' &&
    (forall i :: 0 <= i < k ==> Continues(KeyChars, t[i])) &&
    (forall i :: k <= i < v ==> Continues(Separators, t[i])) &&
    (forall i :: v <= i < e ==> Continues(ValueChars, t[i])) &&
    t[v] != '=' && t[v] != '{' && (e == len || !Continues(ValueChars, t[e]))
  }

  /** How the parser splits a line with the single-value layout. */
  lemma SingleLineAt(t: seq<char>, len: nat, k: nat, v: nat, e: nat, entries: seq<Entry>, values: seq<Value>, names: map<string, Pin>)
    requires SingleLayout(t, len, k, v, e) && Fits(entries, values)
    ensures LineEffect(t, len, entries, values, names) == SingleEntries(entries, 0, t[0..k], Parse(t[k := NUL][e := NUL], e, values), v, e, names)
  {
    assert Continues(Separators, t[k]) && Continues(ValueChars, t[v]);
    KeyScan(t, len, k);
    SingleValueEnds(t[k := NUL], len, t[0..k], v, e, entries, values, names);
    SingleValueFound(t, len, k, v, entries, values, names);
    KeyFound(t, len, k, entries, values, names);
  }

  /** A stored `key + sep + value + rest` line has the single-value layout, with the key and the value where they were written. */
  lemma StoredSingleLayout(b: seq<char>, key: string, sep: string, value: string, rest: string)
    requires |key + sep + value + rest| < |b| == MaxLineLength
    requires KeyText(key) && SeparatorText(sep) && ValueText(value) && EndsValue(rest)
    ensures var t := Stored(b, key + sep + value + rest);
      var v := |key| + |sep|;
      var e := v + |value|;
      SingleLayout(t, |key + sep + value + rest|, |key|, v, e) && t[0..|key|] == key && t[v..e] == value
  {
    var t := Stored(b, key + sep + value + rest);
    var v := |key| + |sep|;
    var e := v + |value|;
    StoredParts(b, key, sep, value, rest);
    assert t[0] == key[0] && t[v] == value[0];
    assert e == |key + sep + value + rest| || t[e] == rest[0];
    assert t[0..|key|] == t[..|key|];
    assert t[v..e] == value;
  }

  /** What a line with the single-value layout sets: what `Applied` says for its key and value. */
  lemma SingleValueAt(t: seq<char>, len: nat, k: nat, v: nat, e: nat, entries: seq<Entry>, values: seq<Value>, names: map<string, Pin>)
    requires SingleLayout(t, len, k, v, e) && Fits(entries, values)
    ensures LineEffect(t, len, entries, values, names).values == Applied(entries, t[0..k], t[v..e], values, names)
  {
    var st := Parse(t[k := NUL][e := NUL], e, values);
    SingleEntriesApplied(entries, 0, t[0..k], st, v, e, names);
    assert st.line[v..e] == t[v..e];
    assert entries[0..] == entries;
    SingleLineAt(t, len, k, v, e, entries, values, names);
  }

  /**
   * When no matching entry of a single-value line is a pin, the buffer
   * afterwards holds the line with NULs written at the end of the key and
   * at the end of the value.
   */
  lemma SingleValueBuffer(t: seq<char>, len: nat, k: nat, v: nat, e: nat, entries: seq<Entry>, values: seq<Value>, names: map<string, Pin>)
    requires SingleLayout(t, len, k, v, e) && Fits(entries, values)
    requires forall j :: 0 <= j < |entries| && entries[j].maxArrayEntries.None? && EqualsIgnoreCase(t[0..k], entries[j].key) ==> entries[j].kind != PinKind
    ensures LineEffect(t, len, entries, values, names).line == t[k := NUL][e := NUL]
  {
    var st := Parse(t[k := NUL][e := NUL], e, values);
    SingleEntriesKeepLine(entries, 0, t[0..k], st, v, e, names);
    SingleLineAt(t, len, k, v, e, entries, values, names);
  }

  /** A key that no non-array entry has changes no variable. */
  lemma {:induction false} AppliedNoMatch(entries: seq<Entry>, key: string, text: string, values: seq<Value>, names: map<string, Pin>)
    requires Fits(entries, values)
    requires forall j :: 0 <= j < |entries| ==> entries[j].maxArrayEntries.Some? || !EqualsIgnoreCase(key, entries[j].key)
    ensures Applied(entries, key, text, values, names) == values
    decreases |entries|
  {
    if |entries| > 0 {
      AppliedNoMatch(entries[1..], key, text, values, names);
    }
  }

  /** A single value changes only the variables of the non-array entries with that key. */
  lemma {:induction false} AppliedFrame(entries: seq<Entry>, key: string, text: string, values: seq<Value>, names: map<string, Pin>, slot: nat)
    requires Fits(entries, values) && slot < |values|
    requires forall j :: 0 <= j < |entries| && entries[j].maxArrayEntries.None? && EqualsIgnoreCase(key, entries[j].key) ==> entries[j].variable != slot
    ensures Applied(entries, key, text, values, names)[slot] == values[slot]
    decreases |entries|
  {
    if |entries| > 0 {
      var en := entries[0];
      if en.maxArrayEntries.None? && EqualsIgnoreCase(key, en.key) {
        AppliedFrame(entries[1..], key, if en.kind == PinKind then Lower(text) else text,
          values[en.variable := Converted(en.kind, text, values[en.variable], names)], names, slot);
      } else {
        AppliedFrame(entries[1..], key, text, values, names, slot);
      }
    }
  }

  /** With exactly one non-array entry for the key, exactly its variable is set to the converted value. */
  lemma AppliedOneMatch(entries: seq<Entry>, key: string, text: string, values: seq<Value>, names: map<string, Pin>, j: nat)
    requires Fits(entries, values) && j < |entries|
    requires entries[j].maxArrayEntries.None? && EqualsIgnoreCase(key, entries[j].key)
    requires forall i :: 0 <= i < |entries| && i != j ==> entries[i].maxArrayEntries.Some? || !EqualsIgnoreCase(key, entries[i].key)
    ensures var slot := entries[j].variable;
      Applied(entries, key, text, values, names) == values[slot := Converted(entries[j].kind, text, values[slot], names)]
  {
    AppliedSplit(entries, key, text, values, names, j);
  }

  lemma {:induction false} AppliedSplit(entries: seq<Entry>, key: string, text: string, values: seq<Value>, names: map<string, Pin>, j: nat)
    requires Fits(entries, values) && j < |entries|
    requires entries[j].maxArrayEntries.None? && EqualsIgnoreCase(key, entries[j].key)
    requires forall i :: 0 <= i < |entries| && i != j ==> entries[i].maxArrayEntries.Some? || !EqualsIgnoreCase(key, entries[i].key)
    ensures var slot := entries[j].variable;
      Applied(entries, key, text, values, names) == values[slot := Converted(entries[j].kind, text, values[slot], names)]
    decreases |entries|
  {
    var en := entries[0];
    if j == 0 {
      var values' := values[en.variable := Converted(en.kind, text, values[en.variable], names)];
      AppliedNoMatch(entries[1..], key, if en.kind == PinKind then Lower(text) else text, values', names);
    } else {
      AppliedSplit(entries[1..], key, text, values, names, j - 1);
    }
  }
}
