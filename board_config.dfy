/**
 * The STM32 board configuration reader working in place: a 120-byte line
 * buffer, a cursor into it and the board's configuration variables.  Each
 * method is proved to do what the functions of `ConfigParser` describe.
 */
module BoardConfiguration {
  import opened Common
  import opened Pins
  import opened ConfigValues
  import opened ConfigReader
  import opened ConfigParser

  /** A cursor loop: advance from `pos` while `run` continues and `bound` is not reached. */
  method ScanLine(line: array<char>, pos: nat, bound: nat, run: Run) returns (e: nat)
    requires bound <= line.Length
    ensures e == Scan(line[..], pos, bound, run)
  {
    e := pos;
    while e < bound && Continues(run, line[e])
      invariant pos <= e
      invariant Scan(line[..], e, bound, run) == Scan(line[..], pos, bound, run)
      decreases bound - e
    {
      e := e + 1;
    }
  }

  /** `strlen(line + start)`, where `end` is the position of the terminating NUL. */
  method Strlen(line: array<char>, start: nat, ghost end: nat) returns (n: nat)
    requires start <= end < line.Length && line[end] == NUL
    requires forall k :: start <= k < end ==> line[k] != NUL
    ensures n == end - start
  {
    n := 0;
    while line[start + n] != NUL
      invariant start + n <= end
      decreases end - (start + n)
    {
      n := n + 1;
    }
  }

  /** The board's configuration variables, and the pin-name table that `LookupPinName` consults. */
  class BoardConfig {
    var values: seq<Value>
    const names: map<string, Pin>

    constructor (values: seq<Value>, names: map<string, Pin>)
      ensures this.values == values && this.names == names
    {
      this.values := values;
      this.names := names;
    }

    /** `LookupPin`: lower-case the NUL-terminated text at `start` in place, then look it up. */
    method LookupPin(line: array<char>, start: nat, ghost end: nat) returns (p: Pin)
      requires start <= end < line.Length && line[end] == NUL
      requires forall k :: start <= k < end ==> line[k] != NUL
      modifies line
      ensures p == LookupPinOf(names, old(line[start..end]))
      ensures line[..] == old(line[..start]) + Lower(old(line[start..end])) + old(line[end..])
    {
      ghost var before := line[..];
      var l := start;
      while line[l] != NUL
        invariant start <= l <= end
        invariant forall k :: start <= k < l ==> line[k] == LowerChar(before[k])
        invariant forall k :: 0 <= k < start || l <= k < line.Length ==> line[k] == before[k]
        decreases end - l
      {
        line[l] := LowerChar(line[l]);
        l := l + 1;
      }
      assert line[..] == before[..start] + Lower(before[start..end]) + before[end..];
      var text := line[start..l];
      assert text == Lower(before[start..end]);
      if text in names {
        p := names[text];
      } else {
        p := StringToPin(Some(text));
      }
    }

    /** `SetValueFromString` for the NUL-terminated value text at `start`. */
    method SetValueFromString(kind: Kind, slot: nat, line: array<char>, start: nat, ghost end: nat)
      requires slot < |values|
      requires start <= end < line.Length && line[end] == NUL
      requires forall k :: start <= k < end ==> line[k] != NUL
      modifies this, line
      ensures var r := SetValue(kind, slot, Parse(old(line[..]), 0, old(values)), start, end, names);
        line[..] == r.line && values == r.values
      ensures line[end] == NUL && forall k :: start <= k < end ==> line[k] != NUL
    {
      ghost var text := line[start..end];
      if kind == PinKind {
        var pin := LookupPin(line, start, end);
        values := values[slot := PinValue(pin)];
        assert line[end] == old(line[..])[end];
        forall k | start <= k < end
          ensures line[k] != NUL
        {
          assert line[k] == LowerChar(text[k - start]);
        }
      } else {
        var n := Strlen(line, start, end);
        var value := ConvertText(kind, line[start..start + n], values[slot]);
        values := values[slot := value];
      }
    }

    /** The conversions of `SetValueFromString` that only read the value text. */
    method ConvertText(kind: Kind, text: string, prior: Value) returns (v: Value)
      requires kind != PinKind
      ensures v == Converted(kind, text, prior, names)
    {
      match kind
      case BoolKind =>
        var res := false;
        if |text| == 1 {
          if text[0] == '1' {
            res := true;
          }
        } else if |text| == 4 && EqualsIgnoreCase(text, "true") {
          res := true;
        }
        v := BoolValue(res);
      case Uint8Kind =>
        v := Uint8Value(StrToU32(text) % 0x100);
      case Uint16Kind =>
        v := Uint16Value(StrToU32(text) % 0x1_0000);
      case Uint32Kind =>
        v := Uint32Value(StrToU32(text));
      case StringKind =>
        v := prior;
        if |text| + 1 < MaxBoardNameLength {
          v := StringValue(text);
        }
    }

    /** The single-value case: the value text is `line[start..end]`; set every matching non-array entry. */
    method SetSingle(entries: seq<Entry>, key: string, line: array<char>, start: nat, end: nat)
      requires Fits(entries, values)
      requires start <= end < line.Length && line[end] == NUL
      requires forall k :: start <= k < end ==> line[k] != NUL
      modifies this, line
      ensures var r := SingleEntries(entries, 0, key, Parse(old(line[..]), end, old(values)), start, end, names);
        line[..] == r.line && values == r.values
    {
      ghost var target := SingleEntries(entries, 0, key, Parse(line[..], end, values), start, end, names);
      for i := 0 to |entries|
        invariant Fits(entries, values) && line[end] == NUL
        invariant forall k :: start <= k < end ==> line[k] != NUL
        invariant SingleEntries(entries, i, key, Parse(line[..], end, values), start, end, names) == target
      {
        var en := entries[i];
        if en.maxArrayEntries.None? && EqualsIgnoreCase(key, en.key) {
          SetValueFromString(en.kind, en.variable, line, start, end);
        }
      }
    }

    /**
     * One matching array entry: skip the blanks after the cursor `start`,
     * then read the array's values.
     */
    method ReadArrayInto(max: nat, slot: nat, line: array<char>, start: nat) returns (pos: nat)
      requires line.Length == MaxLineLength && slot < |values|
      modifies this, line
      ensures Parse(line[..], pos, values) == ReadArray(max, slot, Parse(old(line[..]), start, old(values)), names)
    {
      pos := ScanLine(line, start, MaxLineLength, Blanks);
      pos := SearchValues(max, slot, line, pos);
    }

    /**
     * The `while (searching)` loop: read at most `max` pins into the
     * temporary `read`, and copy them into variable `slot` when the closing
     * brace is reached.
     */
    method SearchValues(max: nat, slot: nat, line: array<char>, start: nat) returns (pos: nat)
      requires line.Length == MaxLineLength && slot < |values|
      modifies this, line
      ensures Parse(line[..], pos, values) == SearchArray(max, slot, Parse(old(line[..]), start, old(values)), [], names)
    {
      ghost var target := SearchArray(max, slot, Parse(line[..], start, values), [], names);
      pos := start;
      var read: seq<Pin> := [];
      while pos < MaxLineLength
        invariant |read| <= max && slot < |values|
        invariant SearchArray(max, slot, Parse(line[..], pos, values), read, names) == target
        decreases MaxLineLength - pos
      {
        ghost var probe := pos;
        pos := ScanLine(line, pos, MaxLineLength, Blanks);
        if pos == MaxLineLength {
          return;
        }
        if line[pos] == '}' {
          // the brace came before a value: the source's `arrIdx--` leaves
          // `arrIdx + 1` values to copy, and none when nothing was read
          if |read| > 0 {
            values := values[slot := CopyPins(values[slot], read)];
          }
          return;
        }
        if |read| >= max {
          return;
        }
        var valueStart := pos;
        pos := ScanLine(line, pos, MaxLineLength, ArrayValueChars);
        if pos == MaxLineLength || line[pos] == NUL || line[pos] == '/' || line[pos] == '#' || line[pos] == ';' {
          return;
        }
        var closed := line[pos] == '}';
        SearchValueStep(max, slot, Parse(line[..], probe, values), read, names, valueStart, pos);
        var pin := ReadValue(line, valueStart, pos);
        read := read + [pin];
        if closed {
          values := values[slot := CopyPins(values[slot], read)];
          return;
        }
        pos := pos + 1;
      }
    }

    /** Cut out the array value `line[start..end]` with a NUL and look it up as a pin. */
    method ReadValue(line: array<char>, start: nat, end: nat) returns (pin: Pin)
      requires start <= end < line.Length
      requires forall k :: start <= k < end ==> line[k] != NUL
      modifies line
      ensures pin == LookupPinOf(names, old(line[start..end]))
      ensures line[..] == CutValue(old(line[..]), start, end)
    {
      ghost var b := line[..];
      line[end] := NUL;
      ghost var b1 := line[..];
      assert b1 == b[end := NUL];
      assert b1[start..end] == b[start..end];
      pin := LookupPin(line, start, end);
    }

    /** The array case: every matching array entry reads from the shared cursor `start`. */
    method ReadArrays(entries: seq<Entry>, key: string, line: array<char>, start: nat) returns (pos: nat)
      requires line.Length == MaxLineLength && Fits(entries, values)
      modifies this, line
      ensures Parse(line[..], pos, values) == ArrayEntries(entries, 0, key, Parse(old(line[..]), start, old(values)), names)
    {
      ghost var target := ArrayEntries(entries, 0, key, Parse(line[..], start, values), names);
      pos := start;
      for i := 0 to |entries|
        invariant Fits(entries, values)
        invariant ArrayEntries(entries, i, key, Parse(line[..], pos, values), names) == target
      {
        var en := entries[i];
        if en.maxArrayEntries.Some? && EqualsIgnoreCase(key, en.key) {
          pos := ReadArrayInto(en.maxArrayEntries.value, en.variable, line, pos);
        }
      }
    }

    /** One line of `len` characters, NUL-terminated in `line`: blank, comment, `key = value` or `key = { ... }`. */
    method ProcessLine(line: array<char>, len: nat, entries: seq<Entry>)
      requires line.Length == MaxLineLength && len < MaxLineLength && line[len] == NUL
      requires Fits(entries, values)
      modifies this, line
      ensures var r := LineEffect(old(line[..]), len, entries, old(values), names);
        line[..] == r.line && values == r.values
    {
      var pos := ScanLine(line, 0, len, Blanks);
      if pos < len && line[pos] != '/' && line[pos] != '#' {
        ProcessKey(line, len, pos, entries);
      }
    }

    /** A line whose key starts at `keyStart`. */
    method ProcessKey(line: array<char>, len: nat, keyStart: nat, entries: seq<Entry>)
      requires line.Length == MaxLineLength && keyStart < len < MaxLineLength && line[len] == NUL
      requires Fits(entries, values)
      modifies this, line
      ensures var r := KeyedLine(old(line[..]), len, len, keyStart, entries, old(values), names);
        line[..] == r.line && values == r.values
    {
      ghost var b := line[..];
      var pos := ScanLine(line, keyStart, len, KeyChars);
      ghost var k := pos;
      var key := line[keyStart..pos];
      assert key == b[keyStart..k];
      line[pos] := NUL;
      assert line[..] == b[k := NUL];
      pos := ScanLine(line, pos + 1, len, Separators);
      if pos < len && line[pos] == '{' {
        KeyedArrayCase(b, len, keyStart, k, pos, entries, values, names);
        pos := ReadArrays(entries, key, line, pos + 1);
      } else if pos < len && line[pos] != NUL {
        KeyedSingleCase(b, len, keyStart, k, pos, entries, values, names);
        ProcessSingle(line, len, key, pos, entries);
      } else {
        KeyedEmptyCase(b, len, keyStart, k, pos, entries, values, names);
      }
    }

    /** A single value starting at `valueStart`, for the key `key`. */
    method ProcessSingle(line: array<char>, len: nat, key: string, valueStart: nat, entries: seq<Entry>)
      requires line.Length == MaxLineLength && valueStart < len < MaxLineLength && line[len] == NUL
      requires Fits(entries, values)
      modifies this, line
      ensures var r := SingleValue(old(line[..]), len, len, key, valueStart, entries, old(values), names);
        line[..] == r.line && values == r.values
    {
      assert !Continues(ValueChars, line[len]);
      var pos := ScanLine(line, valueStart, MaxLineLength, ValueChars);
      ghost var b := line[..];
      line[pos] := NUL;
      assert line[..] == b[pos := NUL];
      SetSingle(entries, key, line, valueStart, pos);
    }

    /**
     * `GetConfigKeys`: read the configuration file line by line into a
     * 120-byte buffer and apply each line; the result is always false.
     */
    method GetConfigKeys(file: ConfigFile, entries: seq<Entry>) returns (r: bool)
      requires file.Valid() && Fits(entries, values)
      modifies this, file
      ensures !r && file.offset == |file.data|
      ensures values == ConfigLines(file.data, old(file.offset), EmptyBuffer(), entries, old(values), names).values
    {
      ghost var target := ConfigLines(file.data, file.offset, EmptyBuffer(), entries, values, names).values;
      var line := new char[MaxLineLength](_ => NUL);
      assert line[..] == EmptyBuffer();
      ghost var lineStart := file.offset;
      ghost var bufBefore := line[..];
      var readLen := ReadLine(file, line, MaxLineLength);
      while readLen >= 0
        invariant file.Valid() && lineStart <= |file.data| && |bufBefore| == MaxLineLength
        invariant Fits(entries, values)
        invariant match NextLine(file.data, lineStart, MaxLineLength)
          case EndOfInput => readLen == -1 && file.offset == |file.data|
          case Line(text, next) =>
            readLen == |text| && file.offset == next && |text| < MaxLineLength && line[..] == Stored(bufBefore, text)
        invariant ConfigLines(file.data, lineStart, bufBefore, entries, values, names).values == target
        decreases |file.data| - lineStart
      {
        NextLineShape(file.data, lineStart, MaxLineLength);
        ProcessLine(line, readLen, entries);
        lineStart := file.offset;
        bufBefore := line[..];
        readLen := ReadLine(file, line, MaxLineLength);
      }
      r := false;
    }
  }
}
