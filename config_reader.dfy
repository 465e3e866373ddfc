/**
 * `ReadLine` of the STM32 board configuration: read one line of the
 * configuration file, one byte at a time, into a caller's buffer.
 */
module ConfigReader {
  import opened Common

  /** An open file: its bytes and the read position. */
  class ConfigFile {
    const data: string
    var offset: nat

    predicate Valid()
      reads this
    {
      offset <= |data|
    }

    constructor (data: string)
      ensures this.data == data && offset == 0 && Valid()
    {
      this.data := data;
      offset := 0;
    }

    /** `f_read` of one byte: the next byte, or nothing at the end of the file. */
    method ReadByte() returns (c: Option<char>)
      requires Valid()
      modifies this
      ensures Valid()
      ensures old(offset) < |data| ==> c == Some(data[old(offset)]) && offset == old(offset) + 1
      ensures old(offset) == |data| ==> c == None && offset == old(offset)
    {
      if offset < |data| {
        c := Some(data[offset]);
        offset := offset + 1;
      } else {
        c := None;
      }
    }
  }

  /** The outcome of reading a line: nothing before the end of the file, or a text and where the next line starts. */
  datatype LineRead = EndOfInput | Line(text: string, next: nat)

  /**
   * The line `ReadLine` reads from `data` at `pos`, storing at most `cap`
   * characters: carriage returns are dropped, a line feed ends the line and
   * is consumed, and the end of the file before anything was stored is
   * `EndOfInput`.  `acc` is what was stored so far.
   */
  function Gather(data: string, pos: nat, acc: string, cap: int): LineRead
    requires pos <= |data|
    decreases |data| - pos
  {
    if |acc| >= cap then Line(acc, pos)
    else if pos == |data| then (if |acc| == 0 then EndOfInput else Line(acc, pos))
    else if data[pos] == '\r' then Gather(data, pos + 1, acc, cap)
    else if data[pos] == '\n' then Line(acc, pos + 1)
    else Gather(data, pos + 1, acc + [data[pos]], cap)
  }

  /** `ReadLine(fp, p, len)` reads at most `len - 1` characters. */
  function NextLine(data: string, pos: nat, len: int): LineRead
    requires pos <= |data|
  {
    Gather(data, pos, [], len - 1)
  }

  /** `s` without its carriage returns. */
  function RemoveReturns(s: string): string {
    if |s| == 0 then []
    else (if s[0] == '\r' then [] else [s[0]]) + RemoveReturns(s[1..])
  }

  predicate NoBreaks(s: string) {
    forall i :: 0 <= i < |s| ==> s[i] != '\r' && s[i] != '\n'
  }

  predicate NoLineFeed(s: string) {
    forall i :: 0 <= i < |s| ==> s[i] != '\n'
  }

  predicate AllReturns(s: string) {
    forall i :: 0 <= i < |s| ==> s[i] == '\r'
  }

  /**
   * `ReadLine`: store the line at `file`'s position in `p`, terminated by a
   * NUL, and return its length, or return -1 and store nothing when the file
   * ends first.
   */
  method ReadLine(file: ConfigFile, p: array<char>, len: int) returns (r: int)
    requires file.Valid()
    requires 0 < p.Length && len <= p.Length
    modifies file, p
    ensures file.Valid()
    ensures match NextLine(file.data, old(file.offset), len)
      case EndOfInput => r == -1 && p[..] == old(p[..]) && file.offset == |file.data|
      case Line(text, next) =>
        r == |text| && file.offset == next && |text| < p.Length &&
        p[..] == text + [NUL] + old(p[..])[|text| + 1..]
  {
    ghost var start := file.offset;
    ghost var before := p[..];
    var nc := 0;
    while nc < len - 1
      invariant file.Valid() && start <= file.offset
      invariant 0 <= nc < p.Length && (nc < len || nc == 0)
      invariant Gather(file.data, file.offset, p[..nc], len - 1) == NextLine(file.data, start, len)
      invariant forall k :: nc <= k < p.Length ==> p[k] == before[k]
      decreases |file.data| - file.offset
    {
      var c := file.ReadByte();
      if c.None? {
        if nc == 0 {
          return -1;
        }
        break;
      }
      var s := c.value;
      if s == '\r' {
        continue;
      }
      if s == '\n' {
        break;
      }
      ghost var stored := p[..nc];
      p[nc] := s;
      assert p[..nc + 1] == stored + [s];
      nc := nc + 1;
    }
    ghost var text := p[..nc];
    p[nc] := NUL;
    assert p[..] == text + [NUL] + before[nc + 1..];
    r := nc;
  }

  // ---------------------------------------------------------------------
  // Properties

  /**
   * A line holds no carriage return or line feed and at most `len - 1`
   * characters; it is what the file holds from the read position with the
   * carriage returns dropped, up to and excluding the first line feed, which
   * is consumed, or up to the end of the file or the capacity.  The file is
   * exhausted for `ReadLine` exactly when only carriage returns are left and
   * the buffer has room for a character.
   */
  lemma NextLineShape(data: string, pos: nat, len: int)
    requires pos <= |data|
    ensures NextLine(data, pos, len) == EndOfInput <==> 1 < len && AllReturns(data[pos..])
    ensures match NextLine(data, pos, len)
      case EndOfInput => true
      case Line(text, next) =>
        pos <= next <= |data| && NoBreaks(text) && (|text| <= len - 1 || text == []) &&
        (1 < len ==> pos < next) &&
        ((pos < next && data[next - 1] == '\n' && NoLineFeed(data[pos..next - 1]) && text == RemoveReturns(data[pos..next - 1])) ||
         (NoLineFeed(data[pos..next]) && text == RemoveReturns(data[pos..next]) && (next == |data| || |text| >= len - 1)))
  {
    GatherEnd(data, pos, [], len - 1);
    GatherBounds(data, pos, [], len - 1);
    GatherContent(data, pos, [], len - 1);
    assert [] + RemoveReturns(data[pos..]) == RemoveReturns(data[pos..]);
  }

  /** The end of the file is reported exactly when nothing but carriage returns is left and nothing was stored. */
  lemma {:induction false} GatherEnd(data: string, pos: nat, acc: string, cap: int)
    requires pos <= |data|
    ensures Gather(data, pos, acc, cap) == EndOfInput <==> acc == [] && 0 < cap && AllReturns(data[pos..])
    decreases |data| - pos
  {
    if |acc| >= cap || pos == |data| || data[pos] == '\n' {
    } else {
      GatherEnd(data, pos + 1, if data[pos] == '\r' then acc else acc + [data[pos]], cap);
      StepOver(data, pos, acc, if data[pos] == '\r' then [] else [data[pos]]);
    }
  }

  /** A line lies within the file, is free of line breaks and respects the capacity. */
  lemma {:induction false} GatherBounds(data: string, pos: nat, acc: string, cap: int)
    requires pos <= |data|
    requires NoBreaks(acc) && (|acc| <= cap || acc == [])
    ensures match Gather(data, pos, acc, cap)
      case EndOfInput => true
      case Line(text, next) =>
        pos <= next <= |data| && NoBreaks(text) && (|text| <= cap || text == []) &&
        (acc == [] && 0 < cap ==> pos < next)
    decreases |data| - pos
  {
    if |acc| >= cap || pos == |data| || data[pos] == '\n' {
    } else if data[pos] == '\r' {
      GatherBounds(data, pos + 1, acc, cap);
    } else {
      GatherBounds(data, pos + 1, acc + [data[pos]], cap);
    }
  }

  /** A line is the file's text from the read position with the carriage returns dropped. */
  lemma {:induction false} GatherContent(data: string, pos: nat, acc: string, cap: int)
    requires pos <= |data|
    ensures match Gather(data, pos, acc, cap)
      case EndOfInput => true
      case Line(text, next) =>
        pos <= next <= |data| &&
        ((pos < next && data[next - 1] == '\n' && NoLineFeed(data[pos..next - 1]) && text == acc + RemoveReturns(data[pos..next - 1])) ||
         (NoLineFeed(data[pos..next]) && text == acc + RemoveReturns(data[pos..next]) && (next == |data| || |text| >= cap)))
    decreases |data| - pos
  {
    if |acc| >= cap || pos == |data| || data[pos] == '\n' {
      assert data[pos..pos] == [];
      assert acc + [] == acc;
    } else {
      var kept := if data[pos] == '\r' then [] else [data[pos]];
      GatherContent(data, pos + 1, acc + kept, cap);
      assert acc + kept == (if data[pos] == '\r' then acc else acc + [data[pos]]);
      StepOver(data, pos, acc, kept);
    }
  }

  /** Reading one ordinary character or carriage return at the front. */
  lemma StepOver(data: string, pos: nat, acc: string, kept: string)
    requires pos < |data| && data[pos] != '\n'
    requires kept == (if data[pos] == '\r' then [] else [data[pos]])
    ensures forall e :: pos < e <= |data| ==>
      RemoveReturns(data[pos..e]) == kept + RemoveReturns(data[pos + 1..e]) &&
      (NoLineFeed(data[pos + 1..e]) ==> NoLineFeed(data[pos..e])) &&
      (acc + kept) + RemoveReturns(data[pos + 1..e]) == acc + RemoveReturns(data[pos..e])
    ensures AllReturns(data[pos + 1..]) && data[pos] == '\r' ==> AllReturns(data[pos..])
    ensures AllReturns(data[pos..]) ==> data[pos] == '\r' && AllReturns(data[pos + 1..])
  {
    forall e | pos < e <= |data|
      ensures RemoveReturns(data[pos..e]) == kept + RemoveReturns(data[pos + 1..e])
    {
      assert data[pos..e][1..] == data[pos + 1..e];
    }
  }

  /** Carriage returns are dropped anywhere: "ab\r\ncd" gives the line "ab", then "cd". */
  lemma LineExample()
    ensures NextLine("ab\r\ncd", 0, 120) == Line("ab", 4)
    ensures NextLine("ab\r\ncd", 4, 120) == Line("cd", 6)
    ensures NextLine("ab\r\ncd", 6, 120) == EndOfInput
  {
  }

  /** A full buffer ends the line before the line feed, which then reads as an empty line. */
  lemma FullBufferExample()
    ensures NextLine("abc\n", 0, 4) == Line("abc", 3)
    ensures NextLine("abc\n", 3, 4) == Line("", 4)
  {
  }
}
