/**
 * Pin names of the STM32 board configuration: `StringToPin` turns texts
 * such as `PA_5`, `pb.12` or `C3` into the pin code `(port << 4) | pin`,
 * `LookupPin` first consults the board's pin-name table, and `PrintValue`
 * writes a pin back as `%c.%d`.
 */
module Pins {
  import opened Common

  /** A `Pin` is a `uint8_t`. */
  type Pin = p: int | 0 <= p < 0x100

  const NoPin: Pin := 0xFF

  /** The nine ports A..I, sixteen pins each, give codes below 0x90. */
  const PinCodeLimit: nat := 0x90

  predicate IsSeparator(c: char) {
    c == '.' || c == '_'
  }

  /** A port letter A..I in either case. */
  predicate IsPortLetter(c: char) {
    'A' <= UpperChar(c) <= 'I'
  }

  function PortOf(c: char): nat
    requires IsPortLetter(c)
  {
    UpperChar(c) as int - 'A' as int
  }

  /** The text after the single optional leading 'p' or 'P'. */
  function SkipPortPrefix(s: string): string {
    if |s| > 0 && LowerChar(s[0]) == 'p' then s[1..] else s
  }

  /** `StringToPin`: a null string is `NoPin`; otherwise parse after one optional 'P'. */
  function StringToPin(s: Option<string>): (p: Pin)
    ensures p == NoPin || p < PinCodeLimit
    ensures s.None? ==> p == NoPin
  {
    match s
    case None => NoPin
    case Some(t) => PortAndPin(SkipPortPrefix(t))
  }

  /**
   * The rest of `StringToPin`: the length test, the port letter, the optional
   * separator and the pin number.
   */
  function PortAndPin(t: string): (p: Pin)
    ensures p == NoPin || p < PinCodeLimit
  {
    if LengthAccepted(t) && PortNumber(t[0]) <= 8 then
      var rest := PinDigits(t);
      if DigitRun(rest) > 0 && PinNumber(rest) < 16 then PortNumber(t[0]) * 16 + PinNumber(rest) else NoPin
    else NoPin
  }

  /**
   * The length test.  The length is held in a `uint8_t`, so it is taken
   * modulo 256: three or four characters with a separator second, or two or
   * three characters (either way at least two characters are present).
   */
  predicate LengthAccepted(t: string) {
    var len := |t| % 0x100;
    2 <= |t| && (((len == 3 || len == 4) && IsSeparator(t[1])) || len == 2 || len == 3)
  }

  /** `toupper(c) - 'A'`, held in a `uint8_t`. */
  function PortNumber(c: char): nat {
    (UpperChar(c) as int - 'A' as int) % 0x100
  }

  /** What follows the port letter and the optional separator. */
  function PinDigits(t: string): string
    requires 2 <= |t|
  {
    if IsSeparator(t[1]) then t[2..] else t[1..]
  }

  /**
   * The number read after the port letter, truncated to a `uint8_t`.  The
   * firmware calls the signed `StrToI32` here; the model reads it with the
   * unsigned decimal-prefix `StrToU32`, so no sign and no leading white space
   * are accepted.
   */
  function PinNumber(rest: string): nat {
    StrToU32(rest) % 0x100
  }

  /** `PrintValue` for a pin: `NoPin`, or the port letter, a dot and the pin number. */
  function PinText(p: Pin): string {
    if p == NoPin then "NoPin"
    else [('A' as int + p / 16) as char] + "." + DecimalText(p % 16)
  }

  /**
   * `LookupPin`: the lower-cased text is looked up in the board's pin-name
   * table (`LookupPinName`, here a finite map), falling back on `StringToPin`.
   */
  function LookupPinOf(names: map<string, Pin>, s: string): Pin {
    var l := Lower(s);
    if l in names then names[l] else StringToPin(Some(l))
  }

  // ---------------------------------------------------------------------
  // Properties

  /** `StringToPin(nullptr)` is `NoPin`. */
  lemma NullIsNoPin()
    ensures StringToPin(None) == NoPin
  {
  }

  /** One leading 'p' or 'P' is skipped, and only one. */
  lemma PortPrefixSkipped(t: string)
    ensures StringToPin(Some("p" + t)) == PortAndPin(t)
    ensures StringToPin(Some("P" + t)) == PortAndPin(t)
  {
    assert ("p" + t)[1..] == t;
    assert ("P" + t)[1..] == t;
  }

  /** The digit run of a string that starts with digits `d` and then a non-digit. */
  lemma {:induction false} DigitRunOf(d: string, g: string)
    requires forall i :: 0 <= i < |d| ==> IsDigit(d[i])
    requires g == [] || !IsDigit(g[0])
    ensures DigitRun(d + g) == |d|
    ensures (d + g)[..|d|] == d
    decreases |d|
  {
    if |d| > 0 {
      assert (d + g)[1..] == d[1..] + g;
      DigitRunOf(d[1..], g);
    }
  }

  /**
   * Every accepted form: a port letter A..I, an optional '.' or '_', one or
   * more digits worth less than 16, then anything not starting with a digit,
   * three or four characters long with a separator and two or three without.
   */
  lemma AcceptedForm(letter: char, sep: string, digits: string, tail: string)
    requires IsPortLetter(letter)
    requires sep == "" || sep == "." || sep == "_"
    requires |digits| > 0 && forall i :: 0 <= i < |digits| ==> IsDigit(digits[i])
    requires DecimalValue(digits) < 16
    requires tail == [] || !IsDigit(tail[0])
    requires var n := |[letter] + sep + (digits + tail)|; if sep == "" then 2 <= n <= 3 else 3 <= n <= 4
    ensures var t := [letter] + sep + (digits + tail);
      StringToPin(Some(t)) == PortOf(letter) * 16 + DecimalValue(digits) &&
      StringToPin(Some("P" + t)) == StringToPin(Some(t))
  {
    var t := [letter] + sep + (digits + tail);
    assert t[0] == letter;
    assert LowerChar(letter) != 'p';
    assert SkipPortPrefix(t) == t;
    PortAndPinOfForm(t, letter, sep, digits, tail);
    PortPrefixSkipped(t);
  }

  lemma PortAndPinOfForm(t: string, letter: char, sep: string, digits: string, tail: string)
    requires t == [letter] + sep + (digits + tail)
    requires IsPortLetter(letter)
    requires sep == "" || sep == "." || sep == "_"
    requires |digits| > 0 && forall i :: 0 <= i < |digits| ==> IsDigit(digits[i])
    requires DecimalValue(digits) < 16
    requires tail == [] || !IsDigit(tail[0])
    requires if sep == "" then 2 <= |t| <= 3 else 3 <= |t| <= 4
    ensures PortAndPin(t) == PortOf(letter) * 16 + DecimalValue(digits)
  {
    SmallRemainder(|t|, 0x100);
    assert LengthAccepted(t) by {
      if sep != "" { assert t[1] == sep[0]; }
    }
    assert t[0] == letter;
    PortNumberOfLetter(letter);
    DropPrefix([letter] + sep, digits + tail);
    assert PinDigits(t) == digits + tail by {
      if sep == "" {
        assert t[1] == digits[0];
      } else {
        assert t[1] == sep[0];
      }
    }
    PinNumberOf(digits, tail);
  }

  /** The pin number read from digits worth less than 16 followed by a non-digit. */
  lemma PinNumberOf(digits: string, tail: string)
    requires |digits| > 0 && forall i :: 0 <= i < |digits| ==> IsDigit(digits[i])
    requires DecimalValue(digits) < 16
    requires tail == [] || !IsDigit(tail[0])
    ensures DigitRun(digits + tail) > 0 && PinNumber(digits + tail) == DecimalValue(digits)
  {
    DigitRunOf(digits, tail);
    SmallRemainder(DecimalValue(digits), 0x1_0000_0000);
    SmallRemainder(DecimalValue(digits), 0x100);
  }

  /** For the letters A..I, `toupper(c) - 'A'` is the port's number. */
  lemma PortNumberOfLetter(c: char)
    requires IsPortLetter(c)
    ensures PortNumber(c) == PortOf(c)
  {
    SmallRemainder(UpperChar(c) as int - 'A' as int, 0x100);
  }

  lemma DropPrefix(a: string, b: string)
    ensures (a + b)[|a|..] == b
  {
  }

  /** Taking the remainder of a value below the modulus keeps it. */
  lemma SmallRemainder(x: int, m: int)
    requires 0 <= x < m
    ensures x % m == x
  {
  }

  /** Conversely, every text `StringToPin` accepts has that shape. */
  lemma AcceptedOnlyInForm(s: string)
    requires StringToPin(Some(s)) != NoPin
    requires |s| < 0x100 && forall i :: 0 <= i < |s| ==> s[i] as int < 0x100
    ensures var t := SkipPortPrefix(s);
      2 <= |t| && IsPortLetter(t[0]) &&
      (if IsSeparator(t[1]) then 3 <= |t| <= 4 else |t| <= 3) &&
      var rest := PinDigits(t);
      var d := rest[..DigitRun(rest)];
      |d| > 0 && DecimalValue(d) < 16 && StringToPin(Some(s)) == PortOf(t[0]) * 16 + DecimalValue(d)
  {
    var t := SkipPortPrefix(s);
    SmallRemainder(|t|, 0x100);
    assert t[0] as int < 0x100 by {
      if |s| > 0 && LowerChar(s[0]) == 'p' { assert t[0] == s[1]; } else { assert t[0] == s[0]; }
    }
    PortLetterOfNumber(t[0]);
    var rest := PinDigits(t);
    assert |rest| <= 2;
    ShortPinNumber(rest);
  }

  /** A byte whose `toupper(c) - 'A'` is at most 8 is one of the letters A..I. */
  lemma PortLetterOfNumber(c: char)
    requires c as int < 0x100 && PortNumber(c) <= 8
    ensures IsPortLetter(c) && PortNumber(c) == PortOf(c)
  {
    var x := UpperChar(c) as int - 'A' as int;
    assert -0x41 <= x < 0xBF;
    if 0 <= x {
      SmallRemainder(x, 0x100);
    }
  }

  /** At most two characters can only hold a number below 100, which no truncation changes. */
  lemma ShortPinNumber(rest: string)
    requires |rest| <= 2
    ensures PinNumber(rest) == DecimalValue(rest[..DigitRun(rest)])
  {
    var d := rest[..DigitRun(rest)];
    DecimalBound(d);
    SmallRemainder(DecimalValue(d), 0x1_0000_0000);
    SmallRemainder(DecimalValue(d), 0x100);
  }

  /** A string of at most two digits is worth less than 10 to the power of its length. */
  lemma {:induction false} DecimalBound(d: string)
    requires forall i :: 0 <= i < |d| ==> IsDigit(d[i])
    requires |d| <= 2
    ensures DecimalValue(d) < (if |d| == 0 then 1 else if |d| == 1 then 10 else 100)
  {
    if |d| > 0 {
      DecimalBound(d[..|d| - 1]);
    }
  }

  /** Ports beyond I are refused whatever follows. */
  lemma PortBeyondI(c: char, t: string)
    requires 'J' <= c <= 'Z' || 'j' <= c <= 'z'
    requires c != 'p' && c != 'P'
    ensures StringToPin(Some([c] + t)) == NoPin
  {
    assert SkipPortPrefix([c] + t) == [c] + t;
  }

  /** `PA_5` names pin 0x05: port A, pin 5. */
  lemma ExamplePA5()
    ensures StringToPin(Some("PA_5")) == 0x05
  {
    AcceptedForm('A', "_", "5", "");
    assert "P" + (['A'] + "_" + ("5" + "")) == "PA_5";
  }

  /** `pb.12` names pin 0x1C: port B, pin 12, whatever the case. */
  lemma ExamplePB12()
    ensures StringToPin(Some("pb.12")) == 0x1C
  {
    assert DecimalValue("12") == 12 by { assert "12"[..1] == "1"; assert "1"[..0] == ""; }
    AcceptedForm('b', ".", "12", "");
    assert "pb.12"[1..] == "b.12";
    assert ['b'] + "." + ("12" + "") == "b.12";
  }

  /** `C3`, with no separator, names pin 0x23. */
  lemma ExampleC3()
    ensures StringToPin(Some("C3")) == 0x23
  {
    AcceptedForm('C', "", "3", "");
    assert ['C'] + "" + ("3" + "") == "C3";
  }

  /** `A.23` names no pin (23 is not below 16), nor does the four-character `A123`. */
  lemma RefusedExamples()
    ensures StringToPin(Some("A.23")) == NoPin
    ensures StringToPin(Some("A123")) == NoPin
  {
    assert SkipPortPrefix("A.23") == "A.23";
    assert PinDigits("A.23") == "23";
    ShortPinNumber("23");
    DigitRunOf("23", "");
    assert "23" + "" == "23";
    assert DecimalValue("23") == 23 by { assert "23"[..1] == "2"; assert "2"[..0] == ""; }
    assert SkipPortPrefix("A123") == "A123";
    assert !LengthAccepted("A123");
  }

  /** Reading back what `PrintValue` writes gives the same pin. */
  lemma PrintedPinReadsBack(p: Pin)
    requires p < PinCodeLimit || p == NoPin
    ensures StringToPin(Some(PinText(p))) == p
  {
    if p != NoPin {
      var t := PinText(p);
      var d := DecimalText(p % 16);
      assert t == [('A' as int + p / 16) as char] + "." + (d + []);
      assert |d| <= 2 by {
        if p % 16 >= 10 { assert d == DecimalText(1) + [('0' as int + p % 16 % 10) as char]; }
      }
      AcceptedForm(t[0], ".", d, []);
    } else {
      assert SkipPortPrefix("NoPin") == "NoPin";
    }
  }

  /** `StringToPin` ignores case, so the lower-casing in `LookupPin` does not change its answer. */
  lemma StringToPinIgnoresCase(s: string)
    ensures StringToPin(Some(Lower(s))) == StringToPin(Some(s))
  {
    PrefixIgnoresCase(s);
    PortAndPinIgnoresCase(SkipPortPrefix(s));
  }

  /** The optional 'P' is recognised in either case, and lower-casing commutes with skipping it. */
  lemma PrefixIgnoresCase(s: string)
    ensures SkipPortPrefix(Lower(s)) == Lower(SkipPortPrefix(s))
  {
    if |s| > 0 {
      assert LowerChar(Lower(s)[0]) == LowerChar(s[0]);
      LowerDrop(s, 1);
    }
  }

  /** The length test, the port letter, the separator and the digits are all blind to case. */
  lemma PortAndPinIgnoresCase(t: string)
    ensures PortAndPin(Lower(t)) == PortAndPin(t)
  {
    var u := Lower(t);
    if |t| >= 2 {
      assert IsSeparator(u[1]) == IsSeparator(t[1]);
      assert LengthAccepted(u) == LengthAccepted(t);
      assert PortNumber(u[0]) == PortNumber(t[0]);
      if IsSeparator(t[1]) { LowerDrop(t, 2); } else { LowerDrop(t, 1); }
      assert PinDigits(u) == Lower(PinDigits(t));
      DigitsIgnoreCase(PinDigits(t));
    }
  }

  /** Lower-casing leaves the digit prefix and its value alone. */
  lemma DigitsIgnoreCase(r: string)
    ensures DigitRun(Lower(r)) == DigitRun(r)
    ensures StrToU32(Lower(r)) == StrToU32(r)
  {
    var n := DigitRun(r);
    var l := Lower(r);
    assert r[..n] + r[n..] == r;
    assert l[..n] == r[..n];
    assert l == r[..n] + l[n..];
    DigitRunOf(r[..n], l[n..]);
  }

  /** When the name table does not know a text, `LookupPin` is `StringToPin` of the text as given. */
  lemma LookupFallsBack(names: map<string, Pin>, s: string)
    requires Lower(s) !in names
    ensures LookupPinOf(names, s) == StringToPin(Some(s))
  {
    StringToPinIgnoresCase(s);
  }

  /** A name in the table wins over the text's own pin reading. */
  lemma LookupPrefersTable(names: map<string, Pin>, s: string)
    requires Lower(s) in names
    ensures LookupPinOf(names, s) == names[Lower(s)]
  {
  }
}
