/**
 * Typed configuration values of the STM32 board configuration and how
 * `SetValueFromString` converts the text of a value for each type.
 */
module ConfigValues {
  import opened Common
  import opened Pins

  /** The value types of the configuration table, without `cvFloatType`. */
  datatype Kind = PinKind | BoolKind | Uint8Kind | Uint16Kind | Uint32Kind | StringKind

  /** What a configuration variable holds. */
  datatype Value =
    | PinValue(pin: Pin)
    | BoolValue(flag: bool)
    | Uint8Value(u8: nat)
    | Uint16Value(u16: nat)
    | Uint32Value(u32: nat)
    | StringValue(text: string)
    | PinArray(pins: seq<Pin>)

  /** Capacity of the board-name buffer, terminator included. */
  const MaxBoardNameLength: nat := 30

  /** The boolean case: "1" alone, or "true" in any case, is true. */
  function ParseBool(v: string): bool
  {
    if |v| == 1 then v[0] == '1'
    else if |v| == 4 && EqualsIgnoreCase(v, "true") then true
    else false
  }

  /**
   * The value `SetValueFromString` stores for a value text `v`, given the
   * variable's current value `prior`: integers are the decimal prefix truncated
   * to the variable's width, and a string too long for the board-name buffer
   * leaves the variable as it was.
   */
  function Converted(kind: Kind, v: string, prior: Value, names: map<string, Pin>): (r: Value)
    ensures kind == StringKind ==> r == (if |v| + 1 < MaxBoardNameLength then StringValue(v) else prior)
    ensures kind == Uint8Kind ==> r.Uint8Value? && r.u8 < 0x100
    ensures kind == Uint16Kind ==> r.Uint16Value? && r.u16 < 0x1_0000
    ensures kind == Uint32Kind ==> r.Uint32Value? && r.u32 < 0x1_0000_0000
  {
    match kind
    case PinKind => PinValue(LookupPinOf(names, v))
    case BoolKind => BoolValue(ParseBool(v))
    case Uint8Kind => Uint8Value(StrToU32(v) % 0x100)
    case Uint16Kind => Uint16Value(StrToU32(v) % 0x1_0000)
    case Uint32Kind => Uint32Value(StrToU32(v))
    case StringKind => if |v| + 1 < MaxBoardNameLength then StringValue(v) else prior
  }

  /** The destination array after copying `read` over its first entries; later defaults stay. */
  function CopyPins(prior: Value, read: seq<Pin>): (r: Value)
    ensures r.PinArray? && |read| <= |r.pins| && r.pins[..|read|] == read
    ensures prior.PinArray? && |read| <= |prior.pins| ==> |r.pins| == |prior.pins| && r.pins[|read|..] == prior.pins[|read|..]
  {
    if prior.PinArray? && |read| <= |prior.pins| then PinArray(read + prior.pins[|read|..]) else PinArray(read)
  }

  // ---------------------------------------------------------------------
  // Properties

  /** What `PrintValue` prints for a boolean reads back as that boolean. */
  lemma BoolReadsBack(b: bool)
    ensures Converted(BoolKind, if b then "true" else "false", BoolValue(!b), map[]) == BoolValue(b)
  {
    if b {
      assert Lower("true") == "true";
    }
  }

  /** Other spellings are false: "0", "yes", "on", "11" and the empty text. */
  lemma OtherBoolsAreFalse()
    ensures !ParseBool("0") && !ParseBool("yes") && !ParseBool("on") && !ParseBool("11") && !ParseBool("")
  {
  }

  /** "TRUE" and "True" are true too. */
  lemma TrueIgnoresCase()
    ensures ParseBool("TRUE") && ParseBool("True")
  {
    assert Lower("TRUE") == "true";
    assert Lower("True") == "true";
  }

  /** The decimal text of a number below 2^32 reads back as that number. */
  lemma DecimalReadsBack(n: nat)
    requires n < 0x1_0000_0000
    ensures StrToU32(DecimalText(n)) == n
  {
    var d := DecimalText(n);
    DigitRunOf(d, []);
    assert d + [] == d;
  }

  /** What `PrintValue` prints for an integer of each width reads back as that integer. */
  lemma UintReadsBack(n: nat, prior: Value)
    ensures n < 0x100 ==> Converted(Uint8Kind, DecimalText(n), prior, map[]) == Uint8Value(n)
    ensures n < 0x1_0000 ==> Converted(Uint16Kind, DecimalText(n), prior, map[]) == Uint16Value(n)
    ensures n < 0x1_0000_0000 ==> Converted(Uint32Kind, DecimalText(n), prior, map[]) == Uint32Value(n)
  {
    if n < 0x1_0000_0000 {
      DecimalReadsBack(n);
      if n < 0x1_0000 {
        SmallRemainder(n, 0x1_0000);
      }
      if n < 0x100 {
        SmallRemainder(n, 0x100);
      }
    }
  }

  /** The narrow integer types keep only the low bits: "300" in a `uint8_t` is 44. */
  lemma NarrowIntegersTruncate()
    ensures Converted(Uint8Kind, "300", Uint8Value(0), map[]) == Uint8Value(44)
  {
    DecimalReadsBack(300);
    assert DecimalText(300) == "300" by {
      assert DecimalText(30) == "30" by { assert DecimalText(3) == "3"; }
    }
  }

  /** A pin value that is no name in the table reads back from its printed form. */
  lemma PinReadsBack(p: Pin, prior: Value, names: map<string, Pin>)
    requires p < PinCodeLimit || p == NoPin
    requires Lower(PinText(p)) !in names
    ensures Converted(PinKind, PinText(p), prior, names) == PinValue(p)
  {
    LookupFallsBack(names, PinText(p));
    PrintedPinReadsBack(p);
  }
}
