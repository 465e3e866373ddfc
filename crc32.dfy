/**
 * The table-driven CRC-32 of the STM32 board support (`crc32_for_byte` and
 * `crc32`), which computes the board signature over the first 8 KiB of flash.
 *
 * The source uses a compact variant of the reflected IEEE 802.3 algorithm:
 * its table rounds xor the polynomial when the low bit is CLEAR, its table
 * entries are xored with 0xFF000000, and the fold starts from 0 with no final
 * inversion.  `SourceCrcIsStandard` proves that this computes exactly the
 * usual CRC-32 (register preset to all ones, result inverted).
 */
module Crc32 {

  /** The reflected IEEE 802.3 polynomial. */
  const Polynomial: bv32 := 0xEDB8_8320

  // ---------------------------------------------------------------------
  // The source's table

  /** One round of `crc32_for_byte`: xor the polynomial unless the low bit is set. */
  function SourceRound(r: bv32): bv32 {
    (if r & 1 == 1 then 0 else Polynomial) ^ (r >> 1)
  }

  /**
   * `k` rounds of `SourceRound` applied to `r`.  The register is part of the
   * termination measure only so that a literal round count does not make the
   * verifier unroll every round on a symbolic register.
   */
  function SourceRounds(r: bv32, k: nat): bv32
    decreases k, r
  {
    if k == 0 then r else SourceRounds(SourceRound(r), k - 1)
  }

  /** The value `crc32_for_byte(i)` returns: eight rounds, then xor 0xFF000000. */
  function TableEntry(i: bv32): bv32 {
    SourceRounds(i, 8) ^ 0xFF00_0000
  }

  /** One step of the fold in `crc32`: `table[(uint8_t)crc ^ b] ^ crc >> 8`. */
  function Update(crc: bv32, b: bv8): bv32 {
    TableEntry(SourceIndex(crc, b)) ^ (crc >> 8)
  }

  /** The table index `(uint8_t)crc ^ b`. */
  function SourceIndex(crc: bv32, b: bv8): bv32 {
    (((crc & 0xFF) as bv8) ^ b) as bv32
  }

  /** What `crc32(data, |data|)` returns: the fold of `Update` over `data`, from 0. */
  function SourceCrc(data: seq<bv8>): bv32 {
    if |data| == 0 then 0 else Update(SourceCrc(data[..|data| - 1]), data[|data| - 1])
  }

  // ---------------------------------------------------------------------
  // The textbook reflected CRC-32, as an independent reference

  function StdRound(r: bv32): bv32 {
    (if r & 1 == 1 then Polynomial else 0) ^ (r >> 1)
  }

  function StdRounds(r: bv32, k: nat): bv32
    decreases k, r
  {
    if k == 0 then r else StdRounds(StdRound(r), k - 1)
  }

  function StdTableEntry(i: bv32): bv32 {
    StdRounds(i, 8)
  }

  function StdUpdate(reg: bv32, b: bv8): bv32 {
    StdTableEntry(StdIndex(reg, b)) ^ (reg >> 8)
  }

  function StdIndex(reg: bv32, b: bv8): bv32 {
    (reg ^ (b as bv32)) & 0xFF
  }

  /** The CRC register after `data`, starting from all ones. */
  function StdRegister(data: seq<bv8>): bv32 {
    if |data| == 0 then 0xFFFF_FFFF else StdUpdate(StdRegister(data[..|data| - 1]), data[|data| - 1])
  }

  /** The standard CRC-32 (IEEE 802.3 / zlib): preset all ones, final inversion. */
  function StdCrc(data: seq<bv8>): bv32 {
    !StdRegister(data)
  }

  // ---------------------------------------------------------------------
  // The implementation

  /** `crc32_for_byte`: eight conditional-xor/shift rounds, then xor 0xFF000000. */
  method CrcForByte(r0: bv32) returns (r: bv32)
    ensures r == TableEntry(r0)
  {
    r := r0;
    for j := 0 to 8
      invariant SourceRounds(r, 8 - j) == SourceRounds(r0, 8)
    {
      r := (if r & 1 == 1 then 0 else Polynomial) ^ (r >> 1);
    }
    r := r ^ 0xFF00_0000;
  }

  /** `crc32`: fill a 256-entry table with `crc32_for_byte`, then fold it over the bytes. */
  method Crc(data: seq<bv8>) returns (crc: bv32)
    ensures crc == SourceCrc(data)
    ensures crc == StdCrc(data)
  {
    var table := new bv32[0x100];
    for i := 0 to 0x100
      invariant forall k :: 0 <= k < i ==> table[k] == TableEntry(k as bv32)
    {
      table[i] := CrcForByte(i as bv32);
    }
    crc := 0;
    for i := 0 to |data|
      invariant forall k :: 0 <= k < 0x100 ==> table[k] == TableEntry(k as bv32)
      invariant crc == SourceCrc(data[..i])
    {
      var x := SourceIndex(crc, data[i]);
      SourceCrcAt(data, i, crc, x);
      crc := table[x as int] ^ (crc >> 8);
    }
    assert data[..|data|] == data;
    SourceCrcIsStandard(data);
  }

  /** One step of the fold, with the index the source computes. */
  lemma SourceCrcAt(data: seq<bv8>, i: nat, crc: bv32, x: bv32)
    requires i < |data| && crc == SourceCrc(data[..i]) && x == SourceIndex(crc, data[i])
    ensures x as int < 0x100 && (x as int) as bv32 == x
    ensures SourceCrc(data[..i + 1]) == TableEntry(x) ^ (crc >> 8)
  {
    assert data[..i + 1][..i] == data[..i];
  }

  // ---------------------------------------------------------------------
  // Properties

  /** `crc32` of zero bytes is 0. */
  lemma CrcOfNothing()
    ensures SourceCrc([]) == 0 && StdCrc([]) == 0
  {
  }

  /** The mask of the low `k` bits, as the rounds consume it one bit at a time. */
  predicate LowOnes(m: bv32, k: nat)
    decreases k
  {
    if k == 0 then m == 0 else m & 1 == 1 && LowOnes(m >> 1, k - 1)
  }

  /** A source round and a standard round keep two registers a shrinking mask apart. */
  lemma RoundStep(a: bv32, b: bv32, m: bv32)
    requires a ^ b == m && m & 1 == 1
    ensures SourceRound(a) ^ StdRound(b) == m >> 1
  {
  }

  /** Registers that differ in their low `k` bits agree after `k` rounds of each kind. */
  lemma {:induction false} RoundsAgree(a: bv32, b: bv32, m: bv32, k: nat)
    requires a ^ b == m && LowOnes(m, k)
    ensures SourceRounds(a, k) == StdRounds(b, k)
    decreases k
  {
    if k > 0 {
      RoundStep(a, b, m);
      RoundsAgree(SourceRound(a), StdRound(b), m >> 1, k - 1);
    }
  }

  /** Every table entry of the source is the standard entry at the complemented index, xored with 0xFF000000. */
  lemma TableRelation(i: bv32, j: bv32)
    requires j == i ^ 0xFF
    ensures TableEntry(i) == StdTableEntry(j) ^ 0xFF00_0000
  {
    ByteRoundsAgree(i, j);
  }

  /** Eight rounds of each kind agree on registers that differ in their low byte. */
  lemma ByteRoundsAgree(i: bv32, j: bv32)
    requires j == i ^ 0xFF
    ensures SourceRounds(i, 8) == StdRounds(j, 8)
  {
    ByteMask();
    RoundsAgree(i, j, 0xFF, 8);
  }

  /** 0xFF is the mask of the low eight bits. */
  lemma ByteMask()
    ensures LowOnes(0xFF, 8)
  {
    assert LowOnes(0, 0);
    assert LowOnes(1, 1);
    assert LowOnes(3, 2);
    assert LowOnes(7, 3);
    assert LowOnes(0xF, 4);
    assert LowOnes(0x1F, 5);
    assert LowOnes(0x3F, 6);
    assert LowOnes(0x7F, 7);
  }

  /** On the complemented register the source's index is the standard index with its low byte complemented. */
  lemma IndexRelation(reg: bv32, b: bv8, x: bv32, y: bv32)
    requires x == StdIndex(reg, b) && y == SourceIndex(!reg, b)
    ensures x == y ^ 0xFF
  {
  }

  /** The source's entry for the complemented register is the standard entry, xored with 0xFF000000. */
  lemma EntryRelation(reg: bv32, b: bv8)
    ensures TableEntry(SourceIndex(!reg, b)) == StdTableEntry(StdIndex(reg, b)) ^ 0xFF00_0000
  {
    var x := StdIndex(reg, b);
    var y := SourceIndex(!reg, b);
    IndexRelation(reg, b, x, y);
    TableRelation(y, x);
  }

  /** One step of the source's fold on the inverted register is the inverse of one standard step. */
  lemma UpdateRelation(reg: bv32, b: bv8)
    ensures Update(!reg, b) == !StdUpdate(reg, b)
  {
    EntryRelation(reg, b);
    UpdateFromEntries(reg, b);
  }

  /** Entries 0xFF000000 apart and complemented registers give complemented steps. */
  lemma UpdateFromEntries(reg: bv32, b: bv8)
    requires TableEntry(SourceIndex(!reg, b)) == StdTableEntry(StdIndex(reg, b)) ^ 0xFF00_0000
    ensures Update(!reg, b) == !StdUpdate(reg, b)
  {
  }

  /** The source's fold, one byte at the end. */
  lemma SourceCrcStep(data: seq<bv8>)
    requires |data| > 0
    ensures SourceCrc(data) == Update(SourceCrc(data[..|data| - 1]), data[|data| - 1])
  {
  }

  /** The standard fold, one byte at the end. */
  lemma StdRegisterStep(data: seq<bv8>)
    requires |data| > 0
    ensures StdRegister(data) == StdUpdate(StdRegister(data[..|data| - 1]), data[|data| - 1])
  {
  }

  /** A register pair that is complemented stays complemented over one more byte. */
  lemma InvertedStep(r: bv32, b: bv8, sd: bv32, rd: bv32, a: bv32)
    requires a == !r
    requires sd == Update(a, b)
    requires rd == StdUpdate(r, b)
    ensures sd == !rd
  {
    UpdateRelation(r, b);
  }

  /** The source's register is always the complement of the standard register. */
  lemma {:induction false} SourceRegisterIsInverted(data: seq<bv8>)
    ensures SourceCrc(data) == !StdRegister(data)
  {
    if |data| > 0 {
      var init := data[..|data| - 1];
      SourceRegisterIsInverted(init);
      SourceCrcStep(data);
      StdRegisterStep(data);
      InvertedStep(StdRegister(init), data[|data| - 1], SourceCrc(data), StdRegister(data), SourceCrc(init));
    }
  }

  /** `crc32` computes the standard CRC-32 with the reflected polynomial 0xEDB88320. */
  lemma SourceCrcIsStandard(data: seq<bv8>)
    ensures SourceCrc(data) == StdCrc(data)
  {
    SourceRegisterIsInverted(data);
  }
}
