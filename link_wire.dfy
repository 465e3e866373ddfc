/**
 * What goes over the SPI link between the firmware and the single-board
 * computer: bytes, little-endian 16- and 32-bit words, the transfer header
 * exchanged once per cycle, the packet header that frames each packet of
 * the payload, and the constants of the protocol.
 *
 * The struct declarations and the constants live in headers that are not
 * part of this model; the layouts below follow the on-wire field table of
 * the protocol (a 24-byte transfer header, a 12-byte packet header) and the
 * constant values are the ones the protocol family uses.
 */
module LinkWire {

  newtype byte = x: int | 0 <= x < 0x100
  type u16 = x: int | 0 <= x < 0x1_0000
  type u32 = x: int | 0 <= x < 0x1_0000_0000

  // ---------------------------------------------------------------------
  // Constants

  /** `LinuxTransferBufferSize`: the capacity of each exchange buffer. */
  const BufferSize: nat := 8192
  const LinuxFormatCode: u32 := 0x5F
  const InvalidFormatCode: u32 := 0xC9
  const LinuxProtocolVersion: u32 := 4
  /** Milliseconds without a completed phase before the phase is restarted. */
  const SpiTransferTimeout: nat := 500
  /** Half the time without a cycle after which a disconnected peer is given up on. */
  const SpiConnectionTimeout: nat := 4000

  /** The `TransferResponse` words. */
  const Success: u32 := 1
  const BadFormat: u32 := 2
  const BadProtocolVersion: u32 := 3
  const BadDataLength: u32 := 4
  const BadHeaderChecksum: u32 := 5
  const BadDataChecksum: u32 := 6
  /** The resynchronisation sentinel. */
  const BadResponse: u32 := 0xFEFE_FEFE

  const TransferHeaderSize: nat := 24
  const ResponseSize: nat := 4
  const PacketHeaderSize: nat := 12

  // ---------------------------------------------------------------------
  // Little-endian words

  function LE16(x: u16): (r: seq<byte>)
    ensures |r| == 2
  {
    [(x % 0x100) as byte, (x / 0x100) as byte]
  }

  function LE32(x: u32): (r: seq<byte>)
    ensures |r| == 4
  {
    LE16(x % 0x1_0000) + LE16(x / 0x1_0000)
  }

  /** The 16-bit word stored little-endian at `s[i..i + 2]`. */
  function U16At(s: seq<byte>, i: nat): u16
    requires i + 2 <= |s|
  {
    s[i] as int + 0x100 * s[i + 1] as int
  }

  /** The 32-bit word stored little-endian at `s[i..i + 4]`. */
  function U32At(s: seq<byte>, i: nat): u32
    requires i + 4 <= |s|
  {
    U16At(s, i) + 0x1_0000 * U16At(s, i + 2)
  }

  lemma U16RoundTrip(x: u16)
    ensures U16At(LE16(x), 0) == x
  {
  }

  lemma U16Encodes(s: seq<byte>, i: nat)
    requires i + 2 <= |s|
    ensures LE16(U16At(s, i)) == s[i..i + 2]
  {
  }

  lemma U32RoundTrip(x: u32)
    ensures U32At(LE32(x), 0) == x
  {
    var lo := x % 0x1_0000;
    var hi := x / 0x1_0000;
    U16RoundTrip(lo);
    U16RoundTrip(hi);
    assert U16At(LE32(x), 2) == U16At(LE16(hi), 0);
  }

  lemma U32Encodes(s: seq<byte>, i: nat)
    requires i + 4 <= |s|
    ensures LE32(U32At(s, i)) == s[i..i + 4]
  {
    var lo := U16At(s, i);
    var hi := U16At(s, i + 2);
    assert U32At(s, i) % 0x1_0000 == lo && U32At(s, i) / 0x1_0000 == hi;
    U16Encodes(s, i);
    U16Encodes(s, i + 2);
  }

  /** The word at `i` of `a + b` is read from `b` when `a` ends by `i`. */
  lemma U16AtAppend(a: seq<byte>, b: seq<byte>, i: nat)
    requires |a| <= i && i + 2 <= |a| + |b|
    ensures U16At(a + b, i) == U16At(b, i - |a|)
  {
  }

  lemma U32AtAppend(a: seq<byte>, b: seq<byte>, i: nat)
    requires |a| <= i && i + 4 <= |a| + |b|
    ensures U32At(a + b, i) == U32At(b, i - |a|)
  {
  }

  // ---------------------------------------------------------------------
  // The transfer header

  datatype TransferHeader = TransferHeader(
    formatCode: u32, protocolVersion: u32, numPackets: u16, sequenceNumber: u16,
    dataLength: u32, crcData: u32, crcHeader: u32)

  /** The 24 bytes of a transfer header; `crcHeader` is the last word. */
  function EncodeHeader(h: TransferHeader): (r: seq<byte>)
    ensures |r| == TransferHeaderSize
  {
    LE32(h.formatCode) + LE32(h.protocolVersion) + LE16(h.numPackets) + LE16(h.sequenceNumber) +
    LE32(h.dataLength) + LE32(h.crcData) + LE32(h.crcHeader)
  }

  /** The transfer header held in 24 received bytes. */
  function DecodeHeader(s: seq<byte>): TransferHeader
    requires |s| == TransferHeaderSize
  {
    TransferHeader(U32At(s, 0), U32At(s, 4), U16At(s, 8), U16At(s, 10), U32At(s, 12), U32At(s, 16), U32At(s, 20))
  }

  /** What the header checksum covers: every byte of the header but the last word. */
  function HeaderCrcInput(h: TransferHeader): (r: seq<byte>)
    ensures |r| == TransferHeaderSize - 4
  {
    EncodeHeader(h)[..TransferHeaderSize - 4]
  }

  /** The first word of an encoded header is its format code. */
  lemma FirstWordIsFormatCode(h: TransferHeader)
    ensures U32At(EncodeHeader(h), 0) == h.formatCode
  {
    U32RoundTrip(h.formatCode);
    assert EncodeHeader(h)[..4] == LE32(h.formatCode);
  }

  /** `crcHeader` is not part of what it covers. */
  lemma CrcInputIgnoresCrcHeader(h: TransferHeader, c: u32)
    ensures HeaderCrcInput(h.(crcHeader := c)) == HeaderCrcInput(h)
  {
    var h' := h.(crcHeader := c);
    var body := LE32(h.formatCode) + LE32(h.protocolVersion) + LE16(h.numPackets) + LE16(h.sequenceNumber) +
      LE32(h.dataLength) + LE32(h.crcData);
    assert EncodeHeader(h) == body + LE32(h.crcHeader);
    assert EncodeHeader(h') == body + LE32(c);
  }

  lemma HeaderRoundTrip(h: TransferHeader)
    ensures DecodeHeader(EncodeHeader(h)) == h
  {
    HeaderFieldsRead(h);
  }

  lemma HeaderFieldsRead(h: TransferHeader)
    ensures var s := EncodeHeader(h);
      U32At(s, 0) == h.formatCode && U32At(s, 4) == h.protocolVersion &&
      U16At(s, 8) == h.numPackets && U16At(s, 10) == h.sequenceNumber &&
      U32At(s, 12) == h.dataLength && U32At(s, 16) == h.crcData && U32At(s, 20) == h.crcHeader
  {
    var a := LE32(h.formatCode);
    var b := a + LE32(h.protocolVersion);
    var c := b + LE16(h.numPackets);
    var d := c + LE16(h.sequenceNumber);
    var e := d + LE32(h.dataLength);
    var f := e + LE32(h.crcData);
    var s := f + LE32(h.crcHeader);
    Word32Read([], h.formatCode, s[4..]);
    Word32Read(a, h.protocolVersion, s[8..]);
    Word16Read(b, h.numPackets, s[10..]);
    Word16Read(c, h.sequenceNumber, s[12..]);
    Word32Read(d, h.dataLength, s[16..]);
    Word32Read(e, h.crcData, s[20..]);
    Word32Read(f, h.crcHeader, []);
  }

  /** A word written after `a` is read back at `|a|`, whatever follows it. */
  lemma Word32Read(a: seq<byte>, x: u32, c: seq<byte>)
    ensures U32At(a + LE32(x) + c, |a|) == x
  {
    U32RoundTrip(x);
    var s := a + LE32(x) + c;
    assert s[|a|..|a| + 4] == LE32(x);
    assert U32At(s, |a|) == U32At(s[|a|..|a| + 4], 0);
  }

  lemma Word16Read(a: seq<byte>, x: u16, c: seq<byte>)
    ensures U16At(a + LE16(x) + c, |a|) == x
  {
    U16RoundTrip(x);
    var s := a + LE16(x) + c;
    assert s[|a|] == LE16(x)[0] && s[|a| + 1] == LE16(x)[1];
  }

  /** Decoding then encoding gives back the received bytes. */
  lemma HeaderBytesRoundTrip(s: seq<byte>)
    requires |s| == TransferHeaderSize
    ensures EncodeHeader(DecodeHeader(s)) == s
  {
    U32Encodes(s, 0);
    U32Encodes(s, 4);
    U16Encodes(s, 8);
    U16Encodes(s, 10);
    U32Encodes(s, 12);
    U32Encodes(s, 16);
    U32Encodes(s, 20);
    assert s == s[0..4] + s[4..8] + s[8..10] + s[10..12] + s[12..16] + s[16..20] + s[20..24];
  }

  // ---------------------------------------------------------------------
  // The packet header

  /** A packet header; of its 12 bytes the last two are padding that is never written. */
  datatype PacketHeader = PacketHeader(request: u16, id: u16, length: u32, resendPacketId: u16)

  /** The ten bytes `WritePacketHeader` stores. */
  function EncodePacketHeader(p: PacketHeader): (r: seq<byte>)
    ensures |r| == PacketHeaderSize - 2
  {
    LE16(p.request) + LE16(p.id) + LE32(p.length) + LE16(p.resendPacketId)
  }

  /** The packet header at `s[i..i + 12]`. */
  function DecodePacketHeader(s: seq<byte>, i: nat): PacketHeader
    requires i + PacketHeaderSize <= |s|
  {
    PacketHeader(U16At(s, i), U16At(s, i + 2), U32At(s, i + 4), U16At(s, i + 8))
  }

  // ---------------------------------------------------------------------
  // Alignment and buffer updates

  /** `AddPadding`: round up to the next multiple of 4. */
  function AddPadding(n: nat): (r: nat)
  {
    var padding := 4 - n % 4;
    n + (if padding == 4 then 0 else padding)
  }

  /** `AddPadding` gives the least multiple of 4 that is at least `n`. */
  lemma PaddingIsRoundUp(n: nat)
    ensures AddPadding(n) % 4 == 0 && n <= AddPadding(n) < n + 4
    ensures AddPadding(n) == n <==> n % 4 == 0
  {
  }

  /** Padding an aligned position plus a length is the position plus the padded length. */
  lemma PaddingShift(p: nat, n: nat)
    requires p % 4 == 0
    ensures AddPadding(p + n) == p + AddPadding(n)
  {
  }

  /** `buf` with `bytes` written from `at` on. */
  function Put(buf: seq<byte>, at: nat, bytes: seq<byte>): (r: seq<byte>)
    requires at + |bytes| <= |buf|
    ensures |r| == |buf|
  {
    seq(|buf|, i requires 0 <= i < |buf| => if at <= i < at + |bytes| then bytes[i - at] else buf[i])
  }

  /** Each byte after `Put`: from `bytes` inside the written range, from `buf` outside it. */
  lemma PutAt(buf: seq<byte>, at: nat, bytes: seq<byte>, i: nat)
    requires at + |bytes| <= |buf| && i < |buf|
    ensures Put(buf, at, bytes)[i] == if at <= i < at + |bytes| then bytes[i - at] else buf[i]
  {
  }

  /** `buf` holds `bytes` from `at` on. */
  predicate Holds(buf: seq<byte>, at: nat, bytes: seq<byte>) {
    at + |bytes| <= |buf| && forall j :: at <= j < at + |bytes| ==> buf[j] == bytes[j - at]
  }

  /** What `Put` writes is there afterwards, and nothing else changes. */
  lemma PutContents(buf: seq<byte>, at: nat, bytes: seq<byte>)
    requires at + |bytes| <= |buf|
    ensures Holds(Put(buf, at, bytes), at, bytes)
    ensures forall i :: 0 <= i < |buf| && !(at <= i < at + |bytes|) ==> Put(buf, at, bytes)[i] == buf[i]
  {
    forall i | 0 <= i < |buf|
      ensures Put(buf, at, bytes)[i] == if at <= i < at + |bytes| then bytes[i - at] else buf[i]
    {
      PutAt(buf, at, bytes, i);
    }
  }

  /** Two writes back to back are one write of both. */
  lemma PutJoin(buf: seq<byte>, at: nat, x: seq<byte>, y: seq<byte>)
    requires at + |x| + |y| <= |buf|
    ensures Put(Put(buf, at, x), at + |x|, y) == Put(buf, at, x + y)
  {
    var l := Put(Put(buf, at, x), at + |x|, y);
    var r := Put(buf, at, x + y);
    forall i | 0 <= i < |buf|
      ensures l[i] == r[i]
    {
      PutAt(buf, at, x, i);
      PutAt(Put(buf, at, x), at + |x|, y, i);
      PutAt(buf, at, x + y, i);
    }
  }

  /** Writes to disjoint places may be done in either order. */
  lemma PutCommute(buf: seq<byte>, i: nat, x: seq<byte>, j: nat, y: seq<byte>)
    requires i + |x| <= j && j + |y| <= |buf|
    ensures Put(Put(buf, j, y), i, x) == Put(Put(buf, i, x), j, y)
  {
    var l := Put(Put(buf, j, y), i, x);
    var r := Put(Put(buf, i, x), j, y);
    forall k | 0 <= k < |buf|
      ensures l[k] == r[k]
    {
      PutAt(buf, j, y, k);
      PutAt(Put(buf, j, y), i, x, k);
      PutAt(buf, i, x, k);
      PutAt(Put(buf, i, x), j, y, k);
    }
  }

  /** A write inside an earlier write changes what the earlier write stored. */
  lemma PutInside(buf: seq<byte>, at: nat, x: seq<byte>, k: nat, y: seq<byte>)
    requires at <= k && k + |y| <= at + |x| && at + |x| <= |buf|
    ensures Put(Put(buf, at, x), k, y) == Put(buf, at, x[..k - at] + y + x[k - at + |y|..])
  {
    var l := Put(Put(buf, at, x), k, y);
    var r := Put(buf, at, x[..k - at] + y + x[k - at + |y|..]);
    forall i | 0 <= i < |buf|
      ensures l[i] == r[i]
    {
      PutAt(buf, at, x, i);
      PutAt(Put(buf, at, x), k, y, i);
      PutAt(buf, at, x[..k - at] + y + x[k - at + |y|..], i);
    }
  }

  /** What a buffer holds is its slice there. */
  lemma HoldsSlice(buf: seq<byte>, at: nat, bytes: seq<byte>)
    requires Holds(buf, at, bytes)
    ensures buf[at..at + |bytes|] == bytes
  {
    assert forall k :: 0 <= k < |bytes| ==> buf[at..at + |bytes|][k] == bytes[k];
  }

  /** A slice that is two strings in a row splits into the slices of each. */
  lemma SliceSplit(buf: seq<byte>, at: nat, x: seq<byte>, y: seq<byte>)
    requires at + |x| + |y| <= |buf| && buf[at..at + |x| + |y|] == x + y
    ensures buf[at..at + |x|] == x && buf[at + |x|..at + |x| + |y|] == y
  {
    var s := buf[at..at + |x| + |y|];
    assert buf[at..at + |x|] == s[..|x|] && buf[at + |x|..at + |x| + |y|] == s[|x|..];
    assert s[..|x|] == x && s[|x|..] == y;
  }

  /** A write elsewhere keeps what a buffer holds. */
  lemma PutKeeps(buf: seq<byte>, at: nat, x: seq<byte>, j: nat, y: seq<byte>)
    requires Holds(buf, at, x) && j + |y| <= |buf| && (at + |x| <= j || j + |y| <= at)
    ensures Holds(Put(buf, j, y), at, x)
  {
    PutContents(buf, j, y);
  }

  /** What a buffer holds from `at` splits at any point. */
  lemma HoldsSplit(buf: seq<byte>, at: nat, x: seq<byte>, y: seq<byte>)
    requires Holds(buf, at, x + y)
    ensures Holds(buf, at, x) && Holds(buf, at + |x|, y)
  {
    forall j | at + |x| <= j < at + |x| + |y|
      ensures buf[j] == y[j - (at + |x|)]
    {
      assert (x + y)[j - at] == y[j - (at + |x|)];
    }
    forall j | at <= j < at + |x|
      ensures buf[j] == x[j - at]
    {
      assert (x + y)[j - at] == x[j - at];
    }
  }

  /** A 16-bit word a buffer holds reads back. */
  lemma Held16(buf: seq<byte>, i: nat, x: u16)
    requires Holds(buf, i, LE16(x))
    ensures U16At(buf, i) == x
  {
    U16RoundTrip(x);
    assert buf[i] == LE16(x)[0] && buf[i + 1] == LE16(x)[1];
  }

  /** A 32-bit word a buffer holds reads back. */
  lemma Held32(buf: seq<byte>, i: nat, x: u32)
    requires Holds(buf, i, LE32(x))
    ensures U32At(buf, i) == x
  {
    HoldsSplit(buf, i, LE16(x % 0x1_0000), LE16(x / 0x1_0000));
    Held16(buf, i, x % 0x1_0000);
    Held16(buf, i + 2, x / 0x1_0000);
  }
}
