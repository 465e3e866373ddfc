/**
 * Properties of the packet codec: a packet header reads back as written
 * and is stamped with the packet count, a whole packet reads back and
 * leaves earlier packets alone, a reader that walks what the writer wrote
 * ends where the next packet begins, the builders stay inside the buffer,
 * and the code reply neither loses nor duplicates reply text.
 */
module PacketProperties {
  import opened Common
  import opened LinkWire
  import opened LinkSpec
  import opened LinkCodec

  // ---------------------------------------------------------------------
  // Packet headers

  /** A packet header that `buf` holds reads back. */
  lemma {:induction false} PacketHeaderAt(buf: seq<byte>, at: nat, p: PacketHeader)
    requires at + PacketHeaderSize <= |buf| && Holds(buf, at, EncodePacketHeader(p))
    ensures DecodePacketHeader(buf, at) == p
  {
    var r := LE16(p.request);
    var i := LE16(p.id);
    var l := LE32(p.length);
    var x := LE16(p.resendPacketId);
    HoldsSplit(buf, at, r + i + l, x);
    HoldsSplit(buf, at, r + i, l);
    HoldsSplit(buf, at, r, i);
    Held16(buf, at, p.request);
    Held16(buf, at + 2, p.id);
    Held32(buf, at + 4, p.length);
    Held16(buf, at + 8, p.resendPacketId);
  }

  /** A packet header reads back from where it was written. */
  lemma {:induction false} PacketHeaderRead(buf: seq<byte>, at: nat, p: PacketHeader)
    requires at + PacketHeaderSize <= |buf|
    ensures DecodePacketHeader(Put(buf, at, EncodePacketHeader(p)), at) == p
  {
    PutContents(buf, at, EncodePacketHeader(p));
    PacketHeaderAt(Put(buf, at, EncodePacketHeader(p)), at, p);
  }

  /**
   * `WritePacketHeader` realigns the cursor to a multiple of 4, stores a
   * header stamped with the packet count there, counts the packet and moves
   * the cursor past the header; no other byte changes.
   */
  lemma {:induction false} WritePacketHeaderStamps(t: TxSide, request: u16, length: u32, resend: u16)
    requires AddPadding(t.pointer) + PacketHeaderSize <= |t.buf|
    ensures var at := AddPadding(t.pointer);
      var t1 := WritePacketHeader(t, request, length, resend);
      at % 4 == 0 && t.pointer <= at < t.pointer + 4 &&
      t1.pointer == at + PacketHeaderSize && t1.packetId == Inc16(t.packetId) && |t1.buf| == |t.buf| &&
      DecodePacketHeader(t1.buf, at) == PacketHeader(request, t.packetId, length, resend) &&
      (forall i :: 0 <= i < |t.buf| && !(at <= i < at + PacketHeaderSize - 2) ==> t1.buf[i] == t.buf[i])
  {
    var at := AddPadding(t.pointer);
    PaddingIsRoundUp(t.pointer);
    PacketHeaderRead(t.buf, at, PacketHeader(request, t.packetId, length, resend));
    PutContents(t.buf, at, EncodePacketHeader(PacketHeader(request, t.packetId, length, resend)));
  }

  /** `WriteData` copies exactly its bytes to the cursor, moves the cursor by their number, and changes nothing else. */
  lemma {:induction false} WriteDataCopies(t: TxSide, bytes: seq<byte>)
    requires t.pointer + |bytes| <= |t.buf|
    ensures var t1 := WriteData(t, bytes);
      t1.pointer == t.pointer + |bytes| && t1.packetId == t.packetId && |t1.buf| == |t.buf| &&
      Holds(t1.buf, t.pointer, bytes) &&
      (forall i :: 0 <= i < |t.buf| && !(t.pointer <= i < t1.pointer) ==> t1.buf[i] == t.buf[i])
  {
    PutContents(t.buf, t.pointer, bytes);
  }

  // ---------------------------------------------------------------------
  // Whole packets

  /**
   * A packet appended at cursor `p` reads back: at `AddPadding(p)` its
   * header with the packet count and the length of what follows, then the
   * bytes of the fixed header, then the trailing bytes; the cursor ends
   * after them, the packet is counted, and nothing before the packet
   * changes.
   */
  lemma {:induction false} AppendPacketReadsBack(t: TxSide, request: u16, fixed: seq<byte>, trailing: seq<byte>)
    requires |t.buf| == BufferSize && Fits(t.pointer, |fixed| + |trailing|)
    ensures var at := AddPadding(t.pointer);
      var t1 := AppendPacket(t, request, fixed, trailing);
      t1.pointer == at + PacketHeaderSize + |fixed| + |trailing| && t1.pointer <= BufferSize &&
      t1.packetId == Inc16(t.packetId) && |t1.buf| == BufferSize &&
      DecodePacketHeader(t1.buf, at) == PacketHeader(request, t.packetId, |fixed| + |trailing|, 0) &&
      Holds(t1.buf, at + PacketHeaderSize, fixed) && Holds(t1.buf, at + PacketHeaderSize + |fixed|, trailing) &&
      (forall i :: 0 <= i < at ==> t1.buf[i] == t.buf[i])
  {
    var at := AddPadding(t.pointer);
    var p := PacketHeader(request, t.packetId, |fixed| + |trailing|, 0);
    var b := AppendPacketSteps(t, request, fixed, trailing);
    PacketBack(t.buf, at, p, fixed, trailing);
  }

  /** The three stores that make up a packet. */
  lemma {:induction false} AppendPacketSteps(t: TxSide, request: u16, fixed: seq<byte>, trailing: seq<byte>) returns (b: seq<byte>)
    requires |t.buf| == BufferSize && Fits(t.pointer, |fixed| + |trailing|)
    ensures var at := AddPadding(t.pointer);
      var h := EncodePacketHeader(PacketHeader(request, t.packetId, |fixed| + |trailing|, 0));
      b == Put(Put(Put(t.buf, at, h), at + PacketHeaderSize, fixed), at + PacketHeaderSize + |fixed|, trailing) &&
      AppendPacket(t, request, fixed, trailing) == TxSide(b, at + PacketHeaderSize + |fixed| + |trailing|, Inc16(t.packetId))
  {
    var t1 := WritePacketHeader(t, request, |fixed| + |trailing|, 0);
    var t3 := WriteData(WriteData(t1, fixed), trailing);
    assert AppendPacket(t, request, fixed, trailing) == t3;
    b := t3.buf;
  }

  /** What the three stores of a packet leave behind reads back as the packet. */
  lemma {:induction false} PacketBack(buf: seq<byte>, at: nat, p: PacketHeader, fixed: seq<byte>, trailing: seq<byte>)
    requires at + PacketHeaderSize + |fixed| + |trailing| <= |buf|
    ensures var b := Put(Put(Put(buf, at, EncodePacketHeader(p)), at + PacketHeaderSize, fixed), at + PacketHeaderSize + |fixed|, trailing);
      DecodePacketHeader(b, at) == p &&
      Holds(b, at + PacketHeaderSize, fixed) && Holds(b, at + PacketHeaderSize + |fixed|, trailing) &&
      forall i :: 0 <= i < at ==> b[i] == buf[i]
  {
    var h := EncodePacketHeader(p);
    PacketHolds(buf, at, h, fixed, trailing);
    PacketHeaderAt(Put(Put(Put(buf, at, h), at + PacketHeaderSize, fixed), at + PacketHeaderSize + |fixed|, trailing), at, p);
  }

  /** After the three stores of a packet the buffer holds each of them, and nothing before the packet changes. */
  lemma {:induction false} PacketHolds(buf: seq<byte>, at: nat, h: seq<byte>, f: seq<byte>, trailing: seq<byte>)
    requires |h| == PacketHeaderSize - 2 && at + PacketHeaderSize + |f| + |trailing| <= |buf|
    ensures var b := Put(Put(Put(buf, at, h), at + PacketHeaderSize, f), at + PacketHeaderSize + |f|, trailing);
      Holds(b, at, h) && Holds(b, at + PacketHeaderSize, f) && Holds(b, at + PacketHeaderSize + |f|, trailing) &&
      forall i :: 0 <= i < at ==> b[i] == buf[i]
  {
    var b1 := Put(buf, at, h);
    var b2 := Put(b1, at + PacketHeaderSize, f);
    PutContents(buf, at, h);
    PutContents(b1, at + PacketHeaderSize, f);
    PutContents(b2, at + PacketHeaderSize + |f|, trailing);
    PutKeeps(b1, at, h, at + PacketHeaderSize, f);
    PutKeeps(b2, at, h, at + PacketHeaderSize + |f|, trailing);
    PutKeeps(b2, at + PacketHeaderSize, f, at + PacketHeaderSize + |f|, trailing);
  }

  /**
   * A reader that starts where a packet was appended, on a buffer holding
   * what the writer wrote, gets back the packet header, finds the fixed
   * header and the trailing bytes as they were written, and ends exactly
   * where the writer puts its next packet header.
   */
  lemma {:induction false} ReaderFollowsWriter(t: TxSide, request: u16, fixed: seq<byte>, trailing: seq<byte>, r: RxSide)
    requires |t.buf| == BufferSize && Fits(t.pointer, |fixed| + |trailing|) && |fixed| % 4 == 0
    requires r.buf == AppendPacket(t, request, fixed, trailing).buf
    requires r.pointer == AddPadding(t.pointer) < r.length
    ensures PacketReadable(r)
    ensures var t1 := AppendPacket(t, request, fixed, trailing);
      var (h, r1) := ReadPacket(r);
      h == Some(PacketHeader(request, t.packetId, |fixed| + |trailing|, 0)) && Holds(r1.buf, r1.pointer, fixed) &&
      var (d, r3) := ReadData(r1.(pointer := r1.pointer + |fixed|), |trailing|);
      Holds(r3.buf, d, trailing) && r3.pointer == AddPadding(t1.pointer)
  {
    var at := AddPadding(t.pointer);
    AppendPacketReadsBack(t, request, fixed, trailing);
    PaddingIsRoundUp(t.pointer);
    PaddingShift(at + PacketHeaderSize + |fixed|, |trailing|);
  }

  /** `ReadDataHeader` over a buffer holding a fixed header gets back the values stored into it and moves over its bytes. */
  lemma {:induction false} ReadDataHeaderReads(r: RxSide, fs: seq<Field>)
    requires Holds(r.buf, r.pointer, EncodeFields(fs))
    ensures r.pointer + LayoutSize(Layout(fs)) <= |r.buf|
    ensures ReadDataHeader(r, Layout(fs)) == (Values(fs), r.(pointer := r.pointer + |EncodeFields(fs)|))
  {
    FieldsRoundTrip(fs, r.buf, r.pointer);
  }

  /** The fixed header and the data the peer placed at `i` read back as it placed them. */
  lemma {:induction false} BodyReadsBack(rx: seq<byte>, i: nat, fs: seq<Field>, data: seq<byte>)
    requires Holds(rx, i, EncodeFields(fs) + data)
    ensures DecodeFields(Layout(fs), rx, i) == Values(fs)
    ensures rx[i + |EncodeFields(fs)|..i + |EncodeFields(fs)| + |data|] == data
  {
    var f := EncodeFields(fs);
    HoldsSplit(rx, i, f, data);
    FieldsRoundTrip(fs, rx, i);
    HoldsSlice(rx, i + |f|, data);
  }

  // ---------------------------------------------------------------------
  // The builders

  /** The three stages of a builder (the packet header, the fixed header, the trailing bytes) append the packet. */
  lemma {:induction false} PacketStages(s: Link, s1: Link, s2: Link, s3: Link, request: u16, fixed: seq<byte>,
    trailing: seq<byte>)
    requires |s.tx| == BufferSize && Fits(s.txPointer, |fixed| + |trailing|)
    requires s1 == WithTx(s, WritePacketHeader(TxOf(s), request, |fixed| + |trailing|, 0))
    requires s2 == WithTx(s1, WriteData(TxOf(s1), fixed))
    requires s3 == s2.(tx := Put(s2.tx, s2.txPointer, trailing), txPointer := s2.txPointer + |trailing|)
    ensures s3 == WithTx(s, AppendPacket(TxOf(s), request, fixed, trailing))
  {
  }

  /** A builder either changes nothing or appends a packet that keeps the link consistent. */

  lemma {:induction false} BuildKeepsConsistent(s: Link, canWrite: WriteCheck, request: u16, fs: seq<Field>, trailing: seq<byte>)
    requires Consistent(s) && CheckSound(canWrite)
    ensures var b := Build(TxOf(s), canWrite, request, fs, trailing);
      (b == None <==> !canWrite(s.txPointer, |EncodeFields(fs)| + |trailing|)) &&
      (b != None ==> Consistent(WithTx(s, b.value)) && b.value.pointer <= BufferSize)
  {
    if canWrite(s.txPointer, |EncodeFields(fs)| + |trailing|) {
      assert Fits(s.txPointer, |EncodeFields(fs)| + |trailing|);
    }
  }

  /**
   * As written, `WriteObjectModel` asks for room for the data only: with
   * the most permissive sound check, data of `BufferSize - 12` bytes at an
   * empty buffer is admitted, yet the packet with its string header ends 4
   * bytes past the buffer.
   */
  lemma {:induction false} ObjectModelCheckAsWrittenOverruns(data: seq<byte>)
    requires |data| == BufferSize - PacketHeaderSize
    ensures var tight: WriteCheck := (p: nat, n: nat) => Fits(p, n);
      CheckSound(tight) && tight(0, ObjectModelNeedAsWritten(data)) &&
      AddPadding(0) + PacketHeaderSize + |EncodeFields(ObjectModelFields(data))| + |data| == BufferSize + 4
  {
    var fs := ObjectModelFields(data);
    assert Layout(fs) == StringHeader;
    HeaderSizes();
  }

  /** Asking for the string header and the data, as the corrected builder does, admits only packets that fit. */
  lemma {:induction false} ObjectModelCheckFits(t: TxSide, canWrite: WriteCheck, data: seq<byte>)
    requires |t.buf| == BufferSize && CheckSound(canWrite) && canWrite(t.pointer, ObjectModelNeed(data))
    ensures |EncodeFields(ObjectModelFields(data))| + |data| == ObjectModelNeed(data)
    ensures Build(t, canWrite, ObjectModelRequest, ObjectModelFields(data), data).Some?
    ensures AddPadding(t.pointer) + PacketHeaderSize + ObjectModelNeed(data) <= BufferSize
  {
    assert Layout(ObjectModelFields(data)) == StringHeader;
    HeaderSizes();
  }

  // ---------------------------------------------------------------------
  // The code reply

  /** The copy loop neither loses nor duplicates reply text: what it copied followed by what is left is the whole reply. */
  lemma {:induction false} DrainConserves(chain: seq<seq<byte>>, p: nat, free: FreeSpace)
    ensures var (w, rest) := Drain(chain, p, free); w + Flatten(rest) == Flatten(chain)
    decreases |Flatten(chain)|
  {
    if chain != [] {
      var n := Min(free(p), |chain[0]|);
      if n != 0 {
        var next := if n == |chain[0]| then chain[1..] else [chain[0][n..]] + chain[1..];
        FlattenTaken(chain, n);
        DrainConserves(next, p + n, free);
        var (w, rest) := Drain(next, p + n, free);
        assert Drain(chain, p, free) == (chain[0][..n] + w, rest);
      }
    }
  }

  /** The copy loop stops only when the chain is used up, there is no free space, or the first buffer left is empty. */
  lemma {:induction false} DrainStops(chain: seq<seq<byte>>, p: nat, free: FreeSpace)
    ensures var (w, rest) := Drain(chain, p, free);
      rest == [] || free(p + |w|) == 0 || rest[0] == []
    decreases |Flatten(chain)|
  {
    if chain != [] {
      var n := Min(free(p), |chain[0]|);
      if n != 0 {
        var next := if n == |chain[0]| then chain[1..] else [chain[0][n..]] + chain[1..];
        FlattenTaken(chain, n);
        DrainStops(next, p + n, free);
      }
    }
  }

  /**
   * A code reply that is written is a message packet whose header carries
   * the number of reply bytes it holds, flagged when some are left over,
   * and whose data is those bytes.
   */
  lemma {:induction false} CodeReplyReadsBack(t: TxSide, canWrite: WriteCheck, free: FreeSpace, messageType: u32, chain: seq<seq<byte>>)
    requires |t.buf| == BufferSize && CheckSound(canWrite) && FreeSound(free)
    requires CodeReply(t, canWrite, free, messageType, chain).Some?
    ensures var (t1, rest) := CodeReply(t, canWrite, free, messageType, chain).value;
      var at := AddPadding(t.pointer);
      var start := ReplyStart(t.pointer);
      var text := Drain(chain, start, free).0;
      t1.pointer == start + |text| <= BufferSize && |t1.buf| == BufferSize && t1.packetId == Inc16(t.packetId) &&
      DecodePacketHeader(t1.buf, at) == PacketHeader(MessageRequest, t.packetId, LayoutSize(MessageHeader) + |text|, 0) &&
      Holds(t1.buf, at + PacketHeaderSize, EncodeFields(MessageFields(ReplyType(messageType, rest), |text|))) &&
      Holds(t1.buf, start, text)
  {
    var (w, rest) := Drain(chain, ReplyStart(t.pointer), free);
    DrainFits(chain, ReplyStart(t.pointer), free);
    MessageFieldsLayout(ReplyType(messageType, rest), |w|);
    HeaderSizes();
    AppendPacketReadsBack(t, MessageRequest, EncodeFields(MessageFields(ReplyType(messageType, rest), |w|)), w);
  }

  /**
   * The reply text a code reply carries followed by the buffers it leaves
   * is the whole reply; the message type is flagged when buffers are
   * left, and sent unchanged otherwise.
   */
  lemma {:induction false} CodeReplyConserves(t: TxSide, canWrite: WriteCheck, free: FreeSpace, messageType: u32, chain: seq<seq<byte>>)
    requires |t.buf| == BufferSize && CheckSound(canWrite) && FreeSound(free)
    requires CodeReply(t, canWrite, free, messageType, chain).Some?
    ensures var rest := CodeReply(t, canWrite, free, messageType, chain).value.1;
      Drain(chain, ReplyStart(t.pointer), free).0 + Flatten(rest) == Flatten(chain) &&
      (if rest != [] then ReplyType(messageType, rest) >= PushFlag else ReplyType(messageType, rest) == messageType)
  {
    DrainConserves(chain, ReplyStart(t.pointer), free);
  }

  // ---------------------------------------------------------------------
  // The order of the stores

  /**
   * `WriteCodeReply` stores its packet out of order: a packet header with a
   * provisional length, the message type and the padding, the reply text,
   * then (when part of the reply is left) the flagged type, the reply
   * length and the packet length.  The bytes it leaves are those of the
   * packet laid out in order.
   */
  lemma {:induction false} ReplyStoresInOrder(buf: seq<byte>, at: nat, id: u16, messageType: u32, pushed: bool, w: seq<byte>)
    requires |buf| == BufferSize && at + PacketHeaderSize + 8 + |w| <= |buf|
    ensures var f := EncodeFields(MessageFields(if pushed then WithPushFlag(messageType) else messageType, |w|));
      |f| == 8 &&
      ReplyTail(Put(ReplyHead(buf, at, id, messageType), at + 20, w), at, messageType, |w|, pushed) ==
        Put(Put(Put(buf, at, EncodePacketHeader(PacketHeader(MessageRequest, id, 8 + |w|, 0))), at + 12, f), at + 20, w)
  {
    var type1 := if pushed then WithPushFlag(messageType) else messageType;
    var h0 := EncodePacketHeader(PacketHeader(MessageRequest, id, 0, 0));
    var h := EncodePacketHeader(PacketHeader(MessageRequest, id, 8 + |w|, 0));
    var f := EncodeFields(MessageFields(type1, |w|));
    var fs := MessageFields(type1, |w|);
    MessageFieldsLayout(type1, |w|);
    HeaderSizes();
    assert fs[1..] == [W16(Low16(|w|)), W16(0)] && fs[1..][1..] == [W16(0)] && fs[1..][1..][1..] == [];
    assert EncodeFields(fs[1..][1..]) == LE16(0) + EncodeFields(fs[1..][1..][1..]);
    assert EncodeFields(fs[1..]) == LE16(Low16(|w|)) + EncodeFields(fs[1..][1..]);
    assert f == LE32(type1) + EncodeFields(fs[1..]);
    forall j | 0 <= j < 10
      ensures h[j] == if 4 <= j < 8 then LE32(8 + |w|)[j - 4] else h0[j]
    {
    }
    StoresInOrder(buf, at, h0, h, LE32(messageType), LE16(0), w, LE32(type1), LE16(Low16(|w|)), LE32(8 + |w|), f, pushed);
  }

  /**
   * A code reply that the check admits, as the stores `WriteCodeReply`
   * makes: the packet header with length 0, the type and the padding, the
   * drained text, the push flag when text is left, then the two lengths.
   */
  lemma {:induction false} CodeReplyByStores(t: TxSide, canWrite: WriteCheck, free: FreeSpace, messageType: u32,
    chain: seq<seq<byte>>)
    requires |t.buf| == BufferSize && CheckSound(canWrite) && FreeSound(free)
    requires canWrite(t.pointer, LayoutSize(MessageHeader) + Min(16, |Flatten(chain)|))
    ensures var at := AddPadding(t.pointer);
      var d := Drain(chain, ReplyStart(t.pointer), free);
      ReplyStart(t.pointer) == at + 20 && at + 20 + |d.0| <= BufferSize &&
      CodeReply(t, canWrite, free, messageType, chain) ==
        Some((TxSide(ReplyTail(Put(ReplyHead(t.buf, at, t.packetId, messageType), at + 20, d.0), at, messageType, |d.0|, d.1 != []),
          at + 20 + |d.0|, Inc16(t.packetId)), d.1))
  {
    HeaderSizes();
    var d := Drain(chain, ReplyStart(t.pointer), free);
    DrainFits(chain, ReplyStart(t.pointer), free);
    ReplyPacketByStores(t, messageType, d.0, d.1 != []);
    var fixed := EncodeFields(MessageFields(ReplyType(messageType, d.1), |d.0|));
    assert CodeReply(t, canWrite, free, messageType, chain) == Some((AppendPacket(t, MessageRequest, fixed, d.0), d.1));
  }

  /**
   * The three stages of `WriteCodeReply` (the headers begun, the text
   * drained, the headers finished) end in the state `CodeReply` describes,
   * and change the transmit side only.
   */
  lemma {:induction false} CodeReplyStages(s: Link, s1: Link, s2: Link, s3: Link, canWrite: WriteCheck, free: FreeSpace,
    messageType: u32, chain: seq<seq<byte>>, header: nat, bytesWritten: nat, rest: seq<seq<byte>>)
    requires |s.tx| == BufferSize && CheckSound(canWrite) && FreeSound(free)
    requires canWrite(s.txPointer, LayoutSize(MessageHeader) + Min(16, |Flatten(chain)|))
    requires header == AddPadding(s.txPointer) && header + PacketHeaderSize + LayoutSize(MessageHeader) <= BufferSize
    requires s1 == s.(tx := ReplyHead(s.tx, header, s.packetId, messageType),
      txPointer := header + PacketHeaderSize + LayoutSize(MessageHeader), packetId := Inc16(s.packetId))
    requires var d := Drain(chain, s1.txPointer, free);
      s1.txPointer + |d.0| <= BufferSize && rest == d.1 && bytesWritten == |d.0| &&
      s2 == s1.(tx := Put(s1.tx, s1.txPointer, d.0), txPointer := s1.txPointer + |d.0|)
    requires s3 == s2.(tx := ReplyTail(s2.tx, header, messageType, bytesWritten, rest != []))
    ensures CodeReply(TxOf(s), canWrite, free, messageType, chain) == Some((TxOf(s3), rest))
    ensures s3 == WithTx(s, TxOf(s3))
  {
    HeaderSizes();
    CodeReplyByStores(TxOf(s), canWrite, free, messageType, chain);
  }

  /** The packet of a code reply with text `w`, flagged when `pushed`, as the stores `WriteCodeReply` makes. */
  lemma {:induction false} ReplyPacketByStores(t: TxSide, messageType: u32, w: seq<byte>, pushed: bool)
    requires |t.buf| == BufferSize && AddPadding(t.pointer) + 20 + |w| <= BufferSize
    ensures var at := AddPadding(t.pointer);
      var fixed := EncodeFields(MessageFields(if pushed then WithPushFlag(messageType) else messageType, |w|));
      |fixed| == 8 && Fits(t.pointer, |fixed| + |w|) &&
      AppendPacket(t, MessageRequest, fixed, w) ==
        TxSide(ReplyTail(Put(ReplyHead(t.buf, at, t.packetId, messageType), at + 20, w), at, messageType, |w|, pushed),
          at + 20 + |w|, Inc16(t.packetId))
  {
    var at := AddPadding(t.pointer);
    HeaderSizes();
    var fixed := EncodeFields(MessageFields(if pushed then WithPushFlag(messageType) else messageType, |w|));
    ReplyStoresInOrder(t.buf, at, t.packetId, messageType, pushed, w);
    var h := EncodePacketHeader(PacketHeader(MessageRequest, t.packetId, 8 + |w|, 0));
    assert |fixed| + |w| == 8 + |w| && at + PacketHeaderSize + |fixed| == at + 20;
    var b := AppendPacketSteps(t, MessageRequest, fixed, w);
    assert b == Put(Put(Put(t.buf, at, h), at + 12, fixed), at + 20, w);
  }

  /** `ReplyStoresInOrder` for any bytes with the shapes of the two headers. */
  lemma {:induction false} StoresInOrder(buf: seq<byte>, at: nat, h0: seq<byte>, h: seq<byte>, m0: seq<byte>,
    pad: seq<byte>, w: seq<byte>, m1: seq<byte>, len16: seq<byte>, len32: seq<byte>, f: seq<byte>, pushed: bool)
    requires |h0| == |h| == 10 && |m0| == |m1| == |len32| == 4 && |pad| == |len16| == 2 && |f| == 8
    requires at + 20 + |w| <= |buf| && (pushed || m1 == m0)
    requires forall j :: 0 <= j < 10 ==> h[j] == if 4 <= j < 8 then len32[j - 4] else h0[j]
    requires forall j :: 0 <= j < 8 ==> f[j] == if j < 4 then m1[j] else if j < 6 then len16[j - 4] else pad[j - 6]
    ensures var b2 := Put(Put(Put(buf, at, h0), at + 12, m0), at + 18, pad);
      var b4 := Put(b2, at + 20, w);
      var b5 := if pushed then Put(b4, at + 12, m1) else b4;
      Put(Put(b5, at + 16, len16), at + 4, len32) == Put(Put(Put(buf, at, h), at + 12, f), at + 20, w)
  {
    var b1 := Put(buf, at, h0);
    var b2a := Put(b1, at + 12, m0);
    var b2 := Put(b2a, at + 18, pad);
    var b4 := Put(b2, at + 20, w);
    var b5 := if pushed then Put(b4, at + 12, m1) else b4;
    var b6 := Put(b5, at + 16, len16);
    var b7 := Put(b6, at + 4, len32);
    var s1 := Put(buf, at, h);
    var s2 := Put(s1, at + 12, f);
    var s3 := Put(s2, at + 20, w);
    forall i | 0 <= i < |buf|
      ensures b7[i] == s3[i]
    {
      PutAt(buf, at, h0, i);
      PutAt(b1, at + 12, m0, i);
      PutAt(b2a, at + 18, pad, i);
      PutAt(b2, at + 20, w, i);
      if pushed {
        PutAt(b4, at + 12, m1, i);
      }
      PutAt(b5, at + 16, len16, i);
      PutAt(b6, at + 4, len32, i);
      PutAt(buf, at, h, i);
      PutAt(s1, at + 12, f, i);
      PutAt(s2, at + 20, w, i);
    }
  }
}
