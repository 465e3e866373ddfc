/**
 * The packet codec of the SBC link as functions on a snapshot of the
 * `DataTransfer` object: the transmit side appends packets at `txPointer`
 * (a packet header realigned to 4 bytes, a fixed header, trailing bytes),
 * the receive side walks them with `rxPointer`.
 *
 * The fixed headers are lists of little-endian fields.  Their declarations
 * are not part of this model; the layouts below are chosen so that every
 * field the code stores is one field, and each layout is a multiple of 4
 * bytes long.
 */
module LinkCodec {
  import opened Common
  import opened LinkWire
  import opened LinkSpec

  // ---------------------------------------------------------------------
  // Fixed headers

  datatype Width = Byte | Half | Word
  datatype Field = W8(b: byte) | W16(h: u16) | W32(w: u32)

  function Size(w: Width): nat {
    match w
    case Byte => 1
    case Half => 2
    case Word => 4
  }

  function LayoutSize(ws: seq<Width>): nat {
    if ws == [] then 0 else Size(ws[0]) + LayoutSize(ws[1..])
  }

  function WidthOf(f: Field): Width {
    match f
    case W8(_) => Byte
    case W16(_) => Half
    case W32(_) => Word
  }

  function Layout(fs: seq<Field>): (ws: seq<Width>)
    ensures |ws| == |fs|
  {
    if fs == [] then [] else [WidthOf(fs[0])] + Layout(fs[1..])
  }

  /** The layout of a header lists the widths of its fields in order. */
  lemma {:induction false} LayoutAt(fs: seq<Field>)
    ensures forall i :: 0 <= i < |fs| ==> Layout(fs)[i] == WidthOf(fs[i])
  {
    if fs != [] {
      LayoutAt(fs[1..]);
      assert forall i :: 1 <= i < |fs| ==> fs[1..][i - 1] == fs[i];
    }
  }

  /** The values of a header list the values of its fields in order. */
  lemma {:induction false} ValuesAt(fs: seq<Field>)
    ensures forall i :: 0 <= i < |fs| ==> Values(fs)[i] == ValueOf(fs[i])
  {
    if fs != [] {
      ValuesAt(fs[1..]);
      assert forall i :: 1 <= i < |fs| ==> fs[1..][i - 1] == fs[i];
    }
  }

  function ValueOf(f: Field): nat {
    match f
    case W8(b) => b as nat
    case W16(h) => h
    case W32(w) => w
  }

  function Values(fs: seq<Field>): (vs: seq<nat>)
    ensures |vs| == |fs|
  {
    if fs == [] then [] else [ValueOf(fs[0])] + Values(fs[1..])
  }

  function EncodeField(f: Field): (r: seq<byte>)
    ensures |r| == Size(WidthOf(f))
  {
    match f
    case W8(b) => [b]
    case W16(h) => LE16(h)
    case W32(w) => LE32(w)
  }

  /** The bytes of a fixed header whose fields are stored in order. */
  function EncodeFields(fs: seq<Field>): (r: seq<byte>)
    ensures |r| == LayoutSize(Layout(fs))
  {
    if fs == [] then [] else EncodeField(fs[0]) + EncodeFields(fs[1..])
  }

  /** One more than the largest value a field of width `w` holds. */
  function Limit(w: Width): nat {
    match w
    case Byte => 0x100
    case Half => 0x1_0000
    case Word => 0x1_0000_0000
  }

  /** The field of width `w` stored at `buf[i..]`. */
  function DecodeField(w: Width, buf: seq<byte>, i: nat): (r: nat)
    requires i + Size(w) <= |buf|
    ensures r < Limit(w)
  {
    match w
    case Byte => buf[i] as nat
    case Half => U16At(buf, i)
    case Word => U32At(buf, i)
  }

  /** The field values of a fixed header of layout `ws` stored at `buf[i..]`. */
  function DecodeFields(ws: seq<Width>, buf: seq<byte>, i: nat): (r: seq<nat>)
    requires i + LayoutSize(ws) <= |buf|
    ensures |r| == |ws| && forall k :: 0 <= k < |r| ==> r[k] < Limit(ws[k])
  {
    if ws == [] then [] else [DecodeField(ws[0], buf, i)] + DecodeFields(ws[1..], buf, i + Size(ws[0]))
  }

  lemma FieldRead(f: Field, buf: seq<byte>, i: nat)
    requires Holds(buf, i, EncodeField(f))
    ensures DecodeField(WidthOf(f), buf, i) == ValueOf(f)
  {
    match f
    case W8(b) => assert buf[i] == EncodeField(f)[0];
    case W16(h) => Held16(buf, i, h);
    case W32(w) => Held32(buf, i, w);
  }

  /** A fixed header a buffer holds reads back as the values stored into it. */
  lemma {:induction false} FieldsRoundTrip(fs: seq<Field>, buf: seq<byte>, i: nat)
    requires Holds(buf, i, EncodeFields(fs))
    ensures DecodeFields(Layout(fs), buf, i) == Values(fs)
  {
    if fs != [] {
      var ws := Layout(fs);
      var e := EncodeField(fs[0]);
      assert ws[0] == WidthOf(fs[0]) && ws[1..] == Layout(fs[1..]);
      assert EncodeFields(fs) == e + EncodeFields(fs[1..]);
      HoldsSplit(buf, i, e, EncodeFields(fs[1..]));
      FieldRead(fs[0], buf, i);
      FieldsRoundTrip(fs[1..], buf, i + |e|);
    }
  }

  const StringHeader: seq<Width> := [Half, Half]
  const CodeBufferUpdateHeader: seq<Width> := [Half, Half]
  const MessageHeader: seq<Width> := [Word, Half, Half]
  const ExecuteMacroHeader: seq<Width> := [Byte, Byte, Byte, Byte]
  const AbortFileHeader: seq<Width> := [Byte, Byte, Half]
  const CodeChannelHeader: seq<Width> := [Byte, Byte, Half]
  const PrintPausedHeader: seq<Width> := [Word, Byte, Byte, Half]
  const FileChunkHeader: seq<Width> := [Word, Word, Word]
  const EvaluationResultHeader: seq<Width> := [Half, Half, Word]
  const DoCodeHeader: seq<Width> := [Half, Half]
  const GetObjectModelHeader: seq<Width> := [Half, Half]
  const PrintStoppedHeader: seq<Width> := [Byte, Byte, Half]
  const MacroCompleteHeader: seq<Width> := [Byte, Byte, Half]
  const AssignFilamentHeader: seq<Width> := [Word, Word]
  const FileChunk: seq<Width> := [Word, Word]

  /** Every fixed header is a whole number of 4-byte words, so it keeps the cursor aligned. */
  lemma HeaderSizes()
    ensures LayoutSize(StringHeader) == 4 && LayoutSize(CodeBufferUpdateHeader) == 4
    ensures LayoutSize(MessageHeader) == 8 && LayoutSize(ExecuteMacroHeader) == 4
    ensures LayoutSize(AbortFileHeader) == 4 && LayoutSize(CodeChannelHeader) == 4
    ensures LayoutSize(PrintPausedHeader) == 8 && LayoutSize(FileChunkHeader) == 12
    ensures LayoutSize(EvaluationResultHeader) == 8 && LayoutSize(DoCodeHeader) == 4
    ensures LayoutSize(GetObjectModelHeader) == 4 && LayoutSize(PrintStoppedHeader) == 4
    ensures LayoutSize(MacroCompleteHeader) == 4 && LayoutSize(AssignFilamentHeader) == 8
    ensures LayoutSize(FileChunk) == 8
  {
    assert [Half, Half][1..] == [Half];
    assert [Word, Half, Half][1..] == [Half, Half];
    assert [Byte, Byte, Byte, Byte][1..] == [Byte, Byte, Byte];
    assert [Byte, Byte, Byte][1..] == [Byte, Byte];
    assert [Byte, Byte][1..] == [Byte];
    assert [Byte, Byte, Half][1..] == [Byte, Half];
    assert [Byte, Half][1..] == [Half];
    assert [Word, Byte, Byte, Half][1..] == [Byte, Byte, Half];
    assert [Word, Word, Word][1..] == [Word, Word];
    assert [Word, Word][1..] == [Word];
    assert [Half, Half, Word][1..] == [Half, Word];
    assert [Half, Word][1..] == [Word];
  }

  // ---------------------------------------------------------------------
  // Request codes and value codes (the enumerations are not part of this model; the values are assumed)

  const ObjectModelRequest: u16 := 1
  const CodeBufferUpdateRequest: u16 := 2
  const MessageRequest: u16 := 3
  const ExecuteMacroRequest: u16 := 4
  const AbortFileRequest: u16 := 5
  const PrintPausedRequest: u16 := 7
  const LockedRequest: u16 := 9
  const FileChunkRequest: u16 := 10
  const EvaluationResultRequest: u16 := 11
  const DoCodeRequest: u16 := 12
  const WaitForAcknowledgementRequest: u16 := 13
  const MacroFileClosedRequest: u16 := 14
  const MessageAcknowledgedRequest: u16 := 15

  const IntType: u16 := 0
  const UIntType: u16 := 1
  const StringType: u16 := 6
  const ExpressionType: u16 := 7
  const BoolType: u16 := 8
  const DriverIdType: u16 := 10

  /** The flag a code reply carries when more of it follows in a later packet. */
  const PushFlag: u32 := 0x8000_0000

  /** `type | PushFlag` on a 32-bit message type. */
  function WithPushFlag(t: u32): (r: u32)
    ensures r >= PushFlag && r % PushFlag == t % PushFlag
  {
    if t >= PushFlag then t else t + PushFlag
  }

  /** A 32-bit two's-complement word read as a signed value. */
  function Signed(w: u32): int {
    if w < 0x8000_0000 then w else w - 0x1_0000_0000
  }

  /** A signed 32-bit value stored as a word. */
  function Unsigned(i: int): u32 {
    i % 0x1_0000_0000
  }

  lemma SignedRoundTrip(i: int)
    requires -0x8000_0000 <= i < 0x8000_0000
    ensures Signed(Unsigned(i)) == i
  {
  }

  /** A length stored into a 16-bit field keeps only its low 16 bits. */
  function Low16(n: nat): u16 {
    n % 0x1_0000
  }

  function Low8(n: nat): byte {
    (n % 0x100) as byte
  }

  // ---------------------------------------------------------------------
  // The two cursors

  /** The receive side: the receive buffer, `rxPointer` and the length the peer announced in its header. */
  datatype RxSide = RxSide(buf: seq<byte>, pointer: nat, length: nat)

  /** The transmit side: the transmit buffer, `txPointer` and `packetId`. */
  datatype TxSide = TxSide(buf: seq<byte>, pointer: nat, packetId: u16)

  function RxOf(s: Link): RxSide {
    RxSide(s.rx, s.rxPointer, s.rxHeader.dataLength)
  }

  function TxOf(s: Link): TxSide {
    TxSide(s.tx, s.txPointer, s.packetId)
  }

  /** `s` with its transmit side replaced. */
  function WithTx(s: Link, t: TxSide): Link {
    s.(tx := t.buf, txPointer := t.pointer, packetId := t.packetId)
  }

  // ---------------------------------------------------------------------
  // The receive side

  /** `ReadPacket` may read a header only inside the buffer. */
  predicate PacketReadable(r: RxSide) {
    r.pointer < r.length ==> r.pointer + PacketHeaderSize <= |r.buf|
  }

  /** `ReadPacket`: the next packet header, or none once the cursor has reached the received length. */
  function ReadPacket(r: RxSide): (Option<PacketHeader>, RxSide)
    requires PacketReadable(r)
  {
    if r.pointer >= r.length then (None, r)
    else (Some(DecodePacketHeader(r.buf, r.pointer)), r.(pointer := r.pointer + PacketHeaderSize))
  }

  /** `ReadData`: where `n` bytes of data start; the cursor moves over them and their padding. */
  function ReadData(r: RxSide, n: nat): (nat, RxSide) {
    (r.pointer, r.(pointer := r.pointer + AddPadding(n)))
  }

  /** `ReadDataHeader`: the values of a fixed header of layout `ws` at the cursor; the cursor moves over it. */
  function ReadDataHeader(r: RxSide, ws: seq<Width>): (seq<nat>, RxSide)
    requires r.pointer + LayoutSize(ws) <= |r.buf|
  {
    (DecodeFields(ws, r.buf, r.pointer), r.(pointer := r.pointer + LayoutSize(ws)))
  }

  // ---------------------------------------------------------------------
  // The transmit side

  /** `WritePacketHeader`: realign the cursor, store a header stamped with the packet count, count the packet. */
  function WritePacketHeader(t: TxSide, request: u16, length: u32, resend: u16): (r: TxSide)
    requires AddPadding(t.pointer) + PacketHeaderSize <= |t.buf|
    ensures |r.buf| == |t.buf| && r.pointer == AddPadding(t.pointer) + PacketHeaderSize
  {
    var at := AddPadding(t.pointer);
    TxSide(Put(t.buf, at, EncodePacketHeader(PacketHeader(request, t.packetId, length, resend))),
      at + PacketHeaderSize, Inc16(t.packetId))
  }

  /** `WriteData`: copy `bytes` to the cursor and move past them, without padding. */
  function WriteData(t: TxSide, bytes: seq<byte>): (r: TxSide)
    requires t.pointer + |bytes| <= |t.buf|
    ensures |r.buf| == |t.buf| && r.pointer == t.pointer + |bytes|
  {
    t.(buf := Put(t.buf, t.pointer, bytes), pointer := t.pointer + |bytes|)
  }

  /** The room a packet of `n` data bytes needs after the cursor `p`. */
  predicate Fits(p: nat, n: nat) {
    AddPadding(p) + PacketHeaderSize + n <= BufferSize
  }

  /**
   * A packet: its header, then the bytes of its fixed header and the
   * trailing bytes; the length in the header counts both.
   */
  function AppendPacket(t: TxSide, request: u16, fixed: seq<byte>, trailing: seq<byte>): (r: TxSide)
    requires |t.buf| == BufferSize && Fits(t.pointer, |fixed| + |trailing|)
    ensures |r.buf| == BufferSize && r.pointer == AddPadding(t.pointer) + PacketHeaderSize + |fixed| + |trailing|
    ensures r.packetId == Inc16(t.packetId)
  {
    var t1 := WritePacketHeader(t, request, |fixed| + |trailing|, 0);
    WriteData(WriteData(t1, fixed), trailing)
  }

  /** `CanWritePacket(n)` at cursor `p`; it is not part of this model. */
  type WriteCheck = (nat, nat) -> bool

  /** The check admits only packets that fit. */
  ghost predicate CheckSound(canWrite: WriteCheck) {
    forall p: nat, n: nat :: canWrite(p, n) ==> Fits(p, n)
  }

  /** A `Write*` builder: nothing happens unless the check admits the packet's data bytes. */
  function Build(t: TxSide, canWrite: WriteCheck, request: u16, fs: seq<Field>, trailing: seq<byte>): Option<TxSide>
    requires |t.buf| == BufferSize && CheckSound(canWrite)
  {
    if canWrite(t.pointer, |EncodeFields(fs)| + |trailing|) then Some(AppendPacket(t, request, EncodeFields(fs), trailing)) else None
  }

  /** `FreeTxSpace()` at cursor `p`; it is not part of this model. */
  type FreeSpace = nat -> nat

  /** The free space never reaches past the end of the buffer. */
  ghost predicate FreeSound(free: FreeSpace) {
    forall p: nat :: p + free(p) <= BufferSize
  }

  // ---------------------------------------------------------------------
  // The packets the builders lay out

  function CodeBufferUpdateFields(bufferSpace: u16): (fs: seq<Field>)
    ensures Layout(fs) == CodeBufferUpdateHeader
  {
    var fs := [W16(bufferSpace), W16(0)];
    LayoutAt(fs);
    fs
  }

  function ObjectModelFields(data: seq<byte>): (fs: seq<Field>)
    ensures Layout(fs) == StringHeader
  {
    var fs := [W16(Low16(|data|)), W16(0)];
    LayoutAt(fs);
    fs
  }

  function MacroRequestFields(channel: byte, filename: seq<byte>, fromCode: bool): (fs: seq<Field>)
    ensures Layout(fs) == ExecuteMacroHeader
  {
    var fs := [W8(channel), W8(0), W8(if fromCode then 1 else 0), W8(Low8(|filename|))];
    LayoutAt(fs);
    fs
  }

  function AbortFileFields(channel: byte, abortAll: bool): (fs: seq<Field>)
    ensures Layout(fs) == AbortFileHeader
  {
    var fs := [W8(channel), W8(if abortAll then 1 else 0), W16(0)];
    LayoutAt(fs);
    fs
  }

  function CodeChannelFields(channel: byte): (fs: seq<Field>)
    ensures Layout(fs) == CodeChannelHeader
  {
    var fs := [W8(channel), W8(0), W16(0)];
    LayoutAt(fs);
    fs
  }

  function PrintPausedFields(position: u32, reason: byte): (fs: seq<Field>)
    ensures Layout(fs) == PrintPausedHeader
  {
    var fs := [W32(position), W8(reason), W8(0), W16(0)];
    LayoutAt(fs);
    fs
  }

  function FileChunkFields(filename: seq<byte>, offset: u32, maxLength: u32): (fs: seq<Field>)
    requires |filename| < 0x1_0000_0000
    ensures Layout(fs) == FileChunkHeader
  {
    var fs := [W32(offset), W32(maxLength), W32(|filename|)];
    LayoutAt(fs);
    fs
  }

  function DoCodeFields(channel: byte, code: seq<byte>): (fs: seq<Field>)
    ensures Layout(fs) == DoCodeHeader
  {
    var fs := [W16(channel as nat), W16(Low16(|code|))];
    LayoutAt(fs);
    fs
  }

  function MessageFields(messageType: u32, length: nat): (fs: seq<Field>) {
    [W32(messageType), W16(Low16(length)), W16(0)]
  }

  /** The fields of a message header have its layout, and read back as the message type, the 16-bit length and a zero. */
  lemma {:induction false} MessageFieldsLayout(messageType: u32, length: nat)
    ensures Layout(MessageFields(messageType, length)) == MessageHeader
    ensures Values(MessageFields(messageType, length)) == [messageType, Low16(length), 0]
    ensures |EncodeFields(MessageFields(messageType, length))| == LayoutSize(MessageHeader)
  {
    var fs := MessageFields(messageType, length);
    var f1, f2 := fs[1..], fs[1..][1..];
    assert f1 == [W16(Low16(length)), W16(0)] && f2 == [W16(0)] && f2[1..] == [];
    assert Layout(f2) == [Half] && Values(f2) == [0];
    assert Layout(f1) == [Half] + Layout(f2) && Values(f1) == [Low16(length)] + Values(f2);
    HeaderSizes();
  }

  /** The non-float values an expression can evaluate to; `Text` is the text `AppendAsString` or `printf` produced. */
  datatype Value =
    | BoolValue(b: bool)
    | StringValue(s: seq<byte>)
    | DriverIdValue(d: u32)
    | UIntValue(u: u32)
    | IntValue(i: int)
    | Text(t: seq<byte>)

  predicate ValueOk(v: Value) {
    v.IntValue? ==> -0x8000_0000 <= v.i < 0x8000_0000
  }

  /** The bytes that follow the expression in an evaluation result. */
  function ValueBytes(v: Value): seq<byte> {
    match v
    case StringValue(s) => s
    case Text(t) => t
    case _ => []
  }

  function ValueType(v: Value): u16 {
    match v
    case BoolValue(_) => BoolType
    case StringValue(_) => StringType
    case DriverIdValue(_) => DriverIdType
    case UIntValue(_) => UIntType
    case IntValue(_) => IntType
    case Text(_) => StringType
  }

  function ValueWord(v: Value): u32
    requires ValueOk(v) && |ValueBytes(v)| < 0x8000_0000
  {
    match v
    case BoolValue(b) => if b then 1 else 0
    case StringValue(s) => |s|
    case DriverIdValue(d) => d
    case UIntValue(u) => u
    case IntValue(i) => Unsigned(i)
    case Text(t) => |t|
  }

  function EvaluationFields(expression: seq<byte>, v: Value): (fs: seq<Field>)
    requires ValueOk(v) && |ValueBytes(v)| < 0x8000_0000
    ensures Layout(fs) == EvaluationResultHeader
  {
    var fs := [W16(ValueType(v)), W16(Low16(|expression|)), W32(ValueWord(v))];
    LayoutAt(fs);
    fs
  }

  function EvaluationErrorFields(expression: seq<byte>, error: seq<byte>): (fs: seq<Field>)
    requires |error| < 0x8000_0000
    ensures Layout(fs) == EvaluationResultHeader
  {
    var fs := [W16(ExpressionType), W16(Low16(|expression|)), W32(|error|)];
    LayoutAt(fs);
    fs
  }

  // ---------------------------------------------------------------------
  // The object model packet

  /**
   * What `WriteObjectModel` asks `CanWritePacket` for, as written: the
   * length of the data alone, although the packet also carries a
   * `StringHeader`.
   */
  function ObjectModelNeedAsWritten(data: seq<byte>): nat {
    |data|
  }

  /** What the object model packet occupies after its packet header: the string header and the data. */
  function ObjectModelNeed(data: seq<byte>): nat {
    LayoutSize(StringHeader) + |data|
  }

  // ---------------------------------------------------------------------
  // The code reply

  /** The bytes still held by a chain of output buffers. */
  function Flatten(chain: seq<seq<byte>>): seq<byte> {
    if chain == [] then [] else chain[0] + Flatten(chain[1..])
  }

  /** One or two buffers hold their bytes in order. */
  lemma FlattenShort(a: seq<byte>, b: seq<byte>)
    ensures Flatten([a]) == a && Flatten([a, b]) == a + b
  {
    assert [a][1..] == [] && [b][1..] == [] && [a, b][1..] == [b];
    assert Flatten([a]) == a + Flatten([]) && Flatten([b]) == b + Flatten([]);
    assert Flatten([a, b]) == a + Flatten([b]);
  }

  function Min(a: nat, b: nat): nat {
    if a < b then a else b
  }

  lemma FlattenTaken(chain: seq<seq<byte>>, n: nat)
    requires chain != [] && 0 < n <= |chain[0]|
    ensures var next := if n == |chain[0]| then chain[1..] else [chain[0][n..]] + chain[1..];
      Flatten(chain) == chain[0][..n] + Flatten(next)
  {
    if n < |chain[0]| {
      var next := [chain[0][n..]] + chain[1..];
      assert next[1..] == chain[1..];
      assert chain[0] == chain[0][..n] + chain[0][n..];
    } else {
      assert chain[0][..n] == chain[0];
    }
  }

  /**
   * The copy loop of `WriteCodeReply` from cursor `p`: each round copies as
   * much of the first buffer as the free space allows, releases a buffer
   * once it is empty, and stops when nothing can be copied or the chain is
   * used up.  The result is what was copied and the chain that is left.
   */
  function Drain(chain: seq<seq<byte>>, p: nat, free: FreeSpace): (seq<byte>, seq<seq<byte>>)
    decreases |Flatten(chain)|
  {
    if chain == [] then ([], [])
    else
      var n := Min(free(p), |chain[0]|);
      if n == 0 then ([], chain)
      else
        var next := if n == |chain[0]| then chain[1..] else [chain[0][n..]] + chain[1..];
        FlattenTaken(chain, n);
        var (w, rest) := Drain(next, p + n, free);
        (chain[0][..n] + w, rest)
  }

  /** A partial run of `Drain` from `start` over `chain` has copied `written` and left `rest`. */
  predicate Drained(chain: seq<seq<byte>>, start: nat, free: FreeSpace, written: seq<byte>, rest: seq<seq<byte>>) {
    var d := Drain(rest, start + |written|, free);
    Drain(chain, start, free) == (written + d.0, d.1)
  }

  /** One round of `Drain` that copies something extends a partial run by the bytes it takes. */
  lemma {:induction false} DrainAccumulate(chain: seq<seq<byte>>, start: nat, free: FreeSpace, written: seq<byte>,
    rest: seq<seq<byte>>, taken: seq<byte>, next: seq<seq<byte>>)
    requires rest != [] && Drained(chain, start, free, written, rest)
    requires var n := Min(free(start + |written|), |rest[0]|);
      n != 0 && taken == rest[0][..n] && next == if n == |rest[0]| then rest[1..] else [rest[0][n..]] + rest[1..]
    ensures Drained(chain, start, free, written + taken, next)
  {
    var d := Drain(next, start + |written| + |taken|, free);
    assert Drain(rest, start + |written|, free) == (taken + d.0, d.1);
    assert written + (taken + d.0) == (written + taken) + d.0;
  }

  /** `Drain` stops, copying nothing, when the free space or the first buffer is empty. */
  lemma DrainHalts(chain: seq<seq<byte>>, p: nat, free: FreeSpace)
    requires chain != [] && Min(free(p), |chain[0]|) == 0
    ensures Drain(chain, p, free) == ([], chain)
  {
  }

  /** Once the rest of the chain yields nothing more, what was written is all `Drain` copies. */
  lemma {:induction false} DrainedWhole(chain: seq<seq<byte>>, start: nat, free: FreeSpace, written: seq<byte>,
    rest: seq<seq<byte>>)
    requires Drained(chain, start, free, written, rest)
    requires rest == [] || Min(free(start + |written|), |rest[0]|) == 0
    ensures Drain(chain, start, free) == (written, rest)
  {
    if rest != [] {
      DrainHalts(rest, start + |written|, free);
    }
    assert written + [] == written;
  }

  /** The message type a code reply is sent with: flagged when part of the reply is left for a later packet. */
  function ReplyType(messageType: u32, rest: seq<seq<byte>>): u32 {
    if rest != [] then WithPushFlag(messageType) else messageType
  }

  /** Where the reply text of a code reply starts: after the packet header and the message header. */
  function ReplyStart(p: nat): nat {
    AddPadding(p) + PacketHeaderSize + LayoutSize(MessageHeader)
  }

  /** The first stores of `WriteCodeReply` at the padded cursor `at`: the packet header with length 0, the type and the padding. */
  function ReplyHead(buf: seq<byte>, at: nat, id: u16, messageType: u32): (r: seq<byte>)
    requires at + PacketHeaderSize + 8 <= |buf|
    ensures |r| == |buf|
  {
    Put(Put(Put(buf, at, EncodePacketHeader(PacketHeader(MessageRequest, id, 0, 0))), at + 12, LE32(messageType)), at + 18, LE16(0))
  }

  /** The last stores of `WriteCodeReply` once `n` bytes of text are copied: the push flag when text is left, then the lengths. */
  function ReplyTail(buf: seq<byte>, at: nat, messageType: u32, n: nat, pushed: bool): (r: seq<byte>)
    requires at + PacketHeaderSize + 8 <= |buf| && 8 + n < 0x1_0000_0000
    ensures |r| == |buf|
  {
    var b := if pushed then Put(buf, at + 12, LE32(WithPushFlag(messageType))) else buf;
    Put(Put(b, at + 16, LE16(Low16(n))), at + 4, LE32(8 + n))
  }

  /**
   * `WriteCodeReply`: nothing happens unless the check admits a message
   * header and up to 16 bytes of the reply; otherwise a message packet with
   * as much of the reply as fits, and the chain that is left.
   */
  function CodeReply(t: TxSide, canWrite: WriteCheck, free: FreeSpace, messageType: u32, chain: seq<seq<byte>>)
    : Option<(TxSide, seq<seq<byte>>)>
    requires |t.buf| == BufferSize && CheckSound(canWrite) && FreeSound(free)
  {
    if !canWrite(t.pointer, LayoutSize(MessageHeader) + Min(16, |Flatten(chain)|)) then None
    else
      var (w, rest) := Drain(chain, ReplyStart(t.pointer), free);
      DrainFits(chain, ReplyStart(t.pointer), free);
      MessageFieldsLayout(ReplyType(messageType, rest), |w|);
      HeaderSizes();
      Some((AppendPacket(t, MessageRequest, EncodeFields(MessageFields(ReplyType(messageType, rest), |w|)), w), rest))
  }

  /** What `Drain` copies fits between its start and the end of the buffer. */
  lemma {:induction false} DrainFits(chain: seq<seq<byte>>, p: nat, free: FreeSpace)
    requires FreeSound(free) && p <= BufferSize
    ensures p + |Drain(chain, p, free).0| <= BufferSize
    decreases |Flatten(chain)|
  {
    if chain != [] {
      var n := Min(free(p), |chain[0]|);
      if n != 0 {
        var next := if n == |chain[0]| then chain[1..] else [chain[0][n..]] + chain[1..];
        FlattenTaken(chain, n);
        assert p + free(p) <= BufferSize;
        DrainFits(next, p + n, free);
      }
    }
  }

  // ---------------------------------------------------------------------
  // The request readers

  /** The packet holds a `GetObjectModelHeader`, and the key and flags it announces lie inside the buffer. */
  predicate GetObjectModelReadable(r: RxSide, packetLength: nat) {
    var at := r.pointer + LayoutSize(GetObjectModelHeader);
    LayoutSize(GetObjectModelHeader) <= packetLength && at <= |r.buf| &&
    var vs := DecodeFields(GetObjectModelHeader, r.buf, r.pointer);
    at + vs[0] + vs[1] <= |r.buf|
  }

  /** `ReadGetObjectModel`: the key, then the flags, after the fixed header; the cursor moves over the whole packet. */
  function ReadGetObjectModel(r: RxSide, packetLength: nat): (seq<byte>, seq<byte>, RxSide)
    requires GetObjectModelReadable(r, packetLength)
  {
    var (vs, r1) := ReadDataHeader(r, GetObjectModelHeader);
    var (data, r2) := ReadData(r1, packetLength - LayoutSize(GetObjectModelHeader));
    (r.buf[data..data + vs[0]], r.buf[data + vs[0]..data + vs[0] + vs[1]], r2)
  }

  /** The filament name an `AssignFilamentHeader` announces lies inside the buffer. */
  predicate AssignFilamentReadable(r: RxSide) {
    var at := r.pointer + LayoutSize(AssignFilamentHeader);
    at <= |r.buf| && at + DecodeFields(AssignFilamentHeader, r.buf, r.pointer)[1] <= |r.buf|
  }

  /** `ReadAssignFilament`: the signed extruder number and the filament name. */
  function ReadAssignFilament(r: RxSide): (int, seq<byte>, RxSide)
    requires AssignFilamentReadable(r)
  {
    var (vs, r1) := ReadDataHeader(r, AssignFilamentHeader);
    var (name, r2) := ReadData(r1, vs[1]);
    (Signed(vs[0] as u32), r.buf[name..name + vs[1]], r2)
  }

  /** A positive chunk length a `FileChunk` header announces lies inside the buffer. */
  predicate FileChunkReadable(r: RxSide) {
    var at := r.pointer + LayoutSize(FileChunk);
    at <= |r.buf| &&
    var n := Signed(DecodeFields(FileChunk, r.buf, r.pointer)[0] as u32);
    n > 0 ==> at + n <= |r.buf|
  }

  /**
   * `ReadFileChunk`: the signed chunk length, the file length and the
   * chunk; a length that is not positive (an error) comes with no data and
   * the cursor stays after the header.
   */
  function ReadFileChunk(r: RxSide): (int, u32, seq<byte>, RxSide)
    requires FileChunkReadable(r)
  {
    var (vs, r1) := ReadDataHeader(r, FileChunk);
    var dataLength := Signed(vs[0] as u32);
    if dataLength > 0 then
      var (data, r2) := ReadData(r1, dataLength);
      (dataLength, vs[1] as u32, r.buf[data..data + dataLength], r2)
    else (dataLength, vs[1] as u32, [], r1)
  }

  /** The packet holds a `CodeChannelHeader` and lies inside the buffer. */
  predicate EvaluateExpressionReadable(r: RxSide, packetLength: nat) {
    LayoutSize(CodeChannelHeader) <= packetLength && r.pointer + packetLength <= |r.buf|
  }

  /** `ReadEvaluateExpression`: the channel and the expression, which is the rest of the packet. */
  function ReadEvaluateExpression(r: RxSide, packetLength: nat): (byte, seq<byte>, RxSide)
    requires EvaluateExpressionReadable(r, packetLength)
  {
    var (vs, r1) := ReadDataHeader(r, CodeChannelHeader);
    var n := packetLength - LayoutSize(CodeChannelHeader);
    var (data, r2) := ReadData(r1, n);
    (vs[0] as byte, r.buf[data..data + n], r2)
  }

  /** The part of a message that fits in `room` bytes lies inside the buffer. */
  predicate MessageReadable(r: RxSide, room: nat) {
    var at := r.pointer + LayoutSize(MessageHeader);
    at <= |r.buf| && at + Min(room, DecodeFields(MessageHeader, r.buf, r.pointer)[1]) <= |r.buf|
  }

  /**
   * `ReadMessage` into an output buffer with room for `room` bytes: the
   * message type, the text that fits, and whether that is the whole text;
   * the cursor moves over the whole text.
   */
  function ReadMessage(r: RxSide, room: nat): (u32, seq<byte>, bool, RxSide)
    requires MessageReadable(r, room)
  {
    var (vs, r1) := ReadDataHeader(r, MessageHeader);
    var (data, r2) := ReadData(r1, vs[1]);
    var n := Min(room, vs[1]);
    (vs[0] as u32, r.buf[data..data + n], n == vs[1], r2)
  }

  // ---------------------------------------------------------------------
  // The fixed headers the peer sends

  function GetObjectModelFields(key: seq<byte>, flags: seq<byte>): (fs: seq<Field>)
    requires |key| < 0x1_0000 && |flags| < 0x1_0000
    ensures Layout(fs) == GetObjectModelHeader && Values(fs) == [|key|, |flags|]
  {
    var fs := [W16(|key|), W16(|flags|)];
    LayoutAt(fs);
    ValuesAt(fs);
    fs
  }

  function AssignFilamentFields(extruder: int, name: seq<byte>): (fs: seq<Field>)
    requires -0x8000_0000 <= extruder < 0x8000_0000 && |name| < 0x1_0000_0000
    ensures Layout(fs) == AssignFilamentHeader && Values(fs) == [Unsigned(extruder) as nat, |name|]
  {
    var fs := [W32(Unsigned(extruder)), W32(|name|)];
    LayoutAt(fs);
    ValuesAt(fs);
    fs
  }

  function ChunkFields(dataLength: int, fileLength: u32): (fs: seq<Field>)
    requires -0x8000_0000 <= dataLength < 0x8000_0000
    ensures Layout(fs) == FileChunk && Values(fs) == [Unsigned(dataLength) as nat, fileLength as nat]
  {
    var fs := [W32(Unsigned(dataLength)), W32(fileLength)];
    LayoutAt(fs);
    ValuesAt(fs);
    fs
  }

  /** What a builder leaves behind: the link unchanged, or with the transmit side it built. */
  function Sent(s: Link, built: Option<TxSide>): Link {
    if built.Some? then WithTx(s, built.value) else s
  }
}
