/**
 * The request readers against the packets the peer sends: a fixed header
 * and its trailing bytes placed at the receive cursor read back as the
 * values and strings that were placed, and the cursor ends past them.
 */
module RequestProperties {
  import opened Common
  import opened LinkWire
  import opened LinkSpec
  import opened LinkCodec
  import opened PacketProperties

  /** A get-object-model request reads back as its key and its flags. */
  lemma {:induction false} GetObjectModelReadsBack(r: RxSide, key: seq<byte>, flags: seq<byte>)
    requires |key| < 0x1_0000 && |flags| < 0x1_0000
    requires Holds(r.buf, r.pointer, EncodeFields(GetObjectModelFields(key, flags)) + (key + flags))
    ensures GetObjectModelReadable(r, LayoutSize(GetObjectModelHeader) + |key| + |flags|)
    ensures var (k, f, r1) := ReadGetObjectModel(r, LayoutSize(GetObjectModelHeader) + |key| + |flags|);
      k == key && f == flags && r1.pointer == r.pointer + LayoutSize(GetObjectModelHeader) + AddPadding(|key| + |flags|)
  {
    BodyReadsBack(r.buf, r.pointer, GetObjectModelFields(key, flags), key + flags);
    GetObjectModelFrom(r, key, flags);
  }

  /** The step of `GetObjectModelReadsBack` after the fixed header and the strings are known to read back. */
  lemma {:induction false} GetObjectModelFrom(r: RxSide, key: seq<byte>, flags: seq<byte>)
    requires |key| < 0x1_0000 && |flags| < 0x1_0000
    requires var at := r.pointer + LayoutSize(GetObjectModelHeader);
      at + |key| + |flags| <= |r.buf| &&
      DecodeFields(GetObjectModelHeader, r.buf, r.pointer) == [|key|, |flags|] &&
      r.buf[at..at + |key| + |flags|] == key + flags
    ensures GetObjectModelReadable(r, LayoutSize(GetObjectModelHeader) + |key| + |flags|)
    ensures var (k, f, r1) := ReadGetObjectModel(r, LayoutSize(GetObjectModelHeader) + |key| + |flags|);
      k == key && f == flags && r1.pointer == r.pointer + LayoutSize(GetObjectModelHeader) + AddPadding(|key| + |flags|)
  {
    SliceSplit(r.buf, r.pointer + LayoutSize(GetObjectModelHeader), key, flags);
  }

  /** An assign-filament request reads back as its extruder number and the filament name. */
  lemma {:induction false} AssignFilamentReadsBack(r: RxSide, extruder: int, name: seq<byte>)
    requires -0x8000_0000 <= extruder < 0x8000_0000 && |name| < 0x1_0000_0000
    requires Holds(r.buf, r.pointer, EncodeFields(AssignFilamentFields(extruder, name)) + name)
    ensures AssignFilamentReadable(r)
    ensures var (e, n, r1) := ReadAssignFilament(r);
      e == extruder && n == name && r1.pointer == r.pointer + LayoutSize(AssignFilamentHeader) + AddPadding(|name|)
  {
    var fs := AssignFilamentFields(extruder, name);
    BodyReadsBack(r.buf, r.pointer, fs, name);
    SignedRoundTrip(extruder);
  }

  /**
   * A file chunk reads back as its length, the file length and its data; a
   * length that is not positive comes with no data.
   */
  lemma {:induction false} FileChunkReadsBack(r: RxSide, dataLength: int, fileLength: u32, data: seq<byte>)
    requires -0x8000_0000 <= dataLength < 0x8000_0000
    requires if dataLength > 0 then |data| == dataLength else data == []
    requires Holds(r.buf, r.pointer, EncodeFields(ChunkFields(dataLength, fileLength)) + data)
    ensures FileChunkReadable(r)
    ensures var (n, f, d, r1) := ReadFileChunk(r);
      n == dataLength && f == fileLength && d == data &&
      r1.pointer == r.pointer + LayoutSize(FileChunk) + AddPadding(|data|)
  {
    var fs := ChunkFields(dataLength, fileLength);
    BodyReadsBack(r.buf, r.pointer, fs, data);
    SignedRoundTrip(dataLength);
    assert AddPadding(0) == 0;
  }

  /** An evaluate-expression request reads back as its channel and the expression. */
  lemma {:induction false} EvaluateExpressionReadsBack(r: RxSide, channel: byte, expression: seq<byte>)
    requires Holds(r.buf, r.pointer, EncodeFields(CodeChannelFields(channel)) + expression)
    ensures EvaluateExpressionReadable(r, LayoutSize(CodeChannelHeader) + |expression|)
    ensures var (c, e, r1) := ReadEvaluateExpression(r, LayoutSize(CodeChannelHeader) + |expression|);
      c == channel && e == expression && r1.pointer == r.pointer + LayoutSize(CodeChannelHeader) + AddPadding(|expression|)
  {
    var fs := CodeChannelFields(channel);
    BodyReadsBack(r.buf, r.pointer, fs, expression);
    ValuesAt(fs);
  }

  /**
   * A message reads back as its type and as much of its text as the room
   * allows, flagged complete exactly when all of it fits.
   */
  lemma {:induction false} MessageReadsBack(r: RxSide, messageType: u32, text: seq<byte>, room: nat)
    requires |text| < 0x1_0000
    requires Holds(r.buf, r.pointer, EncodeFields(MessageFields(messageType, |text|)) + text)
    ensures MessageReadable(r, room)
    ensures var (t, m, complete, r1) := ReadMessage(r, room);
      t == messageType && m == text[..Min(room, |text|)] && (complete <==> |text| <= room) &&
      r1.pointer == r.pointer + LayoutSize(MessageHeader) + AddPadding(|text|)
  {
    MessageFieldsLayout(messageType, |text|);
    BodyReadsBack(r.buf, r.pointer, MessageFields(messageType, |text|), text);
    MessageFrom(r, messageType, text, room);
  }

  /** The step of `MessageReadsBack` after the fixed header and the text are known to read back. */
  lemma {:induction false} MessageFrom(r: RxSide, messageType: u32, text: seq<byte>, room: nat)
    requires |text| < 0x1_0000
    requires var at := r.pointer + LayoutSize(MessageHeader);
      at + |text| <= |r.buf| &&
      DecodeFields(MessageHeader, r.buf, r.pointer) == [messageType as nat, Low16(|text|) as nat, 0] &&
      r.buf[at..at + |text|] == text
    ensures MessageReadable(r, room)
    ensures var (t, m, complete, r1) := ReadMessage(r, room);
      t == messageType && m == text[..Min(room, |text|)] && (complete <==> |text| <= room) &&
      r1.pointer == r.pointer + LayoutSize(MessageHeader) + AddPadding(|text|)
  {
    HeaderSizes();
    var at := r.pointer + 8;
    assert Low16(|text|) == |text|;
    assert r.buf[at..at + Min(room, |text|)] == r.buf[at..at + |text|][..Min(room, |text|)];
  }
}
