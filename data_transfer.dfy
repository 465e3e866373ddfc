/**
 * The `DataTransfer` object of the SBC link working in place: its fields,
 * its two 8192-byte buffers and the methods that run the frame exchange and
 * read and write packets.  Every method is proved to leave behind what the
 * functions of `LinkSpec` and `LinkCodec` describe, so the properties proved
 * about those functions hold of the object.
 */
module LinkTransfer {
  import opened Common
  import opened LinkWire
  import opened LinkSpec
  import opened LinkCodec
  import opened LinkProperties
  import opened PacketProperties

  class DataTransfer {
    var state: SpiState
    var rxHeader: TransferHeader
    var txHeader: TransferHeader
    var rxResponse: u32
    var txResponse: u32
    const rxBuffer: array<byte>
    const txBuffer: array<byte>
    var rxPointer: nat
    var txPointer: nat
    var packetId: u16
    var failedTransfers: u32
    var lastTransferNumber: u16
    var lastTransferTime: u32
    /** Raised by the transport when the exchange it was set up for completes. */
    var dataReceived: bool
    var transferReadyHigh: bool
    /** What the transport was last set up to exchange. */
    var exchange: Exchange

    /** `CalcCRC32`, `CanWritePacket` and `FreeTxSpace`, whose implementations are not part of this model. */
    const crc: Crc
    const canWrite: WriteCheck
    const free: FreeSpace

    /** The object as a `LinkSpec.Link` value. */
    ghost function Snapshot(): Link
      reads this, rxBuffer, txBuffer
    {
      Link(state, rxHeader, txHeader, rxResponse, txResponse, rxBuffer[..], txBuffer[..],
        rxPointer, txPointer, packetId, failedTransfers, lastTransferNumber, lastTransferTime,
        dataReceived, transferReadyHigh, exchange)
    }

    ghost predicate Valid()
      reads this, rxBuffer, txBuffer
    {
      rxBuffer != txBuffer && Consistent(Snapshot()) && CheckSound(canWrite) && FreeSound(free)
    }

    /**
     * The constructor: the state starts as `ExchangingData`, the counters,
     * cursors and timestamps at zero, both responses `Success` and the
     * outgoing header carries the format code and protocol version.  The
     * buffers and the header fields the constructor leaves alone start
     * zeroed, as the startup code leaves static memory.
     */
    constructor (crc: Crc, canWrite: WriteCheck, free: FreeSpace)
      requires CheckSound(canWrite) && FreeSound(free)
      ensures Valid() && fresh(rxBuffer) && fresh(txBuffer)
      ensures Snapshot() == Link(ExchangingData, TransferHeader(0, 0, 0, 0, 0, 0, 0),
        TransferHeader(LinuxFormatCode, LinuxProtocolVersion, 0, 0, 0, 0, 0), Success, Success,
        seq(BufferSize, _ => 0), seq(BufferSize, _ => 0), 0, 0, 0, 0, 0, 0, false, false, NoExchange)
      ensures this.crc == crc && this.canWrite == canWrite && this.free == free
    {
      this.crc, this.canWrite, this.free := crc, canWrite, free;
      state := ExchangingData;
      lastTransferTime, lastTransferNumber, failedTransfers := 0, 0, 0;
      rxBuffer := new byte[BufferSize](_ => 0);
      txBuffer := new byte[BufferSize](_ => 0);
      rxPointer, txPointer, packetId := 0, 0, 0;
      rxResponse, txResponse := Success, Success;
      rxHeader := TransferHeader(0, 0, 0, 0, 0, 0, 0);
      txHeader := TransferHeader(LinuxFormatCode, LinuxProtocolVersion, 0, 0, 0, 0, 0);
      dataReceived, transferReadyHigh, exchange := false, false, NoExchange;
    }

    // -------------------------------------------------------------------
    // The exchange helpers

    /** `setup_spi`. */
    method SetupSpi(e: Exchange)
      modifies this
      ensures Snapshot() == LinkSpec.SetupSpi(old(Snapshot()), e)
    {
      exchange := e;
      transferReadyHigh := !transferReadyHigh;
    }

    method ExchangeHeader()
      modifies this
      ensures Snapshot() == LinkSpec.ExchangeHeader(old(Snapshot()))
    {
      state := ExchangingHeader;
      SetupSpi(HeaderExchange);
    }

    method ExchangeResponse(response: u32)
      modifies this
      ensures Snapshot() == LinkSpec.ExchangeResponse(old(Snapshot()), response)
    {
      txResponse := response;
      state := if state == ExchangingHeader then ExchangingHeaderResponse else ExchangingDataResponse;
      SetupSpi(ResponseExchange);
    }

    method ExchangeData()
      modifies this
      ensures Snapshot() == LinkSpec.ExchangeData(old(Snapshot()))
    {
      var bytesToExchange := Max(rxHeader.dataLength, txHeader.dataLength);
      state := ExchangingData;
      SetupSpi(DataExchange(bytesToExchange));
    }

    method ResetTransfer(ownRequest: bool)
      modifies this
      ensures Snapshot() == LinkSpec.ResetTransfer(old(Snapshot()), ownRequest)
    {
      failedTransfers := Inc32(failedTransfers);
      if ownRequest {
        txResponse := BadResponse;
        SetupSpi(ResponseExchange);
        state := Resetting;
      } else {
        ExchangeHeader();
      }
    }

    // -------------------------------------------------------------------
    // The four phases of `IsReady`

    /** (1) Headers exchanged. */
    method HeaderReceived()
      requires state == ExchangingHeader
      modifies this
      ensures Snapshot() == LinkSpec.HeaderReceived(old(Snapshot()), crc)
    {
      if rxHeader.formatCode == BadResponse {
        ResetTransfer(false);
        return;
      }
      var checksum := crc(HeaderCrcInput(rxHeader));
      if rxHeader.crcHeader != checksum {
        ExchangeResponse(BadHeaderChecksum);
      } else if rxHeader.formatCode != LinuxFormatCode {
        ExchangeResponse(BadFormat);
      } else if rxHeader.protocolVersion != LinuxProtocolVersion {
        ExchangeResponse(BadProtocolVersion);
      } else if rxHeader.dataLength > BufferSize {
        ExchangeResponse(BadDataLength);
      } else {
        ExchangeResponse(Success);
      }
    }

    /** (2) Responses to the headers exchanged. */
    method HeaderResponseReceived() returns (ready: bool)
      requires Valid() && state == ExchangingHeaderResponse
      modifies this
      ensures Outcome(Snapshot(), ready) == LinkSpec.HeaderResponseReceived(old(Snapshot()))
    {
      ready := false;
      if rxResponse == Success && txResponse == Success {
        if rxHeader.dataLength != 0 || txHeader.dataLength != 0 {
          ExchangeData();
        } else {
          rxPointer, txPointer := 0, 0;
          packetId := 0;
          state := ProcessingData;
          ready := true;
          assert rxBuffer[..] == old(rxBuffer[..]) && txBuffer[..] == old(txBuffer[..]);
        }
      } else if rxResponse == BadResponse {
        ResetTransfer(false);
      } else if rxResponse == BadHeaderChecksum || txResponse == BadHeaderChecksum {
        ExchangeHeader();
      } else {
        ResetTransfer(true);
      }
    }

    /** (3) Payloads exchanged. */
    method DataReceived()
      requires Valid() && state == ExchangingData
      modifies this
      ensures Snapshot() == LinkSpec.DataReceived(old(Snapshot()), crc)
    {
      if U32At(rxBuffer[..], 0) == BadResponse {
        ExchangeHeader();
        return;
      }
      var checksum := crc(rxBuffer[..rxHeader.dataLength]);
      if rxHeader.crcData != checksum {
        ExchangeResponse(BadDataChecksum);
      } else {
        ExchangeResponse(Success);
      }
    }

    /** (4) Responses to the payloads exchanged. */
    method DataResponseReceived() returns (ready: bool)
      requires Valid() && state == ExchangingDataResponse
      modifies this
      ensures Outcome(Snapshot(), ready) == LinkSpec.DataResponseReceived(old(Snapshot()))
    {
      ready := false;
      if rxResponse == Success && txResponse == Success {
        rxPointer, txPointer := 0, 0;
        packetId := 0;
        state := ProcessingData;
        ready := true;
        assert rxBuffer[..] == old(rxBuffer[..]) && txBuffer[..] == old(txBuffer[..]);
      } else if rxResponse == BadResponse {
        ResetTransfer(false);
      } else if rxResponse == BadDataChecksum || txResponse == BadDataChecksum {
        ExchangeData();
      } else {
        ResetTransfer(true);
      }
    }

    // -------------------------------------------------------------------
    // Polling and sealing a cycle

    /**
     * `IsReady` at time `now`, with `connected` the answer of
     * `IsConnected()`: one step of the machine, true exactly when a cycle
     * completed successfully.
     */
    method IsReady(now: u32, connected: bool) returns (ready: bool)
      requires Valid()
      modifies this
      ensures Valid()
      ensures Outcome(Snapshot(), ready) == Ready(old(Snapshot()), crc, now, connected)
    {
      ghost var s := Snapshot();
      ReadyKeepsConsistent(s, crc, now, connected);
      ready := false;
      if dataReceived {
        dataReceived := false;
        lastTransferTime := now;
        assert rxBuffer[..] == old(rxBuffer[..]) && txBuffer[..] == old(txBuffer[..]);
        ready := Completion();
      } else if state != ExchangingHeader && Elapsed(now, lastTransferTime) > SpiTransferTimeout {
        transferReadyHigh := false;
        assert rxBuffer[..] == old(rxBuffer[..]) && txBuffer[..] == old(txBuffer[..]);
        ExchangeHeader();
      } else if !connected && (lastTransferNumber != 0 || Elapsed(now, lastTransferTime) > SpiConnectionTimeout * 2) {
        Disconnect(now);
        StartNextTransfer();
      }
    }

    /** The connection-loss block of `IsReady`: drop both sequence numbers and the staged payload. */
    method Disconnect(now: u32)
      modifies this
      ensures Snapshot() == Disconnected(old(Snapshot()), now)
    {
      ForgetSequence();
      DropStaged();
      lastTransferTime := now;
      transferReadyHigh := false;
    }

    /** The peer's sequence number is forgotten, on both sides. */
    method ForgetSequence()
      modifies this
      ensures Snapshot() == old(Snapshot()).(lastTransferNumber := 0, rxHeader := old(rxHeader).(sequenceNumber := 0))
    {
      lastTransferNumber := 0;
      rxHeader := rxHeader.(sequenceNumber := 0);
    }

    /** The outgoing sequence restarts and the staged payload is dropped. */
    method DropStaged()
      modifies this
      ensures Snapshot() == old(Snapshot()).(txHeader := old(txHeader).(sequenceNumber := 0), txPointer := 0)
    {
      txHeader := txHeader.(sequenceNumber := 0);
      txPointer := 0;
    }

    /** The completion switch of `IsReady`, by state. */
    method Completion() returns (ready: bool)
      requires Valid()
      modifies this
      ensures Outcome(Snapshot(), ready) == LinkSpec.Completion(old(Snapshot()), crc)
    {
      ready := false;
      match state
      case ExchangingHeader => HeaderReceived();
      case ExchangingHeaderResponse => ready := HeaderResponseReceived();
      case ExchangingData => DataReceived();
      case ExchangingDataResponse => ready := DataResponseReceived();
      case Resetting => ExchangeHeader();
      case ProcessingData => ExchangeHeader();
    }

    /** `StartNextTransfer`: seal the outgoing header over the staged payload and start the header exchange. */
    method StartNextTransfer()
      requires txPointer <= txBuffer.Length && txPointer < 0x1_0000_0000
      modifies this
      ensures Snapshot() == LinkSpec.StartNextTransfer(old(Snapshot()), crc)
    {
      RetireIncoming();
      SealOutgoing();
      ExchangeHeader();
    }

    /** The incoming header is remembered by its sequence number and invalidated. */
    method RetireIncoming()
      modifies this
      ensures Snapshot() == old(Snapshot()).(lastTransferNumber := old(rxHeader).sequenceNumber,
        rxHeader := old(rxHeader).(formatCode := InvalidFormatCode, numPackets := 0, protocolVersion := 0,
          dataLength := 0, crcData := 0, crcHeader := 0))
    {
      lastTransferNumber := rxHeader.sequenceNumber;
      rxHeader := rxHeader.(formatCode := InvalidFormatCode, numPackets := 0, protocolVersion := 0,
        dataLength := 0, crcData := 0, crcHeader := 0);
    }

    /** The outgoing header is stamped with the packet count, the next sequence number, the payload length and both checksums. */
    method SealOutgoing()
      requires txPointer <= txBuffer.Length && txPointer < 0x1_0000_0000
      modifies this
      ensures var txh := old(txHeader).(numPackets := old(packetId), sequenceNumber := Inc16(old(txHeader).sequenceNumber),
          dataLength := old(txPointer), crcData := crc(old(txBuffer[..txPointer])));
        Snapshot() == old(Snapshot()).(txHeader := txh.(crcHeader := crc(HeaderCrcInput(txh))))
    {
      var txh := txHeader.(numPackets := packetId, sequenceNumber := Inc16(txHeader.sequenceNumber),
        dataLength := txPointer, crcData := crc(txBuffer[..txPointer]));
      txHeader := txh.(crcHeader := crc(HeaderCrcInput(txh)));
    }

    /**
     * The transport at the end of the exchange it was set up for: the peer's
     * bytes land in the receive area of that exchange and `dataReceived` is
     * raised.
     */
    method Deliver(peer: seq<byte>)
      requires Valid() && exchange != NoExchange && |peer| == ExchangeLength(exchange)
      modifies this, rxBuffer
      ensures Valid()
      ensures Snapshot() == Delivered(old(Snapshot()), peer)
    {
      DeliveredKeepsConsistent(Snapshot(), peer);
      match exchange {
        case HeaderExchange => rxHeader := DecodeHeader(peer);
        case ResponseExchange => rxResponse := U32At(peer, 0);
        case DataExchange(n) =>
          forall i | 0 <= i < n {
            rxBuffer[i] := peer[i];
          }
      }
      dataReceived := true;
    }

    // -------------------------------------------------------------------
    // The receive cursor

    /** `ReadPacket`: the next packet header, or none once the cursor has reached the length the peer announced. */
    method ReadPacket() returns (header: Option<PacketHeader>)
      requires Valid() && PacketReadable(RxOf(Snapshot()))
      modifies this
      ensures Valid()
      ensures header.None? <==> old(rxPointer) >= rxHeader.dataLength
      ensures (header, RxOf(Snapshot())) == LinkCodec.ReadPacket(RxOf(old(Snapshot())))
      ensures Snapshot() == old(Snapshot()).(rxPointer := rxPointer)
    {
      if rxPointer >= rxHeader.dataLength {
        return None;
      }
      header := Some(DecodePacketHeader(rxBuffer[..], rxPointer));
      rxPointer := rxPointer + PacketHeaderSize;
      assert rxBuffer[..] == old(rxBuffer[..]) && txBuffer[..] == old(txBuffer[..]);
    }

    /** `ReadData`: where `dataLength` bytes of data start; the cursor moves over them and their padding. */
    method ReadData(dataLength: nat) returns (data: nat)
      requires Valid()
      modifies this
      ensures Valid()
      ensures data == old(rxPointer) && rxPointer == old(rxPointer) + AddPadding(dataLength)
      ensures Snapshot() == old(Snapshot()).(rxPointer := rxPointer)
    {
      data := rxPointer;
      rxPointer := rxPointer + AddPadding(dataLength);
      assert rxBuffer[..] == old(rxBuffer[..]) && txBuffer[..] == old(txBuffer[..]);
    }

    /** `ReadDataHeader`: the field values of a fixed header of layout `ws` at the cursor; the cursor moves over it. */
    method ReadDataHeader(ws: seq<Width>) returns (values: seq<nat>)
      requires Valid() && rxPointer + LayoutSize(ws) <= BufferSize
      modifies this
      ensures Valid()
      ensures (values, RxOf(Snapshot())) == LinkCodec.ReadDataHeader(RxOf(old(Snapshot())), ws)
      ensures Snapshot() == old(Snapshot()).(rxPointer := rxPointer)
    {
      values := DecodeFields(ws, rxBuffer[..], rxPointer);
      rxPointer := rxPointer + LayoutSize(ws);
      assert rxBuffer[..] == old(rxBuffer[..]) && txBuffer[..] == old(txBuffer[..]);
    }

    /** `ReadGetObjectModel`: the key and the flags of a request of `packetLength` bytes. */
    method ReadGetObjectModel(packetLength: nat) returns (key: seq<byte>, flags: seq<byte>)
      requires Valid() && GetObjectModelReadable(RxOf(Snapshot()), packetLength)
      modifies this
      ensures Valid()
      ensures (key, flags, RxOf(Snapshot())) == LinkCodec.ReadGetObjectModel(RxOf(old(Snapshot())), packetLength)
      ensures Snapshot() == old(Snapshot()).(rxPointer := rxPointer)
    {
      var header := ReadDataHeader(GetObjectModelHeader);
      var data := ReadData(packetLength - LayoutSize(GetObjectModelHeader));
      key := rxBuffer[data..data + header[0]];
      flags := rxBuffer[data + header[0]..data + header[0] + header[1]];
    }

    /** `ReadPrintStoppedInfo`: the reason in a `PrintStoppedHeader`. */
    method ReadPrintStoppedInfo() returns (reason: byte)
      requires Valid() && rxPointer + LayoutSize(PrintStoppedHeader) <= BufferSize
      modifies this
      ensures Valid()
      ensures var (vs, r) := LinkCodec.ReadDataHeader(RxOf(old(Snapshot())), PrintStoppedHeader);
        reason as nat == vs[0] && RxOf(Snapshot()) == r
      ensures Snapshot() == old(Snapshot()).(rxPointer := rxPointer)
    {
      var header := ReadDataHeader(PrintStoppedHeader);
      reason := header[0] as byte;
    }

    /** `ReadMacroCompleteInfo`: the channel and the error flag in a `MacroCompleteHeader`. */
    method ReadMacroCompleteInfo() returns (channel: byte, error: bool)
      requires Valid() && rxPointer + LayoutSize(MacroCompleteHeader) <= BufferSize
      modifies this
      ensures Valid()
      ensures var (vs, r) := LinkCodec.ReadDataHeader(RxOf(old(Snapshot())), MacroCompleteHeader);
        channel as nat == vs[0] && (error <==> vs[1] != 0) && RxOf(Snapshot()) == r
      ensures Snapshot() == old(Snapshot()).(rxPointer := rxPointer)
    {
      var header := ReadDataHeader(MacroCompleteHeader);
      error := header[1] != 0;
      channel := header[0] as byte;
    }

    /** `ReadCodeChannel`: the channel in a `CodeChannelHeader`. */
    method ReadCodeChannel() returns (channel: byte)
      requires Valid() && rxPointer + LayoutSize(CodeChannelHeader) <= BufferSize
      modifies this
      ensures Valid()
      ensures var (vs, r) := LinkCodec.ReadDataHeader(RxOf(old(Snapshot())), CodeChannelHeader);
        channel as nat == vs[0] && RxOf(Snapshot()) == r
      ensures Snapshot() == old(Snapshot()).(rxPointer := rxPointer)
    {
      var header := ReadDataHeader(CodeChannelHeader);
      channel := header[0] as byte;
    }

    /** `ReadAssignFilament`: the extruder number and the filament name. */
    method ReadAssignFilament() returns (extruder: int, filamentName: seq<byte>)
      requires Valid() && AssignFilamentReadable(RxOf(Snapshot()))
      modifies this
      ensures Valid()
      ensures (extruder, filamentName, RxOf(Snapshot())) == LinkCodec.ReadAssignFilament(RxOf(old(Snapshot())))
      ensures Snapshot() == old(Snapshot()).(rxPointer := rxPointer)
    {
      var header := ReadDataHeader(AssignFilamentHeader);
      extruder := Signed(header[0] as u32);
      var name := ReadData(header[1]);
      filamentName := rxBuffer[name..name + header[1]];
    }

    /** `ReadFileChunk`: the chunk length, the file length and, when the length is positive, the chunk. */
    method ReadFileChunk() returns (dataLength: int, fileLength: u32, data: seq<byte>)
      requires Valid() && FileChunkReadable(RxOf(Snapshot()))
      modifies this
      ensures Valid()
      ensures (dataLength, fileLength, data, RxOf(Snapshot())) == LinkCodec.ReadFileChunk(RxOf(old(Snapshot())))
      ensures Snapshot() == old(Snapshot()).(rxPointer := rxPointer)
    {
      var header := ReadDataHeader(FileChunk);
      dataLength := Signed(header[0] as u32);
      fileLength := header[1] as u32;
      data := [];
      if dataLength > 0 {
        var chunk := ReadData(dataLength);
        data := rxBuffer[chunk..chunk + dataLength];
      }
    }

    /** `ReadEvaluateExpression`: the channel and the expression that fills the rest of the packet. */
    method ReadEvaluateExpression(packetLength: nat) returns (channel: byte, expression: seq<byte>)
      requires Valid() && EvaluateExpressionReadable(RxOf(Snapshot()), packetLength)
      modifies this
      ensures Valid()
      ensures (channel, expression, RxOf(Snapshot())) == LinkCodec.ReadEvaluateExpression(RxOf(old(Snapshot())), packetLength)
      ensures Snapshot() == old(Snapshot()).(rxPointer := rxPointer)
    {
      var header := ReadDataHeader(CodeChannelHeader);
      var expressionLength := packetLength - LayoutSize(CodeChannelHeader);
      var expressionData := ReadData(expressionLength);
      expression := rxBuffer[expressionData..expressionData + expressionLength];
      channel := header[0] as byte;
    }

    /**
     * `ReadMessage` into an output buffer with room for `room` bytes: the
     * type, the text copied, and whether all of it was copied.
     */
    method ReadMessage(room: nat) returns (messageType: u32, text: seq<byte>, complete: bool)
      requires Valid() && MessageReadable(RxOf(Snapshot()), room)
      modifies this
      ensures Valid()
      ensures (messageType, text, complete, RxOf(Snapshot())) == LinkCodec.ReadMessage(RxOf(old(Snapshot())), room)
      ensures Snapshot() == old(Snapshot()).(rxPointer := rxPointer)
    {
      var header := ReadDataHeader(MessageHeader);
      messageType := header[0] as u32;
      var messageData := ReadData(header[1]);
      var copied := Min(room, header[1]);
      text := rxBuffer[messageData..messageData + copied];
      complete := copied == header[1];
    }

    // -------------------------------------------------------------------
    // The transmit cursor

    /** The `memcpy` into the transmit buffer: `bytes` from `at` on, nothing else changes. */
    method Store(at: nat, bytes: seq<byte>)
      requires at + |bytes| <= txBuffer.Length
      modifies txBuffer
      ensures txBuffer[..] == Put(old(txBuffer[..]), at, bytes)
    {
      ghost var before := txBuffer[..];
      forall i | 0 <= i < |bytes| {
        txBuffer[at + i] := bytes[i];
      }
      forall k | 0 <= k < txBuffer.Length
        ensures txBuffer[k] == Put(before, at, bytes)[k]
      {
        PutAt(before, at, bytes, k);
      }
      assert txBuffer[..] == Put(before, at, bytes);
    }

    /**
     * `WritePacketHeader`: realign the cursor, store a header stamped with
     * the packet count, count the packet; the result is where the header is.
     */
    method WritePacketHeader(request: u16, dataLength: u32, resendPacketId: u16) returns (header: nat)
      requires Valid() && AddPadding(txPointer) + PacketHeaderSize <= BufferSize
      modifies this, txBuffer
      ensures Valid() && header == AddPadding(old(txPointer))
      ensures Snapshot() == WithTx(old(Snapshot()), LinkCodec.WritePacketHeader(TxOf(old(Snapshot())), request, dataLength, resendPacketId))
    {
      txPointer := AddPadding(txPointer);
      header := txPointer;
      Store(header, EncodePacketHeader(PacketHeader(request, packetId, dataLength, resendPacketId)));
      packetId := Inc16(packetId);
      txPointer := txPointer + PacketHeaderSize;
    }

    /** `WriteData`: copy `data` to the cursor and move past it, without padding. */
    method WriteData(data: seq<byte>)
      requires Valid() && txPointer + |data| <= BufferSize
      modifies this, txBuffer
      ensures Valid()
      ensures Snapshot() == WithTx(old(Snapshot()), LinkCodec.WriteData(TxOf(old(Snapshot())), data))
    {
      Store(txPointer, data);
      txPointer := txPointer + |data|;
    }

    /** `WriteDataHeader`: reserve a fixed header of layout `ws` at the cursor; the result is where it is. */
    method WriteDataHeader(ws: seq<Width>) returns (header: nat)
      requires Valid() && txPointer + LayoutSize(ws) <= BufferSize
      modifies this
      ensures Valid() && header == old(txPointer)
      ensures Snapshot() == old(Snapshot()).(txPointer := header + LayoutSize(ws))
    {
      header := txPointer;
      txPointer := txPointer + LayoutSize(ws);
      assert rxBuffer[..] == old(rxBuffer[..]) && txBuffer[..] == old(txBuffer[..]);
    }

    /** The reserved fixed header filled in: its fields stored at the cursor, which moves past them. */
    method WriteFields(fs: seq<Field>)
      requires Valid() && txPointer + |EncodeFields(fs)| <= BufferSize
      modifies this, txBuffer
      ensures Valid()
      ensures Snapshot() == WithTx(old(Snapshot()), LinkCodec.WriteData(TxOf(old(Snapshot())), EncodeFields(fs)))
    {
      var header := WriteDataHeader(Layout(fs));
      Store(header, EncodeFields(fs));
    }

    /** Trailing bytes copied piece by piece, as the builders and the object model copy loop do. */
    method WritePieces(pieces: seq<seq<byte>>)
      requires Valid() && txPointer + |Flatten(pieces)| <= BufferSize
      modifies this, txBuffer
      ensures Valid()
      ensures var s := old(Snapshot());
        Snapshot() == s.(tx := Put(s.tx, s.txPointer, Flatten(pieces)), txPointer := s.txPointer + |Flatten(pieces)|)
    {
      ghost var s := Snapshot();
      ghost var written: seq<byte> := [];
      assert Put(s.tx, s.txPointer, []) == s.tx && written + Flatten(pieces[0..]) == Flatten(pieces);
      var i := 0;
      while i < |pieces|
        invariant 0 <= i <= |pieces| && Valid() && |s.tx| == BufferSize
        invariant written + Flatten(pieces[i..]) == Flatten(pieces)
        invariant s.txPointer + |written| + |Flatten(pieces[i..])| <= BufferSize
        invariant Snapshot() == s.(tx := Put(s.tx, s.txPointer, written), txPointer := s.txPointer + |written|)
      {
        assert pieces[i..][1..] == pieces[i + 1..];
        assert Flatten(pieces[i..]) == pieces[i] + Flatten(pieces[i + 1..]);
        AppendPiece(pieces[i], s, written);
        written := written + pieces[i];
        i := i + 1;
      }
      assert pieces[i..] == [] && written + [] == written;
    }

    /** One step of `WritePieces`: the bytes written so far, then `piece`. */
    method AppendPiece(piece: seq<byte>, ghost s: Link, ghost written: seq<byte>)
      requires Valid() && |s.tx| == BufferSize && s.txPointer + |written| + |piece| <= BufferSize
      requires Snapshot() == s.(tx := Put(s.tx, s.txPointer, written), txPointer := s.txPointer + |written|)
      modifies this, txBuffer
      ensures Valid()
      ensures Snapshot() == s.(tx := Put(s.tx, s.txPointer, written + piece), txPointer := s.txPointer + |written + piece|)
    {
      PutJoin(s.tx, s.txPointer, written, piece);
      WriteData(piece);
    }

    /**
     * The shape of every `Write*` builder: nothing unless `CanWritePacket`
     * admits the data bytes; then the packet header, the fixed header and
     * the trailing pieces.
     */
    method WritePacket(request: u16, fs: seq<Field>, pieces: seq<seq<byte>>) returns (ok: bool)
      requires Valid()
      modifies this, txBuffer
      ensures Valid()
      ensures ok == canWrite(old(txPointer), |EncodeFields(fs)| + |Flatten(pieces)|)
      ensures Snapshot() == Sent(old(Snapshot()), Build(TxOf(old(Snapshot())), canWrite, request, fs, Flatten(pieces)))
    {
      var length := |EncodeFields(fs)| + |Flatten(pieces)|;
      if !canWrite(txPointer, length) {
        return false;
      }
      assert Fits(txPointer, length);
      ghost var s := Snapshot();
      var header := WritePacketHeader(request, length, 0);
      ghost var s1 := Snapshot();
      WriteFields(fs);
      ghost var s2 := Snapshot();
      WritePieces(pieces);
      PacketStages(s, s1, s2, Snapshot(), request, EncodeFields(fs), Flatten(pieces));
      ok := true;
    }

    /**
     * `WriteObjectModel` with the check corrected to ask for the string
     * header as well as the data: nothing unless `CanWritePacket` admits
     * both, then the packet header, the string header and the chain of
     * output buffers one after the other.
     */
    method WriteObjectModel(chain: seq<seq<byte>>) returns (ok: bool)
      requires Valid()
      modifies this, txBuffer
      ensures Valid()
      ensures ok == canWrite(old(txPointer), ObjectModelNeed(Flatten(chain)))
      ensures Snapshot() == Sent(old(Snapshot()), Build(TxOf(old(Snapshot())), canWrite, ObjectModelRequest, ObjectModelFields(Flatten(chain)), Flatten(chain)))
    {
      ok := WritePacket(ObjectModelRequest, ObjectModelFields(Flatten(chain)), chain);
    }

    /** `WriteCodeBufferUpdate`: the space left in the code buffer. */
    method WriteCodeBufferUpdate(bufferSpace: u16) returns (ok: bool)
      requires Valid()
      modifies this, txBuffer
      ensures Valid()
      ensures ok == canWrite(old(txPointer), LayoutSize(CodeBufferUpdateHeader))
      ensures Snapshot() == Sent(old(Snapshot()), Build(TxOf(old(Snapshot())), canWrite, CodeBufferUpdateRequest, CodeBufferUpdateFields(bufferSpace), []))
    {
      ok := WritePacket(CodeBufferUpdateRequest, CodeBufferUpdateFields(bufferSpace), []);
    }

    /** `WriteMacroRequest`: ask for the macro file `filename` to be run on `channel`. */
    method WriteMacroRequest(channel: byte, filename: seq<byte>, fromCode: bool) returns (ok: bool)
      requires Valid()
      modifies this, txBuffer
      ensures Valid()
      ensures ok == canWrite(old(txPointer), LayoutSize(ExecuteMacroHeader) + |filename|)
      ensures Snapshot() == Sent(old(Snapshot()), Build(TxOf(old(Snapshot())), canWrite, ExecuteMacroRequest, MacroRequestFields(channel, filename, fromCode), filename))
    {
      ok := WritePacket(ExecuteMacroRequest, MacroRequestFields(channel, filename, fromCode), [filename]);
    }

    /** `WriteAbortFileRequest`: ask for the file on `channel`, or all files, to be closed. */
    method WriteAbortFileRequest(channel: byte, abortAll: bool) returns (ok: bool)
      requires Valid()
      modifies this, txBuffer
      ensures Valid()
      ensures ok == canWrite(old(txPointer), LayoutSize(AbortFileHeader))
      ensures Snapshot() == Sent(old(Snapshot()), Build(TxOf(old(Snapshot())), canWrite, AbortFileRequest, AbortFileFields(channel, abortAll), []))
    {
      ok := WritePacket(AbortFileRequest, AbortFileFields(channel, abortAll), []);
    }

    /** `WriteMacroFileClosed`: report that the macro file on `channel` was closed. */
    method WriteMacroFileClosed(channel: byte) returns (ok: bool)
      requires Valid()
      modifies this, txBuffer
      ensures Valid()
      ensures ok == canWrite(old(txPointer), LayoutSize(CodeChannelHeader))
      ensures Snapshot() == Sent(old(Snapshot()), Build(TxOf(old(Snapshot())), canWrite, MacroFileClosedRequest, CodeChannelFields(channel), []))
    {
      ok := WritePacket(MacroFileClosedRequest, CodeChannelFields(channel), []);
    }

    /** `WritePrintPaused`: report the file position and reason of a pause. */
    method WritePrintPaused(position: u32, reason: byte) returns (ok: bool)
      requires Valid()
      modifies this, txBuffer
      ensures Valid()
      ensures ok == canWrite(old(txPointer), LayoutSize(PrintPausedHeader))
      ensures Snapshot() == Sent(old(Snapshot()), Build(TxOf(old(Snapshot())), canWrite, PrintPausedRequest, PrintPausedFields(position, reason), []))
    {
      ok := WritePacket(PrintPausedRequest, PrintPausedFields(position, reason), []);
    }

    /** `WriteLocked`: report that the movement lock on `channel` was obtained. */
    method WriteLocked(channel: byte) returns (ok: bool)
      requires Valid()
      modifies this, txBuffer
      ensures Valid()
      ensures ok == canWrite(old(txPointer), LayoutSize(CodeChannelHeader))
      ensures Snapshot() == Sent(old(Snapshot()), Build(TxOf(old(Snapshot())), canWrite, LockedRequest, CodeChannelFields(channel), []))
    {
      ok := WritePacket(LockedRequest, CodeChannelFields(channel), []);
    }

    /** `WriteFileChunkRequest`: ask for up to `maxLength` bytes of `filename` from `offset` on. */
    method WriteFileChunkRequest(filename: seq<byte>, offset: u32, maxLength: u32) returns (ok: bool)
      requires Valid() && |filename| < 0x1_0000_0000
      modifies this, txBuffer
      ensures Valid()
      ensures ok == canWrite(old(txPointer), LayoutSize(FileChunkHeader) + |filename|)
      ensures Snapshot() == Sent(old(Snapshot()), Build(TxOf(old(Snapshot())), canWrite, FileChunkRequest, FileChunkFields(filename, offset, maxLength), filename))
    {
      ok := WritePacket(FileChunkRequest, FileChunkFields(filename, offset, maxLength), [filename]);
    }

    /**
     * `WriteEvaluationResult` for a value that is not a float: the
     * expression, then the text of a string value or of a value rendered as
     * text; other values travel in the fixed header alone.
     */
    method WriteEvaluationResult(expression: seq<byte>, value: Value) returns (ok: bool)
      requires Valid() && ValueOk(value) && |ValueBytes(value)| < 0x8000_0000
      modifies this, txBuffer
      ensures Valid()
      ensures ok == canWrite(old(txPointer), LayoutSize(EvaluationResultHeader) + |expression| + |ValueBytes(value)|)
      ensures Snapshot() == Sent(old(Snapshot()), Build(TxOf(old(Snapshot())), canWrite, EvaluationResultRequest,
        EvaluationFields(expression, value), expression + ValueBytes(value)))
    {
      var pieces := if value.StringValue? || value.Text? then [expression, ValueBytes(value)] else [expression];
      FlattenShort(expression, ValueBytes(value));
      ok := WritePacket(EvaluationResultRequest, EvaluationFields(expression, value), pieces);
    }

    /** `WriteEvaluationError`: the expression and the error its evaluation raised. */
    method WriteEvaluationError(expression: seq<byte>, errorMessage: seq<byte>) returns (ok: bool)
      requires Valid() && |errorMessage| < 0x8000_0000
      modifies this, txBuffer
      ensures Valid()
      ensures ok == canWrite(old(txPointer), LayoutSize(EvaluationResultHeader) + |expression| + |errorMessage|)
      ensures Snapshot() == Sent(old(Snapshot()), Build(TxOf(old(Snapshot())), canWrite, EvaluationResultRequest, EvaluationErrorFields(expression, errorMessage), expression + errorMessage))
    {
      FlattenShort(expression, errorMessage);
      ok := WritePacket(EvaluationResultRequest, EvaluationErrorFields(expression, errorMessage), [expression, errorMessage]);
    }

    /** `WriteDoCode`: ask for the code `code` to be run on `channel`. */
    method WriteDoCode(channel: byte, code: seq<byte>) returns (ok: bool)
      requires Valid()
      modifies this, txBuffer
      ensures Valid()
      ensures ok == canWrite(old(txPointer), LayoutSize(DoCodeHeader) + |code|)
      ensures Snapshot() == Sent(old(Snapshot()), Build(TxOf(old(Snapshot())), canWrite, DoCodeRequest, DoCodeFields(channel, code), code))
    {
      ok := WritePacket(DoCodeRequest, DoCodeFields(channel, code), [code]);
    }

    /** `WriteWaitForAcknowledgement`: report that `channel` waits for a message to be acknowledged. */
    method WriteWaitForAcknowledgement(channel: byte) returns (ok: bool)
      requires Valid()
      modifies this, txBuffer
      ensures Valid()
      ensures ok == canWrite(old(txPointer), LayoutSize(CodeChannelHeader))
      ensures Snapshot() == Sent(old(Snapshot()), Build(TxOf(old(Snapshot())), canWrite, WaitForAcknowledgementRequest, CodeChannelFields(channel), []))
    {
      ok := WritePacket(WaitForAcknowledgementRequest, CodeChannelFields(channel), []);
    }

    /** `WriteMessageAcknowledged`: report that the message on `channel` was acknowledged. */
    method WriteMessageAcknowledged(channel: byte) returns (ok: bool)
      requires Valid()
      modifies this, txBuffer
      ensures Valid()
      ensures ok == canWrite(old(txPointer), LayoutSize(CodeChannelHeader))
      ensures Snapshot() == Sent(old(Snapshot()), Build(TxOf(old(Snapshot())), canWrite, MessageAcknowledgedRequest, CodeChannelFields(channel), []))
    {
      ok := WritePacket(MessageAcknowledgedRequest, CodeChannelFields(channel), []);
    }

    /**
     * `WriteCodeReply`: nothing unless `CanWritePacket` admits a message
     * header and up to 16 bytes of the reply; then a message packet with as
     * much of the reply chain as the free space takes, flagged when some of
     * it is left, and the chain that is left.
     */
    method WriteCodeReply(messageType: u32, chain: seq<seq<byte>>) returns (ok: bool, rest: seq<seq<byte>>)
      requires Valid()
      modifies this, txBuffer
      ensures Valid()
      ensures ok == canWrite(old(txPointer), LayoutSize(MessageHeader) + Min(16, |Flatten(chain)|))
      ensures var s := old(Snapshot());
        CodeReply(TxOf(s), canWrite, free, messageType, chain) == if ok then Some((TxOf(Snapshot()), rest)) else None
      ensures var s := old(Snapshot()); Snapshot() == WithTx(s, TxOf(Snapshot()))
      ensures !ok ==> Snapshot() == old(Snapshot()) && rest == chain
    {
      var minBytesToWrite := Min(16, |Flatten(chain)|);
      if !canWrite(txPointer, LayoutSize(MessageHeader) + minBytesToWrite) {
        return false, chain;
      }
      ghost var s := Snapshot();
      var header, replyHeader := BeginReply(messageType);
      ghost var s1 := Snapshot();
      var bytesWritten;
      bytesWritten, rest := DrainReply(chain);
      ghost var s2 := Snapshot();
      FinishReply(header, replyHeader, messageType, bytesWritten, rest != []);
      CodeReplyStages(s, s1, s2, Snapshot(), canWrite, free, messageType, chain, header, bytesWritten, rest);
      ok := true;
    }

    /** `WriteCodeReply` up to its copy loop: the packet header, then the type and the padding of the message header. */
    method BeginReply(messageType: u32) returns (header: nat, replyHeader: nat)
      requires Valid() && Fits(txPointer, LayoutSize(MessageHeader))
      modifies this, txBuffer
      ensures Valid()
      ensures header == AddPadding(old(txPointer)) && replyHeader == header + PacketHeaderSize
      ensures var s := old(Snapshot());
        Snapshot() == s.(tx := ReplyHead(s.tx, header, s.packetId, messageType),
          txPointer := replyHeader + LayoutSize(MessageHeader), packetId := Inc16(s.packetId))
    {
      header := WritePacketHeader(MessageRequest, 0, 0);
      replyHeader := WriteDataHeader(MessageHeader);
      HeaderSizes();
      Store(replyHeader, LE32(messageType));
      Store(replyHeader + 6, LE16(0));
    }

    /** The copy loop of `WriteCodeReply`: what `Drain` copies from the cursor on, and the chain it leaves. */
    method DrainReply(chain: seq<seq<byte>>) returns (bytesWritten: nat, rest: seq<seq<byte>>)
      requires Valid()
      modifies this, txBuffer
      ensures Valid()
      ensures var s := old(Snapshot());
        var d := Drain(chain, s.txPointer, free);
        s.txPointer + |d.0| <= BufferSize && rest == d.1 && bytesWritten == |d.0| &&
        Snapshot() == s.(tx := Put(s.tx, s.txPointer, d.0), txPointer := s.txPointer + |d.0|)
    {
      ghost var s := Snapshot();
      ghost var start := txPointer;
      ghost var written: seq<byte> := [];
      DrainFits(chain, start, free);
      bytesWritten, rest := 0, chain;
      ghost var d := Drain(chain, start, free);
      assert Put(s.tx, start, []) == s.tx && written + d.0 == d.0 && start + |written| == start;
      while rest != []
        invariant Valid() && bytesWritten == |written| && txPointer == start + |written| && s.txPointer == start
        invariant |s.tx| == BufferSize && start + |written| <= BufferSize
        invariant Drained(chain, start, free, written, rest)
        invariant Snapshot() == s.(tx := Put(s.tx, start, written), txPointer := start + |written|)
        decreases |Flatten(rest)|
      {
        var bytesToCopy := Min(free(txPointer), |rest[0]|);
        if bytesToCopy == 0 {
          break;
        }
        var next := CopyPiece(rest, bytesToCopy, chain, start, s, written);
        written := written + rest[0][..bytesToCopy];
        bytesWritten := bytesWritten + bytesToCopy;
        rest := next;
      }
      DrainedWhole(chain, start, free, written, rest);
    }

    /**
     * One round of the copy loop of `WriteCodeReply`: the first `n` bytes of
     * the first buffer of `rest` copied after the bytes `written` so far, and
     * the chain with them consumed.
     */
    method CopyPiece(rest: seq<seq<byte>>, n: nat, ghost chain: seq<seq<byte>>, ghost start: nat, ghost s: Link,
        ghost written: seq<byte>) returns (next: seq<seq<byte>>)
      requires Valid() && rest != [] && 0 < n == Min(free(txPointer), |rest[0]|)
      requires txPointer == start + |written| && |s.tx| == BufferSize && start + |written| <= BufferSize
      requires Drained(chain, start, free, written, rest)
      requires Snapshot() == s.(tx := Put(s.tx, start, written), txPointer := start + |written|)
      modifies this, txBuffer
      ensures Valid() && txPointer == old(txPointer) + n && start + |written| + n <= BufferSize
      ensures next == if n == |rest[0]| then rest[1..] else [rest[0][n..]] + rest[1..]
      ensures Drained(chain, start, free, written + rest[0][..n], next) && |Flatten(next)| < |Flatten(rest)|
      ensures Snapshot() == s.(tx := Put(s.tx, start, written + rest[0][..n]), txPointer := start + |written| + n)
    {
      assert txPointer + free(txPointer) <= BufferSize;
      var piece := rest[0][..n];
      next := if n == |rest[0]| then rest[1..] else [rest[0][n..]] + rest[1..];
      DrainAccumulate(chain, start, free, written, rest, piece, next);
      FlattenTaken(rest, n);
      PutJoin(s.tx, start, written, piece);
      WriteData(piece);
    }

    /** The end of `WriteCodeReply`: the push flag when text is left, then the reply length and the packet length. */
    method FinishReply(header: nat, replyHeader: nat, messageType: u32, bytesWritten: nat, pushed: bool)
      requires Valid() && replyHeader == header + PacketHeaderSize && replyHeader + LayoutSize(MessageHeader) <= BufferSize
      requires LayoutSize(MessageHeader) + bytesWritten < 0x1_0000_0000
      modifies txBuffer
      ensures Valid()
      ensures var s := old(Snapshot()); Snapshot() == s.(tx := ReplyTail(s.tx, header, messageType, bytesWritten, pushed))
    {
      HeaderSizes();
      if pushed {
        Store(replyHeader, LE32(WithPushFlag(messageType)));
      }
      Store(replyHeader + 4, LE16(Low16(bytesWritten)));
      Store(header + 4, LE32(LayoutSize(MessageHeader) + bytesWritten));
    }
  }
}
