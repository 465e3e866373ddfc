/**
 * Properties of the frame exchange state machine: what each phase does on
 * completion, when a cycle is declared complete, the resynchronisation
 * sentinel, the two timeouts, the sealing of an outgoing cycle, and the
 * invariant the machine keeps.
 */
module LinkProperties {
  import opened LinkWire
  import opened LinkSpec

  // ---------------------------------------------------------------------
  // The invariant

  /** Every poll keeps the invariant. */
  lemma ReadyKeepsConsistent(s: Link, crc: Crc, now: u32, connected: bool)
    requires Consistent(s)
    ensures Consistent(Ready(s, crc, now, connected).link)
  {
    if s.dataReceived {
      CompletionKeepsConsistent(s.(dataReceived := false, lastTransferTime := now), crc);
    } else if !PhaseTimedOut(s, now) && ConnectionLost(s, now, connected) {
      StartNextTransferKeepsConsistent(Disconnected(s, now), crc);
    }
  }

  /** Each phase keeps the invariant when its exchange completes. */
  lemma CompletionKeepsConsistent(s: Link, crc: Crc)
    requires Consistent(s)
    ensures Consistent(Completion(s, crc).link)
  {
    match s.state
    case ExchangingHeader => HeaderReceivedKeepsConsistent(s, crc);
    case ExchangingHeaderResponse => HeaderResponseKeepsConsistent(s);
    case ExchangingData => DataReceivedKeepsConsistent(s, crc);
    case ExchangingDataResponse => DataResponseKeepsConsistent(s);
    case Resetting =>
    case ProcessingData =>
  }

  lemma HeaderReceivedKeepsConsistent(s: Link, crc: Crc)
    requires Consistent(s) && s.state == ExchangingHeader
    ensures Consistent(HeaderReceived(s, crc))
  {
  }

  lemma HeaderResponseKeepsConsistent(s: Link)
    requires Consistent(s) && s.state == ExchangingHeaderResponse
    ensures Consistent(HeaderResponseReceived(s).link)
  {
  }

  lemma DataReceivedKeepsConsistent(s: Link, crc: Crc)
    requires Consistent(s) && s.state == ExchangingData
    ensures Consistent(DataReceived(s, crc))
  {
  }

  lemma DataResponseKeepsConsistent(s: Link)
    requires Consistent(s) && s.state == ExchangingDataResponse
    ensures Consistent(DataResponseReceived(s).link)
  {
  }

  /** Sealing a cycle keeps the invariant. */
  lemma StartNextTransferKeepsConsistent(s: Link, crc: Crc)
    requires Consistent(s)
    ensures Consistent(StartNextTransfer(s, crc))
  {
  }

  /** The completion of an exchange keeps the invariant. */
  lemma DeliveredKeepsConsistent(s: Link, peer: seq<byte>)
    requires Consistent(s) && s.exchange != NoExchange && |peer| == ExchangeLength(s.exchange)
    ensures Consistent(Delivered(s, peer))
  {
  }

  // ---------------------------------------------------------------------
  // (1) The header phase

  /**
   * The checks on a received header run in a fixed order and the first
   * that fails decides the response: the checksum over all but the last
   * word, then the format code, the protocol version and the data length.
   */
  lemma HeaderChecksInOrder(h: TransferHeader, crc: Crc)
    ensures var v := HeaderVerdict(h, crc);
      var crcOk := h.crcHeader == crc(HeaderCrcInput(h));
      var formatOk := h.formatCode == LinuxFormatCode;
      var versionOk := h.protocolVersion == LinuxProtocolVersion;
      var lengthOk := h.dataLength <= BufferSize;
      (v == BadHeaderChecksum <==> !crcOk) &&
      (v == BadFormat <==> crcOk && !formatOk) &&
      (v == BadProtocolVersion <==> crcOk && formatOk && !versionOk) &&
      (v == BadDataLength <==> crcOk && formatOk && versionOk && !lengthOk) &&
      (v == Success <==> crcOk && formatOk && versionOk && lengthOk)
  {
  }

  /**
   * A completed header exchange without the sentinel sends the verdict on
   * the received header and moves to the header-response phase; no failure
   * is counted.
   */
  lemma HeaderPhase(s: Link, crc: Crc, now: u32, connected: bool)
    requires Consistent(s) && s.dataReceived && s.state == ExchangingHeader
    requires s.rxHeader.formatCode != BadResponse
    ensures var o := Ready(s, crc, now, connected);
      !o.ready && o.link.state == ExchangingHeaderResponse &&
      o.link.txResponse == HeaderVerdict(s.rxHeader, crc) && o.link.exchange == ResponseExchange &&
      o.link.failedTransfers == s.failedTransfers && o.link.lastTransferTime == now && !o.link.dataReceived
  {
  }

  /**
   * The sentinel as the first word of the received header is the peer
   * asking for a restart: exactly one failure is counted, no response is
   * sent and the headers are exchanged again.
   */
  lemma HeaderSentinel(s: Link, crc: Crc, now: u32, connected: bool)
    requires Consistent(s) && s.dataReceived && s.state == ExchangingHeader
    requires U32At(EncodeHeader(s.rxHeader), 0) == BadResponse
    ensures var o := Ready(s, crc, now, connected);
      !o.ready && o.link.state == ExchangingHeader && o.link.exchange == HeaderExchange &&
      o.link.failedTransfers == Inc32(s.failedTransfers) && o.link.txResponse == s.txResponse
  {
    FirstWordIsFormatCode(s.rxHeader);
  }

  // ---------------------------------------------------------------------
  // (2) The header-response phase

  /** The five outcomes of the header-response phase. */
  lemma HeaderResponsePhase(s: Link, crc: Crc, now: u32, connected: bool)
    requires Consistent(s) && s.dataReceived && s.state == ExchangingHeaderResponse
    ensures var o := Ready(s, crc, now, connected);
      var both := s.rxResponse == Success && s.txResponse == Success;
      var empty := s.rxHeader.dataLength == 0 && s.txHeader.dataLength == 0;
      (both && empty ==>
        o.ready && o.link.state == ProcessingData && o.link.rxPointer == 0 && o.link.txPointer == 0 && o.link.packetId == 0) &&
      (both && !empty ==>
        !o.ready && o.link.state == ExchangingData &&
        o.link.exchange == DataExchange(Max(s.rxHeader.dataLength, s.txHeader.dataLength))) &&
      (!both && s.rxResponse == BadResponse ==>
        !o.ready && o.link.state == ExchangingHeader && o.link.failedTransfers == Inc32(s.failedTransfers)) &&
      (!both && s.rxResponse != BadResponse && (s.rxResponse == BadHeaderChecksum || s.txResponse == BadHeaderChecksum) ==>
        !o.ready && o.link.state == ExchangingHeader && o.link.exchange == HeaderExchange &&
        o.link.failedTransfers == s.failedTransfers) &&
      (!both && s.rxResponse != BadResponse && s.rxResponse != BadHeaderChecksum && s.txResponse != BadHeaderChecksum ==>
        !o.ready && o.link.state == Resetting && o.link.txResponse == BadResponse &&
        o.link.exchange == ResponseExchange && o.link.failedTransfers == Inc32(s.failedTransfers))
  {
  }

  // ---------------------------------------------------------------------
  // (3) and (4) The data phases

  /**
   * A completed payload exchange without the sentinel answers
   * `BadDataChecksum` exactly when the checksum over `dataLength` received
   * bytes differs from the header's, and moves to the data-response phase.
   */
  lemma DataPhase(s: Link, crc: Crc, now: u32, connected: bool)
    requires Consistent(s) && s.dataReceived && s.state == ExchangingData
    requires U32At(s.rx, 0) != BadResponse
    ensures var o := Ready(s, crc, now, connected);
      !o.ready && o.link.state == ExchangingDataResponse && o.link.exchange == ResponseExchange &&
      (o.link.txResponse == BadDataChecksum <==> s.rxHeader.crcData != crc(s.rx[..s.rxHeader.dataLength])) &&
      (o.link.txResponse == Success <==> s.rxHeader.crcData == crc(s.rx[..s.rxHeader.dataLength])) &&
      o.link.failedTransfers == s.failedTransfers
  {
  }

  /** The sentinel as the first payload word restarts at the header phase without counting a failure. */
  lemma DataSentinel(s: Link, crc: Crc, now: u32, connected: bool)
    requires Consistent(s) && s.dataReceived && s.state == ExchangingData
    requires U32At(s.rx, 0) == BadResponse
    ensures var o := Ready(s, crc, now, connected);
      !o.ready && o.link.state == ExchangingHeader && o.link.exchange == HeaderExchange &&
      o.link.failedTransfers == s.failedTransfers
  {
  }

  /**
   * The four outcomes of the data-response phase; a checksum failure on
   * either side exchanges the same payloads again under the same headers.
   */
  lemma DataResponsePhase(s: Link, crc: Crc, now: u32, connected: bool)
    requires Consistent(s) && s.dataReceived && s.state == ExchangingDataResponse
    ensures var o := Ready(s, crc, now, connected);
      var both := s.rxResponse == Success && s.txResponse == Success;
      (both ==>
        o.ready && o.link.state == ProcessingData && o.link.rxPointer == 0 && o.link.txPointer == 0 && o.link.packetId == 0) &&
      (!both && s.rxResponse == BadResponse ==>
        !o.ready && o.link.state == ExchangingHeader && o.link.failedTransfers == Inc32(s.failedTransfers)) &&
      (!both && s.rxResponse != BadResponse && (s.rxResponse == BadDataChecksum || s.txResponse == BadDataChecksum) ==>
        !o.ready && o.link.state == ExchangingData &&
        o.link.exchange == DataExchange(Max(s.rxHeader.dataLength, s.txHeader.dataLength)) &&
        o.link.rx == s.rx && o.link.tx == s.tx && o.link.rxHeader == s.rxHeader && o.link.txHeader == s.txHeader &&
        o.link.failedTransfers == s.failedTransfers) &&
      (!both && s.rxResponse != BadResponse && s.rxResponse != BadDataChecksum && s.txResponse != BadDataChecksum ==>
        !o.ready && o.link.state == Resetting && o.link.txResponse == BadResponse &&
        o.link.failedTransfers == Inc32(s.failedTransfers))
  {
  }

  // ---------------------------------------------------------------------
  // Completion of a cycle

  /**
   * `IsReady` returns true exactly when a completed response exchange
   * shows `Success` on both sides and no payload, or no further payload,
   * is to be exchanged; the cycle then ends in `ProcessingData` with both
   * cursors and the packet count at 0.
   */
  lemma ReadyExactlyOnSuccess(s: Link, crc: Crc, now: u32, connected: bool)
    requires Consistent(s)
    ensures var o := Ready(s, crc, now, connected);
      var both := s.rxResponse == Success && s.txResponse == Success;
      var cycleEnds := s.state == ExchangingDataResponse ||
        (s.state == ExchangingHeaderResponse && s.rxHeader.dataLength == 0 && s.txHeader.dataLength == 0);
      o.ready <==> (s.dataReceived && both && cycleEnds)
    ensures var o := Ready(s, crc, now, connected);
      o.ready ==> o.link.state == ProcessingData && o.link.rxPointer == 0 && o.link.txPointer == 0 && o.link.packetId == 0
  {
  }

  /** A completion in `Resetting`, or in a state without a transfer in flight, restarts at the header phase. */
  lemma FallbackStates(s: Link, crc: Crc, now: u32, connected: bool)
    requires Consistent(s) && s.dataReceived
    requires s.state == Resetting || s.state == ProcessingData
    ensures var o := Ready(s, crc, now, connected);
      !o.ready && o.link.state == ExchangingHeader && o.link.exchange == HeaderExchange &&
      o.link.failedTransfers == s.failedTransfers
  {
  }

  /** The word a state looks at first when its exchange completes holds the sentinel. */
  predicate SentinelSeen(s: Link)
    requires Consistent(s)
  {
    match s.state
    case ExchangingHeader => s.rxHeader.formatCode == BadResponse
    case ExchangingHeaderResponse => s.rxResponse == BadResponse
    case ExchangingData => U32At(s.rx, 0) == BadResponse
    case ExchangingDataResponse => s.rxResponse == BadResponse
    case Resetting => true
    case ProcessingData => true
  }

  /** The sentinel from the peer returns the machine to the header phase from every state, in one step. */
  lemma SentinelResynchronises(s: Link, crc: Crc, now: u32, connected: bool)
    requires Consistent(s) && s.dataReceived && SentinelSeen(s)
    ensures var o := Ready(s, crc, now, connected);
      !o.ready && o.link.state == ExchangingHeader && o.link.exchange == HeaderExchange
  {
  }

  // ---------------------------------------------------------------------
  // Timeouts

  /**
   * The phase timeout restarts the header exchange.  The transfer-ready
   * line is first forced low and then toggled by the new exchange, so it
   * ends high; no failure is counted.
   */
  lemma PhaseTimeout(s: Link, crc: Crc, now: u32, connected: bool)
    requires Consistent(s) && !s.dataReceived && PhaseTimedOut(s, now)
    ensures var o := Ready(s, crc, now, connected);
      !o.ready && o.link.state == ExchangingHeader && o.link.exchange == HeaderExchange &&
      o.link.transferReadyHigh && o.link.failedTransfers == s.failedTransfers &&
      o.link.rxHeader == s.rxHeader && o.link.txHeader == s.txHeader
  {
  }

  /**
   * When the peer is judged gone, the sequence numbers and the staged
   * payload are dropped and an empty cycle with sequence number 1 is
   * started.
   */
  lemma ConnectionTimeout(s: Link, crc: Crc, now: u32, connected: bool)
    requires Consistent(s) && !s.dataReceived && !PhaseTimedOut(s, now) && ConnectionLost(s, now, connected)
    ensures var o := Ready(s, crc, now, connected);
      !o.ready && o.link.state == ExchangingHeader && o.link.exchange == HeaderExchange &&
      o.link.lastTransferNumber == 0 && o.link.rxHeader.sequenceNumber == 0 &&
      o.link.txHeader.sequenceNumber == 1 && o.link.txPointer == 0 && o.link.txHeader.dataLength == 0 &&
      o.link.txHeader.crcData == crc([]) && o.link.lastTransferTime == now && o.link.transferReadyHigh
  {
    assert s.tx[..0] == [];
  }

  /** A poll with nothing completed and no timeout changes nothing. */
  lemma QuietPoll(s: Link, crc: Crc, now: u32, connected: bool)
    requires Consistent(s) && !s.dataReceived && !PhaseTimedOut(s, now) && !ConnectionLost(s, now, connected)
    ensures Ready(s, crc, now, connected) == Outcome(s, false)
  {
  }

  // ---------------------------------------------------------------------
  // Sealing a cycle

  /**
   * `StartNextTransfer` remembers the peer's sequence number, clears the
   * received header, and seals the outgoing header: the packet count, the
   * next sequence number, the staged length, the checksum of the staged
   * bytes, and a header checksum that covers the final header.
   */
  lemma StartNextTransferSeals(s: Link, crc: Crc)
    requires Consistent(s)
    ensures var t := StartNextTransfer(s, crc);
      t.lastTransferNumber == s.rxHeader.sequenceNumber &&
      t.rxHeader == s.rxHeader.(formatCode := InvalidFormatCode, numPackets := 0, protocolVersion := 0,
        dataLength := 0, crcData := 0, crcHeader := 0) &&
      t.txHeader.numPackets == s.packetId && t.txHeader.sequenceNumber == Inc16(s.txHeader.sequenceNumber) &&
      t.txHeader.dataLength == s.txPointer && t.txHeader.crcData == crc(s.tx[..s.txPointer]) &&
      t.txHeader.crcHeader == crc(HeaderCrcInput(t.txHeader)) &&
      t.state == ExchangingHeader && t.exchange == HeaderExchange
  {
    var t := StartNextTransfer(s, crc);
    var txh := s.txHeader.(numPackets := s.packetId, sequenceNumber := Inc16(s.txHeader.sequenceNumber),
      dataLength := s.txPointer, crcData := crc(s.tx[..s.txPointer]));
    CrcInputIgnoresCrcHeader(txh, crc(HeaderCrcInput(txh)));
  }

  /**
   * A peer that runs the same checks with the same checksum accepts the
   * header `StartNextTransfer` sends: its first word is not the sentinel
   * and its verdict is `Success`.
   */
  lemma SealedHeaderAccepted(s: Link, crc: Crc)
    requires Consistent(s)
    ensures var h := DecodeHeader(EncodeHeader(StartNextTransfer(s, crc).txHeader));
      h.formatCode != BadResponse && HeaderVerdict(h, crc) == Success
  {
    var t := StartNextTransfer(s, crc);
    StartNextTransferSeals(s, crc);
    HeaderRoundTrip(t.txHeader);
  }
}
