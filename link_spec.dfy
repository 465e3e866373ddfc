/**
 * The frame exchange state machine of the SBC link, as functions on a
 * snapshot of the `DataTransfer` object.
 *
 * The transport (DMA and SPI) is abstract: `setup_spi` is recorded as the
 * exchange the transport was last set up for, together with the toggle of
 * the transfer-ready line; the completion of an exchange is `Delivered`,
 * which writes what the peer sent into the receive area of that exchange
 * and raises `dataReceived`.  The CRC is a parameter, `millis()` is `now`
 * and `IsConnected()` is `connected`.
 */
module LinkSpec {
  import opened LinkWire

  datatype SpiState =
    ExchangingHeader | ExchangingHeaderResponse | ExchangingData | ExchangingDataResponse | ProcessingData | Resetting

  /** What the transport was last set up to exchange: the transfer headers, the response words, or the first `length` bytes of the buffers. */
  datatype Exchange = NoExchange | HeaderExchange | ResponseExchange | DataExchange(length: nat)

  /** The fields of the `DataTransfer` object, the contents of its two buffers and the two flags it shares with the interrupt handler. */
  datatype Link = Link(
    state: SpiState,
    rxHeader: TransferHeader, txHeader: TransferHeader,
    rxResponse: u32, txResponse: u32,
    rx: seq<byte>, tx: seq<byte>,
    rxPointer: nat, txPointer: nat, packetId: u16,
    failedTransfers: u32, lastTransferNumber: u16, lastTransferTime: u32,
    dataReceived: bool, transferReadyHigh: bool, exchange: Exchange)

  /** `CalcCRC32`, whose implementation is not part of this model. */
  type Crc = seq<byte> -> u32

  /** What an `IsReady` call leaves behind and what it returns. */
  datatype Outcome = Outcome(link: Link, ready: bool)

  /**
   * The invariant the machine keeps: buffers of the right size, a transmit
   * cursor inside its buffer, and a data length within the buffers whenever
   * a data phase may follow; the exchange set up matches the state, and the
   * outgoing header keeps the format code and protocol version it was
   * created with.
   */
  predicate Consistent(s: Link) {
    |s.rx| == BufferSize && |s.tx| == BufferSize && s.txPointer <= BufferSize &&
    s.txHeader.dataLength <= BufferSize &&
    s.txHeader.formatCode == LinuxFormatCode && s.txHeader.protocolVersion == LinuxProtocolVersion &&
    (s.state == ExchangingHeaderResponse && s.txResponse == Success ==> s.rxHeader.dataLength <= BufferSize) &&
    (s.state == ExchangingData || s.state == ExchangingDataResponse ==> s.rxHeader.dataLength <= BufferSize) &&
    (s.exchange == HeaderExchange ==> s.state == ExchangingHeader) &&
    (s.exchange.DataExchange? ==> s.exchange.length <= BufferSize)
  }

  /** `x + 1` on a 32-bit unsigned counter. */
  function Inc32(x: u32): u32 {
    (x + 1) % 0x1_0000_0000
  }

  /** `x + 1` on a 16-bit unsigned counter. */
  function Inc16(x: u16): u16 {
    (x + 1) % 0x1_0000
  }

  /** `millis() - since` in 32-bit unsigned arithmetic. */
  function Elapsed(now: u32, since: u32): u32 {
    (now - since) % 0x1_0000_0000
  }

  function Max(a: nat, b: nat): nat {
    if a < b then b else a
  }

  // ---------------------------------------------------------------------
  // The exchange helpers

  /** `setup_spi`: set up the transport for `e` and toggle the transfer-ready line. */
  function SetupSpi(s: Link, e: Exchange): Link {
    s.(exchange := e, transferReadyHigh := !s.transferReadyHigh)
  }

  /** `ExchangeHeader`. */
  function ExchangeHeader(s: Link): Link {
    SetupSpi(s.(state := ExchangingHeader), HeaderExchange)
  }

  /** `ExchangeResponse`: send `response`; the state after the header phase or after the data phase. */
  function ExchangeResponse(s: Link, response: u32): Link {
    var next := if s.state == ExchangingHeader then ExchangingHeaderResponse else ExchangingDataResponse;
    SetupSpi(s.(txResponse := response, state := next), ResponseExchange)
  }

  /** `ExchangeData`: exchange as many bytes as the longer of the two payloads. */
  function ExchangeData(s: Link): Link {
    SetupSpi(s.(state := ExchangingData), DataExchange(Max(s.rxHeader.dataLength, s.txHeader.dataLength)))
  }

  /**
   * `ResetTransfer`: count a failed transfer; on our own request send the
   * sentinel and wait in `Resetting`, on the peer's start a header exchange.
   */
  function ResetTransfer(s: Link, ownRequest: bool): Link {
    var s1 := s.(failedTransfers := Inc32(s.failedTransfers));
    if ownRequest then SetupSpi(s1.(txResponse := BadResponse), ResponseExchange).(state := Resetting)
    else ExchangeHeader(s1)
  }

  /** The end of a successful cycle: both cursors and the packet count restart, the payload is handed over. */
  function CycleDone(s: Link): Link {
    s.(rxPointer := 0, txPointer := 0, packetId := 0, state := ProcessingData)
  }

  // ---------------------------------------------------------------------
  // The four phases

  /** The response to a received transfer header: the first check that fails decides it. */
  function HeaderVerdict(h: TransferHeader, crc: Crc): u32 {
    if h.crcHeader != crc(HeaderCrcInput(h)) then BadHeaderChecksum
    else if h.formatCode != LinuxFormatCode then BadFormat
    else if h.protocolVersion != LinuxProtocolVersion then BadProtocolVersion
    else if h.dataLength > BufferSize then BadDataLength
    else Success
  }

  /**
   * (1) Headers exchanged.  The first word of the received header is its
   * format code; the sentinel there is the peer asking for a restart.
   */
  function HeaderReceived(s: Link, crc: Crc): Link {
    if s.rxHeader.formatCode == BadResponse then ResetTransfer(s, false)
    else ExchangeResponse(s, HeaderVerdict(s.rxHeader, crc))
  }

  /** (2) Responses to the headers exchanged. */
  function HeaderResponseReceived(s: Link): Outcome
    requires Consistent(s)
  {
    if s.rxResponse == Success && s.txResponse == Success then
      if s.rxHeader.dataLength != 0 || s.txHeader.dataLength != 0 then Outcome(ExchangeData(s), false)
      else Outcome(CycleDone(s), true)
    else if s.rxResponse == BadResponse then Outcome(ResetTransfer(s, false), false)
    else if s.rxResponse == BadHeaderChecksum || s.txResponse == BadHeaderChecksum then Outcome(ExchangeHeader(s), false)
    else Outcome(ResetTransfer(s, true), false)
  }

  /** The response to a received payload of `dataLength` bytes. */
  function DataVerdict(rx: seq<byte>, h: TransferHeader, crc: Crc): u32
    requires h.dataLength <= |rx|
  {
    if h.crcData != crc(rx[..h.dataLength]) then BadDataChecksum else Success
  }

  /** (3) Payloads exchanged.  The sentinel in the first payload word restarts without counting a failure. */
  function DataReceived(s: Link, crc: Crc): Link
    requires Consistent(s) && s.state == ExchangingData
  {
    if U32At(s.rx, 0) == BadResponse then ExchangeHeader(s)
    else ExchangeResponse(s, DataVerdict(s.rx, s.rxHeader, crc))
  }

  /** (4) Responses to the payloads exchanged. */
  function DataResponseReceived(s: Link): Outcome
    requires Consistent(s) && s.state == ExchangingDataResponse
  {
    if s.rxResponse == Success && s.txResponse == Success then Outcome(CycleDone(s), true)
    else if s.rxResponse == BadResponse then Outcome(ResetTransfer(s, false), false)
    else if s.rxResponse == BadDataChecksum || s.txResponse == BadDataChecksum then Outcome(ExchangeData(s), false)
    else Outcome(ResetTransfer(s, true), false)
  }

  /** A completed exchange, by state; `ProcessingData` (no transfer started) falls back to a header exchange. */
  function Completion(s: Link, crc: Crc): Outcome
    requires Consistent(s)
  {
    match s.state
    case ExchangingHeader => Outcome(HeaderReceived(s, crc), false)
    case ExchangingHeaderResponse => HeaderResponseReceived(s)
    case ExchangingData => Outcome(DataReceived(s, crc), false)
    case ExchangingDataResponse => DataResponseReceived(s)
    case Resetting => Outcome(ExchangeHeader(s), false)
    case ProcessingData => Outcome(ExchangeHeader(s), false)
  }

  // ---------------------------------------------------------------------
  // Sealing a cycle and polling

  /**
   * `StartNextTransfer`: remember the peer's sequence number, clear the
   * received header, seal the outgoing header over the staged payload and
   * start the header exchange.
   */
  function StartNextTransfer(s: Link, crc: Crc): Link
    requires s.txPointer <= |s.tx| && s.txPointer < 0x1_0000_0000
  {
    var rxh := s.rxHeader.(formatCode := InvalidFormatCode, numPackets := 0, protocolVersion := 0,
      dataLength := 0, crcData := 0, crcHeader := 0);
    var txh := s.txHeader.(numPackets := s.packetId, sequenceNumber := Inc16(s.txHeader.sequenceNumber),
      dataLength := s.txPointer, crcData := crc(s.tx[..s.txPointer]));
    var sealed := txh.(crcHeader := crc(HeaderCrcInput(txh)));
    ExchangeHeader(s.(lastTransferNumber := s.rxHeader.sequenceNumber, rxHeader := rxh, txHeader := sealed))
  }

  /** The peer is judged gone: both sequence numbers and the staged payload are dropped. */
  function Disconnected(s: Link, now: u32): Link {
    s.(lastTransferNumber := 0, rxHeader := s.rxHeader.(sequenceNumber := 0), txHeader := s.txHeader.(sequenceNumber := 0),
      txPointer := 0, lastTransferTime := now, transferReadyHigh := false)
  }

  /** The phase timeout: no completion within `SpiTransferTimeout` outside the header phase. */
  predicate PhaseTimedOut(s: Link, now: u32) {
    s.state != ExchangingHeader && Elapsed(now, s.lastTransferTime) > SpiTransferTimeout
  }

  /** The connection timeout: the peer is not connected and a cycle was seen, or none for twice `SpiConnectionTimeout`. */
  predicate ConnectionLost(s: Link, now: u32, connected: bool) {
    !connected && (s.lastTransferNumber != 0 || Elapsed(now, s.lastTransferTime) > SpiConnectionTimeout * 2)
  }

  /** `IsReady`: one poll of the machine. */
  function Ready(s: Link, crc: Crc, now: u32, connected: bool): Outcome
    requires Consistent(s)
  {
    if s.dataReceived then Completion(s.(dataReceived := false, lastTransferTime := now), crc)
    else if PhaseTimedOut(s, now) then Outcome(ExchangeHeader(s.(transferReadyHigh := false)), false)
    else if ConnectionLost(s, now, connected) then Outcome(StartNextTransfer(Disconnected(s, now), crc), false)
    else Outcome(s, false)
  }

  /** What the transport leaves behind when the exchange it was set up for completes with the peer's bytes `peer`. */
  function Delivered(s: Link, peer: seq<byte>): Link
    requires Consistent(s) && s.exchange != NoExchange
    requires |peer| == ExchangeLength(s.exchange)
  {
    match s.exchange
    case HeaderExchange => s.(rxHeader := DecodeHeader(peer), dataReceived := true)
    case ResponseExchange => s.(rxResponse := U32At(peer, 0), dataReceived := true)
    case DataExchange(n) => s.(rx := peer + s.rx[n..], dataReceived := true)
  }

  /** The number of bytes an exchange moves in each direction. */
  function ExchangeLength(e: Exchange): nat {
    match e
    case NoExchange => 0
    case HeaderExchange => TransferHeaderSize
    case ResponseExchange => ResponseSize
    case DataExchange(n) => n
  }
}
