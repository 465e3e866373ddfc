# RepRapFirmware: the SBC data link and the STM32 board configuration, in Dafny

This project models two parts of RepRapFirmware and proves properties of them.

**The SBC link.** `DataTransfer` is the firmware's end of the SPI link to a
single-board computer. Each transfer cycle has four phases:

1. the 24-byte transfer headers are exchanged;
2. the responses to the headers are exchanged;
3. up to 8192 bytes of payload are exchanged;
4. the responses to the payloads are exchanged.

`IsReady` is polled. It advances the cycle when an exchange completes, and it
handles the sentinel word the peer sends to ask for a restart, the phase
timeout and the loss of the connection. `StartNextTransfer` seals the outgoing
header over the packets that were staged.

Packets are appended to the transmit buffer at `txPointer`. Each one is a
packet header realigned to 4 bytes, then a fixed header, then trailing bytes.
The readers walk the received packets with `rxPointer`.

The model has these parts:

- `LinkTransfer.DataTransfer` is the object itself, a class. It holds the
  fields, the two buffers as arrays, and one method per operation.
- Each method is proved to leave behind the state that a function of
  `LinkSpec` (the state machine) or `LinkCodec` (the packet codec) describes.
  Those functions work on a value snapshot of the object.
- `LinkProperties`, `PacketProperties` and `RequestProperties` prove what the
  firmware promises about those functions:
  - every phase's outcomes, and exactly when `IsReady` returns true;
  - that the machine keeps its invariant;
  - that a written packet can be read back;
  - that packets stay aligned and never overrun the buffer;
  - that the copy loop of a code reply neither loses nor duplicates text.

**The board configuration.** `BoardConfig` reads `board.txt` line by line.
Each line is `key = value` or `key = { v1, v2, ... }`. The value is stored
into the configuration variable whose key matches, ignoring case. Pins are
named like `PA_5`, `pb.12` or `C3`, or by the board's pin-name table.
`crc32` computes a CRC-32 with a reflected table.

The model has these parts:

- `BoardConfiguration.BoardConfig` is a class. It holds the variables and
  works in place on the 120-byte line buffer, as an array.
- `ConfigReader` holds the file as a class and `ReadLine` as a method.
- `Crc32` holds the two CRC loops as methods.
- Each method is proved equal to a function of `ConfigParser`, `ConfigValues`
  or `Pins`.
- The line parser of `BoardConfig` (`ProcessLine`, `ProcessKey` and
  `GetConfigKeys`) and the function `ConfigParser.LineEffect` behind it are
  the CORRECTED parser of the second finding below: after the key, they look
  for separators and a value only within the line. The parser as written,
  which looks up to the end of the buffer, is
  `ConfigParser.LineEffectAsWritten`. `ConfigProperties.AsWrittenAgreesOnCleanTail` shows the
  two agree whenever the buffer past the line holds only NULs.
- `ConfigProperties` and `ArrayLines` prove what a line of each shape sets.

A value text is converted to a `uint8_t` or `uint16_t` variable by
assignment. The clamps written after that assignment compare a narrowed value
and can never fire, so the model truncates: "300" stored in a `uint8_t` is 44.

Fixed-width integers are written out. Counters, the packet id and the sequence
numbers wrap, 16-bit lengths keep their low bits, and signed words are read
as two's complement. `millis()` is the `now` parameter of `IsReady`, and
`IsConnected()` is its `connected` parameter.

Four routines are parameters of the object and are not given a body:
`CalcCRC32`, `CanWritePacket`, `FreeTxSpace` and `LookupPinName`.
- `CanWritePacket` is assumed sound: whatever it admits fits in the buffer
  with its padding and packet header.
- `FreeTxSpace` is assumed never to reach past the end of the buffer.
- `LookupPinName` is a finite map from names to pins.

## Model

| member | source | states |
|---|---|---|
| LinkTransfer.DataTransfer.constructor | src/Linux/DataTransfer.cpp:407-425 | starts in `ExchangingData` with zero counters, cursors, timestamps and sequence numbers, both responses `Success`, and the outgoing header stamped with the format code and protocol version |
| LinkTransfer.DataTransfer.SetupSpi | src/Linux/DataTransfer.cpp:279-331 | the transport is set up for the given exchange and the transfer-ready line is toggled |
| LinkTransfer.DataTransfer.ExchangeHeader | src/Linux/DataTransfer.cpp:696-700 | the state becomes `ExchangingHeader` and the 24-byte headers are exchanged |
| LinkTransfer.DataTransfer.ExchangeResponse | src/Linux/DataTransfer.cpp:702-707 | the response is recorded, the state moves to the matching response phase and the response words are exchanged |
| LinkTransfer.DataTransfer.ExchangeData | src/Linux/DataTransfer.cpp:709-714 | the state becomes `ExchangingData` and as many bytes as the longer payload are exchanged |
| LinkTransfer.DataTransfer.ResetTransfer | src/Linux/DataTransfer.cpp:716-736 | one failure is counted; on its own request the link sends `BadResponse` and moves to `Resetting`, otherwise it exchanges headers again |
| LinkTransfer.DataTransfer.HeaderReceived | src/Linux/DataTransfer.cpp:773-820 | phase (1) ends as `LinkSpec.HeaderReceived` describes: the sentinel resets, otherwise the verdict on the header is sent |
| LinkTransfer.DataTransfer.HeaderResponseReceived | src/Linux/DataTransfer.cpp:822-860 | phase (2) ends, and returns true, as `LinkSpec.HeaderResponseReceived` describes |
| LinkTransfer.DataTransfer.DataReceived | src/Linux/DataTransfer.cpp:862-894 | phase (3) ends as `LinkSpec.DataReceived` describes: the sentinel restarts, otherwise the payload verdict is sent |
| LinkTransfer.DataTransfer.DataResponseReceived | src/Linux/DataTransfer.cpp:896-927 | phase (4) ends, and returns true, as `LinkSpec.DataResponseReceived` describes |
| LinkTransfer.DataTransfer.Completion | src/Linux/DataTransfer.cpp:767-940 | the completion switch by state, including the fallback of `Resetting` and `ProcessingData` to a header exchange |
| LinkTransfer.DataTransfer.IsReady | src/Linux/DataTransfer.cpp:738-971 | one poll leaves the object in the state `LinkSpec.Ready` computes and returns its answer, which the `LinkProperties` lemmas characterise |
| LinkTransfer.DataTransfer.Disconnect | src/Linux/DataTransfer.cpp:950-969 | on connection loss both sequence numbers and the staged payload are dropped and a new cycle is started |
| LinkTransfer.DataTransfer.ForgetSequence | src/Linux/DataTransfer.cpp:957-958 | the last transfer number and the incoming sequence number become 0, nothing else changes |
| LinkTransfer.DataTransfer.DropStaged | src/Linux/DataTransfer.cpp:959-960 | the outgoing sequence number and `txPointer` become 0, nothing else changes |
| LinkTransfer.DataTransfer.StartNextTransfer | src/Linux/DataTransfer.cpp:973-994 | the object becomes `LinkSpec.StartNextTransfer` of its old state (see `StartNextTransferSeals`) |
| LinkTransfer.DataTransfer.RetireIncoming | src/Linux/DataTransfer.cpp:975-983 | the peer's sequence number is remembered and every other incoming header field is invalidated |
| LinkTransfer.DataTransfer.SealOutgoing | src/Linux/DataTransfer.cpp:985-990 | the outgoing header gets the packet count, the next sequence number, the staged length, the payload checksum, and a header checksum over the final header |
| LinkTransfer.DataTransfer.Deliver | src/Linux/DataTransfer.cpp:350-389 | the end of an exchange: the peer's bytes land in the receive area of that exchange and `dataReceived` is raised |
| LinkTransfer.DataTransfer.ReadPacket | src/Linux/DataTransfer.cpp:518-528 | none exactly when the cursor has reached the announced length; otherwise the header there, with the cursor past it; nothing else changes |
| LinkTransfer.DataTransfer.ReadData | src/Linux/DataTransfer.cpp:530-535 | the data starts at the old cursor; the cursor moves over the data and its padding |
| LinkTransfer.DataTransfer.ReadDataHeader | src/Linux/DataTransfer.cpp:537-542 | the field values of the fixed header at the cursor, with the cursor past it |
| LinkTransfer.DataTransfer.ReadGetObjectModel | src/Linux/DataTransfer.cpp:544-556 | the key and flags as `LinkCodec.ReadGetObjectModel` reads them (see `GetObjectModelReadsBack`) |
| LinkTransfer.DataTransfer.ReadPrintStoppedInfo | src/Linux/DataTransfer.cpp:587-591 | the reason is the value of the print-stopped header |
| LinkTransfer.DataTransfer.ReadMacroCompleteInfo | src/Linux/DataTransfer.cpp:593-598 | the channel, and an error flag that is true exactly when the error field is non-zero |
| LinkTransfer.DataTransfer.ReadCodeChannel | src/Linux/DataTransfer.cpp:641-645 | the channel field of the code-channel header |
| LinkTransfer.DataTransfer.ReadAssignFilament | src/Linux/DataTransfer.cpp:647-656 | the signed extruder number and the filament name (see `AssignFilamentReadsBack`) |
| LinkTransfer.DataTransfer.ReadFileChunk | src/Linux/DataTransfer.cpp:658-670 | the signed chunk length, the file length, and data only when the length is positive (see `FileChunkReadsBack`) |
| LinkTransfer.DataTransfer.ReadEvaluateExpression | src/Linux/DataTransfer.cpp:672-683 | the channel and the expression that fills the rest of the packet |
| LinkTransfer.DataTransfer.ReadMessage | src/Linux/DataTransfer.cpp:685-694 | the message type, as much text as the output buffer holds, and whether all of it was copied (see `MessageReadsBack`) |
| LinkTransfer.DataTransfer.WritePacketHeader | src/Linux/DataTransfer.cpp:1415-1428 | realigns the cursor, stores the header with the current packet id, and counts the packet (see `WritePacketHeaderStamps`) |
| LinkTransfer.DataTransfer.WriteData | src/Linux/DataTransfer.cpp:1430-1435 | copies the bytes to the cursor and moves past them without padding (see `WriteDataCopies`) |
| LinkTransfer.DataTransfer.WriteDataHeader | src/Linux/DataTransfer.cpp:1437-1442 | reserves the fixed header at the cursor: only `txPointer` moves |
| LinkTransfer.DataTransfer.WritePieces | src/Linux/DataTransfer.cpp:1013-1017 | the trailing pieces, one after the other, are stored from the cursor on and the cursor moves past them all |
| LinkTransfer.DataTransfer.WritePacket | src/Linux/DataTransfer.cpp:1021-1036 | the common shape of the builders: false and no change exactly when `CanWritePacket` refuses the data bytes, else the packet `LinkCodec.Build` describes |
| LinkTransfer.DataTransfer.WriteObjectModel | src/Linux/DataTransfer.cpp:996-1019 | corrected check (see Findings): false exactly when the string header plus the data are refused, else the object-model packet carrying the whole chain |
| LinkTransfer.DataTransfer.WriteCodeBufferUpdate | src/Linux/DataTransfer.cpp:1021-1036 | a code-buffer-update packet carrying the buffer space, or false and no change |
| LinkTransfer.DataTransfer.WriteMacroRequest | src/Linux/DataTransfer.cpp:1093-1114 | a macro request with channel, `fromCode` flag and file name, or false and no change |
| LinkTransfer.DataTransfer.WriteAbortFileRequest | src/Linux/DataTransfer.cpp:1116-1132 | an abort-file request with channel and `abortAll` flag, or false and no change |
| LinkTransfer.DataTransfer.WriteMacroFileClosed | src/Linux/DataTransfer.cpp:1134-1150 | a macro-file-closed packet for the channel, or false and no change |
| LinkTransfer.DataTransfer.WritePrintPaused | src/Linux/DataTransfer.cpp:1152-1169 | a print-paused packet with position and reason, or false and no change |
| LinkTransfer.DataTransfer.WriteLocked | src/Linux/DataTransfer.cpp:1206-1222 | a locked packet for the channel, or false and no change |
| LinkTransfer.DataTransfer.WriteFileChunkRequest | src/Linux/DataTransfer.cpp:1224-1243 | a file-chunk request with offset, maximum length and file name, or false and no change |
| LinkTransfer.DataTransfer.WriteEvaluationResult | src/Linux/DataTransfer.cpp:1245-1332 | an evaluation result for every non-float value: the type code and value word, the expression, then a string value's text or the rendered text; false exactly when that does not fit |
| LinkTransfer.DataTransfer.WriteEvaluationError | src/Linux/DataTransfer.cpp:1334-1356 | an evaluation-error packet with the expression and the error message, or false and no change |
| LinkTransfer.DataTransfer.WriteDoCode | src/Linux/DataTransfer.cpp:1358-1376 | a do-code packet with channel and code, or false and no change |
| LinkTransfer.DataTransfer.WriteWaitForAcknowledgement | src/Linux/DataTransfer.cpp:1378-1394 | a wait-for-acknowledgement packet for the channel, or false and no change |
| LinkTransfer.DataTransfer.WriteMessageAcknowledged | src/Linux/DataTransfer.cpp:1396-1412 | a message-acknowledged packet for the channel, or false and no change |
| LinkTransfer.DataTransfer.WriteCodeReply | src/Linux/DataTransfer.cpp:1038-1091 | false and nothing changed exactly when a message header plus up to 16 reply bytes are refused, with `Length()` taken as the bytes left (see Left out); otherwise the transmit side and the remaining chain are those `LinkCodec.CodeReply` gives |
| LinkTransfer.DataTransfer.BeginReply | src/Linux/DataTransfer.cpp:1048-1054 | packet header with length 0 at the realigned cursor, then the message type and zero padding; the packet is counted |
| LinkTransfer.DataTransfer.DrainReply | src/Linux/DataTransfer.cpp:1057-1078 | the copy loop stores exactly the text `Drain` takes from the chain under `FreeTxSpace`, and returns its length and the chain that is left |
| LinkTransfer.DataTransfer.CopyPiece | src/Linux/DataTransfer.cpp:1063-1076 | one round: the first `min(FreeTxSpace, BytesLeft)` bytes of the first buffer follow the bytes copied so far; an emptied buffer is released |
| LinkTransfer.DataTransfer.FinishReply | src/Linux/DataTransfer.cpp:1080-1089 | the push flag when text is left, then the reply length and the packet length, stored into the headers already written |
| LinkProperties.ReadyKeepsConsistent | src/Linux/DataTransfer.cpp:738-971 | every poll keeps the invariant: cursors within the buffer, announced lengths at most 8192, the exchange matching the state |
| LinkProperties.CompletionKeepsConsistent | src/Linux/DataTransfer.cpp:767-940 | each completed phase keeps the invariant |
| LinkProperties.StartNextTransferKeepsConsistent | src/Linux/DataTransfer.cpp:973-994 | sealing a cycle keeps the invariant |
| LinkProperties.DeliveredKeepsConsistent | src/Linux/DataTransfer.cpp:350-389 | the end of an exchange keeps the invariant |
| LinkProperties.HeaderChecksInOrder | src/Linux/DataTransfer.cpp:787-818 | the first failing check decides the header verdict: checksum, then format code, protocol version and data length; `Success` exactly when all pass |
| LinkProperties.HeaderPhase | src/Linux/DataTransfer.cpp:786-820 | without the sentinel, a header exchange sends the verdict, moves to the response phase and counts no failure |
| LinkProperties.HeaderSentinel | src/Linux/DataTransfer.cpp:779-785 | the sentinel as the first header word counts one failure and exchanges headers again, sending no response |
| LinkProperties.HeaderResponsePhase | src/Linux/DataTransfer.cpp:827-859 | the five outcomes of phase (2): ready with empty payloads, payload exchange, peer reset, header resend, own reset |
| LinkProperties.DataPhase | src/Linux/DataTransfer.cpp:878-893 | `BadDataChecksum` exactly when the checksum of the `dataLength` received bytes differs, `Success` exactly when it matches |
| LinkProperties.DataSentinel | src/Linux/DataTransfer.cpp:868-876 | the sentinel as the first payload word restarts the header exchange without counting a failure |
| LinkProperties.DataResponsePhase | src/Linux/DataTransfer.cpp:901-926 | the four outcomes of phase (4); a checksum failure on either side exchanges the same payloads again under the same headers |
| LinkProperties.ReadyExactlyOnSuccess | src/Linux/DataTransfer.cpp:827-841 | `IsReady` is true exactly when a completed response exchange shows `Success` on both sides and ends the cycle; the cursors and packet count are then 0 |
| LinkProperties.FallbackStates | src/Linux/DataTransfer.cpp:929-939 | a completion in `Resetting` or `ProcessingData` restarts at a header exchange |
| LinkProperties.SentinelResynchronises | src/Linux/DataTransfer.cpp:779-876 | the sentinel from the peer brings every phase back to the header exchange in one step |
| LinkProperties.PhaseTimeout | src/Linux/DataTransfer.cpp:942-949 | the phase timeout restarts the header exchange, counts no failure, keeps both headers, and leaves the ready line high |
| LinkProperties.ConnectionTimeout | src/Linux/DataTransfer.cpp:950-969 | on connection loss the sequence numbers and staged payload are dropped and an empty cycle with sequence number 1 starts |
| LinkProperties.QuietPoll | src/Linux/DataTransfer.cpp:740-970 | a poll with nothing completed and no timeout changes nothing and returns false |
| LinkProperties.StartNextTransferSeals | src/Linux/DataTransfer.cpp:973-994 | every field `StartNextTransfer` sets, including a header checksum that covers the final outgoing header |
| LinkProperties.SealedHeaderAccepted | src/Linux/DataTransfer.cpp:787-818 | a peer running the same checks with the same checksum accepts the sealed header |
| LinkWire.HeaderRoundTrip | src/Linux/DataTransfer.cpp:779-818 | decoding the 24 bytes of an encoded transfer header gives the header back |
| LinkWire.HeaderBytesRoundTrip | src/Linux/DataTransfer.cpp:779-818 | encoding a decoded header gives the received bytes back |
| LinkWire.CrcInputIgnoresCrcHeader | src/Linux/DataTransfer.cpp:787 | the header checksum does not cover its own field |
| LinkWire.PaddingIsRoundUp | src/Linux/DataTransfer.cpp:1418 | `AddPadding` is the least multiple of 4 at or above its argument |
| PacketProperties.WritePacketHeaderStamps | src/Linux/DataTransfer.cpp:1415-1428 | the header at the realigned cursor reads back with the packet id, the packet count goes up by one, and no other byte changes |
| PacketProperties.WriteDataCopies | src/Linux/DataTransfer.cpp:1430-1435 | exactly the bytes are copied to the cursor, the cursor moves by their number, nothing else changes |
| PacketProperties.AppendPacketReadsBack | src/Linux/DataTransfer.cpp:1415-1442 | an appended packet reads back: header with id and length, fixed header, trailing bytes; nothing before the packet changes |
| PacketProperties.ReaderFollowsWriter | src/Linux/DataTransfer.cpp:518-542 | a reader on the bytes the writer put gets the header, fixed header and trailing bytes back and ends where the next packet header goes |
| PacketProperties.ReadDataHeaderReads | src/Linux/DataTransfer.cpp:537-542 | a stored fixed header reads back as the values stored into it |
| PacketProperties.BuildKeepsConsistent | src/Linux/DataTransfer.cpp:1021-1036 | a builder refuses exactly when `CanWritePacket` does; otherwise it keeps the invariant and stays within the buffer |
| PacketProperties.ObjectModelCheckAsWrittenOverruns | src/Linux/DataTransfer.cpp:999-1010 | as written, a full admitted object model packet ends 4 bytes past the buffer |
| PacketProperties.ObjectModelCheckFits | src/Linux/DataTransfer.cpp:999-1010 | asking for the string header and the data admits only packets that fit |
| PacketProperties.DrainConserves | src/Linux/DataTransfer.cpp:1061-1078 | the copied text followed by the text left is the whole reply |
| PacketProperties.DrainStops | src/Linux/DataTransfer.cpp:1063-1078 | the copy loop stops only when the chain is used up, the free space is 0, or the next buffer is empty |
| PacketProperties.CodeReplyReadsBack | src/Linux/DataTransfer.cpp:1038-1091 | a written code reply reads back as a message packet whose header carries the copied length, flagged exactly when text is left, with the copied text as its data |
| PacketProperties.CodeReplyConserves | src/Linux/DataTransfer.cpp:1056-1085 | the copied text followed by the buffers left is the reply; the push flag is set exactly when buffers are left |
| PacketProperties.ReplyStoresInOrder | src/Linux/DataTransfer.cpp:1048-1089 | the out-of-order stores of `WriteCodeReply` leave the bytes of the packet laid out in order |
| RequestProperties.GetObjectModelReadsBack | src/Linux/DataTransfer.cpp:544-556 | a request holding a key and flags reads back as them, with the cursor past the padded strings |
| RequestProperties.AssignFilamentReadsBack | src/Linux/DataTransfer.cpp:647-656 | an assign-filament request reads back as its signed extruder number and its name |
| RequestProperties.FileChunkReadsBack | src/Linux/DataTransfer.cpp:658-670 | a file chunk reads back as its length, file length and data, with no data for a non-positive length |
| RequestProperties.EvaluateExpressionReadsBack | src/Linux/DataTransfer.cpp:672-683 | an evaluate-expression request reads back as its channel and expression |
| RequestProperties.MessageReadsBack | src/Linux/DataTransfer.cpp:685-694 | a message reads back as its type and as much text as fits, flagged complete exactly when all of it fits |
| Crc32.CrcForByte | src/targets/STM32/BoardConfig.cpp:115-120 | eight conditional xor-and-shift rounds, then xor 0xFF000000: the table entry the fold uses |
| Crc32.Crc | src/targets/STM32/BoardConfig.cpp:122-132 | the table fold over the bytes, equal to the standard CRC-32 (IEEE 802.3, reflected 0xEDB88320, preset and final inversion) |
| Crc32.SourceCrcIsStandard | src/targets/STM32/BoardConfig.cpp:115-132 | for every input, `crc32` with its inverted table equals the standard CRC-32 |
| Crc32.SourceRegisterIsInverted | src/targets/STM32/BoardConfig.cpp:125-131 | after every prefix the source's register is the complement of the standard register |
| Crc32.CrcOfNothing | src/targets/STM32/BoardConfig.cpp:125-132 | zero bytes give 0 |
| Pins.StringToPin | src/targets/STM32/BoardConfig.cpp:453-483 | a null string is `NoPin`; every result is `NoPin` or a code below 0x90 |
| Pins.AcceptedForm | src/targets/STM32/BoardConfig.cpp:453-483 | every text of the form: letter A..I, optional '.' or '_', digits below 16, allowed length, names port*16+pin, with or without a leading 'P' |
| Pins.AcceptedOnlyInForm | src/targets/STM32/BoardConfig.cpp:453-483 | conversely, every text that names a pin has that form, with the pin number read without a sign (see Left out) |
| Pins.PortPrefixSkipped | src/targets/STM32/BoardConfig.cpp:457 | one leading 'p' or 'P' is skipped, and only one |
| Pins.PortBeyondI | src/targets/STM32/BoardConfig.cpp:463-466 | ports beyond I are refused |
| Pins.RefusedExamples | src/targets/STM32/BoardConfig.cpp:459-482 | `A.23` and `A123` name no pin |
| Pins.PrintedPinReadsBack | src/targets/STM32/BoardConfig.cpp:453-483 | the printed form of a pin, `NoPin` or port letter, dot and number, reads back as that pin |
| Pins.StringToPinIgnoresCase | src/targets/STM32/BoardConfig.cpp:485-501 | lower-casing before the lookup does not change what `StringToPin` reads |
| Pins.LookupFallsBack | src/targets/STM32/BoardConfig.cpp:485-501 | a text the name table does not know is read as `StringToPin` of the text as given |
| Pins.LookupPrefersTable | src/targets/STM32/BoardConfig.cpp:485-501 | a name in the table wins over the text's own pin reading |
| ConfigValues.BoolReadsBack | src/targets/STM32/BoardConfig.cpp:683-698 | "true" and "false", as printed, read back as the boolean |
| ConfigValues.OtherBoolsAreFalse | src/targets/STM32/BoardConfig.cpp:683-698 | "0", "yes", "on", "11" and the empty text are false |
| ConfigValues.TrueIgnoresCase | src/targets/STM32/BoardConfig.cpp:692-695 | "TRUE" and "True" are true |
| ConfigValues.UintReadsBack | src/targets/STM32/BoardConfig.cpp:706-730 | the decimal text of an integer of each width reads back as that integer |
| ConfigValues.NarrowIntegersTruncate | src/targets/STM32/BoardConfig.cpp:706-724 | the narrow types keep only the low bits: "300" in a `uint8_t` is 44, because the clamps compare an already narrowed value |
| ConfigValues.PinReadsBack | src/targets/STM32/BoardConfig.cpp:679-681 | a pin not named in the table reads back from its printed form |
| ConfigReader.ConfigFile.ReadByte | src/targets/STM32/BoardConfig.cpp:757-759 | the next byte and one step on, or nothing at the end of the file |
| ConfigReader.ReadLine | src/targets/STM32/BoardConfig.cpp:750-770 | -1 with the buffer untouched at end of input, else the line's length, the line stored NUL-terminated and the file position of `NextLine` |
| ConfigReader.NextLineShape | src/targets/STM32/BoardConfig.cpp:750-770 | a line has no CR or LF and at most `len - 1` characters; it is the file text up to the first LF with the CRs dropped; end of input exactly when only CRs are left |
| ConfigReader.LineExample | src/targets/STM32/BoardConfig.cpp:764-765 | "ab\r\ncd" gives the line "ab", then "cd" |
| ConfigReader.FullBufferExample | src/targets/STM32/BoardConfig.cpp:755-766 | a full buffer ends the line before its LF, which then reads as an empty line |
| BoardConfiguration.ScanLine | src/targets/STM32/BoardConfig.cpp:782 | each cursor loop stops where `ConfigParser.Scan` does |
| BoardConfiguration.BoardConfig.LookupPin | src/targets/STM32/BoardConfig.cpp:485-501 | the pin the table or `StringToPin` gives for the text; the text is lower-cased in place and nothing else changes |
| BoardConfiguration.BoardConfig.SetValueFromString | src/targets/STM32/BoardConfig.cpp:675-748 | the variable and the line buffer afterwards are those `ConfigParser.SetValue` describes |
| BoardConfiguration.BoardConfig.ConvertText | src/targets/STM32/BoardConfig.cpp:683-742 | the non-pin conversions as `ConfigValues.Converted` gives them: bool, truncated integers, board name only when it fits |
| BoardConfiguration.BoardConfig.SetSingle | src/targets/STM32/BoardConfig.cpp:960-970 | every non-array entry whose key matches ignoring case gets the value, as `ConfigParser.SingleEntries` says |
| BoardConfiguration.BoardConfig.ReadArrayInto | src/targets/STM32/BoardConfig.cpp:825-838 | one matching array entry reads its array from the shared cursor, as `ConfigParser.ReadArray` says |
| BoardConfiguration.BoardConfig.SearchValues | src/targets/STM32/BoardConfig.cpp:833-939 | the search loop as `ConfigParser.SearchArray` says: at most `max` pins, copied only when '}' is reached |
| BoardConfiguration.BoardConfig.ReadValue | src/targets/STM32/BoardConfig.cpp:872-901 | an array value is cut out with a NUL and read as a pin |
| BoardConfiguration.BoardConfig.ReadArrays | src/targets/STM32/BoardConfig.cpp:804-942 | every matching array entry reads from the shared cursor, as `ConfigParser.ArrayEntries` says |
| BoardConfiguration.BoardConfig.ProcessLine | src/targets/STM32/BoardConfig.cpp:780-978 | corrected parser (see Findings): one line has the effect `ConfigParser.LineEffect` describes, on the variables and on the buffer; as written, a key-only line can differ (`ConfigProperties.StaleValueAsWritten`) |
| BoardConfiguration.BoardConfig.ProcessKey | src/targets/STM32/BoardConfig.cpp:793-972 | corrected parser (see Findings): a keyed line: the key is cut out, then the array, single-value or empty case, with the separator scan and the single-value test bounded by the line's length rather than `maxLineLength` |
| BoardConfiguration.BoardConfig.ProcessSingle | src/targets/STM32/BoardConfig.cpp:944-972 | a single value is cut out and stored into every matching entry |
| BoardConfiguration.BoardConfig.GetConfigKeys | src/targets/STM32/BoardConfig.cpp:772-984 | corrected parser (see Findings): always returns false; reads the whole file; the variables end as `ConfigParser.ConfigLines` applies the corrected line effect to the lines in order |
| ConfigParser.KeyedArrayCase | src/targets/STM32/BoardConfig.cpp:800-808 | a key whose separators are followed by '{' goes to the array case |
| ConfigParser.KeyedSingleCase | src/targets/STM32/BoardConfig.cpp:944-950 | any other character within the line starts a single value |
| ConfigParser.KeyedEmptyCase | src/targets/STM32/BoardConfig.cpp:944-947 | corrected parser (see Findings): a key with nothing after it within the line changes no variable; as written it can take a stale value (`ConfigProperties.StaleValueAsWritten`) |
| ConfigParser.SetValue | src/targets/STM32/BoardConfig.cpp:675-748 | only the variable `slot` changes, and the buffer changes only by lower-casing a pin's text |
| ConfigParser.CutValueAt | src/targets/STM32/BoardConfig.cpp:894-901 | cutting out a value writes the NUL at its end and lower-cases it; nothing else changes |
| ConfigProperties.BlankOrCommentLine | src/targets/STM32/BoardConfig.cpp:780-790 | a blank line, or one whose first non-blank is '/' or '#', changes nothing |
| ConfigProperties.SingleValueAt | src/targets/STM32/BoardConfig.cpp:793-972 | a `key sep value` line sets what `Applied` says: every matching non-array entry gets the converted value |
| ConfigProperties.AppliedOneMatch | src/targets/STM32/BoardConfig.cpp:960-970 | with one matching entry exactly its variable is set to the converted value |
| ConfigProperties.AppliedFrame | src/targets/STM32/BoardConfig.cpp:960-970 | a single value changes only the variables of the non-array entries with its key |
| ConfigProperties.AppliedNoMatch | src/targets/STM32/BoardConfig.cpp:960-970 | a key no non-array entry has changes nothing |
| ConfigProperties.SingleEntriesApplied | src/targets/STM32/BoardConfig.cpp:960-970 | the entry loop of the single-value case sets what `Applied` says |
| ConfigProperties.LineEffectIgnoresStaleBytes | src/targets/STM32/BoardConfig.cpp:780-978 | corrected parser: what a line sets depends only on the line and its terminator |
| ConfigProperties.ConfigLinesIgnoreBuffer | src/targets/STM32/BoardConfig.cpp:772-984 | corrected parser: what a file sets does not depend on what the line buffer held first |
| ConfigParser.LineEffectAsWritten | src/targets/STM32/BoardConfig.cpp:780-978 | the parser as written, with the separator loop (800) and the single-value test (947) bounded by `maxLineLength`: the line buffer stays 120 bytes and the variables keep their number |
| ConfigProperties.AsWrittenAgreesOnCleanTail | src/targets/STM32/BoardConfig.cpp:794-956 | when every byte past the line is NUL, the parser as written has exactly the corrected parser's effect |
| ConfigProperties.StaleValueAsWritten | src/targets/STM32/BoardConfig.cpp:794-956 | as written, "ab=cd" then "lcd" sets `lcd` to the left-over "d" |
| ConfigProperties.StaleLineCorrected | src/targets/STM32/BoardConfig.cpp:794-956 | the corrected parser leaves `lcd` alone on the same input |
| ArrayLines.ArrayLineAt | src/targets/STM32/BoardConfig.cpp:800-942 | with one matching array entry, its variable gets the items' pins when there are 1 to max of them, and nothing changes otherwise |
| ArrayLines.SearchShape | src/targets/STM32/BoardConfig.cpp:838-939 | the search either changes nothing, or stores 1..max pins extending those read; no other variable changes |
| ArrayLines.SearchUnclosed | src/targets/STM32/BoardConfig.cpp:880-886 | an array not closed before a NUL changes nothing |
| ArrayLines.ArrayEntriesFrame | src/targets/STM32/BoardConfig.cpp:814-941 | the array case changes only the variables of matching array entries |
| ArrayLines.ArrayEntriesNone | src/targets/STM32/BoardConfig.cpp:814-941 | with no matching array entry the array case changes nothing |
| ConfigValues.CopyPins | src/targets/STM32/BoardConfig.cpp:913-920 | the pins read replace the first entries of the array; later defaults stay |
| Common.LowerIdempotent | src/targets/STM32/BoardConfig.cpp:491-492 | lower-casing twice is lower-casing once |

## Left out

- Floating point is not modelled:
  - `ReadHeightMap` and `WriteHeightMap`;
  - `ReadPrintStartedInfo`, whose file information holds floats;
  - the `Float` branch of `WriteEvaluationResult`;
  - `cvFloatType` in `SetValueFromString`.
- Hardware and interrupts are not modelled: DMA and SPI register setup,
  `disable_spi`, the interrupt handler's status checks, the cache
  invalidation, and the chip-select and DMA completion checks at the top of
  `IsReady`. The interrupt handler appears only as `Deliver`, the completion
  of the exchange that was set up.
- `Init`, `SetLinuxTask`, `Diagnostics`, the IAP routines, firmware update,
  `PrintValue` and the board start-up code that calls `GetConfigKeys` are not
  modelled. Debug printing and error counters are left out too.
- `CalcCRC32`, `CanWritePacket`, `FreeTxSpace`, `IsConnected` and
  `LookupPinName` are parameters, as described above. `millis()` is the
  `now` parameter of `IsReady`.
- The declarations of the fixed headers and of the protocol constants are
  not part of this model:
  - each fixed-header layout is one little-endian field per value the code
    stores, with every header a multiple of 4 bytes;
  - the buffer size is 8192 bytes;
  - the format code, protocol version, response words, `PushFlag`, `NoPin`
    and the maximum board-name length are given values, and the proofs
    depend only on their being distinct.
- An `OutputBuffer` chain is a sequence of byte strings. Releasing a buffer
  drops it from the front. `ReadMessage`'s output buffer is its free `room`.
  `StringRef` targets are seqs, whose capacity truncation is not modelled.
- The `readArray` variable-length array of `GetConfigKeys` is a local
  sequence. The C line buffer starts uninitialised; the model starts it
  all NUL, and `ConfigLinesIgnoreBuffer` shows the corrected parser does
  not depend on that start.
- The readers require a packet that lies inside the buffer and is as long as
  its own header. The size_t wrap of `packetLength - sizeof(header)` and reads
  past the buffer are not modelled.
- `ConfigParser.LineEffectAsWritten` requires the last byte of the line buffer
  to be NUL, because the parser as written may otherwise store a NUL one byte
  past the buffer.
- `BoardConfiguration.BoardConfig.ProcessLine` is the corrected parser, not the
  code as written (Findings): on a line holding only a key it does not read
  the bytes an earlier line left past the terminator. The as-written
  behaviour is `ConfigParser.LineEffectAsWritten`.
- `BoardConfiguration.BoardConfig.ProcessKey` bounds the separator scan and the
  single-value test by the line's length, where the code uses
  `maxLineLength` (Findings).
- `BoardConfiguration.BoardConfig.GetConfigKeys` applies the corrected line
  effect to every line, so a key-only line after a longer line leaves the
  variables unchanged where the code can set a stale value (Findings).
- `ConfigParser.KeyedEmptyCase` is stated for the corrected bound only; as
  written, a key with nothing after it within the line can take a stale
  value (`ConfigProperties.StaleValueAsWritten`).
- `LinkTransfer.DataTransfer.WriteCodeReply`: the declaration of `OutputBuffer`
  is not part of this model, and the chain is modelled as its unread bytes.
  `response->Length()` in the refusal test is taken as the bytes the chain
  has left, the same count `BytesLeft()` gives in the copy loop. If
  `Length()` also counts bytes an earlier partial reply already took from the
  first buffer, the firmware refuses in some cases the model accepts: it asks
  room for up to 16 reply bytes where the model asks for fewer.
- `LinkTransfer.DataTransfer.WriteEvaluationResult`: the firmware stores the
  header's length before copying the expression and its type and value
  after. The model stores the whole header first. The bytes left in the
  buffer are the same.
- `Common.StrToU32` is how the model reads every number: the value of the
  leading decimal digits, wrapped to 32 bits. `StrToI32` and `StrToU32` are
  not part of this model. The model therefore reads no sign and skips no
  leading white space, and a value of 2^32 or more wraps to its remainder.
  If the firmware's reader saturates instead, "4294967296" stores 0xFFFFFFFF
  in a `uint32_t` variable and 0xFF in a `uint8_t` one, where the model
  stores 0.
- `Pins.AcceptedOnlyInForm` holds for the model's unsigned reader only. The
  firmware reads the pin number with the signed `StrToI32`. If that reader
  accepts a sign, texts such as "A+5" and "A-0" also name pins (0x05 and
  0x00), where `Pins.StringToPin` gives `NoPin`. `Pins.PinNumber` and
  `Pins.StringToPin` share the same limit.
- `LinkTransfer.DataTransfer.constructor` sets only the fields the firmware's
  constructor sets. The model starts every other field, and both buffers,
  at zero, as static memory starts. The invariant holds in the starting
  `ExchangingData` state only because the incoming header's `dataLength`
  starts at 0.
- The model follows the code in three places where it is easy to misread:
  - the header checksum is checked before the format code;
  - the phase timeout does not count a failed transfer;
  - after the phase timeout the transfer-ready line ends high, because
    `setup_spi` toggles it after it is forced low.

## Findings

| source | as written | input that shows it | evidently intended | confidence | as-written member | corrected member |
|---|---|---|---|---|---|---|
| src/Linux/DataTransfer.cpp:999-1010 | `WriteObjectModel` asks `CanWritePacket` for `data->Length()` bytes only, but also writes the 4-byte `StringHeader` before the data | an empty transmit buffer and 8180 bytes of data: admitted, yet the packet ends 4 bytes past the 8192-byte buffer | ask for `sizeof(StringHeader) + data->Length()` | not executed | PacketProperties.ObjectModelCheckAsWrittenOverruns | LinkTransfer.DataTransfer.WriteObjectModel, PacketProperties.ObjectModelCheckFits |
| src/targets/STM32/BoardConfig.cpp:794-956 | when a line holds only a key, the key's NUL lands on the line's terminator and the cursor steps past it; the separator loop and the single-value test and scan, bounded by `maxLineLength` rather than the line's length, then read bytes that an earlier, longer line left behind | the line "ab=cd" then the line "lcd": `lcd` is set to "d" | bound the separator and value scans by the line length | not executed | ConfigParser.LineEffectAsWritten, ConfigProperties.StaleValueAsWritten | ConfigParser.LineEffect, ConfigProperties.StaleLineCorrected, ConfigProperties.LineEffectIgnoresStaleBytes |
