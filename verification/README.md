# Proofs about the remote-control protocols

This project models the protocol code of a browser remote-control application in Dafny and proves
properties of it for all inputs, all runs and all interleavings:

- **Protobuf wire layer** (`ProtobufWire`): the hand-written varint and field writer, the bounds-checking field reader
  in its strict and lenient modes. Base 128 varints and field keys are those of the Protocol Buffers Encoding guide,
  sections "Base 128 Varints" and "Message Structure".
- **Clipboard messages** (`ClipboardWire`, `ClipboardV3`, `ClipboardV4`, `ClipboardFamilies`, with `Utf8`): three
  levels of nested messages whose writer leaves out zero and empty fields.
- **Control messages** (`ControlChannel`) and the **base64 text** of connect options (`Base64`, against section 4 of
  RFC 4648).
- **Socket.IO client** (`SocketIoWire`, `WorkerSignalSocket`): packet text, binary attachments, reassembly over frames
  and the table of awaited acknowledgements.
- **Start/stop protocols**: the Worker's signal session (`SignalSession`) and the Node service (`SignalGateway`), each
  a transition system whose atomic steps run from one `await` to the next, together with the class that takes the steps.
- **Bounded event log** (`SignalEventLog`, with `BoundedLog`): the in-memory log and the SQL table, both refining one specification.
- **Browser side**: clipboard block reassembly (`RemoteClipboard`), pointer order and held keys (`RemoteInput`), the ICE
  candidate queue (`CandidateQueue`) and the SDP rewrite (`RemoteSdp`; sections 6.6 and 6.15 of RFC 8866, section 6.1
  of RFC 7587).

## How to read it

Code that the source runs step by step is a class or a method with a loop, proved equal to a step function on values;
the main results are lemmas about those functions. `View()` is the value of an object. Bytes are integers below 256,
bit operations on them are written as division and remainder. Texts on the wire are their UTF-8 bytes. Exceptions are
`Failure`, `Fail`, `None` or `Threw` results.

`dafny verify dfyconfig.toml` checks everything. Some lemmas begin with `hide F;`, which keeps the body of `F` away from
a proof that does not need it.

## Where the code does less than it seems to promise

For each of these a lemma says exactly when the property holds; where only a run of events shows the failure, another
lemma gives the run.

- A field number survives the 32-bit shift in the key only below 2^28 (`ProtobufWire.FieldKeyKeepsTag`), although the
  reader takes numbers up to 2^29 - 1.
- A text that begins with a byte order mark loses it: clipboard texts and block keys (`ClipboardV3.TextRoundTripIff`,
  `ClipboardV4.ConfirmRoundTripIff`) and control texts, of which one that is only the mark comes back as empty rather
  than absent (`ControlChannel.RomRoundTripIff`). A block key longer than the text limit is encoded but not decoded.
- A negative feature flag is written and then dropped by the reader (`ControlChannel.FlagComesBackIff`).
- A value that contains a record shaped like an attachment placeholder may come back changed
  (`SocketIoWire.BinaryRoundTripIff`), and the printer writes packets with more than ten attachments that the parser
  refuses (`SocketIoWire.TooManyAttachmentsRefused`).
- The settle timer ends the read of any clipboard text of more than one block when block 1 arrives and nothing else
  does for a while. The text of block 1 is then delivered in place of the whole, unless the cut splits a character or
  it is the text delivered or sent last; in these cases nothing is (`RemoteClipboard.SettleStep`,
  `RemoteClipboard.TruncationIsReached`).
- When the peer refuses a queued candidate, that one and all later ones are lost
  (`CandidateQueue.AnswerKeepsQueueIff`, `CandidateQueue.LossIsReached`). An event that threw is not marked as
  processed: when it is delivered again, some of its candidates are applied a second time if and only if its first
  delivery applied all that was queued before it and then the event's first candidate (`CandidateQueue.RedeliveryIff`,
  `CandidateQueue.RedeliveryDuplicates`).
- A new offer that is not sent ends the call, and the application does not ask for the events behind it again, so
  their candidates never reach the peer (`CandidateQueue.PolledCandidatesIff`, `CandidateQueue.MissIsReached`).
- When the clock goes back, the event logs stay within their bounds but are the longest fit of the whole history only
  as long as the newest event they dropped would not fit (`SignalEventLog.ClockBackIff`,
  `SignalEventLog.ClockGoesBack`).
- In the Node service a link that goes down between coming up and being adopted leaves a connected status behind
  (`SignalGateway.StatusAlwaysTrueIff`, `SignalGateway.FalseConnectedIsReached`).

## Model

| member | source | states |
|---|---|---|
| ProtobufWire.ByteBuffer.PushVarint | shared/src/streamer/internal/protobufWire.ts:12-24 | Appends the base 128 form, low groups first; a negative value is refused and nothing is written. |
| ProtobufWire.ByteBuffer.PushFieldKey | shared/src/streamer/internal/protobufWire.ts:26-28 | Appends the key as a 32-bit shift computes it; a key that the shift makes negative is refused. |
| ProtobufWire.ByteBuffer.PushVarintField | shared/src/streamer/internal/protobufWire.ts:42-45 | For tags below 2^28 appends exactly one varint field of the format; fails only for a negative key or value. |
| ProtobufWire.ByteBuffer.PushInt32Field | shared/src/streamer/internal/protobufWire.ts:30-33 | Any number goes out as one varint field, a negative one as its 64-bit two's complement; fails only for a negative key. |
| ProtobufWire.ByteBuffer.PushMessageField | shared/src/streamer/internal/protobufWire.ts:35-51 | Appends one length-delimited field with the payload unchanged (texts are their UTF-8 bytes). |
| ProtobufWire.ReadProtobufVarint | shared/src/streamer/internal/protobufWire.ts:143-156 | The loop with shifts computes the recursive reading; more than ten groups, a tenth above 1 or the end of the bytes give nothing. |
| ProtobufWire.ReadProtobufFields | shared/src/streamer/internal/protobufWire.ts:67-129 | The reading loop refines the field-by-field scan, in both modes and at both limits. |
| ProtobufWire.ReadSlicesInBoundsAndDisjoint | shared/src/streamer/internal/protobufWire.ts:67-141 | Whatever the bytes, every payload slice that is reported lies inside them, and no two overlap. |
| ProtobufWire.ReadWrittenVarint | shared/src/streamer/internal/protobufWire.ts:12-24 | A written varint, anywhere in a byte string, reads back as itself exactly when it is below 2^64, and is refused otherwise. |
| ProtobufWire.FieldKeyKeepsTag | shared/src/streamer/internal/protobufWire.ts:26-28 | A field number survives the 32-bit shift if and only if it is at least 0 and below 2^28. |
| ProtobufWire.FieldNumberIff | shared/src/streamer/internal/protobufWire.ts:74-89 | Exactly the field numbers from 1 to 2^29 - 1 are read; any other one is malformed. |
| ProtobufWire.ReadWrittenField | shared/src/streamer/internal/protobufWire.ts:67-125 | One written field reads back with its tag, wire type and payload from the middle of any byte string, unless its payload exceeds the limit. |
| ProtobufWire.ReadWrittenItems | shared/src/streamer/internal/protobufWire.ts:67-125 | Reading any concatenation of written fields within the limits returns exactly those fields in order. |
| ProtobufWire.ScanBeyondLimits | shared/src/streamer/internal/protobufWire.ts:74-107 | One field too many or one payload too long makes the whole reading fail, wherever it stands. |
| ProtobufWire.ReadWrittenItemsIff | shared/src/streamer/internal/protobufWire.ts:67-129 | Written fields are read back if and only if both limits are respected, in either mode. |
| ProtobufWire.Int32RoundTrip | shared/src/streamer/controlChannelDecode.ts:279-281 | A number written as an int32 field and read as its low 32 bits comes back exactly when it is a signed 32-bit number. |
| ProtobufWire.FieldOfPrefix | shared/src/streamer/internal/protobufWire.ts:74-121 | A field inside a prefix reads the same as in the whole, and a prefix makes up no field. |
| ProtobufWire.MalformedScanStopsAtLongestPrefix | shared/src/streamer/internal/protobufWire.ts:127-129 | Where a malformed field begins, the prefix before it reads completely and no longer one does. |
| ProtobufWire.LongestStrictPrefixExists | shared/src/streamer/internal/protobufWire.ts:67-129 | Bytes within the limits have a longest strictly readable prefix, and it gives the lenient answer. |
| ProtobufWire.LenientIsStrictOnLongestPrefix | shared/src/streamer/internal/protobufWire.ts:67-129 | The lenient reader returns F exactly when F is the strict reading of the longest strictly readable prefix. |
| ProtobufWire.StrictImpliesLenient | shared/src/streamer/internal/protobufWire.ts:127-129 | Where the strict reader succeeds, the lenient one agrees. |
| ProtobufWire.VarintSize | shared/src/streamer/internal/protobufWire.ts:12-24 | A value below 128^n takes at most n bytes. |
| Utf8.EncodedIsValid | shared/src/streamer/internal/clipboardWire.ts:14 | What a fatal UTF-8 decoder accepts includes the encoding of every text of Unicode scalar values. |
| Utf8.ValidIsEncoded | shared/src/streamer/internal/clipboardWire.ts:14 | And nothing else. |
| ClipboardWire.EncodeClipboardRpcEnvelope | shared/src/streamer/internal/clipboardWire.ts:56-82 | Builds the three nested messages with zero numbers left out; fails for a number outside int64 or a message over the limit. |
| ClipboardWire.WriterRanges | shared/src/streamer/internal/clipboardWire.ts:66-90 | The numbers of an envelope are accepted exactly below 2^63 and those of a body below 2^31, and a message exactly up to 512 KiB. |
| ClipboardWire.ReadBackNumber | shared/src/streamer/internal/clipboardWire.ts:101-112 | A number that is left out when zero reads back as itself from any fields, up to the limits of int64 and int32. |
| ClipboardWire.ReadBackBytes | shared/src/streamer/internal/clipboardWire.ts:139-151 | Bytes that are left out when empty read back as themselves exactly up to the text limit. |
| ClipboardWire.EnvelopeSelection | shared/src/streamer/internal/clipboardWire.ts:29-45 | The reader finds the sequence, the timestamp and the single RPC message of an envelope although any of the numbers may be missing. |
| ClipboardWire.RpcSelection | shared/src/streamer/internal/clipboardWire.ts:92-99 | Of an RPC message, the header and the body are found under their own tags and nothing under any other. |
| ClipboardWire.EnvelopeOverhead | shared/src/streamer/internal/clipboardWire.ts:56-82 | The three levels add at most 43 bytes to a body. |
| ClipboardWire.EnvelopeRoundTrip | shared/src/streamer/internal/clipboardWire.ts:29-82 | Whatever the encoder lets through decodes to the same sequence, timestamp, request id, RPC tag and body. |
| ClipboardWire.ReadsWhatIsSaid | shared/src/streamer/internal/clipboardWire.ts:110-175 | Whatever the fields of a message, in any order and with repetitions, a number, bytes or a text is read exactly when the last field with its tag says it, or none stands there for zero and empty. |
| ClipboardV3.EncodeTextChangeRequest | shared/src/streamer/clipboardV3.ts:37-56 | The pushing encoder produces the specified message, with the error cases in the order of the checks. |
| ClipboardV3.EncodeNeverOverflows | shared/src/streamer/clipboardProtocol.ts:1-12 | Encoding succeeds exactly when the arguments are in range: the 256 bytes of headroom always suffice, so the final size check never fires. |
| ClipboardV3.DecodeEncoded | shared/src/streamer/clipboardV3.ts:58-97 | Decoding an encoded request gives back its metadata, format and text, up to a leading byte order mark. |
| ClipboardV3.TextRoundTripIff | shared/src/streamer/clipboardV3.ts:37-97 | A request comes back exactly as it was if and only if its text does not begin with a byte order mark. |
| ClipboardV3.NotificationArrivesIff | shared/src/streamer/clipboardV3.ts:58-97 | A notification of any peer is decoded exactly as its fields say: the format under 1, the text under 2. |
| ClipboardV3.ResponseArrivesIff | shared/src/streamer/clipboardV3.ts:58-106 | So is a response: its result under 1. |
| ClipboardV4.EncodeFormatDataAskRequest | shared/src/streamer/clipboardV4.ts:65-75 | The pushing encoder produces the specified ask, an empty format name and format 0 left out. |
| ClipboardV4.EncodeDataBlockConfirmResponse | shared/src/streamer/clipboardV4.ts:77-87 | The pushing encoder produces the specified confirm; block id 0, numbers outside int32 and an empty key are refused. |
| ClipboardV4.EncodeV4Envelope | shared/src/streamer/clipboardV4.ts:107-125 | The submessage goes under the request or the response tag of the family, inside the common envelope. |
| ClipboardV4.ConfirmEncodes | shared/src/streamer/clipboardV4.ts:77-87 | Every valid confirm with a key within the text limit fits the message limit. |
| ClipboardV4.DecodeEncodedConfirm | shared/src/streamer/clipboardV4.ts:145-175 | Whatever the confirm encoder lets through decodes to that confirm, or is rejected because its key is too long or only a byte order mark. |
| ClipboardV4.ConfirmRoundTripIff | shared/src/streamer/clipboardV4.ts:77-175 | A confirm comes back exactly if and only if its arguments are valid, its key is within the text limit and begins with no byte order mark. |
| ClipboardV4.FormatConfirmArrivesIff | shared/src/streamer/clipboardV4.ts:145-167 | A format confirm of any peer is decoded exactly when its fields say a result under 1, a non-empty key under 2 and a block count under 3, and then as these. |
| ClipboardV4.DataBlockArrivesIff | shared/src/streamer/clipboardV4.ts:127-143 | So is a data block: a non-empty key under 1, its number under 2, its bytes under 3. |
| ClipboardV4.BlockConfirmArrivesIff | shared/src/streamer/clipboardV4.ts:168-174 | So is the confirm of a block: a non-empty key under 1, its number under 2, the result under 3. |
| ClipboardV4.OtherBodiesAreIgnored | shared/src/streamer/clipboardV4.ts:89-175 | Any other message of a peer in this envelope is none. |
| ClipboardV4.AskSays | shared/src/streamer/clipboardV4.ts:65-75 | An ask says its format under 1, its key under 2 and the name of the format under 3. |
| ClipboardV4.AskArrives | shared/src/streamer/clipboardV4.ts:65-125 | An encoded ask carries the envelope's numbers, one request and one ask with exactly these fields. |
| ClipboardFamilies.V4RejectsV3 | shared/src/streamer/clipboardV4.ts:89-105 | No encoded version 3 request is a version 4 message. |
| ClipboardFamilies.V3RejectsV4 | shared/src/streamer/clipboardV3.ts:58-84 | No encoded version 4 ask or confirm is a version 3 message. |
| ControlChannel.EncodeControlEnvelope | shared/src/streamer/controlChannelEncode.ts:79-85 | Sequence and timestamp are always written, before the body; a negative one is refused. |
| ControlChannel.EncodeStreamerRomMessage | shared/src/streamer/controlChannelEncode.ts:54-63 | The pushing encoder produces the specified input or text message with its defaults left out; a negative display id, sequence or timestamp is refused. |
| ControlChannel.EncodeFeatureFlags | shared/src/streamer/controlChannelEncode.ts:87-94 | The loop writes the flags that are not zero, of either sign, in the order of their tags and leaves out the others. |
| ControlChannel.PushFlag | shared/src/streamer/controlChannelEncode.ts:91 | One flag is one int32 field, or nothing when it is zero. |
| ControlChannel.EncodeSimpleAction | shared/src/streamer/controlChannelEncode.ts:65-77 | The pushing encoder produces the specified echo message with its text and flags. |
| ControlChannel.DecodeStreamerControlMessage | shared/src/streamer/controlChannelDecode.ts:81-111 | The field loop computes the fold, over all five kinds of nested message, in which later fields override earlier ones. |
| ControlChannel.DecodeSendToRom | shared/src/streamer/controlChannelDecode.ts:218-235 | The field loop computes the fold over the body of an input message. |
| ControlChannel.ControlEnvelopeRoundTrip | shared/src/streamer/controlChannelDecode.ts:81-111 | An envelope comes back with its numbers (when safe integers), its tags and its decoded body, and is refused exactly when the body exceeds the payload limit. |
| ControlChannel.DecodeEncodedRom | shared/src/streamer/controlChannelDecode.ts:218-235 | What an input or text message decodes to, up to a leading byte order mark; nothing exactly when its body exceeds the payload limit. |
| ControlChannel.RomRoundTripIff | shared/src/streamer/controlChannelDecode.ts:218-235 | Type, text and display id come back as they were (empty text and id 0 as absent) if and only if the body is within the payload limit and the text does not begin with a byte order mark. |
| ControlChannel.SequenceTextRoundTripIff | shared/src/streamer/controlChannelDecode.ts:259-277 | The number in the echo text, of either sign, is read back exactly if and only if it is a safe integer. |
| ControlChannel.SequenceIsRead | shared/src/streamer/controlChannelDecode.ts:259-277 | Every text of the form with digits, behind a sign or not, is read as its number if that is a safe integer. |
| ControlChannel.OnlySequenceIsRead | shared/src/streamer/controlChannelDecode.ts:259-277 | No other text of this form is. |
| ControlChannel.FlagsReadBack | shared/src/streamer/controlChannelDecode.ts:139-150 | Decoding written flags gives back exactly the positive ones. |
| ControlChannel.FlagComesBackIff | shared/src/streamer/controlChannelDecode.ts:139-150 | A flag that is written comes back as it was, and comes back at all, if and only if it is not negative. |
| ControlChannel.EchoRoundTrip | shared/src/streamer/controlChannelEncode.ts:38-52 | An echo of a number of either sign comes back with its kind, text and flags, and its text yields the number whenever it is a safe integer. |
| ControlChannel.CursorPositionIff | shared/src/streamer/controlChannelDecode.ts:207-216 | Cursor positions written as int32 fields are read back exactly in the signed 32-bit range, whatever their sign. |
| ControlChannel.PeerMessageArrives | shared/src/streamer/controlChannelDecode.ts:81-111 | A message of any peer arrives: the sequence, the time and each nested message are those of the last field with its tag. |
| ControlChannel.PeerBodiesArrive | shared/src/streamer/controlChannelDecode.ts:113-257 | So do the nested messages: each number, text, image and scale of an action, capture change, ROM message, input message and cursor is that of the last valid field with its own tag. |
| ControlChannel.FlagsAreRead | shared/src/streamer/controlChannelDecode.ts:139-150 | A flag is there exactly when a safe number stands under one of the flag tags, and is the last one. |
| ControlChannel.FiniteIff | shared/src/streamer/controlChannelDecode.ts:283-291 | A scale is read exactly when the eleven bits of its exponent are not all ones. |
| ControlChannel.LastOfIsLast | shared/src/streamer/controlChannelDecode.ts:81-257 | The last of the fields that pass a test is one of them, and none stands behind it. |
| Base64.EncodeBase64 | shared/src/streamer/internal/connectOptionsCodec.ts:110-123 | The loop over three bytes at a time produces the text of the quanta. |
| Base64.Base64RoundTrip | shared/src/streamer/internal/connectOptionsCodec.ts:110-123 | The decoder of section 4 of RFC 4648 returns every byte string from its text. |
| Base64.EncodedLength | shared/src/streamer/internal/connectOptionsCodec.ts:113-121 | n bytes take 4 * ceil(n / 3) characters. |
| Base64.PaddingTellsRemainder | shared/src/streamer/internal/connectOptionsCodec.ts:119-120 | One or two padding characters stand at the end exactly for lengths of remainder 2 or 1, and nowhere else. |
| Base64.Base64Injective | shared/src/streamer/internal/connectOptionsCodec.ts:110-123 | Different byte strings have different texts. |
| SocketIoWire.DeconstructBinaryValue | cloudflare/src/signal/socketIoWire.ts:117-129 | Threading one buffer list through the recursion replaces the binary leaves by placeholders in order and appends exactly those leaves. |
| SocketIoWire.ReconstructHollow | cloudflare/src/signal/socketIoWire.ts:92-104 | Re-insertion undoes extraction, anywhere inside a packet, if and only if no record there is mistaken for a placeholder. |
| SocketIoWire.BinaryRoundTripIff | cloudflare/src/signal/socketIoWire.ts:87-104 | A whole value comes back from its own buffers exactly under that condition. |
| SocketIoWire.ParseSocketIoPacket | cloudflare/src/signal/socketIoWire.ts:46-76 | The offset loops compute the specified parse, with its three kinds of error. |
| SocketIoWire.ParseEncoded | cloudflare/src/signal/socketIoWire.ts:46-85 | The parser inverts the printer on every printable packet, for any lawful JSON printer. |
| SocketIoWire.TooManyAttachmentsRefused | cloudflare/src/signal/socketIoWire.ts:52-59 | A printed packet with more than ten attachments is refused. |
| WorkerSignalSocket.WorkerSignalSocket.EmitSocketEvent | cloudflare/src/signal/workerSignalSocket.ts:319-333 | Uses up one id and sends one text frame followed by one prefixed frame for each binary leaf, in order. |
| WorkerSignalSocket.WorkerSignalSocket.EmitWithAck | cloudflare/src/signal/workerSignalSocket.ts:101-121 | Registers the acknowledgement and its timer under the id just sent; a failed send uses up the id and registers nothing. |
| WorkerSignalSocket.WorkerSignalSocket.OnAckTimeout | cloudflare/src/signal/workerSignalSocket.ts:104-107 | The timer removes its own entry and settles it as timed out. |
| WorkerSignalSocket.WorkerSignalSocket.ResolveAck | cloudflare/src/signal/workerSignalSocket.ts:310-317 | A reply settles the entry with its id and stops its timer; any other reply changes nothing. |
| WorkerSignalSocket.WorkerSignalSocket.ReleaseSocket | cloudflare/src/signal/workerSignalSocket.ts:355-402 | Empties the table, stops its timers, rejects its entries in order and restarts the ids. |
| WorkerSignalSocket.WorkerSignalSocket.EnqueueSocketMessage | cloudflare/src/signal/workerSignalSocket.ts:180-193 | A frame that is too large, or too large together with the frames still waiting, ends the connection; any other joins the queue, and the byte count stays the sum of the waiting frames. |
| WorkerSignalSocket.WorkerSignalSocket.HandleFrame | cloudflare/src/signal/workerSignalSocket.ts:194-216 | The oldest waiting frame goes to the handler of its kind, and its bytes are released. |
| WorkerSignalSocket.WorkerSignalSocket.HandleTextFrame | cloudflare/src/signal/workerSignalSocket.ts:218-260 | The new pending packet and the effect of every text frame, including the errors and the heartbeat that the open packet asks for. |
| WorkerSignalSocket.WorkerSignalSocket.HandleBinaryFrame | cloudflare/src/signal/workerSignalSocket.ts:262-283 | A binary frame is raw, adds to the pending packet, completes it with its leaves put back, or breaks the total size limit. |
| WorkerSignalSocket.FeedText | cloudflare/src/signal/workerSignalSocket.ts:218-260 | The text frame of an emission is delivered, kept for its attachments, or refused for having more than ten. |
| WorkerSignalSocket.FeedBuffers | cloudflare/src/signal/workerSignalSocket.ts:262-283 | The binary frames of a packet deliver it with all its buffers in order, or break the connection when one or their sum is too large. |
| WorkerSignalSocket.LoopbackIff | cloudflare/src/signal/workerSignalSocket.ts:319-333 | A receiver fed an emission's frames delivers exactly one packet with the original id and data, if and only if there are at most ten leaves, the size limits hold and nothing passes for a placeholder. |
| WorkerSignalSocket.BacklogAdmits | cloudflare/src/signal/workerSignalSocket.ts:189-193 | However far the handling of an emission's frames lags behind, the queue limit refuses none of them. |
| WorkerSignalSocket.PrintedPacketArrives | cloudflare/src/signal/workerSignalSocket.ts:218-252 | What the receiver makes of any packet a peer prints: handshake, disconnect and refusal by its kind, collecting for one with attachments, and otherwise exactly that packet. |
| WorkerSignalSocket.EngineFramesArrive | cloudflare/src/signal/workerSignalSocket.ts:218-236 | A ping and a close are recognised whatever is pending, and any other frame that is neither an open nor a message is ignored. |
| WorkerSignalSocket.OpenPacketIff | cloudflare/src/signal/socketIoWire.ts:30-44 | The heartbeat timeout is the sum of both durations of the open packet, each in range or absent, and the connection breaks exactly when one is neither. |
| WorkerSignalSocket.ReleaseInv | cloudflare/src/signal/workerSignalSocket.ts:355-402 | A release leaves no live timer, and every awaited emission is then settled once. |
| WorkerSignalSocket.StepKeepsAckInv | cloudflare/src/signal/workerSignalSocket.ts:101-141 | Every operation keeps live timers and table entries one to one and every emission settled at most once. |
| WorkerSignalSocket.RunKeepsAckInv | cloudflare/src/signal/workerSignalSocket.ts:101-141 | The same over every run. |
| WorkerSignalSocket.EveryAckSettlesOnce | cloudflare/src/signal/workerSignalSocket.ts:310-317 | Over every run of opens, emissions, replies, timeouts and releases each acknowledgement leaves the table exactly once, and until then its timer is live. |
| WorkerSignalSocket.OnlyOwnAckSettles | cloudflare/src/signal/workerSignalSocket.ts:378-402 | Although ids restart at 0, a reply settles only the emission made on its own transport under its id, and a timer only its own. |
| WorkerSignalSocket.EmissionIsAwaited | cloudflare/src/signal/workerSignalSocket.ts:101-121 | An emission that goes out is awaited on the current transport under an id no other emission has; one that does not go out settles and awaits nothing. |
| WorkerSignalSocket.ReplyResolvesItsEmission | cloudflare/src/signal/workerSignalSocket.ts:310-317 | Over every run a reply resolves, with its own data, exactly the emission that is awaited on its transport under its id, and settles nothing if there is none. |
| WorkerSignalSocket.TimerTimesOut | cloudflare/src/signal/workerSignalSocket.ts:104-107 | A live timer settles its own emission as timed out. |
| WorkerSignalSocket.ReleaseRejectsTheRest | cloudflare/src/signal/workerSignalSocket.ts:123-145 | A release rejects exactly the emissions that are still awaited. |
| WorkerSignalSocket.EverySettlementHasItsCause | cloudflare/src/signal/workerSignalSocket.ts:101-145 | Over every run each settlement has its cause: resolved only by a reply with that data, timed out only by its timer, rejected only by a release. |
| SignalSession.RemoteSignalSession.constructor | cloudflare/src/signalSession.ts:53-62 | A new instance has no socket and takes status, lease and log from storage. |
| SignalSession.RemoteSignalSession.GetStatus | cloudflare/src/signalSession.ts:64-77 | A connected status without a connected socket is turned into a closed one. |
| SignalSession.RemoteSignalSession.BeginStart | cloudflare/src/signalSession.ts:91-93 | A start takes its sequence number at once and does nothing else before its first wait. |
| SignalSession.RemoteSignalSession.AfterAuthorization | cloudflare/src/signalSession.ts:94-112 | Refused, unconfigured and overtaken starts end without effect; others renew the lease, which may stop the session. |
| SignalSession.RemoteSignalSession.AfterLease | cloudflare/src/signalSession.ts:113-135 | A start that has not been overtaken becomes authoritative, closes the old socket, clears the log and begins to connect. |
| SignalSession.RemoteSignalSession.TryNextServer | cloudflare/src/signalSession.ts:130-166 | Creates the session's socket for the next server, or records the failure when none is left. |
| SignalSession.RemoteSignalSession.AfterConnect | cloudflare/src/signalSession.ts:135-149 | Only the current socket makes the session connected; a superseded one is closed. |
| SignalSession.RemoteSignalSession.AfterConnectError | cloudflare/src/signalSession.ts:150-155 | A failed socket is dropped and closed; only the active generation goes on to the next server. |
| SignalSession.RemoteSignalSession.Stop | cloudflare/src/signalSession.ts:169-185 | A stop is authoritative at once, closes the socket and clears log, lease and status. |
| SignalSession.RemoteSignalSession.AuthorizeRoom | cloudflare/src/signalSession.ts:187-191 | Starts the lease. |
| SignalSession.RemoteSignalSession.Alarm | cloudflare/src/signalSession.ts:193-199 | Stops the session only when the lease has expired. |
| SignalSession.RemoteSignalSession.RenewClientLease | cloudflare/src/signalSession.ts:201-211 | Drops stale events, then extends the lease, or stops the session when it has expired. |
| SignalSession.RemoteSignalSession.PruneEvents | cloudflare/src/signal/signalSessionStore.ts:94-97 | The loop keeps exactly the events within the retention time, in order. |
| SignalSession.RemoteSignalSession.OnLost | cloudflare/src/signalSession.ts:282-303 | A lost socket is dropped from the session and from a live status, but only if it is the current one. |
| SignalSession.RemoteSignalSession.RecordEvent | cloudflare/src/signal/signalSessionStore.ts:75-92 | Stale events are dropped, the event is added, and the newest within the count and byte bounds are kept. |
| SignalSession.RemoteSignalSession.RecordIfCurrent | cloudflare/src/signalSession.ts:248-281 | Events and acknowledgements are recorded, within the bounds of the log, only for the current socket of the captured generation. |
| SignalSession.RemoteSignalSession.RecordControl | cloudflare/src/signalSession.ts:213-225 | An outbound control event is recorded, within the bounds of the log, only while connected. |
| SignalSession.RemoteSignalSession.CloseSocket | cloudflare/src/signalSession.ts:316-320 | Closes and forgets the session's socket. |
| SignalSession.StepKeepsInv | cloudflare/src/signalSession.ts:91-211 | Every atomic step of starts, stops, lease, alarm and socket callbacks keeps the invariant. |
| SignalSession.RunKeepsInv | cloudflare/src/signalSession.ts:91-211 | Every interleaving keeps it. |
| SignalSession.NoStraySocketAndNoFalseConnected | cloudflare/src/signalSession.ts:277-320 | In every interleaving every socket but the session's is closed, a connected status written by this instance means a live socket of the active generation, and the log holds only events of that generation. |
| SignalSession.RepairOnlyAfterRestore | cloudflare/src/signalSession.ts:64-77 | Reading the status repairs only a status that was restored from storage. |
| SignalSession.SequencesNeverDecreaseOverRuns | cloudflare/src/signalSession.ts:91-185 | The authoritative sequence and the generation never go back over any run. |
| SignalSession.OvertakenStartIsInert | cloudflare/src/signalSession.ts:111-155 | No continuation of an overtaken start changes socket, status, log, sequence, generation or lease. |
| SignalSession.LastRequestWins | cloudflare/src/signalSession.ts:111-155 | Once a request is authoritative, no start with a smaller sequence ever has an observable effect, however long the run in between. |
| SignalSession.ExpiredLeaseOvertakesItsOwnStart | cloudflare/src/signalSession.ts:111-114 | A start that finds its lease expired stops the session, and its own continuation is then without effect. |
| SignalSession.AtRestStays | cloudflare/src/signalSession.ts:169-185 | A stopped session stays stopped under every event but a new start. |
| SignalSession.StopSticks | cloudflare/src/signalSession.ts:169-185 | After a stop, whatever was in flight, the session stays closed and its log empty until a new start is called. |
| SignalSession.RequestIsNumbered | cloudflare/src/signalSession.ts:92 | A request takes a number above all others before it waits for anything, and changes nothing else. |
| SignalSession.StartGoesOn | cloudflare/src/signalSession.ts:91-137 | Where each start goes on: it returns when it is refused or overtaken, and otherwise waits for its lease and takes over with its first server. |
| SignalSession.StepNeverSticks | cloudflare/src/signalSession.ts:91-182 | Every step keeps the session from getting stuck: with a socket it is connected or still waits for that socket, and connecting it has one. |
| SignalSession.RunMakesProgress | cloudflare/src/signalSession.ts:91-182 | Over every interleaving from any stored state the session is never stuck, and every start has made one socket for each server but those it has left. |
| SignalSession.ConnectingEnds | cloudflare/src/signalSession.ts:131-167 | The start that resolves for the session's own socket makes it connected; one whose server fails goes on to the next, and fails once it has made a socket for each server. |
| SignalSession.StatusHasItsCause | cloudflare/src/signalSession.ts:91-306 | The status after any step, by its cause: connecting begins, succeeds, runs out of servers, is lost, stopped or repaired; nothing else changes it. |
| SignalSession.SocketLives | cloudflare/src/signalSession.ts:277-306 | A socket that completes its handshake is live, one that is lost is dead, and the session hears of its own socket only. |
| SignalSession.EventIsLogged | cloudflare/src/signalSession.ts:213-280 | What comes in on the session's socket, or goes out on it while connected, becomes the newest event of the log; nothing else is logged. |
| SignalSession.TouchExtendsLease | cloudflare/src/signalSession.ts:187-211 | A client that shows up prunes the log and keeps the session for the idle time, unless the lease has expired, which stops it. |
| SignalSession.IdleSessionEnds | cloudflare/src/signalSession.ts:193-211 | Over any run without a client the lease stays as it is, and the alarm stops the session exactly from its expiry on. |
| SignalGateway.RemoteControlService.constructor | backend/src/services/remoteControlService.ts:57-64 | A new service is idle. |
| SignalGateway.RemoteControlService.BeginStart | backend/src/services/remoteControlService.ts:97-98 | A start takes its sequence number before its first wait. |
| SignalGateway.RemoteControlService.AfterConfig | backend/src/services/remoteControlService.ts:99-121 | Without a configuration or when overtaken a start ends; otherwise it takes over, closes the old connection, clears the log and calls the connector. |
| SignalGateway.RemoteControlService.TryNextServer | backend/src/services/remoteControlService.ts:122-192 | Calls the connector for the next server, or records the failure when none is left. |
| SignalGateway.RemoteControlService.AfterConnect | backend/src/services/remoteControlService.ts:159-173 | Only the active generation adopts a connection; any other closes it. |
| SignalGateway.RemoteControlService.AfterConnectError | backend/src/services/remoteControlService.ts:174-180 | Only the active generation goes on to the next server. |
| SignalGateway.RemoteControlService.StopSignalGateway | backend/src/services/remoteControlService.ts:262-279 | A stop is authoritative at once, closes the connection and leaves the log. |
| SignalGateway.RemoteControlService.AfterContext | backend/src/services/remoteControlService.ts:280-282 | A stop goes on to clear the room only while its generation is active and a device is known. |
| SignalGateway.RemoteControlService.AfterRoomClear | backend/src/services/remoteControlService.ts:283-300 | The result of clearing the room is shown only while the stop's generation is active. |
| SignalGateway.RemoteControlService.ApplyConnectionStateUpdate | backend/src/services/remoteControlService.ts:303-336 | Only a link of the active generation changes the status, and one that is gone for good also ends the connection. |
| SignalGateway.RemoteControlService.OnConnect | backend/src/services/socketIoSignalGatewayConnector.ts:217-221 | A link that comes up, first or again, reports connected before its promise is acted on. |
| SignalGateway.RemoteControlService.OnDisconnect | backend/src/services/socketIoSignalGatewayConnector.ts:222-255 | A link that goes down reports connecting while it retries, closed or failed when it does not. |
| SignalGateway.RemoteControlService.RecordSignalEvent | backend/src/services/remoteControlService.ts:356-381 | The event is added, stale events are dropped, and the newest within the count and byte bounds are kept. |
| SignalGateway.RemoteControlService.OnSignalEvent | backend/src/services/remoteControlService.ts:138-147 | The events an inbound message is normalized into are recorded in order, within the bounds, only for the active generation. |
| SignalGateway.RemoteControlService.SendSignal | backend/src/services/remoteControlService.ts:195-206 | Outbound events are recorded, within the bounds, only while there is a connection. |
| SignalGateway.RemoteControlService.AfterAck | backend/src/services/remoteControlService.ts:207-260 | Acknowledgements are recorded, within the bounds, only for the current connection of the captured generation. |
| SignalGateway.RemoteControlService.CloseConnection | backend/src/services/remoteControlService.ts:107-108 | Closes and forgets the connection. |
| SignalGateway.StepKeepsInv | backend/src/services/remoteControlService.ts:97-336 | Every atomic step keeps the invariant. |
| SignalGateway.RunKeepsInv | backend/src/services/remoteControlService.ts:97-336 | Every interleaving keeps it. |
| SignalGateway.NoStrayLinkOverRuns | backend/src/services/remoteControlService.ts:303-340 | Over every run each link that is neither the connection nor still awaited is gone, the connection is of the active generation, a cleared room shows only when closed, and the log never mixes generations. |
| SignalGateway.TrueStatusStepIff | backend/src/services/remoteControlService.ts:148-173 | A step keeps a connected status true if and only if it does not adopt a link of the active generation that has gone down. |
| SignalGateway.StatusAlwaysTrueIff | backend/src/services/remoteControlService.ts:148-173 | Throughout a run connected means that the newest link of the active generation is up, if and only if the run adopts no such lost link. |
| SignalGateway.FalseConnectedIsReached | backend/src/services/remoteControlService.ts:148-173 | The run of a new service whose first link comes up and is gone before it is adopted ends connected to a link that is gone. |
| SignalGateway.AdoptedLinkIsUpIff | backend/src/services/remoteControlService.ts:159-173 | Adopting a connection makes the status true if and only if its link is still up. |
| SignalGateway.StepKeepsStatusExact | backend/src/services/remoteControlService.ts:97-336 | Every step that adopts no lost link keeps the status and the connection exactly those of the newest link, also when a link comes up again. |
| SignalGateway.StatusIsExactOverRuns | backend/src/services/remoteControlService.ts:97-336 | The same over every run: connecting, connected, closed or failed exactly as the newest link of the active generation is. |
| SignalGateway.ConnectingGoesOn | backend/src/services/remoteControlService.ts:97-190 | A current start tries its servers one at a time, is connected with the link that resolves, and fails after the last server. |
| SignalGateway.NothingToStart | backend/src/services/remoteControlService.ts:97-103 | A start without a room configuration, or overtaken, changes nothing observable. |
| SignalGateway.RequestIsNumbered | backend/src/services/remoteControlService.ts:98 | A request takes a number above all others before it waits for anything, and changes nothing else. |
| SignalGateway.StopBegins | backend/src/services/remoteControlService.ts:262-283 | A stop closes the connection at once under a new number and generation, keeps the log, and shows nothing of how an earlier stop went. |
| SignalGateway.UnwantedLinksEnd | backend/src/services/remoteControlService.ts:156-160 | A link that resolves for an overtaken start is ended, and a refused one is gone; nothing observable changes. |
| SignalGateway.LinkReports | backend/src/services/remoteControlService.ts:303-336 | A retrying link keeps the connection and shows as connecting; one that is gone for good ends it as failed or closed. |
| SignalGateway.StopGoesOn | backend/src/services/remoteControlService.ts:262-301 | A stop clears the room of a known device while it is current, and the status then shows how that went. |
| SignalGateway.EventIsLogged | backend/src/services/remoteControlService.ts:138-147 | What an active link says, what is sent while connected, and its acknowledgement become the newest events of the log; nothing else is logged. |
| SignalGateway.OvertakenIsInert | backend/src/services/remoteControlService.ts:159-180 | Nothing an overtaken start, stop or link still does is observable, and it opens no new link. |
| SignalGateway.RunGoesForward | backend/src/services/remoteControlService.ts:97-301 | The authoritative sequence and the generation never go back. |
| SignalGateway.LastRequestWins | backend/src/services/remoteControlService.ts:97-301 | Once overtaken, a start, stop or link never again has an observable effect, however long the run in between. |
| SignalGateway.StopRests | backend/src/services/remoteControlService.ts:262-279 | A stop overtakes every start and link made so far and keeps the log. |
| SignalGateway.AtRestStays | backend/src/services/remoteControlService.ts:262-301 | A stopped service stays stopped under every event but a new start. |
| SignalGateway.StopSticks | backend/src/services/remoteControlService.ts:262-301 | Until a new start is called, a stopped service stays closed and its log stays as it was. |
| SignalEventLog.SignalEvents.Clear | backend/src/services/remoteControlService.ts:109-110 | A new start forgets the history and restarts the ids. |
| SignalEventLog.SignalEvents.Prune | backend/src/services/remoteControlService.ts:383-386 | Exactly the stale events are dropped, under any clock; while the clock does not go back the log is the longest suffix of the whole history within all bounds at this time. |
| SignalEventLog.SignalEvents.Record | backend/src/services/remoteControlService.ts:356-381 | The log is within the count, byte and age bounds, part of the history and exactly one step further, under any clock; while the clock does not go back it is the longest suffix of the whole history within the bounds. |
| SignalEventLog.SignalEvents.FirstRetained | backend/src/services/remoteControlService.ts:371-378 | The backward loop finds the first event such that the rest is within the byte budget and one more is not. |
| SignalEventLog.SignalEvents.EventsAfter | backend/src/services/remoteControlService.ts:84-87 | The answer is what the pruned log holds beyond the given id. |
| SignalEventLog.SignalSessionStore.ClearEvents | cloudflare/src/signal/signalSessionStore.ts:47-49 | Forgets the history; ids keep counting. |
| SignalEventLog.SignalSessionStore.PruneEvents | cloudflare/src/signal/signalSessionStore.ts:94-97 | Exactly the stale rows are dropped, under any clock; while the clock does not go back the table is the longest suffix of the history within all bounds at this time. |
| SignalEventLog.SignalSessionStore.RecordEvent | cloudflare/src/signal/signalSessionStore.ts:75-92 | The insert and the two deletions leave the longest suffix of the pruned table and the new row within the bounds, under any clock, and of the whole history while the clock does not go back. |
| SignalEventLog.SignalSessionStore.ReadEvents | cloudflare/src/signal/signalSessionStore.ts:51-73 | The answer is what the pruned table holds beyond the given id; the row limit cuts nothing off. |
| SignalEventLog.LongestFitIsLongest | backend/src/services/remoteControlService.ts:356-381 | The specification is a suffix within all bounds, and no longer suffix is. |
| SignalEventLog.WithinIsLongestFit | backend/src/services/remoteControlService.ts:370-379 | The count and byte bounds alone, as the start/stop models use them, are the specification on fresh events. |
| SignalEventLog.ForgettingIsSafe | backend/src/services/remoteControlService.ts:368-379 | Working on the kept log gives the same as working on the whole history, for every size measure and non-decreasing clock. |
| SignalEventLog.PrunedIsLongest | backend/src/services/remoteControlService.ts:383-386 | Filtering the kept log by age is the specification at the later time. |
| SignalEventLog.RetainedIsLongest | backend/src/services/remoteControlService.ts:368-379 | Filter, slice and byte budget together are one step of the specification. |
| SignalEventLog.RowsAreLongest | cloudflare/src/signal/signalSessionStore.ts:84-91 | The two SQL deletions, by newest ids and by running total, together are one step of the specification. |
| SignalEventLog.NewestWithin | backend/src/services/remoteControlService.ts:370-379 | The slice and the byte budget together leave the longest suffix within both bounds. |
| SignalEventLog.DeletionsAreWithin | cloudflare/src/signal/signalSessionStore.ts:84-91 | So do the two SQL deletions. |
| SignalEventLog.RecordKeepsInv | backend/src/services/remoteControlService.ts:356-381 | A new event keeps the log within its bounds and part of the history under any clock, and the longest fit under a steady one. |
| SignalEventLog.InsertKeepsInv | cloudflare/src/signal/signalSessionStore.ts:75-92 | So does a new row in the table. |
| SignalEventLog.ClockBackIff | backend/src/services/remoteControlService.ts:383-386 | With a clock that goes back a prune drops nothing, and leaves the longest fit if and only if nothing was dropped before or the newest dropped event still does not fit. |
| SignalEventLog.ClockGoesBack | backend/src/services/remoteControlService.ts:383-386 | After the clock has gone back, an event that was dropped as stale stays dropped although it would fit. |
| RemoteClipboard.BrowserRemoteClipboard.RequestText | frontend/src/remote/browserRemote/clipboard.ts:78-118 | Begins a read under a new request id unless one is pending; a failed send leaves none. |
| RemoteClipboard.BrowserRemoteClipboard.ApplyFormatConfirm | frontend/src/remote/browserRemote/clipboard.ts:240-274 | The confirm of the pending read ends it, or sets the block count and finishes it if all is there; any other confirm is ignored. |
| RemoteClipboard.BrowserRemoteClipboard.ReceiveDataBlock | frontend/src/remote/browserRemote/clipboard.ts:276-340 | What the sender is told, and the state after a block is stored, refused or ignored; `receivedBytes` stays the sum of the block sizes. |
| RemoteClipboard.BrowserRemoteClipboard.SettleTimerFired | frontend/src/remote/browserRemote/clipboard.ts:335-339 | The timer tries to finish without a known count. |
| RemoteClipboard.BrowserRemoteClipboard.TryFinishRead | frontend/src/remote/browserRemote/clipboard.ts:372-382 | Finishes exactly when the ids 1 to the count are all there and no others. |
| RemoteClipboard.BrowserRemoteClipboard.FinishRead | frontend/src/remote/browserRemote/clipboard.ts:384-418 | Joins the blocks in id order into the buffer and delivers the decoded text, or ends the read when it is not text. |
| RemoteClipboard.BrowserRemoteClipboard.ClearPendingRead | frontend/src/remote/browserRemote/clipboard.ts:420-441 | Ends the pending read and nothing else, also when it expires. |
| RemoteClipboard.BrowserRemoteClipboard.ApplyNotification | frontend/src/remote/browserRemote/clipboard.ts:443-472 | A text is handed on exactly when its format is a text format and it differs from the last one. |
| RemoteClipboard.BrowserRemoteClipboard.SendTextNow | frontend/src/remote/browserRemote/clipboard.ts:193-209 | A sent text uses up a request id and becomes the last synchronized text unless sending throws. |
| RemoteClipboard.HandlersKeepAccount | frontend/src/remote/browserRemote/clipboard.ts:276-318 | Under any message, `receivedBytes` equals the sum of the stored block sizes and stays within the text limit. |
| RemoteClipboard.BlocksFitBuffer | frontend/src/remote/browserRemote/clipboard.ts:384-394 | The blocks never overrun the buffer allocated from `receivedBytes`. |
| RemoteClipboard.FinishOfCut | frontend/src/remote/browserRemote/clipboard.ts:372-418 | With blocks cut from a text, an attempt to finish delivers the prefix made of the blocks 1 to the count when exactly those are there, and changes nothing otherwise. |
| RemoteClipboard.OwnBlockStep | frontend/src/remote/browserRemote/clipboard.ts:276-340 | A block of the text, new or repeated, in any order, keeps the read waiting or delivers the whole text. |
| RemoteClipboard.OwnConfirmStep | frontend/src/remote/browserRemote/clipboard.ts:240-274 | So does the confirm, early, late or repeated. |
| RemoteClipboard.SettleStep | frontend/src/remote/browserRemote/clipboard.ts:335-339 | The settle timer ends a read on an incomplete text if and only if the count is unknown and the first blocks are there without a gap; it then delivers just those blocks. |
| RemoteClipboard.TruncationIsReached | frontend/src/remote/browserRemote/clipboard.ts:335-339 | For every text of more than one block, block 1 and then the timer end the read; the text of block 1 is delivered if and only if the cut splits no character and the text is not the last synchronized one, and otherwise nothing is. |
| RemoteClipboard.HonestStep | frontend/src/remote/browserRemote/clipboard.ts:240-340 | Every message of a transfer that does not truncate it, and every message about another read, keeps the progress of the read. |
| RemoteClipboard.WaitingStep | frontend/src/remote/browserRemote/clipboard.ts:240-472 | Whatever happens to a waiting read, it goes on waiting or is ended with nothing, a prefix or the whole text according to the cause. |
| RemoteClipboard.RunProgress | frontend/src/remote/browserRemote/clipboard.ts:240-472 | Over every sequence of messages one message at most ends the read, and after it only notifications and sent texts have an effect. |
| RemoteClipboard.ReadDeliversWholeText | frontend/src/remote/browserRemote/clipboard.ts:240-472 | In any arrival order, with duplicates, foreign messages, notifications, sent texts, cancelling and expiry, a read delivers nothing while it waits; it ends with the whole text without trailing NULs unless it is given up or truncated by the settle timer, and has ended once the confirm and all blocks are in. |
| RemoteClipboard.GivingUpEnds | frontend/src/remote/browserRemote/clipboard.ts:250-266 | A failed confirm, a count that is too high, an impossible block or a cancel ends a waiting read; nothing is delivered or remembered. |
| RemoteClipboard.PossibleConfirmIsTaken | frontend/src/remote/browserRemote/clipboard.ts:267-273 | A successful confirm with a possible count makes the count known, and ends the read exactly when its blocks are there. |
| RemoteClipboard.ShortLastBlockEnds | frontend/src/remote/browserRemote/clipboard.ts:328-333 | Without a confirm, a short last block ends the read with the whole text once all other blocks are there. |
| RemoteClipboard.PossibleBlockIsStored | frontend/src/remote/browserRemote/clipboard.ts:281-340 | Any possible block under the read's key is accepted and stored; a full one starts the settle timer. |
| RemoteClipboard.BlockIsAnswered | frontend/src/remote/browserRemote/clipboard.ts:281-300 | While a text is read the sender is told that a block is accepted exactly for the blocks of that text. |
| RemoteClipboard.RequestBeginsOneRead | frontend/src/remote/browserRemote/clipboard.ts:78-117 | A request begins a read under a new id, unless one is pending or it cannot be sent. |
| RemoteClipboard.OnlyNewTextsAreDelivered | frontend/src/remote/browserRemote/clipboard.ts:443-470 | Over any notifications and texts of our own, a notified text is delivered exactly when it is not the last one sent or notified. |
| RemoteClipboard.DeliveredOf | frontend/src/remote/browserRemote/clipboard.ts:384-418 | A finished read delivers its text exactly when it is well-formed and new. |
| RemoteClipboard.TrailingNulsGo | frontend/src/remote/browserRemote/clipboard.ts:475-479 | Exactly the trailing NULs of a text go. |
| RemoteInput.BrowserRemoteInput.ClearPendingPointerMoves | frontend/src/remote/browserRemote/input.ts:57-60 | Forgets the pending moves and sends nothing. |
| RemoteInput.BrowserRemoteInput.RequestMouseMove | frontend/src/remote/browserRemote/input.ts:69-97 | The exact state after a new move request, for every way the channel may answer. |
| RemoteInput.BrowserRemoteInput.SendMouseMove | frontend/src/remote/browserRemote/input.ts:69-97 | A critical move is tried at once, a move behind a pending critical one is held and flushed, any other is tried or held by the buffered amount; the recursion with the flush ends. |
| RemoteInput.BrowserRemoteInput.FlushPendingMouseMove | frontend/src/remote/browserRemote/input.ts:175-207 | The exact looks and attempts of a flush: with the channel open and below the threshold the critical move is tried, and once it is taken the held one. |
| RemoteInput.BrowserRemoteInput.FlushPendingCriticalMouseMove | frontend/src/remote/browserRemote/input.ts:209-214 | The critical move is tried exactly once and stays pending exactly when it is refused. |
| RemoteInput.BrowserRemoteInput.SendBehindCriticalMove | frontend/src/remote/browserRemote/input.ts:99-116 | A click or scroll is tried exactly when the pending critical move, if any, has been taken. |
| RemoteInput.BrowserRemoteInput.SendMouseButton | frontend/src/remote/browserRemote/input.ts:99-106 | The exact attempts, and the held buttons change exactly when the button event is taken. |
| RemoteInput.BrowserRemoteInput.SendMouseScroll | frontend/src/remote/browserRemote/input.ts:108-116 | The exact attempts of a scroll, the critical move first. |
| RemoteInput.BrowserRemoteInput.SendMouseClick | frontend/src/remote/browserRemote/input.ts:62-67 | A critical move, a press and a release are tried in this order up to the first refusal. |
| RemoteInput.BrowserRemoteInput.SendKeyboardInput | frontend/src/remote/browserRemote/input.ts:118-124 | The key's name on the wire is tried once, and the held keys change exactly when it is taken; a key without a name changes nothing. |
| RemoteInput.BrowserRemoteInput.SendTextInput | frontend/src/remote/browserRemote/input.ts:126-129 | Text is tried once unless it is empty. |
| RemoteInput.BrowserRemoteInput.ReleaseButton | frontend/src/remote/browserRemote/input.ts:135-142 | The release is tried once and the button stays held exactly when it is refused. |
| RemoteInput.BrowserRemoteInput.ReleaseKey | frontend/src/remote/browserRemote/input.ts:143-155 | The release, behind one more press for a modifier, is tried, and the key stays held exactly when something is refused. |
| RemoteInput.BrowserRemoteInput.ReleaseAll | frontend/src/remote/browserRemote/input.ts:131-156 | The loops over the held buttons and keys, in their order, compute the specified attempts and what stays held. |
| RemoteInput.BrowserRemoteInput.ReleaseOrphanModifiers | frontend/src/remote/browserRemote/input.ts:161-173 | The loop over the held keys computes the specified attempts and what stays held. |
| RemoteInput.CriticalFlushedInOrder | frontend/src/remote/browserRemote/input.ts:209-214 | Trying the critical move keeps sent moves in order and newer requests newer. |
| RemoteInput.MoveRequestedInOrder | frontend/src/remote/browserRemote/input.ts:69-97 | A move request keeps sent moves in the order of their requests, whatever is refused or held back. |
| RemoteInput.BehindCriticalInOrder | frontend/src/remote/browserRemote/input.ts:99-116 | A click or scroll that is sent comes after the latest critical move that was not cleared. |
| RemoteInput.StepKeepsOrder | frontend/src/remote/browserRemote/input.ts:57-214 | Every operation keeps the order of moves and the place of clicks and scrolls behind their critical moves. |
| RemoteInput.RunKeepsOrder | frontend/src/remote/browserRemote/input.ts:57-214 | The same over every run, under every channel. |
| RemoteInput.StepKeepsRecord | frontend/src/remote/browserRemote/input.ts:57-214 | Every operation keeps what was sent equal to what was tried and taken by the channel, in order. |
| RemoteInput.RunKeepsRecord | frontend/src/remote/browserRemote/input.ts:57-214 | The same over every run, under every channel. |
| RemoteInput.StepKeepsLatest | frontend/src/remote/browserRemote/input.ts:57-214 | Every operation keeps the latest move request tried or pending, unless pending moves are dropped. |
| RemoteInput.RunKeepsLatest | frontend/src/remote/browserRemote/input.ts:57-214 | The same over every run, under every channel. |
| RemoteInput.MoveIsTriedIff | frontend/src/remote/browserRemote/input.ts:69-97 | A critical move is tried at once; any other one, with no critical one before it, is tried at once if and only if the channel shows room, and is pending otherwise. |
| RemoteInput.FlushTriesIff | frontend/src/remote/browserRemote/input.ts:175-207 | Exactly when a flush tries the critical and the other pending move, by what the channel shows at each look, and what stays pending. |
| RemoteInput.ClearForgets | frontend/src/remote/browserRemote/input.ts:57-60 | A clear forgets both pending moves and tries nothing. |
| RemoteInput.IdleFlushTriesAll | frontend/src/remote/browserRemote/input.ts:175-207 | On an open channel with nothing buffered a flush tries the pending critical move and, once that is taken, the other pending one. |
| RemoteInput.IdleMoveTriesAll | frontend/src/remote/browserRemote/input.ts:69-97 | A move behind a pending critical one goes out with it on such a channel. |
| RemoteInput.BehindCriticalTries | frontend/src/remote/browserRemote/input.ts:99-116 | The exact attempts of a click or scroll: the critical move, and the message unless that is refused. |
| RemoteInput.InputIsTried | frontend/src/remote/browserRemote/input.ts:99-129 | Every button, key, scroll and text is tried, and what is held changes exactly when it is taken. |
| RemoteInput.RunKeepsPressed | frontend/src/remote/browserRemote/input.ts:57-214 | Over every run nothing is held whose press the channel did not take. |
| RemoteInput.ButtonCoveredAfter | frontend/src/remote/browserRemote/input.ts:99-106 | A button event and the change of the held buttons keep the remote side within the local one. |
| RemoteInput.KeyCoveredAfter | frontend/src/remote/browserRemote/input.ts:118-124 | So do a key event and the change of the held keys. |
| RemoteInput.PressedAfter | frontend/src/remote/browserRemote/input.ts:99-124 | How one more message changes what the remote side holds down. |
| RemoteInput.StepKeepsCover | frontend/src/remote/browserRemote/input.ts:57-214 | Every operation keeps what the remote side holds down within what is held locally. |
| RemoteInput.RunKeepsCover | frontend/src/remote/browserRemote/input.ts:57-214 | The same over every run, under every channel. |
| RemoteInput.InputOverRuns | frontend/src/remote/browserRemote/input.ts:57-214 | From a new object on, under every channel: sent request numbers strictly increase, clicks and scrolls stand behind their critical moves, what is pressed remotely is held locally and what is held was pressed, what was sent is exactly what was tried and taken, and the latest move request is tried or pending. |
| RemoteInput.ButtonsReleasedExactly | frontend/src/remote/browserRemote/input.ts:135-142 | Every held button is tried once, in order, and stays held if and only if its own attempt is refused. |
| RemoteInput.KeysReleasedExactly | frontend/src/remote/browserRemote/input.ts:143-155 | Every held key has its turn, in order, and stays held if and only if something tried in its own turn is refused. |
| RemoteInput.TurnHasTries | frontend/src/remote/browserRemote/input.ts:143-155 | At a key's turn stand its release, behind a press for a modifier, and nothing else. |
| RemoteInput.ReleaseAllExactly | frontend/src/remote/browserRemote/input.ts:131-156 | `releaseAll` tries exactly that for every held button and key and nothing more; an entry stays held if and only if something in its own turn was refused. |
| RemoteInput.ReleaseAllEmptiesIff | frontend/src/remote/browserRemote/input.ts:131-156 | Nothing stays held if and only if nothing was refused, and then the remote side holds nothing down. |
| RemoteInput.OrphansReleasedExactly | frontend/src/remote/browserRemote/input.ts:161-173 | Exactly the held modifiers reported as up are tried, once each in order, and each stays held if and only if its own attempt is refused. |
| RemoteInput.ModifiersHaveFamilies | frontend/src/remote/browserRemote/input.ts:161-173 | The orphans are exactly the modifiers whose family is not reported as down. |
| RemoteInput.ClickIsThree | frontend/src/remote/browserRemote/input.ts:62-67 | A complete click sends exactly the move, the press and the release, and the button is not held afterwards. |
| RemoteInput.ReleaseUnderOtherPlatform | frontend/src/remote/browserRemote/input.ts:227-232 | Were the target platform to change while a key is held, the key's release would leave it down uncovered exactly when the new name differs and nothing else held has the old one. |
| CandidateQueue.BrowserRemoteSession.ApplySignalEvents | frontend/src/remote/browserRemoteSession.ts:562-595 | The loop over events, with its early exits, computes the specified state and tells whether it threw. |
| CandidateQueue.BrowserRemoteSession.ApplySoac | frontend/src/remote/browserRemoteSession.ts:568-577 | The payloads of one event are applied in order up to the first that throws. |
| CandidateQueue.BrowserRemoteSession.ApplySoacPayload | frontend/src/remote/browserRemoteSession.ts:629-713 | An accepted answer empties the queue into the peer; a candidate is queued before it and given to the peer after it. |
| CandidateQueue.BrowserRemoteSession.FlushQueuedCandidates | frontend/src/remote/browserRemoteSession.ts:771-787 | The queue is emptied first, then its candidates are added up to the first refusal. |
| CandidateQueue.PayloadsOutcome | frontend/src/remote/browserRemoteSession.ts:629-713 | Payloads throw exactly when a candidate is refused; what was queued and then what they announce has been applied up to the first refusal, or is all queued. |
| CandidateQueue.EventsOutcome | frontend/src/remote/browserRemoteSession.ts:562-595 | The same for one call, under any peer: it throws exactly when a candidate is refused or a new offer is not sent, and without a refusal exactly the handled events are marked. |
| CandidateQueue.CallsOutcome | frontend/src/controllers/useSignalGatewayController.ts:60-87 | The invariant holds over calls that go on after one that threw; with no candidate refused they come to one stretch and mark exactly the handled events. |
| CandidateQueue.BatchesAreOne | frontend/src/remote/browserRemoteSession.ts:562-595 | One call with all the events of several calls returns if and only if none of those calls throws, and then leaves the same state. |
| CandidateQueue.EveryCandidateOnceIff | frontend/src/remote/browserRemoteSession.ts:562-787 | From the offer on, over any calls, re-deliveries and calls that throw: the calls handle no event twice, and the candidates of the handled events are applied or queued once and in order if and only if the peer accepts them all or no answer is accepted; none is queued once there is a remote description. |
| CandidateQueue.HandledAndBehind | frontend/src/remote/browserRemoteSession.ts:562-587 | A call with new events handles all they announce but what stands behind a new offer that is not sent. |
| CandidateQueue.PolledCandidatesIff | frontend/src/controllers/useSignalGatewayController.ts:49-87 | With a caller that delivers each event once, every incoming candidate is applied or queued once and in order if and only if none stands behind a new offer that is not sent and, once an answer is accepted, the peer accepts them all. |
| CandidateQueue.FlushLosesFromFirstRefusal | frontend/src/remote/browserRemoteSession.ts:771-787 | A flush applies the candidates before the first one the peer refuses and throws, or applies all. |
| CandidateQueue.AnswerKeepsQueueIff | frontend/src/remote/browserRemoteSession.ts:656-682 | An accepted answer loses no queued candidate if and only if the peer accepts them all, and throws exactly otherwise. |
| CandidateQueue.AnswerUsesOffer | frontend/src/remote/browserRemoteSession.ts:638-681 | An answer counts exactly when an offer is out and it is in scope, not empty and accepted by the peer; it uses the offer up, and any other answer changes nothing. |
| CandidateQueue.OfferIsOut | frontend/src/remote/browserRemoteSession.ts:578-587 | A new offer is out as soon as it is set, also where sending it throws, and its event is marked only when it is sent. |
| CandidateQueue.LossIsReached | frontend/src/remote/browserRemoteSession.ts:656-682 | A refused candidate that came before the answer is gone after it, with the one behind it. |
| CandidateQueue.RedeliveryIff | frontend/src/remote/browserRemoteSession.ts:562-577 | Of an event's candidates some are applied by both of two deliveries if and only if the first one threw, the peer accepts all that was queued before it, and it accepts the event's first candidate; also which candidates each delivery applies and when each throws. |
| CandidateQueue.RedeliveryDuplicates | frontend/src/remote/browserRemoteSession.ts:562-577 | With a candidate accepted and the next one refused, the first is applied by each of two deliveries. |
| CandidateQueue.MissIsReached | frontend/src/remote/browserRemoteSession.ts:578-587 | A candidate behind a new offer that is not sent never reaches the peer. |
| RemoteSdp.ApplyOpusReceiverPreferencesToSdp | frontend/src/remote/remoteSdp.ts:11-26 | The section loop computes the rewriting of all sections between the first line separator. |
| RemoteSdp.RewriteMediaSection | frontend/src/remote/remoteSdp.ts:28-58 | The rewriting of one section; a section that is not audio is returned as it is. |
| RemoteSdp.CollectOpusPayloads | frontend/src/remote/remoteSdp.ts:31-37 | The first loop finds the offered opus payload types in the order of their rtpmap lines. |
| RemoteSdp.PreferAll | frontend/src/remote/remoteSdp.ts:41-57 | The second loop applies the preferences for each of them in turn. |
| RemoteSdp.PreferOpus | frontend/src/remote/remoteSdp.ts:42-55 | Rewrites the first fmtp line of a payload type, or inserts one after its rtpmap line. |
| RemoteSdp.MergeIdempotent | frontend/src/remote/remoteSdp.ts:60-72 | Merging twice is merging once, and loses no other parameter. |
| RemoteSdp.FmtpLineReads | frontend/src/remote/remoteSdp.ts:43-47 | A written fmtp line is found again as that payload's line with the merged parameters. |
| RemoteSdp.FmtpOfOnePayload | frontend/src/remote/remoteSdp.ts:43-44 | No line is the fmtp line of two payload types. |
| RemoteSdp.AllFmtpLines | frontend/src/remote/remoteSdp.ts:41-57 | After the rewrite the listed payload types have their preferred fmtp lines and every other payload type has its old ones. |
| RemoteSdp.AllKeepOthers | frontend/src/remote/remoteSdp.ts:41-57 | All lines that are not fmtp lines of a listed payload type stay, in order. |
| RemoteSdp.SectionIdempotent | frontend/src/remote/remoteSdp.ts:28-58 | Rewriting a section twice is rewriting it once; it stays one section with the same first line and payload types. |
| RemoteSdp.SectionRewritten | frontend/src/remote/remoteSdp.ts:28-58 | Sections that are not audio stay unchanged; in an audio section only the first fmtp line of each offered opus payload type changes or appears. |
| RemoteSdp.PreferredLineSays | frontend/src/remote/remoteSdp.ts:60-72 | That line reads as the five required parameters followed by its other parameters in their old order. |
| RemoteSdp.SectionsRewritten | frontend/src/remote/remoteSdp.ts:19-23 | Sections are neither split, merged, dropped nor reordered. |
| RemoteSdp.SplitJoinedLines | frontend/src/remote/remoteSdp.ts:14-25 | Lines joined with one of the three separators split into the same lines at that separator. |
| RemoteSdp.LinesOfResult | frontend/src/remote/remoteSdp.ts:14-25 | The lines of the result are the rewritten lines of the input. |
| RemoteSdp.ApplyIdempotent | frontend/src/remote/remoteSdp.ts:11-26 | Applying the rewrite twice is applying it once, for every description. |
| RemoteSdp.RtpmapIsRecognised | frontend/src/remote/remoteSdp.ts:34-37 | Every line of the form `a=rtpmap:`, number, white space, `opus/48000/2` in any case, white space is recognised for its number. |
| RemoteSdp.OnlyRtpmapIsRecognised | frontend/src/remote/remoteSdp.ts:34-37 | Nothing else is. |
| RemoteSdp.FmtpIsRecognised | frontend/src/remote/remoteSdp.ts:43-46 | Every line of the form `a=fmtp:` and the payload type, alone or with white space and a text, is recognised with that text. |
| RemoteSdp.OnlyFmtpIsRecognised | frontend/src/remote/remoteSdp.ts:43-46 | Nothing else is. |
| RemoteSdp.MediaIff | frontend/src/remote/remoteSdp.ts:20 | A section begins at every line that starts with `m=`. |
| RemoteSdp.AudioIff | frontend/src/remote/remoteSdp.ts:29 | A section is audio exactly when its first line begins with `m=audio` in any case, alone or before white space. |
| RemoteSdp.OfferedAre | frontend/src/remote/remoteSdp.ts:31 | The offered payload types are all words of the media line behind kind, port and protocol. |
| RemoteSdp.OpusPayloadsIff | frontend/src/remote/remoteSdp.ts:34-37 | A payload type is rewritten exactly when it is offered and has such an rtpmap line. |
| RemoteSdp.PreservedIff | frontend/src/remote/remoteSdp.ts:60-70 | A parameter stays exactly when it is not empty and its name, trimmed and in lower case, is none of the five. |
| RemoteSdp.TrimIs | frontend/src/remote/remoteSdp.ts:63 | Only white space at both ends goes when a parameter is trimmed. |
| RemoteSdp.SplitKeepsAll | frontend/src/remote/remoteSdp.ts:62 | Splitting the parameters loses nothing. |
| RemoteSdp.ReceiverParametersAre | frontend/src/remote/remoteSdp.ts:1-7 | The five required parameters, spelled out. |
| RemoteSdp.PreferencesReplace | frontend/src/remote/remoteSdp.ts:44-49 | The preferences stand in place of the first fmtp line, and every other line stays where it is. |
| RemoteSdp.PreferencesFollow | frontend/src/remote/remoteSdp.ts:51-55 | Without an fmtp line they stand directly behind the first rtpmap line. |
| RemoteSdp.OfferedOpusIsPreferred | frontend/src/remote/remoteSdp.ts:28-58 | Where an audio section offers a payload type as opus, its first fmtp line afterwards says the five parameters and then those it had. |

## Left out

- Storage, timers, fetch, the transport and the SQL engine: their answers are parameters or events of the models.
- Status fields other than the kind, raw headers, connection ids, debug records and log output: no property depends on them.
- In `SignalSession` and `SignalGateway` a logged event is its generation, time and size; names, payloads and ids are in `SignalEventLog`, as is the pruning when the log is read.
- In `SignalGateway` whether the join context names a device is an event parameter, the two reads of the room configuration and the join context are one wait, and links behave as backend/src/services/socketIoSignalGatewayConnector.ts:20-68 makes them behave; its acknowledgement table is not modelled.
- SignalEventLog.SignalEvents.Record: after the clock has gone back only the step and the bounds are promised, not the longest fit of the whole history, until the next clear.
- ClipboardWire.EncodeClipboardRpcEnvelope: does not model the refusal of unsafe JavaScript numbers, only of values outside int64, because the model's numbers are exact.
- ClipboardV3.EncodeTextChangeRequest: texts are given as UTF-8 bytes, so the replacement of lone surrogates by the text encoder is not modelled.
- Version 4 data blocks and format confirms are only ever received; the repository has no encoder for them, so a peer's message is any list of fields of the schema.
- ControlChannel.DecodeStreamerControlMessage: doubles are kept as their eight bytes, and the names of action, capture and ROM types are left out.
- ControlChannel.SequenceTextRoundTripIff: reads texts of the encoder's form `{"seq":N}` only, not JSON in general.
- ControlChannel.EchoRoundTrip: feature flags are safe integers of either sign; fractions, which make the writer throw, are left out.
- The replacement characters that a lenient text decoder puts for invalid UTF-8 are not computed (`Replaced`).
- The nested connect-options encoder around `Base64.EncodeBase64`: more of the same writer.
- SocketIoWire.ParseEncoded: JSON text is any printer and parser that invert each other on values whose records list their properties as objects do; acknowledgement ids are exact integers, so the rounding of ids above 2^53 is not modelled, nor is a number with a fraction.
- WorkerSignalSocket.WorkerSignalSocket.HandleFrame: the timer of the heartbeat and the connection id of the open packet are left out.
- RemoteClipboard.BrowserRemoteClipboard.ReceiveDataBlock: a block with id 0 makes the confirm encoder throw before anything changes, and so it leaves the state as it was.
- The pending clipboard read is a value that is reassigned, so the checks that it is still the same object become checks that there is one; its expiry is `ClearPendingRead`. A later read is a run of its own, and the promise queue in front of outgoing texts is left out.
- RemoteInput.BrowserRemoteInput.SendMouseMove: positions are reduced to the number of their request, and the channel's callbacks do not call back into the object.
- The target platform is fixed for an input object: the application makes a new session object for every start, and closing one clears the platform only after `releaseAll` (frontend/src/remote/browserRemoteSession.ts:191-222). `reset`, which forgets what is held once the channel is closed, is a new object.
- CandidateQueue.EveryCandidateOnceIff: one session lifecycle (so no wait during which the session is closed), calls one after the other, and a peer whose refusals depend on the candidate only.
- RemoteSdp.ApplyIdempotent: case folding is that of ASCII, so a name with a letter such as the Kelvin sign, which folds to an ASCII letter, is not recognised in the model.
- React components, routing, proxying, WebRTC, DNS, media geometry and session labels.
