/** Clipboard text messages, version 3 (shared/src/streamer/clipboardV3.ts). Texts are their UTF-8 bytes. */
module ClipboardV3 {
  import opened Wrappers
  import opened ProtobufWire
  import opened Utf8
  import opened ClipboardWire

  const TEXT_CHANGE_REQUEST_TAG := 10
  const TEXT_CHANGE_RESPONSE_TAG := 6
  const FORMAT_ID_TAG := 1
  const TEXT_TAG := 2
  const RESULT_TAG := 1

  datatype Message =
    | TextChangeRequest(metadata: Metadata, formatId: nat, text: seq<byte>)
    | TextChangeResponse(metadata: Metadata, result: nat)

  function BodyItems(formatId: nat, text: seq<byte>): seq<Item> {
    UnlessZero(FORMAT_ID_TAG, formatId) + UnlessEmpty(TEXT_TAG, text)
  }

  function Encode(metadata: Metadata, formatId: int, text: seq<byte>): Result<seq<byte>, EncodeError> {
    if !IsInt32(formatId) then Failure(OutOfRange("formatId"))
    else if |text| > MAX_TEXT_BYTES then Failure(TextTooLong)
    else EncodeEnvelope(metadata, RPC_REQUEST_TAG, TEXT_CHANGE_REQUEST_TAG, ItemsBytes(BodyItems(formatId, text)))
  }

  method EncodeTextChangeRequest(metadata: Metadata, formatId: int, text: seq<byte>)
    returns (r: Result<seq<byte>, EncodeError>)
    ensures r == Encode(metadata, formatId, text)
  {
    if !IsInt32(formatId) { return Failure(OutOfRange("formatId")); }
    if |text| > MAX_TEXT_BYTES { return Failure(TextTooLong); }
    hide ItemsBytes, EncodeEnvelope;
    NothingToWrite();
    var body := new ByteBuffer();
    PushUnlessZero(body, FORMAT_ID_TAG, formatId);
    if text != [] {
      PushMessage(body, TEXT_TAG, text);
    }
    ghost var format, message := UnlessZero(FORMAT_ID_TAG, formatId), UnlessEmpty(TEXT_TAG, text);
    ItemsBytesAppend(format, message);
    assert body.bytes == ItemsBytes(format) + ItemsBytes(message);
    assert body.bytes == ItemsBytes(BodyItems(formatId, text));
    r := EncodeClipboardRpcEnvelope(metadata, RPC_REQUEST_TAG, TEXT_CHANGE_REQUEST_TAG, body.bytes);
  }

  function Decode(bytes: seq<byte>): Option<Message> {
    match DecodeEnvelope(bytes)
    case None => None
    case Some(envelope) =>
      var items, requestId := ReadClipboardItems(envelope.rpcBytes), DecodeRequestId(envelope.rpcBytes);
      if items.None? || requestId.None? then None
      else
        var metadata := Metadata(envelope.sequence, envelope.timestampMs, requestId.value);
        if envelope.rpcTag == RPC_REQUEST_TAG then
          match ReadSingleMessage(items.value, TEXT_CHANGE_REQUEST_TAG)
          case None => None
          case Some(body) => DecodeRequest(body, metadata)
        else
          match ReadSingleMessage(items.value, TEXT_CHANGE_RESPONSE_TAG)
          case None => None
          case Some(body) => DecodeResponse(body, metadata)
  }

  function DecodeRequest(body: seq<byte>, metadata: Metadata): Option<Message> {
    match ReadClipboardItems(body)
    case None => None
    case Some(items) =>
      var formatId, text := ReadInt32(items, FORMAT_ID_TAG), ReadText(items, TEXT_TAG);
      if formatId.None? || text.None? then None else Some(TextChangeRequest(metadata, formatId.value, text.value))
  }

  function DecodeResponse(body: seq<byte>, metadata: Metadata): Option<Message> {
    match ReadClipboardItems(body)
    case None => None
    case Some(items) =>
      match ReadInt32(items, RESULT_TAG)
      case None => None
      case Some(result) => Some(TextChangeResponse(metadata, result))
  }

  lemma BodySize(formatId: nat, text: seq<byte>)
    requires IsInt32(formatId) && |text| <= MAX_TEXT_BYTES
    ensures |text| <= |ItemsBytes(BodyItems(formatId, text))| <= |text| + 10
  {
    hide ItemsBytes;
    PowersOf128();
    NumberItemSize(FORMAT_ID_TAG, formatId, 5);
    MessageItemSize(TEXT_TAG, text);
    ItemsBytesAppend(UnlessZero(FORMAT_ID_TAG, formatId), UnlessEmpty(TEXT_TAG, text));
    if text == [] {
      assert UnlessEmpty(TEXT_TAG, text) == [];
      NothingToWrite();
    }
  }

  /** The 256 bytes kept free for the envelope are enough: the only failures are the argument checks. */
  lemma EncodeNeverOverflows(metadata: Metadata, formatId: int, text: seq<byte>)
    ensures Encode(metadata, formatId, text).Success? <==>
              InRange(metadata) && IsInt32(formatId) && |text| <= MAX_TEXT_BYTES
    ensures Encode(metadata, formatId, text) != Failure(MessageTooLong)
  {
    hide ItemsBytes;
    if InRange(metadata) && IsInt32(formatId) && |text| <= MAX_TEXT_BYTES {
      BodySize(formatId, text);
      EnvelopeOverhead(metadata, RPC_REQUEST_TAG, TEXT_CHANGE_REQUEST_TAG, ItemsBytes(BodyItems(formatId, text)));
    }
  }

  lemma DecodeRequestBody(metadata: Metadata, formatId: nat, text: seq<byte>)
    requires IsInt32(formatId) && |text| <= MAX_TEXT_BYTES && ValidUtf8(text)
    ensures DecodeRequest(ItemsBytes(BodyItems(formatId, text)), metadata) ==
            Some(TextChangeRequest(metadata, formatId, DroppedByteOrderMark(text)))
  {
    hide ItemsBytes, ReadInt32, ReadBytes, ReadItems, DroppedByteOrderMark, ValidUtf8, WithTag;
    var format, textItem := UnlessZero(FORMAT_ID_TAG, formatId), UnlessEmpty(TEXT_TAG, text);
    var items := BodyItems(formatId, text);
    assert items == format + textItem + [];
    WithTagOfThree(format, textItem, [], FORMAT_ID_TAG, TEXT_TAG, 0);
    ReadWrittenItems(items, LIMITS, true);
    ReadBackNumber(items, FORMAT_ID_TAG, formatId);
    ReadBackBytes(items, TEXT_TAG, text);
  }

  /** Decoding an encoded request gives the request back, with the text a UTF-8 decoder makes of its bytes. */
  lemma DecodeEncoded(metadata: Metadata, formatId: int, text: seq<byte>)
    requires InRange(metadata) && IsInt32(formatId) && |text| <= MAX_TEXT_BYTES && ValidUtf8(text)
    ensures var r := Encode(metadata, formatId, text);
            r.Success? && Decode(r.value) == Some(TextChangeRequest(metadata, formatId, DroppedByteOrderMark(text)))
  {
    hide ItemsBytes, DecodeRequest, DecodeEnvelope, DecodeRequestId, ReadItems, BodyItems;
    EncodeNeverOverflows(metadata, formatId, text);
    var body := ItemsBytes(BodyItems(formatId, text));
    EnvelopeRoundTrip(metadata, RPC_REQUEST_TAG, TEXT_CHANGE_REQUEST_TAG, body);
    RpcSelection(metadata.requestId, TEXT_CHANGE_REQUEST_TAG, body);
    DecodeRequestBody(metadata, formatId, text);
  }

  /** The text survives exactly when it does not begin with a byte order mark, which the decoder drops. */
  lemma TextRoundTripIff(metadata: Metadata, formatId: int, text: seq<byte>)
    requires InRange(metadata) && IsInt32(formatId) && |text| <= MAX_TEXT_BYTES && ValidUtf8(text)
    ensures var r := Encode(metadata, formatId, text);
            r.Success? &&
            (Decode(r.value) == Some(TextChangeRequest(metadata, formatId, text)) <==> !StartsWithByteOrderMark(text))
  {
    DecodeEncoded(metadata, formatId, text);
  }

  // ---------------------------------------------------------------- messages of a peer

  /** The body of a peer's request or response: any fields in any order, within the limits of the envelope. */
  ghost predicate PeerBody(metadata: Metadata, request: bool, items: seq<Item>) {
    && |items| <= MAX_FIELDS && (forall item <- items :: WellFormed(item))
    && PeerMessage(metadata, request, items).Success?
  }

  function PeerMessage(metadata: Metadata, request: bool, items: seq<Item>): Result<seq<byte>, EncodeError> {
    EncodeEnvelope(metadata, if request then RPC_REQUEST_TAG else RPC_RESPONSE_TAG,
                   if request then TEXT_CHANGE_REQUEST_TAG else TEXT_CHANGE_RESPONSE_TAG, ItemsBytes(items))
  }

  lemma PeerBodyArrives(metadata: Metadata, request: bool, items: seq<Item>)
    requires PeerBody(metadata, request, items)
    ensures InRange(metadata) && ReadClipboardItems(ItemsBytes(items)) == Some(items)
    ensures Decode(PeerMessage(metadata, request, items).value) ==
            if request then DecodeRequest(ItemsBytes(items), metadata) else DecodeResponse(ItemsBytes(items), metadata)
  {
    hide ItemsBytes, DecodeResponse, DecodeRequest, DecodeEnvelope, DecodeRequestId, ReadItems;
    var rpcTag := if request then RPC_REQUEST_TAG else RPC_RESPONSE_TAG;
    var bodyTag := if request then TEXT_CHANGE_REQUEST_TAG else TEXT_CHANGE_RESPONSE_TAG;
    EnvelopeRoundTrip(metadata, rpcTag, bodyTag, ItemsBytes(items));
    RpcSelection(metadata.requestId, bodyTag, ItemsBytes(items));
    BodyReadsBack(items);
  }

  /** A notification from any peer arrives exactly as its fields say: the format under 1 and the text under 2. */
  lemma NotificationArrivesIff(metadata: Metadata, items: seq<Item>, m: Message)
    requires PeerBody(metadata, true, items)
    ensures Decode(PeerMessage(metadata, true, items).value) == Some(m) <==>
            && m.TextChangeRequest? && m.metadata == metadata
            && SaysNumber(items, 1, m.formatId) && SaysText(items, 2, m.text)
  {
    hide ItemsBytes, ReadClipboardItems, ReadInt32, ReadText, SaysNumber, SaysText, Decode, PeerMessage;
    PeerBodyArrives(metadata, true, items);
    ReadsWhatIsSaid(items, 1);
    ReadsWhatIsSaid(items, 2);
  }

  /** So does a response: its result under 1. */
  lemma ResponseArrivesIff(metadata: Metadata, items: seq<Item>, m: Message)
    requires PeerBody(metadata, false, items)
    ensures Decode(PeerMessage(metadata, false, items).value) == Some(m) <==>
            m.TextChangeResponse? && m.metadata == metadata && SaysNumber(items, 1, m.result)
  {
    hide ItemsBytes, ReadClipboardItems, ReadInt32, ReadText, SaysNumber, SaysText, Decode, PeerMessage;
    PeerBodyArrives(metadata, false, items);
    ReadsWhatIsSaid(items, 1);
  }
}
