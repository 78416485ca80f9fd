/** Clipboard block transfer messages, version 4 (shared/src/streamer/clipboardV4.ts). */
module ClipboardV4 {
  import opened Wrappers
  import opened ProtobufWire
  import opened Utf8
  import opened ClipboardWire

  const CLIP_REQUEST_TAG := 9
  const CLIP_RESPONSE_TAG := 5
  const FORMAT_DATA_ASK_TAG := 2
  const DATA_BLOCK_TAG := 3
  const FORMAT_DATA_CONFIRM_TAG := 2
  const DATA_BLOCK_CONFIRM_TAG := 3

  datatype Message =
    | FormatDataConfirm(metadata: Metadata, blockKey: seq<byte>, blockCount: nat, result: nat)
    | DataBlockRequest(metadata: Metadata, blockKey: seq<byte>, blockId: nat, data: seq<byte>)
    | DataBlockConfirm(metadata: Metadata, blockKey: seq<byte>, blockId: nat, result: nat)

  // ---------------------------------------------------------------- writing

  function FormatDataAskItems(blockKey: seq<byte>, formatId: nat, formatName: seq<byte>): seq<Item> {
    UnlessZero(1, formatId) + [BytesItem(2, blockKey)] + UnlessEmpty(3, formatName)
  }

  function DataBlockConfirmItems(blockKey: seq<byte>, blockId: nat, result: nat): seq<Item> {
    [BytesItem(1, blockKey)] + [VarintItem(2, blockId)] + UnlessZero(3, result)
  }

  function EncodeMessage(metadata: Metadata, request: bool, bodyTag: nat, body: seq<Item>)
    : Result<seq<byte>, EncodeError>
  {
    EncodeEnvelope(metadata,
                   if request then RPC_REQUEST_TAG else RPC_RESPONSE_TAG,
                   if request then CLIP_REQUEST_TAG else CLIP_RESPONSE_TAG,
                   ItemsBytes([BytesItem(bodyTag, ItemsBytes(body))]))
  }

  function EncodeFormatDataAsk(metadata: Metadata, blockKey: seq<byte>, formatId: int, formatName: seq<byte>)
    : Result<seq<byte>, EncodeError>
  {
    if !IsInt32(formatId) then Failure(OutOfRange("formatId"))
    else if blockKey == [] then Failure(EmptyBlockKey)
    else EncodeMessage(metadata, true, FORMAT_DATA_ASK_TAG, FormatDataAskItems(blockKey, formatId, formatName))
  }

  function EncodeDataBlockConfirm(metadata: Metadata, blockKey: seq<byte>, blockId: int, result: int)
    : Result<seq<byte>, EncodeError>
  {
    if !IsInt32(blockId) || blockId == 0 then Failure(OutOfRange("blockId"))
    else if !IsInt32(result) then Failure(OutOfRange("result"))
    else if blockKey == [] then Failure(EmptyBlockKey)
    else EncodeMessage(metadata, false, DATA_BLOCK_CONFIRM_TAG, DataBlockConfirmItems(blockKey, blockId, result))
  }

  method EncodeV4Envelope(metadata: Metadata, request: bool, bodyTag: nat, body: seq<byte>, ghost items: seq<Item>)
    returns (r: Result<seq<byte>, EncodeError>)
    requires bodyTag < TWO_TO_THE_28 && body == ItemsBytes(items)
    ensures r == EncodeMessage(metadata, request, bodyTag, items)
  {
    var clipboard := new ByteBuffer();
    PushMessage(clipboard, bodyTag, body);
    assert clipboard.bytes == ItemsBytes([BytesItem(bodyTag, body)]);
    r := EncodeClipboardRpcEnvelope(metadata,
                                    if request then RPC_REQUEST_TAG else RPC_RESPONSE_TAG,
                                    if request then CLIP_REQUEST_TAG else CLIP_RESPONSE_TAG,
                                    clipboard.bytes);
  }

  method EncodeFormatDataAskRequest(metadata: Metadata, blockKey: seq<byte>, formatId: int, formatName: seq<byte>)
    returns (r: Result<seq<byte>, EncodeError>)
    ensures r == EncodeFormatDataAsk(metadata, blockKey, formatId, formatName)
  {
    hide ItemsBytes;
    if !IsInt32(formatId) { return Failure(OutOfRange("formatId")); }
    if blockKey == [] { return Failure(EmptyBlockKey); }
    var body := new ByteBuffer();
    PushUnlessZero(body, 1, formatId);
    PushMessage(body, 2, blockKey);
    if formatName != [] {
      PushMessage(body, 3, formatName);
    }
    ghost var format, key, name := UnlessZero(1, formatId), [BytesItem(2, blockKey)], UnlessEmpty(3, formatName);
    ItemsBytesAppend(format, key);
    ItemsBytesAppend(format + key, name);
    NothingToWrite();
    assert body.bytes == ItemsBytes(FormatDataAskItems(blockKey, formatId, formatName));
    r := EncodeV4Envelope(metadata, true, FORMAT_DATA_ASK_TAG, body.bytes,
                          FormatDataAskItems(blockKey, formatId, formatName));
  }

  method EncodeDataBlockConfirmResponse(metadata: Metadata, blockKey: seq<byte>, blockId: int, result: int)
    returns (r: Result<seq<byte>, EncodeError>)
    ensures r == EncodeDataBlockConfirm(metadata, blockKey, blockId, result)
  {
    hide ItemsBytes;
    if !IsInt32(blockId) || blockId == 0 { return Failure(OutOfRange("blockId")); }
    if !IsInt32(result) { return Failure(OutOfRange("result")); }
    if blockKey == [] { return Failure(EmptyBlockKey); }
    var body := new ByteBuffer();
    PushMessage(body, 1, blockKey);
    PushUnlessZero(body, 2, blockId);
    PushUnlessZero(body, 3, result);
    ghost var key, id, code := [BytesItem(1, blockKey)], [VarintItem(2, blockId)], UnlessZero(3, result);
    ItemsBytesAppend(key, id);
    ItemsBytesAppend(key + id, code);
    assert body.bytes == ItemsBytes(DataBlockConfirmItems(blockKey, blockId, result));
    r := EncodeV4Envelope(metadata, false, DATA_BLOCK_CONFIRM_TAG, body.bytes,
                          DataBlockConfirmItems(blockKey, blockId, result));
  }

  // ---------------------------------------------------------------- reading

  function Decode(bytes: seq<byte>): Option<Message> {
    match DecodeEnvelope(bytes)
    case None => None
    case Some(envelope) =>
      var items, requestId := ReadClipboardItems(envelope.rpcBytes), DecodeRequestId(envelope.rpcBytes);
      if items.None? || requestId.None? then None
      else
        var request := envelope.rpcTag == RPC_REQUEST_TAG;
        match ReadSingleMessage(items.value, if request then CLIP_REQUEST_TAG else CLIP_RESPONSE_TAG)
        case None => None
        case Some(clip) =>
          var metadata := Metadata(envelope.sequence, envelope.timestampMs, requestId.value);
          if request then DecodeRequest(clip, metadata) else DecodeResponse(clip, metadata)
  }

  /** The fields of the one submessage that carries the given tag. */
  function ReadBody(bytes: seq<byte>, tag: nat): Option<seq<Item>> {
    match ReadClipboardItems(bytes)
    case None => None
    case Some(items) =>
      match ReadSingleMessage(items, tag)
      case None => None
      case Some(body) => ReadClipboardItems(body)
  }

  function DecodeRequest(bytes: seq<byte>, metadata: Metadata): Option<Message> {
    match ReadBody(bytes, DATA_BLOCK_TAG)
    case None => None
    case Some(items) =>
      var blockKey, blockId, data := ReadText(items, 1), ReadInt32(items, 2), ReadBytes(items, 3);
      if blockKey.None? || blockKey.value == [] || blockId.None? || data.None? then None
      else Some(DataBlockRequest(metadata, blockKey.value, blockId.value, data.value))
  }

  function Supported(items: seq<Item>): (r: seq<Item>)
    ensures forall item <- r :: item.tag == FORMAT_DATA_CONFIRM_TAG || item.tag == DATA_BLOCK_CONFIRM_TAG
  {
    if items == [] then []
    else if items[0].tag == FORMAT_DATA_CONFIRM_TAG || items[0].tag == DATA_BLOCK_CONFIRM_TAG
    then [items[0]] + Supported(items[1..])
    else Supported(items[1..])
  }

  function DecodeResponse(bytes: seq<byte>, metadata: Metadata): Option<Message> {
    match ReadClipboardItems(bytes)
    case None => None
    case Some(outer) =>
      var supported := Supported(outer);
      if |supported| != 1 then None
      else
        match ReadBody(bytes, supported[0].tag)
        case None => None
        case Some(items) =>
          if supported[0].tag == FORMAT_DATA_CONFIRM_TAG then
            var blockKey, result, blockCount := ReadText(items, 2), ReadInt32(items, 1), ReadInt32(items, 3);
            if blockKey.None? || blockKey.value == [] || result.None? || blockCount.None? then None
            else Some(FormatDataConfirm(metadata, blockKey.value, blockCount.value, result.value))
          else
            var blockKey, result, blockId := ReadText(items, 1), ReadInt32(items, 3), ReadInt32(items, 2);
            if blockKey.None? || blockKey.value == [] || result.None? || blockId.None? then None
            else Some(DataBlockConfirm(metadata, blockKey.value, blockId.value, result.value))
  }

  // ---------------------------------------------------------------- block confirms

  predicate ValidConfirm(metadata: Metadata, blockKey: seq<byte>, blockId: int, result: int) {
    InRange(metadata) && IsInt32(blockId) && blockId > 0 && IsInt32(result) && blockKey != []
  }

  lemma ConfirmBodySize(blockKey: seq<byte>, blockId: nat, result: nat)
    requires IsInt32(blockId) && blockId > 0 && IsInt32(result) && |blockKey| <= MAX_TEXT_BYTES
    ensures var body := ItemsBytes(DataBlockConfirmItems(blockKey, blockId, result));
            |ItemsBytes([BytesItem(DATA_BLOCK_CONFIRM_TAG, body)])| <= |blockKey| + 20
  {
    hide ItemsBytes;
    var key, id, code := [BytesItem(1, blockKey)], [VarintItem(2, blockId)], UnlessZero(3, result);
    PowersOf128();
    MessageItemSize(1, blockKey);
    NumberItemSize(2, blockId, 5);
    NumberItemSize(3, result, 5);
    ItemsBytesAppend(key, id);
    ItemsBytesAppend(key + id, code);
    MessageItemSize(DATA_BLOCK_CONFIRM_TAG, ItemsBytes(DataBlockConfirmItems(blockKey, blockId, result)));
  }

  lemma ConfirmEncodes(metadata: Metadata, blockKey: seq<byte>, blockId: int, result: int)
    requires ValidConfirm(metadata, blockKey, blockId, result) && |blockKey| <= MAX_TEXT_BYTES
    ensures EncodeDataBlockConfirm(metadata, blockKey, blockId, result).Success?
  {
    hide ItemsBytes;
    ConfirmBodySize(blockKey, blockId, result);
    var body := ItemsBytes(DataBlockConfirmItems(blockKey, blockId, result));
    EnvelopeOverhead(metadata, RPC_RESPONSE_TAG, CLIP_RESPONSE_TAG,
                     ItemsBytes([BytesItem(DATA_BLOCK_CONFIRM_TAG, body)]));
  }

  /** What the readers make of the fields of an encoded confirm. */
  lemma ConfirmFields(blockKey: seq<byte>, blockId: nat, result: nat)
    requires IsInt32(blockId) && blockId > 0 && IsInt32(result) && blockKey != []
    ensures var items := DataBlockConfirmItems(blockKey, blockId, result);
            && ReadInt32(items, 2) == Some(blockId) && ReadInt32(items, 3) == Some(result)
            && ReadBytes(items, 1) == if |blockKey| <= MAX_TEXT_BYTES then Some(blockKey) else None
  {
    hide ReadInt32, ReadBytes, WithTag;
    var key, id, code := [BytesItem(1, blockKey)], [VarintItem(2, blockId)], UnlessZero(3, result);
    var items := DataBlockConfirmItems(blockKey, blockId, result);
    WithTagOfThree(key, id, code, 1, 2, 3);
    ReadBackNumber(items, 2, blockId);
    ReadBackNumber(items, 3, result);
    ReadBackBytes(items, 1, blockKey);
  }

  /** The two levels of messages around those fields read back as they were written. */
  lemma ConfirmLevels(blockKey: seq<byte>, blockId: nat, result: nat)
    requires IsInt32(blockId) && blockId > 0 && IsInt32(result)
    requires var body := ItemsBytes(DataBlockConfirmItems(blockKey, blockId, result));
             |ItemsBytes([BytesItem(DATA_BLOCK_CONFIRM_TAG, body)])| <= MAX_MESSAGE_BYTES
    ensures var items := DataBlockConfirmItems(blockKey, blockId, result);
            var clip := [BytesItem(DATA_BLOCK_CONFIRM_TAG, ItemsBytes(items))];
            && ReadClipboardItems(ItemsBytes(clip)) == Some(clip) && ReadClipboardItems(ItemsBytes(items)) == Some(items)
            && ReadSingleMessage(clip, DATA_BLOCK_CONFIRM_TAG) == Some(ItemsBytes(items)) && Supported(clip) == clip
  {
    hide ItemsBytes, ReadItems, ReadSingleMessage;
    var items := DataBlockConfirmItems(blockKey, blockId, result);
    var clip := [BytesItem(DATA_BLOCK_CONFIRM_TAG, ItemsBytes(items))];
    MessageInsideItems(clip, 0);
    MessageInsideItems(items, 0);
    ReadWrittenItems(clip, LIMITS, true);
    ReadWrittenItems(items, LIMITS, true);
    OnlyMessage(clip[0]);
    assert clip[1..] == [] && Supported(clip) == clip;
  }

  /** What the decoder makes of the body of an encoded confirm. */
  lemma DecodeConfirmBody(metadata: Metadata, blockKey: seq<byte>, blockId: nat, result: nat)
    requires ValidConfirm(metadata, blockKey, blockId, result) && ValidUtf8(blockKey)
    requires var body := ItemsBytes(DataBlockConfirmItems(blockKey, blockId, result));
             |ItemsBytes([BytesItem(DATA_BLOCK_CONFIRM_TAG, body)])| <= MAX_MESSAGE_BYTES
    ensures var body := ItemsBytes(DataBlockConfirmItems(blockKey, blockId, result));
            DecodeResponse(ItemsBytes([BytesItem(DATA_BLOCK_CONFIRM_TAG, body)]), metadata) ==
            if |blockKey| <= MAX_TEXT_BYTES && blockKey != BYTE_ORDER_MARK
            then Some(DataBlockConfirm(metadata, DroppedByteOrderMark(blockKey), blockId, result))
            else None
  {
    hide ItemsBytes, ReadInt32, ReadBytes, ReadClipboardItems, ReadSingleMessage, DataBlockConfirmItems, Supported;
    hide ValidUtf8;
    ConfirmLevels(blockKey, blockId, result);
    ConfirmFields(blockKey, blockId, result);
    assert StartsWithByteOrderMark(blockKey) ==> (blockKey[3..] == [] <==> blockKey == BYTE_ORDER_MARK);
  }

  /** Whatever the encoder lets through decodes to this and nothing else. */
  lemma DecodeEncodedConfirm(metadata: Metadata, blockKey: seq<byte>, blockId: int, result: int)
    requires ValidUtf8(blockKey)
    ensures var r := EncodeDataBlockConfirm(metadata, blockKey, blockId, result);
            r.Success? ==>
              && ValidConfirm(metadata, blockKey, blockId, result)
              && Decode(r.value) ==
                 if |blockKey| <= MAX_TEXT_BYTES && blockKey != BYTE_ORDER_MARK
                 then Some(DataBlockConfirm(metadata, DroppedByteOrderMark(blockKey), blockId, result))
                 else None
  {
    hide ItemsBytes, DecodeResponse, DecodeEnvelope, DecodeRequestId;
    var r := EncodeDataBlockConfirm(metadata, blockKey, blockId, result);
    if r.Success? {
      var body := ItemsBytes(DataBlockConfirmItems(blockKey, blockId, result));
      var clip := ItemsBytes([BytesItem(DATA_BLOCK_CONFIRM_TAG, body)]);
      EnvelopeRoundTrip(metadata, RPC_RESPONSE_TAG, CLIP_RESPONSE_TAG, clip);
      RpcSelection(metadata.requestId, CLIP_RESPONSE_TAG, clip);
      DecodeConfirmBody(metadata, blockKey, blockId, result);
    }
  }

  /**
   A confirm comes back exactly as it was sent, if and only if its numbers pass the checks and its key is a
   non-empty text of at most MAX_TEXT_BYTES bytes without a leading byte order mark. A longer key that still
   fits the message limit is encoded but not decoded.
   */
  lemma ConfirmRoundTripIff(metadata: Metadata, blockKey: seq<byte>, blockId: int, result: int)
    requires ValidUtf8(blockKey)
    ensures var r := EncodeDataBlockConfirm(metadata, blockKey, blockId, result);
            (r.Success? && blockId > 0 && result >= 0 &&
             Decode(r.value) == Some(DataBlockConfirm(metadata, blockKey, blockId, result)))
            <==>
            (ValidConfirm(metadata, blockKey, blockId, result) && |blockKey| <= MAX_TEXT_BYTES &&
             !StartsWithByteOrderMark(blockKey))
  {
    hide Decode, EncodeDataBlockConfirm;
    DecodeEncodedConfirm(metadata, blockKey, blockId, result);
    if ValidConfirm(metadata, blockKey, blockId, result) && |blockKey| <= MAX_TEXT_BYTES {
      ConfirmEncodes(metadata, blockKey, blockId, result);
    }
  }

  // ---------------------------------------------------------------- messages of a peer

  /**
   Any list of fields a peer may write into the body of a message, in any order and with repetitions: as many as a
   message may have, well-formed, and short enough for the limits of the envelope.
   */
  ghost predicate PeerBody(metadata: Metadata, request: bool, tag: nat, items: seq<Item>) {
    && |items| <= MAX_FIELDS && (forall item <- items :: WellFormed(item))
    && EncodeMessage(metadata, request, tag, items).Success?
  }

  /** Both levels of messages around the body read back as they were written. */
  lemma BodyLevels(tag: nat, items: seq<Item>)
    requires 0 < tag < 16 && |items| <= MAX_FIELDS && forall item <- items :: WellFormed(item)
    requires |ItemsBytes([BytesItem(tag, ItemsBytes(items))])| <= MAX_MESSAGE_BYTES
    ensures var clip := [BytesItem(tag, ItemsBytes(items))];
            && ReadClipboardItems(ItemsBytes(clip)) == Some(clip) && ReadClipboardItems(ItemsBytes(items)) == Some(items)
            && ReadSingleMessage(clip, tag) == Some(ItemsBytes(items))
            && ReadBody(ItemsBytes(clip), tag) == Some(items)
            && (forall other: nat | other != tag :: ReadSingleMessage(clip, other) == None)
            && (tag == FORMAT_DATA_CONFIRM_TAG || tag == DATA_BLOCK_CONFIRM_TAG ==> Supported(clip) == clip)
  {
    hide ItemsBytes, ReadItems;
    var clip := [BytesItem(tag, ItemsBytes(items))];
    MessageInsideItems(clip, 0);
    BodyReadsBack(clip);
    BodyReadsBack(items);
    forall other: nat
      ensures WithTag(clip, other) == if other == tag then clip else []
    {
      WithTagOne(clip[0], other);
    }
    assert clip[1..] == [];
  }

  /** What reaches the decoder of the body. */
  lemma PeerBodyArrives(metadata: Metadata, request: bool, tag: nat, items: seq<Item>)
    requires PeerBody(metadata, request, tag, items) && 0 < tag < 16
    ensures InRange(metadata)
    ensures var clip := ItemsBytes([BytesItem(tag, ItemsBytes(items))]);
            && |clip| <= MAX_MESSAGE_BYTES
            && Decode(EncodeMessage(metadata, request, tag, items).value) ==
               if request then DecodeRequest(clip, metadata) else DecodeResponse(clip, metadata)
  {
    hide ItemsBytes, DecodeResponse, DecodeRequest, DecodeEnvelope, DecodeRequestId;
    var clip := ItemsBytes([BytesItem(tag, ItemsBytes(items))]);
    var rpcTag := if request then RPC_REQUEST_TAG else RPC_RESPONSE_TAG;
    var clipTag := if request then CLIP_REQUEST_TAG else CLIP_RESPONSE_TAG;
    EnvelopeRoundTrip(metadata, rpcTag, clipTag, clip);
    RpcSelection(metadata.requestId, clipTag, clip);
  }

  /**
   A format confirm from any peer: it is decoded exactly when its fields say a result under 1, a non-empty key under 2
   and a block count under 3, each within its limits, and then as exactly these.
   */
  lemma FormatConfirmArrivesIff(metadata: Metadata, items: seq<Item>, m: Message)
    requires PeerBody(metadata, false, FORMAT_DATA_CONFIRM_TAG, items)
    ensures Decode(EncodeMessage(metadata, false, FORMAT_DATA_CONFIRM_TAG, items).value) == Some(m) <==>
            && m.FormatDataConfirm? && m.metadata == metadata && m.blockKey != []
            && SaysNumber(items, 1, m.result) && SaysText(items, 2, m.blockKey) && SaysNumber(items, 3, m.blockCount)
  {
    hide ItemsBytes, ReadClipboardItems, ReadSingleMessage, ReadInt32, ReadText, SaysNumber, SaysText, Supported;
    hide Decode, EncodeMessage;
    PeerBodyArrives(metadata, false, FORMAT_DATA_CONFIRM_TAG, items);
    BodyLevels(FORMAT_DATA_CONFIRM_TAG, items);
    ReadsWhatIsSaid(items, 1);
    ReadsWhatIsSaid(items, 2);
    ReadsWhatIsSaid(items, 3);
  }

  /** So is a data block: a non-empty key under 1, its number under 2 and its bytes under 3. */
  lemma DataBlockArrivesIff(metadata: Metadata, items: seq<Item>, m: Message)
    requires PeerBody(metadata, true, DATA_BLOCK_TAG, items)
    ensures Decode(EncodeMessage(metadata, true, DATA_BLOCK_TAG, items).value) == Some(m) <==>
            && m.DataBlockRequest? && m.metadata == metadata && m.blockKey != []
            && SaysText(items, 1, m.blockKey) && SaysNumber(items, 2, m.blockId) && SaysBytes(items, 3, m.data)
  {
    hide ItemsBytes, ReadClipboardItems, ReadSingleMessage, ReadInt32, ReadText, ReadBytes, ReadBody, Supported;
    hide SaysNumber, SaysText, SaysBytes, Decode, EncodeMessage;
    PeerBodyArrives(metadata, true, DATA_BLOCK_TAG, items);
    BodyLevels(DATA_BLOCK_TAG, items);
    ReadsWhatIsSaid(items, 1);
    ReadsWhatIsSaid(items, 2);
    ReadsWhatIsSaid(items, 3);
  }

  /** And the confirm of a block: a non-empty key under 1, its number under 2 and the result under 3. */
  lemma BlockConfirmArrivesIff(metadata: Metadata, items: seq<Item>, m: Message)
    requires PeerBody(metadata, false, DATA_BLOCK_CONFIRM_TAG, items)
    ensures Decode(EncodeMessage(metadata, false, DATA_BLOCK_CONFIRM_TAG, items).value) == Some(m) <==>
            && m.DataBlockConfirm? && m.metadata == metadata && m.blockKey != []
            && SaysText(items, 1, m.blockKey) && SaysNumber(items, 2, m.blockId) && SaysNumber(items, 3, m.result)
  {
    hide ItemsBytes, ReadClipboardItems, ReadSingleMessage, ReadInt32, ReadText, SaysNumber, SaysText, Supported;
    hide Decode, EncodeMessage;
    PeerBodyArrives(metadata, false, DATA_BLOCK_CONFIRM_TAG, items);
    BodyLevels(DATA_BLOCK_CONFIRM_TAG, items);
    ReadsWhatIsSaid(items, 1);
    ReadsWhatIsSaid(items, 2);
    ReadsWhatIsSaid(items, 3);
  }

  /** Any other message of a peer, such as a format ask, is no message for this side. */
  lemma OtherBodiesAreIgnored(metadata: Metadata, request: bool, tag: nat, items: seq<Item>)
    requires PeerBody(metadata, request, tag, items) && 0 < tag < 16
    requires if request then tag != DATA_BLOCK_TAG else tag != FORMAT_DATA_CONFIRM_TAG && tag != DATA_BLOCK_CONFIRM_TAG
    ensures Decode(EncodeMessage(metadata, request, tag, items).value) == None
  {
    hide ItemsBytes, ReadClipboardItems, ReadSingleMessage, Decode, EncodeMessage;
    PeerBodyArrives(metadata, request, tag, items);
    BodyLevels(tag, items);
    var clip := [BytesItem(tag, ItemsBytes(items))];
    assert clip[1..] == [] && (!request ==> Supported(clip) == []);
  }

  /** What an encoded ask says: its format under 1, its key under 2 and the name of the format under 3. */
  lemma AskSays(blockKey: seq<byte>, formatId: nat, formatName: seq<byte>)
    requires IsInt32(formatId) && 0 < |blockKey| <= MAX_TEXT_BYTES && |formatName| <= MAX_TEXT_BYTES
    ensures var items := FormatDataAskItems(blockKey, formatId, formatName);
            SaysNumber(items, 1, formatId) && SaysBytes(items, 2, blockKey) && SaysBytes(items, 3, formatName)
  {
    hide ReadInt32, ReadBytes, WithTag, SaysNumber, SaysBytes;
    var format, key, name := UnlessZero(1, formatId), [BytesItem(2, blockKey)], UnlessEmpty(3, formatName);
    var items := FormatDataAskItems(blockKey, formatId, formatName);
    WithTagOfThree(format, key, name, 1, 2, 3);
    ReadBackNumber(items, 1, formatId);
    ReadBackBytes(items, 2, blockKey);
    ReadBackBytes(items, 3, formatName);
    ReadsWhatIsSaid(items, 1);
    ReadsWhatIsSaid(items, 2);
    ReadsWhatIsSaid(items, 3);
  }

  /** What the peer's reader finds in an encoded ask: the numbers of the envelope, one request, one ask, its fields. */
  lemma AskArrives(metadata: Metadata, blockKey: seq<byte>, formatId: int, formatName: seq<byte>)
    ensures var r := EncodeFormatDataAsk(metadata, blockKey, formatId, formatName);
            r.Success? ==>
              && InRange(metadata) && IsInt32(formatId) && blockKey != []
              && var clip := [BytesItem(FORMAT_DATA_ASK_TAG, ItemsBytes(FormatDataAskItems(blockKey, formatId, formatName)))];
                 && Carries(r.value, metadata, RPC_REQUEST_TAG, CLIP_REQUEST_TAG, ItemsBytes(clip))
                 && ReadClipboardItems(ItemsBytes(clip)) == Some(clip)
                 && ReadBody(ItemsBytes(clip), FORMAT_DATA_ASK_TAG) ==
                    Some(FormatDataAskItems(blockKey, formatId, formatName))
  {
    hide ItemsBytes, ReadClipboardItems, ReadSingleMessage, Carries, ReadBody;
    var r := EncodeFormatDataAsk(metadata, blockKey, formatId, formatName);
    if r.Success? {
      var items := FormatDataAskItems(blockKey, formatId, formatName);
      var clip := [BytesItem(FORMAT_DATA_ASK_TAG, ItemsBytes(items))];
      EnvelopeRoundTrip(metadata, RPC_REQUEST_TAG, CLIP_REQUEST_TAG, ItemsBytes(clip));
      CarriedFits(r.value, metadata, RPC_REQUEST_TAG, CLIP_REQUEST_TAG, ItemsBytes(clip));
      MessageInsideItems(clip, 0);
      forall i | 0 <= i < |items| && items[i].BytesItem?
        ensures |items[i].payload| < MAX_MESSAGE_BYTES
      {
        MessageInsideItems(items, i);
      }
      assert |items| <= 3 && forall item <- items :: WellFormed(item);
      BodyLevels(FORMAT_DATA_ASK_TAG, items);
    }
  }

  lemma CarriedFits(encoded: seq<byte>, metadata: Metadata, rpcTag: nat, bodyTag: nat, body: seq<byte>)
    requires InRange(metadata) && Carries(encoded, metadata, rpcTag, bodyTag, body)
    ensures |body| < MAX_MESSAGE_BYTES
  {
  }
}
