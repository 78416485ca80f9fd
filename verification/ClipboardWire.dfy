/**
 The clipboard RPC envelope (shared/src/streamer/internal/clipboardWire.ts): three levels of nested
 protobuf messages, whose writer leaves out zero and empty fields and whose reader restores them.
 */
module ClipboardWire {
  import opened Wrappers
  import opened ProtobufWire
  import opened Utf8

  const MAX_MESSAGE_BYTES := 0x8_0000
  const MAX_TEXT_BYTES := MAX_MESSAGE_BYTES - 256
  const MAX_FIELDS := 32
  const LIMITS := Limits(MAX_FIELDS, MAX_MESSAGE_BYTES)

  const MAX_SIGNED_INT64 := 0x7fff_ffff_ffff_ffff
  const MAX_SIGNED_INT32 := 0x7fff_ffff

  const ENVELOPE_SEQUENCE_TAG := 1
  const ENVELOPE_TIMESTAMP_TAG := 2
  const RPC_REQUEST_TAG := 21
  const RPC_RESPONSE_TAG := 22
  const HEADER_TAG := 1
  const HEADER_REQUEST_ID_TAG := 1

  datatype EncodeError = OutOfRange(name: string) | TextTooLong | EmptyBlockKey | MessageTooLong

  datatype Metadata = Metadata(sequence: int, timestampMs: int, requestId: int)

  datatype Envelope = Envelope(sequence: nat, timestampMs: nat, rpcTag: nat, rpcBytes: seq<byte>)

  predicate IsInt64(value: int) {
    0 <= value <= MAX_SIGNED_INT64
  }

  predicate IsInt32(value: int) {
    0 <= value <= MAX_SIGNED_INT32
  }

  predicate InRange(metadata: Metadata) {
    IsInt64(metadata.sequence) && IsInt64(metadata.timestampMs) && IsInt64(metadata.requestId)
  }

  // ---------------------------------------------------------------- reading

  function ReadClipboardItems(bytes: seq<byte>): Option<seq<Item>> {
    ReadItems(bytes, LIMITS, true)
  }

  function WithTag(items: seq<Item>, tag: nat): (r: seq<Item>)
    ensures forall item <- r :: item.tag == tag
  {
    if items == [] then []
    else if items[0].tag == tag then [items[0]] + WithTag(items[1..], tag)
    else WithTag(items[1..], tag)
  }

  function ReadInt64(items: seq<Item>, tag: nat): Option<nat> {
    var matching := WithTag(items, tag);
    if exists item <- matching :: !item.VarintItem? then None
    else
      var value := if matching == [] then 0 else matching[|matching| - 1].value;
      if value <= MAX_SIGNED_INT64 then Some(value) else None
  }

  function ReadInt32(items: seq<Item>, tag: nat): Option<nat> {
    var value := ReadInt64(items, tag);
    if value.Some? && value.value <= MAX_SIGNED_INT32 then value else None
  }

  function ReadBytes(items: seq<Item>, tag: nat): Option<seq<byte>> {
    var matching := WithTag(items, tag);
    if exists item <- matching :: !item.BytesItem? then None
    else if matching == [] then Some([])
    else
      var payload := matching[|matching| - 1].payload;
      if |payload| > MAX_TEXT_BYTES then None else Some(payload)
  }

  function ReadText(items: seq<Item>, tag: nat): Option<seq<byte>> {
    match ReadBytes(items, tag)
    case None => None
    case Some(encoded) => DecodeFatal(encoded)
  }

  function ReadSingleMessage(items: seq<Item>, tag: nat): Option<seq<byte>> {
    var matching := WithTag(items, tag);
    if |matching| == 1 && matching[0].BytesItem? then Some(matching[0].payload) else None
  }

  function RpcItems(items: seq<Item>): (r: seq<Item>)
    ensures forall item <- r :: item.tag == RPC_REQUEST_TAG || item.tag == RPC_RESPONSE_TAG
  {
    if items == [] then []
    else if items[0].tag == RPC_REQUEST_TAG || items[0].tag == RPC_RESPONSE_TAG then [items[0]] + RpcItems(items[1..])
    else RpcItems(items[1..])
  }

  function DecodeEnvelope(bytes: seq<byte>): (r: Option<Envelope>)
    ensures r.Some? ==> r.value.rpcTag == RPC_REQUEST_TAG || r.value.rpcTag == RPC_RESPONSE_TAG
  {
    if |bytes| > MAX_MESSAGE_BYTES then None
    else
      match ReadClipboardItems(bytes)
      case None => None
      case Some(items) =>
        var sequence, timestampMs := ReadInt64(items, ENVELOPE_SEQUENCE_TAG), ReadInt64(items, ENVELOPE_TIMESTAMP_TAG);
        var rpc := RpcItems(items);
        if sequence.None? || timestampMs.None? || |rpc| != 1 || !rpc[0].BytesItem? then None
        else Some(Envelope(sequence.value, timestampMs.value, rpc[0].tag, rpc[0].payload))
  }

  function DecodeRequestId(rpcBytes: seq<byte>): Option<nat> {
    match ReadClipboardItems(rpcBytes)
    case None => None
    case Some(items) =>
      match ReadSingleMessage(items, HEADER_TAG)
      case None => None
      case Some(header) =>
        match ReadClipboardItems(header)
        case None => None
        case Some(headerItems) => ReadInt64(headerItems, HEADER_REQUEST_ID_TAG)
  }

  // ---------------------------------------------------------------- writing

  /** A number is written only when it is not zero. */
  function UnlessZero(tag: nat, value: nat): seq<Item> {
    if value == 0 then [] else [VarintItem(tag, value)]
  }

  /** A text is written only when it is not empty. */
  function UnlessEmpty(tag: nat, payload: seq<byte>): seq<Item> {
    if payload == [] then [] else [BytesItem(tag, payload)]
  }

  function HeaderItems(requestId: nat): seq<Item> {
    UnlessZero(HEADER_REQUEST_ID_TAG, requestId)
  }

  function RpcMessageItems(requestId: nat, bodyTag: nat, body: seq<byte>): seq<Item> {
    [BytesItem(HEADER_TAG, ItemsBytes(HeaderItems(requestId))), BytesItem(bodyTag, body)]
  }

  function EnvelopeItems(metadata: Metadata, rpcTag: nat, bodyTag: nat, body: seq<byte>): seq<Item>
    requires InRange(metadata)
  {
    UnlessZero(ENVELOPE_SEQUENCE_TAG, metadata.sequence) + UnlessZero(ENVELOPE_TIMESTAMP_TAG, metadata.timestampMs)
    + [BytesItem(rpcTag, ItemsBytes(RpcMessageItems(metadata.requestId, bodyTag, body)))]
  }

  function EncodeEnvelope(metadata: Metadata, rpcTag: nat, bodyTag: nat, body: seq<byte>)
    : Result<seq<byte>, EncodeError>
  {
    if !IsInt64(metadata.sequence) then Failure(OutOfRange("sequence"))
    else if !IsInt64(metadata.timestampMs) then Failure(OutOfRange("timestampMs"))
    else if !IsInt64(metadata.requestId) then Failure(OutOfRange("requestId"))
    else
      var encoded := ItemsBytes(EnvelopeItems(metadata, rpcTag, bodyTag, body));
      if |encoded| > MAX_MESSAGE_BYTES then Failure(MessageTooLong) else Success(encoded)
  }

  lemma NothingToWrite()
    ensures ItemsBytes([]) == []
  {
  }

  lemma OneItem(item: Item)
    ensures ItemsBytes([item]) == ItemBytes(item)
  {
  }

  /** Appends a number unless it is zero. */
  method PushUnlessZero(buffer: ByteBuffer, tag: nat, value: nat)
    requires tag < TWO_TO_THE_28
    modifies buffer
    ensures buffer.bytes == old(buffer.bytes) + ItemsBytes(UnlessZero(tag, value))
  {
    hide ItemBytes;
    if value != 0 {
      FieldKeyKeepsTag(tag, VARINT);
      OneItem(VarintItem(tag, value));
      var _ := buffer.PushVarintField(tag, value);
    }
  }

  method PushMessage(buffer: ByteBuffer, tag: nat, payload: seq<byte>)
    requires tag < TWO_TO_THE_28
    modifies buffer
    ensures buffer.bytes == old(buffer.bytes) + ItemsBytes([BytesItem(tag, payload)])
  {
    hide ItemBytes;
    FieldKeyKeepsTag(tag, LENGTH_DELIMITED);
    OneItem(BytesItem(tag, payload));
    var _ := buffer.PushMessageField(tag, payload);
  }

  method EncodeClipboardRpcEnvelope(metadata: Metadata, rpcTag: nat, bodyTag: nat, body: seq<byte>)
    returns (r: Result<seq<byte>, EncodeError>)
    requires rpcTag < TWO_TO_THE_28 && bodyTag < TWO_TO_THE_28
    ensures r == EncodeEnvelope(metadata, rpcTag, bodyTag, body)
  {
    hide ItemsBytes;
    if !IsInt64(metadata.sequence) { return Failure(OutOfRange("sequence")); }
    if !IsInt64(metadata.timestampMs) { return Failure(OutOfRange("timestampMs")); }
    if !IsInt64(metadata.requestId) { return Failure(OutOfRange("requestId")); }
    var header := new ByteBuffer();
    PushUnlessZero(header, HEADER_REQUEST_ID_TAG, metadata.requestId);
    assert header.bytes == ItemsBytes(HeaderItems(metadata.requestId));
    var rpc := new ByteBuffer();
    PushMessage(rpc, HEADER_TAG, header.bytes);
    PushMessage(rpc, bodyTag, body);
    ItemsBytesAppend([BytesItem(HEADER_TAG, header.bytes)], [BytesItem(bodyTag, body)]);
    assert rpc.bytes == ItemsBytes(RpcMessageItems(metadata.requestId, bodyTag, body)) by {
      assert RpcMessageItems(metadata.requestId, bodyTag, body)
          == [BytesItem(HEADER_TAG, header.bytes)] + [BytesItem(bodyTag, body)];
    }
    var envelope := new ByteBuffer();
    PushUnlessZero(envelope, ENVELOPE_SEQUENCE_TAG, metadata.sequence);
    PushUnlessZero(envelope, ENVELOPE_TIMESTAMP_TAG, metadata.timestampMs);
    PushMessage(envelope, rpcTag, rpc.bytes);
    ghost var s, t := UnlessZero(ENVELOPE_SEQUENCE_TAG, metadata.sequence), UnlessZero(ENVELOPE_TIMESTAMP_TAG, metadata.timestampMs);
    ItemsBytesAppend(s, t);
    ItemsBytesAppend(s + t, [BytesItem(rpcTag, rpc.bytes)]);
    assert envelope.bytes == ItemsBytes(EnvelopeItems(metadata, rpcTag, bodyTag, body));
    if |envelope.bytes| > MAX_MESSAGE_BYTES {
      return Failure(MessageTooLong);
    }
    return Success(envelope.bytes);
  }

  // ---------------------------------------------------------------- selecting fields

  lemma WithTagAppend(a: seq<Item>, b: seq<Item>, tag: nat)
    ensures WithTag(a + b, tag) == WithTag(a, tag) + WithTag(b, tag)
  {
    if a == [] {
      assert a + b == b;
    } else {
      assert (a + b)[0] == a[0] && (a + b)[1..] == a[1..] + b;
      WithTagAppend(a[1..], b, tag);
    }
  }

  ghost predicate Tagged(items: seq<Item>, tag: nat) {
    forall item <- items :: item.tag == tag
  }

  lemma WithTagUniform(items: seq<Item>, own: nat, tag: nat)
    requires Tagged(items, own)
    ensures WithTag(items, tag) == if own == tag then items else []
  {
  }

  /** Three runs of fields with different tags: selecting one tag gives back that run. */
  lemma WithTagOfThree(a: seq<Item>, b: seq<Item>, c: seq<Item>, ta: nat, tb: nat, tc: nat)
    requires Tagged(a, ta) && Tagged(b, tb) && Tagged(c, tc) && ta != tb && tb != tc && tc != ta
    ensures WithTag(a + b + c, ta) == a && WithTag(a + b + c, tb) == b && WithTag(a + b + c, tc) == c
  {
    hide WithTag, Tagged;
    forall tag: nat
      ensures WithTag(a + b + c, tag) == WithTag(a, tag) + WithTag(b, tag) + WithTag(c, tag)
    {
      WithTagAppend(a, b, tag);
      WithTagAppend(a + b, c, tag);
    }
    WithTagUniform(a, ta, ta); WithTagUniform(a, ta, tb); WithTagUniform(a, ta, tc);
    WithTagUniform(b, tb, ta); WithTagUniform(b, tb, tb); WithTagUniform(b, tb, tc);
    WithTagUniform(c, tc, ta); WithTagUniform(c, tc, tb); WithTagUniform(c, tc, tc);
  }

  lemma WithTagOne(item: Item, tag: nat)
    ensures WithTag([item], tag) == if item.tag == tag then [item] else []
  {
  }

  lemma OnlyMessage(item: Item)
    requires item.BytesItem?
    ensures ReadSingleMessage([item], item.tag) == Some(item.payload)
  {
    WithTagOne(item, item.tag);
  }

  lemma RpcItemsAppend(a: seq<Item>, b: seq<Item>)
    ensures RpcItems(a + b) == RpcItems(a) + RpcItems(b)
  {
    if a == [] {
      assert a + b == b;
    } else {
      assert (a + b)[0] == a[0] && (a + b)[1..] == a[1..] + b;
      RpcItemsAppend(a[1..], b);
    }
  }

  /** Zero is what an absent number reads as, so leaving it out loses nothing. */
  lemma ReadBackNumber(items: seq<Item>, tag: nat, value: nat)
    requires WithTag(items, tag) == UnlessZero(tag, value)
    ensures value <= MAX_SIGNED_INT64 ==> ReadInt64(items, tag) == Some(value)
    ensures value <= MAX_SIGNED_INT32 ==> ReadInt32(items, tag) == Some(value)
  {
  }

  lemma ReadBackBytes(items: seq<Item>, tag: nat, payload: seq<byte>)
    requires WithTag(items, tag) == UnlessEmpty(tag, payload)
    ensures ReadBytes(items, tag) == if |payload| <= MAX_TEXT_BYTES then Some(payload) else None
  {
  }

  // ---------------------------------------------------------------- what a list of fields says

  /** The last field with this tag. */
  ghost predicate LastWith(items: seq<Item>, tag: nat, item: Item) {
    item.tag == tag && exists i | 0 <= i < |items| :: items[i] == item && forall j | i < j < |items| :: items[j].tag != tag
  }

  /** A number is given by the last field with its tag, all of which are varints, and is 0 without one. */
  ghost predicate SaysNumber(items: seq<Item>, tag: nat, n: nat) {
    && n <= MAX_SIGNED_INT32
    && (forall item <- items | item.tag == tag :: item.VarintItem?)
    && if forall item <- items :: item.tag != tag then n == 0 else LastWith(items, tag, VarintItem(tag, n))
  }

  /** So are bytes, which are empty without a field. */
  ghost predicate SaysBytes(items: seq<Item>, tag: nat, bytes: seq<byte>) {
    && |bytes| <= MAX_TEXT_BYTES
    && (forall item <- items | item.tag == tag :: item.BytesItem?)
    && if forall item <- items :: item.tag != tag then bytes == [] else LastWith(items, tag, BytesItem(tag, bytes))
  }

  /** A text is what a UTF-8 decoder makes of such bytes. */
  ghost predicate SaysText(items: seq<Item>, tag: nat, text: seq<byte>) {
    exists bytes :: SaysBytes(items, tag, bytes) && ValidUtf8(bytes) && text == DroppedByteOrderMark(bytes)
  }

  lemma {:induction false} WithTagMembers(items: seq<Item>, tag: nat)
    ensures forall item :: item in WithTag(items, tag) <==> item in items && item.tag == tag
  {
    if items != [] {
      WithTagMembers(items[1..], tag);
    }
  }

  lemma {:induction false} WithTagHasLast(items: seq<Item>, tag: nat, item: Item)
    requires WithTag(items, tag) != []
    ensures LastWith(items, tag, item) <==> item == WithTag(items, tag)[|WithTag(items, tag)| - 1]
  {
    hide LastWith;
    var rest := items[1..];
    WithTagMembers(rest, tag);
    LastOfFirst(items, tag, item);
    if WithTag(rest, tag) != [] {
      WithTagHasLast(rest, tag, item);
    } else {
      NoLast(rest, tag, item);
    }
  }

  lemma NoLast(items: seq<Item>, tag: nat, item: Item)
    requires forall x <- items :: x.tag != tag
    ensures !LastWith(items, tag, item)
  {
  }

  lemma LastOfFirst(items: seq<Item>, tag: nat, item: Item)
    requires items != []
    requires forall x :: x in WithTag(items[1..], tag) <==> x in items[1..] && x.tag == tag
    ensures LastWith(items, tag, item) <==>
            LastWith(items[1..], tag, item) || (item == items[0] && item.tag == tag && WithTag(items[1..], tag) == [])
  {
    hide WithTag;
    var rest := items[1..];
    assert WithTag(rest, tag) != [] ==> WithTag(rest, tag)[0] in rest && WithTag(rest, tag)[0].tag == tag by {
      assert WithTag(rest, tag) != [] ==> WithTag(rest, tag)[0] in WithTag(rest, tag);
    }
    if LastWith(items, tag, item) {
      LastInRest(items, tag, item);
    }
    if LastWith(rest, tag, item) {
      LastOfRest(items, tag, item);
    }
    if item == items[0] && item.tag == tag && WithTag(rest, tag) == [] {
      assert forall j | 0 < j < |items| :: items[j] == rest[j - 1] && items[j] in rest;
    }
  }

  lemma LastInRest(items: seq<Item>, tag: nat, item: Item)
    requires items != [] && LastWith(items, tag, item)
    ensures LastWith(items[1..], tag, item) || (item == items[0] && forall x <- items[1..] :: x.tag != tag)
  {
    var i :| 0 <= i < |items| && items[i] == item && forall j | i < j < |items| :: items[j].tag != tag;
    var rest := items[1..];
    assert forall j | 0 <= j < |rest| :: rest[j] == items[j + 1];
    if i > 0 {
      assert rest[i - 1] == item;
    }
  }

  lemma LastOfRest(items: seq<Item>, tag: nat, item: Item)
    requires items != [] && LastWith(items[1..], tag, item)
    ensures LastWith(items, tag, item)
  {
    var rest := items[1..];
    var i :| 0 <= i < |rest| && rest[i] == item && forall j | i < j < |rest| :: rest[j].tag != tag;
    assert items[i + 1] == item && forall j | i + 1 < j < |items| :: items[j] == rest[j - 1];
  }

  /** The readers read exactly what the fields say. */
  lemma ReadsWhatIsSaid(items: seq<Item>, tag: nat)
    ensures forall n: nat :: ReadInt32(items, tag) == Some(n) <==> SaysNumber(items, tag, n)
    ensures forall bytes :: ReadBytes(items, tag) == Some(bytes) <==> SaysBytes(items, tag, bytes)
    ensures forall text :: ReadText(items, tag) == Some(text) <==> SaysText(items, tag, text)
  {
    hide WithTag, LastWith, ValidUtf8, DroppedByteOrderMark;
    WithTagMembers(items, tag);
    var r := WithTag(items, tag);
    assert r != [] ==> r[0] in r;
    assert r == [] <==> forall item <- items :: item.tag != tag;
    forall item | r != []
      ensures LastWith(items, tag, item) <==> item == r[|r| - 1]
    {
      WithTagHasLast(items, tag, item);
    }
    assert r != [] ==> r[|r| - 1] in r && r[|r| - 1].tag == tag;
  }

  // ---------------------------------------------------------------- sizes

  lemma NumberItemSize(tag: nat, value: nat, groups: nat)
    requires tag < 16 && groups > 0 && value < Power128(groups)
    ensures |ItemsBytes(UnlessZero(tag, value))| <= 1 + groups
  {
    if value != 0 {
      OneItem(VarintItem(tag, value));
      VarintSize(value, groups);
    }
  }

  lemma MessageItemSize(tag: nat, payload: seq<byte>)
    requires |payload| < 0x20_0000
    ensures |ItemsBytes([BytesItem(tag, payload)])| >= |payload|
    ensures tag < 16 ==> |ItemsBytes([BytesItem(tag, payload)])| <= |payload| + 4
    ensures tag < 2048 ==> |ItemsBytes([BytesItem(tag, payload)])| <= |payload| + 5
  {
    OneItem(BytesItem(tag, payload));
    PowersOf128();
    VarintSize(|payload|, 3);
    if tag < 2048 {
      VarintSize(tag * 8 + LENGTH_DELIMITED, if tag < 16 then 1 else 2);
    }
  }

  lemma PowersOf128()
    ensures Power128(1) == 0x80 && Power128(2) == 0x4000 && Power128(3) == 0x20_0000
    ensures Power128(5) > MAX_SIGNED_INT32 && Power128(9) > MAX_SIGNED_INT64
  {
    assert Power128(3) == 0x20_0000;
    assert Power128(6) == 0x80 * (0x80 * (0x80 * Power128(3)));
    assert Power128(9) == 0x80 * (0x80 * (0x80 * Power128(6)));
  }

  /** The envelope adds at most 43 bytes to its body. */
  lemma EnvelopeOverhead(metadata: Metadata, rpcTag: nat, bodyTag: nat, body: seq<byte>)
    requires InRange(metadata) && rpcTag < 2048 && bodyTag < 16 && |body| < 0x10_0000
    ensures |ItemsBytes(EnvelopeItems(metadata, rpcTag, bodyTag, body))| <= |body| + 43
  {
    hide ItemsBytes;
    PowersOf128();
    NumberItemSize(ENVELOPE_SEQUENCE_TAG, metadata.sequence, 9);
    NumberItemSize(ENVELOPE_TIMESTAMP_TAG, metadata.timestampMs, 9);
    NumberItemSize(HEADER_REQUEST_ID_TAG, metadata.requestId, 9);
    var header := ItemsBytes(HeaderItems(metadata.requestId));
    MessageItemSize(HEADER_TAG, header);
    MessageItemSize(bodyTag, body);
    ItemsBytesAppend([BytesItem(HEADER_TAG, header)], [BytesItem(bodyTag, body)]);
    assert RpcMessageItems(metadata.requestId, bodyTag, body) == [BytesItem(HEADER_TAG, header)] + [BytesItem(bodyTag, body)];
    var rpc := ItemsBytes(RpcMessageItems(metadata.requestId, bodyTag, body));
    MessageItemSize(rpcTag, rpc);
    var s, t := UnlessZero(ENVELOPE_SEQUENCE_TAG, metadata.sequence), UnlessZero(ENVELOPE_TIMESTAMP_TAG, metadata.timestampMs);
    ItemsBytesAppend(s, t);
    ItemsBytesAppend(s + t, [BytesItem(rpcTag, rpc)]);
  }

  lemma {:induction false} MessageInsideItems(items: seq<Item>, i: nat)
    requires i < |items| && items[i].BytesItem?
    ensures |items[i].payload| < |ItemsBytes(items)|
  {
    if i > 0 {
      MessageInsideItems(items[1..], i - 1);
    }
  }

  /** Any well-formed fields of a message that is not too long read back as they were written. */
  lemma BodyReadsBack(items: seq<Item>)
    requires |items| <= MAX_FIELDS && |ItemsBytes(items)| <= MAX_MESSAGE_BYTES
    requires forall item <- items :: WellFormed(item)
    ensures ReadClipboardItems(ItemsBytes(items)) == Some(items)
  {
    hide ItemsBytes, ReadItems;
    forall i | 0 <= i < |items| && items[i].BytesItem?
      ensures |items[i].payload| <= MAX_MESSAGE_BYTES
    {
      MessageInsideItems(items, i);
    }
    assert forall item <- items :: Readable(item, LIMITS);
    ReadWrittenItems(items, LIMITS, true);
  }

  /** The ranges of the writer's numbers, and the limit of its messages. */
  lemma WriterRanges(metadata: Metadata, rpcTag: nat, bodyTag: nat, body: seq<byte>, value: int)
    ensures IsInt64(value) <==> 0 <= value < 0x8000_0000_0000_0000
    ensures IsInt32(value) <==> 0 <= value < 0x8000_0000
    ensures EncodeEnvelope(metadata, rpcTag, bodyTag, body).Success? <==>
              InRange(metadata) && |ItemsBytes(EnvelopeItems(metadata, rpcTag, bodyTag, body))| <= 512 * 1024
  {
    hide ItemsBytes;
  }

  // ---------------------------------------------------------------- round trip

  /** What an encoded envelope says: the three numbers, the RPC tag, and the two fields of the RPC message. */
  ghost predicate Carries(encoded: seq<byte>, metadata: Metadata, rpcTag: nat, bodyTag: nat, body: seq<byte>)
    requires InRange(metadata)
  {
    && |body| < |encoded| <= MAX_MESSAGE_BYTES
    && var rpc := ItemsBytes(RpcMessageItems(metadata.requestId, bodyTag, body));
       && DecodeEnvelope(encoded) == Some(Envelope(metadata.sequence, metadata.timestampMs, rpcTag, rpc))
       && ReadClipboardItems(rpc) == Some(RpcMessageItems(metadata.requestId, bodyTag, body))
       && DecodeRequestId(rpc) == Some(metadata.requestId)
  }

  lemma NoRpcItems(items: seq<Item>, tag: nat)
    requires Tagged(items, tag) && tag != RPC_REQUEST_TAG && tag != RPC_RESPONSE_TAG
    ensures RpcItems(items) == []
  {
  }

  /** Of three runs of fields, only the last one carries an RPC message. */
  lemma RpcItemsOfThree(s: seq<Item>, t: seq<Item>, rpc: Item)
    requires Tagged(s, ENVELOPE_SEQUENCE_TAG) && Tagged(t, ENVELOPE_TIMESTAMP_TAG)
    requires rpc.tag == RPC_REQUEST_TAG || rpc.tag == RPC_RESPONSE_TAG
    ensures RpcItems(s + t + [rpc]) == [rpc]
  {
    hide Tagged;
    NoRpcItems(s, ENVELOPE_SEQUENCE_TAG);
    NoRpcItems(t, ENVELOPE_TIMESTAMP_TAG);
    RpcItemsAppend(s, t);
    RpcItemsAppend(s + t, [rpc]);
  }

  lemma EnvelopeSelection(metadata: Metadata, rpcTag: nat, bodyTag: nat, body: seq<byte>)
    requires InRange(metadata) && (rpcTag == RPC_REQUEST_TAG || rpcTag == RPC_RESPONSE_TAG)
    ensures var items := EnvelopeItems(metadata, rpcTag, bodyTag, body);
            && ReadInt64(items, ENVELOPE_SEQUENCE_TAG) == Some(metadata.sequence)
            && ReadInt64(items, ENVELOPE_TIMESTAMP_TAG) == Some(metadata.timestampMs)
            && RpcItems(items) ==
                 [BytesItem(rpcTag, ItemsBytes(RpcMessageItems(metadata.requestId, bodyTag, body)))]
  {
    hide ItemsBytes, ReadInt64, WithTag, RpcItems, RpcMessageItems;
    var s, t := UnlessZero(ENVELOPE_SEQUENCE_TAG, metadata.sequence), UnlessZero(ENVELOPE_TIMESTAMP_TAG, metadata.timestampMs);
    var rpc := BytesItem(rpcTag, ItemsBytes(RpcMessageItems(metadata.requestId, bodyTag, body)));
    var items := EnvelopeItems(metadata, rpcTag, bodyTag, body);
    assert items == s + t + [rpc];
    WithTagOfThree(s, t, [rpc], ENVELOPE_SEQUENCE_TAG, ENVELOPE_TIMESTAMP_TAG, rpcTag);
    ReadBackNumber(items, ENVELOPE_SEQUENCE_TAG, metadata.sequence);
    ReadBackNumber(items, ENVELOPE_TIMESTAMP_TAG, metadata.timestampMs);
    RpcItemsOfThree(s, t, rpc);
  }

  /** The body tags of the two clipboard families, 5 to 10, never collide with the header. */
  lemma EnvelopeRoundTrip(metadata: Metadata, rpcTag: nat, bodyTag: nat, body: seq<byte>)
    requires rpcTag == RPC_REQUEST_TAG || rpcTag == RPC_RESPONSE_TAG
    requires HEADER_TAG < bodyTag < 16
    ensures var r := EncodeEnvelope(metadata, rpcTag, bodyTag, body);
            r.Success? ==> InRange(metadata) && Carries(r.value, metadata, rpcTag, bodyTag, body)
  {
    hide ItemsBytes, RpcItems, ReadInt64, ReadItems, ReadSingleMessage, WithTag;
    var r := EncodeEnvelope(metadata, rpcTag, bodyTag, body);
    if r.Success? {
      var header := ItemsBytes(HeaderItems(metadata.requestId));
      var rpcItems := RpcMessageItems(metadata.requestId, bodyTag, body);
      var rpc := ItemsBytes(rpcItems);
      var items := EnvelopeItems(metadata, rpcTag, bodyTag, body);
      MessageInsideItems(items, |items| - 1);
      MessageInsideItems(rpcItems, 0);
      MessageInsideItems(rpcItems, 1);
      assert |header| < |rpc| < MAX_MESSAGE_BYTES && |body| < |rpc|;
      ReadWrittenItems(HeaderItems(metadata.requestId), LIMITS, true);
      ReadWrittenItems(rpcItems, LIMITS, true);
      ReadWrittenItems(items, LIMITS, true);
      EnvelopeSelection(metadata, rpcTag, bodyTag, body);
      WithTagUniform(HeaderItems(metadata.requestId), HEADER_REQUEST_ID_TAG, HEADER_REQUEST_ID_TAG);
      ReadBackNumber(HeaderItems(metadata.requestId), HEADER_REQUEST_ID_TAG, metadata.requestId);
      RpcSelection(metadata.requestId, bodyTag, body);
    }
  }

  lemma RpcSelection(requestId: nat, bodyTag: nat, body: seq<byte>)
    requires HEADER_TAG < bodyTag
    ensures var items := RpcMessageItems(requestId, bodyTag, body);
            && ReadSingleMessage(items, HEADER_TAG) == Some(ItemsBytes(HeaderItems(requestId)))
            && ReadSingleMessage(items, bodyTag) == Some(body)
            && forall tag: nat :: tag != HEADER_TAG && tag != bodyTag ==> ReadSingleMessage(items, tag) == None
  {
    hide ItemsBytes;
    var header, message := BytesItem(HEADER_TAG, ItemsBytes(HeaderItems(requestId))), BytesItem(bodyTag, body);
    assert RpcMessageItems(requestId, bodyTag, body) == [header] + [message];
    forall tag: nat
      ensures WithTag([header] + [message], tag) == WithTag([header], tag) + WithTag([message], tag)
      ensures WithTag([header], tag) == if tag == HEADER_TAG then [header] else []
      ensures WithTag([message], tag) == if tag == bodyTag then [message] else []
    {
      WithTagAppend([header], [message], tag);
      WithTagOne(header, tag);
      WithTagOne(message, tag);
    }
  }
}
