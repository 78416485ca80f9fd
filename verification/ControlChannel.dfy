/**
 Control channel messages (shared/src/streamer/controlChannelEncode.ts and controlChannelDecode.ts): input
 and text messages, and the echo that carries its sequence number as JSON text. The decoder reads leniently.
 */
module ControlChannel {
  import opened Wrappers
  import opened ProtobufWire
  import opened Utf8
  import opened ClipboardWire

  const MAX_CONTROL_BYTES := 2 * 1024 * 1024
  const CONTROL_LIMITS := Limits(128, 1024 * 1024)
  const MAX_SAFE_INTEGER := 0x1f_ffff_ffff_ffff

  const SIMPLE_ACTION_TAG := 3
  const CAPTURE_CHANGE_TAG := 8
  const ROM_MESSAGE_TAG := 10
  const SEND_TO_ROM_TAG := 11
  const SYSTEM_STATE_TAG := 15

  const MAX_CURSOR_IMAGE_BYTES := 512 * 1024
  const CT_DESKTOP := 0

  const ROM_INPUT := 0
  const ROM_TEXT := 1
  const ECHO_REQUEST := 0
  const ECHO_RESPONSE := 1

  /** The tags of the feature flags, in the order they are written. */
  const FLAG_TAGS: seq<nat> := [1, 2, 3, 4, 6, 7, 8]

  /** A decoded text: the bytes without a leading byte order mark, or something with replacement characters. */
  datatype Text = Exact(bytes: seq<byte>) | Replaced(bytes: seq<byte>)

  datatype SendToRom = SendToRom(inputType: nat, inputMessage: Option<Text>, displayId: Option<nat>)

  /** Feature flags by tag; JavaScript numbers, so safe integers of either sign. */
  type Flags = map<nat, int>

  datatype SimpleAction = SimpleAction(action: nat, args: Option<Text>, featureFlags: Option<Flags>)

  datatype CaptureChange = CaptureChange(captureType: nat, captureId: Option<nat>, desc: Option<Text>)

  datatype RomReport = RomReport(
    name: Option<Text>, value: Option<Text>, displayId: Option<nat>, byteValueLength: Option<nat>)

  /** Scales are doubles, given as their eight bytes. */
  datatype CursorShape = CursorShape(
    posX: Option<int>, posY: Option<int>, width: Option<int>, height: Option<int>, image: Option<seq<byte>>,
    cursorType: Option<int>, xScale: Option<seq<byte>>, yScale: Option<seq<byte>>, screenId: Option<int>)

  datatype SystemState = SystemState(cursorShape: Option<CursorShape>)

  datatype Message = Message(
    sequence: Option<nat>, timestampMs: Option<nat>, tags: seq<nat>,
    simpleAction: Option<SimpleAction>, sendToRom: Option<SendToRom>,
    captureChange: Option<CaptureChange> := None, romMessage: Option<RomReport> := None,
    systemStateChange: Option<SystemState> := None)

  // ---------------------------------------------------------------- writing

  function RomItems(inputType: nat, inputMessage: seq<byte>, displayId: nat): seq<Item> {
    UnlessZero(1, inputType) + UnlessEmpty(2, inputMessage) + UnlessZero(3, displayId)
  }

  function FlagValue(flags: Flags, tag: nat): int {
    if tag in flags then flags[tag] else 0
  }

  function FlagItem(tag: nat, value: int): seq<Item> {
    if value == 0 then [] else [VarintItem(tag, TwosComplement(value))]
  }

  function FlagItems(tags: seq<nat>, flags: Flags): seq<Item> {
    if tags == [] then []
    else FlagItem(tags[0], FlagValue(flags, tags[0])) + FlagItems(tags[1..], flags)
  }

  function ActionItems(action: nat, args: seq<byte>, flags: Flags): seq<Item> {
    UnlessZero(1, action) + [BytesItem(2, args)] + [BytesItem(4, ItemsBytes(FlagItems(FLAG_TAGS, flags)))]
  }

  function EnvelopeOf(sequence: nat, timestampMs: nat, tag: nat, body: seq<byte>): seq<Item> {
    [VarintItem(1, sequence)] + [VarintItem(2, timestampMs)] + [BytesItem(tag, body)]
  }

  /** A negative sequence or timestamp makes the writer throw. */
  function EncodeEnvelope(sequence: int, timestampMs: int, tag: nat, body: seq<byte>): Option<seq<byte>> {
    if sequence < 0 || timestampMs < 0 then None else Some(ItemsBytes(EnvelopeOf(sequence, timestampMs, tag, body)))
  }

  method EncodeControlEnvelope(sequence: int, timestampMs: int, tag: nat, body: seq<byte>)
    returns (r: Option<seq<byte>>)
    requires tag < TWO_TO_THE_28
    ensures r == EncodeEnvelope(sequence, timestampMs, tag, body)
  {
    hide ItemsBytes, ItemBytes;
    FieldKeyKeepsTag(1, VARINT);
    FieldKeyKeepsTag(2, VARINT);
    var envelope := new ByteBuffer();
    var pushed := envelope.PushVarintField(1, sequence);
    if pushed.Fail? { return None; }
    pushed := envelope.PushVarintField(2, timestampMs);
    if pushed.Fail? { return None; }
    PushMessage(envelope, tag, body);
    OneItem(VarintItem(1, sequence));
    OneItem(VarintItem(2, timestampMs));
    ItemsBytesAppend([VarintItem(1, sequence)], [VarintItem(2, timestampMs)]);
    ItemsBytesAppend([VarintItem(1, sequence)] + [VarintItem(2, timestampMs)], [BytesItem(tag, body)]);
    assert envelope.bytes == ItemsBytes(EnvelopeOf(sequence, timestampMs, tag, body));
    return Some(envelope.bytes);
  }

  /** A negative display id makes the writer throw, too. */
  function EncodeRom(sequence: int, timestampMs: int, inputType: nat, inputMessage: seq<byte>, displayId: int)
    : Option<seq<byte>>
  {
    if displayId < 0 then None
    else EncodeEnvelope(sequence, timestampMs, SEND_TO_ROM_TAG, ItemsBytes(RomItems(inputType, inputMessage, displayId)))
  }

  /** Empty text and display id 0 are left out, as is the default message type. */
  method EncodeStreamerRomMessage(
    sequence: int, timestampMs: int, inputType: nat, inputMessage: seq<byte>, displayId: int)
    returns (r: Option<seq<byte>>)
    ensures r == EncodeRom(sequence, timestampMs, inputType, inputMessage, displayId)
  {
    hide ItemsBytes, EncodeEnvelope;
    if displayId < 0 { return None; }
    NothingToWrite();
    var body := new ByteBuffer();
    PushUnlessZero(body, 1, inputType);
    if inputMessage != [] {
      PushMessage(body, 2, inputMessage);
    }
    PushUnlessZero(body, 3, displayId);
    ghost var kind, text, display := UnlessZero(1, inputType), UnlessEmpty(2, inputMessage), UnlessZero(3, displayId);
    ItemsBytesAppend(kind, text);
    ItemsBytesAppend(kind + text, display);
    assert body.bytes == ItemsBytes(RomItems(inputType, inputMessage, displayId));
    r := EncodeControlEnvelope(sequence, timestampMs, SEND_TO_ROM_TAG, body.bytes);
  }

  /** Appends a flag unless it is zero. */
  method PushFlag(buffer: ByteBuffer, tag: nat, value: int)
    requires tag < TWO_TO_THE_28
    modifies buffer
    ensures buffer.bytes == old(buffer.bytes) + ItemsBytes(FlagItem(tag, value))
  {
    hide ItemBytes;
    NothingToWrite();
    if value != 0 {
      FieldKeyKeepsTag(tag, VARINT);
      OneItem(VarintItem(tag, TwosComplement(value)));
      var _ := buffer.PushInt32Field(tag, value);
    }
  }

  lemma FlagItemsFrom(tags: seq<nat>, flags: Flags, i: nat)
    requires i <= |tags|
    ensures i == |tags| ==> ItemsBytes(FlagItems(tags[i..], flags)) == []
    ensures i < |tags| ==>
              ItemsBytes(FlagItems(tags[i..], flags)) ==
              ItemsBytes(FlagItem(tags[i], FlagValue(flags, tags[i]))) + ItemsBytes(FlagItems(tags[i + 1..], flags))
  {
    hide ItemsBytes;
    NothingToWrite();
    if i < |tags| {
      assert tags[i..][1..] == tags[i + 1..];
      ItemsBytesAppend(FlagItem(tags[i], FlagValue(flags, tags[i])), FlagItems(tags[i + 1..], flags));
    }
  }

  /** The flags with these tags, one after the other. */
  method PushFlags(buffer: ByteBuffer, tags: seq<nat>, flags: Flags)
    requires forall i | 0 <= i < |tags| :: tags[i] < TWO_TO_THE_28
    modifies buffer
    ensures buffer.bytes == old(buffer.bytes) + ItemsBytes(FlagItems(tags, flags))
  {
    hide ItemsBytes, FlagItems, FlagItem;
    assert tags[0..] == tags;
    for i := 0 to |tags|
      invariant buffer.bytes + ItemsBytes(FlagItems(tags[i..], flags)) ==
                old(buffer.bytes) + ItemsBytes(FlagItems(tags, flags))
    {
      FlagItemsFrom(tags, flags, i);
      PushFlag(buffer, tags[i], FlagValue(flags, tags[i]));
    }
    FlagItemsFrom(tags, flags, |tags|);
  }

  method EncodeFeatureFlags(flags: Flags) returns (r: seq<byte>)
    ensures r == ItemsBytes(FlagItems(FLAG_TAGS, flags))
  {
    assert forall i | 0 <= i < |FLAG_TAGS| :: FLAG_TAGS[i] < TWO_TO_THE_28;
    hide ItemsBytes, FlagItems, FLAG_TAGS;
    var buffer := new ByteBuffer();
    PushFlags(buffer, FLAG_TAGS, flags);
    r := buffer.bytes;
  }

  method EncodeSimpleAction(sequence: int, timestampMs: int, action: nat, args: seq<byte>, flags: Flags)
    returns (r: Option<seq<byte>>)
    ensures r == EncodeEnvelope(sequence, timestampMs, SIMPLE_ACTION_TAG, ItemsBytes(ActionItems(action, args, flags)))
  {
    hide ItemsBytes, EncodeEnvelope, FlagItems;
    NothingToWrite();
    var body := new ByteBuffer();
    PushUnlessZero(body, 1, action);
    PushMessage(body, 2, args);
    var encodedFlags := EncodeFeatureFlags(flags);
    PushMessage(body, 4, encodedFlags);
    ghost var kind, text, flag := UnlessZero(1, action), [BytesItem(2, args)], [BytesItem(4, encodedFlags)];
    ItemsBytesAppend(kind, text);
    ItemsBytesAppend(kind + text, flag);
    assert body.bytes == ItemsBytes(ActionItems(action, args, flags));
    r := EncodeControlEnvelope(sequence, timestampMs, SIMPLE_ACTION_TAG, body.bytes);
  }

  // ---------------------------------------------------------------- reading

  function SafeNumber(value: nat): Option<nat> {
    if value <= MAX_SAFE_INTEGER then Some(value) else None
  }

  function DecodeText(bytes: seq<byte>): Text {
    if ValidUtf8(bytes) then Exact(DroppedByteOrderMark(bytes)) else Replaced(bytes)
  }

  function ReadControlItems(bytes: seq<byte>): Option<seq<Item>> {
    ReadItems(bytes, CONTROL_LIMITS, false)
  }

  /** One field of an input message; later fields override earlier ones. */
  function RomField(acc: SendToRom, item: Item): SendToRom {
    if item.tag == 1 && item.VarintItem? then
      acc.(inputType := if SafeNumber(item.value).Some? then item.value else acc.inputType)
    else if item.tag == 2 && item.BytesItem? then acc.(inputMessage := Some(DecodeText(item.payload)))
    else if item.tag == 3 && item.VarintItem? then acc.(displayId := SafeNumber(item.value))
    else acc
  }

  function RomFields(acc: SendToRom, items: seq<Item>): SendToRom
    decreases |items|
  {
    if items == [] then acc else RomFields(RomField(acc, items[0]), items[1..])
  }

  function FlagField(acc: Flags, item: Item): Flags {
    if item.VarintItem? && item.tag in FLAG_TAGS && SafeNumber(item.value).Some? then acc[item.tag := item.value] else acc
  }

  function FlagFields(acc: Flags, items: seq<Item>): Flags
    decreases |items|
  {
    if items == [] then acc else FlagFields(FlagField(acc, items[0]), items[1..])
  }

  function DecodeFlags(bytes: seq<byte>): Option<Flags> {
    match ReadControlItems(bytes)
    case None => None
    case Some(items) => Some(FlagFields(map[], items))
  }

  function ActionField(acc: SimpleAction, item: Item): SimpleAction {
    if item.tag == 1 && item.VarintItem? then
      acc.(action := if SafeNumber(item.value).Some? then item.value else acc.action)
    else if item.tag == 2 && item.BytesItem? then acc.(args := Some(DecodeText(item.payload)))
    else if item.tag == 4 && item.BytesItem? then acc.(featureFlags := DecodeFlags(item.payload))
    else acc
  }

  function ActionFields(acc: SimpleAction, items: seq<Item>): SimpleAction
    decreases |items|
  {
    if items == [] then acc else ActionFields(ActionField(acc, items[0]), items[1..])
  }

  function DecodeRom(bytes: seq<byte>): Option<SendToRom> {
    match ReadControlItems(bytes)
    case None => None
    case Some(items) => Some(RomFields(SendToRom(ROM_INPUT, None, None), items))
  }

  function DecodeAction(bytes: seq<byte>): Option<SimpleAction> {
    match ReadControlItems(bytes)
    case None => None
    case Some(items) => Some(ActionFields(SimpleAction(ECHO_REQUEST, None, None), items))
  }

  function CaptureField(acc: CaptureChange, item: Item): CaptureChange {
    if item.tag == 1 && item.VarintItem? then
      acc.(captureType := if SafeNumber(item.value).Some? then item.value else acc.captureType)
    else if item.tag == 2 && item.VarintItem? then acc.(captureId := SafeNumber(item.value))
    else if item.tag == 3 && item.BytesItem? then acc.(desc := Some(DecodeText(item.payload)))
    else acc
  }

  function CaptureFields(acc: CaptureChange, items: seq<Item>): CaptureChange
    decreases |items|
  {
    if items == [] then acc else CaptureFields(CaptureField(acc, items[0]), items[1..])
  }

  function DecodeCapture(bytes: seq<byte>): Option<CaptureChange> {
    match ReadControlItems(bytes)
    case None => None
    case Some(items) => Some(CaptureFields(CaptureChange(CT_DESKTOP, None, None), items))
  }

  function RomReportField(acc: RomReport, item: Item): RomReport {
    if item.tag == 1 && item.BytesItem? then acc.(name := Some(DecodeText(item.payload)))
    else if item.tag == 2 && item.BytesItem? then acc.(value := Some(DecodeText(item.payload)))
    else if item.tag == 3 && item.VarintItem? then acc.(displayId := SafeNumber(item.value))
    else if item.tag == 4 && item.BytesItem? then acc.(byteValueLength := Some(|item.payload|))
    else acc
  }

  function RomReportFields(acc: RomReport, items: seq<Item>): RomReport
    decreases |items|
  {
    if items == [] then acc else RomReportFields(RomReportField(acc, items[0]), items[1..])
  }

  function DecodeRomMessage(bytes: seq<byte>): Option<RomReport> {
    match ReadControlItems(bytes)
    case None => None
    case Some(items) => Some(RomReportFields(RomReport(None, None, None, None), items))
  }

  /** A little-endian double whose exponent is not all ones. */
  predicate IsFinite(bytes: seq<byte>) {
    |bytes| == 8 && !(bytes[7] % 0x80 == 0x7f && bytes[6] / 0x10 == 0xf)
  }

  /** Numbers are read as the low 32 bits, signed; an image only up to its own limit; scales only when finite. */
  function CursorField(acc: CursorShape, item: Item): CursorShape {
    match item
    case VarintItem(tag, value) =>
      var number := Some(ToInt32(value));
      if tag == 1 then acc.(posX := number)
      else if tag == 2 then acc.(posY := number)
      else if tag == 3 then acc.(width := number)
      else if tag == 4 then acc.(height := number)
      else if tag == 6 then acc.(cursorType := number)
      else if tag == 9 then acc.(screenId := number)
      else acc
    case BytesItem(tag, payload) =>
      if tag == 5 && |payload| <= MAX_CURSOR_IMAGE_BYTES then acc.(image := Some(payload)) else acc
    case Fixed64Item(tag, payload) =>
      if tag == 7 && IsFinite(payload) then acc.(xScale := Some(payload))
      else if tag == 8 && IsFinite(payload) then acc.(yScale := Some(payload))
      else acc
    case Fixed32Item(_, _) => acc
  }

  function CursorFields(acc: CursorShape, items: seq<Item>): CursorShape
    decreases |items|
  {
    if items == [] then acc else CursorFields(CursorField(acc, items[0]), items[1..])
  }

  const NO_CURSOR := CursorShape(None, None, None, None, None, None, None, None, None)

  function DecodeCursor(bytes: seq<byte>): Option<CursorShape> {
    match ReadControlItems(bytes)
    case None => None
    case Some(items) => Some(CursorFields(NO_CURSOR, items))
  }

  function SystemFields(acc: SystemState, items: seq<Item>): SystemState
    decreases |items|
  {
    if items == [] then acc
    else
      SystemFields(if items[0].tag == 2 && items[0].BytesItem? then SystemState(DecodeCursor(items[0].payload)) else acc,
                   items[1..])
  }

  function DecodeSystemState(bytes: seq<byte>): Option<SystemState> {
    match ReadControlItems(bytes)
    case None => None
    case Some(items) => Some(SystemFields(SystemState(None), items))
  }

  function TopField(acc: Message, item: Item): Message {
    if item.tag == 1 && item.VarintItem? then acc.(sequence := SafeNumber(item.value))
    else if item.tag == 2 && item.VarintItem? then acc.(timestampMs := SafeNumber(item.value))
    else if item.tag == SIMPLE_ACTION_TAG && item.BytesItem? then acc.(simpleAction := DecodeAction(item.payload))
    else if item.tag == CAPTURE_CHANGE_TAG && item.BytesItem? then acc.(captureChange := DecodeCapture(item.payload))
    else if item.tag == ROM_MESSAGE_TAG && item.BytesItem? then acc.(romMessage := DecodeRomMessage(item.payload))
    else if item.tag == SEND_TO_ROM_TAG && item.BytesItem? then acc.(sendToRom := DecodeRom(item.payload))
    else if item.tag == SYSTEM_STATE_TAG && item.BytesItem? then
      acc.(systemStateChange := DecodeSystemState(item.payload))
    else acc
  }

  function TopFields(acc: Message, items: seq<Item>): Message
    decreases |items|
  {
    if items == [] then acc else TopFields(TopField(acc, items[0]), items[1..])
  }

  function TagsOf(items: seq<Item>): seq<nat> {
    if items == [] then [] else [items[0].tag] + TagsOf(items[1..])
  }

  function Decode(bytes: seq<byte>): Option<Message> {
    if |bytes| > MAX_CONTROL_BYTES then None
    else
      match ReadControlItems(bytes)
      case None => None
      case Some(items) => Some(TopFields(Message(None, None, TagsOf(items), None, None), items))
  }

  method DecodeStreamerControlMessage(bytes: seq<byte>) returns (r: Option<Message>)
    ensures r == Decode(bytes)
  {
    hide TopField;
    if |bytes| > MAX_CONTROL_BYTES { return None; }
    var items := ReadControlItems(bytes);
    if items.None? { return None; }
    var decoded := Message(None, None, TagsOf(items.value), None, None);
    ghost var begun := decoded;
    for i := 0 to |items.value|
      invariant TopFields(decoded, items.value[i..]) == TopFields(begun, items.value)
    {
      assert items.value[i..][1..] == items.value[i + 1..];
      decoded := TopField(decoded, items.value[i]);
    }
    return Some(decoded);
  }

  method DecodeSendToRom(bytes: seq<byte>) returns (r: Option<SendToRom>)
    ensures r == DecodeRom(bytes)
  {
    hide RomField;
    var items := ReadControlItems(bytes);
    if items.None? { return None; }
    var decoded := SendToRom(ROM_INPUT, None, None);
    for i := 0 to |items.value|
      invariant RomFields(decoded, items.value[i..]) == RomFields(SendToRom(ROM_INPUT, None, None), items.value)
    {
      assert items.value[i..][1..] == items.value[i + 1..];
      decoded := RomField(decoded, items.value[i]);
    }
    return Some(decoded);
  }

  // ---------------------------------------------------------------- round trip of the envelope

  predicate IsUint64(value: int) {
    0 <= value < TWO_TO_THE_64
  }

  lemma EnvelopeFieldsOfMessage(sequence: nat, timestampMs: nat, tag: nat, body: seq<byte>)
    requires tag == SIMPLE_ACTION_TAG || tag == SEND_TO_ROM_TAG
    ensures var items := EnvelopeOf(sequence, timestampMs, tag, body);
            TopFields(Message(None, None, TagsOf(items), None, None), items) ==
            Message(SafeNumber(sequence), SafeNumber(timestampMs), [1, 2, tag],
                    if tag == SIMPLE_ACTION_TAG then DecodeAction(body) else None,
                    if tag == SEND_TO_ROM_TAG then DecodeRom(body) else None)
  {
    hide DecodeAction, DecodeRom;
    var a, b, c := VarintItem(1, sequence), VarintItem(2, timestampMs), BytesItem(tag, body);
    var items := EnvelopeOf(sequence, timestampMs, tag, body);
    assert items == [a, b, c] && items[1..] == [b, c] && [b, c][1..] == [c] && [c][1..] == [];
    assert TagsOf([c]) == [tag] && TagsOf([b, c]) == [2, tag] && TagsOf(items) == [1, 2, tag];
    var m0 := Message(None, None, [1, 2, tag], None, None);
    var m1 := TopField(m0, a);
    var m2 := TopField(m1, b);
    assert TopFields(m2, [c]) == TopField(m2, c);
    assert TopFields(m1, [b, c]) == TopFields(m2, [c]);
    assert TopFields(m0, items) == TopFields(m1, [b, c]);
  }

  /** The envelope adds at most 26 bytes; the body is refused exactly when it exceeds the payload limit. */
  lemma ControlEnvelopeRoundTrip(sequence: int, timestampMs: int, tag: nat, body: seq<byte>)
    requires IsUint64(sequence) && IsUint64(timestampMs) && |body| < TWO_TO_THE_63
    requires tag == SIMPLE_ACTION_TAG || tag == SEND_TO_ROM_TAG
    ensures var encoded := EncodeEnvelope(sequence, timestampMs, tag, body);
            encoded.Some? && Decode(encoded.value) ==
            if |body| <= CONTROL_LIMITS.maxLengthDelimitedBytes
            then Some(Message(SafeNumber(sequence), SafeNumber(timestampMs), [1, 2, tag],
                              if tag == SIMPLE_ACTION_TAG then DecodeAction(body) else None,
                              if tag == SEND_TO_ROM_TAG then DecodeRom(body) else None))
            else None
  {
    hide ItemsBytes, ReadItems, TopFields, DecodeAction, DecodeRom, TagsOf;
    var items := EnvelopeOf(sequence, timestampMs, tag, body);
    ReadWrittenItemsIff(items, CONTROL_LIMITS, false);
    EnvelopeFieldsOfMessage(sequence, timestampMs, tag, body);
    assert items[2] == BytesItem(tag, body) && items[2] in items;
    if |body| <= CONTROL_LIMITS.maxLengthDelimitedBytes {
      ControlEnvelopeSize(sequence, timestampMs, tag, body);
    }
  }

  lemma ControlEnvelopeSize(sequence: nat, timestampMs: nat, tag: nat, body: seq<byte>)
    requires IsUint64(sequence) && IsUint64(timestampMs) && tag < 16 && |body| <= CONTROL_LIMITS.maxLengthDelimitedBytes
    ensures |ItemsBytes(EnvelopeOf(sequence, timestampMs, tag, body))| <= |body| + 26
  {
    hide ItemsBytes;
    var a, b, c := [VarintItem(1, sequence)], [VarintItem(2, timestampMs)], [BytesItem(tag, body)];
    Power128Of10();
    VarintItemSize(1, sequence);
    VarintItemSize(2, timestampMs);
    MessageItemSize(tag, body);
    ItemsBytesAppend(a, b);
    ItemsBytesAppend(a + b, c);
  }

  lemma Power128Of10()
    ensures Power128(10) > TWO_TO_THE_64
  {
    PowersOf128();
    assert Power128(10) == 0x80 * Power128(9);
  }

  lemma VarintItemSize(tag: nat, value: nat)
    requires tag < 16 && value < TWO_TO_THE_64
    ensures |ItemsBytes([VarintItem(tag, value)])| <= 11
  {
    OneItem(VarintItem(tag, value));
    Power128Of10();
    VarintSize(value, 10);
  }

  // ---------------------------------------------------------------- input and text messages

  lemma {:induction false} RomFieldsAppend(acc: SendToRom, a: seq<Item>, b: seq<Item>)
    ensures RomFields(acc, a + b) == RomFields(RomFields(acc, a), b)
    decreases |a|
  {
    hide RomField;
    if a == [] {
      assert a + b == b;
    } else {
      assert (a + b)[0] == a[0] && (a + b)[1..] == a[1..] + b;
      RomFieldsAppend(RomField(acc, a[0]), a[1..], b);
    }
  }

  lemma RomOneField(acc: SendToRom, item: Item)
    ensures RomFields(acc, [item]) == RomField(acc, item) && RomFields(acc, []) == acc
  {
    assert [item][1..] == [];
  }

  lemma DecodeRomBody(inputType: nat, inputMessage: seq<byte>, displayId: nat)
    requires inputType <= MAX_SAFE_INTEGER && displayId < TWO_TO_THE_64
    requires |ItemsBytes(RomItems(inputType, inputMessage, displayId))| <= CONTROL_LIMITS.maxLengthDelimitedBytes
    ensures DecodeRom(ItemsBytes(RomItems(inputType, inputMessage, displayId))) ==
            Some(SendToRom(inputType,
                           if inputMessage == [] then None else Some(DecodeText(inputMessage)),
                           if displayId == 0 then None else SafeNumber(displayId)))
  {
    hide ItemsBytes, ReadItems, DecodeText, RomFields;
    var kind, text, display := UnlessZero(1, inputType), UnlessEmpty(2, inputMessage), UnlessZero(3, displayId);
    var items := RomItems(inputType, inputMessage, displayId);
    if inputMessage != [] {
      assert items[|kind|] == BytesItem(2, inputMessage);
      MessageInsideItems(items, |kind|);
    }
    ReadWrittenItems(items, CONTROL_LIMITS, false);
    var m0 := SendToRom(ROM_INPUT, None, None);
    RomFieldsAppend(m0, kind + text, display);
    RomFieldsAppend(m0, kind, text);
    RomOneField(m0, VarintItem(1, inputType));
    var m1 := RomFields(m0, kind);
    RomOneField(m1, BytesItem(2, inputMessage));
    var m2 := RomFields(m1, text);
    RomOneField(m2, VarintItem(3, displayId));
  }

  /**
   What an input or text message decodes to: its type, the text a UTF-8 decoder makes of its bytes, and its display
   id, an empty text and id 0 as absent; nothing exactly when its body exceeds the decoder's payload limit.
   */
  lemma DecodeEncodedRom(sequence: int, timestampMs: int, inputType: nat, inputMessage: seq<byte>, displayId: int)
    requires IsUint64(sequence) && IsUint64(timestampMs)
    requires inputType == ROM_INPUT || inputType == ROM_TEXT
    requires 0 <= displayId <= MAX_SAFE_INTEGER && ValidUtf8(inputMessage) && |inputMessage| < TWO_TO_THE_63 - 1024
    ensures var body := ItemsBytes(RomItems(inputType, inputMessage, displayId));
            var encoded := EncodeRom(sequence, timestampMs, inputType, inputMessage, displayId);
            encoded.Some? && Decode(encoded.value) ==
            if |body| > CONTROL_LIMITS.maxLengthDelimitedBytes then None
            else Some(Message(SafeNumber(sequence), SafeNumber(timestampMs), [1, 2, SEND_TO_ROM_TAG], None,
                              Some(SendToRom(inputType,
                                             if inputMessage == [] then None
                                             else Some(Exact(DroppedByteOrderMark(inputMessage))),
                                             if displayId == 0 then None else Some(displayId)))))
  {
    hide ItemsBytes, Decode, DecodeRom, ValidUtf8, EncodeEnvelope;
    var body := ItemsBytes(RomItems(inputType, inputMessage, displayId));
    RomBodySize(inputType, inputMessage, displayId);
    ControlEnvelopeRoundTrip(sequence, timestampMs, SEND_TO_ROM_TAG, body);
    if |body| <= CONTROL_LIMITS.maxLengthDelimitedBytes {
      DecodeRomBody(inputType, inputMessage, displayId);
    }
  }

  /** The message itself, as it was given to the encoder. */
  function RomMessage(inputType: nat, inputMessage: seq<byte>, displayId: nat): SendToRom {
    SendToRom(inputType, if inputMessage == [] then None else Some(Exact(inputMessage)),
              if displayId == 0 then None else Some(displayId))
  }

  /**
   The type, the text and the display id come back as they were if and only if the body is within the decoder's
   payload limit and the text does not begin with a byte order mark.
   */
  lemma RomRoundTripIff(sequence: int, timestampMs: int, inputType: nat, inputMessage: seq<byte>, displayId: int)
    requires IsUint64(sequence) && IsUint64(timestampMs)
    requires inputType == ROM_INPUT || inputType == ROM_TEXT
    requires 0 <= displayId <= MAX_SAFE_INTEGER && ValidUtf8(inputMessage) && |inputMessage| < TWO_TO_THE_63 - 1024
    ensures var body := ItemsBytes(RomItems(inputType, inputMessage, displayId));
            var encoded := EncodeRom(sequence, timestampMs, inputType, inputMessage, displayId);
            && encoded.Some?
            && (Decode(encoded.value).Some?
                && Decode(encoded.value).value.sendToRom == Some(RomMessage(inputType, inputMessage, displayId))
                <==> |body| <= CONTROL_LIMITS.maxLengthDelimitedBytes && !StartsWithByteOrderMark(inputMessage))
  {
    hide ItemsBytes, Decode, ValidUtf8, EncodeRom, RomItems;
    DecodeEncodedRom(sequence, timestampMs, inputType, inputMessage, displayId);
  }

  lemma RomBodySize(inputType: nat, inputMessage: seq<byte>, displayId: nat)
    requires inputType < TWO_TO_THE_64 && displayId < TWO_TO_THE_64 && |inputMessage| < TWO_TO_THE_63 - 1024
    ensures |ItemsBytes(RomItems(inputType, inputMessage, displayId))| <= |inputMessage| + 33
  {
    hide ItemsBytes;
    Power128Of10();
    var kind, text, display := UnlessZero(1, inputType), UnlessEmpty(2, inputMessage), UnlessZero(3, displayId);
    NumberItemSize(1, inputType, 10);
    NumberItemSize(3, displayId, 10);
    if inputMessage == [] {
      NothingToWrite();
    } else {
      OneItem(BytesItem(2, inputMessage));
      VarintSize(|inputMessage|, 10);
      KeySize(BytesItem(2, inputMessage));
    }
    ItemsBytesAppend(kind, text);
    ItemsBytesAppend(kind + text, display);
  }

  lemma KeySize(item: Item)
    requires item.tag < 16
    ensures |KeyBytes(item)| == 1
  {
  }

  // ---------------------------------------------------------------- echo messages

  const SEQ_HEAD: seq<byte> := [0x7b, 0x22, 0x73, 0x65, 0x71, 0x22, 0x3a]   // {"seq":
  const SEQ_TAIL: seq<byte> := [0x7d]                                     // }

  predicate IsDigitByte(b: byte) {
    0x30 <= b <= 0x39
  }

  function DecimalBytes(n: nat): (s: seq<byte>)
    ensures s != [] && forall i | 0 <= i < |s| :: IsDigitByte(s[i])
  {
    if n < 10 then [0x30 + n] else DecimalBytes(n / 10) + [0x30 + n % 10]
  }

  function NumberOf(s: seq<byte>): nat
    requires forall i | 0 <= i < |s| :: IsDigitByte(s[i])
  {
    if s == [] then 0
    else
      var last := s[|s| - 1];
      assert IsDigitByte(s[|s| - 1]);
      NumberOf(s[..|s| - 1]) * 10 + (last - 0x30)
  }

  const MINUS: byte := 0x2d

  function SignedDecimal(n: int): seq<byte> {
    if n < 0 then [MINUS] + DecimalBytes(-n) else DecimalBytes(n)
  }

  /** `{"seq":N}` */
  function SequenceText(n: int): seq<byte> {
    SEQ_HEAD + SignedDecimal(n) + SEQ_TAIL
  }

  function SafeInteger(value: int): Option<int> {
    if -MAX_SAFE_INTEGER <= value <= MAX_SAFE_INTEGER then Some(value) else None
  }

  predicate AllDigits(s: seq<byte>) {
    forall i | 0 <= i < |s| :: IsDigitByte(s[i])
  }

  /** A number with a sign is read as JSON, which takes no leading zero; one without is read leniently. */
  function ReadNumber(s: seq<byte>): Option<int> {
    if s == [] then None
    else if AllDigits(s) then SafeInteger(NumberOf(s))
    else if s[0] == MINUS && s[1..] != [] && AllDigits(s[1..]) && (s[1] == 0x30 ==> |s| == 2)
      then SafeInteger(0 - NumberOf(s[1..]))
    else None
  }

  /** What the action's text says its sequence is, for texts of the form the encoder writes. */
  function ReadActionSequence(args: seq<byte>): Option<int> {
    if |args| < |SEQ_HEAD| + |SEQ_TAIL| || !(SEQ_HEAD <= args) || args[|args| - 1..] != SEQ_TAIL then None
    else ReadNumber(args[|SEQ_HEAD|..|args| - 1])
  }

  lemma {:induction false} NumberOfDecimal(n: nat)
    ensures NumberOf(DecimalBytes(n)) == n
  {
    if n < 10 {
      assert DecimalBytes(n)[..0] == [];
    } else {
      NumberOfDecimal(n / 10);
      assert DecimalBytes(n)[..|DecimalBytes(n)| - 1] == DecimalBytes(n / 10);
    }
  }

  lemma {:induction false} NoLeadingZero(n: nat)
    requires n > 0
    ensures DecimalBytes(n)[0] != 0x30
  {
    if n >= 10 {
      NoLeadingZero(n / 10);
    }
  }

  lemma {:induction false} AsciiIsValid(s: seq<byte>)
    requires forall i | 0 <= i < |s| :: s[i] < 0x80
    ensures ValidUtf8(s) && !StartsWithByteOrderMark(s)
  {
    if s != [] {
      AsciiIsValid(s[1..]);
    }
  }

  lemma ReadWrittenNumber(n: int)
    ensures ReadNumber(SignedDecimal(n)) == SafeInteger(n)
  {
    hide DecimalBytes, NumberOf;
    if n < 0 {
      NumberOfDecimal(-n);
      NoLeadingZero(-n);
      assert SignedDecimal(n)[1..] == DecimalBytes(-n);
    } else {
      NumberOfDecimal(n);
    }
  }

  /** The sequence number, of either sign, comes back from its text exactly when a JavaScript number is exact for it. */
  lemma SequenceTextRoundTripIff(n: int)
    ensures DecodeText(SequenceText(n)) == Exact(SequenceText(n))
    ensures ReadActionSequence(SequenceText(n)) ==
            if -MAX_SAFE_INTEGER <= n <= MAX_SAFE_INTEGER then Some(n) else None
  {
    hide SignedDecimal, ReadNumber;
    var text := SequenceText(n);
    SignedDecimalIsAscii(n);
    AsciiIsValid(text);
    assert text[|SEQ_HEAD|..|text| - 1] == SignedDecimal(n);
    ReadWrittenNumber(n);
  }

  /** A number: digits, behind a sign or not; with a sign there is no leading zero. */
  predicate IsNumeral(negative: bool, digits: seq<byte>) {
    digits != [] && AllDigits(digits) && (negative && digits[0] == 0x30 ==> |digits| == 1)
  }

  function Numeral(negative: bool, digits: seq<byte>): seq<byte> {
    if negative then [MINUS] + digits else digits
  }

  /** Every text of this form is read, as its number if that is a safe integer. */
  lemma SequenceIsRead(negative: bool, digits: seq<byte>)
    requires IsNumeral(negative, digits)
    ensures ReadActionSequence(SEQ_HEAD + Numeral(negative, digits) + SEQ_TAIL) ==
            SafeInteger(if negative then 0 - NumberOf(digits) else NumberOf(digits))
  {
    hide NumberOf, ReadActionSequence, ReadNumber;
    BodyIsRead(Numeral(negative, digits));
    assert negative ==> ([MINUS] + digits)[0] == MINUS && ([MINUS] + digits)[1..] == digits;
    NumberIsRead(Numeral(negative, digits), digits);
  }

  /** And nothing else is. */
  lemma OnlySequenceIsRead(args: seq<byte>) returns (negative: bool, digits: seq<byte>)
    requires ReadActionSequence(args).Some?
    ensures IsNumeral(negative, digits) && args == SEQ_HEAD + Numeral(negative, digits) + SEQ_TAIL
  {
    var body := BodyOfSequence(args);
    hide NumberOf, ReadActionSequence, ReadNumber;
    negative := !AllDigits(body);
    digits := if negative then body[1..] else body;
    NumberIsRead(body, digits);
  }

  lemma BodyIsRead(body: seq<byte>)
    ensures ReadActionSequence(SEQ_HEAD + body + SEQ_TAIL) == ReadNumber(body)
  {
    var args := SEQ_HEAD + body + SEQ_TAIL;
    assert args[|SEQ_HEAD|..|args| - 1] == body;
  }

  lemma BodyOfSequence(args: seq<byte>) returns (body: seq<byte>)
    requires ReadActionSequence(args).Some?
    ensures args == SEQ_HEAD + body + SEQ_TAIL && ReadActionSequence(args) == ReadNumber(body) && body != []
  {
    body := args[|SEQ_HEAD|..|args| - 1];
  }

  lemma NumberIsRead(body: seq<byte>, digits: seq<byte>)
    requires body != [] && digits == if AllDigits(body) then body else body[1..]
    ensures ReadNumber(body).Some? ==> digits != [] && AllDigits(digits)
    ensures digits != [] && AllDigits(digits) && digits == body ==> ReadNumber(body) == SafeInteger(NumberOf(digits))
    ensures digits != [] && AllDigits(digits) && body == [MINUS] + digits ==>
              ReadNumber(body) ==
              if digits[0] == 0x30 && |digits| != 1 then None else SafeInteger(0 - NumberOf(digits))
    ensures ReadNumber(body).Some? && digits != body ==>
              body == [MINUS] + digits && (digits[0] == 0x30 ==> |digits| == 1)
  {
    hide NumberOf;
  }

  lemma SignedDecimalIsAscii(n: int)
    ensures forall i | 0 <= i < |SignedDecimal(n)| :: SignedDecimal(n)[i] < 0x80
  {
    hide DecimalBytes;
  }

  lemma {:induction false} ActionFieldsAppend(acc: SimpleAction, a: seq<Item>, b: seq<Item>)
    ensures ActionFields(acc, a + b) == ActionFields(ActionFields(acc, a), b)
    decreases |a|
  {
    hide ActionField;
    if a == [] {
      assert a + b == b;
    } else {
      assert (a + b)[0] == a[0] && (a + b)[1..] == a[1..] + b;
      ActionFieldsAppend(ActionField(acc, a[0]), a[1..], b);
    }
  }

  lemma ActionOneField(acc: SimpleAction, item: Item)
    ensures ActionFields(acc, [item]) == ActionField(acc, item) && ActionFields(acc, []) == acc
  {
    assert [item][1..] == [];
  }

  /** Flags are JavaScript numbers. */
  predicate SafeFlags(flags: Flags) {
    forall t <- flags :: -MAX_SAFE_INTEGER <= flags[t] <= MAX_SAFE_INTEGER
  }

  /** The flags that survive, among the given tags: a negative number is written as a huge one and then dropped. */
  function PositiveFlags(tags: seq<nat>, flags: Flags): Flags {
    map t | t in tags && t in flags && flags[t] > 0 :: flags[t]
  }

  lemma PositiveFlagsStep(acc: Flags, tag: nat, rest: seq<nat>, flags: Flags)
    ensures acc + PositiveFlags([tag] + rest, flags) ==
            (if FlagValue(flags, tag) > 0 then acc[tag := FlagValue(flags, tag)] else acc) + PositiveFlags(rest, flags)
  {
  }

  /** A negative safe integer looks too large to be safe once it is written. */
  lemma NegativeLooksHuge(value: int)
    requires -MAX_SAFE_INTEGER <= value <= MAX_SAFE_INTEGER
    ensures TwosComplement(value) < TWO_TO_THE_64
    ensures SafeNumber(TwosComplement(value)) == if value >= 0 then Some(value) else None
  {
  }

  lemma FlagOneField(acc: Flags, tag: nat, value: int, rest: seq<Item>)
    requires -MAX_SAFE_INTEGER <= value <= MAX_SAFE_INTEGER && tag in FLAG_TAGS
    ensures FlagFields(acc, FlagItem(tag, value) + rest) ==
            FlagFields(if value > 0 then acc[tag := value] else acc, rest)
  {
    hide FLAG_TAGS, TwosComplement;
    NegativeLooksHuge(value);
    if value == 0 {
      assert FlagItem(tag, value) + rest == rest;
    } else {
      var item := VarintItem(tag, TwosComplement(value));
      assert ([item] + rest)[0] == item && ([item] + rest)[1..] == rest;
    }
  }

  lemma {:induction false} FlagsReadBack(acc: Flags, tags: seq<nat>, flags: Flags)
    requires SafeFlags(flags) && forall t <- tags :: t in FLAG_TAGS
    ensures FlagFields(acc, FlagItems(tags, flags)) == acc + PositiveFlags(tags, flags)
    decreases |tags|
  {
    hide FLAG_TAGS, FlagFields, FlagItem, PositiveFlags;
    if tags == [] {
      NoFlags(acc, flags);
    } else {
      var tag := tags[0];
      var value := FlagValue(flags, tag);
      assert tag in tags && forall t <- tags[1..] :: t in tags;
      FlagOneField(acc, tag, value, FlagItems(tags[1..], flags));
      FlagsReadBack(if value > 0 then acc[tag := value] else acc, tags[1..], flags);
      PositiveFlagsStep(acc, tag, tags[1..], flags);
      assert [tag] + tags[1..] == tags;
    }
  }

  lemma NoFlags(acc: Flags, flags: Flags)
    ensures FlagFields(acc, []) == acc + PositiveFlags([], flags)
  {
    assert PositiveFlags([], flags) == map[];
  }

  lemma {:induction false} FlagItemsReadable(tags: seq<nat>, flags: Flags)
    requires SafeFlags(flags) && forall t <- tags :: 1 <= t < 16
    ensures |FlagItems(tags, flags)| <= |tags|
    ensures forall item <- FlagItems(tags, flags) :: Readable(item, CONTROL_LIMITS)
    ensures |ItemsBytes(FlagItems(tags, flags))| <= 11 * |tags|
  {
    hide TwosComplement;
    if tags != [] {
      var tag, value := tags[0], FlagValue(flags, tags[0]);
      assert tag in tags && forall t <- tags[1..] :: t in tags;
      NegativeLooksHuge(value);
      if value == 0 {
        NothingToWrite();
      } else {
        VarintItemSize(tag, TwosComplement(value));
      }
      FlagItemsReadable(tags[1..], flags);
      ItemsBytesAppend(FlagItem(tag, value), FlagItems(tags[1..], flags));
    }
  }

  /** A flag that is written comes back as it was if and only if it is not negative. */
  lemma FlagComesBackIff(flags: Flags, tag: nat)
    requires SafeFlags(flags) && tag in FLAG_TAGS && tag in flags && flags[tag] != 0
    ensures var decoded := DecodeFlags(ItemsBytes(FlagItems(FLAG_TAGS, flags)));
            && decoded == Some(PositiveFlags(FLAG_TAGS, flags))
            && (tag in decoded.value && decoded.value[tag] == flags[tag] <==> flags[tag] >= 0)
            && (tag in decoded.value <==> flags[tag] >= 0)
  {
    hide ItemsBytes, ReadItems, FlagFields, FlagItems;
    DecodeWrittenFlags(flags);
  }

  lemma DecodeWrittenFlags(flags: Flags)
    requires SafeFlags(flags)
    ensures DecodeFlags(ItemsBytes(FlagItems(FLAG_TAGS, flags))) == Some(PositiveFlags(FLAG_TAGS, flags))
  {
    hide ItemsBytes, ReadItems, FlagFields, FlagItems;
    FlagItemsReadable(FLAG_TAGS, flags);
    ReadWrittenItems(FlagItems(FLAG_TAGS, flags), CONTROL_LIMITS, false);
    FlagsReadBack(map[], FLAG_TAGS, flags);
    assert map[] + PositiveFlags(FLAG_TAGS, flags) == PositiveFlags(FLAG_TAGS, flags);
  }

  lemma DecodeActionBody(action: nat, n: int, flags: Flags)
    requires action <= ECHO_RESPONSE && SafeFlags(flags) && |SequenceText(n)| <= 1024
    ensures |ItemsBytes(ActionItems(action, SequenceText(n), flags))| <= CONTROL_LIMITS.maxLengthDelimitedBytes
    ensures DecodeAction(ItemsBytes(ActionItems(action, SequenceText(n), flags))) ==
            Some(SimpleAction(action, Some(Exact(SequenceText(n))), Some(PositiveFlags(FLAG_TAGS, flags))))
  {
    hide ItemsBytes, ReadItems, DecodeText, ActionFields, SequenceText, FlagItems, FlagFields;
    var args, flagBytes := SequenceText(n), ItemsBytes(FlagItems(FLAG_TAGS, flags));
    var kind, text, flag := UnlessZero(1, action), [BytesItem(2, args)], [BytesItem(4, flagBytes)];
    var items := ActionItems(action, args, flags);
    FlagItemsReadable(FLAG_TAGS, flags);
    DecodeWrittenFlags(flags);
    ReadWrittenItems(items, CONTROL_LIMITS, false);
    SequenceTextRoundTripIff(n);
    ActionSize(action, args, flagBytes);
    var m0 := SimpleAction(ECHO_REQUEST, None, None);
    ActionFieldsAppend(m0, kind + text, flag);
    ActionFieldsAppend(m0, kind, text);
    ActionOneField(m0, VarintItem(1, action));
    var m1 := ActionFields(m0, kind);
    ActionOneField(m1, BytesItem(2, args));
    var m2 := ActionFields(m1, text);
    ActionOneField(m2, BytesItem(4, flagBytes));
  }

  lemma ActionSize(action: nat, args: seq<byte>, flagBytes: seq<byte>)
    requires action <= ECHO_RESPONSE && |args| <= 1024 && |flagBytes| <= 1024
    ensures |ItemsBytes(UnlessZero(1, action) + [BytesItem(2, args)] + [BytesItem(4, flagBytes)])| <= 4096
  {
    hide ItemsBytes;
    PowersOf128();
    var kind, text, flag := UnlessZero(1, action), [BytesItem(2, args)], [BytesItem(4, flagBytes)];
    NumberItemSize(1, action, 1);
    MessageItemSize(2, args);
    MessageItemSize(4, flagBytes);
    ItemsBytesAppend(kind, text);
    ItemsBytesAppend(kind + text, flag);
  }

  lemma {:induction false} DecimalLength(n: nat, digits: nat)
    requires n < Power10(digits) && digits > 0
    ensures |DecimalBytes(n)| <= digits
  {
    if n >= 10 {
      assert Power10(1) == 10;
      DecimalLength(n / 10, digits - 1);
    }
  }

  function Power10(n: nat): nat {
    if n == 0 then 1 else 10 * Power10(n - 1)
  }

  /**
   An echo request or response comes back with its kind, its text and its flags, and the text yields the exact
   sequence number whenever that is a safe integer. The length leaves room for every finite JavaScript number, which
   has at most 309 digits.
   */
  lemma EchoRoundTrip(sequence: int, timestampMs: int, action: nat, echoed: int, flags: Flags)
    requires IsUint64(sequence) && IsUint64(timestampMs) && |SequenceText(echoed)| <= 1024
    requires action <= ECHO_RESPONSE && SafeFlags(flags)
    ensures var body := ItemsBytes(ActionItems(action, SequenceText(echoed), flags));
            var encoded := EncodeEnvelope(sequence, timestampMs, SIMPLE_ACTION_TAG, body);
            encoded.Some? && Decode(encoded.value) ==
            Some(Message(SafeNumber(sequence), SafeNumber(timestampMs), [1, 2, SIMPLE_ACTION_TAG],
                         Some(SimpleAction(action, Some(Exact(SequenceText(echoed))), Some(PositiveFlags(FLAG_TAGS, flags)))),
                         None))
    ensures ReadActionSequence(SequenceText(echoed)) == SafeInteger(echoed)
  {
    hide ItemsBytes, Decode, DecodeAction, EncodeEnvelope, ReadActionSequence;
    DecodeActionBody(action, echoed, flags);
    SequenceTextRoundTripIff(echoed);
    ControlEnvelopeRoundTrip(sequence, timestampMs, SIMPLE_ACTION_TAG,
                             ItemsBytes(ActionItems(action, SequenceText(echoed), flags)));
  }

  /** The text of a number of at most 1000 digits has room. */
  lemma SequenceTextFits(echoed: int, digits: nat)
    requires 0 < digits <= 1000 && 0 - Power10(digits) < echoed < Power10(digits)
    ensures |SequenceText(echoed)| <= 1024
  {
    DecimalLength(if echoed < 0 then -echoed else echoed, digits);
  }

  // ---------------------------------------------------------------- cursor positions

  /** Positions written as int32 fields come back as they were, whatever their sign, exactly in the range of int32. */
  lemma CursorPositionIff(posX: int, posY: int)
    requires posX < TWO_TO_THE_64 && posY < TWO_TO_THE_64
    ensures var body := ItemsBytes([VarintItem(1, TwosComplement(posX))] + [VarintItem(2, TwosComplement(posY))]);
            var cursor := DecodeCursor(body);
            && cursor.Some?
            && (cursor.value == NO_CURSOR.(posX := Some(posX), posY := Some(posY)) <==>
                  -0x8000_0000 <= posX < 0x8000_0000 && -0x8000_0000 <= posY < 0x8000_0000)
  {
    hide ItemsBytes, ReadItems, TwosComplement, ToInt32;
    var x, y := VarintItem(1, TwosComplement(posX)), VarintItem(2, TwosComplement(posY));
    ComplementLow32(posX);
    ComplementLow32(posY);
    ReadWrittenItems([x] + [y], CONTROL_LIMITS, false);
    assert ([x] + [y])[1..] == [y] && [y][1..] == [];
    var m := CursorField(NO_CURSOR, x);
    assert CursorFields(m, [y]) == CursorField(m, y);
  }

  // ---------------------------------------------------------------- each component has its own field

  /** The bits of eight bytes, the lowest first. */
  function LittleEndian(bytes: seq<byte>): nat {
    if bytes == [] then 0 else bytes[0] + 256 * LittleEndian(bytes[1..])
  }

  /** A double is finite exactly when the eleven bits of its exponent are not all ones. */
  lemma FiniteIff(bytes: seq<byte>)
    requires |bytes| == 8
    ensures IsFinite(bytes) <==> LittleEndian(bytes) / 0x10_0000_0000_0000 % 0x800 != 0x7ff
  {
    var six: int, seven: int := bytes[6], bytes[7];
    var low := LowAndHigh(bytes);
    hide LittleEndian;
    ShiftedBy52(low, six + 256 * seven);
  }

  lemma ShiftedBy52(low: nat, high: nat)
    requires low < 0x1_0000_0000_0000
    ensures (low + 0x1_0000_0000_0000 * high) / 0x10_0000_0000_0000 == high / 16
  {
    assert high == 16 * (high / 16) + high % 16;
  }

  lemma LowAndHigh(bytes: seq<byte>) returns (low: nat)
    requires |bytes| == 8
    ensures low < 0x1_0000_0000_0000
    ensures var six: int, seven: int := bytes[6], bytes[7];
            LittleEndian(bytes) == low + 0x1_0000_0000_0000 * (six + 256 * seven)
  {
    var a: int, b: int, c: int, d: int, e: int, f: int := bytes[0], bytes[1], bytes[2], bytes[3], bytes[4], bytes[5];
    var g: int, h: int := bytes[6], bytes[7];
    FirstByte(bytes, 7);
    FirstByte(bytes, 6);
    FirstByte(bytes, 5);
    FirstByte(bytes, 4);
    FirstByte(bytes, 3);
    FirstByte(bytes, 2);
    FirstByte(bytes, 1);
    FirstByte(bytes, 0);
    assert LittleEndian(bytes[8..]) == 0 && bytes[0..] == bytes;
    low := a + 0x100 * b + 0x1_0000 * c + 0x100_0000 * d + 0x1_0000_0000 * e + 0x100_0000_0000 * f;
  }

  lemma FirstByte(bytes: seq<byte>, i: nat)
    requires i < |bytes|
    ensures var first: int := bytes[i]; LittleEndian(bytes[i..]) == first + 256 * LittleEndian(bytes[i + 1..])
  {
    assert bytes[i..][1..] == bytes[i + 1..];
  }

  /** The last of the fields that pass a test. */
  function LastOf(items: seq<Item>, test: Item -> bool): Option<Item> {
    if items == [] then None
    else if test(items[|items| - 1]) then Some(items[|items| - 1])
    else LastOf(items[..|items| - 1], test)
  }

  /** It is one of them, and none stands behind it. */
  lemma {:induction false} LastOfIsLast(items: seq<Item>, test: Item -> bool) returns (i: nat)
    ensures LastOf(items, test).None? <==> forall item <- items :: !test(item)
    ensures LastOf(items, test).Some? ==>
              i < |items| && items[i] == LastOf(items, test).value && test(items[i])
              && forall j | i < j < |items| :: !test(items[j])
  {
    i := 0;
    if items != [] {
      var front := items[..|items| - 1];
      assert forall item :: item in items <==> item in front || item == items[|items| - 1];
      if test(items[|items| - 1]) {
        i := |items| - 1;
      } else {
        i := LastOfIsLast(front, test);
      }
    }
  }

  function IsNumber(tag: nat): Item -> bool {
    (item: Item) => item.VarintItem? && item.tag == tag
  }

  function IsSafe(tag: nat): Item -> bool {
    (item: Item) => item.VarintItem? && item.tag == tag && item.value <= MAX_SAFE_INTEGER
  }

  function IsPayload(tag: nat): Item -> bool {
    (item: Item) => item.BytesItem? && item.tag == tag
  }

  function IsImage(tag: nat): Item -> bool {
    (item: Item) => item.BytesItem? && item.tag == tag && |item.payload| <= MAX_CURSOR_IMAGE_BYTES
  }

  function IsScale(tag: nat): Item -> bool {
    (item: Item) => item.Fixed64Item? && item.tag == tag && IsFinite(item.payload)
  }

  /** The last number with this tag, when a JavaScript number can hold it. */
  function SafeIn(items: seq<Item>, tag: nat): Option<nat> {
    match LastOf(items, IsNumber(tag))
    case Some(VarintItem(_, value)) => SafeNumber(value)
    case _ => None
  }

  /** The last number with this tag that a JavaScript number can hold. */
  function SafeOr(items: seq<Item>, tag: nat, fallback: nat): nat {
    match LastOf(items, IsSafe(tag))
    case Some(VarintItem(_, value)) => value
    case _ => fallback
  }

  function Int32In(items: seq<Item>, tag: nat): Option<int> {
    match LastOf(items, IsNumber(tag))
    case Some(VarintItem(_, value)) => Some(ToInt32(value))
    case _ => None
  }

  function PayloadIn(items: seq<Item>, test: Item -> bool): Option<seq<byte>> {
    match LastOf(items, test)
    case Some(BytesItem(_, payload)) => Some(payload)
    case Some(Fixed64Item(_, payload)) => Some(payload)
    case _ => None
  }

  function TextIn(items: seq<Item>, tag: nat): Option<Text> {
    match PayloadIn(items, IsPayload(tag))
    case Some(payload) => Some(DecodeText(payload))
    case None => None
  }

  lemma LastOfMore(items: seq<Item>, item: Item, test: Item -> bool)
    ensures LastOf(items + [item], test) == if test(item) then Some(item) else LastOf(items, test)
  {
    assert (items + [item])[..|items|] == items;
  }

  lemma {:induction false} RomIsRead(items: seq<Item>)
    ensures RomFields(SendToRom(ROM_INPUT, None, None), items) ==
            SendToRom(SafeOr(items, 1, ROM_INPUT), TextIn(items, 2), SafeIn(items, 3))
    decreases |items|
  {
    hide LastOf, DecodeText;
    if items == [] {
      NothingRead();
    } else {
      var front, last := items[..|items| - 1], items[|items| - 1];
      assert items == front + [last];
      RomIsRead(front);
      RomFieldsMore(SendToRom(ROM_INPUT, None, None), front, last);
      LastOfMore(front, last, IsSafe(1));
      LastOfMore(front, last, IsPayload(2));
      LastOfMore(front, last, IsNumber(3));
    }
  }

  lemma NothingRead()
    ensures forall test :: LastOf([], test) == None
  {
  }

  lemma {:induction false} RomFieldsMore(acc: SendToRom, items: seq<Item>, item: Item)
    ensures RomFields(acc, items + [item]) == RomField(RomFields(acc, items), item)
    decreases |items|
  {
    hide RomField;
    if items == [] {
      assert (items + [item])[1..] == [];
    } else {
      assert (items + [item])[0] == items[0] && (items + [item])[1..] == items[1..] + [item];
      RomFieldsMore(RomField(acc, items[0]), items[1..], item);
    }
  }

  lemma {:induction false} ActionIsRead(items: seq<Item>)
    ensures ActionFields(SimpleAction(ECHO_REQUEST, None, None), items) ==
            SimpleAction(SafeOr(items, 1, ECHO_REQUEST), TextIn(items, 2),
                         match PayloadIn(items, IsPayload(4)) case Some(flags) => DecodeFlags(flags) case None => None)
    decreases |items|
  {
    hide LastOf, DecodeText, DecodeFlags;
    if items == [] {
      NothingRead();
    } else {
      var front, last := items[..|items| - 1], items[|items| - 1];
      assert items == front + [last];
      ActionIsRead(front);
      ActionFieldsAppend(SimpleAction(ECHO_REQUEST, None, None), front, [last]);
      ActionOneField(ActionFields(SimpleAction(ECHO_REQUEST, None, None), front), last);
      LastOfMore(front, last, IsSafe(1));
      LastOfMore(front, last, IsPayload(2));
      LastOfMore(front, last, IsPayload(4));
    }
  }

  /** A flag is there exactly when a safe number is written under one of the flag tags, and then it is the last one. */
  lemma {:induction false} FlagsAreRead(items: seq<Item>, tag: nat)
    ensures var flags := FlagFields(map[], items);
            && (tag in flags <==> tag in FLAG_TAGS && LastOf(items, IsSafe(tag)).Some?)
            && (tag in flags ==> flags[tag] == SafeOr(items, tag, 0))
    decreases |items|
  {
    hide LastOf, FLAG_TAGS;
    if items == [] {
      NothingRead();
    } else {
      var front, last := items[..|items| - 1], items[|items| - 1];
      assert items == front + [last];
      FlagsAreRead(front, tag);
      FlagFieldsMore(map[], front, last);
      LastOfMore(front, last, IsSafe(tag));
    }
  }

  lemma {:induction false} FlagFieldsMore(acc: Flags, items: seq<Item>, item: Item)
    ensures FlagFields(acc, items + [item]) == FlagField(FlagFields(acc, items), item)
    decreases |items|
  {
    hide FlagField;
    if items == [] {
      assert (items + [item])[1..] == [];
    } else {
      assert (items + [item])[0] == items[0] && (items + [item])[1..] == items[1..] + [item];
      FlagFieldsMore(FlagField(acc, items[0]), items[1..], item);
    }
  }

  lemma {:induction false} CaptureIsRead(items: seq<Item>)
    ensures CaptureFields(CaptureChange(CT_DESKTOP, None, None), items) ==
            CaptureChange(SafeOr(items, 1, CT_DESKTOP), SafeIn(items, 2), TextIn(items, 3))
    decreases |items|
  {
    hide LastOf, DecodeText;
    if items == [] {
      NothingRead();
    } else {
      var front, last := items[..|items| - 1], items[|items| - 1];
      assert items == front + [last];
      CaptureIsRead(front);
      CaptureFieldsMore(CaptureChange(CT_DESKTOP, None, None), front, last);
      LastOfMore(front, last, IsSafe(1));
      LastOfMore(front, last, IsNumber(2));
      LastOfMore(front, last, IsPayload(3));
    }
  }

  lemma {:induction false} CaptureFieldsMore(acc: CaptureChange, items: seq<Item>, item: Item)
    ensures CaptureFields(acc, items + [item]) == CaptureField(CaptureFields(acc, items), item)
    decreases |items|
  {
    hide CaptureField;
    if items == [] {
      assert (items + [item])[1..] == [];
    } else {
      assert (items + [item])[0] == items[0] && (items + [item])[1..] == items[1..] + [item];
      CaptureFieldsMore(CaptureField(acc, items[0]), items[1..], item);
    }
  }

  lemma {:induction false} RomReportIsRead(items: seq<Item>)
    ensures RomReportFields(RomReport(None, None, None, None), items) ==
            RomReport(TextIn(items, 1), TextIn(items, 2), SafeIn(items, 3),
                      match PayloadIn(items, IsPayload(4)) case Some(bytes) => Some(|bytes|) case None => None)
    decreases |items|
  {
    hide LastOf, DecodeText;
    if items == [] {
      NothingRead();
    } else {
      var front, last := items[..|items| - 1], items[|items| - 1];
      assert items == front + [last];
      RomReportIsRead(front);
      RomReportFieldsMore(RomReport(None, None, None, None), front, last);
      LastOfMore(front, last, IsPayload(1));
      LastOfMore(front, last, IsPayload(2));
      LastOfMore(front, last, IsNumber(3));
      LastOfMore(front, last, IsPayload(4));
    }
  }

  lemma {:induction false} RomReportFieldsMore(acc: RomReport, items: seq<Item>, item: Item)
    ensures RomReportFields(acc, items + [item]) == RomReportField(RomReportFields(acc, items), item)
    decreases |items|
  {
    hide RomReportField;
    if items == [] {
      assert (items + [item])[1..] == [];
    } else {
      assert (items + [item])[0] == items[0] && (items + [item])[1..] == items[1..] + [item];
      RomReportFieldsMore(RomReportField(acc, items[0]), items[1..], item);
    }
  }

  /** Every part of a cursor: signed 32-bit numbers, the last image within its limit, the last finite scales. */
  function CursorIn(items: seq<Item>): CursorShape {
    CursorShape(Int32In(items, 1), Int32In(items, 2), Int32In(items, 3), Int32In(items, 4),
                PayloadIn(items, IsImage(5)), Int32In(items, 6),
                PayloadIn(items, IsScale(7)), PayloadIn(items, IsScale(8)), Int32In(items, 9))
  }

  lemma {:induction false} CursorIsRead(items: seq<Item>)
    ensures CursorFields(NO_CURSOR, items) == CursorIn(items)
    decreases |items|
  {
    hide LastOf, ToInt32, IsFinite;
    if items == [] {
      NothingRead();
    } else {
      var front, last := items[..|items| - 1], items[|items| - 1];
      assert items == front + [last];
      CursorIsRead(front);
      CursorFieldsMore(NO_CURSOR, front, last);
      CursorFieldIs(front, last);
    }
  }

  lemma Int32InMore(items: seq<Item>, item: Item, tag: nat)
    ensures Int32In(items + [item], tag) ==
            if item.VarintItem? && item.tag == tag then Some(ToInt32(item.value)) else Int32In(items, tag)
  {
    hide LastOf, ToInt32;
    LastOfMore(items, item, IsNumber(tag));
  }

  lemma PayloadInMore(items: seq<Item>, item: Item, test: Item -> bool)
    requires test(item) ==> item.BytesItem? || item.Fixed64Item?
    ensures PayloadIn(items + [item], test) == if test(item) then Some(item.payload) else PayloadIn(items, test)
  {
    hide LastOf;
    LastOfMore(items, item, test);
  }

  lemma CursorFieldIs(items: seq<Item>, item: Item)
    ensures CursorField(CursorIn(items), item) == CursorIn(items + [item])
  {
    hide Int32In, PayloadIn, ToInt32, IsFinite;
    Int32InMore(items, item, 1);
    Int32InMore(items, item, 2);
    Int32InMore(items, item, 3);
    Int32InMore(items, item, 4);
    Int32InMore(items, item, 6);
    Int32InMore(items, item, 9);
    PayloadInMore(items, item, IsImage(5));
    PayloadInMore(items, item, IsScale(7));
    PayloadInMore(items, item, IsScale(8));
  }

  lemma {:induction false} CursorFieldsMore(acc: CursorShape, items: seq<Item>, item: Item)
    ensures CursorFields(acc, items + [item]) == CursorField(CursorFields(acc, items), item)
    decreases |items|
  {
    hide CursorField;
    if items == [] {
      assert (items + [item])[1..] == [];
    } else {
      assert (items + [item])[0] == items[0] && (items + [item])[1..] == items[1..] + [item];
      CursorFieldsMore(CursorField(acc, items[0]), items[1..], item);
    }
  }

  lemma {:induction false} SystemIsRead(items: seq<Item>)
    ensures SystemFields(SystemState(None), items) ==
            SystemState(match PayloadIn(items, IsPayload(2))
                        case Some(cursor) => DecodeCursor(cursor)
                        case None => None)
    decreases |items|
  {
    hide PayloadIn, DecodeCursor;
    if items == [] {
      NoPayload(IsPayload(2));
    } else {
      var front, last := items[..|items| - 1], items[|items| - 1];
      assert items == front + [last];
      SystemIsRead(front);
      SystemFieldsMore(SystemState(None), front, last);
      PayloadInMore(front, last, IsPayload(2));
    }
  }

  lemma NoPayload(test: Item -> bool)
    ensures PayloadIn([], test) == None
  {
  }

  lemma {:induction false} SystemFieldsMore(acc: SystemState, items: seq<Item>, item: Item)
    ensures SystemFields(acc, items + [item]) ==
            if item.tag == 2 && item.BytesItem? then SystemState(DecodeCursor(item.payload)) else SystemFields(acc, items)
    decreases |items|
  {
    hide DecodeCursor;
    if items == [] {
      assert (items + [item])[1..] == [];
    } else {
      assert (items + [item])[0] == items[0] && (items + [item])[1..] == items[1..] + [item];
      var next := if items[0].tag == 2 && items[0].BytesItem? then SystemState(DecodeCursor(items[0].payload)) else acc;
      SystemFieldsMore(next, items[1..], item);
    }
  }

  /** What the decoder makes of each nested message: that of the last field with its tag. */
  function MessageIn(items: seq<Item>): Message {
    Message(SafeIn(items, 1), SafeIn(items, 2), TagsOf(items),
            match PayloadIn(items, IsPayload(3)) case Some(body) => DecodeAction(body) case None => None,
            match PayloadIn(items, IsPayload(11)) case Some(body) => DecodeRom(body) case None => None,
            match PayloadIn(items, IsPayload(8)) case Some(body) => DecodeCapture(body) case None => None,
            match PayloadIn(items, IsPayload(10)) case Some(body) => DecodeRomMessage(body) case None => None,
            match PayloadIn(items, IsPayload(15)) case Some(body) => DecodeSystemState(body) case None => None)
  }

  lemma TopFieldIs(items: seq<Item>, item: Item, tags: seq<nat>)
    ensures TopField(MessageIn(items).(tags := tags), item) == MessageIn(items + [item]).(tags := tags)
  {
    hide LastOf, DecodeAction, DecodeRom, DecodeCapture, DecodeRomMessage, DecodeSystemState, TagsOf;
    LastOfMore(items, item, IsNumber(1));
    LastOfMore(items, item, IsNumber(2));
    LastOfMore(items, item, IsPayload(3));
    LastOfMore(items, item, IsPayload(8));
    LastOfMore(items, item, IsPayload(10));
    LastOfMore(items, item, IsPayload(11));
    LastOfMore(items, item, IsPayload(15));
  }

  lemma {:induction false} TopFieldsMore(acc: Message, items: seq<Item>, item: Item)
    ensures TopFields(acc, items + [item]) == TopField(TopFields(acc, items), item)
    decreases |items|
  {
    hide TopField;
    if items == [] {
      assert (items + [item])[1..] == [];
    } else {
      assert (items + [item])[0] == items[0] && (items + [item])[1..] == items[1..] + [item];
      TopFieldsMore(TopField(acc, items[0]), items[1..], item);
    }
  }

  lemma {:induction false} TopIsRead(items: seq<Item>, tags: seq<nat>)
    ensures TopFields(Message(None, None, tags, None, None), items) == MessageIn(items).(tags := tags)
    decreases |items|
  {
    hide TopField, LastOf, TagsOf;
    if items == [] {
      NothingRead();
    } else {
      var front, last := items[..|items| - 1], items[|items| - 1];
      assert items == front + [last];
      TopIsRead(front, tags);
      TopFieldsMore(Message(None, None, tags, None, None), front, last);
      TopFieldIs(front, last, tags);
    }
  }

  /** The fields of a message of any peer: in any order, with repetitions, within the limits of the control channel. */
  ghost predicate PeerFields(items: seq<Item>) {
    |items| <= CONTROL_LIMITS.maxFields && forall item <- items :: Readable(item, CONTROL_LIMITS)
  }

  /** A message of any peer arrives: each number, text and nested message is given by the last field with its tag. */
  lemma PeerMessageArrives(items: seq<Item>)
    requires PeerFields(items) && |ItemsBytes(items)| <= MAX_CONTROL_BYTES
    ensures Decode(ItemsBytes(items)) == Some(MessageIn(items))
  {
    hide ItemsBytes, ReadItems, TopFields, MessageIn;
    ReadWrittenItems(items, CONTROL_LIMITS, false);
    TopIsRead(items, TagsOf(items));
    TagsAreKept(items);
  }

  lemma TagsAreKept(items: seq<Item>)
    ensures MessageIn(items).(tags := TagsOf(items)) == MessageIn(items)
  {
  }

  /** And so does each nested message. */
  lemma PeerBodiesArrive(items: seq<Item>)
    requires PeerFields(items)
    ensures var bytes := ItemsBytes(items);
            && DecodeCapture(bytes) == Some(CaptureChange(SafeOr(items, 1, CT_DESKTOP), SafeIn(items, 2), TextIn(items, 3)))
            && DecodeRom(bytes) == Some(SendToRom(SafeOr(items, 1, ROM_INPUT), TextIn(items, 2), SafeIn(items, 3)))
            && DecodeRomMessage(bytes) ==
               Some(RomReport(TextIn(items, 1), TextIn(items, 2), SafeIn(items, 3),
                              match PayloadIn(items, IsPayload(4)) case Some(bytes) => Some(|bytes|) case None => None))
            && DecodeAction(bytes) ==
               Some(SimpleAction(SafeOr(items, 1, ECHO_REQUEST), TextIn(items, 2),
                                 match PayloadIn(items, IsPayload(4))
                                 case Some(flags) => DecodeFlags(flags)
                                 case None => None))
            && DecodeCursor(bytes) == Some(CursorIn(items))
            && DecodeSystemState(bytes) ==
               Some(SystemState(match PayloadIn(items, IsPayload(2))
                                case Some(cursor) => DecodeCursor(cursor)
                                case None => None))
  {
    hide ItemsBytes, ReadItems, DecodeFlags, CaptureFields, RomFields, RomReportFields, ActionFields, CursorFields;
    hide SystemFields, PayloadIn, TextIn, SafeIn, SafeOr, CursorIn;
    ReadWrittenItems(items, CONTROL_LIMITS, false);
    CaptureIsRead(items);
    RomIsRead(items);
    RomReportIsRead(items);
    ActionIsRead(items);
    CursorIsRead(items);
    SystemIsRead(items);
  }
}
