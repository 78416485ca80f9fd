/**
 The Worker's Socket.IO client (cloudflare/src/signal/workerSignalSocket.ts): frames in both directions, and
 the table of acknowledgements that are still awaited.
 */
module WorkerSignalSocket {
  import opened Wrappers
  import opened ProtobufWire
  import opened SocketIoWire
  import opened Characters

  const SIGNAL_MAX_FRAME_BYTES := 1024 * 1024
  const MAX_QUEUED_BYTES := 4 * SIGNAL_MAX_FRAME_BYTES

  datatype Frame = Text(text: string) | Bytes(bytes: seq<byte>)

  datatype PendingBinary = PendingBinary(packet: Packet, buffers: seq<seq<byte>>)

  datatype FrameError =
    | FrameTooLarge | QueueTooLong | PacketTooLarge | PreviousIncomplete | InvalidOpen | Unparsable(error: PacketError)

  datatype Effect =
    | Nothing
    | Opened(heartbeatTimeoutMs: nat)
    | Pinged
    | Disconnected
    | NamespaceConnected
    | ConnectRefused
    | Delivered(packet: Packet)
    | RawBinary(bytes: seq<byte>)
    | Broken(error: FrameError)

  /** What a frame's text costs in UTF-8, next to the JSON codec. */
  datatype Codec = Codec(json: JsonCodec, textBytes: string -> nat)

  // ---------------------------------------------------------------- sending

  function EmittedPacket(ackId: nat, event: string, payload: Value): Packet {
    var data := Array([Str(event), payload]);
    var buffers := Leaves(data);
    Packet(if buffers != [] then 5 else 2, NAMESPACE, |buffers|, Some(ackId), Some(Hollow(data, 0)))
  }

  function BufferFrames(buffers: seq<seq<byte>>): seq<Frame> {
    if buffers == [] then [] else [Bytes(PrefixBinaryFrame(buffers[0]))] + BufferFrames(buffers[1..])
  }

  function EmittedFrames(codec: Codec, ackId: nat, event: string, payload: Value): seq<Frame> {
    [Text("4" + Encode(codec.json, EmittedPacket(ackId, event, payload)))]
    + BufferFrames(Leaves(Array([Str(event), payload])))
  }

  // ---------------------------------------------------------------- receiving

  function FrameSize(codec: Codec, frame: Frame): nat {
    match frame
    case Text(text) => codec.textBytes(text)
    case Bytes(bytes) => |bytes|
  }

  const DEFAULT_PING_INTERVAL_MS := 25_000
  const DEFAULT_PING_TIMEOUT_MS := 20_000
  const MAX_HEARTBEAT_MS := 300_000

  /** A heartbeat duration of the open packet: absent, or a number in range. */
  function Duration(entries: seq<Entry>, name: string, fallback: nat): Option<nat> {
    match Lookup(entries, name)
    case None => Some(fallback)
    case Some(Number(n)) => if 0 < n <= MAX_HEARTBEAT_MS then Some(n) else None
    case Some(_) => None
  }

  /** The heartbeat timeout that the open packet asks for; none when it is not JSON, no object, or out of range. */
  function HeartbeatTimeout(codec: JsonCodec, text: string): Option<nat> {
    match codec.parse(text)
    case Some(Record(entries)) =>
      var interval := Duration(entries, "pingInterval", DEFAULT_PING_INTERVAL_MS);
      var timeout := Duration(entries, "pingTimeout", DEFAULT_PING_TIMEOUT_MS);
      if interval.Some? && timeout.Some? then Some(interval.value + timeout.value) else None
    case _ => None
  }

  function TotalBytes(buffers: seq<seq<byte>>): nat {
    if buffers == [] then 0 else TotalBytes(buffers[..|buffers| - 1]) + |buffers[|buffers| - 1]|
  }

  function ReceivedText(codec: Codec, pending: Option<PendingBinary>, text: string)
    : (Option<PendingBinary>, Effect)
  {
    if text != [] && text[0] == '0' then
      (pending, match HeartbeatTimeout(codec.json, text[1..])
                case None => Broken(InvalidOpen)
                case Some(timeout) => Opened(timeout))
    else if text == "2" then (pending, Pinged)
    else if text == "1" then (pending, Disconnected)
    else if text == [] || text[0] != '4' then (pending, Nothing)
    else
      match Parse(codec.json, text[1..])
      case Failure(error) => (pending, Broken(Unparsable(error)))
      case Success(packet) =>
        if packet.kind == 0 then (pending, NamespaceConnected)
        else if packet.kind == 1 then (pending, Disconnected)
        else if packet.kind == 4 then (pending, ConnectRefused)
        else if packet.attachments > 0 then
          if pending.Some? then (pending, Broken(PreviousIncomplete))
          else (Some(PendingBinary(packet, [])), Nothing)
        else (pending, Delivered(packet))
  }

  function WithBuffers(packet: Packet, buffers: seq<seq<byte>>): Packet {
    packet.(data := if packet.data.Some? then Some(Reconstruct(packet.data.value, buffers)) else None)
  }

  function ReceivedBytes(pending: Option<PendingBinary>, raw: seq<byte>): (Option<PendingBinary>, Effect) {
    var bytes := StripBinaryFramePrefix(raw);
    if pending.None? then (pending, RawBinary(bytes))
    else
      var p := pending.value.(buffers := pending.value.buffers + [bytes]);
      if TotalBytes(p.buffers) > SIGNAL_MAX_FRAME_BYTES then (Some(p), Broken(PacketTooLarge))
      else if |p.buffers| < p.packet.attachments then (Some(p), Nothing)
      else (None, Delivered(WithBuffers(p.packet, p.buffers)))
  }

  /** What arrives while earlier frames still wait to be handled: refused when it, or the queue with it, is too large. */
  function Admission(codec: Codec, queuedBytes: nat, frame: Frame): Option<FrameError> {
    if FrameSize(codec, frame) > SIGNAL_MAX_FRAME_BYTES then Some(FrameTooLarge)
    else if queuedBytes + FrameSize(codec, frame) > MAX_QUEUED_BYTES then Some(QueueTooLong)
    else None
  }

  function Dispatched(codec: Codec, pending: Option<PendingBinary>, frame: Frame): (Option<PendingBinary>, Effect) {
    match frame
    case Text(text) => ReceivedText(codec, pending, text)
    case Bytes(bytes) => ReceivedBytes(pending, bytes)
  }

  /** One frame that arrives when the queue has drained. */
  function Received(codec: Codec, pending: Option<PendingBinary>, frame: Frame): (Option<PendingBinary>, Effect) {
    match Admission(codec, 0, frame)
    case Some(error) => (pending, Broken(error))
    case None => Dispatched(codec, pending, frame)
  }

  function QueuedBytes(codec: Codec, queue: seq<Frame>): nat {
    if queue == [] then 0 else QueuedBytes(codec, queue[..|queue| - 1]) + FrameSize(codec, queue[|queue| - 1])
  }

  predicate EndsConnection(e: Effect) {
    e.Broken? || e.Disconnected? || e.ConnectRefused?
  }

  /** Everything a run of frames brings about, up to the first one that ends the connection. */
  function Feed(codec: Codec, pending: Option<PendingBinary>, frames: seq<Frame>): seq<Effect>
    decreases |frames|
  {
    if frames == [] then []
    else
      var (next, effect) := Received(codec, pending, frames[0]);
      if EndsConnection(effect) then [effect]
      else if effect.Nothing? then Feed(codec, next, frames[1..])
      else [effect] + Feed(codec, next, frames[1..])
  }

  // ---------------------------------------------------------------- acknowledgements

  /** An awaited acknowledgement; the timer's handle also names the emission it belongs to. */
  datatype Ack = Ack(event: string, timer: nat)

  datatype Settlement = Replied(data: Option<Value>) | TimedOut | Rejected

  /** `epoch` counts the transports this object has had; frames of an older one are ignored. */
  datatype AckState = AckState(
    connected: bool,
    epoch: nat,
    nextAckId: nat,
    pendingAcks: map<nat, Ack>,
    timers: map<nat, nat>,                   // live timers: handle to the ack id their callback deletes
    emitted: seq<(nat, nat)>,                // every emission that awaited an ack: (epoch, ack id), by timer handle
    settled: seq<(nat, Settlement)>)         // every settlement, in order: (timer handle, how)

  function AfterOpen(s: AckState): AckState {
    s.(connected := true, epoch := s.epoch + 1)
  }

  /** `sent` is false when writing to the transport throws; the id is used up all the same. */
  function AfterEmit(s: AckState, event: string, sent: bool): AckState {
    if !s.connected then s
    else if !sent then s.(nextAckId := s.nextAckId + 1)
    else
      var timer := |s.emitted|;
      s.(nextAckId := s.nextAckId + 1,
      emitted := s.emitted + [(s.epoch, s.nextAckId)],
      timers := s.timers[timer := s.nextAckId],
      pendingAcks := s.pendingAcks[s.nextAckId := Ack(event, timer)])
  }

  function AfterReply(s: AckState, epoch: nat, id: Option<nat>, data: Option<Value>): AckState {
    if !s.connected || epoch != s.epoch || id.None? || id.value !in s.pendingAcks then s
    else
      var timer := s.pendingAcks[id.value].timer;
      s.(pendingAcks := s.pendingAcks - {id.value}, timers := s.timers - {timer},
      settled := s.settled + [(timer, Replied(data))])
  }

  function AfterTimer(s: AckState, timer: nat): AckState
    requires timer in s.timers
  {
    s.(pendingAcks := s.pendingAcks - {s.timers[timer]}, timers := s.timers - {timer},
    settled := s.settled + [(timer, TimedOut)])
  }

  /** The rejections of the acks with ids below n, oldest first. */
  function Rejections(acks: map<nat, Ack>, n: nat): seq<(nat, Settlement)> {
    if n == 0 then []
    else Rejections(acks, n - 1) + (if n - 1 in acks then [(acks[n - 1].timer, Rejected)] else [])
  }

  function TimersOf(acks: map<nat, Ack>, n: nat): set<nat> {
    if n == 0 then {} else TimersOf(acks, n - 1) + (if n - 1 in acks then {acks[n - 1].timer} else {})
  }

  function AfterRelease(s: AckState): AckState {
    s.(connected := false, nextAckId := 0, pendingAcks := map[],
    timers := s.timers - TimersOf(s.pendingAcks, s.nextAckId),
    settled := s.settled + Rejections(s.pendingAcks, s.nextAckId))
  }

  // ---------------------------------------------------------------- the client object

  class WorkerSignalSocket {
    const codec: Codec
    var connected: bool
    var epoch: nat
    var nextAckId: nat
    var pendingAcks: map<nat, Ack>
    var timers: map<nat, nat>
    var emitted: seq<(nat, nat)>
    var settled: seq<(nat, Settlement)>
    var pendingBinaryPacket: Option<PendingBinary>
    var messageQueue: seq<Frame>
    var queuedBytes: nat

    ghost predicate QueueCounted()
      reads this
    {
      queuedBytes == QueuedBytes(codec, messageQueue)
    }

    ghost function View(): AckState
      reads this
    {
      AckState(connected, epoch, nextAckId, pendingAcks, timers, emitted, settled)
    }

    constructor (codec: Codec)
      ensures View() == AckState(false, 0, 0, map[], map[], [], []) && pendingBinaryPacket == None
      ensures messageQueue == [] && QueueCounted()
    {
      this.codec := codec;
      connected, epoch, nextAckId, pendingBinaryPacket := false, 0, 0, None;
      pendingAcks, timers, emitted, settled := map[], map[], [], [];
      messageQueue, queuedBytes := [], 0;
    }

    method EmitSocketEvent(event: string, payload: Value) returns (frames: seq<Frame>, ackId: nat)
      requires connected
      modifies `nextAckId
      ensures ackId == old(nextAckId) && nextAckId == old(nextAckId) + 1
      ensures frames == EmittedFrames(codec, ackId, event, payload)
    {
      ackId := nextAckId;
      nextAckId := nextAckId + 1;
      var list := new BufferList();
      var data := DeconstructBinaryValue(Array([Str(event), payload]), list);
      var packet := Packet(if |list.buffers| > 0 then 5 else 2, NAMESPACE, |list.buffers|, Some(ackId), Some(data));
      var buffers := list.buffers;
      assert buffers == Leaves(Array([Str(event), payload])) && packet == EmittedPacket(ackId, event, payload);
      frames := [Text("4" + Encode(codec.json, packet))];
      assert buffers[0..] == buffers && EmittedFrames(codec, ackId, event, payload) == frames + BufferFrames(buffers);
      hide EmittedFrames, EmittedPacket, Encode, Leaves, Hollow, PrefixBinaryFrame;
      for i := 0 to |buffers|
        invariant frames + BufferFrames(buffers[i..]) == EmittedFrames(codec, ackId, event, payload)
      {
        assert buffers[i..][1..] == buffers[i + 1..];
        frames := frames + [Bytes(PrefixBinaryFrame(buffers[i]))];
      }
      assert buffers[|buffers|..] == [];
    }

    /** Only while connected; otherwise the source throws and nothing changes. */
    method EmitWithAck(event: string, payload: Value, sent: bool) returns (frames: seq<Frame>)
      modifies this
      ensures View() == AfterEmit(old(View()), event, sent)
      ensures old(connected) ==> frames == EmittedFrames(codec, old(nextAckId), event, payload)
      ensures pendingBinaryPacket == old(pendingBinaryPacket)
    {
      if !connected {
        return [];
      }
      var ackId;
      frames, ackId := EmitSocketEvent(event, payload);
      if !sent {
        return;
      }
      var timer := |emitted|;
      emitted := emitted + [(epoch, ackId)];
      timers := timers[timer := ackId];
      pendingAcks := pendingAcks[ackId := Ack(event, timer)];
    }

    method OnAckTimeout(timer: nat)
      requires timer in timers
      modifies this
      ensures View() == AfterTimer(old(View()), timer)
    {
      pendingAcks := pendingAcks - {timers[timer]};
      timers := timers - {timer};
      settled := settled + [(timer, TimedOut)];
    }

    method ResolveAck(packetEpoch: nat, id: Option<nat>, data: Option<Value>)
      modifies this
      ensures View() == AfterReply(old(View()), packetEpoch, id, data)
    {
      if !connected || packetEpoch != epoch || id.None? || id.value !in pendingAcks {
        return;
      }
      var pending := pendingAcks[id.value];
      pendingAcks := pendingAcks - {id.value};
      timers := timers - {pending.timer};
      settled := settled + [(pending.timer, Replied(data))];
    }

    method ReleaseSocket()
      modifies this
      ensures View() == AfterRelease(old(View())) && pendingBinaryPacket == None
    {
      connected := false;
      pendingBinaryPacket := None;
      var bound := nextAckId;
      nextAckId := 0;
      var rejected := pendingAcks;
      pendingAcks := map[];
      for id := 0 to bound
        invariant View() == old(View()).(connected := false, nextAckId := 0, pendingAcks := map[],
                  timers := old(timers) - TimersOf(rejected, id),
                  settled := old(settled) + Rejections(rejected, id))
        invariant pendingBinaryPacket == None
      {
        if id in rejected {
          timers := timers - {rejected[id].timer};
          settled := settled + [(rejected[id].timer, Rejected)];
        }
      }
    }

    /** A frame arrives: it waits in the queue, or ends the connection. */
    method EnqueueSocketMessage(frame: Frame) returns (effect: Effect)
      requires QueueCounted()
      modifies `messageQueue, `queuedBytes
      ensures QueueCounted()
      ensures match Admission(codec, old(queuedBytes), frame)
              case Some(error) => effect == Broken(error) && messageQueue == old(messageQueue)
              case None => effect == Nothing && messageQueue == old(messageQueue) + [frame]
    {
      var byteLength := FrameSize(codec, frame);
      if byteLength > SIGNAL_MAX_FRAME_BYTES {
        return Broken(FrameTooLarge);
      }
      if queuedBytes + byteLength > MAX_QUEUED_BYTES {
        return Broken(QueueTooLong);
      }
      hide FrameSize;
      QueuedBytesLast(codec, messageQueue, frame);
      hide QueuedBytes;
      queuedBytes := queuedBytes + byteLength;
      messageQueue := messageQueue + [frame];
      return Nothing;
    }

    /** The oldest frame in the queue is handled, and its bytes are released. */
    method HandleFrame() returns (effect: Effect)
      requires QueueCounted() && messageQueue != []
      modifies `pendingBinaryPacket, `messageQueue, `queuedBytes
      ensures QueueCounted() && messageQueue == old(messageQueue)[1..]
      ensures (pendingBinaryPacket, effect) == Dispatched(codec, old(pendingBinaryPacket), old(messageQueue)[0])
    {
      var frame := messageQueue[0];
      QueuedBytesFirst(codec, messageQueue);
      match frame {
        case Text(text) => effect := HandleTextFrame(text);
        case Bytes(bytes) => effect := HandleBinaryFrame(bytes);
      }
      messageQueue := messageQueue[1..];
      queuedBytes := queuedBytes - FrameSize(codec, frame);
    }

    method HandleTextFrame(text: string) returns (effect: Effect)
      modifies `pendingBinaryPacket
      ensures (pendingBinaryPacket, effect) == ReceivedText(codec, old(pendingBinaryPacket), text)
    {
      if text != [] && text[0] == '0' {
        var timeout := HeartbeatTimeout(codec.json, text[1..]);
        return if timeout.None? then Broken(InvalidOpen) else Opened(timeout.value);
      }
      if text == "2" { return Pinged; }
      if text == "1" { return Disconnected; }
      if text == [] || text[0] != '4' { return Nothing; }
      var parsed := ParseSocketIoPacket(codec.json, text[1..]);
      if parsed.Failure? { return Broken(Unparsable(parsed.error)); }
      var packet := parsed.value;
      if packet.kind == 0 { return NamespaceConnected; }
      if packet.kind == 1 { return Disconnected; }
      if packet.kind == 4 { return ConnectRefused; }
      if packet.attachments > 0 {
        if pendingBinaryPacket.Some? { return Broken(PreviousIncomplete); }
        pendingBinaryPacket := Some(PendingBinary(packet, []));
        return Nothing;
      }
      return Delivered(packet);
    }

    method HandleBinaryFrame(raw: seq<byte>) returns (effect: Effect)
      modifies `pendingBinaryPacket
      ensures (pendingBinaryPacket, effect) == ReceivedBytes(old(pendingBinaryPacket), raw)
    {
      var bytes := StripBinaryFramePrefix(raw);
      if pendingBinaryPacket.None? { return RawBinary(bytes); }
      var pending := pendingBinaryPacket.value;
      pending := pending.(buffers := pending.buffers + [bytes]);
      pendingBinaryPacket := Some(pending);
      if TotalBytes(pending.buffers) > SIGNAL_MAX_FRAME_BYTES { return Broken(PacketTooLarge); }
      if |pending.buffers| < pending.packet.attachments { return Nothing; }
      pendingBinaryPacket := None;
      return Delivered(WithBuffers(pending.packet, pending.buffers));
    }
  }

  lemma QueuedBytesLast(codec: Codec, queue: seq<Frame>, frame: Frame)
    ensures QueuedBytes(codec, queue + [frame]) == QueuedBytes(codec, queue) + FrameSize(codec, frame)
  {
    hide FrameSize;
    assert (queue + [frame])[..|queue|] == queue;
  }

  lemma {:induction false} QueuedBytesFirst(codec: Codec, queue: seq<Frame>)
    requires queue != []
    ensures QueuedBytes(codec, queue) == FrameSize(codec, queue[0]) + QueuedBytes(codec, queue[1..])
    decreases |queue|
  {
    if |queue| > 1 {
      var front := queue[..|queue| - 1];
      QueuedBytesFirst(codec, front);
      assert front[1..] == queue[1..][..|queue| - 2];
    } else {
      assert queue[..0] == [] && queue[1..] == [];
    }
  }

  // ---------------------------------------------------------------- loopback

  predicate BufferFits(buffer: seq<byte>) {
    |buffer| < SIGNAL_MAX_FRAME_BYTES
  }

  lemma {:induction false} TotalBytesAppend(a: seq<seq<byte>>, b: seq<seq<byte>>)
    ensures TotalBytes(a + b) == TotalBytes(a) + TotalBytes(b)
    decreases |b|
  {
    if b == [] {
      assert a + b == a;
    } else {
      var front := b[..|b| - 1];
      assert (a + b)[..|a + b| - 1] == a + front;
      TotalBytesAppend(a, front);
    }
  }

  predicate AllFit(buffers: seq<seq<byte>>) {
    forall b <- buffers :: BufferFits(b)
  }

  /** The binary frames of a packet either complete it or break the connection. */
  lemma {:induction false} FeedBuffers(codec: Codec, packet: Packet, got: seq<seq<byte>>, rest: seq<seq<byte>>)
    requires rest != [] && packet.attachments == |got| + |rest|
    ensures var effects := Feed(codec, Some(PendingBinary(packet, got)), BufferFrames(rest));
            if AllFit(rest) && TotalBytes(got + rest) <= SIGNAL_MAX_FRAME_BYTES
            then effects == [Delivered(WithBuffers(packet, got + rest))]
            else |effects| == 1 && effects[0].Broken?
    decreases |rest|
  {
    hide TotalBytes;
    var frames, pending := BufferFrames(rest), PendingBinary(packet, got);
    var got' := got + [rest[0]];
    assert frames[0] == Bytes(PrefixBinaryFrame(rest[0])) && frames[1..] == BufferFrames(rest[1..]);
    assert StripBinaryFramePrefix(PrefixBinaryFrame(rest[0])) == rest[0];
    assert got + rest == got' + rest[1..];
    TotalBytesAppend(got', rest[1..]);
    if BufferFits(rest[0]) {
      if |rest| > 1 {
        FeedBuffers(codec, packet, got', rest[1..]);
      } else {
        assert rest[1..] == [] && got' + rest[1..] == got';
        assert Feed(codec, None, frames[1..]) == [];
      }
    }
  }

  ghost predicate FitsFrames(codec: Codec, ackId: nat, event: string, payload: Value) {
    var buffers := Leaves(Array([Str(event), payload]));
    && codec.textBytes("4" + Encode(codec.json, EmittedPacket(ackId, event, payload))) <= SIGNAL_MAX_FRAME_BYTES
    && AllFit(buffers) && TotalBytes(buffers) <= SIGNAL_MAX_FRAME_BYTES
  }

  lemma EmissionIsCanonical(event: string, payload: Value)
    requires Canonical(payload)
    ensures Canonical(Array([Str(event), payload]))
  {
    var items := [Str(event), payload];
    assert items[1..] == [payload] && [payload][1..] == [];
    assert CanonicalItems([payload]);
    assert CanonicalItems(items);
  }

  /** The text frame of an emission: delivered at once, kept for its attachments, or refused for having too many. */
  lemma FeedText(codec: Codec, ackId: nat, event: string, payload: Value)
    requires codec.json.Lawful() && Canonical(payload)
    ensures var packet := EmittedPacket(ackId, event, payload);
            ReceivedText(codec, None, "4" + Encode(codec.json, packet)) ==
            if packet.attachments > MAX_ATTACHMENTS then (None, Broken(Unparsable(InvalidAttachments)))
            else if packet.attachments > 0 then (Some(PendingBinary(packet, [])), Nothing)
            else (None, Delivered(packet))
  {
    hide Encode, Parse;
    var packet := EmittedPacket(ackId, event, payload);
    var text := "4" + Encode(codec.json, packet);
    assert text[1..] == Encode(codec.json, packet);
    HollowHasNoLeaves(Array([Str(event), payload]), 0);
    EmissionIsCanonical(event, payload);
    HollowIsCanonical(Array([Str(event), payload]), 0);
    if packet.attachments > MAX_ATTACHMENTS {
      TooManyAttachmentsRefused(codec.json, packet);
    } else {
      assert packet.data.value.Array? && !IsDigit('[');
      ParseEncoded(codec.json, packet);
    }
  }

  /**
   Feeding an emission's own frames to a receiver delivers one packet with the original id and data, exactly
   when it has at most ten binary leaves, fits the size limits, and holds nothing that passes for a placeholder.
   */
  lemma LoopbackIff(codec: Codec, ackId: nat, event: string, payload: Value)
    requires codec.json.Lawful() && Canonical(payload)
    ensures var data := Array([Str(event), payload]);
            var n := |Leaves(data)|;
            Feed(codec, None, EmittedFrames(codec, ackId, event, payload)) ==
              [Delivered(Packet(if n > 0 then 5 else 2, NAMESPACE, n, Some(ackId), Some(data)))]
            <==> n <= MAX_ATTACHMENTS && Unambiguous(data, n) && FitsFrames(codec, ackId, event, payload)
  {
    hide Leaves, Hollow, Encode, ReceivedText, TotalBytes, Reconstruct, Unambiguous;
    var data := Array([Str(event), payload]);
    var packet, buffers := EmittedPacket(ackId, event, payload), Leaves(data);
    var frames := EmittedFrames(codec, ackId, event, payload);
    assert frames[1..] == BufferFrames(buffers);
    FeedText(codec, ackId, event, payload);
    BinaryRoundTripIff(data);
    FeedAfterText(codec, frames);
    if buffers == [] {
      HollowOfLeafless(data, 0);
      LeaflessIsUnambiguous(data);
      assert TotalBytes([]) == 0 by { NoBytesInNothing(); }
      assert Feed(codec, None, frames[1..]) == [];
      assert [Delivered(packet)] + [] == [Delivered(packet)];
    } else {
      FeedBuffers(codec, packet, [], buffers);
      assert [] + buffers == buffers;
    }
  }

  lemma {:induction false} QueuedBytesOfBuffers(codec: Codec, buffers: seq<seq<byte>>)
    ensures |BufferFrames(buffers)| == |buffers|
    ensures QueuedBytes(codec, BufferFrames(buffers)) == TotalBytes(buffers) + |buffers|
    decreases |buffers|
  {
    if buffers != [] {
      var frames, rest := BufferFrames(buffers), buffers[1..];
      assert frames[1..] == BufferFrames(rest) && buffers == [buffers[0]] + rest;
      QueuedBytesFirst(codec, frames);
      QueuedBytesOfBuffers(codec, rest);
      TotalBytesAppend([buffers[0]], rest);
      var first: seq<seq<byte>> := [buffers[0]];
      assert first[..0] == [] && TotalBytes(first) == |buffers[0]|;
    }
  }

  lemma SliceOfRest(frames: seq<Frame>, i: nat, j: nat)
    requires 0 < i <= j <= |frames|
    ensures frames[i..j] == frames[1..][i - 1..j - 1]
  {
    var rest := frames[1..];
    forall k | 0 <= k < j - i
      ensures frames[i..j][k] == rest[i - 1..j - 1][k]
    {
      assert frames[i..j][k] == frames[i + k] == rest[i - 1 + k];
    }
  }

  lemma {:induction false} BacklogIsLess(codec: Codec, frames: seq<Frame>, i: nat, j: nat)
    requires i <= j <= |frames|
    ensures QueuedBytes(codec, frames[i..j]) <= QueuedBytes(codec, frames)
    decreases i + (|frames| - j)
  {
    hide FrameSize, QueuedBytes;
    if i > 0 {
      SliceOfRest(frames, i, j);
      QueuedBytesFirst(codec, frames);
      BacklogIsLess(codec, frames[1..], i - 1, j - 1);
    } else if j < |frames| {
      var front := frames[..|frames| - 1];
      assert frames[0..j] == front[0..j] && front + [frames[|frames| - 1]] == frames;
      QueuedBytesLast(codec, front, frames[|frames| - 1]);
      BacklogIsLess(codec, front, 0, j);
    } else {
      assert frames[0..|frames|] == frames;
    }
  }

  /**
   However far the handling of an emission's frames lags behind their arrival, the queue limit refuses none of them:
   with the frames i to j - 1 still waiting, frame j is admitted just as it would be into an empty queue.
   */
  lemma BacklogAdmits(codec: Codec, ackId: nat, event: string, payload: Value, i: nat, j: nat)
    requires FitsFrames(codec, ackId, event, payload) && |Leaves(Array([Str(event), payload]))| <= MAX_ATTACHMENTS
    requires i <= j < |EmittedFrames(codec, ackId, event, payload)|
    ensures var frames := EmittedFrames(codec, ackId, event, payload);
            Admission(codec, QueuedBytes(codec, frames[i..j]), frames[j]) == Admission(codec, 0, frames[j]) == None
  {
    hide Encode, Leaves, EmittedPacket, BufferFrames, TotalBytes;
    var frames := EmittedFrames(codec, ackId, event, payload);
    var buffers := Leaves(Array([Str(event), payload]));
    assert frames[1..] == BufferFrames(buffers);
    QueuedBytesFirst(codec, frames);
    QueuedBytesOfBuffers(codec, buffers);
    assert frames[i..j + 1][..j - i] == frames[i..j];
    BacklogIsLess(codec, frames, i, j + 1);
    if j > 0 {
      BufferFrameFits(codec, buffers, j - 1);
      assert frames[j] == BufferFrames(buffers)[j - 1];
    }
  }

  lemma {:induction false} BufferFrameFits(codec: Codec, buffers: seq<seq<byte>>, i: nat)
    requires i < |buffers| && forall b <- buffers :: BufferFits(b)
    ensures i < |BufferFrames(buffers)| && FrameSize(codec, BufferFrames(buffers)[i]) <= SIGNAL_MAX_FRAME_BYTES
  {
    if i > 0 {
      BufferFrameFits(codec, buffers[1..], i - 1);
    } else {
      assert buffers[0] in buffers && BufferFits(buffers[0]);
    }
    QueuedBytesOfBuffers(codec, buffers);
  }

  /** A text frame that is kept quietly hands the rest of the frames to the packet it began. */
  lemma FeedAfterText(codec: Codec, frames: seq<Frame>)
    requires frames != [] && frames[0].Text?
    ensures var (next, effect) := ReceivedText(codec, None, frames[0].text);
            Feed(codec, None, frames) ==
            if codec.textBytes(frames[0].text) > SIGNAL_MAX_FRAME_BYTES then [Broken(FrameTooLarge)]
            else if EndsConnection(effect) then [effect]
            else if effect.Nothing? then Feed(codec, next, frames[1..])
            else [effect] + Feed(codec, next, frames[1..])
  {
    hide ReceivedText;
  }

  lemma NoBytesInNothing()
    ensures TotalBytes([]) == 0
  {
  }

  // ---------------------------------------------------------------- frames of a peer that follows the protocol

  /** What the receiver makes of any packet a peer prints: handshake, disconnect and refusal by kind, and the rest. */
  lemma PrintedPacketArrives(codec: Codec, pending: Option<PendingBinary>, p: Packet)
    requires codec.json.Lawful() && Printable(codec.json, p)
    ensures var (next, effect) := ReceivedText(codec, pending, "4" + Encode(codec.json, p));
            && (p.kind == 0 ==> effect == NamespaceConnected)
            && (p.kind == 1 ==> effect == Disconnected)
            && (p.kind == 4 ==> effect == ConnectRefused)
            && (p.kind !in {0, 1, 4} && p.attachments == 0 ==> effect == Delivered(p))
            && (p.attachments > 0 ==>
                  if pending.None? then next == Some(PendingBinary(p, [])) && effect == Nothing
                  else next == pending && effect == Broken(PreviousIncomplete))
            && (p.attachments == 0 ==> next == pending)
  {
    hide Encode, Parse;
    var text := "4" + Encode(codec.json, p);
    assert text[1..] == Encode(codec.json, p);
    ParseEncoded(codec.json, p);
  }

  /** The frames of Engine.IO itself. */
  lemma EngineFramesArrive(codec: Codec, pending: Option<PendingBinary>, text: string)
    ensures ReceivedText(codec, pending, "2") == (pending, Pinged)
    ensures ReceivedText(codec, pending, "1") == (pending, Disconnected)
    ensures text != "2" && text != "1" && (text == "" || (text[0] != '0' && text[0] != '4')) ==>
              ReceivedText(codec, pending, text) == (pending, Nothing)
  {
  }

  /** An open packet gives this duration under this name: the fallback when it is absent, or a number in range. */
  predicate Gives(entries: seq<Entry>, name: string, fallback: nat, ms: nat) {
    if forall e <- entries :: e.key != name then ms == fallback
    else exists e <- entries :: e.key == name && e.value == Number(ms) && 0 < ms <= MAX_HEARTBEAT_MS
  }

  /** The heartbeat timeout is the sum of both durations, and the connection breaks when one of them is invalid. */
  lemma OpenPacketIff(codec: Codec, pending: Option<PendingBinary>, entries: seq<Entry>, timeoutMs: nat)
    requires codec.json.Lawful() && Canonical(Record(entries)) && Leaves(Record(entries)) == []
    ensures var (next, effect) := ReceivedText(codec, pending, "0" + codec.json.stringify(Record(entries)));
            && next == pending && (effect.Opened? || effect == Broken(InvalidOpen))
            && (effect == Opened(timeoutMs) <==>
                  exists interval: nat, timeout: nat ::
                    && Gives(entries, "pingInterval", DEFAULT_PING_INTERVAL_MS, interval)
                    && Gives(entries, "pingTimeout", DEFAULT_PING_TIMEOUT_MS, timeout)
                    && timeoutMs == interval + timeout)
  {
    var text := "0" + codec.json.stringify(Record(entries));
    assert text[1..] == codec.json.stringify(Record(entries));
    DurationGiven(entries, "pingInterval", DEFAULT_PING_INTERVAL_MS);
    DurationGiven(entries, "pingTimeout", DEFAULT_PING_TIMEOUT_MS);
  }

  lemma DurationGiven(entries: seq<Entry>, name: string, fallback: nat)
    requires CanonicalKeys(entries)
    ensures forall ms: nat :: Gives(entries, name, fallback, ms) <==> Duration(entries, name, fallback) == Some(ms)
  {
    LookupIsThere(entries, name);
    forall e <- entries | e.key == name
      ensures Lookup(entries, name) == Some(e.value)
    {
      OneEntry(entries, name, e);
    }
  }

  lemma {:induction false} LookupIsThere(entries: seq<Entry>, name: string)
    ensures Lookup(entries, name).None? <==> forall e <- entries :: e.key != name
    ensures Lookup(entries, name).Some? ==> Entry(name, Lookup(entries, name).value) in entries
  {
    if entries != [] {
      LookupIsThere(entries[1..], name);
    }
  }

  lemma {:induction false} OneEntry(entries: seq<Entry>, name: string, e: Entry)
    requires CanonicalKeys(entries) && e in entries && e.key == name
    ensures Lookup(entries, name) == Some(e.value)
  {
    if entries[0].key != name {
      assert e in entries[1..];
      OneEntry(entries[1..], name, e);
    } else {
      assert forall j | 0 < j < |entries| :: entries[j].key != entries[0].key;
    }
  }

  // ---------------------------------------------------------------- acknowledgements over whole runs

  datatype AckEvent =
    | Open
    | Emit(event: string, sent: bool)
    | Reply(epoch: nat, id: Option<nat>, data: Option<Value>)
    | Timer(timer: nat)
    | Release

  predicate Enabled(s: AckState, e: AckEvent) {
    match e
    case Open => !s.connected
    case Timer(timer) => timer in s.timers
    case _ => true
  }

  function Step(s: AckState, e: AckEvent): AckState
    requires Enabled(s, e)
  {
    match e
    case Open => AfterOpen(s)
    case Emit(event, sent) => AfterEmit(s, event, sent)
    case Reply(epoch, id, data) => AfterReply(s, epoch, id, data)
    case Timer(timer) => AfterTimer(s, timer)
    case Release => AfterRelease(s)
  }

  ghost predicate IsRun(s: AckState, events: seq<AckEvent>)
    decreases |events|
  {
    events == [] || (Enabled(s, events[0]) && IsRun(Step(s, events[0]), events[1..]))
  }

  ghost function After(s: AckState, events: seq<AckEvent>): AckState
    requires IsRun(s, events)
    decreases |events|
  {
    if events == [] then s else After(Step(s, events[0]), events[1..])
  }

  predicate WasSettled(s: AckState, timer: nat) {
    exists i | 0 <= i < |s.settled| :: s.settled[i].0 == timer
  }

  /** Live timers and table entries match one to one, and belong to the current transport. */
  ghost predicate TimersMatchEntries(s: AckState) {
    && (forall id <- s.pendingAcks :: id < s.nextAckId && s.connected
          && s.pendingAcks[id].timer in s.timers && s.timers[s.pendingAcks[id].timer] == id)
    && (forall t <- s.timers :: t < |s.emitted| && s.timers[t] in s.pendingAcks
          && s.pendingAcks[s.timers[t]].timer == t && s.emitted[t] == (s.epoch, s.timers[t]))
  }

  /** No two emissions share an epoch and an id. */
  ghost predicate EmissionsDiffer(s: AckState) {
    && (!s.connected ==> s.nextAckId == 0)
    && (forall t | 0 <= t < |s.emitted| ::
          s.emitted[t].0 <= s.epoch && (s.connected && s.emitted[t].0 == s.epoch ==> s.emitted[t].1 < s.nextAckId))
    && (forall t, u | 0 <= t < u < |s.emitted| :: s.emitted[t] != s.emitted[u])
  }

  /** Every emission is either awaited or settled, and settled once. */
  ghost predicate SettledOnce(s: AckState) {
    && (forall t | 0 <= t < |s.emitted| :: t in s.timers <==> !WasSettled(s, t))
    && (forall i | 0 <= i < |s.settled| :: s.settled[i].0 < |s.emitted|)
    && (forall i, j | 0 <= i < j < |s.settled| :: s.settled[i].0 != s.settled[j].0)
  }

  ghost predicate AckInv(s: AckState) {
    TimersMatchEntries(s) && EmissionsDiffer(s) && SettledOnce(s)
  }

  const NEW_SOCKET := AckState(false, 0, 0, map[], map[], [], [])

  lemma SettleOne(s: AckState, t: AckState, timer: nat, how: Settlement)
    requires SettledOnce(s) && timer in s.timers && timer < |s.emitted|
    requires t.emitted == s.emitted && t.timers == s.timers - {timer} && t.settled == s.settled + [(timer, how)]
    ensures SettledOnce(t)
  {
    assert !WasSettled(s, timer);
    forall u | 0 <= u < |t.emitted|
      ensures WasSettled(t, u) <==> WasSettled(s, u) || u == timer
    {
      if WasSettled(s, u) {
        var i :| 0 <= i < |s.settled| && s.settled[i].0 == u;
        assert t.settled[i].0 == u;
      }
      assert t.settled[|s.settled|].0 == timer;
    }
  }

  lemma EmitInv(s: AckState, event: string, sent: bool)
    requires AckInv(s)
    ensures AckInv(AfterEmit(s, event, sent))
  {
    hide SettledOnce;
    EmitSettles(s, event, sent);
  }

  lemma EmitSettles(s: AckState, event: string, sent: bool)
    requires SettledOnce(s) && forall t <- s.timers :: t < |s.emitted|
    ensures SettledOnce(AfterEmit(s, event, sent))
  {
    var t := AfterEmit(s, event, sent);
    assert forall u :: WasSettled(t, u) <==> WasSettled(s, u);
  }

  lemma ReplyInv(s: AckState, epoch: nat, id: Option<nat>, data: Option<Value>)
    requires AckInv(s)
    ensures AckInv(AfterReply(s, epoch, id, data))
  {
    hide SettledOnce;
    var t := AfterReply(s, epoch, id, data);
    if t != s {
      SettleOne(s, t, s.pendingAcks[id.value].timer, Replied(data));
    }
  }

  lemma TimerInv(s: AckState, timer: nat)
    requires AckInv(s) && timer in s.timers
    ensures AckInv(AfterTimer(s, timer))
  {
    hide SettledOnce;
    SettleOne(s, AfterTimer(s, timer), timer, TimedOut);
  }

  /** Rejecting the entries below n, one by one. */
  function PartlyReleased(s: AckState, n: nat): AckState {
    s.(timers := s.timers - TimersOf(s.pendingAcks, n), settled := s.settled + Rejections(s.pendingAcks, n))
  }

  lemma {:induction false} TimersOfMembers(acks: map<nat, Ack>, n: nat, t: nat)
    ensures t in TimersOf(acks, n) <==> exists id | 0 <= id < n :: id in acks && acks[id].timer == t
  {
    if n > 0 {
      TimersOfMembers(acks, n - 1, t);
    }
  }

  lemma {:induction false} PartlyReleasedSettles(s: AckState, n: nat)
    requires AckInv(s)
    ensures SettledOnce(PartlyReleased(s, n))
  {
    hide SettledOnce;
    if n == 0 {
      assert PartlyReleased(s, 0) == s;
    } else {
      PartlyReleasedSettles(s, n - 1);
      var before, after := PartlyReleased(s, n - 1), PartlyReleased(s, n);
      if n - 1 in s.pendingAcks {
        var timer := s.pendingAcks[n - 1].timer;
        TimersOfMembers(s.pendingAcks, n - 1, timer);
        assert timer in before.timers;
        assert after.settled == before.settled + [(timer, Rejected)];
        assert after.timers == before.timers - {timer};
        SettleOne(before, after, timer, Rejected);
      } else {
        assert after == before;
      }
    }
  }

  lemma ReleaseInv(s: AckState)
    requires AckInv(s)
    ensures AckInv(AfterRelease(s)) && AfterRelease(s).timers == map[]
  {
    var t := AfterRelease(s);
    PartlyReleasedSettles(s, s.nextAckId);
    forall timer <- s.timers
      ensures timer in TimersOf(s.pendingAcks, s.nextAckId)
    {
      TimersOfMembers(s.pendingAcks, s.nextAckId, timer);
    }
    assert t.timers == map[];
    var p := PartlyReleased(s, s.nextAckId);
    assert forall u :: WasSettled(t, u) <==> WasSettled(p, u);
  }

  lemma StepKeepsAckInv(s: AckState, e: AckEvent)
    requires AckInv(s) && Enabled(s, e)
    ensures AckInv(Step(s, e))
  {
    match e
    case Open => assert forall u :: WasSettled(AfterOpen(s), u) <==> WasSettled(s, u);
    case Emit(event, sent) => EmitInv(s, event, sent);
    case Reply(epoch, id, data) => ReplyInv(s, epoch, id, data);
    case Timer(timer) => TimerInv(s, timer);
    case Release => ReleaseInv(s);
  }

  lemma {:induction false} RunKeepsAckInv(s: AckState, events: seq<AckEvent>)
    requires AckInv(s) && IsRun(s, events)
    ensures AckInv(After(s, events))
    decreases |events|
  {
    if events != [] {
      StepKeepsAckInv(s, events[0]);
      RunKeepsAckInv(Step(s, events[0]), events[1..]);
    }
  }

  /** Over every run: each awaited emission leaves the table exactly once, and while it waits its timer is live. */
  lemma EveryAckSettlesOnce(events: seq<AckEvent>, timer: nat)
    requires IsRun(NEW_SOCKET, events) && timer < |After(NEW_SOCKET, events).emitted|
    ensures var s := After(NEW_SOCKET, events);
            && (timer in s.timers <==> !WasSettled(s, timer))
            && (forall i, j | 0 <= i < j < |s.settled| :: !(s.settled[i].0 == timer == s.settled[j].0))
            && (timer in s.timers ==> s.timers[timer] in s.pendingAcks && s.pendingAcks[s.timers[timer]].timer == timer)
  {
    RunKeepsAckInv(NEW_SOCKET, events);
  }

  /**
   Ids restart at 0 after a release, yet a reply settles only the emission that was made on the reply's own
   transport under the reply's id, and a timer only the emission that set it.
   */
  lemma OnlyOwnAckSettles(events: seq<AckEvent>, e: AckEvent)
    requires IsRun(NEW_SOCKET, events) && Enabled(After(NEW_SOCKET, events), e) && (e.Reply? || e.Timer?)
    ensures var s := After(NEW_SOCKET, events);
            var t := Step(s, e);
            t == s ||
            (|t.settled| == |s.settled| + 1 && t.settled[..|s.settled|] == s.settled
             && var timer := t.settled[|s.settled|].0;
                && timer < |s.emitted| && t.pendingAcks == s.pendingAcks - {s.emitted[timer].1}
                && (e.Timer? ==> timer == e.timer)
                && (e.Reply? ==> Some(s.emitted[timer].1) == e.id && s.emitted[timer].0 == e.epoch)
                && forall u | 0 <= u < |s.emitted| && u != timer :: s.emitted[u] != s.emitted[timer])
  {
    RunKeepsAckInv(NEW_SOCKET, events);
  }

  // ---------------------------------------------------------------- what settles an acknowledgement, and how

  /** An emission that is still awaited: its timer is live, and it was made on this transport under this id. */
  predicate Awaited(s: AckState, timer: nat, epoch: nat, id: nat) {
    timer in s.timers && timer < |s.emitted| && s.emitted[timer] == (epoch, id)
  }

  ghost predicate Settles(s: AckState, t: AckState, timer: nat, how: Settlement) {
    t.settled == s.settled + [(timer, how)] && t.timers == s.timers - {timer} && t.emitted == s.emitted
  }

  ghost predicate SettlesNothing(s: AckState, t: AckState) {
    t.settled == s.settled && t.timers == s.timers && t.emitted == s.emitted
  }

  /**
   A reply settles exactly the emission that is awaited on its own transport under its id, with the reply's data; a
   reply that answers no such emission settles nothing.
   */
  lemma ReplyResolvesItsEmission(events: seq<AckEvent>, epoch: nat, id: Option<nat>, data: Option<Value>)
    requires IsRun(NEW_SOCKET, events)
    ensures var s := After(NEW_SOCKET, events);
            var t := Step(s, Reply(epoch, id, data));
            && (forall timer | id.Some? && Awaited(s, timer, epoch, id.value) :: Settles(s, t, timer, Replied(data)))
            && (!(exists timer | timer in s.timers :: id.Some? && Awaited(s, timer, epoch, id.value)) ==>
                  SettlesNothing(s, t))
  {
    hide AfterEmit, AfterTimer, AfterRelease;
    RunKeepsAckInv(NEW_SOCKET, events);
    var s := After(NEW_SOCKET, events);
    if s.connected && epoch == s.epoch && id.Some? && id.value in s.pendingAcks {
      assert Awaited(s, s.pendingAcks[id.value].timer, epoch, id.value);
    }
  }

  /** An emission that goes out is awaited under the current transport and a new id, and settles nothing. */
  lemma EmissionIsAwaited(s: AckState, event: string, sent: bool)
    requires AckInv(s)
    ensures var t := Step(s, Emit(event, sent));
            && t.settled == s.settled
            && (!s.connected || !sent ==> SettlesNothing(s, t))
            && (s.connected && sent ==>
                  var timer := |s.emitted|;
                  && |t.emitted| == timer + 1 && t.emitted[..timer] == s.emitted && t.timers.Keys == s.timers.Keys + {timer}
                  && t.emitted[timer].0 == s.epoch && t.emitted[timer] !in s.emitted
                  && Awaited(t, timer, s.epoch, t.emitted[timer].1))
  {
    hide SettledOnce;
    if s.connected && sent {
      var t := Step(s, Emit(event, sent));
      assert t.emitted[|s.emitted|] == (s.epoch, s.nextAckId);
    }
  }

  /** A release rejects exactly the emissions that are still awaited, and nothing else is ever rejected. */
  lemma ReleaseRejectsTheRest(s: AckState)
    requires AckInv(s)
    ensures var t := Step(s, Release);
            && t.timers == map[] && t.emitted == s.emitted && !t.connected
            && |t.settled| >= |s.settled| && t.settled[..|s.settled|] == s.settled
            && (forall i | |s.settled| <= i < |t.settled| :: t.settled[i].0 in s.timers && t.settled[i].1 == Rejected)
            && (forall timer <- s.timers :: (timer, Rejected) in t.settled)
  {
    var t := Step(s, Release);
    ReleaseInv(s);
    RejectionsAre(s.pendingAcks, s.nextAckId);
    var rejections := Rejections(s.pendingAcks, s.nextAckId);
    assert t.settled == s.settled + rejections;
    forall i | |s.settled| <= i < |t.settled|
      ensures t.settled[i].0 in s.timers && t.settled[i].1 == Rejected
    {
      assert t.settled[i] == rejections[i - |s.settled|] && t.settled[i] in rejections;
    }
    forall timer <- s.timers
      ensures (timer, Rejected) in t.settled
    {
      var id := s.timers[timer];
      assert id in s.pendingAcks && id < s.nextAckId;
      assert (timer, Rejected) in rejections;
    }
  }

  lemma {:induction false} RejectionsAre(acks: map<nat, Ack>, n: nat)
    ensures forall r <- Rejections(acks, n) :: r.1 == Rejected && exists id | id in acks :: acks[id].timer == r.0
    ensures forall id | 0 <= id < n && id in acks :: (acks[id].timer, Rejected) in Rejections(acks, n)
  {
    if n > 0 {
      RejectionsAre(acks, n - 1);
    }
  }

  /** What brings a settlement about: a reply to that emission with that data, its own timer, or a release. */
  ghost predicate Causes(e: AckEvent, emitted: seq<(nat, nat)>, settlement: (nat, Settlement)) {
    settlement.0 < |emitted| &&
    match settlement.1
    case Replied(data) => e == Reply(emitted[settlement.0].0, Some(emitted[settlement.0].1), data)
    case TimedOut => e == Timer(settlement.0)
    case Rejected => e == Release
  }

  lemma StepCauses(s: AckState, e: AckEvent)
    requires AckInv(s) && Enabled(s, e)
    ensures var t := Step(s, e);
            GoesOn(s, t) && forall i | |s.settled| <= i < |t.settled| :: Causes(e, t.emitted, t.settled[i])
  {
    hide SettledOnce;
    if e.Release? {
      ReleaseRejectsTheRest(s);
    }
  }

  ghost predicate HasCause(events: seq<AckEvent>, emitted: seq<(nat, nat)>, settlement: (nat, Settlement)) {
    exists e <- events :: Causes(e, emitted, settlement)
  }

  /** Nothing settled or emitted before is changed. */
  ghost predicate GoesOn(s: AckState, t: AckState) {
    s.settled <= t.settled && s.emitted <= t.emitted
  }

  /** Over every run, each settlement has its cause: nothing is resolved, timed out or rejected by anything else. */
  lemma {:induction false} EverySettlementHasItsCause(s: AckState, events: seq<AckEvent>)
    requires AckInv(s) && IsRun(s, events)
    ensures var t := After(s, events);
            GoesOn(s, t) && forall i | |s.settled| <= i < |t.settled| :: HasCause(events, t.emitted, t.settled[i])
    decreases |events|
  {
    hide AckInv, Step, Enabled, Causes;
    if events != [] {
      var first, rest := events[0], events[1..];
      var mid, t := Step(s, first), After(s, events);
      StepCauses(s, first);
      StepKeepsAckInv(s, first);
      EverySettlementHasItsCause(mid, rest);
      forall i | |s.settled| <= i < |t.settled|
        ensures HasCause(events, t.emitted, t.settled[i])
      {
        if i < |mid.settled| {
          CauseStays(first, mid.emitted, t.emitted, mid.settled[i]);
          assert t.settled[i] == mid.settled[i] && first in events;
        } else {
          CauseInRest(first, rest, t.emitted, t.settled[i]);
          assert events == [first] + rest;
        }
      }
    }
  }

  lemma CauseInRest(first: AckEvent, rest: seq<AckEvent>, emitted: seq<(nat, nat)>, settlement: (nat, Settlement))
    requires HasCause(rest, emitted, settlement)
    ensures HasCause([first] + rest, emitted, settlement)
  {
    hide Causes;
    var e :| e in rest && Causes(e, emitted, settlement);
    assert e in [first] + rest;
  }

  lemma CauseStays(e: AckEvent, emitted: seq<(nat, nat)>, later: seq<(nat, nat)>, settlement: (nat, Settlement))
    requires Causes(e, emitted, settlement) && emitted <= later
    ensures Causes(e, later, settlement)
  {
  }

  /** A timer that is live fires once, and settles its emission as timed out. */
  lemma TimerTimesOut(s: AckState, timer: nat)
    requires AckInv(s) && timer in s.timers
    ensures Settles(s, Step(s, Timer(timer)), timer, TimedOut)
  {
  }

  /** A new transport starts with nothing awaited, and settles nothing. */
  lemma OpenSettlesNothing(s: AckState)
    requires AckInv(s) && !s.connected
    ensures var t := Step(s, Open);
            SettlesNothing(s, t) && t.connected && t.timers == map[] && forall e <- t.emitted :: e.0 < t.epoch
  {
    hide SettledOnce;
  }
}
