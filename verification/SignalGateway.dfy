/**
 The start/stop protocol of the Node service (backend/src/services/remoteControlService.ts).

 Unlike the Worker's session, this service has no connection object until the connector's promise resolves: a
 link announces itself through its listener before the start that waits for it goes on. It also keeps its event
 log across a stop, and a stop goes on to clear the room after it has taken effect. `State` is the service with
 the links its connector ever made and the pending continuations; `Step` is one atomic segment.
 */
module SignalGateway {
  import opened Wrappers
  import opened BoundedLog

  datatype Status = Idle | Connecting | Connected | Closed | Failed

  /** A link is being opened, is up, is reconnecting on its own, or is gone for good. */
  datatype Phase = Opening | Up | Retrying | Gone

  /** One call of the connector by the given start; `resolved` says that its promise has been resolved. */
  datatype Link = Link(generation: nat, owner: nat, phase: Phase, resolved: bool)

  datatype StartSuspended = AwaitConfig | AwaitConnect(link: nat, generation: nat, serversLeft: nat) | StartReturned

  datatype Start = Start(sequence: nat, at: StartSuspended)

  datatype StopSuspended = AwaitContext | AwaitClear | StopReturned

  datatype Stop = Stop(generation: nat, at: StopSuspended)

  datatype State = State(
    connection: Option<nat>,     // the link whose connection is `signalConnection`
    status: Status,
    roomClear: Option<bool>,     // what clearing the room came to, when the status shows it
    nextSequence: nat,
    authoritative: nat,
    generation: nat,
    log: seq<Entry>,
    links: seq<Link>,
    starts: seq<Start>,
    stops: seq<Stop>)

  // ---------------------------------------------------------------- segments

  function Ended(links: seq<Link>, link: nat): seq<Link> {
    if link < |links| then links[link := links[link].(phase := Gone)] else links
  }

  /** Closing a connection also makes its listener speak, but only under a generation that is over by then. */
  function ConnectionClosed(s: State): State {
    if s.connection.None? then s else s.(connection := None, links := Ended(s.links, s.connection.value))
  }

  function WithStart(s: State, start: nat, at: StartSuspended): State {
    if start < |s.starts| then s.(starts := s.starts[start := s.starts[start].(at := at)]) else s
  }

  function WithStop(s: State, stop: nat, at: StopSuspended): State {
    if stop < |s.stops| then s.(stops := s.stops[stop := s.stops[stop].(at := at)]) else s
  }

  function StartEntered(s: State): State {
    s.(nextSequence := s.nextSequence + 1, starts := s.starts + [Start(s.nextSequence + 1, AwaitConfig)])
  }

  function NextServer(s: State, start: nat, servers: nat): State {
    if servers == 0 then WithStart(s.(status := Failed, roomClear := None), start, StartReturned)
    else
      WithStart(s.(links := s.links + [Link(s.generation, start, Opening, false)]),
                start, AwaitConnect(|s.links|, s.generation, servers - 1))
  }

  function TakenOver(s: State, sequence: nat): State {
    ConnectionClosed(s.(authoritative := sequence, generation := s.generation + 1))
    .(log := [], status := Connecting, roomClear := None)
  }

  /** The room configuration has been read: none at all, or the number of its servers. */
  function Configured(s: State, start: nat, servers: Option<nat>): State
    requires start < |s.starts|
  {
    var sequence := s.starts[start].sequence;
    if servers.None? || sequence < s.authoritative then WithStart(s, start, StartReturned)
    else NextServer(TakenOver(s, sequence), start, servers.value)
  }

  function ConnectResolved(s: State, start: nat): State
    requires start < |s.starts| && s.starts[start].at.AwaitConnect?
  {
    var at := s.starts[start].at;
    if at.generation != s.generation then WithStart(s.(links := Ended(s.links, at.link)), start, StartReturned)
    else WithStart(s.(connection := Some(at.link), status := Connected, roomClear := None), start, StartReturned)
  }

  function ConnectRejected(s: State, start: nat): State
    requires start < |s.starts| && s.starts[start].at.AwaitConnect?
  {
    var at := s.starts[start].at;
    if at.generation != s.generation then WithStart(s, start, StartReturned) else NextServer(s, start, at.serversLeft)
  }

  function Stopped(s: State): State {
    var sequence, generation := s.nextSequence + 1, s.generation + 1;
    ConnectionClosed(s.(nextSequence := sequence, authoritative := sequence, generation := generation))
    .(status := Closed, roomClear := None, stops := s.stops + [Stop(generation, AwaitContext)])
  }

  /** The join context of the stopped room has been found, or not; the room is cleared only if it has a device. */
  function ContextFound(s: State, stop: nat, hasDevice: bool): State
    requires stop < |s.stops|
  {
    WithStop(s, stop, if s.stops[stop].generation == s.generation && hasDevice then AwaitClear else StopReturned)
  }

  function RoomCleared(s: State, stop: nat, ok: bool): State
    requires stop < |s.stops|
  {
    WithStop(if s.stops[stop].generation == s.generation then s.(roomClear := Some(ok)) else s, stop, StopReturned)
  }

  /** What the listener of a link makes of its new phase. */
  function Announced(s: State, link: nat, status: Status): State
    requires link < |s.links|
  {
    if s.links[link].generation != s.generation then s
    else if status == Connected then s.(status := Connected, roomClear := None)
    else s.(status := status, connection := if status == Closed || status == Failed then None else s.connection)
  }

  /** The listener hears of a link that comes up before the promise is resolved. */
  function LinkUp(s: State, link: nat): State
    requires link < |s.links|
  {
    Announced(s.(links := s.links[link := s.links[link].(phase := Up, resolved := true)]), link, Connected)
  }

  function LinkDown(s: State, link: nat, retries: bool, failure: bool): State
    requires link < |s.links|
  {
    Announced(s.(links := s.links[link := s.links[link].(phase := if retries then Retrying else Gone)]), link,
              if retries then Connecting else if failure then Failed else Closed)
  }

  /** A link that never came up is refused silently. */
  function LinkRefused(s: State, link: nat): State {
    s.(links := Ended(s.links, link))
  }

  /** The new event is added, what is stale is dropped, and the newest within the bounds are kept. */
  function Logged(log: seq<Entry>, e: Entry): (r: seq<Entry>)
    ensures forall x <- r :: x in log || x == e
  {
    Within(EntrySize, FreshEntries(log + [e], e.receivedAt))
  }

  /** One message may be normalized into several events, or none. */
  function AllLogged(log: seq<Entry>, generation: nat, sizes: seq<nat>, now: nat): (r: seq<Entry>)
    ensures forall x <- r :: x in log || x.generation == generation
    decreases |sizes|
  {
    if sizes == [] then log else AllLogged(Logged(log, Entry(generation, now, sizes[0])), generation, sizes[1..], now)
  }

  function LinkSpoke(s: State, link: nat, sizes: seq<nat>, now: nat): State
    requires link < |s.links|
  {
    var generation := s.links[link].generation;
    if generation == s.generation then s.(log := AllLogged(s.log, generation, sizes, now)) else s
  }

  /** An outbound event goes on record before it is sent. */
  function Sent(s: State, size: nat, now: nat): State {
    if s.connection.Some? && s.connection.value < |s.links|
    then s.(log := Logged(s.log, Entry(s.links[s.connection.value].generation, now, size))) else s
  }

  /** The acknowledgement of an event that went out on a connection captured earlier with its generation. */
  function Acknowledged(s: State, link: nat, generation: nat, size: nat, now: nat): State
    requires link < |s.links|
  {
    if generation == s.generation && s.connection == Some(link)
    then s.(log := Logged(s.log, Entry(s.links[link].generation, now, size))) else s
  }

  // ---------------------------------------------------------------- interleavings

  datatype Event =
    | StartCalled
    | ConfigRead(start: nat, servers: Option<nat>)
    | ConnectSucceeded(start: nat)
    | ConnectFailed(start: nat)
    | StopCalled
    | ContextRead(stop: nat, hasDevice: bool)
    | ClearDone(stop: nat, ok: bool)
    | LinkCameUp(link: nat)
    | LinkWentDown(link: nat, retries: bool, failure: bool)
    | LinkWasRefused(link: nat)
    | LinkSpeaks(link: nat, sizes: seq<nat>, now: nat)
    | EventSent(size: nat, now: nat)
    | AckArrived(link: nat, generation: nat, size: nat, now: nat)

  predicate Awaits(s: State, start: nat) {
    start < |s.starts| && s.starts[start].at.AwaitConnect? && s.starts[start].at.link < |s.links|
  }

  predicate Enabled(s: State, e: Event) {
    match e
    case ConfigRead(start, _) => start < |s.starts| && s.starts[start].at == AwaitConfig
    case ConnectSucceeded(start) => Awaits(s, start) && s.links[s.starts[start].at.link].resolved
    case ConnectFailed(start) =>
      Awaits(s, start) && !s.links[s.starts[start].at.link].resolved && s.links[s.starts[start].at.link].phase == Gone
    case ContextRead(stop, _) => stop < |s.stops| && s.stops[stop].at == AwaitContext
    case ClearDone(stop, _) => stop < |s.stops| && s.stops[stop].at == AwaitClear
    case LinkCameUp(link) => link < |s.links| && (s.links[link].phase == Opening || s.links[link].phase == Retrying)
    case LinkWentDown(link, _, _) => link < |s.links| && (s.links[link].phase == Up || s.links[link].phase == Retrying)
    case LinkWasRefused(link) => link < |s.links| && s.links[link].phase == Opening
    case LinkSpeaks(link, _, _) => link < |s.links|
    case AckArrived(link, _, _, _) => link < |s.links|
    case _ => true
  }

  function Step(s: State, e: Event): State
    requires Enabled(s, e)
  {
    match e
    case StartCalled => StartEntered(s)
    case ConfigRead(start, servers) => Configured(s, start, servers)
    case ConnectSucceeded(start) => ConnectResolved(s, start)
    case ConnectFailed(start) => ConnectRejected(s, start)
    case StopCalled => Stopped(s)
    case ContextRead(stop, hasDevice) => ContextFound(s, stop, hasDevice)
    case ClearDone(stop, ok) => RoomCleared(s, stop, ok)
    case LinkCameUp(link) => LinkUp(s, link)
    case LinkWentDown(link, retries, failure) => LinkDown(s, link, retries, failure)
    case LinkWasRefused(link) => LinkRefused(s, link)
    case LinkSpeaks(link, sizes, now) => LinkSpoke(s, link, sizes, now)
    case EventSent(size, now) => Sent(s, size, now)
    case AckArrived(link, generation, size, now) => Acknowledged(s, link, generation, size, now)
  }

  ghost predicate IsRun(s: State, events: seq<Event>)
    decreases |events|
  {
    events == [] || (Enabled(s, events[0]) && IsRun(Step(s, events[0]), events[1..]))
  }

  ghost function After(s: State, events: seq<Event>): State
    requires IsRun(s, events)
    decreases |events|
  {
    if events == [] then s else After(Step(s, events[0]), events[1..])
  }

  const NEW_SERVICE := State(None, Idle, None, 0, 0, 0, [], [], [], [])

  // ---------------------------------------------------------------- the service object

  class RemoteControlService {
    var signalConnection: Option<nat>
    var signalStatus: Status
    var roomClear: Option<bool>
    var nextSignalRequestSequence: nat
    var authoritativeSignalRequestSequence: nat
    var activeSignalGeneration: nat
    var signalEvents: seq<Entry>
    var links: seq<Link>
    var starts: seq<Start>
    var stops: seq<Stop>

    ghost function View(): State
      reads this
    {
      State(signalConnection, signalStatus, roomClear, nextSignalRequestSequence, authoritativeSignalRequestSequence,
            activeSignalGeneration, signalEvents, links, starts, stops)
    }

    constructor ()
      ensures View() == NEW_SERVICE
    {
      signalConnection, signalStatus, roomClear := None, Idle, None;
      nextSignalRequestSequence, authoritativeSignalRequestSequence, activeSignalGeneration := 0, 0, 0;
      signalEvents, links, starts, stops := [], [], [], [];
    }

    method CloseConnection()
      modifies `signalConnection, `links
      ensures View() == ConnectionClosed(old(View()))
    {
      if signalConnection.Some? && signalConnection.value < |links| {
        links := links[signalConnection.value := links[signalConnection.value].(phase := Gone)];
      }
      signalConnection := None;
    }

    method Suspend(start: nat, at: StartSuspended)
      modifies `starts
      ensures View() == WithStart(old(View()), start, at)
    {
      if start < |starts| {
        starts := starts[start := starts[start].(at := at)];
      }
    }

    method SuspendStop(stop: nat, at: StopSuspended)
      modifies `stops
      ensures View() == WithStop(old(View()), stop, at)
    {
      if stop < |stops| {
        stops := stops[stop := stops[stop].(at := at)];
      }
    }

    method BeginStart()
      modifies this
      ensures View() == Step(old(View()), StartCalled)
    {
      nextSignalRequestSequence := nextSignalRequestSequence + 1;
      starts := starts + [Start(nextSignalRequestSequence, AwaitConfig)];
    }

    method TryNextServer(start: nat, servers: nat)
      modifies this
      ensures View() == NextServer(old(View()), start, servers)
    {
      if servers == 0 {
        signalStatus, roomClear := Failed, None;
        Suspend(start, StartReturned);
        return;
      }
      var link := |links|;
      links := links + [Link(activeSignalGeneration, start, Opening, false)];
      Suspend(start, AwaitConnect(link, activeSignalGeneration, servers - 1));
    }

    /** The start with this sequence becomes authoritative. */
    method TakeOver(sequence: nat)
      modifies this
      ensures View() == TakenOver(old(View()), sequence)
    {
      authoritativeSignalRequestSequence := sequence;
      activeSignalGeneration := activeSignalGeneration + 1;
      CloseConnection();
      signalEvents := [];
      signalStatus, roomClear := Connecting, None;
    }

    method AfterConfig(start: nat, servers: Option<nat>)
      requires Enabled(View(), ConfigRead(start, servers))
      modifies this
      ensures View() == Step(old(View()), ConfigRead(start, servers))
    {
      var sequence := starts[start].sequence;
      if servers.None? || sequence < authoritativeSignalRequestSequence {
        Suspend(start, StartReturned);
        return;
      }
      TakeOver(sequence);
      hide TakenOver, NextServer;
      TryNextServer(start, servers.value);
    }

    method AfterConnect(start: nat)
      requires Enabled(View(), ConnectSucceeded(start))
      modifies this
      ensures View() == Step(old(View()), ConnectSucceeded(start))
    {
      var at := starts[start].at;
      if at.generation != activeSignalGeneration {
        links := links[at.link := links[at.link].(phase := Gone)];
      } else {
        signalConnection := Some(at.link);
        signalStatus, roomClear := Connected, None;
      }
      Suspend(start, StartReturned);
    }

    method AfterConnectError(start: nat)
      requires Enabled(View(), ConnectFailed(start))
      modifies this
      ensures View() == Step(old(View()), ConnectFailed(start))
    {
      var at := starts[start].at;
      if at.generation != activeSignalGeneration {
        Suspend(start, StartReturned);
        return;
      }
      TryNextServer(start, at.serversLeft);
    }

    method StopSignalGateway()
      modifies this
      ensures View() == Step(old(View()), StopCalled)
    {
      nextSignalRequestSequence := nextSignalRequestSequence + 1;
      authoritativeSignalRequestSequence := nextSignalRequestSequence;
      activeSignalGeneration := activeSignalGeneration + 1;
      CloseConnection();
      signalStatus, roomClear := Closed, None;
      stops := stops + [Stop(activeSignalGeneration, AwaitContext)];
    }

    method AfterContext(stop: nat, hasDevice: bool)
      requires Enabled(View(), ContextRead(stop, hasDevice))
      modifies this
      ensures View() == Step(old(View()), ContextRead(stop, hasDevice))
    {
      if stops[stop].generation != activeSignalGeneration || !hasDevice {
        SuspendStop(stop, StopReturned);
        return;
      }
      SuspendStop(stop, AwaitClear);
    }

    method AfterRoomClear(stop: nat, ok: bool)
      requires Enabled(View(), ClearDone(stop, ok))
      modifies this
      ensures View() == Step(old(View()), ClearDone(stop, ok))
    {
      if stops[stop].generation == activeSignalGeneration {
        roomClear := Some(ok);
      }
      SuspendStop(stop, StopReturned);
    }

    method ApplyConnectionStateUpdate(link: nat, status: Status)
      requires link < |links|
      modifies `signalStatus, `roomClear, `signalConnection
      ensures View() == Announced(old(View()), link, status)
    {
      if links[link].generation != activeSignalGeneration {
        return;
      }
      if status == Connected {
        signalStatus, roomClear := Connected, None;
        return;
      }
      signalStatus := status;
      if status == Closed || status == Failed {
        signalConnection := None;
      }
    }

    method OnConnect(link: nat)
      requires Enabled(View(), LinkCameUp(link))
      modifies this
      ensures View() == Step(old(View()), LinkCameUp(link))
    {
      links := links[link := links[link].(phase := Up, resolved := true)];
      ApplyConnectionStateUpdate(link, Connected);
    }

    method OnDisconnect(link: nat, retries: bool, failure: bool)
      requires Enabled(View(), LinkWentDown(link, retries, failure))
      modifies this
      ensures View() == Step(old(View()), LinkWentDown(link, retries, failure))
    {
      links := links[link := links[link].(phase := if retries then Retrying else Gone)];
      ApplyConnectionStateUpdate(link, if retries then Connecting else if failure then Failed else Closed);
    }

    method RecordSignalEvent(e: Entry)
      modifies `signalEvents
      ensures signalEvents == Logged(old(signalEvents), e)
    {
      var log := signalEvents + [e];
      var kept: seq<Entry> := [];
      for i := 0 to |log|
        invariant signalEvents == old(signalEvents)
        invariant kept + FreshEntries(log[i..], e.receivedAt) == FreshEntries(log, e.receivedAt)
      {
        assert log[i..][1..] == log[i + 1..];
        FreshEntriesFirst(log[i..], e.receivedAt);
        if log[i].receivedAt + RETENTION_MS >= e.receivedAt {
          kept := kept + [log[i]];
        }
      }
      assert kept == FreshEntries(log, e.receivedAt);
      signalEvents := Within(EntrySize, kept);
    }

    method OnSignalEvent(link: nat, sizes: seq<nat>, now: nat)
      requires Enabled(View(), LinkSpeaks(link, sizes, now))
      modifies `signalEvents
      ensures View() == Step(old(View()), LinkSpeaks(link, sizes, now))
    {
      var generation := links[link].generation;
      if generation != activeSignalGeneration {
        return;
      }
      for i := 0 to |sizes|
        invariant AllLogged(signalEvents, generation, sizes[i..], now)
               == AllLogged(old(signalEvents), generation, sizes, now)
      {
        assert sizes[i..][1..] == sizes[i + 1..];
        RecordSignalEvent(Entry(generation, now, sizes[i]));
      }
    }

    method SendSignal(size: nat, now: nat)
      modifies this
      ensures View() == Step(old(View()), EventSent(size, now))
    {
      if signalConnection.Some? && signalConnection.value < |links| {
        RecordSignalEvent(Entry(links[signalConnection.value].generation, now, size));
      }
    }

    method AfterAck(link: nat, generation: nat, size: nat, now: nat)
      requires Enabled(View(), AckArrived(link, generation, size, now))
      modifies this
      ensures View() == Step(old(View()), AckArrived(link, generation, size, now))
    {
      if generation == activeSignalGeneration && signalConnection == Some(link) {
        RecordSignalEvent(Entry(links[link].generation, now, size));
      }
    }
  }

  // ---------------------------------------------------------------- what every interleaving keeps

  /** The start that made the link is still waiting for it. */
  predicate Awaited(s: State, link: nat) {
    && link < |s.links| && s.links[link].owner < |s.starts|
    && s.starts[s.links[link].owner].at.AwaitConnect? && s.starts[s.links[link].owner].at.link == link
  }

  /** Every link that is not gone is the connection or still awaited; of the active generation, only the newest is. */
  ghost predicate NoStrayLink(s: State) {
    && (s.connection.Some? ==>
          && s.connection.value + 1 == |s.links|
          && s.links[s.connection.value].generation == s.generation
          && s.links[s.connection.value].resolved)
    && forall k | 0 <= k < |s.links| ::
         && s.links[k].generation <= s.generation
         && (s.links[k].phase == Up || s.links[k].phase == Retrying ==> s.links[k].resolved)
         && (s.links[k].phase != Gone ==> s.connection == Some(k) || Awaited(s, k))
         && (s.links[k].phase != Gone && s.links[k].generation == s.generation ==> k + 1 == |s.links|)
  }

  /** A start that waits for a link of the active generation holds the authoritative sequence. */
  ghost predicate StartInOrder(s: State, i: nat)
    requires i < |s.starts|
  {
    var start := s.starts[i];
    && start.sequence <= s.nextSequence
    && (start.at.AwaitConnect? ==>
          && start.at.link < |s.links| && s.links[start.at.link].owner == i
          && s.links[start.at.link].generation == start.at.generation
          && (start.at.generation == s.generation ==>
                start.sequence == s.authoritative && s.connection.None? && start.at.link + 1 == |s.links|))
  }

  ghost predicate StartsInOrder(s: State) {
    && s.authoritative <= s.nextSequence
    && (forall i | 0 <= i < |s.starts| :: StartInOrder(s, i))
    && (forall i, j | 0 <= i < j < |s.starts| :: s.starts[i].sequence < s.starts[j].sequence)
  }

  predicate HasLink(s: State) {
    exists k | 0 <= k < |s.links| :: s.links[k].generation == s.generation
  }

  /** While a stop's generation is active there is no link of that generation, so nothing can undo the stop. */
  ghost predicate StopsInOrder(s: State) {
    && (forall i | 0 <= i < |s.stops| ::
          && s.stops[i].generation <= s.generation
          && (s.stops[i].generation == s.generation ==> s.status == Closed && s.connection.None? && !HasLink(s)))
    && (s.roomClear.Some? ==> s.status == Closed && s.connection.None? && !HasLink(s))
  }

  /** The log is that of one generation: the active one, as soon as that has a link. */
  ghost predicate CleanLog(s: State) {
    && (forall e <- s.log :: HasLink(s) ==> e.generation == s.generation)
    && (forall e, f | e in s.log && f in s.log :: e.generation == f.generation)
  }

  /** A connected status is about a link of the active generation: the connection, or one up but still awaited. */
  ghost predicate ConnectedHasLink(s: State) {
    s.status == Connected ==>
      s.connection.Some? ||
      (s.links != [] && Awaited(s, |s.links| - 1) && s.links[|s.links| - 1].generation == s.generation
       && s.links[|s.links| - 1].phase == Up)
  }

  ghost predicate Inv(s: State) {
    NoStrayLink(s) && StartsInOrder(s) && StopsInOrder(s) && CleanLog(s) && ConnectedHasLink(s)
  }

  lemma StartEnteredInv(s: State)
    requires Inv(s)
    ensures Inv(StartEntered(s))
  {
    var t := StartEntered(s);
    forall i | 0 <= i < |t.starts|
      ensures StartInOrder(t, i)
    {
      assert i < |s.starts| ==> StartInOrder(s, i);
    }
    forall i | 0 <= i < |s.starts|
      ensures s.starts[i].sequence <= s.nextSequence
    {
      assert StartInOrder(s, i);
    }
    assert HasLink(t) == HasLink(s);
    assert forall k: nat :: Awaited(s, k) ==> Awaited(t, k);
  }

  lemma StoppedInv(s: State)
    requires Inv(s)
    ensures Inv(Stopped(s))
  {
    var t := Stopped(s);
    forall i | 0 <= i < |t.starts|
      ensures StartInOrder(t, i)
    {
      assert StartInOrder(s, i);
    }
    assert forall k | 0 <= k < |t.links| :: t.links[k].generation == s.links[k].generation <= s.generation;
    assert !HasLink(t);
    assert forall k: nat :: Awaited(s, k) ==> Awaited(t, k);
  }

  /** A start may give up its link once that is gone. */
  lemma ReturnedInv(s: State, start: nat)
    requires Inv(s) && (Awaits(s, start) ==> s.links[s.starts[start].at.link].phase == Gone)
    ensures Inv(WithStart(s, start, StartReturned))
  {
    var t := WithStart(s, start, StartReturned);
    forall i | 0 <= i < |t.starts|
      ensures StartInOrder(t, i)
    {
      assert StartInOrder(s, i);
    }
    assert HasLink(t) == HasLink(s);
    assert forall k: nat :: Awaited(s, k) && s.links[k].phase != Gone ==> Awaited(t, k);
  }

  lemma NextServerInv(s: State, start: nat, servers: nat)
    requires Inv(s) && start < |s.starts| && s.starts[start].sequence == s.authoritative && s.connection.None?
    requires forall i | 0 <= i < |s.stops| :: s.stops[i].generation < s.generation
    requires s.status != Connected && s.roomClear.None?
    requires forall k | 0 <= k < |s.links| && s.links[k].generation == s.generation :: s.links[k].phase == Gone
    requires s.log != [] ==> HasLink(s)
    requires Awaits(s, start) ==> s.links[s.starts[start].at.link].phase == Gone
    requires forall i | 0 <= i < |s.starts| && i != start && s.starts[i].at.AwaitConnect? ::
               s.starts[i].at.generation < s.generation
    ensures Inv(NextServer(s, start, servers))
  {
    var t := NextServer(s, start, servers);
    forall i | 0 <= i < |t.starts|
      ensures StartInOrder(t, i)
    {
      assert StartInOrder(s, i);
    }
    assert forall k: nat :: Awaited(s, k) && s.links[k].phase != Gone ==> Awaited(t, k);
    if servers == 0 {
      assert HasLink(t) == HasLink(s);
    } else {
      assert t.links[|s.links|].generation == t.generation;
    }
  }

  lemma ConfiguredInv(s: State, start: nat, servers: Option<nat>)
    requires Inv(s) && Enabled(s, ConfigRead(start, servers))
    ensures Inv(Configured(s, start, servers))
  {
    var sequence := s.starts[start].sequence;
    assert StartInOrder(s, start);
    if servers.None? || sequence < s.authoritative {
      ReturnedInv(s, start);
    } else {
      var t := TakenOver(s, sequence);
      TakenOverInv(s, sequence);
      forall i | 0 <= i < |s.starts| && s.starts[i].at.AwaitConnect?
        ensures s.starts[i].at.generation <= s.generation
      {
        assert StartInOrder(s, i);
      }
      assert forall k | 0 <= k < |t.links| :: t.links[k].generation <= s.generation;
      NextServerInv(t, start, servers.value);
    }
  }

  lemma TakenOverInv(s: State, sequence: nat)
    requires Inv(s) && s.authoritative <= sequence <= s.nextSequence
    ensures Inv(TakenOver(s, sequence)) && TakenOver(s, sequence).starts == s.starts
  {
    var t := TakenOver(s, sequence);
    forall i | 0 <= i < |t.starts|
      ensures StartInOrder(t, i)
    {
      assert StartInOrder(s, i);
    }
    assert forall k | 0 <= k < |t.links| :: t.links[k].generation == s.links[k].generation <= s.generation;
    assert !HasLink(t);
    assert forall k: nat :: Awaited(s, k) ==> Awaited(t, k);
  }

  lemma ConnectResolvedStarts(s: State, start: nat)
    requires Inv(s) && Enabled(s, ConnectSucceeded(start))
    ensures StartsInOrder(ConnectResolved(s, start))
  {
    hide CleanLog, StopsInOrder, ConnectedHasLink;
    var t := ConnectResolved(s, start);
    assert StartInOrder(s, start);
    forall i | 0 <= i < |t.starts|
      ensures StartInOrder(t, i)
    {
      assert StartInOrder(s, i);
    }
  }

  lemma ConnectResolvedInv(s: State, start: nat)
    requires Inv(s) && Enabled(s, ConnectSucceeded(start))
    ensures Inv(ConnectResolved(s, start))
  {
    var at := s.starts[start].at;
    var t := ConnectResolved(s, start);
    ConnectResolvedStarts(s, start);
    assert StartInOrder(s, start);
    hide StartsInOrder;
    SameGenerations(s, t);
    assert forall k: nat :: Awaited(s, k) && k != at.link ==> Awaited(t, k);
    assert at.generation == s.generation ==> HasLink(s);
    hide Awaited, HasLink;
  }

  lemma ConnectRejectedInv(s: State, start: nat)
    requires Inv(s) && Enabled(s, ConnectFailed(start))
    ensures Inv(ConnectRejected(s, start))
  {
    var at := s.starts[start].at;
    assert StartInOrder(s, start);
    if at.generation != s.generation {
      ReturnedInv(s, start);
    } else {
      assert s.links[at.link].generation == s.generation;
      forall i | 0 <= i < |s.starts| && i != start && s.starts[i].at.AwaitConnect?
        ensures s.starts[i].at.generation < s.generation
      {
        assert StartInOrder(s, i);
      }
      NextServerInv(s, start, at.serversLeft);
    }
  }

  /** The generations of the links decide whether the active one has a link. */
  lemma SameGenerations(s: State, t: State)
    requires |s.links| == |t.links| && s.generation == t.generation
    requires forall k | 0 <= k < |s.links| :: s.links[k].generation == t.links[k].generation
    ensures HasLink(s) == HasLink(t)
  {
    if HasLink(s) {
      var k :| 0 <= k < |s.links| && s.links[k].generation == s.generation;
      assert t.links[k].generation == t.generation;
    }
  }

  lemma StopStepInv(s: State, stop: nat, hasDevice: bool, ok: bool)
    requires Inv(s) && stop < |s.stops|
    ensures Inv(ContextFound(s, stop, hasDevice)) && Inv(RoomCleared(s, stop, ok))
  {
    var t, u := ContextFound(s, stop, hasDevice), RoomCleared(s, stop, ok);
    SameGenerations(s, t);
    SameGenerations(s, u);
    forall i | 0 <= i < |s.starts|
      ensures StartInOrder(t, i) && StartInOrder(u, i)
    {
      assert StartInOrder(s, i);
    }
    assert forall k: nat :: Awaited(s, k) ==> Awaited(t, k) && Awaited(u, k);
  }

  function Changed(s: State, link: nat, phase: Phase, resolved: bool): State
    requires link < |s.links|
  {
    s.(links := s.links[link := s.links[link].(phase := phase, resolved := resolved)])
  }

  /** A link that is not gone changes its phase, and its listener says so. */
  predicate LinkStep(s: State, link: nat, phase: Phase, resolved: bool, status: Status) {
    && link < |s.links| && s.links[link].phase != Gone
    && (s.links[link].resolved ==> resolved) && (phase == Up || phase == Retrying ==> resolved)
    && (status == Connected <==> phase == Up) && (status == Connecting <==> phase == Retrying)
    && (status == Closed || status == Failed <==> phase == Gone)
  }

  lemma LinkStepStarts(s: State, link: nat, phase: Phase, resolved: bool, status: Status)
    requires NoStrayLink(s) && StartsInOrder(s) && LinkStep(s, link, phase, resolved, status)
    ensures StartsInOrder(Announced(Changed(s, link, phase, resolved), link, status))
  {
    hide NoStrayLink;
    var t := Announced(Changed(s, link, phase, resolved), link, status);
    forall i | 0 <= i < |t.starts|
      ensures StartInOrder(t, i)
    {
      assert StartInOrder(s, i);
    }
  }

  lemma LinkStepLinks(s: State, link: nat, phase: Phase, resolved: bool, status: Status)
    requires NoStrayLink(s) && LinkStep(s, link, phase, resolved, status)
    ensures NoStrayLink(Announced(Changed(s, link, phase, resolved), link, status))
  {
    var t := Announced(Changed(s, link, phase, resolved), link, status);
    assert forall k: nat :: Awaited(s, k) ==> Awaited(t, k);
    hide Awaited;
  }

  lemma LinkStepRest(s: State, link: nat, phase: Phase, resolved: bool, status: Status)
    requires NoStrayLink(s) && StopsInOrder(s) && CleanLog(s) && LinkStep(s, link, phase, resolved, status)
    ensures var t := Announced(Changed(s, link, phase, resolved), link, status); StopsInOrder(t) && CleanLog(t)
  {
    hide NoStrayLink;
    var t := Announced(Changed(s, link, phase, resolved), link, status);
    SameGenerations(s, t);
    assert s.links[link].generation == s.generation ==> HasLink(s);
    hide HasLink;
  }

  lemma LinkStepConnected(s: State, link: nat, phase: Phase, resolved: bool, status: Status)
    requires NoStrayLink(s) && ConnectedHasLink(s) && LinkStep(s, link, phase, resolved, status)
    ensures ConnectedHasLink(Announced(Changed(s, link, phase, resolved), link, status))
  {
    var t := Announced(Changed(s, link, phase, resolved), link, status);
    assert forall k: nat :: Awaited(s, k) ==> Awaited(t, k);
    hide Awaited;
  }

  lemma LinkStepInv(s: State, link: nat, phase: Phase, resolved: bool, status: Status)
    requires Inv(s) && LinkStep(s, link, phase, resolved, status)
    ensures Inv(Announced(Changed(s, link, phase, resolved), link, status))
  {
    hide NoStrayLink, StartsInOrder, StopsInOrder, CleanLog, ConnectedHasLink, Announced, LinkStep;
    LinkStepStarts(s, link, phase, resolved, status);
    LinkStepLinks(s, link, phase, resolved, status);
    LinkStepRest(s, link, phase, resolved, status);
    LinkStepConnected(s, link, phase, resolved, status);
  }

  lemma LinkRefusedInv(s: State, link: nat)
    requires Inv(s) && Enabled(s, LinkWasRefused(link))
    ensures Inv(LinkRefused(s, link))
  {
    var t := LinkRefused(s, link);
    SameGenerations(s, t);
    forall i | 0 <= i < |t.starts|
      ensures StartInOrder(t, i)
    {
      assert StartInOrder(s, i);
    }
    assert forall k: nat :: Awaited(s, k) ==> Awaited(t, k);
  }

  /** The log has gone on with events of the active generation, which has a link, or has dropped some. */
  lemma LoggedInv(s: State, link: nat, log: seq<Entry>)
    requires Inv(s) && link < |s.links| && s.links[link].generation == s.generation
    requires forall e <- log :: e in s.log || e.generation == s.generation
    ensures Inv(s.(log := log))
  {
    var t := s.(log := log);
    SameGenerations(s, t);
    assert HasLink(s);
    forall i | 0 <= i < |t.starts|
      ensures StartInOrder(t, i)
    {
      assert StartInOrder(s, i);
    }
    assert forall k: nat :: Awaited(s, k) ==> Awaited(t, k);
  }

  lemma StepKeepsInv(s: State, e: Event)
    requires Inv(s) && Enabled(s, e)
    ensures Inv(Step(s, e))
  {
    hide StartEntered, Configured, ConnectResolved, ConnectRejected, Stopped, ContextFound, RoomCleared, Announced;
    hide Logged, AllLogged;
    hide Awaited, StartInOrder, StopsInOrder, CleanLog, ConnectedHasLink;
    match e
    case StartCalled => StartEnteredInv(s);
    case ConfigRead(start, servers) => ConfiguredInv(s, start, servers);
    case ConnectSucceeded(start) => ConnectResolvedInv(s, start);
    case ConnectFailed(start) => ConnectRejectedInv(s, start);
    case StopCalled => StoppedInv(s);
    case ContextRead(stop, hasDevice) => StopStepInv(s, stop, hasDevice, true);
    case ClearDone(stop, ok) => StopStepInv(s, stop, true, ok);
    case LinkCameUp(link) => LinkStepInv(s, link, Up, true, Connected);
    case LinkWentDown(link, retries, failure) =>
      LinkStepInv(s, link, if retries then Retrying else Gone, s.links[link].resolved,
                  if retries then Connecting else if failure then Failed else Closed);
    case LinkWasRefused(link) => LinkRefusedInv(s, link);
    case LinkSpeaks(link, sizes, now) =>
      if s.links[link].generation == s.generation {
        LoggedInv(s, link, AllLogged(s.log, s.generation, sizes, now));
      }
    case EventSent(size, now) =>
      if s.connection.Some? {
        LoggedInv(s, s.connection.value, Logged(s.log, Entry(s.generation, now, size)));
      }
    case AckArrived(link, _, size, now) =>
      if s.connection == Some(link) {
        LoggedInv(s, link, Logged(s.log, Entry(s.generation, now, size)));
      }
  }

  lemma {:induction false} RunKeepsInv(s: State, events: seq<Event>)
    requires Inv(s) && IsRun(s, events)
    ensures Inv(After(s, events))
    decreases |events|
  {
    if events != [] {
      StepKeepsInv(s, events[0]);
      RunKeepsInv(Step(s, events[0]), events[1..]);
    }
  }

  /**
   Over every run of a new service: a link that is neither the connection nor still awaited is gone, the
   connection belongs to the active generation, a connected status is about a link of that generation, a cleared
   room shows only on a stopped service, and the log never mixes two generations.
   */
  lemma NoStrayLinkOverRuns(events: seq<Event>)
    requires IsRun(NEW_SERVICE, events)
    ensures var s := After(NEW_SERVICE, events);
            && (forall k | 0 <= k < |s.links| && s.connection != Some(k) && !Awaited(s, k) :: s.links[k].phase == Gone)
            && (s.connection.Some? ==>
                  s.connection.value < |s.links| && s.links[s.connection.value].generation == s.generation)
            && (s.status == Connected ==> HasLink(s))
            && (s.roomClear.Some? ==> s.status == Closed && s.connection.None?)
            && (forall e, f | e in s.log && f in s.log :: e.generation == f.generation)
  {
    RunKeepsInv(NEW_SERVICE, events);
    var s := After(NEW_SERVICE, events);
    assert s.status == Connected ==> s.links[|s.links| - 1].generation == s.generation;
  }

  // ---------------------------------------------------------------- when a connected status is true

  /** A connected status that is true: the newest link belongs to the active generation and is up. */
  ghost predicate TrueStatus(s: State) {
    s.status == Connected ==>
      s.links != [] && s.links[|s.links| - 1].generation == s.generation && s.links[|s.links| - 1].phase == Up
  }

  /** A start adopts the link it waited for although that has gone down in between. */
  predicate AdoptsLostLink(s: State, e: Event)
    requires Enabled(s, e)
  {
    e.ConnectSucceeded? && s.starts[e.start].at.generation == s.generation
    && s.links[s.starts[e.start].at.link].phase != Up
  }

  lemma AdoptionIsTrueIff(s: State, start: nat)
    requires Inv(s) && TrueStatus(s) && Enabled(s, ConnectSucceeded(start))
    ensures TrueStatus(ConnectResolved(s, start)) <==> !AdoptsLostLink(s, ConnectSucceeded(start))
  {
    hide CleanLog, StopsInOrder, ConnectedHasLink;
    assert StartInOrder(s, start);
  }

  /** A start that goes on after its link came up makes the status true exactly when the link is still up. */
  lemma AdoptedLinkIsUpIff(s: State, start: nat)
    requires Inv(s) && Enabled(s, ConnectSucceeded(start)) && s.starts[start].at.generation == s.generation
    ensures var t := Step(s, ConnectSucceeded(start));
            && t.status == Connected && t.connection == Some(s.starts[start].at.link)
            && (TrueStatus(t) <==> s.links[s.starts[start].at.link].phase == Up)
  {
    hide CleanLog, StopsInOrder, ConnectedHasLink;
    assert StartInOrder(s, start);
  }

  lemma RejectionIsTrue(s: State, start: nat)
    requires Inv(s) && TrueStatus(s) && Enabled(s, ConnectFailed(start))
    ensures TrueStatus(ConnectRejected(s, start))
  {
    hide CleanLog, StopsInOrder, ConnectedHasLink;
    assert StartInOrder(s, start);
  }

  lemma LinkStepIsTrue(s: State, e: Event)
    requires TrueStatus(s) && Enabled(s, e) && (e.LinkCameUp? || e.LinkWentDown? || e.LinkWasRefused?)
    requires NoStrayLink(s)
    ensures TrueStatus(Step(s, e))
  {
    hide Awaited;
  }

  /** A step keeps a connected status true if and only if it does not adopt a lost link. */
  lemma TrueStatusStepIff(s: State, e: Event)
    requires Inv(s) && TrueStatus(s) && Enabled(s, e)
    ensures TrueStatus(Step(s, e)) <==> !AdoptsLostLink(s, e)
  {
    hide CleanLog, StopsInOrder, ConnectedHasLink, StartsInOrder;
    match e
    case ConnectSucceeded(start) => AdoptionIsTrueIff(s, start);
    case ConnectFailed(start) => RejectionIsTrue(s, start);
    case LinkCameUp(_) => LinkStepIsTrue(s, e);
    case LinkWentDown(_, _, _) => LinkStepIsTrue(s, e);
    case LinkWasRefused(_) => LinkStepIsTrue(s, e);
    case _ => hide NoStrayLink;
  }

  ghost predicate AlwaysTrue(s: State, events: seq<Event>)
    requires IsRun(s, events)
    decreases |events|
  {
    TrueStatus(s) && (events != [] ==> AlwaysTrue(Step(s, events[0]), events[1..]))
  }

  ghost predicate NeverAdoptsLostLink(s: State, events: seq<Event>)
    requires IsRun(s, events)
    decreases |events|
  {
    events != [] ==> !AdoptsLostLink(s, events[0]) && NeverAdoptsLostLink(Step(s, events[0]), events[1..])
  }

  /** The status is true throughout a run if and only if the run adopts no lost link. */
  lemma {:induction false} StatusAlwaysTrueIff(s: State, events: seq<Event>)
    requires Inv(s) && TrueStatus(s) && IsRun(s, events)
    ensures AlwaysTrue(s, events) <==> NeverAdoptsLostLink(s, events)
    decreases |events|
  {
    hide Inv, Step, Enabled, TrueStatus, AdoptsLostLink;
    if events != [] {
      TrueStatusStepIff(s, events[0]);
      StepKeepsInv(s, events[0]);
      if !AdoptsLostLink(s, events[0]) {
        StatusAlwaysTrueIff(Step(s, events[0]), events[1..]);
      }
    }
  }

  /** A new service reaches a false connected status: its first link comes up and is gone before it is adopted. */
  lemma FalseConnectedIsReached()
    ensures var events :=
              [StartCalled, ConfigRead(0, Some(1)), LinkCameUp(0), LinkWentDown(0, false, false), ConnectSucceeded(0)];
            && IsRun(NEW_SERVICE, events)
            && var s := After(NEW_SERVICE, events);
               s.status == Connected && s.connection == Some(0) && s.links[0].phase == Gone
  {
    var s1 := Step(NEW_SERVICE, StartCalled);
    var s2 := Step(s1, ConfigRead(0, Some(1)));
    var s3 := Step(s2, LinkCameUp(0));
    var s4 := Step(s3, LinkWentDown(0, false, false));
    var s5 := Step(s4, ConnectSucceeded(0));
    assert s5.status == Connected && s5.links[0].phase == Gone;
    RunOfOne(s4, ConnectSucceeded(0), []);
    RunOfOne(s3, LinkWentDown(0, false, false), [ConnectSucceeded(0)]);
    RunOfOne(s2, LinkCameUp(0), [LinkWentDown(0, false, false), ConnectSucceeded(0)]);
    RunOfOne(s1, ConfigRead(0, Some(1)), [LinkCameUp(0), LinkWentDown(0, false, false), ConnectSucceeded(0)]);
    RunOfOne(NEW_SERVICE, StartCalled,
             [ConfigRead(0, Some(1)), LinkCameUp(0), LinkWentDown(0, false, false), ConnectSucceeded(0)]);
  }

  lemma RunOfOne(s: State, e: Event, rest: seq<Event>)
    requires Enabled(s, e) && IsRun(Step(s, e), rest)
    ensures IsRun(s, [e] + rest) && After(s, [e] + rest) == After(Step(s, e), rest)
  {
    assert ([e] + rest)[1..] == rest;
  }

  // ---------------------------------------------------------------- last request wins

  /** Whose event it is. */
  datatype Actor = OfStart(start: nat) | OfStop(stop: nat) | OfLink(link: nat) | OfCaller

  function ActorOf(e: Event): Actor {
    match e
    case ConfigRead(start, _) => OfStart(start)
    case ConnectSucceeded(start) => OfStart(start)
    case ConnectFailed(start) => OfStart(start)
    case ContextRead(stop, _) => OfStop(stop)
    case ClearDone(stop, _) => OfStop(stop)
    case LinkCameUp(link) => OfLink(link)
    case LinkWentDown(link, _, _) => OfLink(link)
    case LinkWasRefused(link) => OfLink(link)
    case LinkSpeaks(link, _, _) => OfLink(link)
    case AckArrived(link, _, _, _) => OfLink(link)
    case _ => OfCaller
  }

  /** A newer request has become authoritative since this start, this stop or the start of this link. */
  predicate Overtaken(s: State, actor: Actor) {
    match actor
    case OfStart(start) => start < |s.starts| && s.starts[start].sequence < s.authoritative
    case OfStop(stop) => stop < |s.stops| && s.stops[stop].generation < s.generation
    case OfLink(link) => link < |s.links| && s.links[link].generation < s.generation
    case OfCaller => false
  }

  function Observable(s: State): (Option<nat>, Status, Option<bool>, seq<Entry>, nat, nat) {
    (s.connection, s.status, s.roomClear, s.log, s.authoritative, s.generation)
  }

  /** Nothing an overtaken start, stop or link still does can be observed, and it opens no link. */
  lemma OvertakenIsInert(s: State, e: Event)
    requires Inv(s) && Enabled(s, e) && Overtaken(s, ActorOf(e))
    ensures Observable(Step(s, e)) == Observable(s) && |Step(s, e).links| == |s.links|
  {
    if ActorOf(e).OfStart? {
      assert StartInOrder(s, e.start);
    }
  }

  ghost predicate Later(s: State, t: State) {
    && t.authoritative >= s.authoritative && t.generation >= s.generation
    && |t.starts| >= |s.starts| && |t.stops| >= |s.stops| && |t.links| >= |s.links|
    && (forall i | 0 <= i < |s.starts| :: t.starts[i].sequence == s.starts[i].sequence)
    && (forall i | 0 <= i < |s.stops| :: t.stops[i].generation == s.stops[i].generation)
    && (forall k | 0 <= k < |s.links| :: t.links[k].generation == s.links[k].generation)
  }

  lemma ConfiguredGoesForward(s: State, start: nat, servers: Option<nat>)
    requires start < |s.starts|
    ensures Later(s, Configured(s, start, servers))
  {
  }

  lemma StopGoesForward(s: State)
    requires s.authoritative <= s.nextSequence
    ensures Later(s, Stopped(s))
  {
  }

  lemma StepGoesForward(s: State, e: Event)
    requires Inv(s) && Enabled(s, e)
    ensures Later(s, Step(s, e))
  {
    hide CleanLog, StopsInOrder, ConnectedHasLink, NoStrayLink, Configured, Stopped, StartInOrder;
    match e
    case ConfigRead(start, servers) => ConfiguredGoesForward(s, start, servers);
    case StopCalled => StopGoesForward(s);
    case _ =>
  }

  lemma {:induction false} RunGoesForward(s: State, events: seq<Event>)
    requires Inv(s) && IsRun(s, events)
    ensures Later(s, After(s, events))
    decreases |events|
  {
    hide Inv, Step, Enabled;
    if events != [] {
      StepGoesForward(s, events[0]);
      StepKeepsInv(s, events[0]);
      RunGoesForward(Step(s, events[0]), events[1..]);
    }
  }

  /** Once overtaken, a start, stop or link changes nothing observable, however long the run in between. */
  lemma LastRequestWins(s: State, between: seq<Event>, e: Event)
    requires Inv(s) && IsRun(s, between) && Enabled(After(s, between), e) && Overtaken(s, ActorOf(e))
    ensures Observable(Step(After(s, between), e)) == Observable(After(s, between))
  {
    hide Inv, Step, Enabled;
    RunKeepsInv(s, between);
    RunGoesForward(s, between);
    OvertakenIsInert(After(s, between), e);
  }

  /** Stopped: every start and link made so far is overtaken, and there is nothing to send on. */
  ghost predicate AtRest(s: State) {
    && s.status == Closed && s.connection.None?
    && (forall i | 0 <= i < |s.starts| :: Overtaken(s, OfStart(i)))
    && (forall k | 0 <= k < |s.links| :: Overtaken(s, OfLink(k)))
  }

  lemma StopRests(s: State)
    requires Inv(s)
    ensures AtRest(Stopped(s)) && Stopped(s).log == s.log
  {
    forall i | 0 <= i < |s.starts|
      ensures s.starts[i].sequence <= s.nextSequence
    {
      assert StartInOrder(s, i);
    }
  }

  lemma AtRestStays(s: State, e: Event)
    requires Inv(s) && AtRest(s) && Enabled(s, e) && !e.StartCalled?
    ensures AtRest(Step(s, e)) && Step(s, e).log == s.log
  {
    hide Inv;
    StepGoesForward(s, e);
    if e.StopCalled? {
      StopRests(s);
    } else if ActorOf(e).OfStart? || ActorOf(e).OfLink? {
      OvertakenIsInert(s, e);
    }
  }

  /** A stop sticks: until a new start is called, the service stays closed and its log is the one it stopped with. */
  lemma {:induction false} StopSticks(s: State, events: seq<Event>)
    requires Inv(s) && AtRest(s) && IsRun(s, events)
    requires forall e <- events :: !e.StartCalled?
    ensures AtRest(After(s, events)) && After(s, events).log == s.log
    decreases |events|
  {
    hide Inv, Step, Enabled, AtRest;
    if events != [] {
      assert events[0] in events && forall e <- events[1..] :: e in events;
      AtRestStays(s, events[0]);
      StepKeepsInv(s, events[0]);
      StopSticks(Step(s, events[0]), events[1..]);
    }
  }

  // ---------------------------------------------------------------- what the status says

  /** The newest link, if it belongs to the active generation. */
  predicate HasCurrent(s: State) {
    s.links != [] && s.links[|s.links| - 1].generation == s.generation
  }

  /**
   The status is that of the newest link: connecting while it opens, is refused or retries, connected while it is up,
   and closed or failed once it is gone. A refused link that nobody waits for any more is the last that was tried.
   */
  ghost predicate StatusOfLink(s: State, link: Link, awaited: bool) {
    match link.phase
    case Opening => s.status == Connecting
    case Up => s.status == Connected
    case Retrying => s.status == Connecting
    case Gone =>
      if link.resolved then s.status == Closed || s.status == Failed
      else s.status == if awaited then Connecting else Failed
  }

  /** The status and the connection are exactly those of the newest link; without one nothing is being connected. */
  ghost predicate ExactStatus(s: State) {
    && (forall k | 0 <= k < |s.links| && s.links[k].phase == Opening :: !s.links[k].resolved)
    && if HasCurrent(s) then
         var n := |s.links| - 1;
         && StatusOfLink(s, s.links[n], Awaited(s, n))
         && (s.connection.Some? <==> !Awaited(s, n) && (s.links[n].phase == Up || s.links[n].phase == Retrying))
       else s.status != Connected && s.status != Connecting && s.connection.None?
  }

  lemma NewestAwaited(s: State, start: nat)
    requires Inv(s) && Awaits(s, start) && s.starts[start].at.generation == s.generation
    ensures s.starts[start].at.link == |s.links| - 1 && HasCurrent(s) && Awaited(s, |s.links| - 1)
    ensures s.starts[start].sequence == s.authoritative && s.connection.None?
  {
    assert StartInOrder(s, start);
  }

  lemma ConfiguredIsExact(s: State, start: nat, servers: Option<nat>)
    requires Inv(s) && ExactStatus(s) && Enabled(s, ConfigRead(start, servers))
    ensures ExactStatus(Configured(s, start, servers))
  {
    hide StopsInOrder, CleanLog, ConnectedHasLink, StartsInOrder, ExactStatus, TakenOver, NextServer;
    if servers.None? || s.starts[start].sequence < s.authoritative {
      assert s.links != [] ==>
               Awaited(WithStart(s, start, StartReturned), |s.links| - 1) == Awaited(s, |s.links| - 1);
      hide NoStrayLink;
      SameLinksAreExact(s, WithStart(s, start, StartReturned));
    } else {
      TakenOverIsExact(s, s.starts[start].sequence, start, servers.value);
    }
  }

  lemma TakenOverIsExact(s: State, sequence: nat, start: nat, servers: nat)
    requires NoStrayLink(s) && ExactStatus(s) && start < |s.starts|
    ensures ExactStatus(NextServer(TakenOver(s, sequence), start, servers))
  {
    var begun := TakenOver(s, sequence);
    assert forall k | 0 <= k < |begun.links| :: begun.links[k].generation == s.links[k].generation < begun.generation;
    assert forall k | 0 <= k < |begun.links| && begun.links[k].phase == Opening :: !begun.links[k].resolved;
    assert begun.connection.None? && begun.status == Connecting && start < |begun.starts|;
    hide NoStrayLink, TakenOver;
    if servers > 0 {
      assert Awaited(NextServer(begun, start, servers), |begun.links|);
    }
  }

  lemma ResolvedIsExact(s: State, start: nat)
    requires Inv(s) && ExactStatus(s) && Enabled(s, ConnectSucceeded(start))
    requires !AdoptsLostLink(s, ConnectSucceeded(start))
    ensures ExactStatus(ConnectResolved(s, start))
  {
    hide StopsInOrder, CleanLog, ConnectedHasLink;
    var at, t := s.starts[start].at, ConnectResolved(s, start);
    assert StartInOrder(s, start);
    assert !Awaited(t, at.link);
    assert HasCurrent(s) && at.link != |s.links| - 1 ==> Awaited(t, |s.links| - 1) == Awaited(s, |s.links| - 1);
  }

  lemma RejectedIsExact(s: State, start: nat)
    requires Inv(s) && ExactStatus(s) && Enabled(s, ConnectFailed(start))
    ensures ExactStatus(ConnectRejected(s, start))
  {
    hide StopsInOrder, CleanLog, ConnectedHasLink;
    var at, t := s.starts[start].at, ConnectRejected(s, start);
    assert StartInOrder(s, start);
    if at.generation != s.generation {
      assert HasCurrent(s) ==> Awaited(t, |s.links| - 1) == Awaited(s, |s.links| - 1);
    } else if at.serversLeft > 0 {
      assert Awaited(t, |s.links|);
    } else {
      assert !Awaited(t, at.link);
    }
  }

  lemma LinkStepIsExact(s: State, e: Event)
    requires NoStrayLink(s) && ExactStatus(s) && Enabled(s, e)
    requires e.LinkCameUp? || e.LinkWentDown? || e.LinkWasRefused?
    ensures ExactStatus(Step(s, e))
  {
    var t := Step(s, e);
    assert s.links[e.link].generation == s.generation ==> e.link == |s.links| - 1;
    assert HasCurrent(s) ==> s.links[|s.links| - 1].phase != Gone ==>
             s.connection == Some(|s.links| - 1) || Awaited(s, |s.links| - 1);
    hide NoStrayLink;
    assert s.links != [] ==> Awaited(t, |s.links| - 1) == Awaited(s, |s.links| - 1);
    hide Awaited;
  }

  /** The status stays exact while neither the links nor what is said of them changes. */
  lemma SameLinksAreExact(s: State, t: State)
    requires ExactStatus(s) && t.links == s.links && t.generation == s.generation
    requires t.status == s.status && t.connection == s.connection
    requires s.links != [] ==> Awaited(t, |s.links| - 1) == Awaited(s, |s.links| - 1)
    ensures ExactStatus(t)
  {
    hide Awaited;
  }

  lemma StoppedIsExact(s: State)
    requires NoStrayLink(s) && ExactStatus(s)
    ensures ExactStatus(Stopped(s))
  {
    hide Awaited;
  }

  lemma OthersAreExact(s: State, e: Event)
    requires Inv(s) && ExactStatus(s) && Enabled(s, e)
    requires !ActorOf(e).OfStart? && !e.LinkCameUp? && !e.LinkWentDown? && !e.LinkWasRefused?
    ensures ExactStatus(Step(s, e))
  {
    hide ExactStatus, Stopped, Logged, AllLogged, CleanLog, StopsInOrder, StartsInOrder;
    match e
    case StopCalled => StoppedIsExact(s);
    case StartCalled => EnteredIsExact(s);
    case ContextRead(_, _) | ClearDone(_, _) | LinkSpeaks(_, _, _) | EventSent(_, _) | AckArrived(_, _, _, _) =>
      hide ConnectedHasLink, NoStrayLink;
      SameLinksAreExact(s, Step(s, e));
    case _ =>
  }

  lemma EnteredIsExact(s: State)
    requires Inv(s) && ExactStatus(s)
    ensures ExactStatus(StartEntered(s))
  {
    hide ExactStatus, CleanLog, StopsInOrder;
    var t := StartEntered(s);
    assert s.links != [] ==> Awaited(t, |s.links| - 1) == Awaited(s, |s.links| - 1);
    hide NoStrayLink, StartsInOrder, ConnectedHasLink;
    SameLinksAreExact(s, t);
  }

  /** A step keeps the status exact unless a start adopts a link that has gone down while it was awaited. */
  lemma StepKeepsStatusExact(s: State, e: Event)
    requires Inv(s) && ExactStatus(s) && Enabled(s, e) && !AdoptsLostLink(s, e)
    ensures ExactStatus(Step(s, e))
  {
    hide StartsInOrder, StopsInOrder, CleanLog, ConnectedHasLink, ExactStatus, Configured, ConnectResolved, ConnectRejected;
    match e
    case ConfigRead(start, servers) => ConfiguredIsExact(s, start, servers);
    case ConnectSucceeded(start) => ResolvedIsExact(s, start);
    case ConnectFailed(start) => RejectedIsExact(s, start);
    case LinkCameUp(_) => LinkStepIsExact(s, e);
    case LinkWentDown(_, _, _) => LinkStepIsExact(s, e);
    case LinkWasRefused(_) => LinkStepIsExact(s, e);
    case _ => OthersAreExact(s, e);
  }

  /** Over every run of a new service that adopts no lost link, the status is exactly that of the newest link. */
  lemma {:induction false} StatusIsExactOverRuns(s: State, events: seq<Event>)
    requires Inv(s) && ExactStatus(s) && IsRun(s, events) && NeverAdoptsLostLink(s, events)
    ensures ExactStatus(After(s, events))
    decreases |events|
  {
    hide Inv, Step, Enabled, ExactStatus, AdoptsLostLink;
    if events != [] {
      StepKeepsStatusExact(s, events[0]);
      StepKeepsInv(s, events[0]);
      StatusIsExactOverRuns(Step(s, events[0]), events[1..]);
    }
  }

  lemma NewServiceIsExact()
    ensures Inv(NEW_SERVICE) && ExactStatus(NEW_SERVICE)
  {
  }

  /** A current start tries its servers one at a time, and fails after the last; one that connects is done. */
  lemma ConnectingGoesOn(s: State, e: Event)
    requires Inv(s) && Enabled(s, e) && !Overtaken(s, ActorOf(e))
    requires e.ConnectFailed? || e.ConnectSucceeded? || (e.ConfigRead? && e.servers.Some?)
    requires !e.ConfigRead? ==> s.starts[e.start].at.generation == s.generation
    ensures var t := Step(s, e);
            var left := if e.ConfigRead? then e.servers.value
                        else if e.ConnectFailed? then s.starts[e.start].at.serversLeft else 0;
            && (e.ConnectSucceeded? ==>
                  && t.status == Connected && t.connection == Some(s.starts[e.start].at.link)
                  && t.starts[e.start].at == StartReturned)
            && (!e.ConnectSucceeded? && left == 0 ==>
                  && t.status == Failed && t.connection.None? && t.starts[e.start].at == StartReturned
                  && t.links == (if e.ConfigRead? then ConnectionClosed(s).links else s.links))
            && (!e.ConnectSucceeded? && left > 0 ==>
                  && t.status == (if e.ConfigRead? then Connecting else s.status) && t.connection.None?
                  && t.starts[e.start].at == AwaitConnect(|s.links|, t.generation, left - 1)
                  && |t.links| == |s.links| + 1 && t.links[|s.links|] == Link(t.generation, e.start, Opening, false))
            && (e.ConfigRead? ==>
                  && t.authoritative == s.starts[e.start].sequence && t.generation == s.generation + 1 && t.log == [])
  {
    hide StopsInOrder, CleanLog, ConnectedHasLink, NoStrayLink;
    assert StartInOrder(s, e.start);
  }

  /** A request that cannot start anything, because no room is configured or a newer request came, changes nothing. */
  lemma NothingToStart(s: State, start: nat, servers: Option<nat>)
    requires Enabled(s, ConfigRead(start, servers)) && (servers.None? || Overtaken(s, OfStart(start)))
    ensures var t := Step(s, ConfigRead(start, servers));
            Observable(t) == Observable(s) && t.links == s.links && t.starts[start].at == StartReturned
  {
  }

  /** A stop closes the connection at once, shows nothing of an earlier stop, and goes on to look up its room. */
  lemma StopBegins(s: State)
    ensures var t := Step(s, StopCalled);
            && t.status == Closed && t.roomClear.None? && t.connection.None? && t.log == s.log
            && |t.stops| == |s.stops| + 1 && t.stops[..|s.stops|] == s.stops
            && t.stops[|s.stops|] == Stop(t.generation, AwaitContext)
            && t.generation > s.generation && t.authoritative == t.nextSequence > s.nextSequence
            && (s.connection.Some? && s.connection.value < |s.links| ==> t.links[s.connection.value].phase == Gone)
  {
  }

  /** A link that resolves for an overtaken start is ended, and one that is refused is gone without a word. */
  lemma UnwantedLinksEnd(s: State, start: nat, link: nat)
    ensures Enabled(s, ConnectSucceeded(start)) && s.starts[start].at.generation != s.generation ==>
              var t := Step(s, ConnectSucceeded(start));
              && t.links[s.starts[start].at.link].phase == Gone && t.starts[start].at == StartReturned
              && Observable(t) == Observable(s)
    ensures Enabled(s, LinkWasRefused(link)) ==>
              var t := Step(s, LinkWasRefused(link));
              t.links[link].phase == Gone && Observable(t) == Observable(s)
  {
  }

  /** A request is numbered after all others, and nothing else changes. */
  lemma RequestIsNumbered(s: State)
    requires Inv(s)
    ensures var t := Step(s, StartCalled);
            var start := |s.starts|;
            && |t.starts| == start + 1 && t.starts[..start] == s.starts && Observable(t) == Observable(s)
            && t.starts[start].at == AwaitConfig && t.starts[start].sequence > t.authoritative
            && t.links == s.links && forall i | 0 <= i < start :: t.starts[i].sequence < t.starts[start].sequence
  {
    forall i | 0 <= i < |s.starts|
      ensures s.starts[i].sequence <= s.nextSequence
    {
      assert StartInOrder(s, i);
    }
  }

  /** A stop goes on to clear the room of a known device, and while it is current the status shows how that went. */
  lemma StopGoesOn(s: State, stop: nat, hasDevice: bool, ok: bool)
    requires stop < |s.stops|
    ensures Enabled(s, ContextRead(stop, hasDevice)) ==>
              var t := Step(s, ContextRead(stop, hasDevice));
              && t.stops[stop].at == (if hasDevice && s.stops[stop].generation == s.generation then AwaitClear else StopReturned)
              && Observable(t) == Observable(s)
    ensures Enabled(s, ClearDone(stop, ok)) ==>
              var t := Step(s, ClearDone(stop, ok));
              && t.stops[stop].at == StopReturned && t.status == s.status && t.connection == s.connection
              && t.roomClear == if s.stops[stop].generation == s.generation then Some(ok) else s.roomClear
  {
  }

  /** What a link of the active generation reports: retrying, failed or closed, and then the connection is gone. */
  lemma LinkReports(s: State, link: nat, retries: bool, failure: bool)
    requires Enabled(s, LinkWentDown(link, retries, failure)) && s.links[link].generation == s.generation
    ensures var t := Step(s, LinkWentDown(link, retries, failure));
            && t.status == (if retries then Connecting else if failure then Failed else Closed)
            && t.connection == (if retries then s.connection else None)
            && t.links[link].phase == if retries then Retrying else Gone
  {
  }

  // ---------------------------------------------------------------- the log

  /** A new event that fits is the newest of the log, behind those that are fresh. */
  lemma LoggedIsKept(log: seq<Entry>, e: Entry) returns (k: nat)
    ensures k <= |FreshEntries(log, e.receivedAt)| + 1
    ensures Logged(log, e) == (FreshEntries(log, e.receivedAt) + [e])[k..]
    ensures e.size <= MAX_EVENT_BYTES ==> Logged(log, e) != [] && Logged(log, e)[|Logged(log, e)| - 1] == e
  {
    NewIsFresh(log, e);
    k := WithinIsSuffix(EntrySize, FreshEntries(log, e.receivedAt) + [e]);
  }

  lemma NewIsFresh(log: seq<Entry>, e: Entry)
    ensures FreshEntries(log + [e], e.receivedAt) == FreshEntries(log, e.receivedAt) + [e]
  {
    FreshEntriesAppend(log, [e], e.receivedAt);
    FreshEntriesFirst([e], e.receivedAt);
    assert [e][1..] == [];
  }

  lemma {:induction false} AllAreLogged(log: seq<Entry>, generation: nat, sizes: seq<nat>, now: nat)
    requires sizes != [] && sizes[|sizes| - 1] <= MAX_EVENT_BYTES
    ensures var r := AllLogged(log, generation, sizes, now);
            r != [] && r[|r| - 1] == Entry(generation, now, sizes[|sizes| - 1])
    decreases |sizes|
  {
    hide Logged;
    var next := Logged(log, Entry(generation, now, sizes[0]));
    if |sizes| == 1 {
      var k := LoggedIsKept(log, Entry(generation, now, sizes[0]));
      assert sizes[1..] == [] && AllLogged(next, generation, [], now) == next;
    } else {
      AllAreLogged(next, generation, sizes[1..], now);
    }
  }

  /**
   What an active link says, what is sent while there is a connection, and the acknowledgement of what was sent on it
   are logged; everything else leaves the log alone.
   */
  lemma EventIsLogged(s: State, e: Event)
    requires Inv(s) && Enabled(s, e) && (e.LinkSpeaks? || e.EventSent? || e.AckArrived?)
    ensures var t := Step(s, e);
            var own := match e
                       case LinkSpeaks(link, _, _) => s.links[link].generation == s.generation
                       case EventSent(_, _) => s.connection.Some?
                       case AckArrived(link, generation, _, _) => generation == s.generation && s.connection == Some(link)
                       case _ => false;
            var sizes := if e.LinkSpeaks? then e.sizes else [e.size];
            && t == s.(log := t.log)
            && (!own || sizes == [] ==> t.log == s.log)
            && (own && sizes != [] && sizes[|sizes| - 1] <= MAX_EVENT_BYTES ==>
                  t.log != [] && t.log[|t.log| - 1] == Entry(s.generation, e.now, sizes[|sizes| - 1]))
  {
    hide Logged, AllLogged, StartsInOrder, StopsInOrder, CleanLog, ConnectedHasLink;
    match e
    case LinkSpeaks(link, sizes, now) =>
      NothingLogged(s.log, s.generation, now);
      if sizes != [] && sizes[|sizes| - 1] <= MAX_EVENT_BYTES {
        AllAreLogged(s.log, s.generation, sizes, now);
      }
    case EventSent(size, now) => var k := LoggedIsKept(s.log, Entry(s.generation, now, size));
    case AckArrived(_, _, size, now) => var k := LoggedIsKept(s.log, Entry(s.generation, now, size));
  }

  lemma NothingLogged(log: seq<Entry>, generation: nat, now: nat)
    ensures AllLogged(log, generation, [], now) == log
  {
  }
}
