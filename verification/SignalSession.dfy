/**
 The start/stop protocol of the Worker's signal session (cloudflare/src/signalSession.ts).

 Starts run concurrently: each one is cut at its `await`s into atomic segments, and the segments of all
 starts, stops, lease renewals and socket callbacks interleave freely. `State` is the session object together
 with the sockets it ever created and the continuations that are pending; `Step` is one atomic segment.
 The class below is the session object itself: every method is one segment and is proved to take that step.
 */
module SignalSession {
  import opened Wrappers
  import opened BoundedLog

  const REMOTE_SESSION_IDLE_MS := 2 * 60_000

  datatype Status = Idle | Connecting | Connected | Closed | Failed

  /** The transport of one socket: opening, live after its handshake, or dead once lost or closed. */
  datatype Transport = Opening | Live | Dead

  datatype Socket = Socket(generation: nat, transport: Transport, handshaken: bool)

  /** Where a start is suspended. */
  datatype Suspended =
    | AwaitAuthorization
    | AwaitLease
    | AwaitConnect(socket: nat, generation: nat, serversLeft: nat)
    | Returned

  datatype Start = Start(sequence: nat, servers: nat, at: Suspended)

  datatype State = State(
    signalSocket: Option<nat>,
    status: Status,
    restored: bool,              // the status was read from storage, not written by this instance
    nextSequence: nat,
    authoritative: nat,
    generation: nat,
    clientExpiresAt: nat,
    log: seq<Entry>,
    sockets: seq<Socket>,        // every socket ever created, by identity
    starts: seq<Start>           // every start ever made, by identity
  )

  // ---------------------------------------------------------------- segments

  function Killed(sockets: seq<Socket>, socket: nat): seq<Socket> {
    if socket < |sockets| then sockets[socket := sockets[socket].(transport := Dead)] else sockets
  }

  function WithStatus(s: State, status: Status): State {
    s.(status := status, restored := false)
  }

  function WithStart(s: State, start: nat, at: Suspended): State {
    if start < |s.starts| then s.(starts := s.starts[start := s.starts[start].(at := at)]) else s
  }

  function SocketClosed(s: State): State {
    if s.signalSocket.None? then s
    else s.(signalSocket := None, sockets := Killed(s.sockets, s.signalSocket.value))
  }

  predicate IsCurrent(s: State, socket: nat, generation: nat) {
    generation == s.generation && s.signalSocket == Some(socket)
  }

  predicate SocketConnected(s: State) {
    s.signalSocket.Some? && s.signalSocket.value < |s.sockets| && s.sockets[s.signalSocket.value].transport == Live
  }

  /** The store drops what is stale, adds the event, and keeps the newest within its bounds. */
  function Logged(log: seq<Entry>, e: Entry): (r: seq<Entry>)
    ensures forall x <- r :: x in log || x == e
  {
    Within(EntrySize, FreshEntries(log, e.receivedAt) + [e])
  }

  function Stopped(s: State): State {
    var sequence := s.nextSequence + 1;
    WithStatus(
      SocketClosed(s).(nextSequence := sequence, authoritative := sequence, generation := s.generation + 1,
      log := [], clientExpiresAt := 0),
      Closed)
  }

  function LeaseRenewed(s: State, now: nat): State {
    var p := s.(log := FreshEntries(s.log, now));
    if p.clientExpiresAt == 0 then p
    else if p.clientExpiresAt <= now then Stopped(p)
    else p.(clientExpiresAt := now + REMOTE_SESSION_IDLE_MS)
  }

  function StartEntered(s: State, servers: nat): State {
    s.(nextSequence := s.nextSequence + 1,
    starts := s.starts + [Start(s.nextSequence + 1, servers, AwaitAuthorization)])
  }

  /** The authorization has been read; `accepted` says that it and the room configuration pass their checks. */
  function Authorized(s: State, start: nat, accepted: bool, now: nat): State
    requires start < |s.starts|
  {
    if !accepted || s.starts[start].sequence < s.authoritative then WithStart(s, start, Returned)
    else WithStart(LeaseRenewed(s, now), start, AwaitLease)
  }

  /** Creates the next socket and begins to connect it, or gives up when no server is left. */
  function NextServer(s: State, start: nat, servers: nat): State {
    if servers == 0 then WithStart(WithStatus(s, Failed), start, Returned)
    else
      var socket := |s.sockets|;
      WithStart(
        s.(sockets := s.sockets + [Socket(s.generation, Opening, false)], signalSocket := Some(socket)),
        start, AwaitConnect(socket, s.generation, servers - 1))
  }

  /** A start takes over: the old socket is closed and the new generation has neither socket nor log. */
  function TakenOver(s: State, sequence: nat): State {
    WithStatus(SocketClosed(s.(authoritative := sequence, generation := s.generation + 1)).(log := []), Connecting)
  }

  function LeaseSettled(s: State, start: nat): State
    requires start < |s.starts|
  {
    var sequence := s.starts[start].sequence;
    if sequence < s.authoritative then WithStart(s, start, Returned)
    else
      NextServer(TakenOver(s, sequence), start, s.starts[start].servers)
  }

  function ConnectResolved(s: State, start: nat): State
    requires start < |s.starts| && s.starts[start].at.AwaitConnect?
  {
    var at := s.starts[start].at;
    if IsCurrent(s, at.socket, at.generation) then WithStart(WithStatus(s, Connected), start, Returned)
    else WithStart(s.(sockets := Killed(s.sockets, at.socket)), start, Returned)
  }

  function ConnectRejected(s: State, start: nat): State
    requires start < |s.starts| && s.starts[start].at.AwaitConnect?
  {
    var at := s.starts[start].at;
    var dropped := s.(signalSocket := if s.signalSocket == Some(at.socket) then None else s.signalSocket,
                      sockets := Killed(s.sockets, at.socket));
    if at.generation != s.generation then WithStart(dropped, start, Returned)
    else NextServer(dropped, start, at.serversLeft)
  }

  /** The repair in `getStatus`, for a status that claims a connection this instance does not have. */
  function StatusRead(s: State): State {
    if s.status == Connected && !SocketConnected(s) then WithStatus(s, Closed) else s
  }

  function HandshakeDone(s: State, socket: nat): State
    requires socket < |s.sockets|
  {
    s.(sockets := s.sockets[socket := s.sockets[socket].(transport := Live, handshaken := true)])
  }

  /** A socket dies on its own; once it has handshaken the session is always told. */
  function SocketLost(s: State, socket: nat, notify: bool, failure: bool): State
    requires socket < |s.sockets|
  {
    var dead := s.(sockets := Killed(s.sockets, socket));
    if !notify || !IsCurrent(s, socket, s.sockets[socket].generation) then dead
    else
      var dropped := dead.(signalSocket := None);
      if s.status == Connected || s.status == Connecting
      then WithStatus(dropped, if failure then Failed else Closed)
      else dropped
  }

  /** An inbound event, an acknowledgement or an outbound event of a socket captured earlier with its generation. */
  function Recorded(s: State, socket: nat, generation: nat, size: nat, now: nat): State
    requires socket < |s.sockets|
  {
    if IsCurrent(s, socket, generation) then s.(log := Logged(s.log, Entry(s.sockets[socket].generation, now, size)))
    else s
  }

  /** The outbound control event, recorded on whatever socket is connected. */
  function ControlRecorded(s: State, size: nat, now: nat): State {
    if s.status == Connected && SocketConnected(s)
    then s.(log := Logged(s.log, Entry(s.sockets[s.signalSocket.value].generation, now, size)))
    else s
  }

  // ---------------------------------------------------------------- interleavings

  datatype Event =
    | StartCalled(servers: nat)
    | AuthorizationRead(start: nat, accepted: bool, now: nat)
    | LeaseAwaited(start: nat)
    | ConnectSucceeded(start: nat)
    | ConnectFailed(start: nat)
    | StopCalled
    | AlarmFired(now: nat)
    | RoomAuthorized(now: nat)
    | LeaseTouched(now: nat)
    | StatusAsked
    | SocketHandshake(socket: nat)
    | SocketDied(socket: nat, notify: bool, failure: bool)
    | SocketSpoke(socket: nat, generation: nat, size: nat, now: nat)
    | ControlSent(size: nat, now: nat)

  predicate Suspends(s: State, start: nat, at: Suspended) {
    start < |s.starts| && s.starts[start].at == at
  }

  predicate Enabled(s: State, e: Event) {
    match e
    case AuthorizationRead(start, _, _) => Suspends(s, start, AwaitAuthorization)
    case LeaseAwaited(start) => Suspends(s, start, AwaitLease)
    case ConnectSucceeded(start) =>
      start < |s.starts| && s.starts[start].at.AwaitConnect? && s.starts[start].at.socket < |s.sockets|
      && s.sockets[s.starts[start].at.socket].handshaken
    case ConnectFailed(start) => start < |s.starts| && s.starts[start].at.AwaitConnect?
    case SocketHandshake(socket) => socket < |s.sockets| && s.sockets[socket].transport == Opening
    case SocketDied(socket, notify, _) =>
      socket < |s.sockets| && s.sockets[socket].transport != Dead && (notify || !s.sockets[socket].handshaken)
    case SocketSpoke(socket, _, _, _) => socket < |s.sockets|
    case _ => true
  }

  function Step(s: State, e: Event): State
    requires Enabled(s, e)
  {
    match e
    case StartCalled(servers) => StartEntered(s, servers)
    case AuthorizationRead(start, accepted, now) => Authorized(s, start, accepted, now)
    case LeaseAwaited(start) => LeaseSettled(s, start)
    case ConnectSucceeded(start) => ConnectResolved(s, start)
    case ConnectFailed(start) => ConnectRejected(s, start)
    case StopCalled => Stopped(s)
    case AlarmFired(now) => if s.clientExpiresAt > now then s else Stopped(s)
    case RoomAuthorized(now) => LeaseRenewed(s.(clientExpiresAt := now + REMOTE_SESSION_IDLE_MS), now)
    case LeaseTouched(now) => LeaseRenewed(s, now)
    case StatusAsked => StatusRead(s)
    case SocketHandshake(socket) => HandshakeDone(s, socket)
    case SocketDied(socket, notify, failure) => SocketLost(s, socket, notify, failure)
    case SocketSpoke(socket, generation, size, now) => Recorded(s, socket, generation, size, now)
    case ControlSent(size, now) => ControlRecorded(s, size, now)
  }

  /** The states an interleaving passes through are those of its prefixes; disabled events do not happen. */
  ghost predicate IsRun(s: State, events: seq<Event>)
    decreases |events|, 0
  {
    events == [] ||
    (IsRun(s, events[..|events| - 1]) && Enabled(After(s, events[..|events| - 1]), events[|events| - 1]))
  }

  ghost function After(s: State, events: seq<Event>): State
    requires IsRun(s, events)
    decreases |events|, 1
  {
    if events == [] then s
    else Step(After(s, events[..|events| - 1]), events[|events| - 1])
  }

  // ---------------------------------------------------------------- the session object

  class RemoteSignalSession {
    var signalSocket: Option<nat>
    var status: Status
    var restored: bool
    var nextSignalRequestSequence: nat
    var authoritativeSignalRequestSequence: nat
    var activeSignalGeneration: nat
    var clientExpiresAt: nat
    var log: seq<Entry>
    var sockets: seq<Socket>
    var starts: seq<Start>

    ghost function View(): State
      reads this
    {
      State(signalSocket, status, restored, nextSignalRequestSequence, authoritativeSignalRequestSequence,
            activeSignalGeneration, clientExpiresAt, log, sockets, starts)
    }

    constructor (storedStatus: Option<Status>, storedExpiry: nat, storedLog: seq<(nat, nat)>)
      ensures View() == InitialState(storedStatus, storedExpiry, storedLog)
    {
      signalSocket, sockets, starts := None, [], [];
      status := if storedStatus.Some? then storedStatus.value else Idle;
      restored := storedStatus.Some?;
      nextSignalRequestSequence, authoritativeSignalRequestSequence, activeSignalGeneration := 0, 0, 0;
      clientExpiresAt := storedExpiry;
      log := StoredLog(storedLog);
    }

    method SetStatus(next: Status)
      modifies `status, `restored
      ensures status == next && !restored
    {
      status := next;
      restored := false;
    }

    method CloseTransport(socket: nat)
      modifies `sockets
      ensures sockets == Killed(old(sockets), socket)
    {
      if socket < |sockets| {
        sockets := sockets[socket := sockets[socket].(transport := Dead)];
      }
    }

    method CloseSocket()
      modifies `signalSocket, `sockets
      ensures View() == SocketClosed(old(View()))
    {
      var socket := signalSocket;
      signalSocket := None;
      if socket.Some? {
        CloseTransport(socket.value);
      }
    }

    method Suspend(start: nat, at: Suspended)
      modifies `starts
      ensures View() == WithStart(old(View()), start, at)
    {
      if start < |starts| {
        starts := starts[start := starts[start].(at := at)];
      }
    }

    method Stop()
      modifies this
      ensures View() == Stopped(old(View()))
    {
      nextSignalRequestSequence := nextSignalRequestSequence + 1;
      authoritativeSignalRequestSequence := nextSignalRequestSequence;
      activeSignalGeneration := activeSignalGeneration + 1;
      CloseSocket();
      log := [];
      clientExpiresAt := 0;
      SetStatus(Closed);
    }

    method PruneEvents(now: nat)
      modifies `log
      ensures log == FreshEntries(old(log), now)
    {
      var kept: seq<Entry> := [];
      for i := 0 to |log|
        invariant log == old(log)
        invariant kept + FreshEntries(log[i..], now) == FreshEntries(log, now)
      {
        assert log[i..][1..] == log[i + 1..];
        FreshEntriesFirst(log[i..], now);
        if log[i].receivedAt + RETENTION_MS >= now {
          kept := kept + [log[i]];
        }
      }
      log := kept;
    }

    method RenewClientLease(now: nat)
      modifies this
      ensures View() == LeaseRenewed(old(View()), now)
    {
      PruneEvents(now);
      if clientExpiresAt == 0 {
        return;
      }
      if clientExpiresAt <= now {
        Stop();
        return;
      }
      clientExpiresAt := now + REMOTE_SESSION_IDLE_MS;
    }

    method BeginStart(servers: nat)
      modifies this
      ensures View() == Step(old(View()), StartCalled(servers))
    {
      nextSignalRequestSequence := nextSignalRequestSequence + 1;
      starts := starts + [Start(nextSignalRequestSequence, servers, AwaitAuthorization)];
    }

    method AfterAuthorization(start: nat, accepted: bool, now: nat)
      requires Enabled(View(), AuthorizationRead(start, accepted, now))
      modifies this
      ensures View() == Step(old(View()), AuthorizationRead(start, accepted, now))
    {
      if !accepted || starts[start].sequence < authoritativeSignalRequestSequence {
        Suspend(start, Returned);
        return;
      }
      RenewClientLease(now);
      Suspend(start, AwaitLease);
    }

    method TryNextServer(start: nat, servers: nat)
      modifies this
      ensures View() == NextServer(old(View()), start, servers)
    {
      if servers == 0 {
        SetStatus(Failed);
        Suspend(start, Returned);
        return;
      }
      var socket := |sockets|;
      sockets := sockets + [Socket(activeSignalGeneration, Opening, false)];
      signalSocket := Some(socket);
      Suspend(start, AwaitConnect(socket, activeSignalGeneration, servers - 1));
    }

    /** The start with this sequence becomes authoritative. */
    method TakeOver(sequence: nat)
      modifies this
      ensures View() == TakenOver(old(View()), sequence)
    {
      authoritativeSignalRequestSequence := sequence;
      activeSignalGeneration := activeSignalGeneration + 1;
      CloseSocket();
      log := [];
      SetStatus(Connecting);
    }

    method AfterLease(start: nat)
      requires Enabled(View(), LeaseAwaited(start))
      modifies this
      ensures View() == Step(old(View()), LeaseAwaited(start))
    {
      var sequence, servers := starts[start].sequence, starts[start].servers;
      if sequence < authoritativeSignalRequestSequence {
        Suspend(start, Returned);
        return;
      }
      TakeOver(sequence);
      hide TakenOver, NextServer;
      TryNextServer(start, servers);
    }

    method AfterConnect(start: nat)
      requires Enabled(View(), ConnectSucceeded(start))
      modifies this
      ensures View() == Step(old(View()), ConnectSucceeded(start))
    {
      var at := starts[start].at;
      if at.generation == activeSignalGeneration && signalSocket == Some(at.socket) {
        SetStatus(Connected);
      } else {
        CloseTransport(at.socket);
      }
      Suspend(start, Returned);
    }

    method AfterConnectError(start: nat)
      requires Enabled(View(), ConnectFailed(start))
      modifies this
      ensures View() == Step(old(View()), ConnectFailed(start))
    {
      var at := starts[start].at;
      if signalSocket == Some(at.socket) {
        signalSocket := None;
      }
      CloseTransport(at.socket);
      if at.generation != activeSignalGeneration {
        Suspend(start, Returned);
        return;
      }
      TryNextServer(start, at.serversLeft);
    }

    method Alarm(now: nat)
      modifies this
      ensures View() == Step(old(View()), AlarmFired(now))
    {
      if clientExpiresAt > now {
        return;
      }
      Stop();
    }

    method AuthorizeRoom(now: nat)
      modifies this
      ensures View() == Step(old(View()), RoomAuthorized(now))
    {
      clientExpiresAt := now + REMOTE_SESSION_IDLE_MS;
      RenewClientLease(now);
    }

    method GetStatus() returns (r: Status)
      modifies this
      ensures View() == Step(old(View()), StatusAsked) && r == status
    {
      if status == Connected {
        var connected := false;
        if signalSocket.Some? && signalSocket.value < |sockets| {
          connected := sockets[signalSocket.value].transport == Live;
        }
        if !connected {
          SetStatus(Closed);
        }
      }
      return status;
    }

    method OnLost(socket: nat, notify: bool, failure: bool)
      requires Enabled(View(), SocketDied(socket, notify, failure))
      modifies this
      ensures View() == Step(old(View()), SocketDied(socket, notify, failure))
    {
      var generation := sockets[socket].generation;
      CloseTransport(socket);
      if !notify || generation != activeSignalGeneration || signalSocket != Some(socket) {
        return;
      }
      signalSocket := None;
      if status == Connected || status == Connecting {
        SetStatus(if failure then Failed else Closed);
      }
    }

    method RecordEvent(e: Entry)
      modifies `log
      ensures log == Logged(old(log), e)
    {
      PruneEvents(e.receivedAt);
      log := Within(EntrySize, log + [e]);
    }

    method RecordIfCurrent(socket: nat, generation: nat, size: nat, now: nat)
      requires Enabled(View(), SocketSpoke(socket, generation, size, now))
      modifies this
      ensures View() == Step(old(View()), SocketSpoke(socket, generation, size, now))
    {
      if generation == activeSignalGeneration && signalSocket == Some(socket) {
        RecordEvent(Entry(sockets[socket].generation, now, size));
      }
    }

    method RecordControl(size: nat, now: nat)
      modifies this
      ensures View() == Step(old(View()), ControlSent(size, now))
    {
      if status == Connected && signalSocket.Some? && signalSocket.value < |sockets| {
        var socket := sockets[signalSocket.value];
        if socket.transport == Live {
          RecordEvent(Entry(socket.generation, now, size));
        }
      }
    }
  }

  // ---------------------------------------------------------------- what every interleaving keeps

  /** Events left in storage by an earlier instance count as generation 0, which no start ever uses. */
  function StoredLog(rows: seq<(nat, nat)>): (r: seq<Entry>)
    ensures forall e <- r :: e.generation == 0
  {
    if rows == [] then [] else [Entry(0, rows[0].0, rows[0].1)] + StoredLog(rows[1..])
  }

  function InitialState(storedStatus: Option<Status>, storedExpiry: nat, storedLog: seq<(nat, nat)>): State {
    State(None, if storedStatus.Some? then storedStatus.value else Idle, storedStatus.Some?,
          0, 0, 0, storedExpiry, StoredLog(storedLog), [], [])
  }

  /** Every socket but `signalSocket` is closed, and `signalSocket` belongs to the active generation. */
  ghost predicate OneSocket(s: State) {
    && (s.signalSocket.Some? ==>
          s.signalSocket.value < |s.sockets| && s.sockets[s.signalSocket.value].generation == s.generation)
    && forall k | 0 <= k < |s.sockets| ::
         && s.sockets[k].generation <= s.generation
         && (s.sockets[k].transport != Dead ==> s.signalSocket == Some(k))
         && (s.sockets[k].transport == Live ==> s.sockets[k].handshaken)
         && (s.signalSocket == Some(k) && s.sockets[k].handshaken ==> s.sockets[k].transport == Live)
  }

  /** A connected status written by this instance is true. */
  ghost predicate HonestStatus(s: State) {
    s.status == Connected && !s.restored ==> SocketConnected(s)
  }

  ghost predicate CleanLog(s: State) {
    forall e <- s.log :: e.generation == s.generation
  }

  /** A connecting start of the active generation holds the authoritative sequence and the session's socket. */
  ghost predicate StartInOrder(s: State, start: Start) {
    && start.sequence <= s.nextSequence
    && (start.at.AwaitConnect? ==>
          && start.at.socket < |s.sockets|
          && s.sockets[start.at.socket].generation == start.at.generation <= s.generation
          && (start.at.generation == s.generation ==>
                && start.sequence == s.authoritative && s.status != Connected
                && (s.signalSocket.Some? ==> s.signalSocket.value == start.at.socket)))
  }

  ghost predicate StartsInOrder(s: State) {
    && s.authoritative <= s.nextSequence
    && (forall i | 0 <= i < |s.starts| :: StartInOrder(s, s.starts[i]))
    && (forall i, j | 0 <= i < j < |s.starts| ::
          && s.starts[i].sequence < s.starts[j].sequence
          && (s.starts[i].at.AwaitConnect? && s.starts[j].at.AwaitConnect? ==>
                s.starts[i].at.generation != s.starts[j].at.generation))
  }

  ghost predicate Inv(s: State) {
    OneSocket(s) && HonestStatus(s) && CleanLog(s) && StartsInOrder(s)
  }

  lemma InitialInv(storedStatus: Option<Status>, storedExpiry: nat, storedLog: seq<(nat, nat)>)
    ensures Inv(InitialState(storedStatus, storedExpiry, storedLog))
  {
  }

  lemma StoppedInv(s: State)
    requires Inv(s)
    ensures Inv(Stopped(s))
  {
  }

  lemma LeaseRenewedInv(s: State, now: nat)
    requires Inv(s)
    ensures Inv(LeaseRenewed(s, now))
    ensures LeaseRenewed(s, now).starts == s.starts
  {
    var p := s.(log := FreshEntries(s.log, now));
    assert Inv(p);
    StoppedInv(p);
  }

  lemma ReturnedInv(s: State, start: nat, at: Suspended)
    requires Inv(s) && !at.AwaitConnect?
    ensures Inv(WithStart(s, start, at))
  {
  }

  lemma NextServerInv(s: State, start: nat, servers: nat)
    requires Inv(s) && start < |s.starts| && s.signalSocket.None? && s.starts[start].sequence == s.authoritative
    requires s.status != Connected
    requires forall i | 0 <= i < |s.starts| && i != start && s.starts[i].at.AwaitConnect? ::
               s.starts[i].at.generation < s.generation
    ensures Inv(NextServer(s, start, servers))
  {
    if servers == 0 {
      ReturnedInv(WithStatus(s, Failed), start, Returned);
    }
  }

  lemma TakenOverInv(s: State, sequence: nat)
    requires Inv(s) && s.authoritative <= sequence <= s.nextSequence
    ensures Inv(TakenOver(s, sequence)) && TakenOver(s, sequence).starts == s.starts
  {
    var t := TakenOver(s, sequence);
    assert OneSocket(t);
    forall i | 0 <= i < |t.starts|
      ensures StartInOrder(t, t.starts[i])
    {
      assert StartInOrder(s, s.starts[i]);
    }
  }

  lemma LeaseSettledInv(s: State, start: nat)
    requires Inv(s) && Suspends(s, start, AwaitLease)
    ensures Inv(LeaseSettled(s, start))
  {
    var sequence := s.starts[start].sequence;
    if sequence < s.authoritative {
      ReturnedInv(s, start, Returned);
    } else {
      assert StartInOrder(s, s.starts[start]);
      var begun := TakenOver(s, sequence);
      TakenOverInv(s, sequence);
      assert forall i | 0 <= i < |s.starts| :: StartInOrder(s, s.starts[i]);
      assert LeaseSettled(s, start) == NextServer(begun, start, s.starts[start].servers);
      hide TakenOver, LeaseSettled, NextServer;
      NextServerInv(begun, start, s.starts[start].servers);
    }
  }

  lemma ConnectResolvedInv(s: State, start: nat)
    requires Inv(s) && Enabled(s, ConnectSucceeded(start))
    ensures Inv(ConnectResolved(s, start))
  {
    var at := s.starts[start].at;
    if IsCurrent(s, at.socket, at.generation) {
      var r := WithStart(s, start, Returned);
      ReturnedInv(s, start, Returned);
      assert StartInOrder(s, s.starts[start]);
      var t := WithStatus(r, Connected);
      assert t == ConnectResolved(s, start);
      forall i | 0 <= i < |t.starts|
        ensures StartInOrder(t, t.starts[i])
      {
        assert StartInOrder(r, r.starts[i]);
      }
    } else {
      var dropped := s.(sockets := Killed(s.sockets, at.socket));
      assert Inv(dropped);
      ReturnedInv(dropped, start, Returned);
    }
  }

  lemma ConnectRejectedInv(s: State, start: nat)
    requires Inv(s) && Enabled(s, ConnectFailed(start))
    ensures Inv(ConnectRejected(s, start))
  {
    var at := s.starts[start].at;
    var dropped := s.(signalSocket := if s.signalSocket == Some(at.socket) then None else s.signalSocket,
                      sockets := Killed(s.sockets, at.socket));
    assert Inv(dropped);
    if at.generation != s.generation {
      ReturnedInv(dropped, start, Returned);
    } else {
      NextServerInv(dropped, start, at.serversLeft);
    }
  }

  lemma StartEnteredInv(s: State, servers: nat)
    requires Inv(s)
    ensures Inv(StartEntered(s, servers))
  {
    forall i | 0 <= i < |s.starts|
      ensures StartInOrder(StartEntered(s, servers), s.starts[i])
    {
      assert StartInOrder(s, s.starts[i]);
    }
  }

  lemma HandshakeDoneInv(s: State, socket: nat)
    requires Inv(s) && Enabled(s, SocketHandshake(socket))
    ensures Inv(HandshakeDone(s, socket))
  {
  }

  lemma SocketLostInv(s: State, socket: nat, notify: bool, failure: bool)
    requires Inv(s) && Enabled(s, SocketDied(socket, notify, failure))
    ensures Inv(SocketLost(s, socket, notify, failure))
  {
    var t := SocketLost(s, socket, notify, failure);
    forall i | 0 <= i < |t.starts|
      ensures StartInOrder(t, t.starts[i])
    {
      assert StartInOrder(s, s.starts[i]);
    }
  }

  /**
   Reading the status repairs a connected status without a connected socket, and only one restored from storage: one
   written by this instance is true.
   */
  lemma RepairOnlyAfterRestore(s: State)
    requires Inv(s)
    ensures Inv(StatusRead(s))
    ensures StatusRead(s).status == Connected <==> s.status == Connected && SocketConnected(s)
    ensures StatusRead(s) != s ==> s.restored && s.status == Connected && StatusRead(s) == WithStatus(s, Closed)
  {
  }

  lemma RecordedInv(s: State, socket: nat, generation: nat, size: nat, now: nat)
    requires Inv(s) && socket < |s.sockets|
    ensures Inv(Recorded(s, socket, generation, size, now))
  {
  }

  lemma ControlRecordedInv(s: State, size: nat, now: nat)
    requires Inv(s)
    ensures Inv(ControlRecorded(s, size, now))
  {
  }

  lemma LeaseTimeInv(s: State, expiry: nat)
    requires Inv(s)
    ensures Inv(s.(clientExpiresAt := expiry))
  {
  }

  lemma StepKeepsInv(s: State, e: Event)
    requires Inv(s) && Enabled(s, e)
    ensures Inv(Step(s, e))
  {
    hide Inv, StartEntered, LeaseRenewed, LeaseSettled, ConnectResolved, ConnectRejected, Stopped, StatusRead;
    hide HandshakeDone, SocketLost, Recorded, ControlRecorded, WithStart;
    match e
    case StartCalled(servers) => StartEnteredInv(s, servers);
    case AuthorizationRead(start, accepted, now) =>
      LeaseRenewedInv(s, now);
      ReturnedInv(s, start, Returned);
      ReturnedInv(LeaseRenewed(s, now), start, AwaitLease);
    case LeaseAwaited(start) => LeaseSettledInv(s, start);
    case ConnectSucceeded(start) => ConnectResolvedInv(s, start);
    case ConnectFailed(start) => ConnectRejectedInv(s, start);
    case StopCalled => StoppedInv(s);
    case AlarmFired(_) => StoppedInv(s);
    case RoomAuthorized(now) =>
      var t := s.(clientExpiresAt := now + REMOTE_SESSION_IDLE_MS);
      LeaseTimeInv(s, t.clientExpiresAt);
      LeaseRenewedInv(t, now);
    case LeaseTouched(now) => LeaseRenewedInv(s, now);
    case StatusAsked => RepairOnlyAfterRestore(s);
    case SocketHandshake(socket) => HandshakeDoneInv(s, socket);
    case SocketDied(socket, notify, failure) => SocketLostInv(s, socket, notify, failure);
    case SocketSpoke(socket, generation, size, now) => RecordedInv(s, socket, generation, size, now);
    case ControlSent(size, now) => ControlRecordedInv(s, size, now);
  }

  /** In every interleaving, from whatever an earlier instance left in storage, the invariant holds throughout. */
  lemma {:induction false} RunKeepsInv(s: State, events: seq<Event>)
    requires Inv(s) && IsRun(s, events)
    ensures Inv(After(s, events))
    decreases |events|
  {
    if events != [] {
      var before := events[..|events| - 1];
      RunKeepsInv(s, before);
      StepKeepsInv(After(s, before), events[|events| - 1]);
    }
  }

  /** The headline of the invariant, spelled out over whole runs of a fresh instance. */
  lemma NoStraySocketAndNoFalseConnected(
    storedStatus: Option<Status>, storedExpiry: nat, storedLog: seq<(nat, nat)>, events: seq<Event>)
    requires IsRun(InitialState(storedStatus, storedExpiry, storedLog), events)
    ensures var s := After(InitialState(storedStatus, storedExpiry, storedLog), events);
            && (forall k | 0 <= k < |s.sockets| && s.signalSocket != Some(k) :: s.sockets[k].transport == Dead)
            && (s.status == Connected && !s.restored ==>
                  && s.signalSocket.Some? && s.signalSocket.value < |s.sockets|
                  && s.sockets[s.signalSocket.value].transport == Live
                  && s.sockets[s.signalSocket.value].generation == s.generation)
            && (forall e <- s.log :: e.generation == s.generation)
  {
    InitialInv(storedStatus, storedExpiry, storedLog);
    RunKeepsInv(InitialState(storedStatus, storedExpiry, storedLog), events);
  }

  // ---------------------------------------------------------------- last request wins

  /** The start whose continuation an event is, if it is one. */
  function StartOf(e: Event): Option<nat> {
    match e
    case AuthorizationRead(start, _, _) => Some(start)
    case LeaseAwaited(start) => Some(start)
    case ConnectSucceeded(start) => Some(start)
    case ConnectFailed(start) => Some(start)
    case _ => None
  }

  /** Everything a client can see or be affected by. */
  function Observable(s: State): (Option<nat>, Status, seq<Entry>, nat, nat, nat) {
    (s.signalSocket, s.status, s.log, s.authoritative, s.generation, s.clientExpiresAt)
  }

  /** No sequence or generation goes back, and no start changes its sequence. */
  ghost predicate Later(s: State, t: State) {
    && t.authoritative >= s.authoritative && t.generation >= s.generation && |t.starts| >= |s.starts|
    && forall i | 0 <= i < |s.starts| :: t.starts[i].sequence == s.starts[i].sequence
  }

  lemma StopGoesForward(s: State)
    requires s.authoritative <= s.nextSequence
    ensures Later(s, Stopped(s))
  {
  }

  lemma SegmentsGoForward(s: State, start: nat, servers: nat, now: nat, at: Suspended)
    requires s.authoritative <= s.nextSequence
    ensures Later(s, Stopped(s)) && Later(s, LeaseRenewed(s, now))
    ensures Later(s, WithStart(s, start, at)) && Later(s, NextServer(s, start, servers))
  {
    hide Stopped, FreshEntries;
    StopGoesForward(s);
    StopGoesForward(s.(log := FreshEntries(s.log, now)));
  }

  lemma LaterTransitive(s: State, t: State, u: State)
    requires Later(s, t) && Later(t, u)
    ensures Later(s, u)
  {
  }

  lemma TakenOverLater(s: State, start: nat)
    requires start < |s.starts| && s.authoritative <= s.starts[start].sequence <= s.nextSequence
    ensures Later(s, LeaseSettled(s, start))
  {
    var taken := TakenOver(s, s.starts[start].sequence);
    hide NextServer;
    SegmentsGoForward(taken, start, s.starts[start].servers, 0, Returned);
    LaterTransitive(s, taken, NextServer(taken, start, s.starts[start].servers));
  }

  lemma RejectedGoesForward(s: State, start: nat)
    requires s.authoritative <= s.nextSequence && start < |s.starts| && s.starts[start].at.AwaitConnect?
    ensures Later(s, ConnectRejected(s, start))
  {
    hide NextServer, Killed;
    var at := s.starts[start].at;
    var dropped := s.(signalSocket := if s.signalSocket == Some(at.socket) then None else s.signalSocket,
                      sockets := Killed(s.sockets, at.socket));
    SegmentsGoForward(dropped, start, at.serversLeft, 0, Returned);
  }

  lemma SequencesNeverDecrease(s: State, e: Event)
    requires Inv(s) && Enabled(s, e)
    ensures Later(s, Step(s, e))
  {
    hide Stopped, LeaseRenewed, NextServer, LeaseSettled, OneSocket, HonestStatus, CleanLog, Logged, FreshEntries, Killed;
    hide ConnectRejected;
    match e
    case AuthorizationRead(start, _, now) =>
      SegmentsGoForward(s, start, 0, now, Returned);
      WithStartLater(LeaseRenewed(s, now), start, AwaitLease);
      LaterTransitive(s, LeaseRenewed(s, now), WithStart(LeaseRenewed(s, now), start, AwaitLease));
    case LeaseAwaited(start) =>
      assert StartInOrder(s, s.starts[start]);
      if s.starts[start].sequence < s.authoritative {
        OvertakenReturns(s, start);
        WithStartLater(s, start, Returned);
      } else {
        TakenOverLater(s, start);
      }
    case ConnectFailed(start) => RejectedGoesForward(s, start);
    case StopCalled => SegmentsGoForward(s, 0, 0, 0, Returned);
    case AlarmFired(now) => SegmentsGoForward(s, 0, 0, now, Returned);
    case RoomAuthorized(now) =>
      SegmentsGoForward(s.(clientExpiresAt := now + REMOTE_SESSION_IDLE_MS), 0, 0, now, Returned);
    case LeaseTouched(now) => SegmentsGoForward(s, 0, 0, now, Returned);
    case _ =>
  }

  lemma OvertakenReturns(s: State, start: nat)
    requires start < |s.starts| && s.starts[start].sequence < s.authoritative
    ensures LeaseSettled(s, start) == WithStart(s, start, Returned)
  {
  }

  lemma WithStartLater(s: State, start: nat, at: Suspended)
    ensures Later(s, WithStart(s, start, at))
  {
  }

  lemma {:induction false} SequencesNeverDecreaseOverRuns(s: State, events: seq<Event>)
    requires Inv(s) && IsRun(s, events)
    ensures Later(s, After(s, events))
    decreases |events|
  {
    if events != [] {
      var before := events[..|events| - 1];
      SequencesNeverDecreaseOverRuns(s, before);
      RunKeepsInv(s, before);
      SequencesNeverDecrease(After(s, before), events[|events| - 1]);
      LaterTransitive(s, After(s, before), After(s, events));
    }
  }

  lemma OvertakenStartIsInert(s: State, e: Event)
    requires Inv(s) && Enabled(s, e)
    requires StartOf(e).Some? && s.starts[StartOf(e).value].sequence < s.authoritative
    ensures Observable(Step(s, e)) == Observable(s)
  {
    assert StartInOrder(s, s.starts[StartOf(e).value]);
  }

  /**
   Once any request with sequence q is authoritative, no continuation of a start with a smaller sequence changes
   anything a client can see, however long the run in between.
   */
  lemma LastRequestWins(s: State, between: seq<Event>, e: Event, q: nat)
    requires Inv(s) && IsRun(s, between) && Enabled(After(s, between), e)
    requires q <= s.authoritative
    requires StartOf(e).Some? && After(s, between).starts[StartOf(e).value].sequence < q
    ensures Observable(Step(After(s, between), e)) == Observable(After(s, between))
  {
    RunKeepsInv(s, between);
    SequencesNeverDecreaseOverRuns(s, between);
    OvertakenStartIsInert(After(s, between), e);
  }

  /** Stopped for good: nothing connects, nothing is logged, and every start made so far has been overtaken. */
  ghost predicate AtRest(s: State) {
    && s.status == Closed && !s.restored && s.signalSocket.None? && s.log == []
    && forall i | 0 <= i < |s.starts| :: s.starts[i].sequence < s.authoritative
  }

  lemma AtRestStays(s: State, e: Event)
    requires Inv(s) && AtRest(s) && Enabled(s, e) && !e.StartCalled?
    ensures AtRest(Step(s, e))
  {
    if StartOf(e).Some? {
      OvertakenStartIsInert(s, e);
    }
    SequencesNeverDecrease(s, e);
  }

  /** A start that finds its lease expired stops the session under a newer sequence, and so overtakes itself. */
  lemma ExpiredLeaseOvertakesItsOwnStart(s: State, start: nat, now: nat)
    requires Inv(s) && Enabled(s, AuthorizationRead(start, true, now))
    requires s.authoritative <= s.starts[start].sequence && 0 < s.clientExpiresAt <= now
    ensures var t := Step(s, AuthorizationRead(start, true, now));
            && AtRest(t) && t.starts[start].at == AwaitLease
            && Observable(Step(t, LeaseAwaited(start))) == Observable(t)
  {
    assert forall i | 0 <= i < |s.starts| :: StartInOrder(s, s.starts[i]);
  }

  /** A stop sticks: until a new start is called, the session stays closed whatever was in flight. */
  lemma {:induction false} StopSticks(s: State, events: seq<Event>)
    requires Inv(s) && IsRun(Stopped(s), events)
    requires forall e <- events :: !e.StartCalled?
    ensures AtRest(After(Stopped(s), events))
    decreases |events|
  {
    StoppedInv(s);
    if events == [] {
      assert forall i | 0 <= i < |s.starts| :: StartInOrder(s, s.starts[i]);
    } else {
      var before := events[..|events| - 1];
      StopSticks(s, before);
      RunKeepsInv(Stopped(s), before);
      AtRestStays(After(Stopped(s), before), events[|events| - 1]);
    }
  }

  // ---------------------------------------------------------------- what becomes of a start

  /** Some start of the active generation waits for this socket to connect. */
  ghost predicate Awaited(s: State, socket: nat) {
    exists i | 0 <= i < |s.starts| ::
      s.starts[i].at.AwaitConnect? && s.starts[i].at.socket == socket && s.starts[i].at.generation == s.generation
  }

  /**
   A session with a socket is connected or still waits for it, and one that is connecting has a socket; from the first
   generation on the status is this instance's own.
   */
  ghost predicate NeverStuck(s: State) {
    && (s.signalSocket.Some? ==> s.generation > 0 && (s.status == Connected || Awaited(s, s.signalSocket.value)))
    && (s.status == Connecting && !s.restored ==> s.signalSocket.Some?)
    && (s.generation > 0 ==> !s.restored)
    && (forall i | 0 <= i < |s.starts| && s.starts[i].at.AwaitConnect? :: s.starts[i].at.generation > 0)
  }

  /** A socket stays awaited while the starts that wait in the active generation do not move. */
  lemma StaysAwaited(s: State, t: State, socket: nat, changed: nat)
    requires Awaited(s, socket) && t.generation == s.generation && |t.starts| >= |s.starts|
    requires forall i | 0 <= i < |s.starts| && i != changed :: t.starts[i].at == s.starts[i].at
    requires changed < |s.starts| ==>
               !(s.starts[changed].at.AwaitConnect? && s.starts[changed].at.generation == s.generation)
    ensures Awaited(t, socket)
  {
    var i :| 0 <= i < |s.starts| && s.starts[i].at.AwaitConnect? && s.starts[i].at.socket == socket
             && s.starts[i].at.generation == s.generation;
    assert t.starts[i].at == s.starts[i].at;
  }

  lemma NextServerNeverStuck(s: State, start: nat, servers: nat)
    requires start < |s.starts| && s.signalSocket.None? && !s.restored && s.generation > 0
    requires forall i | 0 <= i < |s.starts| && s.starts[i].at.AwaitConnect? :: s.starts[i].at.generation > 0
    ensures NeverStuck(NextServer(s, start, servers))
  {
    var t := NextServer(s, start, servers);
    assert servers > 0 ==> t.starts[start].at == AwaitConnect(|s.sockets|, s.generation, servers - 1);
  }

  /** Nothing gets stuck where one start that does not wait in the active generation moves, and no status changes. */
  lemma OneStartMoves(s: State, t: State, start: nat)
    requires NeverStuck(s) && t.generation == s.generation && t.signalSocket == s.signalSocket
    requires t.status == s.status && t.restored == s.restored && |t.starts| >= |s.starts|
    requires forall i | 0 <= i < |t.starts| && t.starts[i].at.AwaitConnect? :: i < |s.starts|
    requires forall i | 0 <= i < |s.starts| && i != start :: t.starts[i].at == s.starts[i].at
    requires start < |s.starts| ==>
               && !(s.starts[start].at.AwaitConnect? && s.starts[start].at.generation == s.generation)
               && !t.starts[start].at.AwaitConnect?
    ensures NeverStuck(t)
  {
    if s.signalSocket.Some? && s.status != Connected {
      StaysAwaited(s, t, s.signalSocket.value, start);
    }
  }

  lemma LeaseRenewedNeverStuck(s: State, now: nat)
    requires NeverStuck(s)
    ensures NeverStuck(LeaseRenewed(s, now)) && LeaseRenewed(s, now).starts == s.starts
  {
    if !(0 < s.clientExpiresAt <= now) {
      OneStartMoves(s, LeaseRenewed(s, now), |s.starts|);
    }
  }

  lemma ResolvedNeverStuck(s: State, start: nat)
    requires Inv(s) && NeverStuck(s) && Enabled(s, ConnectSucceeded(start))
    ensures NeverStuck(ConnectResolved(s, start))
  {
    var at := s.starts[start].at;
    assert StartInOrder(s, s.starts[start]);
    if !IsCurrent(s, at.socket, at.generation) && at.generation != s.generation {
      OneStartMoves(s, ConnectResolved(s, start), start);
    }
  }

  lemma RejectedNeverStuck(s: State, start: nat)
    requires Inv(s) && NeverStuck(s) && Enabled(s, ConnectFailed(start))
    ensures NeverStuck(ConnectRejected(s, start))
  {
    var at := s.starts[start].at;
    assert StartInOrder(s, s.starts[start]);
    var dropped := s.(signalSocket := if s.signalSocket == Some(at.socket) then None else s.signalSocket,
                      sockets := Killed(s.sockets, at.socket));
    if at.generation == s.generation {
      NextServerNeverStuck(dropped, start, at.serversLeft);
    } else {
      OneStartMoves(s, ConnectRejected(s, start), start);
    }
  }

  lemma LeaseSettledNeverStuck(s: State, start: nat)
    requires Inv(s) && NeverStuck(s) && Suspends(s, start, AwaitLease)
    ensures NeverStuck(LeaseSettled(s, start))
  {
    var sequence := s.starts[start].sequence;
    if sequence < s.authoritative {
      OneStartMoves(s, LeaseSettled(s, start), start);
    } else {
      NextServerNeverStuck(TakenOver(s, sequence), start, s.starts[start].servers);
    }
  }

  lemma StepNeverSticks(s: State, e: Event)
    requires Inv(s) && NeverStuck(s) && Enabled(s, e)
    ensures NeverStuck(Step(s, e))
  {
    hide Inv, NeverStuck, Awaited, LeaseRenewed, LeaseSettled, ConnectResolved, ConnectRejected, Stopped, Logged;
    match e
    case LeaseAwaited(start) => LeaseSettledNeverStuck(s, start);
    case ConnectSucceeded(start) => ResolvedNeverStuck(s, start);
    case ConnectFailed(start) => RejectedNeverStuck(s, start);
    case StopCalled => StoppedNeverStuck(s);
    case AlarmFired(_) => StoppedNeverStuck(s);
    case AuthorizationRead(start, _, now) =>
      LeaseRenewedNeverStuck(s, now);
      OneStartMoves(s, WithStart(s, start, Returned), start);
      OneStartMoves(LeaseRenewed(s, now), WithStart(LeaseRenewed(s, now), start, AwaitLease), start);
    case RoomAuthorized(now) =>
      var touched := s.(clientExpiresAt := now + REMOTE_SESSION_IDLE_MS);
      OneStartMoves(s, touched, |s.starts|);
      LeaseRenewedNeverStuck(touched, now);
    case LeaseTouched(now) => LeaseRenewedNeverStuck(s, now);
    case StatusAsked => ReadNeverStuck(s);
    case SocketDied(socket, notify, failure) => LostNeverStuck(s, socket, notify, failure);
    case _ => OneStartMoves(s, Step(s, e), |s.starts|);
  }

  lemma StoppedNeverStuck(s: State)
    requires NeverStuck(s)
    ensures NeverStuck(Stopped(s))
  {
  }

  lemma ReadNeverStuck(s: State)
    requires Inv(s) && NeverStuck(s)
    ensures NeverStuck(StatusRead(s))
  {
  }

  lemma LostNeverStuck(s: State, socket: nat, notify: bool, failure: bool)
    requires Inv(s) && NeverStuck(s) && Enabled(s, SocketDied(socket, notify, failure))
    ensures NeverStuck(SocketLost(s, socket, notify, failure))
  {
    var t := SocketLost(s, socket, notify, failure);
    if t.signalSocket == s.signalSocket {
      OneStartMoves(s, t, |s.starts|);
    }
  }

  /** How many sockets a generation has made. */
  function SocketsOf(sockets: seq<Socket>, generation: nat): nat {
    if sockets == [] then 0
    else
      (if sockets[|sockets| - 1].generation == generation then 1 else 0)
      + SocketsOf(sockets[..|sockets| - 1], generation)
  }

  /** A start that connects has made a socket for each server but those it has left. */
  ghost predicate ServersInTurn(s: State) {
    && (forall k | 0 <= k < |s.sockets| :: s.sockets[k].generation <= s.generation)
    && forall i | 0 <= i < |s.starts| && s.starts[i].at.AwaitConnect? ::
         SocketsOf(s.sockets, s.starts[i].at.generation) + s.starts[i].at.serversLeft == s.starts[i].servers
  }

  lemma {:induction false} SameGenerations(a: seq<Socket>, b: seq<Socket>, generation: nat)
    requires |a| == |b| && forall k | 0 <= k < |a| :: a[k].generation == b[k].generation
    ensures SocketsOf(a, generation) == SocketsOf(b, generation)
    decreases |a|
  {
    if a != [] {
      SameGenerations(a[..|a| - 1], b[..|b| - 1], generation);
    }
  }

  lemma {:induction false} NoneYet(sockets: seq<Socket>, generation: nat)
    requires forall k | 0 <= k < |sockets| :: sockets[k].generation < generation
    ensures SocketsOf(sockets, generation) == 0
    decreases |sockets|
  {
    if sockets != [] {
      NoneYet(sockets[..|sockets| - 1], generation);
    }
  }

  lemma OneMore(sockets: seq<Socket>, socket: Socket, generation: nat)
    ensures SocketsOf(sockets + [socket], generation) ==
            SocketsOf(sockets, generation) + if socket.generation == generation then 1 else 0
  {
    assert (sockets + [socket])[..|sockets|] == sockets;
  }

  /** The turns of all starts stay as they are while sockets only change their transport. */
  lemma TurnsStay(s: State, t: State)
    requires ServersInTurn(s) && t.generation >= s.generation && |t.sockets| == |s.sockets|
    requires forall k | 0 <= k < |s.sockets| :: t.sockets[k].generation == s.sockets[k].generation
    requires forall i | 0 <= i < |t.starts| && t.starts[i].at.AwaitConnect? ::
               i < |s.starts| && t.starts[i] == s.starts[i]
    ensures ServersInTurn(t)
  {
    forall i | 0 <= i < |t.starts| && t.starts[i].at.AwaitConnect?
      ensures SocketsOf(t.sockets, t.starts[i].at.generation) + t.starts[i].at.serversLeft == t.starts[i].servers
    {
      SameGenerations(s.sockets, t.sockets, t.starts[i].at.generation);
    }
  }

  lemma NextServerInTurn(s: State, start: nat, servers: nat)
    requires ServersInTurn(s) && start < |s.starts|
    requires SocketsOf(s.sockets, s.generation) + servers == s.starts[start].servers
    requires forall i | 0 <= i < |s.starts| && i != start && s.starts[i].at.AwaitConnect? ::
               s.starts[i].at.generation != s.generation
    ensures ServersInTurn(NextServer(s, start, servers))
  {
    var t := NextServer(s, start, servers);
    if servers > 0 {
      var socket := Socket(s.generation, Opening, false);
      forall i | 0 <= i < |t.starts| && t.starts[i].at.AwaitConnect?
        ensures SocketsOf(t.sockets, t.starts[i].at.generation) + t.starts[i].at.serversLeft == t.starts[i].servers
      {
        OneMore(s.sockets, socket, t.starts[i].at.generation);
      }
    } else {
      TurnsStay(s, t);
    }
  }

  lemma TakenOverInTurn(s: State, start: nat)
    requires Inv(s) && ServersInTurn(s) && Suspends(s, start, AwaitLease)
    requires s.authoritative <= s.starts[start].sequence
    ensures ServersInTurn(LeaseSettled(s, start))
  {
    var begun := TakenOver(s, s.starts[start].sequence);
    TurnsStay(s, begun);
    NoneYet(begun.sockets, begun.generation);
    forall i | 0 <= i < |s.starts| && s.starts[i].at.AwaitConnect?
      ensures s.starts[i].at.generation < begun.generation
    {
      assert StartInOrder(s, s.starts[i]);
    }
    NextServerInTurn(begun, start, s.starts[start].servers);
  }

  lemma RejectedInTurn(s: State, start: nat)
    requires Inv(s) && ServersInTurn(s) && Enabled(s, ConnectFailed(start))
    ensures ServersInTurn(ConnectRejected(s, start))
  {
    var at := s.starts[start].at;
    var dropped := s.(signalSocket := if s.signalSocket == Some(at.socket) then None else s.signalSocket,
                      sockets := Killed(s.sockets, at.socket));
    TurnsStay(s, dropped);
    if at.generation == s.generation {
      NextServerInTurn(dropped, start, at.serversLeft);
    } else {
      TurnsStay(dropped, ConnectRejected(s, start));
    }
  }

  lemma StepKeepsTurns(s: State, e: Event)
    requires Inv(s) && ServersInTurn(s) && Enabled(s, e)
    ensures ServersInTurn(Step(s, e))
  {
    hide ServersInTurn, Inv, Logged, FreshEntries, LeaseSettled, ConnectRejected, ConnectResolved, LeaseRenewed, Stopped;
    hide SocketLost, HandshakeDone, StartEntered;
    match e
    case LeaseAwaited(start) => SettledInTurn(s, start);
    case ConnectSucceeded(start) => ResolvedInTurn(s, start);
    case ConnectFailed(start) => RejectedInTurn(s, start);
    case AuthorizationRead(start, _, now) =>
      RenewedInTurn(s, now);
      TurnsStay(s, WithStart(s, start, Returned));
      TurnsStay(LeaseRenewed(s, now), WithStart(LeaseRenewed(s, now), start, AwaitLease));
    case RoomAuthorized(now) =>
      TurnsStay(s, s.(clientExpiresAt := now + REMOTE_SESSION_IDLE_MS));
      RenewedInTurn(s.(clientExpiresAt := now + REMOTE_SESSION_IDLE_MS), now);
    case LeaseTouched(now) => RenewedInTurn(s, now);
    case StartCalled(servers) => EnteredInTurn(s, servers);
    case SocketDied(socket, notify, failure) => SocketsInTurn(s, socket, notify, failure);
    case SocketHandshake(socket) => SocketsInTurn(s, socket, true, true);
    case StopCalled => StoppedInTurn(s);
    case AlarmFired(_) => StoppedInTurn(s);
    case _ => TurnsStay(s, Step(s, e));
  }

  lemma SettledInTurn(s: State, start: nat)
    requires Inv(s) && ServersInTurn(s) && Suspends(s, start, AwaitLease)
    ensures ServersInTurn(LeaseSettled(s, start))
  {
    hide Inv, LeaseSettled;
    if s.starts[start].sequence < s.authoritative {
      OvertakenReturns(s, start);
      TurnsStay(s, WithStart(s, start, Returned));
    } else {
      TakenOverInTurn(s, start);
    }
  }

  lemma ResolvedInTurn(s: State, start: nat)
    requires ServersInTurn(s) && start < |s.starts| && s.starts[start].at.AwaitConnect?
    ensures ServersInTurn(ConnectResolved(s, start))
  {
    hide ServersInTurn;
    TurnsStay(s, ConnectResolved(s, start));
  }

  lemma EnteredInTurn(s: State, servers: nat)
    requires ServersInTurn(s)
    ensures ServersInTurn(StartEntered(s, servers))
  {
    hide ServersInTurn;
    TurnsStay(s, StartEntered(s, servers));
  }

  lemma SocketsInTurn(s: State, socket: nat, notify: bool, failure: bool)
    requires ServersInTurn(s) && socket < |s.sockets|
    ensures ServersInTurn(SocketLost(s, socket, notify, failure)) && ServersInTurn(HandshakeDone(s, socket))
  {
    hide ServersInTurn;
    TurnsStay(s, SocketLost(s, socket, notify, failure));
    TurnsStay(s, HandshakeDone(s, socket));
  }

  lemma StoppedInTurn(s: State)
    requires ServersInTurn(s)
    ensures ServersInTurn(Stopped(s))
  {
    hide ServersInTurn;
    TurnsStay(s, Stopped(s));
  }

  lemma RenewedInTurn(s: State, now: nat)
    requires ServersInTurn(s)
    ensures ServersInTurn(LeaseRenewed(s, now))
  {
    hide ServersInTurn, FreshEntries;
    TurnsStay(s, LeaseRenewed(s, now));
  }

  /** Over every interleaving: no session is stuck, and every start tries its servers one at a time. */
  lemma {:induction false} RunMakesProgress(
    storedStatus: Option<Status>, storedExpiry: nat, storedLog: seq<(nat, nat)>, events: seq<Event>)
    requires IsRun(InitialState(storedStatus, storedExpiry, storedLog), events)
    ensures var s := After(InitialState(storedStatus, storedExpiry, storedLog), events);
            Inv(s) && NeverStuck(s) && ServersInTurn(s)
    decreases |events|
  {
    hide Inv, NeverStuck, ServersInTurn, Step, Enabled;
    var s := InitialState(storedStatus, storedExpiry, storedLog);
    if events == [] {
      InitialProgress(storedStatus, storedExpiry, storedLog);
    } else {
      var before := events[..|events| - 1];
      RunMakesProgress(storedStatus, storedExpiry, storedLog, before);
      StepKeepsInv(After(s, before), events[|events| - 1]);
      StepNeverSticks(After(s, before), events[|events| - 1]);
      StepKeepsTurns(After(s, before), events[|events| - 1]);
    }
  }

  lemma InitialProgress(storedStatus: Option<Status>, storedExpiry: nat, storedLog: seq<(nat, nat)>)
    ensures var s := InitialState(storedStatus, storedExpiry, storedLog); Inv(s) && NeverStuck(s) && ServersInTurn(s)
  {
  }

  /**
   What comes of connecting. The start that resolves for the session's own socket makes the session connected; one whose
   server fails goes on to the next server while it is current, and fails once it has made a socket for each server.
   */
  lemma ConnectingEnds(s: State, start: nat)
    requires Inv(s) && NeverStuck(s) && ServersInTurn(s) && start < |s.starts| && s.starts[start].at.AwaitConnect?
    ensures var at := s.starts[start].at;
            var own := at.generation == s.generation && s.signalSocket == Some(at.socket);
            && (Enabled(s, ConnectSucceeded(start)) && own ==>
                  var t := Step(s, ConnectSucceeded(start));
                  && t.status == Connected && SocketConnected(t) && t.starts[start].at == Returned)
            && var t := Step(s, ConnectFailed(start));
               && t.sockets[at.socket].transport == Dead
               && (at.generation == s.generation && at.serversLeft > 0 ==>
                     && t.status == s.status && t.starts[start].at.AwaitConnect?
                     && t.signalSocket == Some(t.starts[start].at.socket) && t.signalSocket == Some(|s.sockets|)
                     && t.starts[start].at.serversLeft == at.serversLeft - 1)
               && (at.generation == s.generation && at.serversLeft == 0 ==>
                     && t.status == Failed && t.signalSocket.None? && t.starts[start].at == Returned
                     && SocketsOf(t.sockets, s.generation) == s.starts[start].servers)
  {
    var at := s.starts[start].at;
    assert StartInOrder(s, s.starts[start]);
    if at.generation == s.generation && at.serversLeft == 0 {
      SameGenerations(s.sockets, Step(s, ConnectFailed(start)).sockets, s.generation);
    }
  }

  // ---------------------------------------------------------------- what the status says

  /** A step that stops the session: a request, or a lease that has expired. */
  predicate Stops(s: State, e: Event) {
    match e
    case StopCalled => true
    case AlarmFired(now) => s.clientExpiresAt <= now
    case LeaseTouched(now) => 0 < s.clientExpiresAt <= now
    case AuthorizationRead(start, accepted, now) =>
      accepted && start < |s.starts| && s.authoritative <= s.starts[start].sequence && 0 < s.clientExpiresAt <= now
    case _ => false
  }

  /** The session's socket is lost, and the session is told. */
  predicate LosesItsSocket(s: State, e: Event) {
    e.SocketDied? && e.notify && s.signalSocket == Some(e.socket)
  }

  /** The last server of the current start has failed, or there was none. */
  predicate RunsOutOfServers(s: State, e: Event) {
    match e
    case ConnectFailed(start) =>
      && start < |s.starts| && s.starts[start].at.AwaitConnect?
      && s.starts[start].at.generation == s.generation && s.starts[start].at.serversLeft == 0
    case LeaseAwaited(start) =>
      start < |s.starts| && s.authoritative <= s.starts[start].sequence && s.starts[start].servers == 0
    case _ => false
  }

  /** The current start connects. */
  predicate Connects(s: State, e: Event) {
    && e.ConnectSucceeded? && e.start < |s.starts| && s.starts[e.start].at.AwaitConnect?
    && s.starts[e.start].at.generation == s.generation && s.signalSocket == Some(s.starts[e.start].at.socket)
  }

  predicate Begins(s: State, e: Event) {
    && e.LeaseAwaited? && e.start < |s.starts| && s.authoritative <= s.starts[e.start].sequence
    && s.starts[e.start].servers > 0
  }

  predicate Repairs(s: State, e: Event) {
    e.StatusAsked? && s.status == Connected && !SocketConnected(s)
  }

  /** The status after any step, by what happens in it. */
  lemma StatusHasItsCause(s: State, e: Event)
    requires Inv(s) && NeverStuck(s) && Enabled(s, e)
    ensures var t := Step(s, e);
            var lost := LosesItsSocket(s, e) && s.status in {Connected, Connecting};
            && (Connects(s, e) ==> t.status == Connected)
            && (Begins(s, e) ==> t.status == Connecting)
            && (RunsOutOfServers(s, e) || (lost && e.failure) ==> t.status == Failed)
            && (Stops(s, e) || Repairs(s, e) || (lost && !e.failure) ==> t.status == Closed)
            && (!Connects(s, e) && !Begins(s, e) && !RunsOutOfServers(s, e) && !Stops(s, e) && !Repairs(s, e) && !lost ==>
                  t.status == s.status)
  {
    hide Inv, NeverStuck, FreshEntries, Logged;
    if LosesItsSocket(s, e) {
      CurrentGeneration(s);
    }
  }

  lemma CurrentGeneration(s: State)
    requires Inv(s) && s.signalSocket.Some?
    ensures s.signalSocket.value < |s.sockets| && s.sockets[s.signalSocket.value].generation == s.generation
  {
  }

  // ---------------------------------------------------------------- the log and the lease

  /** Appending to a log keeps an event that fits, behind the newest of those that are fresh. */
  lemma LoggedIsKept(log: seq<Entry>, e: Entry) returns (k: nat)
    ensures k <= |FreshEntries(log, e.receivedAt)| + 1
    ensures Logged(log, e) == (FreshEntries(log, e.receivedAt) + [e])[k..]
    ensures e.size <= MAX_EVENT_BYTES ==> Logged(log, e) != [] && Logged(log, e)[|Logged(log, e)| - 1] == e
  {
    k := WithinIsSuffix(EntrySize, FreshEntries(log, e.receivedAt) + [e]);
  }

  /** What comes in on the session's socket, or goes out on it while connected, is logged, and nothing else is. */
  lemma EventIsLogged(s: State, e: Event)
    requires Inv(s) && Enabled(s, e) && (e.SocketSpoke? || e.ControlSent?)
    ensures var t := Step(s, e);
            var own := if e.SocketSpoke? then e.generation == s.generation && s.signalSocket == Some(e.socket)
                       else s.status == Connected && SocketConnected(s);
            && t == s.(log := t.log)
            && (!own ==> t.log == s.log)
            && (own && e.size <= MAX_EVENT_BYTES ==>
                  t.log != [] && t.log[|t.log| - 1] == Entry(s.generation, e.now, e.size))
            && (own ==> forall x <- t.log :: x == Entry(s.generation, e.now, e.size) || x in s.log)
  {
    hide Logged;
    if s.signalSocket.Some? {
      CurrentGeneration(s);
    }
    var k := LoggedIsKept(s.log, Entry(s.generation, e.now, e.size));
  }

  /** A client that shows up keeps the session for the idle time, unless its lease has expired, which stops it. */
  lemma TouchExtendsLease(s: State, e: Event)
    requires Inv(s) && Enabled(s, e) && (e.LeaseTouched? || e.RoomAuthorized? || Stops(s, e) || e.AlarmFired?)
    ensures var t := Step(s, e);
            && (Stops(s, e) ==> AtRest(t) && t.clientExpiresAt == 0)
            && (e.RoomAuthorized? ==> t.clientExpiresAt == e.now + REMOTE_SESSION_IDLE_MS)
            && (e.LeaseTouched? && !Stops(s, e) ==>
                  t.clientExpiresAt == if s.clientExpiresAt == 0 then 0 else e.now + REMOTE_SESSION_IDLE_MS)
            && (e.AlarmFired? && !Stops(s, e) ==> t == s)
            && (!Stops(s, e) ==> t == s.(log := t.log, clientExpiresAt := t.clientExpiresAt))
            && (!Stops(s, e) && !e.AlarmFired? ==> t.log == FreshEntries(s.log, e.now))
  {
    hide FreshEntries, OneSocket, HonestStatus, CleanLog;
    if Stops(s, e) {
      assert forall i | 0 <= i < |s.starts| :: StartInOrder(s, s.starts[i]);
    }
  }

  /** Nothing else moves the lease. */
  predicate MovesLease(e: Event) {
    e.LeaseTouched? || e.RoomAuthorized? || e.AuthorizationRead? || e.AlarmFired? || e.StopCalled?
  }

  /** Without a client the lease stays as it is, and so the alarm ends the session from that time on. */
  lemma {:induction false} IdleSessionEnds(s: State, events: seq<Event>, now: nat)
    requires Inv(s) && IsRun(s, events) && forall e <- events :: !MovesLease(e)
    ensures var t := After(s, events);
            && t.clientExpiresAt == s.clientExpiresAt
            && (s.clientExpiresAt <= now ==> AtRest(Step(t, AlarmFired(now))))
            && (s.clientExpiresAt > now ==> Step(t, AlarmFired(now)) == t)
    decreases |events|
  {
    hide Inv, AtRest, MovesLease;
    if events != [] {
      var before := events[..|events| - 1];
      assert forall e <- before :: e in events;
      IdleSessionEnds(s, before, now);
      assert events[|events| - 1] in events;
      LeaseUnmoved(After(s, before), events[|events| - 1]);
    }
    RunKeepsInv(s, events);
    TouchExtendsLease(After(s, events), AlarmFired(now));
  }

  lemma LeaseUnmoved(s: State, e: Event)
    requires Enabled(s, e) && !MovesLease(e)
    ensures Step(s, e).clientExpiresAt == s.clientExpiresAt
  {
    hide Logged;
  }

  // ---------------------------------------------------------------- what begins a start

  /** A request is numbered after all others before it waits for anything, and nothing else changes. */
  lemma RequestIsNumbered(s: State, servers: nat)
    requires Inv(s)
    ensures var t := Step(s, StartCalled(servers));
            var start := |s.starts|;
            && |t.starts| == start + 1 && t.starts[..start] == s.starts && Observable(t) == Observable(s)
            && t.starts[start].at == AwaitAuthorization && t.starts[start].servers == servers
            && t.starts[start].sequence > t.authoritative && t.sockets == s.sockets
            && forall i | 0 <= i < start :: t.starts[i].sequence < t.starts[start].sequence
  {
    assert forall i | 0 <= i < |s.starts| :: StartInOrder(s, s.starts[i]);
  }

  /**
   A start that is accepted and not overtaken waits for its lease, and then takes over with its first server, unless
   its lease has expired; any other start returns.
   */
  lemma StartGoesOn(s: State, start: nat, accepted: bool, now: nat)
    requires Inv(s) && start < |s.starts|
    ensures Suspends(s, start, AwaitAuthorization) ==>
              var t := Step(s, AuthorizationRead(start, accepted, now));
              var overtaken := s.starts[start].sequence < s.authoritative;
              && t.starts[start].at == (if accepted && !overtaken then AwaitLease else Returned)
              && t.starts[start].sequence == s.starts[start].sequence && t.starts[start].servers == s.starts[start].servers
              && (!accepted || overtaken ==> Observable(t) == Observable(s))
              && (accepted && !overtaken && 0 < now < s.clientExpiresAt ==>
                    t.clientExpiresAt == now + REMOTE_SESSION_IDLE_MS && t.authoritative == s.authoritative)
    ensures Suspends(s, start, AwaitLease) ==>
              var t, n := Step(s, LeaseAwaited(start)), s.starts[start].servers;
              var overtaken := s.starts[start].sequence < s.authoritative;
              && (overtaken ==> t.starts[start].at == Returned && Observable(t) == Observable(s))
              && (!overtaken ==>
                    && t.authoritative == s.starts[start].sequence && t.generation > s.generation && t.log == []
                    && (n == 0 ==> t.starts[start].at == Returned && t.signalSocket.None?)
                    && (n > 0 ==> t.starts[start].at == AwaitConnect(|s.sockets|, t.generation, n - 1)
                                  && t.signalSocket == Some(|s.sockets|) && t.sockets[|s.sockets|].transport == Opening))
  {
    hide OneSocket, HonestStatus, CleanLog, FreshEntries;
  }

  /** A socket that completes its handshake is live, and one that is lost is dead; the session hears of its own only. */
  lemma SocketLives(s: State, socket: nat, notify: bool, failure: bool)
    requires Inv(s) && socket < |s.sockets|
    ensures Enabled(s, SocketHandshake(socket)) ==>
              var t := Step(s, SocketHandshake(socket));
              t.sockets[socket] == Socket(s.sockets[socket].generation, Live, true) && Observable(t) == Observable(s)
    ensures Enabled(s, SocketDied(socket, notify, failure)) ==>
              var t := Step(s, SocketDied(socket, notify, failure));
              && t.sockets[socket].transport == Dead
              && (notify && s.signalSocket == Some(socket) ==> t.signalSocket.None?)
              && (!notify || s.signalSocket != Some(socket) ==> Observable(t) == Observable(s))
  {
  }
}
