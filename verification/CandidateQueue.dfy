/**
 Remote ICE candidates that arrive before the answer (frontend/src/remote/browserRemoteSession.ts):
 `applySignalEvents`, `applySoacPayload` and `flushQueuedCandidates`, within one session lifecycle.
 */
module CandidateQueue {

  type Candidate = string

  /** A payload of a signal event; `inScope` says that its client, control and ICE ids match the session's. */
  datatype Payload =
    | Answer(inScope: bool, sdp: string)
    | RemoteCandidate(inScope: bool, candidate: Candidate)   // empty when there is no usable candidate
    | OtherPayload

  /** How far a new offer gets: refused by the peer, set as its local description but not sent, or sent. */
  datatype Offer = Refused | SetOnly | Sent

  datatype Kind =
    | Soac(payloads: seq<Payload>)
    | SwitchNetwork(valid: bool, offer: Offer)
    | Capability
    | OtherKind

  datatype Event = Event(id: nat, inbound: bool, kind: Kind)

  /** The peer connection: what it accepts, and whether it reports its signaling state. */
  datatype Peer = Peer(acceptsAnswer: string -> bool, acceptsCandidate: Candidate -> bool, reportsState: bool)

  datatype State = State(
    queuedCandidates: seq<Candidate>,
    processedSignalEventIds: set<nat>,
    remoteDescription: bool,
    haveLocalOffer: bool,
    applied: seq<Candidate>)                                 // candidates the peer has accepted, in order

  /** A handler either returns or throws; either way it leaves a state. */
  datatype Outcome = Returned(s: State) | Threw(s: State)

  // ---------------------------------------------------------------- handlers

  function CandidateAdded(peer: Peer, s: State, c: Candidate): Outcome {
    if peer.acceptsCandidate(c) then Returned(s.(applied := s.applied + [c])) else Threw(s)
  }

  function CandidatesAdded(peer: Peer, s: State, cs: seq<Candidate>): Outcome
    decreases |cs|
  {
    if cs == [] then Returned(s)
    else
      match CandidateAdded(peer, s, cs[0])
      case Threw(t) => Threw(t)
      case Returned(t) => CandidatesAdded(peer, t, cs[1..])
  }

  /** The queue is emptied before its candidates are added, so what a failure leaves behind is gone. */
  function Flushed(peer: Peer, s: State): Outcome {
    if !s.remoteDescription then Returned(s)
    else CandidatesAdded(peer, s.(queuedCandidates := []), s.queuedCandidates)
  }

  function PayloadApplied(peer: Peer, s: State, p: Payload): Outcome {
    match p
    case Answer(inScope, sdp) =>
      if !inScope || sdp == "" || (peer.reportsState && !s.haveLocalOffer) then Returned(s)
      else if !s.haveLocalOffer || !peer.acceptsAnswer(sdp) then Returned(s)
      else Flushed(peer, s.(remoteDescription := true, haveLocalOffer := false))
    case RemoteCandidate(inScope, c) =>
      if !inScope || c == "" then Returned(s)
      else if s.remoteDescription then CandidateAdded(peer, s, c)
      else Returned(s.(queuedCandidates := s.queuedCandidates + [c]))
    case OtherPayload => Returned(s)
  }

  function PayloadsApplied(peer: Peer, s: State, ps: seq<Payload>): Outcome
    decreases |ps|
  {
    if ps == [] then Returned(s)
    else
      match PayloadApplied(peer, s, ps[0])
      case Threw(t) => Threw(t)
      case Returned(t) => PayloadsApplied(peer, t, ps[1..])
  }

  function Processed(s: State, id: nat): State {
    s.(processedSignalEventIds := s.processedSignalEventIds + {id})
  }

  function EventApplied(peer: Peer, s: State, e: Event): Outcome {
    if e.id in s.processedSignalEventIds || !e.inbound then Returned(s)
    else
      match e.kind
      case Soac(payloads) =>
        (match PayloadsApplied(peer, s, payloads)
         case Threw(t) => Threw(t)
         case Returned(t) => Returned(Processed(t, e.id)))
      case SwitchNetwork(valid, offer) =>
        if !valid then Returned(Processed(s, e.id))
        else
          (match offer
           case Refused => Threw(s)
           case SetOnly => Threw(s.(haveLocalOffer := true))
           case Sent => Returned(Processed(s.(haveLocalOffer := true), e.id)))
      case Capability => Returned(Processed(s, e.id))
      case OtherKind => Returned(s)
  }

  function EventsApplied(peer: Peer, s: State, events: seq<Event>): Outcome
    decreases |events|
  {
    if events == [] then Returned(s)
    else
      match EventApplied(peer, s, events[0])
      case Threw(t) => Threw(t)
      case Returned(t) => EventsApplied(peer, t, events[1..])
  }

  // ---------------------------------------------------------------- the session object

  class BrowserRemoteSession {
    const peer: Peer
    var queuedCandidates: seq<Candidate>
    var processedSignalEventIds: set<nat>
    var remoteDescription: bool
    var haveLocalOffer: bool
    var applied: seq<Candidate>

    ghost function View(): State
      reads this
    {
      State(queuedCandidates, processedSignalEventIds, remoteDescription, haveLocalOffer, applied)
    }

    constructor (peer: Peer)
      ensures this.peer == peer && View() == OFFER_SENT
    {
      this.peer := peer;
      queuedCandidates, processedSignalEventIds, remoteDescription, haveLocalOffer, applied := [], {}, false, true, [];
    }

    method AddIceCandidate(c: Candidate) returns (ok: bool)
      modifies `applied
      ensures (if ok then Returned(View()) else Threw(View())) == CandidateAdded(peer, old(View()), c)
    {
      ok := peer.acceptsCandidate(c);
      if ok {
        applied := applied + [c];
      }
    }

    method FlushQueuedCandidates() returns (ok: bool)
      modifies `queuedCandidates, `applied
      ensures (if ok then Returned(View()) else Threw(View())) == Flushed(peer, old(View()))
    {
      if !remoteDescription {
        return true;
      }
      var candidates := queuedCandidates;
      queuedCandidates := [];
      for i := 0 to |candidates|
        invariant processedSignalEventIds == old(processedSignalEventIds)
        invariant Flushed(peer, old(View())) == CandidatesAdded(peer, View(), candidates[i..])
      {
        assert candidates[i..][1..] == candidates[i + 1..];
        ok := AddIceCandidate(candidates[i]);
        if !ok {
          return;
        }
      }
      return true;
    }

    method ApplySoacPayload(p: Payload) returns (ok: bool)
      modifies this
      ensures (if ok then Returned(View()) else Threw(View())) == PayloadApplied(peer, old(View()), p)
    {
      ok := true;
      match p {
        case Answer(inScope, sdp) =>
          if !inScope || sdp == "" || (peer.reportsState && !haveLocalOffer) {
            return;
          }
          if !haveLocalOffer || !peer.acceptsAnswer(sdp) {
            return;
          }
          remoteDescription, haveLocalOffer := true, false;
          ok := FlushQueuedCandidates();
        case RemoteCandidate(inScope, c) =>
          if !inScope || c == "" {
            return;
          }
          if remoteDescription {
            ok := AddIceCandidate(c);
          } else {
            queuedCandidates := queuedCandidates + [c];
          }
        case OtherPayload =>
      }
    }

    method ApplySoac(payloads: seq<Payload>) returns (ok: bool)
      modifies this
      ensures (if ok then Returned(View()) else Threw(View())) == PayloadsApplied(peer, old(View()), payloads)
    {
      for i := 0 to |payloads|
        invariant PayloadsApplied(peer, old(View()), payloads) == PayloadsApplied(peer, View(), payloads[i..])
      {
        assert payloads[i..][1..] == payloads[i + 1..];
        ok := ApplySoacPayload(payloads[i]);
        if !ok {
          return;
        }
      }
      return true;
    }

    method ApplySignalEvents(events: seq<Event>) returns (ok: bool)
      modifies this
      ensures (if ok then Returned(View()) else Threw(View())) == EventsApplied(peer, old(View()), events)
    {
      for i := 0 to |events|
        invariant EventsApplied(peer, old(View()), events) == EventsApplied(peer, View(), events[i..])
      {
        assert events[i..][1..] == events[i + 1..];
        var event := events[i];
        if event.id in processedSignalEventIds || !event.inbound {
          continue;
        }
        match event.kind {
          case Soac(payloads) =>
            ok := ApplySoac(payloads);
            if !ok {
              return;
            }
            processedSignalEventIds := processedSignalEventIds + {event.id};
          case SwitchNetwork(valid, offer) =>
            if valid {
              if offer.Refused? {
                return false;
              }
              haveLocalOffer := true;
              if offer.SetOnly? {
                return false;
              }
            }
            processedSignalEventIds := processedSignalEventIds + {event.id};
          case Capability =>
            processedSignalEventIds := processedSignalEventIds + {event.id};
          case OtherKind =>
        }
      }
      return true;
    }
  }

  // ---------------------------------------------------------------- what the events say

  /** The state right after the local offer went out. */
  const OFFER_SENT := State([], {}, false, true, [])

  function CandidatesOf(ps: seq<Payload>): seq<Candidate> {
    if ps == [] then []
    else
      (if ps[0].RemoteCandidate? && ps[0].inScope && ps[0].candidate != "" then [ps[0].candidate] else [])
      + CandidatesOf(ps[1..])
  }

  /** Whether the peer accepts an answer among these payloads, once there is a local offer. */
  predicate AnswerIn(peer: Peer, ps: seq<Payload>) {
    exists p <- ps :: p.Answer? && p.inScope && p.sdp != "" && peer.acceptsAnswer(p.sdp)
  }

  function PayloadsOf(e: Event): seq<Payload> {
    if e.kind.Soac? then e.kind.payloads else []
  }

  /** The candidates some events announce, in order. */
  function Announced(events: seq<Event>): seq<Candidate> {
    if events == [] then [] else CandidatesOf(PayloadsOf(events[0])) + Announced(events[1..])
  }

  predicate Answered(peer: Peer, events: seq<Event>) {
    exists e <- events :: AnswerIn(peer, PayloadsOf(e))
  }

  predicate Ignored(e: Event, seen: set<nat>) {
    e.id in seen || !e.inbound || e.kind.OtherKind?
  }

  /** A new offer is asked for and does not go out. */
  predicate Unsent(e: Event) {
    e.kind.SwitchNetwork? && e.kind.valid && !e.kind.offer.Sent?
  }

  /** What one call has to handle: the first delivery of each event, up to the first new offer that is not sent. */
  function Handled(events: seq<Event>, seen: set<nat>): seq<Event> {
    if events == [] then []
    else if Ignored(events[0], seen) then Handled(events[1..], seen)
    else if Unsent(events[0]) then []
    else [events[0]] + Handled(events[1..], seen + {events[0].id})
  }

  predicate OffersSent(events: seq<Event>, seen: set<nat>) {
    if events == [] then true
    else if Ignored(events[0], seen) then OffersSent(events[1..], seen)
    else !Unsent(events[0]) && OffersSent(events[1..], seen + {events[0].id})
  }

  function Ids(events: seq<Event>): set<nat> {
    set e <- events :: e.id
  }

  /** The same over calls that go on after one that threw. */
  function AllHandled(calls: seq<seq<Event>>, seen: set<nat>): seq<Event> {
    if calls == [] then []
    else
      var first := Handled(calls[0], seen);
      first + AllHandled(calls[1..], seen + Ids(first))
  }

  /** The caller reports what a call threw and goes on with the next one. */
  function CallsApplied(peer: Peer, s: State, calls: seq<seq<Event>>): State
    decreases |calls|
  {
    if calls == [] then s else CallsApplied(peer, EventsApplied(peer, s, calls[0]).s, calls[1..])
  }

  ghost predicate AcceptsAll(peer: Peer, cs: seq<Candidate>) {
    forall c <- cs :: peer.acceptsCandidate(c)
  }

  /** The position of the first candidate the peer refuses, or the length when it accepts them all. */
  function FirstRefused(peer: Peer, cs: seq<Candidate>): (k: nat)
    ensures k <= |cs| && (k < |cs| ==> !peer.acceptsCandidate(cs[k]))
    ensures forall i | 0 <= i < k :: peer.acceptsCandidate(cs[i])
  {
    if cs == [] || !peer.acceptsCandidate(cs[0]) then 0 else 1 + FirstRefused(peer, cs[1..])
  }

  lemma NoneRefused(peer: Peer, cs: seq<Candidate>)
    ensures FirstRefused(peer, cs) == |cs| <==> AcceptsAll(peer, cs)
  {
    var k := FirstRefused(peer, cs);
    assert k < |cs| ==> cs[k] in cs;
  }

  lemma {:induction false} FirstRefusedJoin(peer: Peer, a: seq<Candidate>, b: seq<Candidate>)
    ensures FirstRefused(peer, a + b) ==
            if FirstRefused(peer, a) < |a| then FirstRefused(peer, a) else |a| + FirstRefused(peer, b)
    decreases |a|
  {
    if a == [] {
      assert a + b == b;
    } else {
      assert (a + b)[0] == a[0] && (a + b)[1..] == a[1..] + b;
      FirstRefusedJoin(peer, a[1..], b);
    }
  }

  lemma AnnouncedFirst(peer: Peer, first: Payload, rest: seq<Payload>)
    ensures CandidatesOf([first] + rest) == CandidatesOf([first]) + CandidatesOf(rest)
    ensures AnswerIn(peer, [first] + rest) <==> AnswerIn(peer, [first]) || AnswerIn(peer, rest)
  {
    var ps := [first] + rest;
    assert ps[0] == first && ps[1..] == rest && [first][1..] == [];
    assert forall p :: p in ps <==> p == first || p in rest;
    assert forall p :: p in [first] <==> p == first;
  }

  lemma OneAnnounced(peer: Peer, p: Payload)
    ensures CandidatesOf([p]) == if p.RemoteCandidate? && p.inScope && p.candidate != "" then [p.candidate] else []
    ensures AnswerIn(peer, [p]) <==> p.Answer? && p.inScope && p.sdp != "" && peer.acceptsAnswer(p.sdp)
  {
    assert [p][1..] == [] && p in [p];
  }

  lemma {:induction false} CandidatesJoin(a: seq<Event>, b: seq<Event>)
    ensures Announced(a + b) == Announced(a) + Announced(b)
    decreases |a|
  {
    hide CandidatesOf;
    if a == [] {
      assert a + b == b;
    } else {
      assert (a + b)[0] == a[0] && (a + b)[1..] == a[1..] + b;
      CandidatesJoin(a[1..], b);
    }
  }

  lemma AnnouncedJoin(peer: Peer, a: seq<Event>, b: seq<Event>)
    ensures Announced(a + b) == Announced(a) + Announced(b)
    ensures Answered(peer, a + b) <==> Answered(peer, a) || Answered(peer, b)
    ensures Ids(a + b) == Ids(a) + Ids(b)
  {
    hide AnswerIn, Announced;
    CandidatesJoin(a, b);
    assert forall e :: e in a + b <==> e in a || e in b;
  }

  // ---------------------------------------------------------------- what handling them comes to

  /** Everything the peer has been or will be given, in order. */
  function Given(s: State): seq<Candidate> {
    s.applied + s.queuedCandidates
  }

  predicate QueueFlushed(s: State) {
    s.remoteDescription ==> s.queuedCandidates == []
  }

  /**
   Nothing waits in the queue once there is a remote description, before that there is a local offer, and the
   candidates applied are ones the peer accepts.
   */
  ghost predicate QueueInv(peer: Peer, s: State) {
    QueueFlushed(s) && (s.haveLocalOffer || s.remoteDescription) && AcceptsAll(peer, s.applied)
  }

  /** Whether a candidate is refused on the way from one state to another while `cs` are announced. */
  predicate Refuses(peer: Peer, s: State, t: State, cs: seq<Candidate>) {
    var all := s.queuedCandidates + cs;
    t.remoteDescription && FirstRefused(peer, all) < |all|
  }

  /**
   One state leads to another while `cs` are announced: with a remote description in the end, what was queued and
   then `cs` have been applied up to the first refusal; without one, all of them are queued.
   */
  ghost predicate LeadsTo(peer: Peer, s: State, t: State, cs: seq<Candidate>) {
    var all := s.queuedCandidates + cs;
    && (s.remoteDescription ==> t.remoteDescription)
    && (t.remoteDescription ==> t.queuedCandidates == [] && t.applied == s.applied + all[..FirstRefused(peer, all)])
    && (!t.remoteDescription ==> t.queuedCandidates == all && t.applied == s.applied)
  }

  lemma LeadsToItself(peer: Peer, s: State)
    requires QueueFlushed(s)
    ensures LeadsTo(peer, s, s, []) && !Refuses(peer, s, s, [])
  {
    assert s.queuedCandidates + [] == s.queuedCandidates && s.applied + [] == s.applied;
  }

  /** Two stretches of which the first refuses nothing are one. */
  lemma StretchesJoin(peer: Peer, s: State, t: State, u: State, a: seq<Candidate>, b: seq<Candidate>)
    requires LeadsTo(peer, s, t, a) && !Refuses(peer, s, t, a) && LeadsTo(peer, t, u, b)
    ensures LeadsTo(peer, s, u, a + b) && (Refuses(peer, s, u, a + b) <==> Refuses(peer, t, u, b))
  {
    hide FirstRefused;
    var all := s.queuedCandidates + a;
    assert s.queuedCandidates + (a + b) == all + b;
    if t.remoteDescription {
      assert t.queuedCandidates + b == b && all[..|all|] == all;
      FlushedStretches(peer, s.applied, all, b);
    }
  }

  lemma FlushedStretches(peer: Peer, applied: seq<Candidate>, all: seq<Candidate>, b: seq<Candidate>)
    requires FirstRefused(peer, all) == |all|
    ensures FirstRefused(peer, all + b) == |all| + FirstRefused(peer, b)
    ensures applied + (all + b)[..FirstRefused(peer, all + b)] == applied + all + b[..FirstRefused(peer, b)]
  {
    hide FirstRefused;
    FirstRefusedJoin(peer, all, b);
    var k := FirstRefused(peer, b);
    assert (all + b)[..|all| + k] == all + b[..k];
  }

  /** After a refusal nothing more happens, whatever else is announced. */
  lemma StretchStops(peer: Peer, s: State, t: State, a: seq<Candidate>, b: seq<Candidate>)
    requires LeadsTo(peer, s, t, a) && Refuses(peer, s, t, a)
    ensures LeadsTo(peer, s, t, a + b) && Refuses(peer, s, t, a + b)
  {
    hide FirstRefused;
    var all := s.queuedCandidates + a;
    assert s.queuedCandidates + (a + b) == all + b;
    FirstRefusedJoin(peer, all, b);
    assert (all + b)[..FirstRefused(peer, all)] == all[..FirstRefused(peer, all)];
  }

  lemma {:induction false} AddedUpToRefusal(peer: Peer, s: State, cs: seq<Candidate>)
    ensures var k := FirstRefused(peer, cs);
            var t := s.(applied := s.applied + cs[..k]);
            CandidatesAdded(peer, s, cs) == if k == |cs| then Returned(t) else Threw(t)
    decreases |cs|
  {
    var k := FirstRefused(peer, cs);
    if cs != [] && peer.acceptsCandidate(cs[0]) {
      AddedUpToRefusal(peer, s.(applied := s.applied + [cs[0]]), cs[1..]);
      assert s.applied + cs[..k] == s.applied + [cs[0]] + cs[1..][..k - 1];
    } else {
      assert s.applied + cs[..0] == s.applied;
    }
  }

  /** When the peer refuses a queued candidate, that one and all later ones are lost; otherwise none is. */
  lemma FlushLosesFromFirstRefusal(peer: Peer, s: State, cs: seq<Candidate>)
    ensures var t := s.(applied := s.applied + cs[..FirstRefused(peer, cs)]);
            CandidatesAdded(peer, s, cs) == if AcceptsAll(peer, cs) then Returned(t) else Threw(t)
  {
    AddedUpToRefusal(peer, s, cs);
    NoneRefused(peer, cs);
  }

  lemma AnswerLeadsTo(peer: Peer, s: State, p: Payload)
    requires QueueFlushed(s) && p.Answer?
    ensures var r := PayloadApplied(peer, s, p);
            LeadsTo(peer, s, r.s, []) && (r.Threw? <==> Refuses(peer, s, r.s, []))
  {
    var queue := s.queuedCandidates;
    FlushLosesFromFirstRefusal(
      peer, s.(remoteDescription := true, haveLocalOffer := false, queuedCandidates := []), queue);
    NoneRefused(peer, queue);
    LeadsToItself(peer, s);
    assert queue + [] == queue;
  }

  lemma CandidateLeadsTo(peer: Peer, s: State, p: Payload)
    requires QueueFlushed(s) && !p.Answer?
    ensures var r := PayloadApplied(peer, s, p);
            LeadsTo(peer, s, r.s, CandidatesOf([p])) && (r.Threw? <==> Refuses(peer, s, r.s, CandidatesOf([p])))
  {
    OneAnnounced(peer, p);
    var cs := CandidatesOf([p]);
    LeadsToItself(peer, s);
    if cs != [] && s.remoteDescription {
      assert s.queuedCandidates + cs == cs && cs[1..] == [];
      assert cs[..1] == cs && cs[..0] == [] && s.applied + [] == s.applied;
    }
  }

  lemma PayloadLeadsTo(peer: Peer, s: State, p: Payload)
    requires QueueFlushed(s)
    ensures var r := PayloadApplied(peer, s, p);
            LeadsTo(peer, s, r.s, CandidatesOf([p])) && (r.Threw? <==> Refuses(peer, s, r.s, CandidatesOf([p])))
  {
    hide LeadsTo, Refuses, PayloadApplied, QueueFlushed;
    OneAnnounced(peer, p);
    if p.Answer? {
      AnswerLeadsTo(peer, s, p);
    } else {
      CandidateLeadsTo(peer, s, p);
    }
  }

  /**
   Payloads throw exactly when a candidate is refused, and either way have applied what was queued and what they
   announce up to the first refusal, or queued it all.
   */
  lemma {:induction false} PayloadsOutcome(peer: Peer, s: State, ps: seq<Payload>)
    requires QueueFlushed(s)
    ensures var r := PayloadsApplied(peer, s, ps);
            && LeadsTo(peer, s, r.s, CandidatesOf(ps)) && (r.Threw? <==> Refuses(peer, s, r.s, CandidatesOf(ps)))
            && r.s.processedSignalEventIds == s.processedSignalEventIds
    decreases |ps|
  {
    hide PayloadApplied, LeadsTo, Refuses, QueueFlushed;
    if ps == [] {
      LeadsToItself(peer, s);
    } else {
      var first, rest := ps[0], ps[1..];
      assert [first] + rest == ps;
      AnnouncedFirst(peer, first, rest);
      PayloadLeadsTo(peer, s, first);
      PayloadKeeps(peer, s, first);
      var r := PayloadApplied(peer, s, first);
      if r.Returned? {
        LeadsToFlushed(peer, s, r.s, CandidatesOf([first]));
        PayloadsOutcome(peer, r.s, rest);
        StretchesJoin(peer, s, r.s, PayloadsApplied(peer, r.s, rest).s, CandidatesOf([first]), CandidatesOf(rest));
      } else {
        StretchStops(peer, s, r.s, CandidatesOf([first]), CandidatesOf(rest));
      }
    }
  }

  lemma LeadsToFlushed(peer: Peer, s: State, t: State, cs: seq<Candidate>)
    requires LeadsTo(peer, s, t, cs)
    ensures QueueFlushed(t)
  {
  }

  /** What one payload does to the offer and the marks. */
  lemma PayloadKeeps(peer: Peer, s: State, p: Payload)
    ensures var r := PayloadApplied(peer, s, p);
            && r.s.processedSignalEventIds == s.processedSignalEventIds
            && (s.haveLocalOffer || s.remoteDescription ==>
                  && (r.s.haveLocalOffer || r.s.remoteDescription)
                  && (r.s.remoteDescription <==> s.remoteDescription || AnswerIn(peer, [p])))
  {
    OneAnnounced(peer, p);
    FlushLosesFromFirstRefusal(
      peer, s.(remoteDescription := true, haveLocalOffer := false, queuedCandidates := []), s.queuedCandidates);
  }

  /** There is a remote description afterwards exactly when there was one or an answer was accepted. */
  lemma {:induction false} PayloadsAnswer(peer: Peer, s: State, ps: seq<Payload>)
    requires QueueFlushed(s) && (s.haveLocalOffer || s.remoteDescription)
    ensures var r := PayloadsApplied(peer, s, ps);
            && (r.s.haveLocalOffer || r.s.remoteDescription)
            && (r.s.remoteDescription <==> s.remoteDescription || AnswerIn(peer, ps))
    decreases |ps|
  {
    hide PayloadApplied, AnswerIn, LeadsTo, Refuses, QueueFlushed;
    if ps == [] {
      NoAnswerInNothing(peer);
    } else {
      var first, rest := ps[0], ps[1..];
      assert [first] + rest == ps;
      AnnouncedFirst(peer, first, rest);
      PayloadKeeps(peer, s, first);
      PayloadLeadsTo(peer, s, first);
      var r := PayloadApplied(peer, s, first);
      if r.Returned? {
        LeadsToFlushed(peer, s, r.s, CandidatesOf([first]));
        PayloadsAnswer(peer, r.s, rest);
      } else {
        assert r.s.remoteDescription by {
          RefusesNeedsAnswer(peer, s, r.s, CandidatesOf([first]));
        }
      }
    }
  }

  lemma NoAnswerInNothing(peer: Peer)
    ensures !AnswerIn(peer, [])
  {
  }

  lemma RefusesNeedsAnswer(peer: Peer, s: State, t: State, cs: seq<Candidate>)
    requires Refuses(peer, s, t, cs)
    ensures t.remoteDescription
  {
  }

  /** The invariant is kept, whatever is refused. */
  lemma LeadsToKeepsInv(peer: Peer, s: State, t: State, cs: seq<Candidate>)
    requires QueueInv(peer, s) && LeadsTo(peer, s, t, cs) && (t.haveLocalOffer || t.remoteDescription)
    ensures QueueInv(peer, t)
  {
    hide FirstRefused;
    var all := s.queuedCandidates + cs;
    var k := FirstRefused(peer, all);
    assert forall c <- all[..k] :: exists i | 0 <= i < k :: all[i] == c;
  }

  lemma EventOutcome(peer: Peer, s: State, e: Event)
    requires QueueInv(peer, s) && !Ignored(e, s.processedSignalEventIds)
    ensures var r, cs := EventApplied(peer, s, e), CandidatesOf(PayloadsOf(e));
            && QueueInv(peer, r.s) && LeadsTo(peer, s, r.s, cs)
            && (r.s.remoteDescription <==> s.remoteDescription || AnswerIn(peer, PayloadsOf(e)))
            && (r.Threw? <==> Unsent(e) || Refuses(peer, s, r.s, cs))
            && r.s.processedSignalEventIds == s.processedSignalEventIds + (if r.Returned? then {e.id} else {})
            && (Unsent(e) ==> cs == [] && !Refuses(peer, s, r.s, cs))
  {
    hide AnswerIn;
    var r := EventApplied(peer, s, e);
    if e.kind.Soac? {
      PayloadsOutcome(peer, s, e.kind.payloads);
      PayloadsAnswer(peer, s, e.kind.payloads);
    } else {
      NoAnswerInNothing(peer);
      LeadsToItself(peer, s);
    }
    LeadsToKeepsInv(peer, s, r.s, CandidatesOf(PayloadsOf(e)));
  }

  /**
   One call, under any peer. It throws exactly when a candidate is refused or a new offer is not sent. What was queued
   and what the handled events announce has been applied in order up to the first refusal, or is queued without an
   accepted answer; and unless a candidate was refused, exactly the handled events are marked.
   */
  lemma {:induction false} EventsOutcome(peer: Peer, s: State, events: seq<Event>)
    requires QueueInv(peer, s)
    ensures var r, seen := EventsApplied(peer, s, events), s.processedSignalEventIds;
            var handled := Handled(events, seen);
            && QueueInv(peer, r.s) && LeadsTo(peer, s, r.s, Announced(handled))
            && (r.s.remoteDescription <==> s.remoteDescription || Answered(peer, handled))
            && (r.Threw? <==> !OffersSent(events, seen) || Refuses(peer, s, r.s, Announced(handled)))
            && (!Refuses(peer, s, r.s, Announced(handled)) ==> r.s.processedSignalEventIds == seen + Ids(handled))
            && r.s.processedSignalEventIds <= seen + Ids(handled)
    decreases |events|
  {
    hide QueueInv, LeadsTo, Refuses, AnswerIn, CandidatesOf, EventApplied, Unsent, Ignored;
    var seen := s.processedSignalEventIds;
    if events == [] {
      InvFlushed(peer, s);
      LeadsToItself(peer, s);
    } else {
      var e, rest := events[0], events[1..];
      var r := EventApplied(peer, s, e);
      if Ignored(e, seen) {
        IgnoredChangesNothing(peer, s, e);
        EventsOutcome(peer, s, rest);
      } else {
        EventOutcome(peer, s, e);
        OneEvent(peer, e);
        if r.Returned? {
          EventsOutcome(peer, r.s, rest);
          var later := Handled(rest, seen + {e.id});
          AnnouncedJoin(peer, [e], later);
          StretchesJoin(peer, s, r.s, EventsApplied(peer, r.s, rest).s, Announced([e]), Announced(later));
        } else if Unsent(e) {
          assert Handled(events, seen) == [];
        } else {
          var later := Handled(rest, seen + {e.id});
          AnnouncedJoin(peer, [e], later);
          RefusesNeedsAnswer(peer, s, r.s, Announced([e]));
          StretchStops(peer, s, r.s, Announced([e]), Announced(later));
        }
      }
    }
  }

  lemma InvFlushed(peer: Peer, s: State)
    requires QueueInv(peer, s)
    ensures QueueFlushed(s)
  {
  }

  lemma IgnoredChangesNothing(peer: Peer, s: State, e: Event)
    requires Ignored(e, s.processedSignalEventIds)
    ensures EventApplied(peer, s, e) == Returned(s)
  {
  }

  lemma OneEvent(peer: Peer, e: Event)
    ensures Announced([e]) == CandidatesOf(PayloadsOf(e)) && Ids([e]) == {e.id}
    ensures Answered(peer, [e]) <==> AnswerIn(peer, PayloadsOf(e))
    ensures Unsent(e) ==> CandidatesOf(PayloadsOf(e)) == [] && !AnswerIn(peer, PayloadsOf(e))
  {
    assert [e][1..] == [] && [e][0] == e;
  }

  // ---------------------------------------------------------------- calls that go on after a throw

  /** Once an answer is accepted, the peer accepts what waits and what these events announce. */
  ghost predicate Welcome(peer: Peer, s: State, handled: seq<Event>) {
    s.remoteDescription || Answered(peer, handled) ==> AcceptsAll(peer, s.queuedCandidates + Announced(handled))
  }

  lemma RefusesUnlessWelcome(peer: Peer, s: State, t: State, handled: seq<Event>)
    requires t.remoteDescription <==> s.remoteDescription || Answered(peer, handled)
    ensures Refuses(peer, s, t, Announced(handled)) <==> !Welcome(peer, s, handled)
  {
    NoneRefused(peer, s.queuedCandidates + Announced(handled));
  }

  lemma WelcomeJoin(peer: Peer, s: State, t: State, a: seq<Event>, b: seq<Event>)
    requires LeadsTo(peer, s, t, Announced(a)) && !Refuses(peer, s, t, Announced(a))
    requires t.remoteDescription <==> s.remoteDescription || Answered(peer, a)
    ensures Welcome(peer, s, a + b) <==> Welcome(peer, t, b)
  {
    hide Announced, Answered, FirstRefused;
    AnnouncedJoin(peer, a, b);
    var queue, cs, ds := s.queuedCandidates, Announced(a), Announced(b);
    assert queue + (cs + ds) == queue + cs + ds;
    NoneRefused(peer, queue + cs);
    assert t.remoteDescription ==> AcceptsAll(peer, queue + cs) && t.queuedCandidates + ds == ds;
    assert forall c :: c in queue + cs + ds <==> c in queue + cs || c in ds;
  }

  lemma NotWelcomeJoin(peer: Peer, s: State, a: seq<Event>, b: seq<Event>)
    requires !Welcome(peer, s, a)
    ensures !Welcome(peer, s, a + b)
  {
    hide Announced, Answered;
    AnnouncedJoin(peer, a, b);
    assert forall c <- s.queuedCandidates + Announced(a) :: c in s.queuedCandidates + (Announced(a) + Announced(b));
  }

  /** Any number of calls: the invariant holds, and where no candidate is refused they come to one stretch. */
  lemma {:induction false} CallsOutcome(peer: Peer, s: State, calls: seq<seq<Event>>)
    requires QueueInv(peer, s)
    ensures var t, seen := CallsApplied(peer, s, calls), s.processedSignalEventIds;
            var handled := AllHandled(calls, seen);
            && QueueInv(peer, t) && (s.remoteDescription ==> t.remoteDescription)
            && (Welcome(peer, s, handled) ==>
                  && LeadsTo(peer, s, t, Announced(handled)) && !Refuses(peer, s, t, Announced(handled))
                  && (t.remoteDescription <==> s.remoteDescription || Answered(peer, handled))
                  && t.processedSignalEventIds == seen + Ids(handled))
            && (!Welcome(peer, s, handled) ==> t.remoteDescription)
    decreases |calls|
  {
    hide QueueInv, LeadsTo, Refuses, Welcome, EventsApplied, OffersSent, Handled, Announced, Answered;
    var seen := s.processedSignalEventIds;
    if calls == [] {
      NoCalls(peer, s);
    } else {
      var first, rest := Handled(calls[0], seen), calls[1..];
      var mid := EventsApplied(peer, s, calls[0]).s;
      EventsOutcome(peer, s, calls[0]);
      RefusesUnlessWelcome(peer, s, mid, first);
      CallsOutcome(peer, mid, rest);
      var later := AllHandled(rest, seen + Ids(first));
      AnnouncedJoin(peer, first, later);
      if Welcome(peer, s, first) {
        WelcomeJoin(peer, s, mid, first, later);
        if Welcome(peer, mid, later) {
          StretchesJoin(peer, s, mid, CallsApplied(peer, mid, rest), Announced(first), Announced(later));
        }
      } else {
        NotWelcomeJoin(peer, s, first, later);
        RefusesNeedsAnswer(peer, s, mid, Announced(first));
      }
    }
  }

  lemma NoCalls(peer: Peer, s: State)
    requires QueueInv(peer, s)
    ensures LeadsTo(peer, s, s, Announced([])) && !Refuses(peer, s, s, Announced([])) && !Answered(peer, [])
    ensures s.processedSignalEventIds + Ids([]) == s.processedSignalEventIds
    ensures !Welcome(peer, s, []) ==> s.remoteDescription
  {
    LeadsToItself(peer, s);
  }

  lemma LeadsToGives(peer: Peer, s: State, t: State, cs: seq<Candidate>)
    requires LeadsTo(peer, s, t, cs)
    ensures |Given(t)| <= |Given(s)| + |cs|
    ensures !Refuses(peer, s, t, cs) ==> Given(t) == Given(s) + cs
  {
    var all := s.queuedCandidates + cs;
    assert all[..|all|] == all && s.applied + all == Given(s) + cs && t.applied + [] == t.applied;
  }

  lemma RefusedIsMissing(peer: Peer, s: State, t: State, cs: seq<Candidate>)
    requires QueueInv(peer, t) && t.remoteDescription && !AcceptsAll(peer, s.queuedCandidates + cs)
    ensures Given(t) != Given(s) + cs
  {
    assert t.applied + [] == t.applied;
    assert forall c <- s.queuedCandidates + cs :: c in Given(s) + cs;
  }

  predicate OnceEach(events: seq<Event>) {
    forall i, j | 0 <= i < j < |events| :: events[i].id != events[j].id
  }

  ghost predicate Unseen(events: seq<Event>, seen: set<nat>) {
    forall e <- events :: e.id !in seen
  }

  lemma {:induction false} HandledOnce(events: seq<Event>, seen: set<nat>)
    ensures OnceEach(Handled(events, seen)) && Unseen(Handled(events, seen), seen)
    ensures forall e <- Handled(events, seen) :: e in events && e.inbound
    decreases |events|
  {
    hide Unsent, Ignored, OnceEach;
    if events != [] && (Ignored(events[0], seen) || !Unsent(events[0])) {
      var e, rest := events[0], events[1..];
      var later := if Ignored(e, seen) then seen else seen + {e.id};
      HandledOnce(rest, later);
      if !Ignored(e, seen) {
        NotIgnored(e, seen);
        OnceMore(e, Handled(rest, later));
      }
    } else {
      NoneTwice();
    }
  }

  lemma NoneTwice()
    ensures OnceEach([])
  {
  }

  lemma OnceMore(e: Event, events: seq<Event>)
    requires OnceEach(events) && Unseen(events, {e.id})
    ensures OnceEach([e] + events)
  {
    assert forall x <- events :: x.id != e.id;
  }

  lemma NotIgnored(e: Event, seen: set<nat>)
    requires !Ignored(e, seen)
    ensures e.inbound && e.id !in seen
  {
  }

  /** No event is handled by two calls, nor twice by one. */
  lemma {:induction false} AllHandledOnce(calls: seq<seq<Event>>, seen: set<nat>)
    ensures OnceEach(AllHandled(calls, seen)) && Unseen(AllHandled(calls, seen), seen)
    decreases |calls|
  {
    hide Handled;
    if calls != [] {
      var first := Handled(calls[0], seen);
      HandledOnce(calls[0], seen);
      AllHandledOnce(calls[1..], seen + Ids(first));
      assert forall e <- first :: e.id in Ids(first);
    }
  }

  /**
   The whole session from its offer on, over any calls, re-deliveries and failures. What the calls have to handle is
   each event at most once, and its candidates are applied or queued once and in order if and only if the peer accepts
   them all or no answer is accepted. Nothing is ever queued behind an accepted answer.
   */
  lemma EveryCandidateOnceIff(peer: Peer, calls: seq<seq<Event>>)
    ensures var t, handled := CallsApplied(peer, OFFER_SENT, calls), AllHandled(calls, {});
            var cs := Announced(handled);
            && OnceEach(handled)
            && (Given(t) == cs <==> (Answered(peer, handled) ==> AcceptsAll(peer, cs)))
            && (Given(t) == cs ==>
                  && (t.remoteDescription <==> Answered(peer, handled))
                  && t.processedSignalEventIds == Ids(handled))
            && (t.remoteDescription ==> t.queuedCandidates == [])
  {
    hide LeadsTo, Refuses, Answered, Announced, AllHandled, CallsApplied;
    var t, handled := CallsApplied(peer, OFFER_SENT, calls), AllHandled(calls, {});
    var cs := Announced(handled);
    AllHandledOnce(calls, {});
    CallsOutcome(peer, OFFER_SENT, calls);
    assert [] + cs == cs && Given(OFFER_SENT) + cs == cs;
    if Welcome(peer, OFFER_SENT, handled) {
      LeadsToGives(peer, OFFER_SENT, t, cs);
    } else {
      RefusedIsMissing(peer, OFFER_SENT, t, cs);
    }
  }

  function Concatenated(calls: seq<seq<Event>>): seq<Event> {
    if calls == [] then [] else calls[0] + Concatenated(calls[1..])
  }

  predicate NoneThrows(peer: Peer, s: State, calls: seq<seq<Event>>)
    decreases |calls|
  {
    calls == [] || (EventsApplied(peer, s, calls[0]).Returned?
                    && NoneThrows(peer, EventsApplied(peer, s, calls[0]).s, calls[1..]))
  }

  lemma {:induction false} EventsJoin(peer: Peer, s: State, a: seq<Event>, b: seq<Event>)
    ensures EventsApplied(peer, s, a + b) ==
            match EventsApplied(peer, s, a)
            case Threw(t) => Threw(t)
            case Returned(t) => EventsApplied(peer, t, b)
    decreases |a|
  {
    if a == [] {
      assert a + b == b;
    } else {
      assert (a + b)[0] == a[0] && (a + b)[1..] == a[1..] + b;
      var first := EventApplied(peer, s, a[0]);
      if first.Returned? {
        EventsJoin(peer, first.s, a[1..], b);
      }
    }
  }

  /** One call with all the events returns if and only if none of the calls throws, and then comes to the same. */
  lemma {:induction false} BatchesAreOne(peer: Peer, s: State, calls: seq<seq<Event>>)
    ensures var r := EventsApplied(peer, s, Concatenated(calls));
            && (r.Returned? <==> NoneThrows(peer, s, calls))
            && (r.Returned? ==> r.s == CallsApplied(peer, s, calls))
    decreases |calls|
  {
    if calls != [] {
      EventsJoin(peer, s, calls[0], Concatenated(calls[1..]));
      BatchesAreOne(peer, EventsApplied(peer, s, calls[0]).s, calls[1..]);
    }
  }

  // ---------------------------------------------------------------- a caller that delivers each event once

  /** The candidates of all inbound events. */
  function Incoming(events: seq<Event>): seq<Candidate> {
    if events == [] then []
    else (if events[0].inbound then CandidatesOf(PayloadsOf(events[0])) else []) + Incoming(events[1..])
  }

  /** Those of them behind the first new offer that is not sent. */
  function Behind(events: seq<Event>): seq<Candidate> {
    if events == [] then []
    else if events[0].inbound && Unsent(events[0]) then Incoming(events[1..])
    else Behind(events[1..])
  }

  /** No call has candidates behind a new offer that is not sent. */
  predicate NothingBehind(calls: seq<seq<Event>>) {
    calls == [] || (Behind(calls[0]) == [] && NothingBehind(calls[1..]))
  }

  lemma {:induction false} IncomingJoin(a: seq<Event>, b: seq<Event>)
    ensures Incoming(a + b) == Incoming(a) + Incoming(b)
    decreases |a|
  {
    hide CandidatesOf;
    if a == [] {
      assert a + b == b;
    } else {
      assert (a + b)[0] == a[0] && (a + b)[1..] == a[1..] + b;
      IncomingJoin(a[1..], b);
    }
  }

  /** A call with new events handles all that they announce but what stands behind an offer that is not sent. */
  lemma {:induction false} HandledAndBehind(events: seq<Event>, seen: set<nat>)
    requires OnceEach(events) && Unseen(events, seen)
    ensures Announced(Handled(events, seen)) + Behind(events) == Incoming(events)
    decreases |events|
  {
    if events != [] {
      hide Announced, Handled, OnceEach, Unseen, CandidatesOf, Unsent, Ignored, Incoming, Behind;
      var e, rest := events[0], events[1..];
      RestIsNew(events, seen);
      AnnouncedHandled(events, seen);
      IncomingFirst(events, seen);
      if Ignored(e, seen) {
        HandledAndBehind(rest, seen);
      } else if !Unsent(e) {
        HandledAndBehind(rest, seen + {e.id});
      }
    }
  }

  lemma IncomingFirst(events: seq<Event>, seen: set<nat>)
    requires events != [] && events[0].id !in seen
    ensures var e, rest := events[0], events[1..];
            if Ignored(e, seen) then Incoming(events) == Incoming(rest) && Behind(events) == Behind(rest)
            else if Unsent(e) then Incoming(events) == Incoming(rest) && Behind(events) == Incoming(rest)
            else
              && Incoming(events) == CandidatesOf(PayloadsOf(e)) + Incoming(rest)
              && Behind(events) == Behind(rest)
  {
    assert [] + Incoming(events[1..]) == Incoming(events[1..]);
  }

  lemma AnnouncedHandled(events: seq<Event>, seen: set<nat>)
    requires events != []
    ensures var e, rest := events[0], events[1..];
            Announced(Handled(events, seen)) ==
            if Ignored(e, seen) then Announced(Handled(rest, seen))
            else if Unsent(e) then []
            else CandidatesOf(PayloadsOf(e)) + Announced(Handled(rest, seen + {e.id}))
  {
    hide CandidatesOf, Ignored, Unsent;
    var e, rest := events[0], events[1..];
    if !Ignored(e, seen) && !Unsent(e) {
      assert Handled(events, seen)[1..] == Handled(rest, seen + {e.id});
    }
  }

  lemma RestIsNew(events: seq<Event>, seen: set<nat>)
    requires events != [] && OnceEach(events) && Unseen(events, seen)
    ensures events[0].id !in seen && OnceEach(events[1..])
    ensures Unseen(events[1..], seen) && Unseen(events[1..], seen + {events[0].id})
  {
    assert events[0] in events && forall x <- events[1..] :: x in events;
  }

  /** For new events it does not matter which ones were seen before. */
  lemma {:induction false} HandledAnySeen(events: seq<Event>, seen: set<nat>, other: set<nat>)
    requires OnceEach(events) && Unseen(events, seen) && Unseen(events, other)
    ensures Handled(events, seen) == Handled(events, other)
    decreases |events|
  {
    hide Unsent, OnceEach, Unseen;
    if events != [] {
      var e, rest := events[0], events[1..];
      RestIsNew(events, seen);
      RestIsNew(events, other);
      if Ignored(e, seen) {
        HandledAnySeen(rest, seen, other);
      } else {
        HandledAnySeen(rest, seen + {e.id}, other + {e.id});
      }
    }
  }

  lemma OnceEachSplits(a: seq<Event>, b: seq<Event>, seen: set<nat>)
    requires OnceEach(a + b) && Unseen(a + b, seen)
    ensures OnceEach(a) && OnceEach(b) && Unseen(a, seen) && Unseen(b, seen + Ids(a))
  {
    var all := a + b;
    assert forall i | 0 <= i < |a| :: all[i] == a[i] && a[i] in all;
    assert forall j | 0 <= j < |b| :: all[|a| + j] == b[j] && b[j] in all;
  }

  lemma UnseenByFewer(events: seq<Event>, seen: set<nat>, fewer: set<nat>)
    requires Unseen(events, seen) && fewer <= seen
    ensures Unseen(events, fewer)
  {
  }

  lemma {:induction false} AllHandledAnySeen(calls: seq<seq<Event>>, seen: set<nat>, other: set<nat>)
    requires OnceEach(Concatenated(calls)) && Unseen(Concatenated(calls), seen) && Unseen(Concatenated(calls), other)
    ensures AllHandled(calls, seen) == AllHandled(calls, other)
    decreases |calls|
  {
    hide OnceEach, Unseen, Handled;
    if calls != [] {
      var call, rest := calls[0], Concatenated(calls[1..]);
      OnceEachSplits(call, rest, seen);
      OnceEachSplits(call, rest, other);
      HandledAnySeen(call, seen, other);
      HandledOnce(call, seen);
      var ids := Ids(Handled(call, seen));
      UnseenByFewer(rest, seen + Ids(call), seen + ids);
      UnseenByFewer(rest, other + Ids(call), other + ids);
      AllHandledAnySeen(calls[1..], seen + ids, other + ids);
    }
  }

  /** Nothing announced is missed if and only if no call has candidates behind an offer that is not sent. */
  lemma {:induction false} MissedIff(calls: seq<seq<Event>>, seen: set<nat>)
    requires OnceEach(Concatenated(calls)) && Unseen(Concatenated(calls), seen)
    ensures var handled, all := Announced(AllHandled(calls, seen)), Incoming(Concatenated(calls));
            && |handled| <= |all|
            && (|handled| == |all| <==> NothingBehind(calls))
            && (handled == all <==> NothingBehind(calls))
    decreases |calls|
  {
    if calls != [] {
      hide OnceEach, Unseen, Handled, Announced, Incoming, Behind, Answered, Ids;
      var call, rest := calls[0], Concatenated(calls[1..]);
      OnceEachSplits(call, rest, seen);
      HandledOnce(call, seen);
      var first := Handled(call, seen);
      UnseenByFewer(rest, seen + Ids(call), seen + Ids(first));
      MissedIff(calls[1..], seen + Ids(first));
      HandledAndBehind(call, seen);
      IncomingJoin(call, rest);
      CandidatesJoin(first, AllHandled(calls[1..], seen + Ids(first)));
      SumsCompare(Announced(first), Behind(call),
                  Announced(AllHandled(calls[1..], seen + Ids(first))), Incoming(rest));
    }
  }

  lemma SumsCompare(first: seq<Candidate>, behind: seq<Candidate>, later: seq<Candidate>, rest: seq<Candidate>)
    requires |later| <= |rest|
    ensures |first + later| == |first + behind + rest| <==> behind == [] && |later| == |rest|
    ensures first + later == first + behind + rest <==> behind == [] && later == rest
  {
    if behind == [] {
      assert later == (first + later)[|first|..] && rest == (first + rest)[|first|..];
      assert first + behind == first;
    }
  }

  /** The peer is never given more than what the calls have to handle. */
  lemma {:induction false} GivenAtMostHandled(peer: Peer, s: State, calls: seq<seq<Event>>)
    requires QueueInv(peer, s)
    requires OnceEach(Concatenated(calls)) && Unseen(Concatenated(calls), s.processedSignalEventIds)
    ensures |Given(CallsApplied(peer, s, calls))|
         <= |Given(s)| + |Announced(AllHandled(calls, s.processedSignalEventIds))|
    decreases |calls|
  {
    hide QueueInv, LeadsTo, Refuses, EventsApplied, OffersSent, OnceEach, Unseen, Handled, Announced, Answered, Given;
    if calls != [] {
      var call, rest, seen := calls[0], Concatenated(calls[1..]), s.processedSignalEventIds;
      var first, mid := Handled(call, seen), EventsApplied(peer, s, call).s;
      EventsOutcome(peer, s, call);
      LeadsToGives(peer, s, mid, Announced(first));
      OnceEachSplits(call, rest, seen);
      HandledOnce(call, seen);
      UnseenByFewer(rest, seen + Ids(call), seen + Ids(first));
      UnseenByFewer(rest, seen + Ids(call), mid.processedSignalEventIds);
      GivenAtMostHandled(peer, mid, calls[1..]);
      AllHandledAnySeen(calls[1..], seen + Ids(first), mid.processedSignalEventIds);
      AnnouncedJoin(peer, first, AllHandled(calls[1..], seen + Ids(first)));
    }
  }

  /**
   The application polls for events behind the last one it has, also after a call that threw, so each event comes
   once. Then every candidate that comes in is applied or queued, once and in order, if and only if none stands behind
   a new offer that is not sent and, once an answer is accepted, the peer accepts them all.
   */
  lemma PolledCandidatesIff(peer: Peer, calls: seq<seq<Event>>)
    requires OnceEach(Concatenated(calls))
    ensures var t, all := CallsApplied(peer, OFFER_SENT, calls), Incoming(Concatenated(calls));
            Given(t) == all <==>
            NothingBehind(calls) && (Answered(peer, AllHandled(calls, {})) ==> AcceptsAll(peer, all))
  {
    hide OnceEach, AllHandled, Announced, Incoming, NothingBehind, Answered, CallsApplied, Concatenated;
    hide AcceptsAll, Given;
    assert Unseen(Concatenated(calls), {});
    MissedIff(calls, {});
    EveryCandidateOnceIff(peer, calls);
    OfferSentInv(peer);
    GivenAtMostHandled(peer, OFFER_SENT, calls);
  }

  lemma OfferSentInv(peer: Peer)
    ensures QueueInv(peer, OFFER_SENT) && Given(OFFER_SENT) == []
  {
  }

  // ---------------------------------------------------------------- offers and answers

  /** An answer counts only for an offer that is out, in scope and with a text the peer accepts, and uses the offer up. */
  lemma AnswerUsesOffer(peer: Peer, s: State, inScope: bool, sdp: string)
    ensures var r := PayloadApplied(peer, s, Answer(inScope, sdp));
            if s.haveLocalOffer && inScope && sdp != "" && peer.acceptsAnswer(sdp)
            then r.s.remoteDescription && !r.s.haveLocalOffer
            else r == Returned(s)
  {
    FlushLosesFromFirstRefusal(
      peer, s.(remoteDescription := true, haveLocalOffer := false, queuedCandidates := []), s.queuedCandidates);
  }

  /** A new offer is out as soon as it is set, also where sending it throws; a refused one leaves everything as it was. */
  lemma OfferIsOut(peer: Peer, s: State, e: Event)
    requires !Ignored(e, s.processedSignalEventIds) && e.kind.SwitchNetwork? && e.kind.valid
    ensures var r := EventApplied(peer, s, e);
            && (e.kind.offer.Refused? ==> r == Threw(s))
            && (e.kind.offer.SetOnly? ==> r == Threw(s.(haveLocalOffer := true)))
            && (e.kind.offer.Sent? ==> r == Returned(Processed(s.(haveLocalOffer := true), e.id)))
  {
  }

  // ---------------------------------------------------------------- what a refusal comes to

  /** An accepted answer keeps every queued candidate if and only if the peer accepts them all. */
  lemma AnswerKeepsQueueIff(peer: Peer, s: State, sdp: string)
    requires s.haveLocalOffer && sdp != "" && peer.acceptsAnswer(sdp)
    ensures var r := PayloadApplied(peer, s, Answer(true, sdp));
            && r.s.remoteDescription && r.s.queuedCandidates == []
            && (Given(r.s) == Given(s) <==> AcceptsAll(peer, s.queuedCandidates))
            && (r.Threw? <==> !AcceptsAll(peer, s.queuedCandidates))
  {
    var queue := s.queuedCandidates;
    var begun := s.(remoteDescription := true, haveLocalOffer := false, queuedCandidates := []);
    FlushLosesFromFirstRefusal(peer, begun, queue);
    NoneRefused(peer, queue);
    var k := FirstRefused(peer, queue);
    assert |begun.applied + queue[..k] + []| == |s.applied| + k;
    assert k == |queue| ==> queue[..k] == queue;
  }

  /** What an event has applied of its own: all that was applied but what was queued before. */
  function OwnApplied(s: State, t: State): seq<Candidate> {
    var before := |s.applied| + |s.queuedCandidates|;
    if before < |t.applied| then t.applied[before..] else []
  }

  lemma OwnAppliedIs(peer: Peer, s: State, t: State, cs: seq<Candidate>)
    requires LeadsTo(peer, s, t, cs)
    ensures OwnApplied(s, t) ==
            if t.remoteDescription && AcceptsAll(peer, s.queuedCandidates) then cs[..FirstRefused(peer, cs)] else []
  {
    hide FirstRefused;
    var queue := s.queuedCandidates;
    FirstRefusedJoin(peer, queue, cs);
    NoneRefused(peer, queue);
    if t.remoteDescription {
      if AcceptsAll(peer, queue) {
        FlushedStretches(peer, s.applied, queue, cs);
        assert t.applied[|s.applied| + |queue|..] == cs[..FirstRefused(peer, cs)];
      } else {
        assert |t.applied| <= |s.applied| + |queue|;
      }
    }
  }

  /**
   An event that threw is not marked, so it is handled once more when it comes again. Of its candidates, some are
   applied by both deliveries if and only if the first one threw, the peer accepts all that was queued before it, and
   it accepts the event's first candidate.
   */
  lemma RedeliveryIff(peer: Peer, s: State, e: Event)
    requires QueueFlushed(s)
    requires e.inbound && e.kind.Soac? && e.id !in s.processedSignalEventIds
    ensures var first := EventApplied(peer, s, e);
            var again := EventApplied(peer, first.s, e);
            var cs := CandidatesOf(e.kind.payloads);
            var once, twice := OwnApplied(s, first.s), OwnApplied(first.s, again.s);
            && once <= cs && twice <= cs
            && (first.Returned? ==> again == first)
            && (first.Threw? ==>
                  && twice == cs[..FirstRefused(peer, cs)] && again.s.applied == first.s.applied + twice
                  && (again.Threw? <==> !AcceptsAll(peer, cs)))
            && (once != [] && twice != [] <==>
                  first.Threw? && AcceptsAll(peer, s.queuedCandidates) && FirstRefused(peer, cs) > 0)
    ensures s.haveLocalOffer || s.remoteDescription ==>
              (EventApplied(peer, s, e).Threw? <==>
                 && (s.remoteDescription || AnswerIn(peer, e.kind.payloads))
                 && !AcceptsAll(peer, s.queuedCandidates + CandidatesOf(e.kind.payloads)))
  {
    hide EventApplied, LeadsTo, FirstRefused, CandidatesOf, AnswerIn, OwnApplied;
    var ps := e.kind.payloads;
    var cs, first := CandidatesOf(ps), EventApplied(peer, s, e);
    SoacOutcome(peer, s, e);
    OwnAppliedIs(peer, s, first.s, cs);
    NoneRefused(peer, s.queuedCandidates + cs);
    if first.Threw? {
      HandledAgain(peer, first.s, e);
    } else {
      MarkedIsIgnored(peer, first.s, e);
    }
  }

  /** The delivery of an event that is not marked, under any peer. */
  lemma SoacOutcome(peer: Peer, s: State, e: Event)
    requires QueueFlushed(s)
    requires e.inbound && e.kind.Soac? && e.id !in s.processedSignalEventIds
    ensures var r, cs := EventApplied(peer, s, e), CandidatesOf(e.kind.payloads);
            && LeadsTo(peer, s, r.s, cs) && (r.Threw? <==> Refuses(peer, s, r.s, cs)) && QueueFlushed(r.s)
            && (r.Returned? <==> e.id in r.s.processedSignalEventIds)
            && (s.haveLocalOffer || s.remoteDescription ==>
                  (r.s.remoteDescription <==> s.remoteDescription || AnswerIn(peer, e.kind.payloads)))
  {
    hide PayloadsApplied, FirstRefused, CandidatesOf, AnswerIn;
    PayloadsOutcome(peer, s, e.kind.payloads);
    if s.haveLocalOffer || s.remoteDescription {
      PayloadsAnswer(peer, s, e.kind.payloads);
    }
  }

  /** With a remote description the event's candidates are applied up to the first refusal. */
  lemma HandledAgain(peer: Peer, s: State, e: Event)
    requires s.remoteDescription && QueueFlushed(s)
    requires e.inbound && e.kind.Soac? && e.id !in s.processedSignalEventIds
    ensures var again, cs := EventApplied(peer, s, e), CandidatesOf(e.kind.payloads);
            && OwnApplied(s, again.s) == cs[..FirstRefused(peer, cs)]
            && again.s.applied == s.applied + OwnApplied(s, again.s)
            && (again.Threw? <==> !AcceptsAll(peer, cs))
  {
    hide EventApplied, FirstRefused, CandidatesOf, OwnApplied;
    var again, cs := EventApplied(peer, s, e), CandidatesOf(e.kind.payloads);
    SoacOutcome(peer, s, e);
    OwnAppliedIs(peer, s, again.s, cs);
    NoneRefused(peer, cs);
    assert s.queuedCandidates + cs == cs;
  }

  lemma MarkedIsIgnored(peer: Peer, s: State, e: Event)
    requires e.id in s.processedSignalEventIds
    ensures EventApplied(peer, s, e) == Returned(s) && OwnApplied(s, s) == []
  {
  }

  lemma OnePayload(peer: Peer, s: State, p: Payload)
    ensures PayloadsApplied(peer, s, [p]) == PayloadApplied(peer, s, p)
  {
    hide PayloadApplied;
    assert [p][1..] == [];
    var r := PayloadApplied(peer, s, p);
    assert r.Returned? ==> PayloadsApplied(peer, r.s, []) == Returned(r.s);
  }

  lemma TwoPayloads(peer: Peer, s: State, p: Payload, q: Payload)
    ensures PayloadsApplied(peer, s, [p, q]) ==
            match PayloadApplied(peer, s, p)
            case Threw(t) => Threw(t)
            case Returned(t) => PayloadApplied(peer, t, q)
  {
    hide PayloadApplied;
    assert [p, q][1..] == [q];
    var r := PayloadApplied(peer, s, p);
    if r.Returned? {
      OnePayload(peer, r.s, q);
    }
  }

  /** The refusal is reached: a candidate before the refused one is applied once for every delivery. */
  lemma RedeliveryDuplicates(peer: Peer, sdp: string, c: Candidate, d: Candidate)
    requires sdp != "" && c != "" && d != "" && peer.acceptsAnswer(sdp)
    requires peer.acceptsCandidate(c) && !peer.acceptsCandidate(d)
    ensures var answer := Event(1, true, Soac([Answer(true, sdp)]));
            var event := Event(2, true, Soac([RemoteCandidate(true, c), RemoteCandidate(true, d)]));
            var answered := EventApplied(peer, OFFER_SENT, answer).s;
            var once := EventApplied(peer, answered, event).s;
            once.applied == [c] && EventApplied(peer, once, event).s.applied == [c, c]
  {
    var p, q := RemoteCandidate(true, c), RemoteCandidate(true, d);
    OnePayload(peer, OFFER_SENT, Answer(true, sdp));
    var answered := EventApplied(peer, OFFER_SENT, Event(1, true, Soac([Answer(true, sdp)]))).s;
    TwoPayloads(peer, answered, p, q);
    var once := EventApplied(peer, answered, Event(2, true, Soac([p, q]))).s;
    TwoPayloads(peer, once, p, q);
  }

  /** So is a candidate behind a new offer that is not sent: the peer never gets it. */
  lemma MissIsReached(peer: Peer, c: Candidate)
    requires c != ""
    ensures var offer := Event(1, true, SwitchNetwork(true, Refused));
            var event := Event(2, true, Soac([RemoteCandidate(true, c)]));
            && Incoming([offer, event]) == [c]
            && Given(CallsApplied(peer, OFFER_SENT, [[offer, event]])) == []
  {
    var offer := Event(1, true, SwitchNetwork(true, Refused));
    var event := Event(2, true, Soac([RemoteCandidate(true, c)]));
    OneAnnounced(peer, RemoteCandidate(true, c));
    assert [offer, event][1..] == [event] && [event][1..] == [];
    assert [[offer, event]][1..] == [];
    assert EventsApplied(peer, OFFER_SENT, [offer, event]).s == OFFER_SENT;
    assert Incoming([event]) == [c] + Incoming([]);
    assert CallsApplied(peer, OFFER_SENT, []) == OFFER_SENT;
  }

  /** The loss is reached: a candidate that comes before the answer and is refused is gone after it. */
  lemma LossIsReached(peer: Peer, sdp: string, c: Candidate, d: Candidate)
    requires sdp != "" && c != "" && d != "" && peer.acceptsAnswer(sdp) && !peer.acceptsCandidate(c)
    ensures var early := Event(1, true, Soac([RemoteCandidate(true, c), RemoteCandidate(true, d)]));
            var answer := Event(2, true, Soac([Answer(true, sdp)]));
            var waiting := EventApplied(peer, OFFER_SENT, early).s;
            && waiting.queuedCandidates == [c, d]
            && EventApplied(peer, waiting, answer).Threw? && Given(EventApplied(peer, waiting, answer).s) == []
  {
    var p, q := RemoteCandidate(true, c), RemoteCandidate(true, d);
    TwoPayloads(peer, OFFER_SENT, p, q);
    var waiting := EventApplied(peer, OFFER_SENT, Event(1, true, Soac([p, q]))).s;
    OnePayload(peer, waiting, Answer(true, sdp));
    assert waiting.queuedCandidates == [c, d] && waiting.queuedCandidates[1..] == [d];
  }
}
