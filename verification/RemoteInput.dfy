/**
 Pointer moves under back-pressure, and the keys and buttons held on the remote side
 (frontend/src/remote/browserRemote/input.ts).

 The control channel may refuse any message and show any buffered amount at any time: how it answers is an
 arbitrary `Answers`, and everything below holds for all of them. Every message handed to the channel is on
 record in `attempts`. Every move carries the number of the request it came from.
 */
module RemoteInput {
  import opened Wrappers

  const STREAMER_MAX_DATA_BUFFER_BYTES := 0x8_0000
  const MOUSE_MOVE_BUFFERED_AMOUNT_LOW_THRESHOLD := STREAMER_MAX_DATA_BUFFER_BYTES / 4

  datatype Button = Primary | Secondary | Tertiary | Back | Forward | ButtonNumber(n: int)

  datatype Key = KeyText(s: string) | KeyNumber(n: int)

  datatype Action = Press | Release | Click

  datatype Message =
    | MoveTo(request: nat)
    | ButtonEvent(action: Action, button: int)
    | ScrollBy(x: int, y: int)
    | KeyEvent(action: Action, key: Key)
    | TextInput(content: string)

  function ButtonCode(button: Button): int {
    match button
    case Primary => 1
    case Secondary => 2
    case Tertiary => 4
    case Back => 8
    case Forward => 16
    case ButtonNumber(n) => n
  }

  /** Android key codes of the modifier keys, left and right. */
  const MODIFIER_KEY_CODES: set<int> := {57, 58, 59, 60, 113, 114, 117, 118}

  predicate IsModifier(key: Key) {
    key.KeyNumber? && key.n in MODIFIER_KEY_CODES
  }

  datatype Family = Alt | Control | Meta | Shift

  function FamilyOf(code: int): Option<Family> {
    if code == 57 || code == 58 then Some(Alt)
    else if code == 113 || code == 114 then Some(Control)
    else if code == 117 || code == 118 then Some(Meta)
    else if code == 59 || code == 60 then Some(Shift)
    else None
  }

  predicate IsOrphan(key: Key, down: set<Family>) {
    key.KeyNumber? && FamilyOf(key.n).Some? && FamilyOf(key.n).value !in down
  }

  /** How a key is named on the wire; none when the platform has no such key. */
  type Translation = Key -> Option<Key>

  // ---------------------------------------------------------------- the channel

  datatype Look = Look(open: bool, bufferedAmount: nat)

  /** Whether the channel takes the n-th message it is given, and what it shows at the n-th look. */
  datatype Answers = Answers(takes: nat -> bool, shows: nat -> Look)

  class ControlChannel {
    const answers: Answers
    var attempts: seq<Message>
    var sent: seq<Message>
    var looks: nat

    constructor (answers: Answers)
      ensures this.answers == answers && attempts == sent == [] && looks == 0
    {
      this.answers := answers;
      attempts, sent, looks := [], [], 0;
    }

    method Send(message: Message) returns (ok: bool)
      modifies `attempts, `sent
      ensures attempts == old(attempts) + [message] && ok == answers.takes(|old(attempts)|)
      ensures sent == if ok then old(sent) + [message] else old(sent)
    {
      ok := answers.takes(|attempts|);
      attempts := attempts + [message];
      if ok {
        sent := sent + [message];
      }
    }

    method LookAt() returns (look: Look)
      modifies `looks
      ensures look == answers.shows(old(looks)) && looks == old(looks) + 1
    {
      look := answers.shows(looks);
      looks := looks + 1;
    }
  }

  // ---------------------------------------------------------------- the operations

  datatype State = State(
    answers: Answers,
    translate: Translation,
    attempts: seq<Message>,          // every message handed to the channel
    sent: seq<Message>,              // those it has taken
    looks: nat,
    pending: Option<nat>,
    pendingCritical: Option<nat>,
    keys: seq<Key>,                  // held keys, in the order they were pressed
    buttons: seq<Button>,
    requests: nat,                   // move requests made so far
    lastCritical: Option<nat>,       // the latest critical request, unless pending moves were cleared since
    barriers: map<nat, nat>)         // for each click or scroll, by its position, the critical move it comes after
  {
    /** Whether the channel takes the next message. */
    predicate Takes() {
      answers.takes(|attempts|)
    }

    function Shown(): Look {
      answers.shows(looks)
    }

    function Looked(): State {
      this.(looks := looks + 1)
    }
  }

  /** An operation returns normally, or throws because the channel refused a message. */
  datatype Outcome = Outcome(s: State, ok: bool)

  function Tried(s: State, m: Message): Outcome {
    Outcome(s.(attempts := s.attempts + [m], sent := if s.Takes() then s.sent + [m] else s.sent), s.Takes())
  }

  function MovesCleared(s: State): State {
    s.(pending := None, pendingCritical := None, lastCritical := None)
  }

  /** The critical move is tried once, and stays pending exactly when it is refused. */
  function CriticalFlushed(s: State): Outcome {
    if s.pendingCritical.None? then Outcome(s, true)
    else
      var r := Tried(s, MoveTo(s.pendingCritical.value));
      Outcome(if r.ok then r.s.(pendingCritical := None) else r.s, r.ok)
  }

  /** A move while no critical move is pending. */
  function PlainMoved(s: State, request: nat): Outcome {
    if s.Shown().bufferedAmount >= STREAMER_MAX_DATA_BUFFER_BYTES
    then Outcome(s.Looked().(pending := Some(request)), true)
    else Tried(s.Looked().(pending := None), MoveTo(request))
  }

  function PendingFlushed(s: State): State {
    if s.pending.None? then s
    else if s.Shown().bufferedAmount > MOUSE_MOVE_BUFFERED_AMOUNT_LOW_THRESHOLD then s.Looked()
    else
      var r := PlainMoved(s.Looked().(pending := None), s.pending.value);
      if r.ok then r.s else r.s.Looked().(pending := if r.s.Shown().open then s.pending else None)
  }

  function MoveFlushed(s: State): State {
    if !s.Shown().open || s.Shown().bufferedAmount > MOUSE_MOVE_BUFFERED_AMOUNT_LOW_THRESHOLD then s.Looked()
    else
      var c := CriticalFlushed(s.Looked());
      if c.ok then PendingFlushed(c.s) else c.s
  }

  function MoveSent(s: State, request: nat, critical: bool): Outcome {
    if critical then
      CriticalFlushed(s.Looked().(pending := None, pendingCritical := Some(request), lastCritical := Some(request)))
    else if s.pendingCritical.Some? then Outcome(MoveFlushed(s.Looked().(pending := Some(request))), true)
    else PlainMoved(s, request)
  }

  function MoveRequested(s: State, critical: bool): Outcome {
    MoveSent(s.(requests := s.requests + 1), s.requests, critical)
  }

  function Barred(s: State): map<nat, nat> {
    if s.lastCritical.Some? then s.barriers[|s.sent| := s.lastCritical.value] else s.barriers
  }

  /** A click or scroll is tried only once the pending critical move has been taken. */
  function BehindCritical(s: State, m: Message): Outcome {
    var c := CriticalFlushed(s.(pending := None));
    if !c.ok then c
    else
      var r := Tried(c.s, m);
      Outcome(if r.ok then r.s.(barriers := Barred(c.s)) else r.s, r.ok)
  }

  function Removed<T(==,!new)>(held: seq<T>, x: T): (r: seq<T>)
    ensures |r| <= |held|
    ensures forall y :: y in r <==> y in held && y != x
  {
    if held == [] then [] else (if held[0] == x then [] else [held[0]]) + Removed(held[1..], x)
  }

  function HeldAfter<T(==,!new)>(held: seq<T>, action: Action, x: T): seq<T> {
    match action
    case Press => if x in held then held else held + [x]
    case Release => Removed(held, x)
    case Click => held
  }

  function ButtonSent(s: State, action: Action, button: Button): Outcome {
    var r := BehindCritical(s, ButtonEvent(action, ButtonCode(button)));
    if r.ok then r.(s := r.s.(buttons := HeldAfter(r.s.buttons, action, button))) else r
  }

  /** A click is a critical move, a press and a release; the first refusal ends it. */
  function Clicked(s: State, button: Button): Outcome {
    var moved := MoveRequested(s, true);
    if !moved.ok then moved
    else
      var pressed := ButtonSent(moved.s, Press, button);
      if !pressed.ok then pressed else ButtonSent(pressed.s, Release, button)
  }

  /** Keys without a name on the wire are skipped silently. */
  function KeyTried(s: State, action: Action, key: Key): Outcome {
    if s.translate(key).None? then Outcome(s, true) else Tried(s, KeyEvent(action, s.translate(key).value))
  }

  function KeySent(s: State, action: Action, key: Key): Outcome {
    var r := KeyTried(s, action, key);
    if r.ok && s.translate(key).Some? then r.(s := r.s.(keys := HeldAfter(r.s.keys, action, key))) else r
  }

  function TextSent(s: State, content: string): Outcome {
    if content == "" then Outcome(s, true) else Tried(s, TextInput(content))
  }

  function ButtonReleased(s: State, button: Button): State {
    var r := Tried(s, ButtonEvent(Release, ButtonCode(button)));
    if r.ok then r.s.(buttons := Removed(r.s.buttons, button)) else r.s
  }

  function ButtonsReleased(s: State, buttons: seq<Button>): State
    decreases |buttons|
  {
    if buttons == [] then s else ButtonsReleased(ButtonReleased(s, buttons[0]), buttons[1..])
  }

  function PlainKeyReleased(s: State, key: Key): State {
    var r := KeyTried(s, Release, key);
    if r.ok then r.s.(keys := Removed(r.s.keys, key)) else r.s
  }

  /** A modifier is pressed once more first, because the remote side ignores the release of a key it forgot. */
  function KeyReleased(s: State, key: Key): State {
    if !IsModifier(key) then PlainKeyReleased(s, key)
    else
      var pressed := KeyTried(s, Press, key);
      if pressed.ok then PlainKeyReleased(pressed.s, key) else pressed.s
  }

  function KeysReleased(s: State, keys: seq<Key>): State
    decreases |keys|
  {
    if keys == [] then s else KeysReleased(KeyReleased(s, keys[0]), keys[1..])
  }

  function AllReleased(s: State): State {
    KeysReleased(ButtonsReleased(MovesCleared(s), s.buttons), s.keys)
  }

  function OrphansReleased(s: State, keys: seq<Key>, down: set<Family>): State
    decreases |keys|
  {
    if keys == [] then s
    else OrphansReleased(if IsOrphan(keys[0], down) then PlainKeyReleased(s, keys[0]) else s, keys[1..], down)
  }

  // ---------------------------------------------------------------- the object

  class BrowserRemoteInput {
    const channel: ControlChannel
    const translate: Translation
    var pendingMouseMove: Option<nat>
    var pendingCriticalMouseMove: Option<nat>
    var heldKeyboardValues: seq<Key>
    var heldMouseButtons: seq<Button>
    var requests: nat
    ghost var lastCritical: Option<nat>
    ghost var barriers: map<nat, nat>

    ghost function View(): State
      reads this, channel
    {
      State(channel.answers, translate, channel.attempts, channel.sent, channel.looks, pendingMouseMove, pendingCriticalMouseMove,
            heldKeyboardValues, heldMouseButtons, requests, lastCritical, barriers)
    }

    constructor (answers: Answers, translate: Translation)
      ensures fresh(channel) && View() == NewInput(answers, translate)
    {
      this.translate := translate;
      channel := new ControlChannel(answers);
      pendingMouseMove, pendingCriticalMouseMove, heldKeyboardValues, heldMouseButtons := None, None, [], [];
      requests, lastCritical, barriers := 0, None, map[];
    }

    method ClearPendingPointerMoves()
      modifies `pendingMouseMove, `pendingCriticalMouseMove, `lastCritical
      ensures View() == MovesCleared(old(View()))
    {
      pendingMouseMove, pendingCriticalMouseMove, lastCritical := None, None, None;
    }

    method FlushPendingCriticalMouseMove() returns (ok: bool)
      modifies `pendingCriticalMouseMove, channel
      ensures Outcome(View(), ok) == CriticalFlushed(old(View()))
    {
      var pending := pendingCriticalMouseMove;
      if pending.None? {
        return true;
      }
      ok := channel.Send(MoveTo(pending.value));
      if ok {
        pendingCriticalMouseMove := None;
      }
    }

    /** A new move request. */
    method RequestMouseMove(critical: bool) returns (ok: bool)
      modifies this, channel
      ensures Outcome(View(), ok) == MoveRequested(old(View()), critical)
    {
      var request := requests;
      requests := requests + 1;
      ok := SendMouseMove(request, critical);
    }

    /**
     The recursion between this method and the flush below ends after one round: a move goes to the flush only
     while a critical move is pending, and the flush comes back only once that has been taken.
     */
    method SendMouseMove(request: nat, critical: bool) returns (ok: bool)
      modifies `pendingMouseMove, `pendingCriticalMouseMove, `lastCritical, channel
      ensures Outcome(View(), ok) == MoveSent(old(View()), request, critical)
      decreases if pendingCriticalMouseMove.Some? then 3 else 0
    {
      var look := channel.LookAt();
      if critical {
        pendingMouseMove := None;
        pendingCriticalMouseMove := Some(request);
        lastCritical := Some(request);
        ok := FlushPendingCriticalMouseMove();
        return;
      }
      if pendingCriticalMouseMove.Some? {
        pendingMouseMove := Some(request);
        FlushPendingMouseMove();
        return true;
      }
      if look.bufferedAmount >= STREAMER_MAX_DATA_BUFFER_BYTES {
        pendingMouseMove := Some(request);
        return true;
      }
      pendingMouseMove := None;
      ok := channel.Send(MoveTo(request));
    }

    method FlushPendingMouseMove()
      modifies `pendingMouseMove, `pendingCriticalMouseMove, `lastCritical, channel
      ensures View() == MoveFlushed(old(View()))
      decreases if pendingCriticalMouseMove.Some? then 2 else 1
    {
      CriticalFlushedOnce(View().Looked());
      hide CriticalFlushed, PlainMoved;
      ghost var begun := View();
      var look := channel.LookAt();
      assert View() == begun.Looked();
      if !look.open || look.bufferedAmount > MOUSE_MOVE_BUFFERED_AMOUNT_LOW_THRESHOLD {
        return;
      }
      if pendingCriticalMouseMove.Some? {
        var flushed := FlushPendingCriticalMouseMove();
        if !flushed {
          return;
        }
      }
      ghost var ready := View();
      assert MoveFlushed(begun) == PendingFlushed(ready);
      hide CriticalFlushed, PlainMoved, MoveFlushed, MoveSent;
      var pending := pendingMouseMove;
      if pending.None? {
        return;
      }
      look := channel.LookAt();
      assert View() == ready.Looked();
      if look.bufferedAmount > MOUSE_MOVE_BUFFERED_AMOUNT_LOW_THRESHOLD {
        return;
      }
      pendingMouseMove := None;
      PlainMovedDrops(View(), pending.value);
      var sent := SendMouseMove(pending.value, false);
      if !sent {
        look := channel.LookAt();
        if look.open {
          pendingMouseMove := pending;
        }
      }
    }

    /** Puts a click or scroll behind the pending critical move. */
    method SendBehindCriticalMove(message: Message) returns (ok: bool)
      modifies `pendingMouseMove, `pendingCriticalMouseMove, `barriers, channel
      ensures Outcome(View(), ok) == BehindCritical(old(View()), message)
    {
      pendingMouseMove := None;
      ok := FlushPendingCriticalMouseMove();
      if !ok {
        return;
      }
      ghost var barred := Barred(View());
      ok := channel.Send(message);
      if ok {
        barriers := barred;
      }
    }

    method SendMouseButton(action: Action, button: Button) returns (ok: bool)
      modifies this, channel
      ensures Outcome(View(), ok) == ButtonSent(old(View()), action, button)
    {
      ok := SendBehindCriticalMove(ButtonEvent(action, ButtonCode(button)));
      if !ok {
        return;
      }
      if action == Press {
        if button !in heldMouseButtons {
          heldMouseButtons := heldMouseButtons + [button];
        }
      } else if action == Release {
        heldMouseButtons := Removed(heldMouseButtons, button);
      }
    }

    method SendMouseScroll(x: int, y: int) returns (ok: bool)
      modifies this, channel
      ensures Outcome(View(), ok) == BehindCritical(old(View()), ScrollBy(x, y))
    {
      ok := SendBehindCriticalMove(ScrollBy(x, y));
    }

    method SendMouseClick(button: Button) returns (ok: bool)
      modifies this, channel
      ensures Outcome(View(), ok) == Clicked(old(View()), button)
    {
      hide MoveRequested, ButtonSent;
      ok := RequestMouseMove(true);
      if ok {
        ok := SendMouseButton(Press, button);
      }
      if ok {
        ok := SendMouseButton(Release, button);
      }
    }

    /** Sends a key event without touching the held keys. */
    method SendKey(action: Action, key: Key) returns (ok: bool)
      modifies channel
      ensures Outcome(View(), ok) == KeyTried(old(View()), action, key)
    {
      if translate(key).None? {
        return true;
      }
      ok := channel.Send(KeyEvent(action, translate(key).value));
    }

    method SendKeyboardInput(action: Action, key: Key) returns (ok: bool)
      modifies `heldKeyboardValues, channel
      ensures Outcome(View(), ok) == KeySent(old(View()), action, key)
    {
      ok := SendKey(action, key);
      if translate(key).None? || !ok {
        return;
      }
      if action == Press {
        if key !in heldKeyboardValues {
          heldKeyboardValues := heldKeyboardValues + [key];
        }
      } else if action == Release {
        heldKeyboardValues := Removed(heldKeyboardValues, key);
      }
    }

    method SendTextInput(content: string) returns (ok: bool)
      modifies channel
      ensures Outcome(View(), ok) == TextSent(old(View()), content)
    {
      if content == "" {
        return true;
      }
      ok := channel.Send(TextInput(content));
    }

    method ReleaseButton(button: Button)
      modifies `heldMouseButtons, channel
      ensures View() == ButtonReleased(old(View()), button)
    {
      var ok := channel.Send(ButtonEvent(Release, ButtonCode(button)));
      if ok {
        heldMouseButtons := Removed(heldMouseButtons, button);
      }
    }

    method ReleaseKey(key: Key)
      modifies `heldKeyboardValues, channel
      ensures View() == KeyReleased(old(View()), key)
    {
      var ok := true;
      if IsModifier(key) {
        ok := SendKey(Press, key);
      }
      if ok {
        ok := SendKey(Release, key);
        if ok {
          heldKeyboardValues := Removed(heldKeyboardValues, key);
        }
      }
    }

    method ReleaseAll()
      modifies this, channel
      ensures View() == AllReleased(old(View()))
    {
      hide ButtonReleased, KeyReleased;
      var buttons, keys := heldMouseButtons, heldKeyboardValues;
      ClearPendingPointerMoves();
      for i := 0 to |buttons|
        invariant ButtonsReleased(View(), buttons[i..]) == ButtonsReleased(MovesCleared(old(View())), buttons)
      {
        assert buttons[i..][1..] == buttons[i + 1..];
        ReleaseButton(buttons[i]);
      }
      for i := 0 to |keys|
        invariant KeysReleased(View(), keys[i..]) == AllReleased(old(View()))
      {
        assert keys[i..][1..] == keys[i + 1..];
        ReleaseKey(keys[i]);
      }
    }

    /** Releases held modifiers that the browser reports as up. */
    method ReleaseOrphanModifiers(down: set<Family>)
      modifies `heldKeyboardValues, channel
      ensures View() == OrphansReleased(old(View()), old(heldKeyboardValues), down)
    {
      hide IsOrphan;
      var keys := heldKeyboardValues;
      for i := 0 to |keys|
        invariant OrphansReleased(View(), keys[i..], down) == OrphansReleased(old(View()), keys, down)
      {
        assert keys[i..][1..] == keys[i + 1..];
        if IsOrphan(keys[i], down) {
          var ok := SendKey(Release, keys[i]);
          if ok {
            heldKeyboardValues := Removed(heldKeyboardValues, keys[i]);
          }
        }
      }
    }
  }

  lemma CriticalFlushedOnce(s: State)
    ensures s.pendingCritical.None? ==> CriticalFlushed(s) == Outcome(s, true)
    ensures CriticalFlushed(s).ok <==> CriticalFlushed(s).s.pendingCritical.None?
  {
  }

  lemma PlainMovedDrops(s: State, request: nat)
    ensures var r := PlainMoved(s, request); !r.ok ==> r.s.pending.None?
    ensures s.pendingCritical.None? ==> MoveSent(s, request, false) == PlainMoved(s, request)
  {
  }

  function NewInput(answers: Answers, translate: Translation): State {
    State(answers, translate, [], [], 0, None, None, [], [], 0, None, map[])
  }

  // ---------------------------------------------------------------- whole runs

  datatype Event =
    | MoveMade(critical: bool)
    | FlushMade
    | MovesDropped
    | ButtonUsed(action: Action, button: Button)
    | Scrolled(x: int, y: int)
    | ClickMade(button: Button)
    | KeyUsed(action: Action, key: Key)
    | TextTyped(content: string)
    | EverythingReleased
    | OrphansFound(down: set<Family>)

  function Step(s: State, e: Event): State {
    match e
    case MoveMade(critical) => MoveRequested(s, critical).s
    case FlushMade => MoveFlushed(s)
    case MovesDropped => MovesCleared(s)
    case ButtonUsed(action, button) => ButtonSent(s, action, button).s
    case Scrolled(x, y) => BehindCritical(s, ScrollBy(x, y)).s
    case ClickMade(button) => Clicked(s, button).s
    case KeyUsed(action, key) => KeySent(s, action, key).s
    case TextTyped(content) => TextSent(s, content).s
    case EverythingReleased => AllReleased(s)
    case OrphansFound(down) => OrphansReleased(s, s.keys, down)
  }

  function After(s: State, events: seq<Event>): State
    decreases |events|
  {
    if events == [] then s else After(Step(s, events[0]), events[1..])
  }

  // ---------------------------------------------------------------- the record of attempts

  /** The attempts that were taken, in order. */
  function Taken(takes: nat -> bool, attempts: seq<Message>): seq<Message> {
    if attempts == [] then []
    else
      var last := |attempts| - 1;
      Taken(takes, attempts[..last]) + (if takes(last) then [attempts[last]] else [])
  }

  /** What was sent is what was tried and taken. */
  ghost predicate OnRecord(s: State) {
    s.sent == Taken(s.answers.takes, s.attempts)
  }

  lemma TriedOnRecord(s: State, m: Message)
    requires OnRecord(s)
    ensures OnRecord(Tried(s, m).s)
  {
    assert (s.attempts + [m])[..|s.attempts|] == s.attempts;
  }

  lemma CriticalFlushedOnRecord(s: State)
    requires OnRecord(s)
    ensures OnRecord(CriticalFlushed(s).s)
  {
    hide Taken;
    if s.pendingCritical.Some? {
      TriedOnRecord(s, MoveTo(s.pendingCritical.value));
    }
  }

  lemma PlainMovedOnRecord(s: State, request: nat)
    requires OnRecord(s)
    ensures OnRecord(PlainMoved(s, request).s)
  {
    hide Taken;
    TriedOnRecord(s.Looked().(pending := None), MoveTo(request));
  }

  lemma MoveFlushedOnRecord(s: State)
    requires OnRecord(s)
    ensures OnRecord(MoveFlushed(s))
  {
    hide Taken, CriticalFlushed, PlainMoved;
    CriticalFlushedOnRecord(s.Looked());
    var c := CriticalFlushed(s.Looked());
    if c.s.pending.Some? {
      PlainMovedOnRecord(c.s.Looked().(pending := None), c.s.pending.value);
    }
  }

  lemma MoveRequestedOnRecord(s: State, critical: bool)
    requires OnRecord(s)
    ensures OnRecord(MoveRequested(s, critical).s)
  {
    hide Taken, CriticalFlushed, PlainMoved, MoveFlushed;
    var asked := s.(requests := s.requests + 1);
    if critical {
      CriticalFlushedOnRecord(
        asked.Looked().(pending := None, pendingCritical := Some(s.requests), lastCritical := Some(s.requests)));
    } else if s.pendingCritical.Some? {
      MoveFlushedOnRecord(asked.Looked().(pending := Some(s.requests)));
    } else {
      PlainMovedOnRecord(asked, s.requests);
    }
  }

  lemma BehindCriticalOnRecord(s: State, m: Message)
    requires OnRecord(s)
    ensures OnRecord(BehindCritical(s, m).s)
  {
    hide Taken, CriticalFlushed;
    CriticalFlushedOnRecord(s.(pending := None));
    TriedOnRecord(CriticalFlushed(s.(pending := None)).s, m);
  }

  lemma ButtonSentOnRecord(s: State, action: Action, button: Button)
    requires OnRecord(s)
    ensures OnRecord(ButtonSent(s, action, button).s)
  {
    hide Taken, BehindCritical;
    BehindCriticalOnRecord(s, ButtonEvent(action, ButtonCode(button)));
  }

  lemma KeyTriedOnRecord(s: State, action: Action, key: Key)
    requires OnRecord(s)
    ensures OnRecord(KeyTried(s, action, key).s)
  {
    hide Taken;
    if s.translate(key).Some? {
      TriedOnRecord(s, KeyEvent(action, s.translate(key).value));
    }
  }

  lemma {:induction false} ButtonsReleasedOnRecord(s: State, buttons: seq<Button>)
    requires OnRecord(s)
    ensures OnRecord(ButtonsReleased(s, buttons))
    decreases |buttons|
  {
    hide Taken;
    if buttons != [] {
      TriedOnRecord(s, ButtonEvent(Release, ButtonCode(buttons[0])));
      ButtonsReleasedOnRecord(ButtonReleased(s, buttons[0]), buttons[1..]);
    }
  }

  lemma {:induction false} KeysReleasedOnRecord(s: State, keys: seq<Key>)
    requires OnRecord(s)
    ensures OnRecord(KeysReleased(s, keys))
    decreases |keys|
  {
    hide Taken, KeyTried;
    if keys != [] {
      KeyTriedOnRecord(s, Press, keys[0]);
      KeyTriedOnRecord(s, Release, keys[0]);
      KeyTriedOnRecord(KeyTried(s, Press, keys[0]).s, Release, keys[0]);
      KeysReleasedOnRecord(KeyReleased(s, keys[0]), keys[1..]);
    }
  }

  lemma {:induction false} OrphansReleasedOnRecord(s: State, keys: seq<Key>, down: set<Family>)
    requires OnRecord(s)
    ensures OnRecord(OrphansReleased(s, keys, down))
    decreases |keys|
  {
    hide Taken, KeyTried;
    if keys != [] {
      KeyTriedOnRecord(s, Release, keys[0]);
      OrphansReleasedOnRecord(if IsOrphan(keys[0], down) then PlainKeyReleased(s, keys[0]) else s, keys[1..], down);
    }
  }

  lemma StepKeepsRecord(s: State, e: Event)
    requires OnRecord(s)
    ensures OnRecord(Step(s, e))
  {
    hide Taken, MoveRequested, MoveFlushed, ButtonSent, BehindCritical, KeyTried;
    hide KeysReleased, ButtonsReleased, OrphansReleased;
    match e
    case MoveMade(critical) => MoveRequestedOnRecord(s, critical);
    case FlushMade => MoveFlushedOnRecord(s);
    case MovesDropped =>
    case ButtonUsed(action, button) => ButtonSentOnRecord(s, action, button);
    case Scrolled(x, y) => BehindCriticalOnRecord(s, ScrollBy(x, y));
    case ClickMade(button) =>
      MoveRequestedOnRecord(s, true);
      var moved := MoveRequested(s, true);
      ButtonSentOnRecord(moved.s, Press, button);
      ButtonSentOnRecord(ButtonSent(moved.s, Press, button).s, Release, button);
    case KeyUsed(action, key) => KeyTriedOnRecord(s, action, key);
    case TextTyped(content) => TriedOnRecord(s, TextInput(content));
    case EverythingReleased =>
      ButtonsReleasedOnRecord(MovesCleared(s), s.buttons);
      KeysReleasedOnRecord(ButtonsReleased(MovesCleared(s), s.buttons), s.keys);
    case OrphansFound(down) => OrphansReleasedOnRecord(s, s.keys, down);
  }

  /** Over every run, under every channel, what was sent is exactly the attempts the channel took, in order. */
  lemma {:induction false} RunKeepsRecord(s: State, events: seq<Event>)
    requires OnRecord(s)
    ensures OnRecord(After(s, events))
    decreases |events|
  {
    hide OnRecord, Step;
    if events != [] {
      StepKeepsRecord(s, events[0]);
      RunKeepsRecord(Step(s, events[0]), events[1..]);
    }
  }

  // ---------------------------------------------------------------- the order of pointer moves

  /** Moves are sent in the order they were requested, each at most once. */
  ghost predicate MovesInOrder(sent: seq<Message>) {
    forall i, j | 0 <= i < j < |sent| && sent[i].MoveTo? && sent[j].MoveTo? :: sent[i].request < sent[j].request
  }

  ghost predicate SentBelow(sent: seq<Message>, bound: nat) {
    forall i | 0 <= i < |sent| && sent[i].MoveTo? :: sent[i].request < bound
  }

  /** Every click or scroll on record stands behind its critical move. */
  ghost predicate BarriersKept(sent: seq<Message>, barriers: map<nat, nat>) {
    forall j <- barriers ::
      j < |sent| && (sent[j].ButtonEvent? || sent[j].ScrollBy?) && MoveTo(barriers[j]) in sent[..j]
  }

  ghost predicate InOrder(s: State) {
    && MovesInOrder(s.sent) && SentBelow(s.sent, s.requests) && BarriersKept(s.sent, s.barriers)
    && (s.pending.Some? ==> s.pending.value < s.requests && SentBelow(s.sent, s.pending.value))
    && (s.pendingCritical.Some? ==>
          && s.pendingCritical == s.lastCritical && s.pendingCritical.value < s.requests
          && SentBelow(s.sent, s.pendingCritical.value))
    && (s.pending.Some? && s.pendingCritical.Some? ==> s.pendingCritical.value < s.pending.value)
    && (s.lastCritical.Some? && s.pendingCritical.None? ==> MoveTo(s.lastCritical.value) in s.sent)
  }

  /** A request that may still be sent or held: newer than everything sent and than the pending critical move. */
  ghost predicate Newer(s: State, request: nat) {
    && request < s.requests && SentBelow(s.sent, request)
    && (s.pendingCritical.Some? ==> s.pendingCritical.value < request)
  }

  lemma BarriersStay(sent: seq<Message>, barriers: map<nat, nat>, m: Message)
    requires BarriersKept(sent, barriers)
    ensures BarriersKept(sent + [m], barriers)
  {
    forall j <- barriers
      ensures MoveTo(barriers[j]) in (sent + [m])[..j]
    {
      assert (sent + [m])[..j] == sent[..j];
    }
  }

  lemma CriticalFlushedInOrder(s: State)
    requires InOrder(s)
    ensures var r := CriticalFlushed(s);
            && InOrder(r.s) && (r.ok <==> r.s.pendingCritical.None?) && r.s.pending == s.pending
            && forall request | Newer(s, request) :: Newer(r.s, request)
  {
    if s.pendingCritical.Some? {
      var m := MoveTo(s.pendingCritical.value);
      BarriersStay(s.sent, s.barriers, m);
      assert (s.sent + [m])[|s.sent|] == m;
    }
  }

  lemma PlainMovedInOrder(s: State, request: nat)
    requires InOrder(s) && s.pendingCritical.None? && Newer(s, request)
    ensures var r := PlainMoved(s, request);
            InOrder(r.s) && r.s.pendingCritical.None? && (!r.ok ==> Newer(r.s, request))
  {
    BarriersStay(s.sent, s.barriers, MoveTo(request));
    assert forall m <- s.sent :: m in s.sent + [MoveTo(request)];
  }

  lemma MoveFlushedInOrder(s: State)
    requires InOrder(s)
    ensures InOrder(MoveFlushed(s))
  {
    hide CriticalFlushed, PlainMoved;
    assert InOrder(s.Looked());
    CriticalFlushedInOrder(s.Looked());
    var c := CriticalFlushed(s.Looked());
    if c.ok && c.s.pending.Some? {
      var cleared := c.s.Looked().(pending := None);
      assert InOrder(cleared) && Newer(cleared, c.s.pending.value);
      PlainMovedInOrder(cleared, c.s.pending.value);
    }
  }

  /** Whatever the channel refuses or holds back, a move request keeps the moves in the order of their requests. */
  lemma MoveRequestedInOrder(s: State, critical: bool)
    requires InOrder(s)
    ensures InOrder(MoveRequested(s, critical).s)
  {
    hide CriticalFlushed, PlainMoved, MoveFlushed;
    var asked := s.(requests := s.requests + 1);
    assert InOrder(asked) && Newer(asked, s.requests);
    if critical {
      CriticalFlushedInOrder(
        asked.Looked().(pending := None, pendingCritical := Some(s.requests), lastCritical := Some(s.requests)));
    } else if s.pendingCritical.Some? {
      MoveFlushedInOrder(asked.Looked().(pending := Some(s.requests)));
    } else {
      PlainMovedInOrder(asked, s.requests);
    }
  }

  lemma OtherInOrder(s: State, m: Message)
    requires InOrder(s) && !m.MoveTo?
    ensures InOrder(Tried(s, m).s)
  {
    BarriersStay(s.sent, s.barriers, m);
    assert forall x <- s.sent :: x in s.sent + [m];
  }

  /** A click or scroll that is sent comes after the latest critical move that was not cleared. */
  lemma BehindCriticalInOrder(s: State, m: Message)
    requires InOrder(s) && (m.ButtonEvent? || m.ScrollBy?)
    ensures var r := BehindCritical(s, m);
            && InOrder(r.s)
            && (r.ok && s.lastCritical.Some? ==>
                  && r.s.sent != [] && r.s.sent[|r.s.sent| - 1] == m
                  && MoveTo(s.lastCritical.value) in r.s.sent[..|r.s.sent| - 1])
  {
    hide CriticalFlushed;
    var cleared := s.(pending := None);
    CriticalFlushedInOrder(cleared);
    CriticalKept(cleared);
    var c := CriticalFlushed(cleared);
    if c.ok {
      OtherInOrder(c.s, m);
      assert (c.s.sent + [m])[..|c.s.sent|] == c.s.sent;
    }
  }

  lemma CriticalKept(s: State)
    ensures CriticalFlushed(s).s.lastCritical == s.lastCritical
  {
  }

  lemma {:induction false} ButtonsReleasedInOrder(s: State, buttons: seq<Button>)
    requires InOrder(s)
    ensures InOrder(ButtonsReleased(s, buttons))
    decreases |buttons|
  {
    if buttons != [] {
      OtherInOrder(s, ButtonEvent(Release, ButtonCode(buttons[0])));
      ButtonsReleasedInOrder(ButtonReleased(s, buttons[0]), buttons[1..]);
    }
  }

  lemma KeyTriedInOrder(s: State, action: Action, key: Key)
    requires InOrder(s)
    ensures InOrder(KeyTried(s, action, key).s)
  {
    hide InOrder;
    if s.translate(key).Some? {
      OtherInOrder(s, KeyEvent(action, s.translate(key).value));
    }
  }

  lemma PlainKeyReleasedInOrder(s: State, key: Key)
    requires InOrder(s)
    ensures InOrder(PlainKeyReleased(s, key))
  {
    KeyTriedInOrder(s, Release, key);
  }

  lemma {:induction false} KeysReleasedInOrder(s: State, keys: seq<Key>)
    requires InOrder(s)
    ensures InOrder(KeysReleased(s, keys))
    decreases |keys|
  {
    hide InOrder, PlainKeyReleased, KeyTried;
    if keys != [] {
      KeyTriedInOrder(s, Press, keys[0]);
      PlainKeyReleasedInOrder(s, keys[0]);
      PlainKeyReleasedInOrder(KeyTried(s, Press, keys[0]).s, keys[0]);
      KeysReleasedInOrder(KeyReleased(s, keys[0]), keys[1..]);
    }
  }

  lemma {:induction false} OrphansReleasedInOrder(s: State, keys: seq<Key>, down: set<Family>)
    requires InOrder(s)
    ensures InOrder(OrphansReleased(s, keys, down))
    decreases |keys|
  {
    hide InOrder, PlainKeyReleased;
    if keys != [] {
      PlainKeyReleasedInOrder(s, keys[0]);
      OrphansReleasedInOrder(if IsOrphan(keys[0], down) then PlainKeyReleased(s, keys[0]) else s, keys[1..], down);
    }
  }

  lemma ButtonSentInOrder(s: State, action: Action, button: Button)
    requires InOrder(s)
    ensures InOrder(ButtonSent(s, action, button).s)
  {
    hide BehindCritical;
    BehindCriticalInOrder(s, ButtonEvent(action, ButtonCode(button)));
  }

  lemma StepKeepsOrder(s: State, e: Event)
    requires InOrder(s)
    ensures InOrder(Step(s, e))
  {
    hide InOrder, MoveRequested, MoveFlushed, ButtonSent, BehindCritical, KeysReleased, ButtonsReleased, OrphansReleased;
    match e
    case MoveMade(critical) => MoveRequestedInOrder(s, critical);
    case FlushMade => MoveFlushedInOrder(s);
    case MovesDropped => ClearedInOrder(s);
    case ButtonUsed(action, button) => ButtonSentInOrder(s, action, button);
    case Scrolled(x, y) => BehindCriticalInOrder(s, ScrollBy(x, y));
    case ClickMade(button) =>
      MoveRequestedInOrder(s, true);
      var moved := MoveRequested(s, true);
      ButtonSentInOrder(moved.s, Press, button);
      ButtonSentInOrder(ButtonSent(moved.s, Press, button).s, Release, button);
    case KeyUsed(action, key) => KeySentInOrder(s, action, key);
    case TextTyped(content) => OtherInOrder(s, TextInput(content));
    case EverythingReleased =>
      ClearedInOrder(s);
      ButtonsReleasedInOrder(MovesCleared(s), s.buttons);
      KeysReleasedInOrder(ButtonsReleased(MovesCleared(s), s.buttons), s.keys);
    case OrphansFound(down) => OrphansReleasedInOrder(s, s.keys, down);
  }

  lemma ClearedInOrder(s: State)
    requires InOrder(s)
    ensures InOrder(MovesCleared(s))
  {
  }

  lemma KeySentInOrder(s: State, action: Action, key: Key)
    requires InOrder(s)
    ensures InOrder(KeySent(s, action, key).s)
  {
    KeyTriedInOrder(s, action, key);
  }

  /** Over every run, under every channel, sent moves are in the order of their requests and no barrier is passed. */
  lemma {:induction false} RunKeepsOrder(s: State, events: seq<Event>)
    requires InOrder(s)
    ensures InOrder(After(s, events))
    decreases |events|
  {
    hide InOrder, Step;
    if events != [] {
      StepKeepsOrder(s, events[0]);
      RunKeepsOrder(Step(s, events[0]), events[1..]);
    }
  }

  // ---------------------------------------------------------------- what the remote side sees

  /** The buttons the remote side has seen go down and not up again. */
  function PressedButtons(sent: seq<Message>): set<int> {
    if sent == [] then {}
    else
      var before, last := PressedButtons(sent[..|sent| - 1]), sent[|sent| - 1];
      if !last.ButtonEvent? then before
      else match last.action
        case Press => before + {last.button}
        case Release => before - {last.button}
        case Click => before
  }

  function PressedKeys(sent: seq<Message>): set<Key> {
    if sent == [] then {}
    else
      var before, last := PressedKeys(sent[..|sent| - 1]), sent[|sent| - 1];
      if !last.KeyEvent? then before
      else match last.action
        case Press => before + {last.key}
        case Release => before - {last.key}
        case Click => before
  }

  lemma PressedAfter(sent: seq<Message>, m: Message)
    ensures PressedButtons(sent + [m]) ==
            if m.ButtonEvent? && m.action == Press then PressedButtons(sent) + {m.button}
            else if m.ButtonEvent? && m.action == Release then PressedButtons(sent) - {m.button}
            else PressedButtons(sent)
    ensures PressedKeys(sent + [m]) ==
            if m.KeyEvent? && m.action == Press then PressedKeys(sent) + {m.key}
            else if m.KeyEvent? && m.action == Release then PressedKeys(sent) - {m.key}
            else PressedKeys(sent)
  {
    assert (sent + [m])[..|sent|] == sent;
  }

  predicate Distinct<T(==)>(held: seq<T>) {
    forall i, j | 0 <= i < j < |held| :: held[i] != held[j]
  }

  ghost predicate KeyCovered(translate: Translation, keys: seq<Key>, k: Key) {
    exists h :: h in keys && translate(h) == Some(k)
  }

  ghost predicate ButtonCovered(buttons: seq<Button>, code: int) {
    exists b :: b in buttons && ButtonCode(b) == code
  }

  ghost predicate KeysCover(s: State) {
    && (forall k <- PressedKeys(s.sent) :: KeyCovered(s.translate, s.keys, k))
    && (forall h <- s.keys :: s.translate(h).Some?)
    && Distinct(s.keys)
  }

  ghost predicate ButtonsCover(s: State) {
    && (forall code <- PressedButtons(s.sent) :: ButtonCovered(s.buttons, code))
    && Distinct(s.buttons)
  }

  /** Everything pressed remotely is held locally, and everything held has a name on the wire. */
  ghost predicate Covers(s: State) {
    KeysCover(s) && ButtonsCover(s)
  }

  lemma HeldStaysDistinct<T(!new)>(held: seq<T>, action: Action, x: T)
    requires Distinct(held)
    ensures Distinct(HeldAfter(held, action, x))
  {
    if action == Release {
      RemovedStaysDistinct(held, x);
    }
  }

  lemma {:induction false} RemovedStaysDistinct<T(!new)>(held: seq<T>, x: T)
    requires Distinct(held)
    ensures Distinct(Removed(held, x))
  {
    if held != [] {
      RemovedStaysDistinct(held[1..], x);
      if held[0] != x {
        assert Removed(held, x) == [held[0]] + Removed(held[1..], x);
        assert held[0] !in held[1..];
      }
    }
  }

  /** A message that is neither a key nor a button event changes nothing there. */
  lemma OtherCovered(s: State, m: Message)
    requires Covers(s) && !m.KeyEvent? && !m.ButtonEvent?
    ensures Covers(Tried(s, m).s)
  {
    hide PressedKeys, PressedButtons;
    PressedAfter(s.sent, m);
  }

  /** A button event that is taken, together with the change of the held buttons, keeps the cover. */
  lemma ButtonCoveredAfter(s: State, action: Action, button: Button)
    requires Covers(s)
    ensures var r := Tried(s, ButtonEvent(action, ButtonCode(button)));
            Covers(if r.ok then r.s.(buttons := HeldAfter(s.buttons, action, button)) else r.s)
  {
    hide PressedKeys, PressedButtons, ButtonCode, Distinct;
    var m := ButtonEvent(action, ButtonCode(button));
    PressedAfter(s.sent, m);
    HeldStaysDistinct(s.buttons, action, button);
    if s.Takes() {
      var held := HeldAfter(s.buttons, action, button);
      forall code <- PressedButtons(s.sent + [m])
        ensures ButtonCovered(held, code)
      {
        if code == ButtonCode(button) && action == Press {
          assert button in held;
        } else {
          var b :| b in s.buttons && ButtonCode(b) == code;
          assert b in held;
        }
      }
    }
  }

  /** The same for a key event with a name on the wire. */
  lemma KeyCoveredAfter(s: State, action: Action, key: Key)
    requires Covers(s) && s.translate(key).Some?
    ensures var r := Tried(s, KeyEvent(action, s.translate(key).value));
            Covers(if r.ok then r.s.(keys := HeldAfter(s.keys, action, key)) else r.s)
  {
    hide PressedKeys, PressedButtons, Distinct;
    var m := KeyEvent(action, s.translate(key).value);
    PressedAfter(s.sent, m);
    HeldStaysDistinct(s.keys, action, key);
    if s.Takes() {
      var held := HeldAfter(s.keys, action, key);
      forall k <- PressedKeys(s.sent + [m])
        ensures KeyCovered(s.translate, held, k)
      {
        if k == m.key && action == Press {
          assert key in held;
        } else {
          var h :| h in s.keys && s.translate(h) == Some(k);
          assert h in held;
        }
      }
    }
  }

  lemma CriticalFlushedCovers(s: State)
    requires Covers(s)
    ensures Covers(CriticalFlushed(s).s)
  {
    hide PressedKeys, PressedButtons, Distinct;
    if s.pendingCritical.Some? {
      OtherCovered(s, MoveTo(s.pendingCritical.value));
    }
  }

  lemma PlainMovedCovers(s: State, request: nat)
    requires Covers(s)
    ensures Covers(PlainMoved(s, request).s)
  {
    hide PressedKeys, PressedButtons, Distinct;
    OtherCovered(s.Looked().(pending := None), MoveTo(request));
  }

  lemma MoveFlushedCovers(s: State)
    requires Covers(s)
    ensures Covers(MoveFlushed(s))
  {
    hide PressedKeys, PressedButtons, Distinct, CriticalFlushed, PlainMoved;
    CriticalFlushedCovers(s.Looked());
    var c := CriticalFlushed(s.Looked());
    if c.s.pending.Some? {
      PlainMovedCovers(c.s.Looked().(pending := None), c.s.pending.value);
    }
  }

  lemma MoveRequestedCovers(s: State, critical: bool)
    requires Covers(s)
    ensures Covers(MoveRequested(s, critical).s)
  {
    hide PressedKeys, PressedButtons, Distinct, CriticalFlushed, PlainMoved, MoveFlushed;
    var asked := s.(requests := s.requests + 1);
    if critical {
      CriticalFlushedCovers(
        asked.Looked().(pending := None, pendingCritical := Some(s.requests), lastCritical := Some(s.requests)));
    } else if s.pendingCritical.Some? {
      MoveFlushedCovers(asked.Looked().(pending := Some(s.requests)));
    } else {
      PlainMovedCovers(asked, s.requests);
    }
  }

  /** What a flush of the critical move leaves alone. */
  lemma CriticalFlushedKeepsHeld(s: State)
    ensures var r := CriticalFlushed(s); r.s.keys == s.keys && r.s.buttons == s.buttons
  {
  }

  lemma ButtonSentCovers(s: State, action: Action, button: Button)
    requires Covers(s)
    ensures Covers(ButtonSent(s, action, button).s)
  {
    hide PressedKeys, PressedButtons, Distinct, CriticalFlushed;
    var cleared := s.(pending := None);
    CriticalFlushedCovers(cleared);
    CriticalFlushedKeepsHeld(cleared);
    ButtonCoveredAfter(CriticalFlushed(cleared).s, action, button);
  }

  lemma ScrolledCovers(s: State, x: int, y: int)
    requires Covers(s)
    ensures Covers(BehindCritical(s, ScrollBy(x, y)).s)
  {
    hide PressedKeys, PressedButtons, Distinct, CriticalFlushed;
    var cleared := s.(pending := None);
    CriticalFlushedCovers(cleared);
    OtherCovered(CriticalFlushed(cleared).s, ScrollBy(x, y));
  }

  lemma KeySentCovers(s: State, action: Action, key: Key)
    requires Covers(s)
    ensures Covers(KeySent(s, action, key).s)
  {
    hide Covers;
    if s.translate(key).Some? {
      KeyCoveredAfter(s, action, key);
    }
  }

  lemma {:induction false} ButtonsReleasedCovers(s: State, buttons: seq<Button>)
    requires Covers(s)
    ensures Covers(ButtonsReleased(s, buttons))
    decreases |buttons|
  {
    hide Covers;
    if buttons != [] {
      ButtonCoveredAfter(s, Release, buttons[0]);
      ButtonsReleasedCovers(ButtonReleased(s, buttons[0]), buttons[1..]);
    }
  }

  lemma PlainKeyReleasedCovers(s: State, key: Key)
    requires Covers(s) && s.translate(key).Some?
    ensures Covers(PlainKeyReleased(s, key))
  {
    hide Covers;
    KeyCoveredAfter(s, Release, key);
  }

  /** Pressing a held key once more changes nothing in the cover. */
  lemma PressedAgainCovers(s: State, key: Key)
    requires Covers(s) && key in s.keys
    ensures Covers(KeyTried(s, Press, key).s)
  {
    hide PressedKeys, PressedButtons, Distinct;
    KeyCoveredAfter(s, Press, key);
  }

  lemma KeyReleasedCovers(s: State, key: Key)
    requires Covers(s) && key in s.keys
    ensures Covers(KeyReleased(s, key))
  {
    assert s.translate(key).Some?;
    hide Covers, PlainKeyReleased;
    PlainKeyReleasedCovers(s, key);
    PressedAgainCovers(s, key);
    PlainKeyReleasedCovers(KeyTried(s, Press, key).s, key);
  }

  /** Releasing one key lets go of no other. */
  lemma KeyReleasedKeeps(s: State, key: Key)
    ensures var t := KeyReleased(s, key);
            && t.translate == s.translate && t.answers == s.answers && t.buttons == s.buttons
            && forall k :: k in t.keys ==> k in s.keys
    ensures forall k :: k in s.keys && k != key ==> k in KeyReleased(s, key).keys
  {
  }

  lemma {:induction false} KeysReleasedCovers(s: State, keys: seq<Key>)
    requires Covers(s) && Distinct(keys) && forall k <- keys :: k in s.keys
    ensures Covers(KeysReleased(s, keys))
    decreases |keys|
  {
    hide Covers, KeyReleased;
    if keys != [] {
      KeyReleasedCovers(s, keys[0]);
      KeyReleasedKeeps(s, keys[0]);
      KeysReleasedCovers(KeyReleased(s, keys[0]), keys[1..]);
    }
  }

  lemma {:induction false} OrphansReleasedCovers(s: State, keys: seq<Key>, down: set<Family>)
    requires Covers(s) && forall k <- keys :: s.translate(k).Some?
    ensures Covers(OrphansReleased(s, keys, down))
    decreases |keys|
  {
    hide Covers, IsOrphan;
    if keys != [] {
      assert keys[0] in keys && forall k <- keys[1..] :: k in keys;
      PlainKeyReleasedCovers(s, keys[0]);
      OrphansReleasedCovers(if IsOrphan(keys[0], down) then PlainKeyReleased(s, keys[0]) else s, keys[1..], down);
    }
  }

  lemma {:induction false} ButtonsReleasedKeepsKeys(s: State, buttons: seq<Button>)
    ensures ButtonsReleased(s, buttons).keys == s.keys
    decreases |buttons|
  {
    if buttons != [] {
      ButtonsReleasedKeepsKeys(ButtonReleased(s, buttons[0]), buttons[1..]);
    }
  }

  lemma AllReleasedCovers(s: State)
    requires Covers(s)
    ensures Covers(AllReleased(s))
  {
    hide KeysReleased, ButtonsReleased, PressedKeys, PressedButtons;
    assert Covers(MovesCleared(s));
    ButtonsReleasedCovers(MovesCleared(s), s.buttons);
    ButtonsReleasedKeepsKeys(MovesCleared(s), s.buttons);
    KeysReleasedCovers(ButtonsReleased(MovesCleared(s), s.buttons), s.keys);
  }

  lemma StepKeepsCover(s: State, e: Event)
    requires Covers(s)
    ensures Covers(Step(s, e))
  {
    assert Covers(MovesCleared(s)) && forall k <- s.keys :: s.translate(k).Some?;
    hide Covers, MoveRequested, MoveFlushed, ButtonSent, BehindCritical, AllReleased, OrphansReleased, KeySent;
    match e
    case MoveMade(critical) => MoveRequestedCovers(s, critical);
    case FlushMade => MoveFlushedCovers(s);
    case MovesDropped =>
    case ButtonUsed(action, button) => ButtonSentCovers(s, action, button);
    case Scrolled(x, y) => ScrolledCovers(s, x, y);
    case ClickMade(button) =>
      MoveRequestedCovers(s, true);
      var moved := MoveRequested(s, true);
      ButtonSentCovers(moved.s, Press, button);
      ButtonSentCovers(ButtonSent(moved.s, Press, button).s, Release, button);
    case KeyUsed(action, key) => KeySentCovers(s, action, key);
    case TextTyped(content) => OtherCovered(s, TextInput(content));
    case EverythingReleased => AllReleasedCovers(s);
    case OrphansFound(down) => OrphansReleasedCovers(s, s.keys, down);
  }

  lemma {:induction false} RunKeepsCover(s: State, events: seq<Event>)
    requires Covers(s)
    ensures Covers(After(s, events))
    decreases |events|
  {
    hide Covers, Step;
    if events != [] {
      StepKeepsCover(s, events[0]);
      RunKeepsCover(Step(s, events[0]), events[1..]);
    }
  }

  // ---------------------------------------------------------------- what a release comes to

  function ButtonReleases(buttons: seq<Button>): (r: seq<Message>)
    ensures |r| == |buttons|
  {
    if buttons == [] then [] else [ButtonEvent(Release, ButtonCode(buttons[0]))] + ButtonReleases(buttons[1..])
  }

  predicate Refused(s: State, n: nat) {
    !s.answers.takes(n)
  }

  lemma ButtonReleasedExactly(s: State, button: Button)
    requires button in s.buttons
    ensures var t := ButtonReleased(s, button);
            && t == s.(sent := t.sent, attempts := s.attempts + [ButtonEvent(Release, ButtonCode(button))], buttons := t.buttons)
            && (button in t.buttons <==> Refused(s, |s.attempts|))
            && (forall b | b != button :: b in t.buttons <==> b in s.buttons)
  {
  }

  /** The given buttons were tried once each, in order, and stay held exactly when their own attempt was refused. */
  ghost predicate ButtonsTried(s: State, buttons: seq<Button>, t: State) {
    && t == s.(sent := t.sent, attempts := s.attempts + ButtonReleases(buttons), buttons := t.buttons)
    && (forall i | 0 <= i < |buttons| :: buttons[i] in t.buttons <==> Refused(s, |s.attempts| + i))
    && (forall b | b !in buttons :: b in t.buttons <==> b in s.buttons)
  }

  lemma ButtonsTriedStep(s: State, first: Button, next: State, rest: seq<Button>, t: State)
    requires first in s.buttons && first !in rest
    requires next == ButtonReleased(s, first) && ButtonsTried(next, rest, t)
    ensures ButtonsTried(s, [first] + rest, t)
  {
    hide ButtonReleased, ButtonCode, Refused, ButtonReleases;
    var all := [first] + rest;
    assert all[0] == first && all[1..] == rest;
    ButtonReleasedExactly(s, first);
    ButtonReleasesFirst(first, rest);
    assert s.attempts + ButtonReleases(all) == next.attempts + ButtonReleases(rest);
    forall i | 0 <= i < |all|
      ensures all[i] in t.buttons <==> Refused(s, |s.attempts| + i)
    {
      if i > 0 {
        assert all[i] == rest[i - 1];
        SameRefusal(s, next, |s.attempts| + i);
      }
    }
    assert forall b | b !in all :: b !in rest && b != first;
  }

  lemma ButtonReleasesFirst(first: Button, rest: seq<Button>)
    ensures ButtonReleases([first] + rest) == [ButtonEvent(Release, ButtonCode(first))] + ButtonReleases(rest)
  {
    assert ([first] + rest)[1..] == rest;
  }

  lemma {:induction false} ButtonsReleasedExactly(s: State, buttons: seq<Button>)
    requires Distinct(buttons) && forall b <- buttons :: b in s.buttons
    ensures ButtonsTried(s, buttons, ButtonsReleased(s, buttons))
    decreases |buttons|
  {
    hide ButtonReleased, ButtonCode, Refused, ButtonsTried;
    if buttons == [] {
      NoButtonsTried(s);
    } else {
      var first, rest := buttons[0], buttons[1..];
      var next := ButtonReleased(s, first);
      assert first in buttons && first !in rest && [first] + rest == buttons;
      ButtonReleasedExactly(s, first);
      ButtonsReleasedExactly(next, rest);
      ButtonsTriedStep(s, first, next, rest, ButtonsReleased(next, rest));
    }
  }

  lemma NoButtonsTried(s: State)
    ensures ButtonsTried(s, [], s)
  {
    assert s.attempts + [] == s.attempts;
  }

  lemma SameRefusal(s: State, t: State, n: nat)
    requires t.answers == s.answers
    ensures Refused(t, n) == Refused(s, n)
  {
  }

  /** What is tried for one key when its turn comes at the n-th attempt. */
  function KeyTries(s: State, key: Key, n: nat): seq<Message> {
    var name := if s.translate(key).Some? then s.translate(key).value else key;
    if !IsModifier(key) then [KeyEvent(Release, name)]
    else if s.answers.takes(n) then [KeyEvent(Press, name), KeyEvent(Release, name)]
    else [KeyEvent(Press, name)]
  }

  /** The last thing tried for a key is refused. */
  predicate KeyRefused(s: State, key: Key, n: nat) {
    Refused(s, n) || (IsModifier(key) && Refused(s, n + 1))
  }

  /** All that is tried for the keys from the n-th attempt on. */
  function KeysTries(s: State, keys: seq<Key>, n: nat): seq<Message>
    decreases |keys|
  {
    if keys == [] then []
    else KeyTries(s, keys[0], n) + KeysTries(s, keys[1..], n + |KeyTries(s, keys[0], n)|)
  }

  /** The attempt with which the turn of the i-th key begins. */
  function TurnOf(s: State, keys: seq<Key>, i: nat, n: nat): nat
    requires i < |keys|
  {
    if i == 0 then n else TurnOf(s, keys[1..], i - 1, n + |KeyTries(s, keys[0], n)|)
  }

  lemma KeyReleasedExactly(s: State, key: Key)
    requires s.translate(key).Some? && key in s.keys
    ensures var t := KeyReleased(s, key);
            && t == s.(sent := t.sent, attempts := s.attempts + KeyTries(s, key, |s.attempts|), keys := t.keys)
            && (key in t.keys <==> KeyRefused(s, key, |s.attempts|))
            && (forall k | k != key :: k in t.keys <==> k in s.keys)
  {
    var name := s.translate(key).value;
    assert s.attempts + [KeyEvent(Press, name)] + [KeyEvent(Release, name)]
        == s.attempts + [KeyEvent(Press, name), KeyEvent(Release, name)];
  }

  /** Every key has its turn, in order, and stays held exactly when something tried in its own turn is refused. */
  lemma {:induction false} KeysReleasedExactly(s: State, keys: seq<Key>)
    requires Distinct(keys) && forall k <- keys :: k in s.keys && s.translate(k).Some?
    ensures var t := KeysReleased(s, keys);
            && t == s.(sent := t.sent, attempts := s.attempts + KeysTries(s, keys, |s.attempts|), keys := t.keys)
            && (forall i | 0 <= i < |keys| ::
                  keys[i] in t.keys <==> KeyRefused(s, keys[i], TurnOf(s, keys, i, |s.attempts|)))
            && (forall k | k !in keys :: k in t.keys <==> k in s.keys)
    decreases |keys|
  {
    hide KeyReleased, KeyTries, KeyRefused;
    if keys == [] {
      assert s.attempts + [] == s.attempts;
    } else {
      var first, rest := keys[0], keys[1..];
      var next := KeyReleased(s, first);
      assert first in keys && first !in rest;
      KeyReleasedExactly(s, first);
      KeysReleasedExactly(next, rest);
      var n := |s.attempts|;
      SameTries(s, next, rest, |next.attempts|);
      SameKeyRefused(s, next);
      assert s.attempts + KeysTries(s, keys, n) == next.attempts + KeysTries(next, rest, |next.attempts|);
      forall i | 0 <= i < |keys|
        ensures keys[i] in KeysReleased(s, keys).keys <==> KeyRefused(s, keys[i], TurnOf(s, keys, i, n))
      {
        if i > 0 {
          assert keys[i] == rest[i - 1];
          SameTurn(s, next, rest, i - 1, |next.attempts|);
        }
      }
    }
  }

  /** Turns and tries depend on the answers and the platform only. */
  lemma {:induction false} SameTries(s: State, t: State, keys: seq<Key>, n: nat)
    requires t.answers == s.answers && t.translate == s.translate
    ensures KeysTries(t, keys, n) == KeysTries(s, keys, n)
    decreases |keys|
  {
    hide IsModifier;
    if keys != [] {
      assert KeyTries(t, keys[0], n) == KeyTries(s, keys[0], n);
      SameTries(s, t, keys[1..], n + |KeyTries(s, keys[0], n)|);
    }
  }

  lemma SameKeyRefused(s: State, t: State)
    requires t.answers == s.answers
    ensures forall k: Key, m: nat :: KeyRefused(t, k, m) == KeyRefused(s, k, m)
  {
  }

  lemma {:induction false} SameTurn(s: State, t: State, keys: seq<Key>, i: nat, n: nat)
    requires t.answers == s.answers && t.translate == s.translate && i < |keys|
    ensures TurnOf(t, keys, i, n) == TurnOf(s, keys, i, n)
    decreases i
  {
    if i > 0 {
      SameTurn(s, t, keys[1..], i - 1, n + |KeyTries(s, keys[0], n)|);
    }
  }

  /** What stands at a key's turn among all that is tried. */
  lemma {:induction false} TurnHasTries(s: State, keys: seq<Key>, i: nat, n: nat)
    requires i < |keys|
    ensures var turn := TurnOf(s, keys, i, n);
            var all, own := KeysTries(s, keys, n), KeyTries(s, keys[i], turn);
            n <= turn && turn - n + |own| <= |all| && all[turn - n..turn - n + |own|] == own
    decreases i
  {
    hide KeyTries;
    if i == 0 {
      assert KeysTries(s, keys, n)[..|KeyTries(s, keys[0], n)|] == KeyTries(s, keys[0], n);
    } else {
      var first := KeyTries(s, keys[0], n);
      var rest, turn := KeysTries(s, keys[1..], n + |first|), TurnOf(s, keys, i, n);
      TurnHasTries(s, keys[1..], i - 1, n + |first|);
      assert KeysTries(s, keys, n) == first + rest;
      SliceBehind(first, rest, turn - n - |first|, |KeyTries(s, keys[i], turn)|);
    }
  }

  lemma SliceBehind(first: seq<Message>, rest: seq<Message>, at: nat, size: nat)
    requires at + size <= |rest|
    ensures (first + rest)[|first| + at..|first| + at + size] == rest[at..at + size]
  {
  }

  /**
   `releaseAll` tries the release of every held button and then of every held key, a modifier's press first, each
   once and nothing else; an entry stays held if and only if something tried in its own turn was refused.
   */
  lemma ReleaseAllExactly(s: State)
    requires Covers(s)
    ensures var t, n := AllReleased(s), |s.attempts| + |s.buttons|;
            && t == MovesCleared(s).(
                 sent := t.sent, attempts := s.attempts + ButtonReleases(s.buttons) + KeysTries(s, s.keys, n),
                 buttons := t.buttons, keys := t.keys)
            && (forall i | 0 <= i < |s.buttons| :: s.buttons[i] in t.buttons <==> Refused(s, |s.attempts| + i))
            && (forall i | 0 <= i < |s.keys| ::
                  s.keys[i] in t.keys <==> KeyRefused(s, s.keys[i], TurnOf(s, s.keys, i, n)))
            && (forall b <- t.buttons :: b in s.buttons) && (forall k <- t.keys :: k in s.keys)
  {
    hide ButtonsReleased, KeysReleased, ButtonReleases, KeysTries, KeyRefused, PressedKeys, PressedButtons, TurnOf;
    var cleared, n := MovesCleared(s), |s.attempts| + |s.buttons|;
    ButtonsReleasedExactly(cleared, s.buttons);
    var u := ButtonsReleased(cleared, s.buttons);
    KeysReleasedExactly(u, s.keys);
    SameTries(s, u, s.keys, n);
    SameKeyRefused(s, u);
    forall i | 0 <= i < |s.keys|
      ensures TurnOf(u, s.keys, i, n) == TurnOf(s, s.keys, i, n)
    {
      SameTurn(s, u, s.keys, i, n);
    }
  }

  /** The channel takes every message from the n-th attempt up to the m-th. */
  ghost predicate NoneRefused(s: State, n: nat, m: nat) {
    forall i: nat | n <= i < m :: !Refused(s, i)
  }

  lemma NothingHeldIff(s: State)
    requires Covers(s)
    ensures var t, n := AllReleased(s), |s.attempts| + |s.buttons|;
            && (t.buttons == [] <==> NoneRefused(s, |s.attempts|, n))
            && (t.keys == [] <==> NoneRefused(s, n, |t.attempts|))
  {
    hide AllReleased, PressedKeys, PressedButtons, Refused, KeysTries, ButtonReleases, KeyRefused, TurnOf;
    ReleaseAllExactly(s);
    var t, n := AllReleased(s), |s.attempts| + |s.buttons|;
    AttemptsTakenIff(s, s.keys, n);
    assert |t.attempts| == n + |KeysTries(s, s.keys, n)|;
    if t.buttons != [] {
      assert t.buttons[0] in s.buttons;
      var i :| 0 <= i < |s.buttons| && s.buttons[i] == t.buttons[0];
      assert Refused(s, |s.attempts| + i);
    } else {
      forall j: nat | |s.attempts| <= j < n
        ensures !Refused(s, j)
      {
        assert s.buttons[j - |s.attempts|] !in t.buttons && |s.attempts| + (j - |s.attempts|) == j;
      }
    }
    if t.keys != [] {
      assert t.keys[0] in s.keys;
      var i :| 0 <= i < |s.keys| && s.keys[i] == t.keys[0];
      assert KeyRefused(s, s.keys[i], TurnOf(s, s.keys, i, n));
    }
  }

  /** With nothing refused, both sides end up empty; and only then does nothing stay held. */
  lemma ReleaseAllEmptiesIff(s: State)
    requires Covers(s)
    ensures var t := AllReleased(s);
            && (t.buttons == [] && t.keys == [] <==> NoneRefused(s, |s.attempts|, |t.attempts|))
            && (t.buttons == [] ==> PressedButtons(t.sent) == {})
            && (t.keys == [] ==> PressedKeys(t.sent) == {})
  {
    hide AllReleased, PressedKeys, PressedButtons, Refused, KeysTries, ButtonReleases;
    ReleaseAllExactly(s);
    NothingHeldIff(s);
    AllReleasedCovers(s);
    NothingHeldNothingPressed(AllReleased(s));
  }

  lemma NothingHeldNothingPressed(s: State)
    requires Covers(s)
    ensures s.buttons == [] ==> PressedButtons(s.sent) == {}
    ensures s.keys == [] ==> PressedKeys(s.sent) == {}
  {
    hide PressedKeys, PressedButtons;
    var buttons, keys := PressedButtons(s.sent), PressedKeys(s.sent);
    forall code | code in buttons
      ensures code in set b <- s.buttons :: ButtonCode(b)
    {
      assert ButtonCovered(s.buttons, code);
    }
    assert buttons <= set b <- s.buttons :: ButtonCode(b);
    if keys != {} {
      var k :| k in keys;
      assert KeyCovered(s.translate, s.keys, k);
    }
  }

  lemma {:induction false} AttemptsTakenIff(s: State, keys: seq<Key>, n: nat)
    ensures (forall i | 0 <= i < |keys| :: !KeyRefused(s, keys[i], TurnOf(s, keys, i, n)))
            <==> NoneRefused(s, n, n + |KeysTries(s, keys, n)|)
    decreases |keys|
  {
    hide KeyTries, KeyRefused, Refused;
    if keys != [] {
      var own := KeyTries(s, keys[0], n);
      var rest, m := keys[1..], n + |own|;
      AttemptsTakenIff(s, rest, m);
      OwnTakenIff(s, keys[0], n);
      assert TurnOf(s, keys, 0, n) == n;
      if forall i | 0 <= i < |keys| :: !KeyRefused(s, keys[i], TurnOf(s, keys, i, n)) {
        forall i | 0 <= i < |rest|
          ensures !KeyRefused(s, rest[i], TurnOf(s, rest, i, m))
        {
          assert !KeyRefused(s, keys[i + 1], TurnOf(s, keys, i + 1, n));
        }
      }
      forall i | 0 < i < |keys|
        ensures keys[i] == rest[i - 1] && TurnOf(s, keys, i, n) == TurnOf(s, rest, i - 1, m)
      {
      }
    }
  }

  lemma OwnTakenIff(s: State, key: Key, n: nat)
    ensures !KeyRefused(s, key, n) <==> NoneRefused(s, n, n + |KeyTries(s, key, n)|)
  {
    assert Refused(s, n) || !Refused(s, n + 1) || Refused(s, n + 1);
  }

  function Orphans(keys: seq<Key>, down: set<Family>): seq<Key> {
    if keys == [] then []
    else (if IsOrphan(keys[0], down) then [keys[0]] else []) + Orphans(keys[1..], down)
  }

  function OrphanReleases(s: State, orphans: seq<Key>): (r: seq<Message>)
    ensures |r| == |orphans|
  {
    if orphans == [] then []
    else
      [KeyEvent(Release, if s.translate(orphans[0]).Some? then s.translate(orphans[0]).value else orphans[0])]
      + OrphanReleases(s, orphans[1..])
  }

  lemma {:induction false} OrphansAreHeld(keys: seq<Key>, down: set<Family>)
    ensures forall k :: k in Orphans(keys, down) <==> k in keys && IsOrphan(k, down)
  {
    if keys != [] {
      OrphansAreHeld(keys[1..], down);
    }
  }

  lemma OrphanReleasedExactly(s: State, key: Key)
    requires s.translate(key).Some? && key in s.keys
    ensures var t := PlainKeyReleased(s, key);
            && t == s.(sent := t.sent, attempts := s.attempts + [KeyEvent(Release, s.translate(key).value)], keys := t.keys)
            && (key in t.keys <==> Refused(s, |s.attempts|))
            && (forall k | k != key :: k in t.keys <==> k in s.keys)
  {
  }

  /** The given keys were tried once each, in order, and let go unless their own attempt was refused. */
  ghost predicate OrphansTried(s: State, orphans: seq<Key>, t: State) {
    && t == s.(sent := t.sent, attempts := s.attempts + OrphanReleases(s, orphans), keys := t.keys)
    && (forall i | 0 <= i < |orphans| :: orphans[i] in t.keys <==> Refused(s, |s.attempts| + i))
    && (forall k | k !in orphans :: k in t.keys <==> k in s.keys)
  }

  lemma OrphansTriedStep(s: State, first: Key, next: State, orphans: seq<Key>, t: State)
    requires s.translate(first).Some? && first in s.keys && first !in orphans
    requires next == PlainKeyReleased(s, first) && OrphansTried(next, orphans, t)
    ensures OrphansTried(s, [first] + orphans, t)
  {
    hide PlainKeyReleased, Refused, OrphanReleases;
    var all := [first] + orphans;
    assert all[0] == first && all[1..] == orphans;
    OrphanReleasedExactly(s, first);
    OrphanReleasesSame(s, next, orphans);
    OrphanReleasesFirst(s, first, orphans);
    assert s.attempts + OrphanReleases(s, all) == next.attempts + OrphanReleases(s, orphans);
    forall i | 0 <= i < |all|
      ensures all[i] in t.keys <==> Refused(s, |s.attempts| + i)
    {
      if i > 0 {
        assert all[i] == orphans[i - 1];
        SameRefusal(s, next, |s.attempts| + i);
      }
    }
    assert forall k | k !in all :: k !in orphans && k != first;
  }

  lemma OrphanReleasesFirst(s: State, first: Key, orphans: seq<Key>)
    requires s.translate(first).Some?
    ensures OrphanReleases(s, [first] + orphans)
         == [KeyEvent(Release, s.translate(first).value)] + OrphanReleases(s, orphans)
  {
    assert ([first] + orphans)[1..] == orphans;
  }

  /** `releaseOrphanModifiers` tries exactly the orphans among the keys. */
  lemma {:induction false} OrphansReleasedExactly(s: State, keys: seq<Key>, down: set<Family>)
    requires Distinct(keys) && forall k <- keys :: k in s.keys && s.translate(k).Some?
    ensures OrphansTried(s, Orphans(keys, down), OrphansReleased(s, keys, down))
    decreases |keys|
  {
    hide IsOrphan, PlainKeyReleased, Refused, OrphansTried;
    if keys == [] {
      NoOrphansTried(s);
    } else {
      var first, rest := keys[0], keys[1..];
      assert first in keys && first !in rest;
      OrphansAreHeld(rest, down);
      if IsOrphan(first, down) {
        var next := PlainKeyReleased(s, first);
        OrphanReleasedExactly(s, first);
        OrphansReleasedExactly(next, rest, down);
        OrphansTriedStep(s, first, next, Orphans(rest, down), OrphansReleased(next, rest, down));
      } else {
        OrphansReleasedExactly(s, rest, down);
        assert Orphans(keys, down) == Orphans(rest, down);
      }
    }
  }

  lemma NoOrphansTried(s: State)
    ensures OrphansTried(s, [], s)
  {
    assert s.attempts + [] == s.attempts;
  }

  lemma {:induction false} OrphanReleasesSame(s: State, t: State, orphans: seq<Key>)
    requires t.translate == s.translate
    ensures OrphanReleases(t, orphans) == OrphanReleases(s, orphans)
  {
    if orphans != [] {
      OrphanReleasesSame(s, t, orphans[1..]);
    }
  }

  // ---------------------------------------------------------------- nothing asked for is forgotten

  /** The request has been tried or is still pending. */
  ghost predicate Kept(s: State, latest: Option<nat>) {
    latest.Some? ==> MoveTo(latest.value) in s.attempts || s.pending == latest || s.pendingCritical == latest
  }

  /** The latest move request since pending moves were last dropped: by a clear, a release of all, a click or a scroll. */
  function LatestAfter(s: State, e: Event, latest: Option<nat>): Option<nat> {
    match e
    case MoveMade(_) => Some(s.requests)
    case ClickMade(_) => Some(s.requests)
    case MovesDropped => None
    case ButtonUsed(_, _) => None
    case Scrolled(_, _) => None
    case EverythingReleased => None
    case _ => latest
  }

  function LatestIn(s: State, events: seq<Event>, latest: Option<nat>): Option<nat>
    decreases |events|
  {
    if events == [] then latest else LatestIn(Step(s, events[0]), events[1..], LatestAfter(s, events[0], latest))
  }

  lemma CriticalFlushedKeeps(s: State, latest: Option<nat>)
    requires Kept(s, latest)
    ensures Kept(CriticalFlushed(s).s, latest) && s.attempts <= CriticalFlushed(s).s.attempts
  {
  }

  lemma PlainMovedKeeps(s: State, request: nat)
    ensures Kept(PlainMoved(s, request).s, Some(request)) && s.attempts <= PlainMoved(s, request).s.attempts
    ensures PlainMoved(s, request).s.pendingCritical == s.pendingCritical
  {
  }

  lemma MoveFlushedKeeps(s: State, latest: Option<nat>)
    requires Kept(s, latest)
    ensures Kept(MoveFlushed(s), latest) && s.attempts <= MoveFlushed(s).attempts
  {
    hide CriticalFlushed, PlainMoved;
    CriticalFlushedKeeps(s.Looked(), latest);
    var c := CriticalFlushed(s.Looked());
    if c.s.pending.Some? {
      var begun := c.s.Looked().(pending := None);
      PlainMovedKeeps(begun, c.s.pending.value);
      PlainMovedDrops(begun, c.s.pending.value);
      assert forall m <- c.s.attempts :: m in PlainMoved(begun, c.s.pending.value).s.attempts;
    }
  }

  lemma MoveRequestedKeeps(s: State, critical: bool)
    ensures Kept(MoveRequested(s, critical).s, Some(s.requests))
  {
    hide CriticalFlushed, PlainMoved, MoveFlushed;
    var asked, latest := s.(requests := s.requests + 1), Some(s.requests);
    if critical {
      CriticalFlushedKeeps(asked.Looked().(pending := None, pendingCritical := latest, lastCritical := latest), latest);
    } else if s.pendingCritical.Some? {
      MoveFlushedKeeps(asked.Looked().(pending := latest), latest);
    } else {
      PlainMovedKeeps(asked, s.requests);
    }
  }

  /** A button event leaves the attempts before it and the critical move that is still pending alone. */
  lemma ButtonSentKeeps(s: State, action: Action, button: Button, request: nat)
    requires MoveTo(request) in s.attempts
    ensures MoveTo(request) in ButtonSent(s, action, button).s.attempts
  {
  }

  lemma ClickedKeeps(s: State, button: Button)
    ensures Kept(Clicked(s, button).s, Some(s.requests))
  {
    hide ButtonSent;
    var moved := MoveRequested(s, true);
    assert MoveTo(s.requests) in moved.s.attempts;
    if moved.ok {
      ButtonSentKeeps(moved.s, Press, button, s.requests);
      ButtonSentKeeps(ButtonSent(moved.s, Press, button).s, Release, button, s.requests);
    }
  }

  lemma {:induction false} OrphansReleasedKeeps(s: State, keys: seq<Key>, down: set<Family>, latest: Option<nat>)
    requires Kept(s, latest)
    ensures Kept(OrphansReleased(s, keys, down), latest)
    decreases |keys|
  {
    hide IsOrphan;
    if keys != [] {
      OrphansReleasedKeeps(if IsOrphan(keys[0], down) then PlainKeyReleased(s, keys[0]) else s, keys[1..], down, latest);
    }
  }

  lemma StepKeepsLatest(s: State, e: Event, latest: Option<nat>)
    requires Kept(s, latest)
    ensures Kept(Step(s, e), LatestAfter(s, e, latest))
  {
    hide MoveRequested, MoveFlushed, ButtonSent, Clicked, BehindCritical, AllReleased, OrphansReleased;
    match e
    case MoveMade(critical) => MoveRequestedKeeps(s, critical);
    case FlushMade => MoveFlushedKeeps(s, latest);
    case ClickMade(button) => ClickedKeeps(s, button);
    case OrphansFound(down) => OrphansReleasedKeeps(s, s.keys, down, latest);
    case _ =>
  }

  /** Over every run, under every channel, the latest move request is tried or still pending unless it was dropped. */
  lemma {:induction false} RunKeepsLatest(s: State, events: seq<Event>, latest: Option<nat>)
    requires Kept(s, latest)
    ensures Kept(After(s, events), LatestIn(s, events, latest))
    decreases |events|
  {
    hide Kept, Step, LatestAfter;
    if events != [] {
      StepKeepsLatest(s, events[0], latest);
      RunKeepsLatest(Step(s, events[0]), events[1..], LatestAfter(s, events[0], latest));
    }
  }

  /**
   When a request is tried: a critical one at once, and it is pending exactly when it is refused; any other one, with no
   critical one before it, at once if and only if the channel shows room, and otherwise it is pending.
   */
  lemma MoveIsTriedIff(s: State, critical: bool)
    requires critical || s.pendingCritical.None?
    ensures var r := MoveRequested(s, critical);
            var tried := critical || s.Shown().bufferedAmount < STREAMER_MAX_DATA_BUFFER_BYTES;
            && r.s.requests == s.requests + 1
            && r.s.attempts == (if tried then s.attempts + [MoveTo(s.requests)] else s.attempts)
            && (r.ok <==> !tried || s.Takes())
            && r.s.pending == (if tried then None else Some(s.requests))
            && r.s.pendingCritical == if critical && !s.Takes() then Some(s.requests) else None
  {
  }

  /** The channel is open and has nothing buffered from here on. */
  ghost predicate Idle(s: State) {
    forall n: nat | s.looks <= n :: s.answers.shows(n).open && s.answers.shows(n).bufferedAmount == 0
  }

  function OptionalMove(request: Option<nat>): seq<Message> {
    if request.Some? then [MoveTo(request.value)] else []
  }

  /** On an idle channel a flush tries the pending critical move and, once that is taken, the other pending one. */
  lemma IdleFlushTriesAll(s: State)
    requires Idle(s)
    ensures var t := MoveFlushed(s);
            var critical := OptionalMove(s.pendingCritical);
            var blocked := s.pendingCritical.Some? && !s.Takes();
            && t.attempts == s.attempts + critical + (if blocked then [] else OptionalMove(s.pending))
            && (blocked ==> t.pending == s.pending && t.pendingCritical == s.pendingCritical)
            && (!blocked ==> t.pendingCritical.None?)
            && (!blocked && (s.pending.None? || s.answers.takes(|s.attempts| + |critical|)) ==> t.pending.None?)
  {
    var c := CriticalFlushed(s.Looked());
    assert s.attempts + [] == s.attempts;
  }

  /**
   When a flush tries what is pending. The channel must be open and below the low threshold for anything; then the
   critical move is tried, and once that is taken the other one if the channel still shows room. One that is refused
   stays pending while the channel is open.
   */
  lemma FlushTriesIff(s: State)
    ensures var t, first := MoveFlushed(s), s.Shown();
            var ready := first.open && first.bufferedAmount <= MOUSE_MOVE_BUFFERED_AMOUNT_LOW_THRESHOLD;
            var critical := OptionalMove(s.pendingCritical);
            var blocked := s.pendingCritical.Some? && !s.Takes();
            var room :=
              && s.pending.Some?
              && s.answers.shows(s.looks + 1).bufferedAmount <= MOUSE_MOVE_BUFFERED_AMOUNT_LOW_THRESHOLD
              && s.answers.shows(s.looks + 2).bufferedAmount < STREAMER_MAX_DATA_BUFFER_BYTES;
            && (!ready ==> t == s.Looked())
            && (ready ==>
                  && t.attempts == s.attempts + critical + (if !blocked && room then OptionalMove(s.pending) else [])
                  && (t.pendingCritical.Some? <==> blocked)
                  && (blocked || !room ==> t.pending == s.pending)
                  && (!blocked && room ==>
                        t.pending == if s.answers.takes(|s.attempts| + |critical|) then None
                                     else if s.answers.shows(s.looks + 3).open then s.pending else None))
  {
    assert s.attempts + [] == s.attempts;
  }

  /** A clear forgets both pending moves, and tries nothing. */
  lemma ClearForgets(s: State)
    ensures var t := Step(s, MovesDropped);
            && t.pending.None? && t.pendingCritical.None? && t.attempts == s.attempts && t.sent == s.sent
            && t.keys == s.keys && t.buttons == s.buttons
  {
  }

  /** A move behind a pending critical one goes out with it on an idle channel that takes both. */
  lemma IdleMoveTriesAll(s: State)
    requires Idle(s) && s.pendingCritical.Some? && s.Takes()
    ensures var r := MoveRequested(s, false);
            r.ok && r.s.attempts == s.attempts + [MoveTo(s.pendingCritical.value)] + [MoveTo(s.requests)]
  {
    hide MoveFlushed;
    IdleFlushTriesAll(s.(requests := s.requests + 1).Looked().(pending := Some(s.requests)));
  }

  /** A click or scroll: the pending critical move is tried first, and then, unless that is refused, the message. */
  lemma BehindCriticalTries(s: State, m: Message)
    ensures var r := BehindCritical(s, m);
            var critical := OptionalMove(s.pendingCritical);
            var blocked := s.pendingCritical.Some? && !s.Takes();
            && r.s.attempts == s.attempts + critical + (if blocked then [] else [m])
            && (r.ok <==> !blocked && s.answers.takes(|s.attempts| + |critical|))
            && r.s.pending.None? && (r.s.pendingCritical.Some? <==> blocked)
            && (r.ok && s.lastCritical.Some? ==>
                  |r.s.sent| > 0 && r.s.barriers == s.barriers[|r.s.sent| - 1 := s.lastCritical.value])
  {
    assert s.attempts + [] == s.attempts;
  }

  /** Every input is tried, and what is held changes exactly when it is taken. */
  lemma InputIsTried(s: State, e: Event)
    requires e.ButtonUsed? || e.Scrolled? || e.KeyUsed? || e.TextTyped?
    ensures match e
            case ButtonUsed(action, button) =>
              var r, b := ButtonSent(s, action, button), BehindCritical(s, ButtonEvent(action, ButtonCode(button)));
              && r.s.attempts == b.s.attempts && r.ok == b.ok && Step(s, e) == r.s
              && (if r.ok then HeldChanges(s.buttons, r.s.buttons, action, button) else r.s.buttons == s.buttons)
            case Scrolled(x, y) => Step(s, e) == BehindCritical(s, ScrollBy(x, y)).s
            case KeyUsed(action, key) =>
              var t, named := Step(s, e), s.translate(key).Some?;
              && t.attempts == s.attempts + (if named then [KeyEvent(action, s.translate(key).value)] else [])
              && (KeySent(s, action, key).ok <==> !named || s.Takes())
              && (if named && s.Takes() then HeldChanges(s.keys, t.keys, action, key) else t.keys == s.keys)
            case TextTyped(content) =>
              && Step(s, e).attempts == s.attempts + (if content == "" then [] else [TextInput(content)])
              && (TextSent(s, content).ok <==> content == "" || s.Takes())
            case _ => true
  {
    hide BehindCritical;
    assert s.attempts + [] == s.attempts;
    if e.ButtonUsed? {
      BehindCriticalKeepsHeld(s, ButtonEvent(e.action, ButtonCode(e.button)));
    }
  }

  /** What is held after a press, a release or a click of one entry. */
  ghost predicate HeldChanges<T(!new)>(before: seq<T>, after: seq<T>, action: Action, x: T) {
    && (forall y | y != x :: y in after <==> y in before)
    && (x in after <==> action == Press || (action == Click && x in before))
  }

  lemma BehindCriticalKeepsHeld(s: State, m: Message)
    ensures BehindCritical(s, m).s.buttons == s.buttons && BehindCritical(s, m).s.keys == s.keys
  {
  }

  /** Everything that is held was pressed: its press was taken by the channel. */
  ghost predicate HeldWasPressed(s: State) {
    && (forall k <- s.keys :: s.translate(k).Some? && KeyEvent(Press, s.translate(k).value) in s.sent)
    && (forall b <- s.buttons :: ButtonEvent(Press, ButtonCode(b)) in s.sent)
  }

  /** Nothing new is held and nothing sent is forgotten. */
  ghost predicate Onward(s: State, t: State) {
    && t.translate == s.translate && s.sent <= t.sent
    && (forall k <- t.keys :: k in s.keys) && (forall b <- t.buttons :: b in s.buttons)
  }

  lemma StaysPressed(s: State, t: State)
    requires HeldWasPressed(s) && Onward(s, t)
    ensures HeldWasPressed(t)
  {
    assert forall m <- s.sent :: m in t.sent;
  }

  lemma OnwardJoins(s: State, t: State, u: State)
    requires Onward(s, t) && Onward(t, u)
    ensures Onward(s, u)
  {
  }

  lemma MovesGoOnward(s: State, request: nat, m: Message)
    ensures Onward(s, CriticalFlushed(s).s) && Onward(s, PlainMoved(s, request).s) && Onward(s, BehindCritical(s, m).s)
  {
  }

  lemma MoveFlushedGoesOnward(s: State)
    ensures Onward(s, MoveFlushed(s))
  {
    hide CriticalFlushed, PlainMoved;
    var c := CriticalFlushed(s.Looked()).s;
    MovesGoOnward(s.Looked(), 0, TextInput(""));
    if c.pending.Some? {
      MovesGoOnward(c.Looked().(pending := None), c.pending.value, TextInput(""));
    }
  }

  lemma MoveRequestedGoesOnward(s: State, critical: bool)
    ensures Onward(s, MoveRequested(s, critical).s)
  {
    hide CriticalFlushed, PlainMoved, MoveFlushed;
    var asked, latest := s.(requests := s.requests + 1), Some(s.requests);
    MovesGoOnward(asked.Looked().(pending := None, pendingCritical := latest, lastCritical := latest), 0, TextInput(""));
    MovesGoOnward(asked, s.requests, TextInput(""));
    MoveFlushedGoesOnward(asked.Looked().(pending := latest));
  }

  lemma {:induction false} ButtonsReleasedGoOnward(s: State, buttons: seq<Button>)
    ensures Onward(s, ButtonsReleased(s, buttons))
    decreases |buttons|
  {
    if buttons != [] {
      ButtonsReleasedGoOnward(ButtonReleased(s, buttons[0]), buttons[1..]);
    }
  }

  lemma KeyReleasedGoesOnward(s: State, key: Key)
    ensures Onward(s, PlainKeyReleased(s, key)) && Onward(s, KeyReleased(s, key))
  {
  }

  lemma {:induction false} KeysReleasedGoOnward(s: State, keys: seq<Key>)
    ensures Onward(s, KeysReleased(s, keys))
    decreases |keys|
  {
    hide KeyReleased;
    if keys != [] {
      KeyReleasedGoesOnward(s, keys[0]);
      KeysReleasedGoOnward(KeyReleased(s, keys[0]), keys[1..]);
    }
  }

  lemma {:induction false} OrphansReleasedGoOnward(s: State, keys: seq<Key>, down: set<Family>)
    ensures Onward(s, OrphansReleased(s, keys, down))
    decreases |keys|
  {
    hide PlainKeyReleased, IsOrphan;
    if keys != [] {
      KeyReleasedGoesOnward(s, keys[0]);
      OrphansReleasedGoOnward(if IsOrphan(keys[0], down) then PlainKeyReleased(s, keys[0]) else s, keys[1..], down);
    }
  }

  lemma ButtonSentIsPressed(s: State, action: Action, button: Button)
    requires HeldWasPressed(s)
    ensures HeldWasPressed(ButtonSent(s, action, button).s)
  {
    hide BehindCritical, Onward, ButtonCode;
    var m := ButtonEvent(action, ButtonCode(button));
    MovesGoOnward(s, 0, m);
    StaysPressed(s, BehindCritical(s, m).s);
    TakenIsSent(s, m);
  }

  lemma TakenIsSent(s: State, m: Message)
    ensures BehindCritical(s, m).ok ==> m in BehindCritical(s, m).s.sent
  {
  }

  lemma KeySentIsPressed(s: State, action: Action, key: Key)
    requires HeldWasPressed(s)
    ensures HeldWasPressed(KeySent(s, action, key).s)
  {
    StaysPressed(s, KeyTried(s, action, key).s);
  }

  lemma ReleasedIsPressed(s: State)
    requires HeldWasPressed(s)
    ensures HeldWasPressed(AllReleased(s))
  {
    hide HeldWasPressed;
    var t := MovesCleared(s);
    var u := ButtonsReleased(t, s.buttons);
    StaysPressed(s, t);
    ButtonsReleasedGoOnward(t, s.buttons);
    StaysPressed(t, u);
    KeysReleasedGoOnward(u, s.keys);
    StaysPressed(u, AllReleased(s));
  }

  lemma StepKeepsPressed(s: State, e: Event)
    requires HeldWasPressed(s)
    ensures HeldWasPressed(Step(s, e))
  {
    hide HeldWasPressed, MoveRequested, MoveFlushed, ButtonSent, BehindCritical, AllReleased, OrphansReleased, KeySent;
    match e
    case MoveMade(critical) =>
      MoveRequestedGoesOnward(s, critical);
      StaysPressed(s, Step(s, e));
    case FlushMade =>
      MoveFlushedGoesOnward(s);
      StaysPressed(s, Step(s, e));
    case MovesDropped => StaysPressed(s, Step(s, e));
    case ButtonUsed(action, button) => ButtonSentIsPressed(s, action, button);
    case Scrolled(x, y) =>
      MovesGoOnward(s, 0, ScrollBy(x, y));
      StaysPressed(s, Step(s, e));
    case ClickMade(button) =>
      var moved := MoveRequested(s, true).s;
      MoveRequestedGoesOnward(s, true);
      StaysPressed(s, moved);
      ButtonSentIsPressed(moved, Press, button);
      ButtonSentIsPressed(ButtonSent(moved, Press, button).s, Release, button);
    case KeyUsed(action, key) => KeySentIsPressed(s, action, key);
    case TextTyped(content) => StaysPressed(s, Step(s, e));
    case EverythingReleased => ReleasedIsPressed(s);
    case OrphansFound(down) =>
      OrphansReleasedGoOnward(s, s.keys, down);
      StaysPressed(s, Step(s, e));
  }

  /** Over every run, under every channel, nothing is held whose press the channel did not take. */
  lemma {:induction false} RunKeepsPressed(s: State, events: seq<Event>)
    requires HeldWasPressed(s)
    ensures HeldWasPressed(After(s, events))
    decreases |events|
  {
    hide HeldWasPressed, Step;
    if events != [] {
      StepKeepsPressed(s, events[0]);
      RunKeepsPressed(Step(s, events[0]), events[1..]);
    }
  }

  // ---------------------------------------------------------------- from a new object on

  /** The modifiers are exactly the keys that belong to a family, so every orphan is one. */
  lemma ModifiersHaveFamilies(key: Key, down: set<Family>)
    ensures IsModifier(key) <==> key.KeyNumber? && FamilyOf(key.n).Some?
    ensures IsOrphan(key, down) <==>
              IsModifier(key) && exists family | family !in down :: FamilyOf(key.n) == Some(family)
  {
  }

  /**
   Over every run of a new object, under every channel: moves are sent in the order of their requests, every click
   or scroll behind its critical move, what the remote side holds down is held locally and nothing is held that was
   not pressed, nothing counts as sent but what was tried and taken, and the latest move request is tried or pending.
   */
  lemma InputOverRuns(answers: Answers, translate: Translation, events: seq<Event>)
    ensures var s := After(NewInput(answers, translate), events);
            && MovesInOrder(s.sent) && BarriersKept(s.sent, s.barriers) && Covers(s) && HeldWasPressed(s) && OnRecord(s)
            && Kept(s, LatestIn(NewInput(answers, translate), events, None))
  {
    RunKeepsOrder(NewInput(answers, translate), events);
    RunKeepsCover(NewInput(answers, translate), events);
    RunKeepsRecord(NewInput(answers, translate), events);
    RunKeepsPressed(NewInput(answers, translate), events);
    RunKeepsLatest(NewInput(answers, translate), events, None);
  }

  /** A complete click is exactly the move, the press and the release, and the button is not held afterwards. */
  lemma ClickIsThree(s: State, button: Button)
    requires Clicked(s, button).ok
    ensures var t := Clicked(s, button).s;
            && t.sent == s.sent + [MoveTo(s.requests), ButtonEvent(Press, ButtonCode(button)),
                                       ButtonEvent(Release, ButtonCode(button))]
            && button !in t.buttons
  {
    hide ButtonCode;
    var press, release := ButtonEvent(Press, ButtonCode(button)), ButtonEvent(Release, ButtonCode(button));
    var moved := MoveRequested(s, true).s;
    var asked := s.(requests := s.requests + 1);
    assert moved.sent == s.sent + [MoveTo(s.requests)];
    var pressed := ButtonSent(moved, Press, button).s;
    assert pressed.sent == moved.sent + [press];
  }

  /**
   Why the platform is fixed for an object: a key pressed under one platform and then released under another stays
   down uncovered exactly when the other has a different name for it and nothing else held has the first name.
   */
  lemma ReleaseUnderOtherPlatform(s: State, other: Translation, key: Key)
    requires Covers(s) && key in s.keys && s.Takes() && s.translate(key).value in PressedKeys(s.sent)
    ensures var t := KeySent(s.(translate := other), Release, key).s;
            var name := s.translate(key).value;
            name in PressedKeys(t.sent) && !KeyCovered(s.translate, t.keys, name)
            <==> other(key).Some? && other(key) != Some(name)
                 && forall h :: h in s.keys && h != key ==> s.translate(h) != Some(name)
  {
    hide PressedKeys, PressedButtons, Distinct;
    var name := s.translate(key).value;
    var u := s.(translate := other);
    var t := KeySent(u, Release, key).s;
    if other(key).Some? {
      PressedAfter(s.sent, KeyEvent(Release, other(key).value));
    } else {
      assert t.keys == s.keys && KeyCovered(s.translate, s.keys, name);
    }
  }
}
