/**
 Reading the remote clipboard (frontend/src/remote/browserRemote/clipboard.ts): the text arrives in numbered
 blocks, in any order and possibly more than once, with a confirm that tells how many there are.

 `State` holds what the object keeps; every handler is a function on it, and the class proves that its
 methods, with their loops, take exactly those steps. Texts are UTF-8 bytes.
 */
module RemoteClipboard {
  import opened Wrappers
  import opened ProtobufWire
  import opened Utf8
  import ClipboardWire

  const BLOCK_BYTES := 0x2_0000
  const MAX_BLOCK_COUNT := 1024
  const MAX_TEXT_BYTES := ClipboardWire.MAX_TEXT_BYTES
  const FORMAT_TEXT := 1
  const FORMAT_UNICODE_TEXT := 13
  const RESULT_SUCCEEDED := 1

  /** `uurc-web-<generation>-<requestId>`, or a key some other reader made up. */
  datatype BlockKey = Own(generation: nat, requestId: nat) | Foreign(text: string)

  type Blocks = map<nat, seq<byte>>

  datatype Pending = Pending(
    generation: nat,
    requestId: nat,
    blocks: Blocks,
    receivedBytes: int,
    expectedBlockCount: Option<nat>,
    settleTimer: bool)
  {
    function Key(): BlockKey {
      Own(generation, requestId)
    }
  }

  datatype State = State(
    pendingRead: Option<Pending>,
    nextRequestId: nat,
    lastSynchronizedText: Option<seq<byte>>,
    delivered: seq<seq<byte>>)           // the texts handed to `onRemoteClipboard`, in order

  // ---------------------------------------------------------------- handlers

  function StripTrailingNuls(text: seq<byte>): seq<byte> {
    if text != [] && text[|text| - 1] == 0 then StripTrailingNuls(text[..|text| - 1]) else text
  }

  function DecodeText(bytes: seq<byte>): Option<seq<byte>> {
    match DecodeFatal(bytes)
    case None => None
    case Some(text) => Some(StripTrailingNuls(text))
  }

  function Notified(s: State, formatId: nat, text: seq<byte>): State {
    if formatId != FORMAT_TEXT && formatId != FORMAT_UNICODE_TEXT then s
    else if s.lastSynchronizedText == Some(text) then s
    else s.(lastSynchronizedText := Some(text), delivered := s.delivered + [text])
  }

  /** A text of our own goes out; `sent` is false when sending throws, and the request id is used up all the same. */
  function TextSentOut(s: State, text: seq<byte>, sent: bool): State {
    s.(nextRequestId := s.nextRequestId + 1,
    lastSynchronizedText := if sent then Some(text) else s.lastSynchronizedText)
  }

  function Cleared(s: State): State {
    s.(pendingRead := None)
  }

  predicate AllPresent(blocks: Blocks, count: nat) {
    forall i | 1 <= i <= count :: i in blocks
  }

  /** Blocks 1 to count, one after the other. */
  function Joined(blocks: Blocks, count: nat): seq<byte>
    requires AllPresent(blocks, count)
  {
    if count == 0 then [] else Joined(blocks, count - 1) + blocks[count]
  }

  function Zeros(n: nat): seq<byte> {
    seq(n, _ => 0)
  }

  /** A buffer of `receivedBytes` zeros with the blocks written from the front. */
  function Buffer(p: Pending, count: nat): seq<byte>
    requires AllPresent(p.blocks, count)
  {
    var bytes := Joined(p.blocks, count);
    if p.receivedBytes > |bytes| then bytes + Zeros(p.receivedBytes - |bytes|) else bytes
  }

  function CountToFinish(p: Pending): nat {
    if p.expectedBlockCount.Some? then p.expectedBlockCount.value else |p.blocks|
  }

  function Finished(s: State): State {
    if s.pendingRead.None? then s
    else
      var p := s.pendingRead.value;
      if !AllPresent(p.blocks, CountToFinish(p)) then s
      else
        match DecodeText(Buffer(p, CountToFinish(p)))
        case None => Cleared(s)
        case Some(text) => Notified(Cleared(s), FORMAT_TEXT, text)
  }

  function TriedToFinish(s: State, requireKnownBlockCount: bool): State {
    if s.pendingRead.None? then s
    else
      var p := s.pendingRead.value;
      if requireKnownBlockCount && p.expectedBlockCount.None? then s
      else if |p.blocks| != CountToFinish(p) || !AllPresent(p.blocks, CountToFinish(p)) then s
      else Finished(s)
  }

  function TextRequested(s: State, generation: nat, sent: bool): State {
    if s.pendingRead.Some? then s
    else
      s.(nextRequestId := s.nextRequestId + 1,
      pendingRead := if sent then Some(Pending(generation, s.nextRequestId, map[], 0, None, false)) else None)
  }

  function FormatConfirmed(s: State, key: BlockKey, requestId: nat, result: nat, blockCount: nat): State {
    if s.pendingRead.None? || s.pendingRead.value.Key() != key || s.pendingRead.value.requestId != requestId then s
    else if result != RESULT_SUCCEEDED || blockCount > MAX_BLOCK_COUNT then Cleared(s)
    else
      var known := s.(pendingRead := Some(s.pendingRead.value.(expectedBlockCount := Some(blockCount))));
      if blockCount == 0 then Finished(known) else TriedToFinish(known, true)
  }

  function SizeOf(blocks: Blocks, blockId: nat): nat {
    if blockId in blocks then |blocks[blockId]| else 0
  }

  predicate Matches(s: State, generation: nat, key: BlockKey) {
    s.pendingRead.Some? && s.pendingRead.value.Key() == key && s.pendingRead.value.generation == generation
  }

  predicate Accepted(s: State, generation: nat, key: BlockKey, blockId: nat, data: seq<byte>) {
    && Matches(s, generation, key)
    && 0 < blockId <= MAX_BLOCK_COUNT && |data| <= BLOCK_BYTES
    && s.pendingRead.value.receivedBytes - SizeOf(s.pendingRead.value.blocks, blockId) + |data| <= MAX_TEXT_BYTES
  }

  function Stored(p: Pending, blockId: nat, data: seq<byte>): Pending {
    p.(blocks := p.blocks[blockId := data],
    receivedBytes := p.receivedBytes - SizeOf(p.blocks, blockId) + |data|,
    settleTimer := false)
  }

  /** Confirming a block with id 0 throws before anything is changed. */
  function BlockReceived(s: State, generation: nat, key: BlockKey, blockId: nat, data: seq<byte>): State {
    if blockId == 0 then s
    else if !Accepted(s, generation, key, blockId, data) then
      if Matches(s, generation, key) then Cleared(s) else s
    else
      var known := TriedToFinish(s.(pendingRead := Some(Stored(s.pendingRead.value, blockId, data))), true);
      if known.pendingRead.None? then known
      else if |data| < BLOCK_BYTES then TriedToFinish(known, false)
      else known.(pendingRead := Some(known.pendingRead.value.(settleTimer := true)))
  }

  function Settled(s: State): State
    requires s.pendingRead.Some?
  {
    TriedToFinish(s.(pendingRead := Some(s.pendingRead.value.(settleTimer := false))), false)
  }

  // ---------------------------------------------------------------- the object

  class BrowserRemoteClipboard {
    var pendingRead: Option<Pending>
    var nextRequestId: nat
    var lastSynchronizedText: Option<seq<byte>>
    var delivered: seq<seq<byte>>

    ghost function View(): State
      reads this
    {
      State(pendingRead, nextRequestId, lastSynchronizedText, delivered)
    }

    constructor ()
      ensures View() == State(None, 1, None, []) && Accounted(View())
    {
      pendingRead, nextRequestId, lastSynchronizedText, delivered := None, 1, None, [];
    }

    method RequestText(generation: nat, sent: bool)
      requires Accounted(View())
      modifies this
      ensures View() == TextRequested(old(View()), generation, sent)
      ensures Accounted(View())
    {
      if pendingRead.Some? {
        return;
      }
      var requestId := nextRequestId;
      nextRequestId := nextRequestId + 1;
      pendingRead := Some(Pending(generation, requestId, map[], 0, None, false));
      EmptyIsSized(generation, requestId);
      if !sent {
        pendingRead := None;
      }
    }

    method ApplyNotification(formatId: nat, text: seq<byte>)
      modifies this
      ensures View() == Notified(old(View()), formatId, text)
    {
      if formatId != FORMAT_TEXT && formatId != FORMAT_UNICODE_TEXT {
        return;
      }
      if lastSynchronizedText == Some(text) {
        return;
      }
      lastSynchronizedText := Some(text);
      delivered := delivered + [text];
    }

    method SendTextNow(text: seq<byte>, sent: bool)
      modifies `nextRequestId, `lastSynchronizedText
      ensures View() == TextSentOut(old(View()), text, sent)
    {
      nextRequestId := nextRequestId + 1;
      if sent {
        lastSynchronizedText := Some(text);
      }
    }

    method TryFinishRead(requireKnownBlockCount: bool)
      requires Accounted(View())
      modifies this
      ensures View() == TriedToFinish(old(View()), requireKnownBlockCount)
      ensures Accounted(View())
    {
      if pendingRead.None? {
        return;
      }
      var p := pendingRead.value;
      if requireKnownBlockCount && p.expectedBlockCount.None? {
        return;
      }
      var blockCount := if p.expectedBlockCount.Some? then p.expectedBlockCount.value else |p.blocks|;
      if |p.blocks| != blockCount {
        return;
      }
      for blockId := 1 to blockCount + 1
        invariant AllPresent(p.blocks, blockId - 1) && View() == old(View())
      {
        if blockId !in p.blocks {
          return;
        }
      }
      FinishRead();
    }

    method FinishRead()
      requires Accounted(View())
      modifies this
      ensures View() == Finished(old(View()))
      ensures Accounted(View())
    {
      hide SumUpTo, Sized;
      if pendingRead.None? {
        return;
      }
      var p := pendingRead.value;
      var blockCount := if p.expectedBlockCount.Some? then p.expectedBlockCount.value else |p.blocks|;
      var written: seq<byte> := [];
      for blockId := 1 to blockCount + 1
        invariant AllPresent(p.blocks, blockId - 1) && View() == old(View())
        invariant written == Joined(p.blocks, blockId - 1)
      {
        if blockId !in p.blocks {
          return;
        }
        written := written + p.blocks[blockId];
      }
      BlocksFitBuffer(p, blockCount);
      var bytes := written + Zeros(p.receivedBytes - |written|);
      assert bytes == Buffer(p, blockCount);
      var text := DecodeText(bytes);
      pendingRead := None;
      if text.Some? {
        ApplyNotification(FORMAT_TEXT, text.value);
      }
    }

    method ApplyFormatConfirm(key: BlockKey, requestId: nat, result: nat, blockCount: nat)
      requires Accounted(View())
      modifies this
      ensures View() == FormatConfirmed(old(View()), key, requestId, result, blockCount)
      ensures Accounted(View())
    {
      if pendingRead.None? || pendingRead.value.Key() != key || pendingRead.value.requestId != requestId {
        return;
      }
      if result != RESULT_SUCCEEDED || blockCount > MAX_BLOCK_COUNT {
        pendingRead := None;
        return;
      }
      pendingRead := Some(pendingRead.value.(expectedBlockCount := Some(blockCount)));
      if blockCount == 0 {
        FinishRead();
        return;
      }
      TryFinishRead(true);
    }

    /** The returned flag is what the block's confirm tells the sender. */
    method ReceiveDataBlock(generation: nat, key: BlockKey, blockId: nat, data: seq<byte>) returns (accepted: bool)
      requires Accounted(View())
      modifies this
      ensures accepted <==> Accepted(old(View()), generation, key, blockId, data)
      ensures View() == BlockReceived(old(View()), generation, key, blockId, data)
      ensures Accounted(View())
    {
      hide SumUpTo, Sized, TriedToFinish;
      accepted := false;
      if blockId == 0 {
        return;
      }
      var matchesPending := pendingRead.Some? && pendingRead.value.Key() == key
                            && pendingRead.value.generation == generation;
      var nextByteLength := |data|;
      if matchesPending {
        var existing := if blockId in pendingRead.value.blocks then |pendingRead.value.blocks[blockId]| else 0;
        nextByteLength := pendingRead.value.receivedBytes - existing + |data|;
      }
      accepted := matchesPending && blockId <= MAX_BLOCK_COUNT && |data| <= BLOCK_BYTES
                  && nextByteLength <= MAX_TEXT_BYTES;
      if !accepted {
        if matchesPending {
          pendingRead := None;
        }
        return;
      }
      ghost var before := pendingRead.value;
      pendingRead := Some(pendingRead.value.(blocks := pendingRead.value.blocks[blockId := data],
                                             receivedBytes := nextByteLength, settleTimer := false));
      assert pendingRead.value == Stored(before, blockId, data);
      StoredIsSized(before, blockId, data);
      TryFinishRead(true);
      if pendingRead.None? {
        return;
      }
      if |data| < BLOCK_BYTES {
        TryFinishRead(false);
        return;
      }
      TimerKeepsSize(pendingRead.value, true);
      pendingRead := Some(pendingRead.value.(settleTimer := true));
    }

    method SettleTimerFired()
      requires pendingRead.Some? && Accounted(View())
      modifies this
      ensures View() == Settled(old(View()))
      ensures Accounted(View())
    {
      TimerKeepsSize(pendingRead.value, false);
      pendingRead := Some(pendingRead.value.(settleTimer := false));
      TryFinishRead(false);
    }

    method ClearPendingRead()
      modifies `pendingRead
      ensures View() == Cleared(old(View()))
      ensures Accounted(View())
    {
      pendingRead := None;
    }
  }

  // ---------------------------------------------------------------- byte accounting

  /** The sizes of the blocks with ids 1 to n. */
  function SumUpTo(blocks: Blocks, n: nat): nat
    decreases |blocks|, n
  {
    if n == 0 then 0 else SumUpTo(blocks, n - 1) + SizeOf(blocks, n)
  }

  function SumOfBlocks(p: Pending): nat {
    SumUpTo(p.blocks, MAX_BLOCK_COUNT)
  }

  /** `receivedBytes` is the sum of the stored block sizes and within the text limit. */
  ghost predicate Sized(p: Pending) {
    && (forall i <- p.blocks :: 1 <= i <= MAX_BLOCK_COUNT && |p.blocks[i]| <= BLOCK_BYTES)
    && p.receivedBytes == SumOfBlocks(p) <= MAX_TEXT_BYTES
  }

  lemma {:induction false} SumAfterStore(blocks: Blocks, i: nat, data: seq<byte>, n: nat)
    requires i > 0
    ensures SumUpTo(blocks[i := data], n) ==
            if i <= n then SumUpTo(blocks, n) - SizeOf(blocks, i) + |data| else SumUpTo(blocks, n)
    decreases n
  {
    if n > 0 {
      SumAfterStore(blocks, i, data, n - 1);
    }
  }

  lemma StoredIsSized(p: Pending, i: nat, data: seq<byte>)
    requires Sized(p) && 0 < i <= MAX_BLOCK_COUNT && |data| <= BLOCK_BYTES
    requires p.receivedBytes - SizeOf(p.blocks, i) + |data| <= MAX_TEXT_BYTES
    ensures Sized(Stored(p, i, data))
  {
    hide SumUpTo;
    SumAfterStore(p.blocks, i, data, MAX_BLOCK_COUNT);
  }

  lemma TimerKeepsSize(p: Pending, settleTimer: bool)
    requires Sized(p)
    ensures Sized(p.(settleTimer := settleTimer))
  {
    hide SumUpTo;
  }

  lemma {:induction false} JoinedWithinSum(blocks: Blocks, n: nat, m: nat)
    requires AllPresent(blocks, n) && n <= m
    ensures |Joined(blocks, n)| <= SumUpTo(blocks, m)
    decreases m
  {
    if n > 0 && n == m {
      JoinedWithinSum(blocks, n - 1, m - 1);
    } else if n < m {
      JoinedWithinSum(blocks, n, m - 1);
    }
  }

  /** The blocks never overrun the buffer that is allocated from `receivedBytes`. */
  lemma BlocksFitBuffer(p: Pending, count: nat)
    requires Sized(p) && AllPresent(p.blocks, count)
    ensures |Joined(p.blocks, count)| <= p.receivedBytes
  {
    hide SumUpTo;
    assert count == 0 || count in p.blocks;
    JoinedWithinSum(p.blocks, count, MAX_BLOCK_COUNT);
  }

  ghost predicate Accounted(s: State) {
    s.pendingRead.Some? ==> Sized(s.pendingRead.value)
  }

  lemma EmptyIsSized(generation: nat, requestId: nat)
    ensures Sized(Pending(generation, requestId, map[], 0, None, false))
  {
    hide SumUpTo;
    SumOfNothing(MAX_BLOCK_COUNT);
  }

  lemma SumOfNothing(n: nat)
    ensures SumUpTo(map[], n) == 0
  {
  }

  lemma FinishKeepsAccount(s: State, requireKnown: bool)
    requires Accounted(s)
    ensures Accounted(TriedToFinish(s, requireKnown))
    ensures TriedToFinish(s, requireKnown) == s || TriedToFinish(s, requireKnown).pendingRead.None?
  {
    hide Sized, Joined, DecodeText;
  }

  lemma BlockKeepsAccount(s: State, generation: nat, key: BlockKey, i: nat, data: seq<byte>)
    requires Accounted(s)
    ensures Accounted(BlockReceived(s, generation, key, i, data))
  {
    hide SumUpTo, Sized, TriedToFinish;
    if i > 0 && Accepted(s, generation, key, i, data) {
      StoredIsSized(s.pendingRead.value, i, data);
      var stored := s.(pendingRead := Some(Stored(s.pendingRead.value, i, data)));
      FinishKeepsAccount(stored, true);
      FinishKeepsAccount(stored, false);
      TimerKeepsSize(stored.pendingRead.value, true);
    }
  }

  lemma ConfirmKeepsAccount(s: State, key: BlockKey, requestId: nat, result: nat, count: nat)
    requires Accounted(s)
    ensures Accounted(FormatConfirmed(s, key, requestId, result, count))
  {
    hide SumUpTo, Joined, DecodeText;
  }

  lemma TimerKeepsAccount(s: State)
    requires Accounted(s) && s.pendingRead.Some?
    ensures Accounted(Settled(s))
  {
    hide SumUpTo, Sized, TriedToFinish;
    TimerKeepsSize(s.pendingRead.value, false);
    FinishKeepsAccount(s.(pendingRead := Some(s.pendingRead.value.(settleTimer := false))), false);
  }

  /** Whatever messages arrive, `receivedBytes` stays the sum of the stored block sizes. */
  lemma HandlersKeepAccount(s: State, generation: nat, key: BlockKey, requestId: nat, n: nat, m: nat, data: seq<byte>,
                            sent: bool)
    requires Accounted(s)
    ensures Accounted(TextRequested(s, generation, sent))
    ensures Accounted(FormatConfirmed(s, key, requestId, n, m))
    ensures Accounted(BlockReceived(s, generation, key, n, data))
    ensures s.pendingRead.Some? ==> Accounted(Settled(s))
  {
    hide Sized, FormatConfirmed, BlockReceived, Settled;
    EmptyIsSized(generation, s.nextRequestId);
    ConfirmKeepsAccount(s, key, requestId, n, m);
    BlockKeepsAccount(s, generation, key, n, data);
    if s.pendingRead.Some? {
      TimerKeepsAccount(s);
    }
  }

  // ---------------------------------------------------------------- the sender's cut

  function Min(a: nat, b: nat): nat {
    if a < b then a else b
  }

  function BlockCount(text: seq<byte>): nat {
    (|text| + BLOCK_BYTES - 1) / BLOCK_BYTES
  }

  function Prefix(text: seq<byte>, blocks: nat): seq<byte> {
    text[..Min(blocks * BLOCK_BYTES, |text|)]
  }

  function BlockOf(text: seq<byte>, i: nat): seq<byte>
    requires 1 <= i <= BlockCount(text)
  {
    text[(i - 1) * BLOCK_BYTES..Min(i * BLOCK_BYTES, |text|)]
  }

  /** The stored blocks are blocks of this text. */
  ghost predicate CutFrom(blocks: Blocks, text: seq<byte>) {
    forall i <- blocks :: 1 <= i <= BlockCount(text) && blocks[i] == BlockOf(text, i)
  }

  lemma {:induction false} SumOfCut(blocks: Blocks, text: seq<byte>, n: nat)
    requires CutFrom(blocks, text)
    ensures SumUpTo(blocks, n) <= |Prefix(text, n)|
    decreases n
  {
    if n > 0 {
      SumOfCut(blocks, text, n - 1);
    }
  }

  lemma {:induction false} JoinedCut(blocks: Blocks, text: seq<byte>, n: nat)
    requires CutFrom(blocks, text) && AllPresent(blocks, n)
    ensures Joined(blocks, n) == Prefix(text, n)
    ensures SumUpTo(blocks, n) == |Prefix(text, n)|
    decreases n
  {
    if n > 0 {
      JoinedCut(blocks, text, n - 1);
      assert blocks[n] == BlockOf(text, n);
      assert Prefix(text, n) == Prefix(text, n - 1) + BlockOf(text, n);
    }
  }

  /** The ids 1 to n. */
  function Ids(n: nat): (ids: set<nat>)
    ensures forall i: nat :: i in ids <==> 1 <= i <= n
  {
    if n == 0 then {} else Ids(n - 1) + {n}
  }

  lemma {:induction false} IdsSize(n: nat)
    ensures |Ids(n)| == n
  {
    if n > 0 {
      IdsSize(n - 1);
    }
  }

  /** As many blocks as ids, and every id there: the ids are exactly 1 to n. */
  lemma ExactlyIds(blocks: Blocks, n: nat)
    ensures |blocks| == n && AllPresent(blocks, n) <==> blocks.Keys == Ids(n)
  {
    IdsSize(n);
    if |blocks| == n && AllPresent(blocks, n) {
      assert Ids(n) <= blocks.Keys;
      assert |blocks.Keys - Ids(n)| == 0;
    }
  }

  lemma {:induction false} SumBeyondLast(blocks: Blocks, n: nat, m: nat)
    requires blocks.Keys <= Ids(n) && n <= m
    ensures SumUpTo(blocks, m) == SumUpTo(blocks, n)
    decreases m
  {
    if n < m {
      SumBeyondLast(blocks, n, m - 1);
    }
  }

  lemma WholeText(text: seq<byte>)
    ensures Prefix(text, BlockCount(text)) == text
    ensures forall k: nat | k < BlockCount(text) :: |Prefix(text, k)| < |text|
    ensures |text| <= MAX_TEXT_BYTES ==> BlockCount(text) <= 4
  {
  }

  // ---------------------------------------------------------------- honest transfers

  /**
   What may happen while one text is being read: its own blocks and confirm, a confirm that says it failed or counts too
   many blocks, an impossible block under its key, messages about other reads, the end of the read by cancelling or
   expiry, a version 3 notification, and a text of our own that is sent.
   */
  datatype Message =
    | OwnBlock(blockId: nat)
    | OwnConfirm
    | WrongBlock(blockId: nat, data: seq<byte>)
    | WrongConfirm(result: nat, blockCount: nat)
    | OtherBlock(generation: nat, key: BlockKey, blockId: nat, data: seq<byte>)
    | OtherConfirm(key: BlockKey, requestId: nat, result: nat, blockCount: nat)
    | SettleTimer
    | Cancelled
    | Notification(formatId: nat, text: seq<byte>)
    | TextSent(text: seq<byte>, sent: bool)

  /** The read that is being watched. */
  datatype Read = Read(generation: nat, requestId: nat, text: seq<byte>)
  {
    function Key(): BlockKey {
      Own(generation, requestId)
    }
  }

  predicate Honest(read: Read, m: Message) {
    match m
    case OwnBlock(i) => 1 <= i <= BlockCount(read.text)
    case WrongBlock(i, data) => i == 0 || i > MAX_BLOCK_COUNT || |data| > BLOCK_BYTES
    case WrongConfirm(result, count) => result != RESULT_SUCCEEDED || count > MAX_BLOCK_COUNT
    case OtherBlock(generation, key, _, _) => key != read.Key() || generation != read.generation
    case OtherConfirm(key, requestId, _, _) => key != read.Key() || requestId != read.requestId
    case _ => true
  }

  function Handle(s: State, read: Read, m: Message): State
    requires Honest(read, m)
  {
    match m
    case OwnBlock(i) => BlockReceived(s, read.generation, read.Key(), i, BlockOf(read.text, i))
    case OwnConfirm => FormatConfirmed(s, read.Key(), read.requestId, RESULT_SUCCEEDED, BlockCount(read.text))
    case WrongBlock(i, data) => BlockReceived(s, read.generation, read.Key(), i, data)
    case WrongConfirm(result, count) => FormatConfirmed(s, read.Key(), read.requestId, result, count)
    case OtherBlock(generation, key, i, data) => BlockReceived(s, generation, key, i, data)
    case OtherConfirm(key, requestId, result, count) => FormatConfirmed(s, key, requestId, result, count)
    case SettleTimer => if s.pendingRead.Some? && s.pendingRead.value.settleTimer then Settled(s) else s
    case Cancelled => Cleared(s)
    case Notification(formatId, text) => Notified(s, formatId, text)
    case TextSent(text, sent) => TextSentOut(s, text, sent)
  }

  /** What a message does to the rest of the clipboard, the read apart. */
  function Aside(base: State, m: Message): State {
    match m
    case Notification(formatId, text) => Notified(base, formatId, text)
    case TextSent(text, sent) => TextSentOut(base, text, sent)
    case _ => base
  }

  predicate IsAside(m: Message) {
    m.Notification? || m.TextSent?
  }

  /** The read is over without a text: given up, failed on the remote side, or answered with something impossible. */
  predicate GivesUp(m: Message) {
    m.Cancelled? || m.WrongConfirm? || (m.WrongBlock? && m.blockId > 0)
  }

  function SeenAfter(seen: set<nat>, m: Message): set<nat> {
    if m.OwnBlock? then seen + {m.blockId} else seen
  }

  function ConfirmedAfter(confirmed: bool, m: Message): bool {
    confirmed || m.OwnConfirm?
  }

  predicate Complete(read: Read, seen: set<nat>, confirmed: bool) {
    confirmed && seen == Ids(BlockCount(read.text))
  }

  /** What the clipboard looks like once a byte string has been read: delivered, unless it is not text or not new. */
  function Outcome(base: State, bytes: seq<byte>): State {
    match DecodeText(bytes)
    case None => Cleared(base)
    case Some(text) => Notified(Cleared(base), FORMAT_TEXT, text)
  }

  /**
   Progress of one read that began in `base`: either it waits, holding exactly the blocks seen so far, or it has
   ended with the whole text.
   */
  ghost predicate Progress(base: State, s: State, read: Read, seen: set<nat>, confirmed: bool) {
    if s.pendingRead.None? then
      s == Outcome(base, read.text) && seen == Ids(BlockCount(read.text))
    else
      var p := s.pendingRead.value;
      && p.generation == read.generation && p.requestId == read.requestId && Sized(p)
      && CutFrom(p.blocks, read.text) && p.blocks.Keys == seen
      && p.expectedBlockCount == (if confirmed then Some(BlockCount(read.text)) else None)
      && s == base.(pendingRead := s.pendingRead)
      && !Complete(read, seen, confirmed)
  }

  /** The settle timer ends the read on a proper prefix: the count is unknown and the first blocks are all there. */
  predicate Truncates(s: State, read: Read, m: Message) {
    && m.SettleTimer? && s.pendingRead.Some? && s.pendingRead.value.settleTimer
    && s.pendingRead.value.expectedBlockCount.None?
    && |s.pendingRead.value.blocks| < BlockCount(read.text)
    && s.pendingRead.value.blocks.Keys == Ids(|s.pendingRead.value.blocks|)
  }

  /** What a finish attempt makes of blocks that were cut from the text. */
  lemma FinishOfCut(base: State, s: State, read: Read, requireKnown: bool)
    requires s.pendingRead.Some? && s == base.(pendingRead := s.pendingRead)
    requires Sized(s.pendingRead.value) && CutFrom(s.pendingRead.value.blocks, read.text)
    requires |read.text| <= MAX_TEXT_BYTES
    ensures var p := s.pendingRead.value;
            var n := CountToFinish(p);
            TriedToFinish(s, requireKnown) ==
            if !(requireKnown && p.expectedBlockCount.None?) && p.blocks.Keys == Ids(n)
            then Outcome(base, Prefix(read.text, n)) else s
  {
    hide SumUpTo, Joined;
    var p := s.pendingRead.value;
    var n := CountToFinish(p);
    ExactlyIds(p.blocks, n);
    if p.blocks.Keys == Ids(n) {
      WholeText(read.text);
      assert n == 0 || n in p.blocks.Keys;
      JoinedCut(p.blocks, read.text, n);
      SumBeyondLast(p.blocks, n, MAX_BLOCK_COUNT);
      assert Buffer(p, n) == Prefix(read.text, n);
    }
  }

  lemma StoreOfCut(p: Pending, read: Read, i: nat)
    requires Sized(p) && CutFrom(p.blocks, read.text) && |read.text| <= MAX_TEXT_BYTES
    requires 1 <= i <= BlockCount(read.text)
    ensures p.receivedBytes - SizeOf(p.blocks, i) + |BlockOf(read.text, i)| <= MAX_TEXT_BYTES
    ensures |BlockOf(read.text, i)| <= BLOCK_BYTES && i <= MAX_BLOCK_COUNT
    ensures var q := Stored(p, i, BlockOf(read.text, i));
            Sized(q) && CutFrom(q.blocks, read.text) && q.blocks.Keys == p.blocks.Keys + {i}
    ensures |BlockOf(read.text, i)| < BLOCK_BYTES ==> i == BlockCount(read.text)
  {
    hide SumUpTo;
    WholeText(read.text);
    var q := Stored(p, i, BlockOf(read.text, i));
    SumOfCut(q.blocks, read.text, MAX_BLOCK_COUNT);
    SumAfterStore(p.blocks, i, BlockOf(read.text, i), MAX_BLOCK_COUNT);
  }

  /** The read waits, or would wait if nothing were missing: the parts of `Progress` that a finish attempt needs. */
  ghost predicate Holding(base: State, s: State, read: Read, seen: set<nat>, confirmed: bool) {
    && s.pendingRead.Some? && s == base.(pendingRead := s.pendingRead)
    && var p := s.pendingRead.value;
       && p.generation == read.generation && p.requestId == read.requestId && Sized(p)
       && CutFrom(p.blocks, read.text) && p.blocks.Keys == seen
       && p.expectedBlockCount == (if confirmed then Some(BlockCount(read.text)) else None)
  }

  /** The first attempt, with the count known, ends the read exactly when nothing is missing. */
  lemma KnownFinishStep(base: State, s: State, read: Read, seen: set<nat>, confirmed: bool)
    requires Holding(base, s, read, seen, confirmed) && |read.text| <= MAX_TEXT_BYTES
    ensures var known := TriedToFinish(s, true);
            && (Complete(read, seen, confirmed) ==> known == Outcome(base, read.text))
            && (!Complete(read, seen, confirmed) ==> known == s && Progress(base, s, read, seen, confirmed))
  {
    hide SumUpTo, TriedToFinish, Outcome, Sized, CutFrom;
    FinishOfCut(base, s, read, true);
    WholeText(read.text);
  }

  /** The second attempt, after a short block, guesses the count from the blocks it has. */
  lemma ShortBlockStep(base: State, s: State, read: Read, seen: set<nat>, confirmed: bool)
    requires Holding(base, s, read, seen, confirmed) && |read.text| <= MAX_TEXT_BYTES
    requires !Complete(read, seen, confirmed) && BlockCount(read.text) in seen && BlockCount(read.text) > 0
    ensures Progress(base, TriedToFinish(s, false), read, seen, confirmed)
  {
    hide SumUpTo, TriedToFinish, Outcome, Sized;
    FinishOfCut(base, s, read, false);
    WholeText(read.text);
    OutcomeEnds(base, read.text);
    var p := s.pendingRead.value;
    if p.expectedBlockCount.None? {
      LastBlockMakesAll(p.blocks, BlockCount(read.text));
    }
  }

  lemma FullBlockStep(base: State, s: State, read: Read, seen: set<nat>, confirmed: bool)
    requires Holding(base, s, read, seen, confirmed) && !Complete(read, seen, confirmed)
    ensures Progress(base, s.(pendingRead := Some(s.pendingRead.value.(settleTimer := true))), read, seen, confirmed)
  {
    hide Sized, CutFrom, Outcome;
    TimerKeepsSize(s.pendingRead.value, true);
  }

  /** A block of the text arrives. */
  lemma OwnBlockStep(base: State, s: State, read: Read, seen: set<nat>, confirmed: bool, i: nat)
    requires Progress(base, s, read, seen, confirmed) && |read.text| <= MAX_TEXT_BYTES
    requires 1 <= i <= BlockCount(read.text)
    ensures Progress(base, Handle(s, read, OwnBlock(i)), read, seen + {i}, confirmed)
  {
    hide Outcome, BlockOf, SumUpTo, Sized, TriedToFinish;
    OutcomeEnds(base, read.text);
    if s.pendingRead.None? {
      assert seen + {i} == seen;
    } else {
      StoreOfCut(s.pendingRead.value, read, i);
      var stored := s.(pendingRead := Some(Stored(s.pendingRead.value, i, BlockOf(read.text, i))));
      assert Holding(base, stored, read, seen + {i}, confirmed);
      hide CutFrom;
      KnownFinishStep(base, stored, read, seen + {i}, confirmed);
      if !Complete(read, seen + {i}, confirmed) {
        FullBlockStep(base, stored, read, seen + {i}, confirmed);
        if |BlockOf(read.text, i)| < BLOCK_BYTES {
          ShortBlockStep(base, stored, read, seen + {i}, confirmed);
        }
      }
    }
  }

  lemma OutcomeEnds(base: State, bytes: seq<byte>)
    ensures Outcome(base, bytes).pendingRead.None?
  {
  }

  lemma LastBlockMakesAll(blocks: Blocks, last: nat)
    requires last in blocks && last > 0 && blocks.Keys <= Ids(last)
    ensures blocks.Keys == Ids(|blocks|) ==> |blocks| == last
  {
    assert |blocks| in Ids(|blocks|);
  }

  lemma OwnConfirmStep(base: State, s: State, read: Read, seen: set<nat>, confirmed: bool)
    requires Progress(base, s, read, seen, confirmed) && |read.text| <= MAX_TEXT_BYTES
    ensures Progress(base, Handle(s, read, OwnConfirm), read, seen, true)
  {
    hide SumUpTo, TriedToFinish, Outcome;
    WholeText(read.text);
    if s.pendingRead.Some? {
      var known := s.(pendingRead := Some(s.pendingRead.value.(expectedBlockCount := Some(BlockCount(read.text)))));
      FinishOfCut(base, known, read, true);
      OutcomeEnds(base, read.text);
      if BlockCount(read.text) == 0 {
        assert read.text == [] && known.pendingRead.value.blocks == map[];
        EmptyFinish(base, known, read);
      }
    }
  }

  lemma EmptyFinish(base: State, s: State, read: Read)
    requires s.pendingRead.Some? && s == base.(pendingRead := s.pendingRead) && Sized(s.pendingRead.value)
    requires s.pendingRead.value.blocks == map[] && s.pendingRead.value.expectedBlockCount == Some(0)
    ensures Finished(s) == Outcome(base, [])
  {
    hide SumUpTo;
    SumOfNothing(MAX_BLOCK_COUNT);
    assert Buffer(s.pendingRead.value, 0) == [];
  }

  lemma OtherStep(base: State, s: State, read: Read, seen: set<nat>, confirmed: bool, m: Message)
    requires Progress(base, s, read, seen, confirmed) && Honest(read, m)
    requires m.OtherBlock? || m.OtherConfirm? || (m.WrongBlock? && m.blockId == 0)
    ensures Handle(s, read, m) == s
  {
  }

  /** The settle timer is harmless unless it truncates; then it delivers the blocks it has, and nothing else. */
  lemma SettleStep(base: State, s: State, read: Read, seen: set<nat>, confirmed: bool)
    requires Progress(base, s, read, seen, confirmed) && |read.text| <= MAX_TEXT_BYTES
    ensures !Truncates(s, read, SettleTimer) ==>
              Progress(base, Handle(s, read, SettleTimer), read, seen, confirmed)
    ensures Truncates(s, read, SettleTimer) ==>
              Handle(s, read, SettleTimer) == Outcome(base, Prefix(read.text, |s.pendingRead.value.blocks|))
              && |Prefix(read.text, |s.pendingRead.value.blocks|)| < |read.text|
    ensures Truncates(s, read, SettleTimer) <==>
              s.pendingRead.Some? && Handle(s, read, SettleTimer).pendingRead.None? && seen != Ids(BlockCount(read.text))
  {
    hide SumUpTo, TriedToFinish, Outcome;
    if s.pendingRead.Some? && s.pendingRead.value.settleTimer {
      var p := s.pendingRead.value;
      var settled := s.(pendingRead := Some(p.(settleTimer := false)));
      FinishOfCut(base, settled, read, false);
      WholeText(read.text);
      OutcomeEnds(base, read.text);
      ExactlyIds(p.blocks, |p.blocks|);
      assert |p.blocks| == 0 || |p.blocks| in Ids(|p.blocks|);
      OutcomeEnds(base, Prefix(read.text, |p.blocks|));
      IdsSize(BlockCount(read.text));
    }
  }

  /** What belongs to the transfer itself, or to another one. */
  predicate IsTransfer(m: Message) {
    !IsAside(m) && !GivesUp(m)
  }

  lemma HonestStep(base: State, s: State, read: Read, seen: set<nat>, confirmed: bool, m: Message)
    requires Progress(base, s, read, seen, confirmed) && |read.text| <= MAX_TEXT_BYTES && Honest(read, m)
    requires IsTransfer(m) && !Truncates(s, read, m)
    ensures Progress(base, Handle(s, read, m), read, SeenAfter(seen, m), ConfirmedAfter(confirmed, m))
  {
    hide Progress, Handle;
    match m
    case OwnBlock(i) => OwnBlockStep(base, s, read, seen, confirmed, i);
    case OwnConfirm => OwnConfirmStep(base, s, read, seen, confirmed);
    case SettleTimer => SettleStep(base, s, read, seen, confirmed);
    case WrongBlock(_, _) => OtherStep(base, s, read, seen, confirmed, m);
    case OtherBlock(_, _, _, _) => OtherStep(base, s, read, seen, confirmed, m);
    case OtherConfirm(_, _, _, _) => OtherStep(base, s, read, seen, confirmed, m);
  }

  /** The read is still waiting for something. */
  ghost predicate Waiting(base: State, s: State, read: Read, seen: set<nat>, confirmed: bool) {
    base.pendingRead.None? && s.pendingRead.Some? && Progress(base, s, read, seen, confirmed)
  }

  /** Notifications and our own texts change the clipboard under a waiting read, but not the read. */
  lemma AsideStep(base: State, s: State, read: Read, seen: set<nat>, confirmed: bool, m: Message)
    requires Waiting(base, s, read, seen, confirmed) && IsAside(m)
    ensures Waiting(Aside(base, m), Handle(s, read, m), read, seen, confirmed)
  {
    hide SumUpTo;
  }

  lemma OverStep(s: State, read: Read, m: Message)
    requires s.pendingRead.None? && Honest(read, m)
    ensures Handle(s, read, m) == Aside(s, m) && Aside(s, m).pendingRead.None?
  {
  }

  /**
   The settle timer cuts off every text of more than one block when block 1 arrives and the timer fires: the read ends
   without the rest, and the text of block 1 is delivered exactly when the cut splits no character and the text is new.
   */
  lemma TruncationIsReached(base: State, generation: nat, text: seq<byte>)
    requires base.pendingRead.None? && BLOCK_BYTES < |text| <= MAX_TEXT_BYTES
    ensures var read := Read(generation, base.nextRequestId, text);
            var begun := base.(nextRequestId := base.nextRequestId + 1);
            var s := Handle(TextRequested(base, generation, true), read, OwnBlock(1));
            && Truncates(s, read, SettleTimer)
            && Handle(s, read, SettleTimer) == Outcome(begun, text[..BLOCK_BYTES])
    ensures var read := Read(generation, base.nextRequestId, text);
            var after := Handle(Handle(TextRequested(base, generation, true), read, OwnBlock(1)), read, SettleTimer);
            var block := text[..BLOCK_BYTES];
            var cut := StripTrailingNuls(DroppedByteOrderMark(block));
            var isNew := ValidUtf8(block) && base.lastSynchronizedText != Some(cut);
            && after.pendingRead.None?
            && (after.delivered == base.delivered + [cut] <==> isNew)
            && (after.delivered == base.delivered <==> !isNew)
  {
    DeliveredOf(base.(nextRequestId := base.nextRequestId + 1), text[..BLOCK_BYTES]);
    hide SumUpTo, Outcome, Handle, Sized, CutFrom;
    var read := Read(generation, base.nextRequestId, text);
    var begun := base.(nextRequestId := base.nextRequestId + 1);
    var asked := TextRequested(base, generation, true);
    AskedWaits(base, read);
    OwnBlockStep(begun, asked, read, {}, false, 1);
    var s := Handle(asked, read, OwnBlock(1));
    FirstBlockWaits(base, generation, text);
    assert {} + {1} == {1};
    OneId();
    SettleStep(begun, s, read, {1}, false);
    assert Prefix(text, 1) == text[..BLOCK_BYTES];
  }

  /** A finished read delivers its text exactly when it is well-formed and new. */
  lemma DeliveredOf(base: State, bytes: seq<byte>)
    ensures var after, text := Outcome(base, bytes), StripTrailingNuls(DroppedByteOrderMark(bytes));
            var isNew := ValidUtf8(bytes) && base.lastSynchronizedText != Some(text);
            && after.pendingRead.None?
            && after.delivered == if isNew then base.delivered + [text] else base.delivered
  {
  }

  /** Exactly the trailing NULs go. */
  lemma {:induction false} TrailingNulsGo(text: seq<byte>)
    ensures var r := StripTrailingNuls(text);
            && r <= text && (r != [] ==> r[|r| - 1] != 0)
            && forall i | |r| <= i < |text| :: text[i] == 0
    decreases |text|
  {
    if text != [] && text[|text| - 1] == 0 {
      TrailingNulsGo(text[..|text| - 1]);
    }
  }

  lemma OneId()
    ensures Ids(1) == {1}
  {
    assert Ids(0) == {};
  }

  /** A read that has just been asked for waits for everything. */
  lemma AskedWaits(base: State, read: Read)
    requires base.pendingRead.None? && read.requestId == base.nextRequestId
    ensures Waiting(base.(nextRequestId := base.nextRequestId + 1), TextRequested(base, read.generation, true), read,
                    {}, false)
  {
    hide SumUpTo;
    EmptyIsSized(read.generation, base.nextRequestId);
  }

  lemma FirstBlockWaits(base: State, generation: nat, text: seq<byte>)
    requires base.pendingRead.None? && BLOCK_BYTES < |text| <= MAX_TEXT_BYTES
    ensures var read := Read(generation, base.nextRequestId, text);
            var s := Handle(TextRequested(base, generation, true), read, OwnBlock(1));
            && s.pendingRead.Some? && s.pendingRead.value.settleTimer
            && s.pendingRead.value.expectedBlockCount.None? && |s.pendingRead.value.blocks| == 1
  {
  }

  // ---------------------------------------------------------------- whole transfers

  ghost predicate AllHonest(read: Read, messages: seq<Message>) {
    forall i | 0 <= i < |messages| :: Honest(read, messages[i])
  }

  ghost function Run(s: State, read: Read, messages: seq<Message>): State
    requires AllHonest(read, messages)
    decreases |messages|
  {
    if messages == [] then s else Run(Handle(s, read, messages[0]), read, messages[1..])
  }

  /** The clipboard as the notifications and our own texts alone would leave it. */
  function AsideRun(base: State, messages: seq<Message>): State
    decreases |messages|
  {
    if messages == [] then base else AsideRun(Aside(base, messages[0]), messages[1..])
  }

  function SeenIn(messages: seq<Message>): set<nat> {
    if messages == [] then {} else SeenAfter({}, messages[0]) + SeenIn(messages[1..])
  }

  function ConfirmedIn(messages: seq<Message>): bool {
    messages != [] && (messages[0].OwnConfirm? || ConfirmedIn(messages[1..]))
  }

  lemma {:induction false} OverRun(s: State, read: Read, messages: seq<Message>)
    requires s.pendingRead.None? && AllHonest(read, messages)
    ensures Run(s, read, messages) == AsideRun(s, messages)
    decreases |messages|
  {
    hide Handle, Aside;
    if messages != [] {
      OverStep(s, read, messages[0]);
      OverRun(Aside(s, messages[0]), read, messages[1..]);
    }
  }

  /** How a message ends a waiting read: without a text, cut off by the settle timer, or with the whole text. */
  ghost predicate EndedBy(base: State, s: State, read: Read, m: Message, t: State) {
    && t.pendingRead.None?
    && if GivesUp(m) then t == base
       else if Truncates(s, read, m) then t == Outcome(base, Prefix(read.text, |s.pendingRead.value.blocks|))
       else t == Outcome(base, read.text)
  }

  /** One message for a waiting read: it goes on waiting, or this message ends it. */
  lemma WaitingStep(base: State, s: State, read: Read, seen: set<nat>, confirmed: bool, m: Message)
    requires Waiting(base, s, read, seen, confirmed) && |read.text| <= MAX_TEXT_BYTES && Honest(read, m)
    ensures var t := Handle(s, read, m);
            || Waiting(Aside(base, m), t, read, SeenAfter(seen, m), ConfirmedAfter(confirmed, m))
            || EndedBy(base, s, read, m, t)
  {
    hide Handle, Outcome, Sized, CutFrom;
    if IsAside(m) {
      AsideStep(base, s, read, seen, confirmed, m);
    } else if GivesUp(m) {
      GivingUpEnds(base, s, read, seen, confirmed, m);
    } else if Truncates(s, read, m) {
      assert m == SettleTimer;
      SettleStep(base, s, read, seen, confirmed);
      OutcomeEnds(base, Prefix(read.text, |s.pendingRead.value.blocks|));
    } else {
      HonestStep(base, s, read, seen, confirmed, m);
    }
  }

  /** Such a message ends a waiting read, and leaves the clipboard as it was: nothing is delivered or remembered. */
  lemma GivingUpEnds(base: State, s: State, read: Read, seen: set<nat>, confirmed: bool, m: Message)
    requires Waiting(base, s, read, seen, confirmed) && Honest(read, m) && GivesUp(m)
    ensures var t := Handle(s, read, m);
            t == base && t.delivered == s.delivered && t.lastSynchronizedText == s.lastSynchronizedText
  {
    hide SumUpTo;
  }

  /** The read waits through the first k messages, the next one ends it, and after that only the rest goes on. */
  lemma {:induction false} RunProgress(
    base: State, s: State, read: Read, seen: set<nat>, confirmed: bool, messages: seq<Message>) returns (k: nat)
    requires Waiting(base, s, read, seen, confirmed) && |read.text| <= MAX_TEXT_BYTES
    requires AllHonest(read, messages)
    ensures k <= |messages|
    ensures Waiting(AsideRun(base, messages[..k]), Run(s, read, messages[..k]), read,
                    seen + SeenIn(messages[..k]), confirmed || ConfirmedIn(messages[..k]))
    ensures k < |messages| ==>
              var w := Run(s, read, messages[..k]);
              var t := Handle(w, read, messages[k]);
              && EndedBy(AsideRun(base, messages[..k]), w, read, messages[k], t)
              && Run(s, read, messages) == AsideRun(t, messages[k + 1..])
    decreases |messages|
  {
    hide Waiting, Handle, Aside, EndedBy, SeenAfter, ConfirmedAfter;
    assert seen + {} == seen;
    if messages == [] {
      k := 0;
    } else {
      var m, rest := messages[0], messages[1..];
      var t := Handle(s, read, m);
      WaitingStep(base, s, read, seen, confirmed, m);
      if EndedBy(base, s, read, m, t) {
        k := 0;
        EndedIsOver(base, s, read, m, t);
        OverRun(t, read, rest);
      } else {
        var k' := RunProgress(Aside(base, m), t, read, SeenAfter(seen, m), ConfirmedAfter(confirmed, m), rest);
        k := k' + 1;
        assert messages[..k][0] == m && messages[..k][1..] == rest[..k'];
        assert k < |messages| ==> messages[k + 1..] == rest[k' + 1..];
        SeenInFirst(seen, messages[..k]);
        ConfirmedInFirst(confirmed, messages[..k]);
      }
    }
  }

  lemma EndedIsOver(base: State, s: State, read: Read, m: Message, t: State)
    requires EndedBy(base, s, read, m, t)
    ensures t.pendingRead.None?
  {
  }

  lemma SeenInFirst(seen: set<nat>, messages: seq<Message>)
    requires messages != []
    ensures SeenAfter(seen, messages[0]) + SeenIn(messages[1..]) == seen + SeenIn(messages)
  {
  }

  lemma ConfirmedInFirst(confirmed: bool, messages: seq<Message>)
    requires messages != []
    ensures ConfirmedAfter(confirmed, messages[0]) || ConfirmedIn(messages[1..]) <==> confirmed || ConfirmedIn(messages)
  {
  }

  /**
   A read of any text, from the request on: in whatever order its blocks and its confirm arrive, however often,
   and whatever else happens, the read waits through the first k messages without delivering anything. The next one
   ends it: with nothing when it is given up, has failed or is answered with something impossible, with a proper prefix
   when the settle timer truncates, and otherwise with the whole text. It has ended once the confirm and every block are in.
   */
  lemma ReadDeliversWholeText(base: State, generation: nat, text: seq<byte>, messages: seq<Message>) returns (k: nat)
    requires base.pendingRead.None? && |text| <= MAX_TEXT_BYTES
    requires AllHonest(Read(generation, base.nextRequestId, text), messages)
    ensures k <= |messages|
    ensures var read := Read(generation, base.nextRequestId, text);
            var begun := base.(nextRequestId := base.nextRequestId + 1);
            var asked := TextRequested(base, generation, true);
            var w := Run(asked, read, messages[..k]);
            && w.pendingRead.Some? && w.delivered == AsideRun(begun, messages[..k]).delivered
            && (k < |messages| ==>
                  var t := Handle(w, read, messages[k]);
                  && EndedBy(AsideRun(begun, messages[..k]), w, read, messages[k], t)
                  && Run(asked, read, messages) == AsideRun(t, messages[k + 1..]))
            && (ConfirmedIn(messages) && SeenIn(messages) == Ids(BlockCount(text)) ==> k < |messages|)
  {
    hide SumUpTo, Sized, CutFrom, Run, Handle, AsideRun, EndedBy;
    var read := Read(generation, base.nextRequestId, text);
    var begun := base.(nextRequestId := base.nextRequestId + 1);
    var asked := TextRequested(base, generation, true);
    AskedWaits(base, read);
    k := RunProgress(begun, asked, read, {}, false, messages);
    assert {} + SeenIn(messages[..k]) == SeenIn(messages[..k]);
    assert k == |messages| ==> messages[..k] == messages;
  }

  // ---------------------------------------------------------------- answers and requests

  /** The sender is told that a block was accepted exactly for the blocks of the text that is being read. */
  lemma BlockIsAnswered(base: State, s: State, read: Read, seen: set<nat>, confirmed: bool, m: Message)
    requires Waiting(base, s, read, seen, confirmed) && |read.text| <= MAX_TEXT_BYTES && Honest(read, m)
    ensures match m
            case OwnBlock(i) => Accepted(s, read.generation, read.Key(), i, BlockOf(read.text, i))
            case WrongBlock(i, data) => !Accepted(s, read.generation, read.Key(), i, data)
            case OtherBlock(generation, key, i, data) => !Accepted(s, generation, key, i, data)
            case _ => true
  {
    hide Sized, CutFrom, BlockOf, SumUpTo;
    if m.OwnBlock? {
      StoreOfCut(s.pendingRead.value, read, m.blockId);
    }
  }

  /** Without a confirm, a last block that is short ends the read with the whole text once all others are there. */
  lemma ShortLastBlockEnds(base: State, s: State, read: Read, seen: set<nat>)
    requires Waiting(base, s, read, seen, false) && 0 < |read.text| <= MAX_TEXT_BYTES
    requires |read.text| % BLOCK_BYTES != 0 && seen + {BlockCount(read.text)} == Ids(BlockCount(read.text))
    ensures Handle(s, read, OwnBlock(BlockCount(read.text))) == Outcome(base, read.text)
  {
    hide SumUpTo, Sized, TriedToFinish, Outcome, BlockOf;
    var n := BlockCount(read.text);
    LastBlockIsShort(read.text);
    StoreOfCut(s.pendingRead.value, read, n);
    var stored := s.(pendingRead := Some(Stored(s.pendingRead.value, n, BlockOf(read.text, n))));
    IdsSize(n);
    assert |stored.pendingRead.value.blocks| == |stored.pendingRead.value.blocks.Keys| == n;
    FinishOfCut(base, stored, read, true);
    FinishOfCut(base, stored, read, false);
    WholeText(read.text);
  }

  lemma LastBlockIsShort(text: seq<byte>)
    requires 0 < |text| <= MAX_TEXT_BYTES && |text| % BLOCK_BYTES != 0
    ensures BlockCount(text) >= 1 && |BlockOf(text, BlockCount(text))| < BLOCK_BYTES
  {
  }

  /** Any block under the read's key that is possible is accepted and stored, whatever it says. */
  lemma PossibleBlockIsStored(s: State, read: Read, i: nat, data: seq<byte>)
    requires Accounted(s) && s.pendingRead.Some?
    requires s.pendingRead.value.generation == read.generation && s.pendingRead.value.requestId == read.requestId
    requires 1 <= i <= 1024 && |data| <= 0x2_0000
    requires s.pendingRead.value.receivedBytes - SizeOf(s.pendingRead.value.blocks, i) + |data| <= MAX_TEXT_BYTES
    ensures Accepted(s, read.generation, read.Key(), i, data)
    ensures var t := BlockReceived(s, read.generation, read.Key(), i, data);
            t.pendingRead.Some? ==>
              && t == s.(pendingRead := t.pendingRead) && t.pendingRead.value.blocks == s.pendingRead.value.blocks[i := data]
              && t.pendingRead.value.settleTimer == (|data| == BLOCK_BYTES)
  {
    hide SumUpTo, Sized, TriedToFinish;
    var stored := s.(pendingRead := Some(Stored(s.pendingRead.value, i, data)));
    StoredIsSized(s.pendingRead.value, i, data);
    FinishKeepsAccount(stored, true);
    FinishKeepsAccount(stored, false);
  }

  /** A successful confirm with a possible count makes the count known, and ends the read when its blocks are there. */
  lemma PossibleConfirmIsTaken(s: State, key: BlockKey, requestId: nat, count: nat)
    requires s.pendingRead.Some? && s.pendingRead.value.Key() == key && s.pendingRead.value.requestId == requestId
    requires count <= 1024
    ensures var t, p := FormatConfirmed(s, key, requestId, RESULT_SUCCEEDED, count), s.pendingRead.value;
            && (t.pendingRead.None? <==> count == 0 || p.blocks.Keys == Ids(count))
            && (t.pendingRead.Some? ==> t == s.(pendingRead := Some(p.(expectedBlockCount := Some(count)))))
  {
    ExactlyIds(s.pendingRead.value.blocks, count);
    hide Joined, DecodeText;
  }

  /** One read at a time: a request while one is pending changes nothing, and one that is not sent leaves none. */
  lemma RequestBeginsOneRead(s: State, generation: nat, sent: bool)
    ensures var t := TextRequested(s, generation, sent);
            && t.delivered == s.delivered && t.lastSynchronizedText == s.lastSynchronizedText
            && (s.pendingRead.Some? ==> t == s)
            && (s.pendingRead.None? ==> t.nextRequestId == s.nextRequestId + 1)
            && (s.pendingRead.None? && !sent ==> t.pendingRead.None?)
            && (s.pendingRead.None? && sent ==>
                  && t.pendingRead.Some? && t.pendingRead.value.Key() == Own(generation, s.nextRequestId)
                  && t.pendingRead.value.requestId == s.nextRequestId && t.pendingRead.value.blocks == map[]
                  && t.pendingRead.value.expectedBlockCount.None? && !t.pendingRead.value.settleTimer)
  {
  }

  // ---------------------------------------------------------------- both directions of the clipboard

  /** The text both sides agree on after some messages: the last one that was sent or came as a text. */
  function LastSynchronized(start: Option<seq<byte>>, messages: seq<Message>): Option<seq<byte>> {
    if messages == [] then start
    else
      match messages[|messages| - 1]
      case TextSent(text, true) => Some(text)
      case Notification(formatId, text) =>
        if formatId == FORMAT_TEXT || formatId == FORMAT_UNICODE_TEXT then Some(text)
        else LastSynchronized(start, messages[..|messages| - 1])
      case _ => LastSynchronized(start, messages[..|messages| - 1])
  }

  /** The notified texts that were new when they came. */
  function NewTexts(start: Option<seq<byte>>, messages: seq<Message>): seq<seq<byte>> {
    if messages == [] then []
    else
      var before, m := messages[..|messages| - 1], messages[|messages| - 1];
      NewTexts(start, before)
      + (if m.Notification? && (m.formatId == FORMAT_TEXT || m.formatId == FORMAT_UNICODE_TEXT)
            && LastSynchronized(start, before) != Some(m.text) then [m.text] else [])
  }

  function TextsSent(messages: seq<Message>): nat {
    if messages == [] then 0
    else TextsSent(messages[..|messages| - 1]) + if messages[|messages| - 1].TextSent? then 1 else 0
  }

  lemma {:induction false} AsideRunLast(base: State, messages: seq<Message>, m: Message)
    ensures AsideRun(base, messages + [m]) == Aside(AsideRun(base, messages), m)
    decreases |messages|
  {
    hide Aside;
    if messages == [] {
      assert (messages + [m])[1..] == [];
    } else {
      assert (messages + [m])[0] == messages[0] && (messages + [m])[1..] == messages[1..] + [m];
      AsideRunLast(Aside(base, messages[0]), messages[1..], m);
    }
  }

  /**
   Over any notifications and texts of our own: a notified text is delivered exactly when it is not the one last sent or
   notified, so neither an echo of our own text nor a repetition is, and every text that is sent uses up a request id.
   */
  lemma {:induction false} OnlyNewTextsAreDelivered(base: State, messages: seq<Message>)
    ensures var t := AsideRun(base, messages);
            && t.delivered == base.delivered + NewTexts(base.lastSynchronizedText, messages)
            && t.lastSynchronizedText == LastSynchronized(base.lastSynchronizedText, messages)
            && t.nextRequestId == base.nextRequestId + TextsSent(messages)
            && t.pendingRead == base.pendingRead
    decreases |messages|
  {
    hide AsideRun;
    if messages == [] {
      NothingAside(base);
    } else {
      var before, m := messages[..|messages| - 1], messages[|messages| - 1];
      assert messages == before + [m];
      OnlyNewTextsAreDelivered(base, before);
      AsideRunLast(base, before, m);
    }
  }

  lemma NothingAside(base: State)
    ensures AsideRun(base, []) == base && base.delivered + [] == base.delivered
  {
  }
}
