/**
 The bounded log of signal events, kept twice: in memory by the Node service
 (backend/src/services/remoteControlService.ts) and in a table by the Worker
 (cloudflare/src/signal/signalSessionStore.ts).

 Both only ever look at the log they kept after the previous event. The specification looks at the whole
 history since the last clear: the log is its longest suffix within the count, byte and age bounds.
 */
module SignalEventLog {
  import opened BoundedLog

  /** Texts are their UTF-8 bytes, which is what both size measures count. */
  type Utf8Text = seq<bv8>

  datatype Event = Event(id: nat, name: Utf8Text, payload: Utf8Text, receivedAt: int)

  // ---------------------------------------------------------------- specification

  predicate Fresh(event: Event, now: int) {
    event.receivedAt >= now - RETENTION_MS
  }

  ghost predicate Fits(size: Event -> nat, log: seq<Event>, now: int) {
    InBounds(size, log) && forall e <- log :: Fresh(e, now)
  }

  ghost function LongestFit(size: Event -> nat, history: seq<Event>, now: int): seq<Event> {
    if Fits(size, history, now) then history else LongestFit(size, history[1..], now)
  }

  lemma FitsSuffix(size: Event -> nat, log: seq<Event>, now: int, earlier: int, k: nat)
    requires k <= |log| && Fits(size, log, now) && earlier <= now
    ensures Fits(size, log[k..], earlier)
  {
    SuffixInBounds(size, log, k);
    assert forall e <- log[k..] :: e in log;
  }

  /** The specification is what its name says: a suffix that fits, and no longer suffix does. */
  lemma {:induction false} LongestFitIsLongest(size: Event -> nat, history: seq<Event>, now: int)
    returns (k: nat)
    ensures k <= |history| && LongestFit(size, history, now) == history[k..]
    ensures Fits(size, history[k..], now)
    ensures forall j: nat | j < k :: !Fits(size, history[j..], now)
  {
    if Fits(size, history, now) {
      k := 0;
    } else {
      var k' := LongestFitIsLongest(size, history[1..], now);
      k := k' + 1;
      assert history[k..] == history[1..][k'..];
      forall j: nat | j < k
        ensures !Fits(size, history[j..], now)
      {
        if j > 0 {
          assert history[j..] == history[1..][j - 1..];
        } else {
          assert history[0..] == history;
        }
      }
    }
  }

  lemma {:induction false} LongestFitAt(size: Event -> nat, history: seq<Event>, now: int, k: nat)
    requires k <= |history| && Fits(size, history[k..], now)
    requires k > 0 ==> !Fits(size, history[k - 1..], now)
    ensures LongestFit(size, history, now) == history[k..]
  {
    if k == 0 {
      assert history[0..] == history;
    } else {
      if Fits(size, history, now) {
        FitsSuffix(size, history, now, now, k - 1);
      }
      assert history[1..][k - 1..] == history[k..];
      if k > 1 {
        assert history[1..][k - 2..] == history[k - 1..];
      }
      LongestFitAt(size, history[1..], now, k - 1);
    }
  }

  /**
   One step on the kept log is one step on the whole history: events that were dropped earlier can be
   forgotten, because every bound only gets tighter as events arrive and time passes.
   */
  lemma ForgettingIsSafe(size: Event -> nat, history: seq<Event>, earlier: int, added: seq<Event>, now: int)
    requires earlier <= now
    ensures LongestFit(size, LongestFit(size, history, earlier) + added, now)
         == LongestFit(size, history + added, now)
  {
    var k := LongestFitIsLongest(size, history, earlier);
    var m := LongestFitIsLongest(size, history + added, now);
    var all := history + added;
    if m < k {
      assert all[m..] == history[m..] + added;
      FitsPrefix(size, history[m..], added, now);
    }
    var kept := history[k..] + added;
    assert kept == all[k..];
    assert kept[m - k..] == all[m..];
    if m > k {
      assert kept[m - k - 1..] == all[m - 1..];
    }
    LongestFitAt(size, kept, now, m - k);
  }

  lemma FitsPrefix(size: Event -> nat, a: seq<Event>, b: seq<Event>, now: int)
    ensures Fits(size, a + b, now) ==> Fits(size, a, now)
  {
    TotalSizeAppend(size, a, b);
    assert forall e <- a :: e in a + b;
  }

  /** On events that are all fresh the count and byte bounds alone are the specification. */
  lemma {:induction false} WithinIsLongestFit(size: Event -> nat, log: seq<Event>, now: int)
    requires forall e <- log :: Fresh(e, now)
    ensures Within(size, log) == LongestFit(size, log, now)
    decreases |log|
  {
    if !Fits(size, log, now) && log != [] {
      assert forall e <- log[1..] :: e in log;
      WithinIsLongestFit(size, log[1..], now);
    }
  }

  // ---------------------------------------------------------------- shared list operations

  function FreshAt(now: int): Event -> bool {
    (e: Event) => Fresh(e, now)
  }

  function NewerThan(id: nat): Event -> bool {
    (e: Event) => e.id > id
  }

  /** While the clock does not go back, events are in order of time. */
  ghost predicate InTimeOrder(log: seq<Event>) {
    forall i, j | 0 <= i < j < |log| :: log[i].receivedAt <= log[j].receivedAt
  }

  ghost predicate InIdOrder(log: seq<Event>) {
    forall i, j | 0 <= i < j < |log| :: log[i].id < log[j].id
  }

  /** With times in order, dropping the stale events drops a prefix. */
  lemma {:induction false} FirstFresh(log: seq<Event>, now: int) returns (k: nat)
    requires InTimeOrder(log)
    ensures k <= |log| && forall i | 0 <= i < |log| :: Fresh(log[i], now) <==> i >= k
  {
    k := 0;
    while k < |log| && !Fresh(log[k], now)
      invariant k <= |log| && forall i | 0 <= i < k :: !Fresh(log[i], now)
    {
      k := k + 1;
    }
  }

  /** Dropping the stale events of a log that was the longest fit before gives the longest fit now. */
  lemma PrunedIsLongest(size: Event -> nat, history: seq<Event>, earlier: int, now: int)
    requires InTimeOrder(history) && earlier <= now
    ensures Keep(LongestFit(size, history, earlier), FreshAt(now)) == LongestFit(size, history, now)
  {
    hide TotalSize, Keep;
    var k0 := LongestFitIsLongest(size, history, earlier);
    var log := history[k0..];
    var k := FirstFresh(log, now);
    KeepFrom(log, FreshAt(now), k);
    FitsSuffix(size, log, earlier, earlier, k);
    if k > 0 {
      assert log[k - 1..][0] == log[k - 1];
    }
    LongestFitAt(size, log, now, k);
    ForgettingIsSafe(size, history, earlier, [], now);
    assert history + [] == history && log + [] == log;
  }

  lemma SuffixOf(log: seq<Event>, a: nat, b: nat)
    requires a + b <= |log|
    ensures log[a..][b..] == log[a + b..]
  {
  }

  /** A new event has the next id, and unless the clock has gone back a time not before any other. */
  lemma HistoryGrows(history: seq<Event>, record: Event)
    requires InIdOrder(history) && forall e <- history :: e.id < record.id
    ensures InIdOrder(history + [record]) && forall e <- history + [record] :: e.id <= record.id
    ensures InTimeOrder(history) && (forall e <- history :: e.receivedAt <= record.receivedAt) ==>
              && InTimeOrder(history + [record])
              && forall e <- history + [record] :: e.receivedAt <= record.receivedAt
  {
  }

  /** A log is part of a history when it holds some of its events, in their order. */
  ghost predicate PartOf(log: seq<Event>, history: seq<Event>) {
    InIdOrder(log) && forall e <- log :: e in history
  }

  lemma {:induction false} KeepInOrder(log: seq<Event>, keep: Event -> bool)
    requires InIdOrder(log)
    ensures InIdOrder(Keep(log, keep))
  {
    if log != [] {
      KeepInOrder(log[1..], keep);
      assert log[1..] == log[1..] && forall e <- log[1..] :: log[0].id < e.id;
      var kept := Keep(log[1..], keep);
      assert forall i | 0 <= i < |kept| :: kept[i] in kept;
    }
  }

  lemma {:induction false} WithinInOrder(size: Event -> nat, log: seq<Event>)
    requires InIdOrder(log)
    ensures InIdOrder(Within(size, log))
    decreases |log|
  {
    if !InBounds(size, log) {
      WithinInOrder(size, log[1..]);
    }
  }

  /** What a filter and the bounds leave of a part of a history is part of it. */
  lemma StaysPart(size: Event -> nat, log: seq<Event>, history: seq<Event>, keep: Event -> bool)
    requires PartOf(log, history)
    ensures PartOf(Keep(log, keep), history) && PartOf(Within(size, log), history)
  {
    hide Keep, Within;
    KeepInOrder(log, keep);
    WithinInOrder(size, log);
  }

  lemma PartGrows(log: seq<Event>, history: seq<Event>, record: Event)
    requires PartOf(log, history) && forall e <- history :: e.id < record.id
    ensures PartOf(log + [record], history + [record])
  {
    forall i | 0 <= i < |log|
      ensures log[i].id < record.id
    {
      assert log[i] in log;
    }
  }

  /**
   The log kept of a history, under any clock: some of its events in their order, within the bounds. While the clock
   is steady, that is it has not gone back since the last clear, the log is the longest fit.
   */
  ghost predicate LogInv(size: Event -> nat, history: seq<Event>, log: seq<Event>, now: int, steady: bool) {
    && InIdOrder(history) && PartOf(log, history) && InBounds(size, log)
    && (steady ==> InTimeOrder(history) && log == LongestFit(size, history, now))
  }

  lemma PruneKeepsInv(
    size: Event -> nat, history: seq<Event>, log: seq<Event>, earlier: int, steady: bool, now: int)
    requires LogInv(size, history, log, earlier, steady)
    ensures var kept := Keep(log, FreshAt(now));
            LogInv(size, history, kept, now, steady && earlier <= now) && Fits(size, kept, now)
  {
    hide LongestFit, Keep, TotalSize, PartOf, InIdOrder, InTimeOrder;
    if steady && earlier <= now {
      PrunedIsLongest(size, history, earlier, now);
    }
    StaysPart(size, log, history, FreshAt(now));
    KeepInBounds(size, log, FreshAt(now));
  }

  /** A new event is added to the log, and the bounds, with or without the age, are applied. */
  lemma AddKeepsInv(
    size: Event -> nat, history: seq<Event>, log: seq<Event>, record: Event, keep: Event -> bool, now: int,
    steady: bool)
    requires InIdOrder(history) && PartOf(log, history) && forall e <- history :: e.id < record.id
    requires var all := history + [record];
             steady ==> InTimeOrder(all) && Within(size, Keep(log + [record], keep)) == LongestFit(size, all, now)
    ensures LogInv(size, history + [record], Within(size, Keep(log + [record], keep)), now, steady)
  {
    hide LongestFit, Keep, Within, PartOf, InIdOrder, InTimeOrder, InBounds;
    HistoryGrows(history, record);
    PartGrows(log, history, record);
    StaysPart(size, log + [record], history + [record], keep);
    StaysPart(size, Keep(log + [record], keep), history + [record], keep);
  }

  // ---------------------------------------------------------------- the Node service

  /** `size` is the byte length of an event's JSON text. */
  class SignalEvents {
    const size: Event -> nat
    var events: seq<Event>
    var nextId: nat
    ghost var history: seq<Event>
    ghost var lastNow: int
    ghost var steady: bool

    ghost predicate Valid()
      reads this
    {
      && LogInv(size, history, events, lastNow, steady)
      && (forall e <- history :: e.id < nextId && (steady ==> e.receivedAt <= lastNow))
    }

    constructor (size: Event -> nat, now: int)
      ensures Valid() && history == [] && lastNow == now && steady && this.size == size
    {
      this.size := size;
      events, nextId := [], 1;
      history, lastNow, steady := [], now, true;
    }

    /** Starting a new signal connection forgets everything and restarts the ids. */
    method Clear(ghost now: int)
      requires Valid()
      modifies this
      ensures Valid() && history == [] && events == [] && nextId == 1 && lastNow == now && steady
    {
      events, nextId := [], 1;
      history, lastNow, steady := [], now, true;
    }

    method Prune(now: int)
      requires Valid()
      modifies `events, `lastNow, `steady
      ensures Valid() && lastNow == now && steady == (old(steady) && old(lastNow) <= now)
      ensures events == Keep(old(events), FreshAt(now)) && Fits(size, events, now)
      ensures steady ==> events == LongestFit(size, history, now)
    {
      PruneKeepsInv(size, history, events, lastNow, steady, now);
      SteadyIsLongest(size, history, Keep(events, FreshAt(now)), now, steady && lastNow <= now);
      hide LogInv, Fits, LongestFit, Keep;
      steady := steady && lastNow <= now;
      events := Keep(events, FreshAt(now));
      lastNow := now;
    }

    method Record(name: Utf8Text, payload: Utf8Text, receivedAt: int, now: int) returns (record: Event)
      requires Valid()
      modifies this
      ensures Valid() && lastNow == now && steady == (old(steady) && old(lastNow) <= receivedAt <= now)
      ensures record == Event(old(nextId), name, payload, receivedAt) && nextId == old(nextId) + 1
      ensures history == old(history) + [record]
      ensures events == Within(size, Keep(old(events) + [record], FreshAt(now))) && Fits(size, events, now)
      ensures steady ==> events == LongestFit(size, history, now)
    {
      record := Event(nextId, name, payload, receivedAt);
      RecordKeepsInv(size, history, events, lastNow, steady, record, now);
      hide LogInv, Fits, LongestFit, Keep, Within, Newest;
      nextId := nextId + 1;
      var current := Keep(events + [record], FreshAt(now));
      var newest := Newest(current);
      var startIndex := FirstRetained(newest);
      NewestWithin(size, current, startIndex);
      steady := steady && lastNow <= receivedAt <= now;
      events := newest[startIndex..];
      history := history + [record];
      lastNow := now;
    }

    /** Walks back from the newest event while the byte budget lasts. */
    method FirstRetained(newest: seq<Event>) returns (startIndex: nat)
      ensures IsFirstRetained(size, newest, startIndex)
    {
      var retainedBytes := 0;
      startIndex := |newest|;
      while startIndex > 0
        invariant startIndex <= |newest|
        invariant retainedBytes == TotalSize(size, newest[startIndex..]) <= MAX_EVENT_BYTES
      {
        retainedBytes := retainedBytes + size(newest[startIndex - 1]);
        assert newest[startIndex - 1..] == [newest[startIndex - 1]] + newest[startIndex..];
        if retainedBytes > MAX_EVENT_BYTES {
          break;
        }
        startIndex := startIndex - 1;
      }
    }

    method EventsAfter(afterEventId: nat, now: int) returns (r: seq<Event>)
      requires Valid()
      modifies `events, `lastNow, `steady
      ensures Valid() && lastNow == now && steady == (old(steady) && old(lastNow) <= now)
      ensures events == Keep(old(events), FreshAt(now)) && r == Keep(events, NewerThan(afterEventId))
      ensures steady ==> r == Keep(LongestFit(size, history, now), NewerThan(afterEventId))
    {
      Prune(now);
      r := Keep(events, NewerThan(afterEventId));
    }
  }

  /** `slice(-200)` */
  function Newest(log: seq<Event>): seq<Event> {
    if |log| > MAX_EVENTS then log[|log| - MAX_EVENTS..] else log
  }

  ghost predicate IsFirstRetained(size: Event -> nat, newest: seq<Event>, start: nat) {
    && start <= |newest|
    && TotalSize(size, newest[start..]) <= MAX_EVENT_BYTES
    && (start > 0 ==> TotalSize(size, newest[start - 1..]) > MAX_EVENT_BYTES)
  }

  /** The slice and the byte budget together leave the longest suffix within both bounds. */
  lemma NewestWithin(size: Event -> nat, log: seq<Event>, start: nat)
    requires IsFirstRetained(size, Newest(log), start)
    ensures Newest(log)[start..] == Within(size, log)
  {
    hide TotalSize, Within;
    var b := if |log| > MAX_EVENTS then |log| - MAX_EVENTS else 0;
    SuffixOf(log, b, start);
    if start > 0 {
      SuffixOf(log, b, start - 1);
    }
    WithinAt(size, log, b + start);
  }

  /** Filtering by age and keeping the bounds is one step of the specification. */
  lemma RetainedIsLongest(size: Event -> nat, history: seq<Event>, earlier: int, record: Event, now: int)
    requires InTimeOrder(history + [record]) && earlier <= now
    ensures Within(size, Keep(LongestFit(size, history, earlier) + [record], FreshAt(now)))
         == LongestFit(size, history + [record], now)
  {
    hide TotalSize, Keep, LongestFit, Within;
    var k := LogIsSuffix(size, history, earlier, record);
    var all := LongestFit(size, history, earlier) + [record];
    var a := FirstFresh(all, now);
    KeepFrom(all, FreshAt(now), a);
    WithinIsLongestFit(size, all[a..], now);
    StaleIsDropped(size, all, now, a);
    ForgettingIsSafe(size, history, earlier, [record], now);
  }

  lemma SteadyIsLongest(size: Event -> nat, history: seq<Event>, log: seq<Event>, now: int, steady: bool)
    requires LogInv(size, history, log, now, steady)
    ensures steady ==> log == LongestFit(size, history, now)
  {
  }

  /** A new event in the Node service. */
  lemma RecordKeepsInv(
    size: Event -> nat, history: seq<Event>, log: seq<Event>, earlier: int, steady: bool, record: Event, now: int)
    requires LogInv(size, history, log, earlier, steady)
    requires forall e <- history :: e.id < record.id && (steady ==> e.receivedAt <= earlier)
    ensures var t, all := steady && earlier <= record.receivedAt <= now, history + [record];
            var kept := Within(size, Keep(log + [record], FreshAt(now)));
            && LogInv(size, all, kept, now, t) && Fits(size, kept, now) && (t ==> kept == LongestFit(size, all, now))
            && forall e <- all :: e.id <= record.id && (t ==> e.receivedAt <= now)
  {
    hide LongestFit, Keep, Within, PartOf, InIdOrder, InTimeOrder, InBounds;
    var t := steady && earlier <= record.receivedAt <= now;
    HistoryGrows(history, record);
    if t {
      RetainedIsLongest(size, history, earlier, record, now);
    }
    AddKeepsInv(size, history, log, record, FreshAt(now), now, t);
  }

  /** A stale prefix makes no difference to the specification. */
  lemma StaleIsDropped(size: Event -> nat, all: seq<Event>, now: int, a: nat)
    requires a <= |all| && (a > 0 ==> !Fresh(all[a - 1], now))
    ensures LongestFit(size, all, now) == LongestFit(size, all[a..], now)
  {
    hide TotalSize;
    var m := LongestFitIsLongest(size, all[a..], now);
    SuffixOf(all, a, m);
    if m > 0 {
      SuffixOf(all, a, m - 1);
    } else if a > 0 {
      assert all[a - 1..][0] == all[a - 1];
    }
    LongestFitAt(size, all, now, a + m);
  }

  /** The log a new event finds, with that event at its end, is a suffix of the whole history with it. */
  lemma LogIsSuffix(size: Event -> nat, history: seq<Event>, earlier: int, record: Event) returns (k: nat)
    ensures k <= |history|
    ensures LongestFit(size, history, earlier) + [record] == (history + [record])[k..]
  {
    hide TotalSize, Fits;
    k := LongestFitIsLongest(size, history, earlier);
  }

  /**
   When the clock goes back, a prune drops nothing, and the log is the longest fit if and only if nothing was dropped
   or the newest event that was dropped would still not fit.
   */
  lemma ClockBackIff(size: Event -> nat, history: seq<Event>, earlier: int, now: int)
    requires now <= earlier
    ensures var log := LongestFit(size, history, earlier);
            && |log| <= |history|
            && Keep(log, FreshAt(now)) == log
            && (log == LongestFit(size, history, now) <==>
                  |log| == |history| || !Fits(size, history[|history| - |log| - 1..], now))
  {
    hide TotalSize, Keep, InBounds;
    var k := LongestFitIsLongest(size, history, earlier);
    var m := LongestFitIsLongest(size, history, now);
    var log := history[k..];
    FitsSuffix(size, log, earlier, now, 0);
    assert log[0..] == log;
    KeepFrom(log, FreshAt(now), 0);
    if k > 0 && !Fits(size, history[k - 1..], now) {
      LongestFitAt(size, history, now, k);
    }
  }

  /** When the clock goes back, an event that was dropped as stale would be fresh again, but it stays dropped. */
  lemma ClockGoesBack(size: Event -> nat, a: Event, b: Event)
    requires a.receivedAt + RETENTION_MS < b.receivedAt && size(a) + size(b) <= MAX_EVENT_BYTES
    ensures var late, back := b.receivedAt, a.receivedAt;
            && Within(size, Keep([a] + [b], FreshAt(late))) == [b]
            && Keep([b], FreshAt(back)) == [b] && LongestFit(size, [a] + [b], back) == [a] + [b]
  {
    assert ([a] + [b])[1..] == [b] && [b][1..] == [];
    assert Keep([b], FreshAt(b.receivedAt)) == [b] && Keep([b], FreshAt(a.receivedAt)) == [b];
    assert TotalSize(size, [b]) == size(b) && TotalSize(size, [a] + [b]) == size(a) + size(b);
  }

  // ---------------------------------------------------------------- the Worker's table

  /** What the table's byte budget counts for a row: `length(CAST(... AS BLOB))` of its two texts, and 128. */
  function RowSize(row: Event): nat {
    |row.payload| + |row.name| + 128
  }

  /** `SELECT COUNT(*) ... WHERE id >= ?` */
  function CountFrom(rows: seq<Event>, id: nat): nat {
    if rows == [] then 0 else (if rows[0].id >= id then 1 else 0) + CountFrom(rows[1..], id)
  }

  /** The running total of `SUM(...) OVER (ORDER BY id DESC)` at the row with this id. */
  function SumFrom(rows: seq<Event>, id: nat): nat {
    if rows == [] then 0 else (if rows[0].id >= id then RowSize(rows[0]) else 0) + SumFrom(rows[1..], id)
  }

  /** `id IN (SELECT id ... ORDER BY id DESC LIMIT 200)` */
  function AmongNewest(rows: seq<Event>): Event -> bool {
    (e: Event) => CountFrom(rows, e.id) <= MAX_EVENTS
  }

  function WithinBudget(rows: seq<Event>): Event -> bool {
    (e: Event) => SumFrom(rows, e.id) <= MAX_EVENT_BYTES
  }

  lemma {:induction false} FromIdIsSuffix(rows: seq<Event>, id: nat, i: nat)
    requires InIdOrder(rows) && i < |rows| && id == rows[i].id
    ensures CountFrom(rows, id) == |rows| - i && SumFrom(rows, id) == TotalSize(RowSize, rows[i..])
  {
    if i == 0 {
      AllFromId(rows, id);
      assert rows[0..] == rows;
    } else {
      assert rows[i..] == rows[1..][i - 1..];
      FromIdIsSuffix(rows[1..], id, i - 1);
    }
  }

  lemma {:induction false} AllFromId(rows: seq<Event>, id: nat)
    requires forall row <- rows :: row.id >= id
    ensures CountFrom(rows, id) == |rows| && SumFrom(rows, id) == TotalSize(RowSize, rows)
  {
    if rows != [] {
      AllFromId(rows[1..], id);
    }
  }

  /** With sizes non-negative, running totals fall towards the newest row, so the budget cuts a prefix. */
  lemma {:induction false} FirstWithinBudget(rows: seq<Event>) returns (k: nat)
    ensures k <= |rows|
    ensures forall i | 0 <= i < |rows| :: TotalSize(RowSize, rows[i..]) <= MAX_EVENT_BYTES <==> i >= k
  {
    hide TotalSize;
    k := 0;
    while k < |rows| && TotalSize(RowSize, rows[k..]) > MAX_EVENT_BYTES
      invariant k <= |rows| && forall i | 0 <= i < k :: TotalSize(RowSize, rows[i..]) > MAX_EVENT_BYTES
    {
      k := k + 1;
    }
    forall i | k <= i < |rows|
      ensures TotalSize(RowSize, rows[i..]) <= MAX_EVENT_BYTES
    {
      assert rows[k..] == rows[k..i] + rows[i..];
      TotalSizeAppend(RowSize, rows[k..i], rows[i..]);
    }
  }

  lemma NewestRows(all: seq<Event>)
    requires InIdOrder(all)
    ensures Keep(all, AmongNewest(all)) == Newest(all)
  {
    hide Keep, CountFrom, SumFrom;
    var b := if |all| > MAX_EVENTS then |all| - MAX_EVENTS else 0;
    forall i | 0 <= i < |all|
      ensures AmongNewest(all)(all[i]) <==> i >= b
    {
      FromIdIsSuffix(all, all[i].id, i);
    }
    KeepFrom(all, AmongNewest(all), b);
  }

  lemma RowsWithinBudget(newest: seq<Event>) returns (c: nat)
    requires InIdOrder(newest)
    ensures IsFirstRetained(RowSize, newest, c) && Keep(newest, WithinBudget(newest)) == newest[c..]
  {
    hide Keep, CountFrom, SumFrom, TotalSize;
    c := FirstWithinBudget(newest);
    forall i | 0 <= i < |newest|
      ensures WithinBudget(newest)(newest[i]) <==> i >= c
    {
      FromIdIsSuffix(newest, newest[i].id, i);
    }
    KeepFrom(newest, WithinBudget(newest), c);
    if c == |newest| {
      NoEvents(newest, c);
    }
  }

  /** The two deletions after an insert leave the longest suffix within both bounds. */
  lemma DeletionsAreWithin(rows: seq<Event>)
    requires InIdOrder(rows)
    ensures var newest := Keep(rows, AmongNewest(rows));
            Keep(newest, WithinBudget(newest)) == Within(RowSize, rows)
  {
    hide TotalSize, Keep, IsFirstRetained, AmongNewest, WithinBudget, Within;
    NewestRows(rows);
    var c := RowsWithinBudget(Newest(rows));
    NewestWithin(RowSize, rows, c);
  }

  /** With the prune before the insert they are one step of the specification. */
  lemma RowsAreLongest(history: seq<Event>, now: int, record: Event)
    requires InIdOrder(history + [record]) && InTimeOrder(history + [record]) && record.receivedAt >= now
    ensures var rows := LongestFit(RowSize, history, now) + [record];
            var newest := Keep(rows, AmongNewest(rows));
            Keep(newest, WithinBudget(newest)) == LongestFit(RowSize, history + [record], now)
  {
    hide TotalSize, Keep, AmongNewest, WithinBudget, Within;
    var k := LogIsSuffix(RowSize, history, now, record);
    var rows := LongestFit(RowSize, history, now) + [record];
    var m := LongestFitIsLongest(RowSize, history, now);
    DeletionsAreWithin(rows);
    WithinIsLongestFit(RowSize, rows, now);
    ForgettingIsSafe(RowSize, history, now, [record], now);
  }

  /** No event so far was recorded after this time. */
  ghost predicate NoneLater(history: seq<Event>, time: int) {
    forall e <- history :: e.receivedAt <= time
  }

  /** A new row in the table, after the prune. */
  lemma InsertKeepsInv(history: seq<Event>, rows: seq<Event>, now: int, steady: bool, record: Event)
    requires LogInv(RowSize, history, rows, now, steady) && forall e <- history :: e.id < record.id
    ensures var t := steady && now <= record.receivedAt && NoneLater(history, record.receivedAt);
            var all, grown := history + [record], rows + [record];
            var newest := Keep(grown, AmongNewest(grown));
            var kept := Keep(newest, WithinBudget(newest));
            && kept == Within(RowSize, grown) && LogInv(RowSize, all, kept, now, t)
            && (t ==> kept == LongestFit(RowSize, all, now)) && forall e <- all :: e.id <= record.id
  {
    hide LongestFit, Keep, Within, PartOf, InIdOrder, InTimeOrder, InBounds, AmongNewest, WithinBudget;
    var t := steady && now <= record.receivedAt && NoneLater(history, record.receivedAt);
    HistoryGrows(history, record);
    GrownInOrder(history, rows, record);
    DeletionsAreWithin(rows + [record]);
    KeepAll(rows + [record]);
    if t {
      RowsAreLongest(history, now, record);
    }
    AddKeepsInv(RowSize, history, rows, record, Everything(), now, t);
  }

  function Everything(): Event -> bool {
    (e: Event) => true
  }

  lemma KeepAll(log: seq<Event>)
    ensures Keep(log, Everything()) == log
  {
    KeepFrom(log, Everything(), 0);
  }

  lemma GrownInOrder(history: seq<Event>, rows: seq<Event>, record: Event)
    requires PartOf(rows, history) && forall e <- history :: e.id < record.id
    ensures InIdOrder(rows + [record])
  {
    PartGrows(rows, history, record);
  }

  lemma NoEvents(rows: seq<Event>, c: nat)
    requires c == |rows|
    ensures TotalSize(RowSize, rows[c..]) == 0
  {
  }

  function Limited(rows: seq<Event>, limit: nat): seq<Event> {
    if |rows| > limit then rows[..limit] else rows
  }

  /** The event table, in the order of its primary key; `steady` as for the log of the Node service. */
  class SignalSessionStore {
    var rows: seq<Event>
    var nextId: nat
    ghost var history: seq<Event>
    ghost var lastPrune: int
    ghost var steady: bool

    ghost predicate Valid()
      reads this
    {
      LogInv(RowSize, history, rows, lastPrune, steady) && forall e <- history :: e.id < nextId
    }

    constructor (now: int)
      ensures Valid() && history == [] && lastPrune == now && steady
    {
      rows, nextId := [], 1;
      history, lastPrune, steady := [], now, true;
    }

    /** Ids keep counting after a clear. */
    method ClearEvents(ghost now: int)
      requires Valid()
      modifies this
      ensures Valid() && history == [] && rows == [] && nextId == old(nextId) && lastPrune == now && steady
    {
      rows, history, lastPrune, steady := [], [], now, true;
    }

    method PruneEvents(now: int)
      requires Valid()
      modifies `rows, `lastPrune, `steady
      ensures Valid() && lastPrune == now && steady == (old(steady) && old(lastPrune) <= now)
      ensures rows == Keep(old(rows), FreshAt(now)) && Fits(RowSize, rows, now)
      ensures steady ==> rows == LongestFit(RowSize, history, now)
    {
      PruneKeepsInv(RowSize, history, rows, lastPrune, steady, now);
      SteadyIsLongest(RowSize, history, Keep(rows, FreshAt(now)), now, steady && lastPrune <= now);
      hide LogInv, Fits, LongestFit, Keep;
      steady := steady && lastPrune <= now;
      rows := Keep(rows, FreshAt(now));
      lastPrune := now;
    }

    /** `now` is read for the prune, `receivedAt` a moment later for the row. */
    method RecordEvent(name: Utf8Text, payload: Utf8Text, now: int, receivedAt: int)
      requires Valid()
      modifies this
      ensures Valid() && lastPrune == now && nextId == old(nextId) + 1
      ensures steady == (old(steady) && old(lastPrune) <= now <= receivedAt && NoneLater(old(history), receivedAt))
      ensures var record := Event(old(nextId), name, payload, receivedAt);
              && history == old(history) + [record]
              && rows == Within(RowSize, Keep(old(rows), FreshAt(now)) + [record])
      ensures steady ==> rows == LongestFit(RowSize, history, now)
    {
      hide LogInv, Fits, LongestFit, Keep, Within, AmongNewest, WithinBudget, NoneLater;
      PruneEvents(now);
      var record := Event(nextId, name, payload, receivedAt);
      InsertKeepsInv(history, rows, now, steady, record);
      nextId := nextId + 1;
      rows := rows + [record];
      rows := Keep(rows, AmongNewest(rows));
      rows := Keep(rows, WithinBudget(rows));
      steady := steady && now <= receivedAt && NoneLater(history, receivedAt);
      history := history + [record];
    }

    /** The row limit of the query never cuts anything off, because the table itself is within it. */
    method ReadEvents(afterEventId: nat, now: int) returns (r: seq<Event>)
      requires Valid()
      modifies `rows, `lastPrune, `steady
      ensures Valid() && lastPrune == now && steady == (old(steady) && old(lastPrune) <= now)
      ensures rows == Keep(old(rows), FreshAt(now)) && r == Keep(rows, NewerThan(afterEventId))
      ensures steady ==> r == Keep(LongestFit(RowSize, history, now), NewerThan(afterEventId))
    {
      PruneEvents(now);
      var selected := Keep(rows, NewerThan(afterEventId));
      KeepInBounds(RowSize, rows, NewerThan(afterEventId));
      r := Limited(selected, MAX_EVENTS);
    }
  }
}
