/** The bounds of a signal log (shared/src/signalGateway/status.ts), for logs of any kind of event. */
module BoundedLog {

  const MAX_EVENTS := 200
  const MAX_EVENT_BYTES := 2 * 1024 * 1024
  const RETENTION_MS := 15 * 60 * 1000

  function TotalSize<T>(size: T -> nat, log: seq<T>): nat {
    if log == [] then 0 else size(log[0]) + TotalSize(size, log[1..])
  }

  predicate InBounds<T>(size: T -> nat, log: seq<T>) {
    |log| <= MAX_EVENTS && TotalSize(size, log) <= MAX_EVENT_BYTES
  }

  /** The longest suffix within the count and byte bounds. */
  function Within<T(!new)>(size: T -> nat, log: seq<T>): (r: seq<T>)
    ensures InBounds(size, r)
    ensures forall e <- r :: e in log
  {
    if InBounds(size, log) then log else Within(size, log[1..])
  }

  function Keep<T(!new)>(log: seq<T>, keep: T -> bool): (r: seq<T>)
    ensures forall e :: e in r <==> e in log && keep(e)
  {
    if log == [] then []
    else if keep(log[0]) then [log[0]] + Keep(log[1..], keep)
    else Keep(log[1..], keep)
  }

  lemma {:induction false} TotalSizeAppend<T>(size: T -> nat, a: seq<T>, b: seq<T>)
    ensures TotalSize(size, a + b) == TotalSize(size, a) + TotalSize(size, b)
  {
    if a == [] {
      assert a + b == b;
    } else {
      assert (a + b)[1..] == a[1..] + b;
      TotalSizeAppend(size, a[1..], b);
    }
  }

  lemma SuffixInBounds<T>(size: T -> nat, log: seq<T>, k: nat)
    requires k <= |log| && InBounds(size, log)
    ensures InBounds(size, log[k..])
  {
    assert log == log[..k] + log[k..];
    TotalSizeAppend(size, log[..k], log[k..]);
  }

  /** No suffix that is longer is within the bounds. */
  lemma {:induction false} WithinAt<T(!new)>(size: T -> nat, log: seq<T>, k: nat)
    requires k <= |log| && InBounds(size, log[k..])
    requires k > 0 ==> !InBounds(size, log[k - 1..])
    ensures Within(size, log) == log[k..]
  {
    hide InBounds;
    if k == 0 {
      assert log[0..] == log;
    } else {
      if InBounds(size, log) {
        SuffixInBounds(size, log, k - 1);
      }
      assert log[1..][k - 1..] == log[k..];
      if k > 1 {
        assert log[1..][k - 2..] == log[k - 1..];
      }
      WithinAt(size, log[1..], k - 1);
    }
  }

  /** What is kept is a suffix, and a last event that fits on its own is kept. */
  lemma {:induction false} WithinIsSuffix<T(!new)>(size: T -> nat, log: seq<T>) returns (k: nat)
    ensures k <= |log| && Within(size, log) == log[k..]
    ensures log != [] && size(log[|log| - 1]) <= MAX_EVENT_BYTES ==> k < |log|
    decreases |log|
  {
    if InBounds(size, log) {
      k := 0;
    } else {
      var k' := WithinIsSuffix(size, log[1..]);
      k := k' + 1;
      assert |log| == 1 ==> log[1..] == [] && TotalSize(size, log) == size(log[0]);
    }
  }

  lemma {:induction false} KeepAppend<T(!new)>(a: seq<T>, b: seq<T>, keep: T -> bool)
    ensures Keep(a + b, keep) == Keep(a, keep) + Keep(b, keep)
  {
    if a == [] {
      assert a + b == b;
    } else {
      assert (a + b)[1..] == a[1..] + b;
      KeepAppend(a[1..], b, keep);
    }
  }

  /** A filter stays within the bounds. */
  lemma {:induction false} KeepInBounds<T(!new)>(size: T -> nat, log: seq<T>, keep: T -> bool)
    ensures |Keep(log, keep)| <= |log| && TotalSize(size, Keep(log, keep)) <= TotalSize(size, log)
  {
    if log != [] {
      KeepInBounds(size, log[1..], keep);
      assert keep(log[0]) ==> Keep(log, keep)[1..] == Keep(log[1..], keep);
    }
  }

  /** A filter that keeps everything from some point on keeps a suffix. */
  lemma {:induction false} KeepFrom<T(!new)>(log: seq<T>, keep: T -> bool, k: nat)
    requires k <= |log|
    requires forall i | 0 <= i < |log| :: keep(log[i]) <==> i >= k
    ensures Keep(log, keep) == log[k..]
  {
    if log != [] {
      var rest, k' := log[1..], if k == 0 then 0 else k - 1;
      forall i | 0 <= i < |rest|
        ensures keep(rest[i]) <==> i >= k'
      {
        assert rest[i] == log[i + 1];
      }
      KeepFrom(rest, keep, k');
      assert keep(log[0]) <==> k == 0;
    }
  }

  // ---------------------------------------------------------------- the events of the start/stop models

  /** A logged event: the generation of the connection it belongs to, when it was recorded, and its size. */
  datatype Entry = Entry(generation: nat, receivedAt: nat, size: nat)

  function EntrySize(e: Entry): nat {
    e.size
  }

  /** The entries that are not stale yet. */
  function FreshEntries(log: seq<Entry>, now: nat): seq<Entry> {
    Keep(log, (e: Entry) => e.receivedAt + RETENTION_MS >= now)
  }

  /** Taking the log's entries one by one. */
  lemma FreshEntriesFirst(log: seq<Entry>, now: nat)
    requires log != []
    ensures FreshEntries(log, now) ==
            (if log[0].receivedAt + RETENTION_MS >= now then [log[0]] else []) + FreshEntries(log[1..], now)
  {
  }

  lemma FreshEntriesAppend(a: seq<Entry>, b: seq<Entry>, now: nat)
    ensures FreshEntries(a + b, now) == FreshEntries(a, now) + FreshEntries(b, now)
  {
    KeepAppend(a, b, (e: Entry) => e.receivedAt + RETENTION_MS >= now);
  }
}
