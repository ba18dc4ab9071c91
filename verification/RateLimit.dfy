/** The sliding-window rate limiter, proved against the full history of
    failures it throws away. */
module RateLimit {
  import opened Text

  type Key = string

  // -------------------------------------------------------- counting in a window

  predicate Sorted(ts: seq<real>) {
    forall i, j :: 0 <= i < j < |ts| ==> ts[i] <= ts[j]
  }

  predicate AtMost(ts: seq<real>, bound: real) {
    forall i :: 0 <= i < |ts| ==> ts[i] <= bound
  }

  predicate Above(ts: seq<real>, bound: real) {
    forall i :: 0 <= i < |ts| ==> ts[i] > bound
  }

  /** How many of the times are newer than the cutoff. */
  function Recent(ts: seq<real>, cutoff: real): nat {
    if ts == [] then 0
    else Recent(ts[..|ts| - 1], cutoff) + if ts[|ts| - 1] > cutoff then 1 else 0
  }

  lemma {:induction false} RecentConcat(a: seq<real>, b: seq<real>, cutoff: real)
    ensures Recent(a + b, cutoff) == Recent(a, cutoff) + Recent(b, cutoff)
  {
    if b == [] {
      assert a + b == a;
    } else {
      assert (a + b)[..|a + b| - 1] == a + b[..|b| - 1];
      RecentConcat(a, b[..|b| - 1], cutoff);
    }
  }

  lemma {:induction false} RecentBounds(ts: seq<real>, cutoff: real)
    ensures Recent(ts, cutoff) <= |ts|
    ensures AtMost(ts, cutoff) ==> Recent(ts, cutoff) == 0
    ensures Above(ts, cutoff) ==> Recent(ts, cutoff) == |ts|
  {
    if ts != [] {
      RecentBounds(ts[..|ts| - 1], cutoff);
    }
  }

  lemma {:induction false} RecentLater(ts: seq<real>, cutoff: real, later: real)
    requires cutoff <= later
    ensures Recent(ts, later) <= Recent(ts, cutoff)
  {
    if ts != [] {
      RecentLater(ts[..|ts| - 1], cutoff, later);
    }
  }

  lemma RecentOfStale(first: real, rest: seq<real>, cutoff: real)
    requires first <= cutoff
    ensures Recent([first] + rest, cutoff) <= |rest|
  {
    RecentConcat([first], rest, cutoff);
    RecentBounds([first], cutoff);
    RecentBounds(rest, cutoff);
  }

  /** In a sorted list, at least n are recent exactly when the n-th from the
      end is. */
  lemma SortedRecent(ts: seq<real>, cutoff: real, n: nat)
    requires Sorted(ts) && 1 <= n <= |ts|
    ensures Recent(ts, cutoff) >= n <==> ts[|ts| - n] > cutoff
  {
    var old', new' := ts[..|ts| - n], ts[|ts| - n..];
    assert ts == old' + new';
    RecentConcat(old', new', cutoff);
    if ts[|ts| - n] > cutoff {
      assert Above(new', cutoff);
      RecentBounds(new', cutoff);
    } else {
      assert AtMost(old', cutoff);
      RecentBounds(old', cutoff);
      assert new' == [new'[0]] + new'[1..];
      RecentOfStale(new'[0], new'[1..], cutoff);
    }
  }

  /** The oldest of the recent failures of a sorted history. */
  function OldestRecent(full: seq<real>, cutoff: real): real {
    var n := Recent(full, cutoff);
    if 0 < n <= |full| then full[|full| - n] else cutoff
  }

  /** The seconds to wait for a failure to leave the window, rounded up. */
  function WaitFor(first: real, now: real, window: int): int {
    (first + window as real - now).Floor + 1
  }

  // ------------------------------------------------------------------- history

  datatype Event = Failed(key: Key, time: real) | Reset(key: Key) | Evicted(key: Key) | Cleared

  /** What one event makes of the failures of a key. */
  function After(failures: seq<real>, e: Event, key: Key): seq<real> {
    match e
    case Failed(k, t) => if k == key then failures + [t] else failures
    case Reset(k) => if k == key then [] else failures
    case Evicted(k) => if k == key then [] else failures
    case Cleared => []
  }

  /** Every failure of a key since it was last reset, cleared or evicted. */
  function Failures(log: seq<Event>, key: Key): seq<real> {
    if log == [] then [] else After(Failures(log[..|log| - 1], key), log[|log| - 1], key)
  }

  lemma FailuresStep(log: seq<Event>, e: Event, key: Key)
    ensures Failures(log + [e], key) == After(Failures(log, key), e, key)
  {
    assert (log + [e])[..|log|] == log;
  }

  /** What is stored of a history: its end, with only stale times missing. */
  ghost predicate Tail(stored: seq<real>, full: seq<real>, cutoff: real) {
    |stored| <= |full| && stored == full[|full| - |stored|..] && AtMost(full[..|full| - |stored|], cutoff)
  }

  /** A tail counts the same recent failures as the full history. */
  lemma TailCounts(stored: seq<real>, full: seq<real>, stale: real, cutoff: real)
    requires Tail(stored, full, stale) && stale <= cutoff
    ensures Recent(stored, cutoff) == Recent(full, cutoff)
  {
    var dropped := full[..|full| - |stored|];
    assert full == dropped + stored;
    RecentConcat(dropped, stored, cutoff);
    RecentBounds(dropped, cutoff);
  }

  function Stored(hits: map<Key, seq<real>>, key: Key): seq<real> {
    if key in hits then hits[key] else []
  }

  /** A stored list and the history it is the end of. */
  ghost predicate EndOf(stored: seq<real>, full: seq<real>, clock: real, window: int) {
    Sorted(full) && AtMost(full, clock) && Tail(stored, full, clock - window as real)
  }

  /** The stored state of one key tracks its history. */
  ghost predicate Tracks(hits: map<Key, seq<real>>, log: seq<Event>, key: Key, clock: real, window: int) {
    EndOf(Stored(hits, key), Failures(log, key), clock, window)
  }

  lemma EndOfLater(stored: seq<real>, full: seq<real>, clock: real, later: real, window: int)
    requires EndOf(stored, full, clock, window) && clock <= later
    ensures EndOf(stored, full, later, window)
  {}

  /** Dropping the stale head of a tail leaves a tail. */
  lemma TailShrinks(stored: seq<real>, shorter: seq<real>, full: seq<real>, cutoff: real)
    requires Tail(stored, full, cutoff) && Tail(shorter, stored, cutoff)
    ensures Tail(shorter, full, cutoff)
  {
    var head := full[..|full| - |shorter|];
    forall i | 0 <= i < |head| ensures head[i] <= cutoff {
      if i < |full| - |stored| {
        assert head[i] == full[..|full| - |stored|][i];
      } else {
        assert head[i] == stored[..|stored| - |shorter|][i - (|full| - |stored|)];
      }
    }
    assert shorter == full[|full| - |shorter|..];
  }

  lemma EndOfShrinks(stored: seq<real>, shorter: seq<real>, full: seq<real>, clock: real, window: int)
    requires EndOf(stored, full, clock, window) && Tail(shorter, stored, clock - window as real)
    ensures EndOf(shorter, full, clock, window)
  {
    TailShrinks(stored, shorter, full, clock - window as real);
  }

  /** A stored list whose last entry is stale may be forgotten altogether. */
  lemma StaleIsEmptyTail(stored: seq<real>, full: seq<real>, cutoff: real)
    requires Tail(stored, full, cutoff) && Sorted(full)
    requires stored != [] && stored[|stored| - 1] <= cutoff
    ensures Tail([], full, cutoff)
  {
    assert full[|full| - 1] == stored[|stored| - 1];
  }

  /** Recording a failure extends both the stored list and the history. */
  lemma EndOfExtends(stored: seq<real>, kept: seq<real>, full: seq<real>, now: real, window: int)
    requires EndOf(stored, full, now, window) && Tail(kept, stored, now - window as real)
    ensures EndOf(kept + [now], full + [now], now, window)
  {
    TailShrinks(stored, kept, full, now - window as real);
    var longer := full + [now];
    assert longer[|longer| - |kept| - 1..] == full[|full| - |kept|..] + [now];
    assert longer[..|longer| - |kept| - 1] == full[..|full| - |kept|];
  }

  lemma TracksFailure(hits: map<Key, seq<real>>, log: seq<Event>, key: Key, kept: seq<real>, now: real, window: int,
                      k: Key)
    requires Tracks(hits, log, k, now, window)
    requires Tail(kept, Stored(hits, key), now - window as real)
    ensures Tracks(hits[key := kept + [now]], log + [Failed(key, now)], k, now, window)
  {
    FailuresStep(log, Failed(key, now), k);
    if k == key {
      EndOfExtends(Stored(hits, key), kept, Failures(log, key), now, window);
    }
  }

  /** The keys whose last failure is still in the window. */
  function Fresh(hits: map<Key, seq<real>>, cutoff: real): map<Key, seq<real>> {
    map k | k in hits && (hits[k] != [] ==> hits[k][|hits[k]| - 1] > cutoff) :: hits[k]
  }

  lemma TracksFresh(hits: map<Key, seq<real>>, log: seq<Event>, now: real, window: int, k: Key)
    requires Tracks(hits, log, k, now, window)
    ensures Tracks(Fresh(hits, now - window as real), log, k, now, window)
  {
    var cutoff := now - window as real;
    if k in hits && k !in Fresh(hits, cutoff) {
      StaleIsEmptyTail(hits[k], Failures(log, k), cutoff);
    }
  }

  lemma TracksForgotten(hits: map<Key, seq<real>>, log: seq<Event>, e: Event, now: real, window: int, k: Key)
    requires Tracks(hits, log, k, now, window) && (e.Reset? || e.Evicted?)
    ensures Tracks(hits - {e.key}, log + [e], k, now, window)
  {
    FailuresStep(log, e, k);
  }

  /** `_prune` as a function. */
  function Pruned(stored: seq<real>, cutoff: real): seq<real> {
    if stored != [] && stored[0] <= cutoff then Pruned(stored[1..], cutoff) else stored
  }

  /** The table once the stale entries of one key are gone. */
  function WithoutStale(hits: map<Key, seq<real>>, key: Key, cutoff: real): map<Key, seq<real>> {
    var kept := Pruned(Stored(hits, key), cutoff);
    if key !in hits then hits else if kept == [] then hits - {key} else hits[key := kept]
  }

  /** The table once a failure is recorded and stale keys are gone. */
  function WithFailure(hits: map<Key, seq<real>>, key: Key, now: real, window: int): map<Key, seq<real>> {
    var cutoff := now - window as real;
    Fresh(hits[key := Pruned(Stored(hits, key), cutoff) + [now]], cutoff)
  }

  // ------------------------------------------------------- the whole table at once

  ghost predicate NonEmpty(hits: map<Key, seq<real>>) {
    forall k :: k in hits ==> hits[k] != []
  }

  /** No stored list is empty, and each one tracks its key's history. */
  ghost predicate AllTrack(hits: map<Key, seq<real>>, log: seq<Event>, clock: real, window: int) {
    NonEmpty(hits) && forall k :: Tracks(hits, log, k, clock, window)
  }

  lemma AllTrackLater(hits: map<Key, seq<real>>, log: seq<Event>, clock: real, later: real, window: int)
    requires AllTrack(hits, log, clock, window) && clock <= later
    ensures AllTrack(hits, log, later, window)
  {
    forall k ensures Tracks(hits, log, k, later, window) {
      assert Tracks(hits, log, k, clock, window);
      EndOfLater(Stored(hits, k), Failures(log, k), clock, later, window);
    }
  }

  /** Storing a shorter tail for one key, or nothing when it is empty. */
  lemma AllTrackPruned(hits: map<Key, seq<real>>, log: seq<Event>, key: Key, kept: seq<real>, now: real, window: int)
    requires AllTrack(hits, log, now, window) && Tail(kept, Stored(hits, key), now - window as real)
    ensures AllTrack(if kept == [] then hits - {key} else hits[key := kept], log, now, window)
  {
    var after := if kept == [] then hits - {key} else hits[key := kept];
    forall k ensures Tracks(after, log, k, now, window) {
      assert Tracks(hits, log, k, now, window);
      assert Stored(after, k) == if k == key then kept else Stored(hits, k);
      if k == key {
        EndOfShrinks(Stored(hits, key), kept, Failures(log, key), now, window);
      }
    }
  }

  lemma AllTrackRecorded(hits: map<Key, seq<real>>, log: seq<Event>, key: Key, kept: seq<real>, now: real, window: int)
    requires AllTrack(hits, log, now, window) && Tail(kept, Stored(hits, key), now - window as real)
    ensures AllTrack(Fresh(hits[key := kept + [now]], now - window as real), log + [Failed(key, now)], now, window)
  {
    var added, longer := hits[key := kept + [now]], log + [Failed(key, now)];
    var fresh' := Fresh(added, now - window as real);
    forall k ensures Tracks(fresh', longer, k, now, window) {
      assert Tracks(hits, log, k, now, window);
      TracksFailure(hits, log, key, kept, now, window, k);
      TracksFresh(added, longer, now, window, k);
    }
  }

  lemma AllTrackForgotten(hits: map<Key, seq<real>>, log: seq<Event>, e: Event, clock: real, window: int)
    requires AllTrack(hits, log, clock, window) && (e.Reset? || e.Evicted?)
    ensures AllTrack(hits - {e.key}, log + [e], clock, window)
  {
    var after, longer := hits - {e.key}, log + [e];
    forall k ensures Tracks(after, longer, k, clock, window) {
      assert Tracks(hits, log, k, clock, window);
      TracksForgotten(hits, log, e, clock, window, k);
    }
  }

  lemma TracksOne(hits: map<Key, seq<real>>, log: seq<Event>, clock: real, window: int, key: Key)
    requires AllTrack(hits, log, clock, window)
    ensures EndOf(Stored(hits, key), Failures(log, key), clock, window) && Sorted(Stored(hits, key))
  {
    assert Tracks(hits, log, key, clock, window);
  }

  /** What is left after pruning is exactly the recent part of the history. */
  lemma KeptIsRecent(stored: seq<real>, full: seq<real>, kept: seq<real>, now: real, window: int)
    requires EndOf(stored, full, now, window)
    requires Tail(kept, stored, now - window as real) && Above(kept, now - window as real)
    ensures Recent(full, now - window as real) == |kept| <= |stored|
    ensures kept != [] ==> kept[0] == OldestRecent(full, now - window as real)
  {
    var cutoff := now - window as real;
    TailShrinks(stored, kept, full, cutoff);
    TailCounts(kept, full, cutoff, cutoff);
    RecentBounds(kept, cutoff);
  }

  lemma {:induction false} PrunedIsTail(stored: seq<real>, cutoff: real)
    requires Sorted(stored)
    ensures Tail(Pruned(stored, cutoff), stored, cutoff) && Above(Pruned(stored, cutoff), cutoff)
  {
    if stored != [] && stored[0] <= cutoff {
      PrunedIsTail(stored[1..], cutoff);
      var kept := Pruned(stored, cutoff);
      assert stored[1..][|stored| - 1 - |kept|..] == stored[|stored| - |kept|..];
      assert stored[..|stored| - |kept|] == [stored[0]] + stored[1..][..|stored| - 1 - |kept|];
    }
  }

  /** Everything `retry_after` relies on, for the list it keeps. */
  lemma RetryFacts(hits: map<Key, seq<real>>, log: seq<Event>, key: Key, clock: real, now: real, window: int,
                   kept: seq<real>)
    requires AllTrack(hits, log, clock, window) && clock <= now
    requires kept == Pruned(Stored(hits, key), now - window as real)
    ensures AllTrack(hits, log, now, window)
    ensures AllTrack(WithoutStale(hits, key, now - window as real), log, now, window)
    ensures Recent(Failures(log, key), now - window as real) == |kept|
    ensures key !in hits ==> kept == []
    ensures kept != [] ==> kept[0] == OldestRecent(Failures(log, key), now - window as real) > now - window as real
  {
    AllTrackLater(hits, log, clock, now, window);
    TracksOne(hits, log, now, window, key);
    PrunedIsTail(Stored(hits, key), now - window as real);
    AllTrackPruned(hits, log, key, kept, now, window);
    KeptIsRecent(Stored(hits, key), Failures(log, key), kept, now, window);
  }

  /** ... and for `record_failure`. */
  lemma RecordFacts(hits: map<Key, seq<real>>, log: seq<Event>, key: Key, clock: real, now: real, window: int)
    requires AllTrack(hits, log, clock, window) && clock <= now && window > 0
    ensures AllTrack(hits, log, now, window)
    ensures AllTrack(WithFailure(hits, key, now, window), log + [Failed(key, now)], now, window)
    ensures key in WithFailure(hits, key, now, window)
  {
    AllTrackLater(hits, log, clock, now, window);
    RecordedIn(hits, key, now, window);
    RecordTracks(hits, log, key, now, window);
  }

  lemma RecordTracks(hits: map<Key, seq<real>>, log: seq<Event>, key: Key, now: real, window: int)
    requires AllTrack(hits, log, now, window)
    ensures AllTrack(WithFailure(hits, key, now, window), log + [Failed(key, now)], now, window)
  {
    TracksOne(hits, log, now, window, key);
    PrunedIsTail(Stored(hits, key), now - window as real);
    AllTrackRecorded(hits, log, key, Pruned(Stored(hits, key), now - window as real), now, window);
  }

  lemma RecordedIn(hits: map<Key, seq<real>>, key: Key, now: real, window: int)
    requires window > 0
    ensures key in WithFailure(hits, key, now, window)
  {
    var kept := Pruned(Stored(hits, key), now - window as real);
    assert (kept + [now])[|kept + [now]| - 1] == now;
  }

  /** A key that is stored with a fresh last entry is one with a failure in the window;
      a key that is not stored has none. */
  lemma StoredIsRecent(hits: map<Key, seq<real>>, log: seq<Event>, now: real, window: int, key: Key)
    requires AllTrack(hits, log, now, window)
    requires key in hits && hits[key] != [] ==> hits[key][|hits[key]| - 1] > now - window as real
    ensures key in hits <==> Recent(Failures(log, key), now - window as real) > 0
  {
    var full, cutoff := Failures(log, key), now - window as real;
    TracksOne(hits, log, now, window, key);
    if key in hits {
      assert full[|full| - 1] == hits[key][|hits[key]| - 1];
    } else {
      assert full[..|full|] == full;
      RecentBounds(full, cutoff);
    }
  }

  /** The table holds exactly the keys with a failure after the cutoff. */
  ghost predicate HoldsRecent(hits: map<Key, seq<real>>, log: seq<Event>, cutoff: real) {
    forall k :: k in hits <==> Recent(Failures(log, k), cutoff) > 0
  }

  /** So it does after a recording. */
  lemma RecordedIsRecent(before: map<Key, seq<real>>, key: Key, after: map<Key, seq<real>>, log: seq<Event>, now: real,
                         window: int)
    requires AllTrack(after, log, now, window)
    requires forall k <- after :: k in WithFailure(before, key, now, window)
                                  && after[k] == WithFailure(before, key, now, window)[k]
    ensures HoldsRecent(after, log, now - window as real)
  {
    forall k ensures k in after <==> Recent(Failures(log, k), now - window as real) > 0 {
      StoredIsRecent(after, log, now, window, k);
    }
  }

  // ------------------------------------------------------------------ the class

  /** `priority`: keys at the limit go last, then the most recently active. */
  predicate NotAfter(a: seq<real>, b: seq<real>, attempts: int)
    requires a != [] && b != []
  {
    if (|a| >= attempts) != (|b| >= attempts) then |b| >= attempts
    else a[|a| - 1] <= b[|b| - 1]
  }

  /** Lowest priority first, every key once. */
  ghost predicate Ordered(keys: seq<Key>, hits: map<Key, seq<real>>, attempts: int)
    requires NonEmpty(hits)
  {
    keys == [] ||
    (&& keys[0] in hits
     && (forall k :: k in keys[1..] ==> k in hits && k != keys[0] && NotAfter(hits[keys[0]], hits[k], attempts))
     && Ordered(keys[1..], hits, attempts))
  }

  function Members(keys: seq<Key>): set<Key> {
    set k | k in keys
  }

  /** Where a key stands in the dictionary's insertion order. */
  function Place(order: seq<Key>, k: Key): (i: nat)
    ensures k in order ==> i < |order| && order[i] == k
  {
    if order == [] || order[0] == k then 0 else 1 + Place(order[1..], k)
  }

  /** Keys of one priority stay in insertion order: the sort is stable. */
  ghost predicate Stable(keys: seq<Key>, hits: map<Key, seq<real>>, attempts: int, order: seq<Key>)
    requires NonEmpty(hits)
  {
    keys == [] ||
    (&& (forall k :: k in keys ==> k in hits)
     && (forall k :: k in keys[1..] && NotAfter(hits[k], hits[keys[0]], attempts) ==>
         Place(order, keys[0]) < Place(order, k))
     && Stable(keys[1..], hits, attempts, order))
  }

  lemma {:induction false} InsertStable(keys: seq<Key>, k: Key, hits: map<Key, seq<real>>, attempts: int,
                                        order: seq<Key>)
    requires NonEmpty(hits) && Ordered(keys, hits, attempts) && Stable(keys, hits, attempts, order) && k in hits
    requires forall x :: x in keys ==> x in hits && Place(order, x) < Place(order, k)
    ensures Stable(Insert(keys, k, hits, attempts), hits, attempts, order)
  {
    var r := Insert(keys, k, hits, attempts);
    if keys == [] || !NotAfter(hits[keys[0]], hits[k], attempts) {
      assert r[1..] == keys;
      forall x | x in keys ensures !NotAfter(hits[x], hits[k], attempts) {
        assert x == keys[0] || x in keys[1..];
      }
    } else {
      InsertStable(keys[1..], k, hits, attempts, order);
      assert r[1..] == Insert(keys[1..], k, hits, attempts);
    }
  }

  /** The dictionary's keys in insertion order. */
  ghost predicate OrderOf(order: seq<Key>, hits: map<Key, seq<real>>) {
    Distinct(order) && Members(order) == hits.Keys
  }

  /** The order after deletions: what is left stays where it was. */
  function Left(order: seq<Key>, hits: map<Key, seq<real>>): seq<Key> {
    if order == [] then []
    else
      var init, last := Left(order[..|order| - 1], hits), order[|order| - 1];
      if last in hits then init + [last] else init
  }

  /** The order after a key was looked up in the defaultdict: a new one goes last. */
  function Looked(order: seq<Key>, key: Key): seq<Key> {
    if key in order then order else order + [key]
  }

  lemma {:induction false} LeftIs(order: seq<Key>, hits: map<Key, seq<real>>)
    requires Distinct(order)
    ensures Distinct(Left(order, hits)) && forall k :: k in Left(order, hits) <==> k in order && k in hits
  {
    if order != [] {
      var init, last := order[..|order| - 1], order[|order| - 1];
      LeftIs(init, hits);
      assert order == init + [last];
    }
  }

  lemma OrderStays(order: seq<Key>, hits: map<Key, seq<real>>, key: Key, after: map<Key, seq<real>>)
    requires OrderOf(order, hits) && after.Keys <= hits.Keys + {key}
    ensures OrderOf(Left(Looked(order, key), after), after)
  {
    forall k ensures k in order <==> k in hits { assert k in Members(order) <==> k in order; }
    LeftIs(Looked(order, key), after);
  }

  lemma StillOrdered(order: seq<Key>, hits: map<Key, seq<real>>, after: map<Key, seq<real>>)
    requires OrderOf(order, hits) && after.Keys <= hits.Keys
    ensures OrderOf(Left(order, after), after)
  {
    forall k ensures k in order <==> k in hits { assert k in Members(order) <==> k in order; }
    LeftIs(order, after);
  }

  lemma {:induction false} PlaceIs(order: seq<Key>, i: nat)
    requires Distinct(order) && i < |order|
    ensures Place(order, order[i]) == i
  {
    if i > 0 {
      assert order[1..][i - 1] == order[i];
      PlaceIs(order[1..], i - 1);
    }
  }

  function Insert(keys: seq<Key>, k: Key, hits: map<Key, seq<real>>, attempts: int): (r: seq<Key>)
    requires k in hits && hits[k] != [] && forall x :: x in keys ==> x in hits && hits[x] != []
    ensures forall x :: x in r <==> x in keys || x == k
  {
    if keys == [] || !NotAfter(hits[keys[0]], hits[k], attempts) then [k] + keys
    else [keys[0]] + Insert(keys[1..], k, hits, attempts)
  }

  lemma {:induction false} InsertOrdered(keys: seq<Key>, k: Key, hits: map<Key, seq<real>>, attempts: int)
    requires NonEmpty(hits) && Ordered(keys, hits, attempts) && k in hits && k !in keys
    requires forall x :: x in keys ==> x in hits && hits[x] != []
    ensures Ordered(Insert(keys, k, hits, attempts), hits, attempts)
  {
    var r := Insert(keys, k, hits, attempts);
    if keys == [] || !NotAfter(hits[keys[0]], hits[k], attempts) {
      assert r[1..] == keys;
    } else {
      InsertOrdered(keys[1..], k, hits, attempts);
      assert r[1..] == Insert(keys[1..], k, hits, attempts);
    }
  }

  lemma InsertMembers(keys: seq<Key>, k: Key, hits: map<Key, seq<real>>, attempts: int)
    requires k in hits && hits[k] != [] && forall x :: x in keys ==> x in hits && hits[x] != []
    ensures Members(Insert(keys, k, hits, attempts)) == Members(keys) + {k}
  {}

  /** `sorted(self._hits.items(), key=priority)`, by insertion: by priority, and
      keys of one priority in the order of the dictionary. */
  method SortedKeys(hits: map<Key, seq<real>>, attempts: int, order: seq<Key>) returns (keys: seq<Key>)
    requires NonEmpty(hits) && OrderOf(order, hits)
    ensures Ordered(keys, hits, attempts) && Members(keys) == hits.Keys
    ensures Stable(keys, hits, attempts, order)
  {
    keys := [];
    for i := 0 to |order|
      invariant Members(keys) == Members(order[..i])
      invariant Ordered(keys, hits, attempts) && Stable(keys, hits, attempts, order)
    {
      var k := order[i];
      NextInOrder(order, i, keys, hits);
      InsertOrdered(keys, k, hits, attempts);
      InsertStable(keys, k, hits, attempts, order);
      InsertMembers(keys, k, hits, attempts);
      TakeNext(order, i);
      keys := Insert(keys, k, hits, attempts);
    }
    assert order[..|order|] == order;
  }

  /** The next key of the dictionary is new to the list and stands behind it. */
  lemma NextInOrder(order: seq<Key>, i: nat, keys: seq<Key>, hits: map<Key, seq<real>>)
    requires OrderOf(order, hits) && i < |order| && Members(keys) == Members(order[..i])
    ensures order[i] in hits && order[i] !in keys
    ensures forall x :: x in keys ==> x in hits && Place(order, x) < Place(order, order[i])
  {
    assert order[i] in Members(order);
    PlaceIs(order, i);
    forall x | x in keys ensures x in hits && Place(order, x) < i {
      assert x in Members(keys);
      var j :| 0 <= j < i && order[j] == x;
      assert order[j] in Members(order);
      PlaceIs(order, j);
    }
  }

  /** The walk over the sorted keys: delete until the cap is met. */
  function Walk(hits: map<Key, seq<real>>, keys: seq<Key>, keep: Key, excess: int): map<Key, seq<real>> {
    if keys == [] || excess <= 0 then hits
    else if keys[0] == keep then Walk(hits, keys[1..], keep, excess)
    else Walk(hits - {keys[0]}, keys[1..], keep, excess - 1)
  }

  /** The keys it deletes. */
  function Dropped(keys: seq<Key>, keep: Key, excess: int): seq<Key> {
    if keys == [] || excess <= 0 then []
    else if keys[0] == keep then Dropped(keys[1..], keep, excess)
    else [keys[0]] + Dropped(keys[1..], keep, excess - 1)
  }

  method WalkKeys(hits: map<Key, seq<real>>, keys: seq<Key>, keep: Key, start: int) returns (after: map<Key, seq<real>>)
    ensures after == Walk(hits, keys, keep, start)
  {
    after := hits;
    var excess, i := start, 0;
    while i < |keys|
      invariant 0 <= i <= |keys|
      invariant Walk(after, keys[i..], keep, excess) == Walk(hits, keys, keep, start)
    {
      assert keys[i..][1..] == keys[i + 1..];
      if excess <= 0 { break; }
      if keys[i] != keep {
        after, excess := after - {keys[i]}, excess - 1;
      }
      i := i + 1;
    }
  }

  lemma {:induction false} DroppedAreKeys(keys: seq<Key>, keep: Key, excess: int)
    ensures forall k :: k in Dropped(keys, keep, excess) ==> k in keys && k != keep
  {
    if keys != [] && excess > 0 {
      DroppedAreKeys(keys[1..], keep, if keys[0] == keep then excess else excess - 1);
    }
  }

  lemma MinusOne(m: map<Key, seq<real>>, k: Key)
    requires k in m
    ensures |m - {k}| == |m| - 1
  {
    assert (m - {k}).Keys == m.Keys - {k};
  }

  lemma {:induction false} WalkIs(m: map<Key, seq<real>>, keys: seq<Key>, keep: Key, excess: int)
    ensures Walk(m, keys, keep, excess) == m - Members(Dropped(keys, keep, excess))
  {
    if keys == [] || excess <= 0 {
      assert m - Members([]) == m;
    } else if keys[0] == keep {
      WalkIs(m, keys[1..], keep, excess);
    } else {
      WalkIs(m - {keys[0]}, keys[1..], keep, excess - 1);
      var rest := Dropped(keys[1..], keep, excess - 1);
      assert Members([keys[0]] + rest) == {keys[0]} + Members(rest);
      assert m - {keys[0]} - Members(rest) == m - ({keys[0]} + Members(rest));
    }
  }

  lemma {:induction false} WalkSize(m: map<Key, seq<real>>, keys: seq<Key>, keep: Key, excess: nat,
                                    hits: map<Key, seq<real>>, attempts: int)
    requires NonEmpty(hits) && Ordered(keys, hits, attempts) && forall k :: k in keys ==> k in m
    ensures |Walk(m, keys, keep, excess)| == |m| - |Dropped(keys, keep, excess)|
  {
    if keys != [] && excess > 0 {
      if keys[0] == keep {
        WalkSize(m, keys[1..], keep, excess, hits, attempts);
      } else {
        MinusOne(m, keys[0]);
        WalkSize(m - {keys[0]}, keys[1..], keep, excess - 1, hits, attempts);
      }
    }
  }

  /** The walk stops early only at the cap. */
  lemma {:induction false} DroppedSize(keys: seq<Key>, keep: Key, excess: nat)
    ensures var d := Dropped(keys, keep, excess);
            |d| <= excess && (|d| < excess ==> forall k :: k in keys ==> k in d || k == keep)
  {
    if keys != [] && excess > 0 {
      assert keys == [keys[0]] + keys[1..];
      DroppedSize(keys[1..], keep, if keys[0] == keep then excess else excess - 1);
    }
  }

  /** Nothing that is left ranks below something that was deleted. */
  lemma {:induction false} WalkOrder(keys: seq<Key>, keep: Key, excess: int, hits: map<Key, seq<real>>, attempts: int,
                                     d: Key, s: Key)
    requires NonEmpty(hits) && Ordered(keys, hits, attempts)
    requires d in Dropped(keys, keep, excess) && s in keys && s !in Dropped(keys, keep, excess) && s != keep
    ensures d in hits && s in hits && NotAfter(hits[d], hits[s], attempts)
  {
    if keys[0] == keep {
      WalkOrder(keys[1..], keep, excess, hits, attempts, d, s);
    } else if d != keys[0] {
      WalkOrder(keys[1..], keep, excess - 1, hits, attempts, d, s);
    }
  }

  /** The result of an eviction that keeps one key: the cap is met, and what
      was dropped ranks no higher than anything else that is left. */
  ghost predicate AfterEviction(before: map<Key, seq<real>>, after: map<Key, seq<real>>, keep: Key, attempts: int,
                                maxKeys: int) {
    && keep in after && after.Keys <= before.Keys && NonEmpty(before)
    && (forall k :: k in after ==> after[k] == before[k])
    && (|before| <= maxKeys ==> after == before)
    && (|before| > maxKeys ==> |after| == if maxKeys < 1 then 1 else maxKeys)
    && (forall d, s :: d in before && d !in after && s in after && s != keep ==>
        NotAfter(before[d], before[s], attempts))
  }

  /** A key that holds `attempts` entries is dropped only if everything else left
      does too. Entries count here whether or not they are still in the window. */
  lemma FullGoLast(before: map<Key, seq<real>>, after: map<Key, seq<real>>, keep: Key, attempts: int, maxKeys: int,
                   dropped: Key, left: Key)
    requires AfterEviction(before, after, keep, attempts, maxKeys)
    requires dropped in before && dropped !in after && |before[dropped]| >= attempts
    requires left in after && left != keep
    ensures |after[left]| >= attempts && after[left][|after[left]| - 1] >= before[dropped][|before[dropped]| - 1]
  {
    assert NotAfter(before[dropped], before[left], attempts);
  }

  /** What `retry_after` would say of a key now, from its history. */
  ghost predicate Blocked(log: seq<Event>, key: Key, attempts: int, cutoff: real) {
    Recent(Failures(log, key), cutoff) >= attempts
  }

  /** An entry list that looks blocked to the eviction and is not: old failures
      nobody has pruned fill it up. */
  predicate StaleFull(stored: seq<real>, attempts: int, cutoff: real) {
    |stored| >= attempts && Recent(stored, cutoff) < attempts
  }

  lemma StoredCounts(hits: map<Key, seq<real>>, log: seq<Event>, key: Key, clock: real, window: int)
    requires AllTrack(hits, log, clock, window)
    ensures var cutoff := clock - window as real;
            Recent(Stored(hits, key), cutoff) == Recent(Failures(log, key), cutoff) <= |Stored(hits, key)|
  {
    var cutoff := clock - window as real;
    TracksOne(hits, log, clock, window, key);
    TailCounts(Stored(hits, key), Failures(log, key), cutoff, cutoff);
    RecentBounds(Stored(hits, key), cutoff);
  }

  /** When an eviction drops a key that is blocking at that moment, the keys that
      stay are all blocking too, exactly when none of them is full of failures that
      are no longer in the window. */
  lemma BlockedGoLastIff(before: map<Key, seq<real>>, after: map<Key, seq<real>>, log: seq<Event>, keep: Key,
                         attempts: int, maxKeys: int, now: real, window: int, dropped: Key)
    requires AllTrack(before, log, now, window) && AfterEviction(before, after, keep, attempts, maxKeys)
    requires dropped in before && dropped !in after && Blocked(log, dropped, attempts, now - window as real)
    ensures (forall k :: k in after && k != keep ==> Blocked(log, k, attempts, now - window as real))
       <==> (forall k :: k in after && k != keep ==> !StaleFull(after[k], attempts, now - window as real))
  {
    StoredCounts(before, log, dropped, now, window);
    forall k | k in after && k != keep
      ensures Blocked(log, k, attempts, now - window as real) <==> !StaleFull(after[k], attempts, now - window as real)
    {
      StoredCounts(before, log, k, now, window);
      FullGoLast(before, after, keep, attempts, maxKeys, dropped, k);
    }
  }

  /** The walk over the sorted keys is a proper eviction. */
  lemma WalkEvicts(hits: map<Key, seq<real>>, keys: seq<Key>, keep: Key, attempts: int, maxKeys: int)
    requires NonEmpty(hits) && Ordered(keys, hits, attempts) && Members(keys) == hits.Keys && keep in hits &&
             |hits| > maxKeys
    ensures var dropped := Dropped(keys, keep, |hits| - maxKeys);
            && Walk(hits, keys, keep, |hits| - maxKeys) == hits - Members(dropped) && keep !in dropped
            && AfterEviction(hits, hits - Members(dropped), keep, attempts, maxKeys)
  {
    var excess := |hits| - maxKeys;
    var dropped := Dropped(keys, keep, excess);
    var after := hits - Members(dropped);
    DroppedAreKeys(keys, keep, excess);
    forall k | k in keys ensures k in hits { assert k in Members(keys); }
    WalkIs(hits, keys, keep, excess);
    WalkSize(hits, keys, keep, excess, hits, attempts);
    DroppedSize(keys, keep, excess);
    forall d, s | d in hits && d !in after && s in after && s != keep ensures NotAfter(hits[d], hits[s], attempts) {
      assert s in Members(keys);
      WalkOrder(keys, keep, excess, hits, attempts, d, s);
    }
    assert keep in after.Keys && |after| == |after.Keys| > 0;
    if |dropped| < excess {
      forall k | k in after ensures k == keep { assert k in Members(keys); }
      assert after.Keys == {keep};
    }
  }

  function Evictions(keys: seq<Key>): seq<Event> {
    if keys == [] then [] else Evictions(keys[..|keys| - 1]) + [Evicted(keys[|keys| - 1])]
  }

  lemma {:induction false} AllTrackEvicted(hits: map<Key, seq<real>>, log: seq<Event>, dropped: seq<Key>, clock: real,
                                           window: int)
    requires AllTrack(hits, log, clock, window)
    ensures AllTrack(hits - Members(dropped), log + Evictions(dropped), clock, window)
  {
    if dropped == [] {
      assert hits - Members(dropped) == hits && log + Evictions(dropped) == log;
    } else {
      var before, last := dropped[..|dropped| - 1], dropped[|dropped| - 1];
      AllTrackEvicted(hits, log, before, clock, window);
      AllTrackForgotten(hits - Members(before), log + Evictions(before), Evicted(last), clock, window);
      assert hits - Members(before) - {last} == hits - Members(dropped);
      assert log + Evictions(before) + [Evicted(last)] == log + Evictions(dropped);
    }
  }

  /** Everything `_evict` relies on. */
  lemma EvictFacts(hits: map<Key, seq<real>>, log: seq<Event>, keys: seq<Key>, keep: Key, attempts: int, maxKeys: int,
                   clock: real, window: int)
    requires AllTrack(hits, log, clock, window) && keep in hits && |hits| > maxKeys
    requires Ordered(keys, hits, attempts) && Members(keys) == hits.Keys
    ensures var after, dropped := Walk(hits, keys, keep, |hits| - maxKeys), Dropped(keys, keep, |hits| - maxKeys);
            && AfterEviction(hits, after, keep, attempts, maxKeys) && keep !in dropped
            && AllTrack(after, log + Evictions(dropped), clock, window)
  {
    WalkEvicts(hits, keys, keep, attempts, maxKeys);
    AllTrackEvicted(hits, log, Dropped(keys, keep, |hits| - maxKeys), clock, window);
  }

  lemma NoEviction(hits: map<Key, seq<real>>, log: seq<Event>, keep: Key, attempts: int, maxKeys: int)
    requires NonEmpty(hits) && keep in hits && |hits| <= maxKeys
    ensures AfterEviction(hits, hits, keep, attempts, maxKeys) && log + Evictions([]) == log
  {}

  /** `_evict`: the table with the excess keys deleted. */
  method Evict(hits: map<Key, seq<real>>, order: seq<Key>, keep: Key, attempts: int, maxKeys: int,
               ghost log: seq<Event>, ghost clock: real, ghost window: int)
    returns (after: map<Key, seq<real>>, ghost dropped: seq<Key>)
    requires AllTrack(hits, log, clock, window) && OrderOf(order, hits) && keep in hits
    ensures AfterEviction(hits, after, keep, attempts, maxKeys) && keep !in dropped
    ensures AllTrack(after, log + Evictions(dropped), clock, window)
  {
    after, dropped := hits, [];
    if |hits| <= maxKeys {
      NoEviction(hits, log, keep, attempts, maxKeys);
      return;
    }
    ghost var keys;
    after, keys := DropExcess(hits, order, keep, attempts, |hits| - maxKeys);
    EvictFacts(hits, log, keys, keep, attempts, maxKeys, clock, window);
    dropped := Dropped(keys, keep, |hits| - maxKeys);
  }

  /** The sort and the walk. */
  method DropExcess(hits: map<Key, seq<real>>, order: seq<Key>, keep: Key, attempts: int, excess: int)
    returns (after: map<Key, seq<real>>, ghost sorted: seq<Key>)
    requires NonEmpty(hits) && OrderOf(order, hits)
    ensures Ordered(sorted, hits, attempts) && Members(sorted) == hits.Keys && Stable(sorted, hits, attempts, order)
    ensures after == Walk(hits, sorted, keep, excess)
  {
    var keys := SortedKeys(hits, attempts, order);
    sorted := keys;
    after := WalkKeys(hits, keys, keep, excess);
  }

  /** `_prune`. */
  method Prune(stored: seq<real>, cutoff: real) returns (kept: seq<real>)
    ensures kept == Pruned(stored, cutoff)
  {
    kept := stored;
    while kept != [] && kept[0] <= cutoff
      invariant Pruned(kept, cutoff) == Pruned(stored, cutoff)
    {
      kept := kept[1..];
    }
  }

  /** Everything the steps before the eviction rely on. */
  lemma AddFacts(hits: map<Key, seq<real>>, order: seq<Key>, log: seq<Event>, key: Key, clock: real, now: real,
                 window: int)
    requires AllTrack(hits, log, clock, window) && OrderOf(order, hits) && clock <= now && window > 0
    ensures var added := WithFailure(hits, key, now, window);
            && AllTrack(added, log + [Failed(key, now)], now, window) && key in added
            && added.Keys <= hits.Keys + {key} && OrderOf(Left(Looked(order, key), added), added)
  {
    RecordFacts(hits, log, key, clock, now, window);
    OrderStays(order, hits, key, WithFailure(hits, key, now, window));
  }

  /** The body of `record_failure` on the table: prune, append, drop the stale
      keys, evict. */
  method AddFailure(hits: map<Key, seq<real>>, order: seq<Key>, key: Key, now: real, attempts: int, window: int,
                    maxKeys: int, ghost log: seq<Event>, ghost clock: real)
    returns (after: map<Key, seq<real>>, ghost dropped: seq<Key>)
    requires AllTrack(hits, log, clock, window) && OrderOf(order, hits) && clock <= now && window > 0
    ensures after.Keys <= hits.Keys + {key}
    ensures AfterEviction(WithFailure(hits, key, now, window), after, key, attempts, maxKeys) && key !in dropped
    ensures AllTrack(after, log + [Failed(key, now)] + Evictions(dropped), now, window)
  {
    AddFacts(hits, order, log, key, clock, now, window);
    var kept := Prune(Stored(hits, key), now - window as real);
    var added := Fresh(hits[key := kept + [now]], now - window as real);
    assert added == WithFailure(hits, key, now, window);
    after, dropped := Evict(added, Left(Looked(order, key), added), key, attempts, maxKeys,
                            log + [Failed(key, now)], now, window);
  }

  class SlidingWindowRateLimiter {
    const attempts: int
    const window: int
    const maxKeys: int
    var hits: map<Key, seq<real>>
    var order: seq<Key>          // the keys of the dictionary, oldest entry first
    ghost var log: seq<Event>
    ghost var clock: real        // the newest reading of the monotonic clock so far

    /** A monotonic clock is never below zero, so any first reading will do. */
    constructor (attempts: int, window: int, maxKeys: int)
      ensures this.attempts == attempts && this.window == window && this.maxKeys == maxKeys
      ensures Valid() && log == [] && hits == map[] && clock == 0.0
    {
      this.attempts, this.window, this.maxKeys := attempts, window, maxKeys;
      hits, order, log, clock := map[], [], [], 0.0;
    }

    predicate Enabled() {
      attempts > 0 && window > 0
    }

    ghost predicate Valid()
      reads this
    {
      AllTrack(hits, log, clock, window) && OrderOf(order, hits)
    }

    function Cutoff(now: real): real {
      now - window as real
    }

    /** `retry_after`: blocked exactly when the full history since the last
        reset or eviction has at least `attempts` failures in the window; the
        answer is the wait for the oldest of them. */
    method RetryAfter(key: Key, now: real) returns (wait: int)
      requires Valid() && clock <= now
      modifies `hits, `order, `clock
      ensures Valid() && clock == now
      ensures wait >= 0
      ensures wait > 0 <==> attempts > 0 && window > 0 && Recent(Failures(log, key), now - window as real) >= attempts
      ensures wait > 0 ==> wait == WaitFor(OldestRecent(Failures(log, key), Cutoff(now)), now, window)
      ensures hits == if Enabled() then WithoutStale(old(hits), key, Cutoff(now)) else old(hits)
      ensures hits - {key} == old(hits) - {key}
      ensures attempts > 0 && window > 0 ==> |Stored(hits, key)| == Recent(Failures(log, key), now - window as real)
    {
      var kept := Prune(Stored(hits, key), Cutoff(now));
      RetryFacts(hits, log, key, clock, now, window, kept);
      clock := now;
      if !Enabled() { return 0; }
      if key !in hits { return 0; }
      StillOrdered(order, hits, WithoutStale(hits, key, Cutoff(now)));
      hits := if kept == [] then hits - {key} else hits[key := kept];
      order := Left(order, hits);
      if |kept| < attempts { return 0; }
      wait := Answer(kept[0], now);
    }

    /** `max(1, int(self.window - (now - hits[0])) + 1)`. */
    method Answer(first: real, now: real) returns (wait: int)
      requires first > Cutoff(now)
      ensures wait == WaitFor(first, now, window) && wait > 0
    {
      var left := (window as real - (now - first)).Floor + 1;
      assert window as real - (now - first) == first + window as real - now;
      wait := if left < 1 then 1 else left;
    }

    /** `record_failure`: the failure enters the history; the table holds what
        it held plus that, minus stale keys and at most as many keys as the cap
        asks for, lowest priority first and never the key just recorded. */
    method RecordFailure(key: Key, now: real) returns (ghost dropped: seq<Key>)
      requires Valid() && clock <= now
      modifies this
      ensures Valid() && clock == now
      ensures !Enabled() ==> log == old(log) && hits == old(hits)
      ensures Enabled() ==> log == old(log) + [Failed(key, now)] + Evictions(dropped) && key !in dropped
      ensures Enabled() ==>
                AfterEviction(WithFailure(old(hits), key, now, window), hits, key, attempts, maxKeys)
      ensures attempts > 0 && window > 0 ==> HoldsRecent(hits, log, now - window as real)
    {
      dropped := [];
      if !Enabled() {
        AllTrackLater(hits, log, clock, now, window);
        clock := now;
        return;
      }
      var after;
      after, dropped := AddFailure(hits, order, key, now, attempts, window, maxKeys, log, clock);
      OrderStays(order, hits, key, after);
      hits, order := after, Left(Looked(order, key), after);
      log, clock := log + [Failed(key, now)] + Evictions(dropped), now;
      RecordedIsRecent(old(hits), key, hits, log, now, window);
    }

    /** `reset`. */
    method ResetKey(key: Key)
      requires Valid()
      modifies `hits, `order, `log
      ensures Valid() && hits == old(hits) - {key} && log == old(log) + [Reset(key)]
    {
      AllTrackForgotten(hits, log, Reset(key), clock, window);
      StillOrdered(order, hits, hits - {key});
      hits, order, log := hits - {key}, Left(order, hits - {key}), log + [Reset(key)];
    }

    /** `clear`. */
    method Clear()
      requires Valid()
      modifies `hits, `order, `log
      ensures Valid() && hits == map[] && log == old(log) + [Cleared]
    {
      hits, order, log := map[], [], log + [Cleared];
      forall k ensures Tracks(hits, log, k, clock, window) {
        FailuresStep(old(log), Cleared, k);
      }
    }
  }

  // ------------------------------------------------------------ how long to wait

  /** The answer overstates the time until a failure leaves the window by at
      most a second and never exceeds the window by more than one. */
  lemma WaitIsTight(first: real, now: real, window: int)
    requires now - window as real < first <= now
    ensures var wait := WaitFor(first, now, window);
            && 1 <= wait <= window + 1
            && first + window as real < now + wait as real <= first + window as real + 1.0
  {}

  /** How long a failure stays in the window. */
  function Remaining(time: real, now: real, window: int): real {
    time + window as real - now
  }

  /** After the wait a blocked key is free exactly when the attempts-th newest
      failure has no more whole seconds left than the oldest recent one, plus one:
      what counts is how close together the history holds the two. */
  lemma WaitFreesIff(full: seq<real>, now: real, window: int, attempts: int)
    requires Sorted(full) && attempts >= 1
    requires Recent(full, now - window as real) >= attempts
    ensures attempts <= |full|
    ensures var oldest := OldestRecent(full, now - window as real);
            Recent(full, now + WaitFor(oldest, now, window) as real - window as real) < attempts <==>
            Remaining(full[|full| - attempts], now, window) <= (Remaining(oldest, now, window).Floor + 1) as real
  {
    RecentBounds(full, now - window as real);
    var wait := WaitFor(OldestRecent(full, now - window as real), now, window);
    SortedRecent(full, now + wait as real - window as real, attempts);
  }

  /** With exactly `attempts` recent failures the wait is always enough. */
  lemma WaitFrees(full: seq<real>, now: real, window: int, attempts: int)
    requires Sorted(full) && AtMost(full, now) && attempts >= 1
    requires Recent(full, now - window as real) == attempts
    ensures var wait := WaitFor(OldestRecent(full, now - window as real), now, window);
            Recent(full, now + wait as real - window as real) < attempts
  {
    RecentBounds(full, now - window as real);
    SortedRecent(full, now - window as real, attempts);
    WaitIsTight(OldestRecent(full, now - window as real), now, window);
    WaitFreesIff(full, now, window, attempts);
  }

  /** Failures recorded the way the login endpoint does: only when the key is
      not blocked at that time. */
  ghost predicate Disciplined(full: seq<real>, window: int, attempts: int) {
    Sorted(full) && forall i :: 0 <= i < |full| ==> Recent(full[..i], full[i] - window as real) < attempts
  }

  /** Then a key never has more than `attempts` failures in its window. */
  lemma {:induction false} NeverOverLimit(full: seq<real>, window: int, attempts: int, now: real)
    requires Disciplined(full, window, attempts) && AtMost(full, now) && attempts >= 1
    ensures Recent(full, now - window as real) <= attempts
  {
    if full != [] {
      var last := full[|full| - 1];
      RecentLater(full[..|full| - 1], last - window as real, now - window as real);
    }
  }

  /** ... so under that discipline the answer of `retry_after` always frees. */
  lemma DisciplinedWaitFrees(full: seq<real>, window: int, attempts: int, now: real)
    requires Disciplined(full, window, attempts) && AtMost(full, now) && attempts >= 1
    requires Recent(full, now - window as real) >= attempts
    ensures var wait := WaitFor(OldestRecent(full, now - window as real), now, window);
            Recent(full, now + wait as real - window as real) < attempts
  {
    NeverOverLimit(full, window, attempts, now);
    WaitFrees(full, now, window, attempts);
  }

  // ------------------------------------------------------- two runs of the class

  lemma {:induction false} EvictionsSpare(log: seq<Event>, dropped: seq<Key>, key: Key)
    requires key !in dropped
    ensures Failures(log + Evictions(dropped), key) == Failures(log, key)
  {
    if dropped == [] {
      assert log + [] == log;
    } else {
      var init, last := dropped[..|dropped| - 1], dropped[|dropped| - 1];
      EvictionsSpare(log, init, key);
      FailuresStep(log + Evictions(init), Evicted(last), key);
      assert log + Evictions(dropped) == log + Evictions(init) + [Evicted(last)];
    }
  }

  /** What recording a failure makes of the history of the key itself. */
  lemma RecordedHistory(log: seq<Event>, key: Key, now: real, dropped: seq<Key>)
    requires key !in dropped
    ensures Failures(log + [Failed(key, now)] + Evictions(dropped), key) == Failures(log, key) + [now]
  {
    EvictionsSpare(log + [Failed(key, now)], dropped, key);
    FailuresStep(log, Failed(key, now), key);
  }

  lemma RecentOfTwo(a: real, b: real, cutoff: real)
    ensures Recent([a, b], cutoff) == (if a > cutoff then 1 else 0) + if b > cutoff then 1 else 0
    ensures Recent([a], cutoff) == if a > cutoff then 1 else 0
  {
    assert [a][..0] == [] && [a, b][..1] == [a];
    assert Recent([a], cutoff) == if a > cutoff then 1 else 0;
  }

  /** Two requests check at the same time and are both let in. */
  method TwoRequests() returns (limiter: SlidingWindowRateLimiter, first: int, second: int)
    ensures fresh(limiter) && limiter.Valid() && limiter.attempts == 1 && limiter.window == 10 && limiter.clock == 0.0
    ensures limiter.log == [] && first == 0 && second == 0
  {
    limiter := new SlidingWindowRateLimiter(1, 10, 4096);
    first := limiter.RetryAfter("A", 0.0);
    second := limiter.RetryAfter("A", 0.0);
  }

  /** Both fail, one of them after nine seconds. */
  method TwoFailures() returns (limiter: SlidingWindowRateLimiter, first: int, second: int)
    ensures fresh(limiter) && limiter.Valid() && limiter.attempts == 1 && limiter.window == 10 && limiter.clock == 9.0
    ensures Failures(limiter.log, "A") == [0.0, 9.0] && first == 0 && second == 0
  {
    limiter, first, second := TwoRequests();
    ghost var dropped := limiter.RecordFailure("A", 0.0);
    RecordedHistory([], "A", 0.0, dropped);
    ghost var log := limiter.log;
    dropped := limiter.RecordFailure("A", 9.0);
    RecordedHistory(log, "A", 9.0, dropped);
  }

  /** The next caller is told to wait two seconds, waits, and is still blocked: one
      attempt per ten seconds was not enough to keep the two requests apart. */
  method WaitTooShort() returns (first: int, second: int, told: int, afterwards: int)
    ensures first == 0 && second == 0 && told == 2 && afterwards > 0
  {
    var limiter;
    limiter, first, second := TwoFailures();
    RecentOfTwo(0.0, 9.0, -1.0);
    RecentOfTwo(0.0, 9.0, 1.0);
    told := limiter.RetryAfter("A", 9.0);
    afterwards := limiter.RetryAfter("A", 11.0);
  }

  function Table3(a: seq<real>, b: seq<real>, c: seq<real>): map<Key, seq<real>> {
    map["A" := a, "B" := b, "C" := c]
  }

  /** The failures of the run below, as the table sees them. */
  lemma FirstFailures()
    ensures WithFailure(map[], "A", 0.0, 10) == map["A" := [0.0]]
    ensures WithFailure(map["A" := [0.0]], "B", 2.0, 10) == map["A" := [0.0], "B" := [2.0]]
  {
    assert [] + [0.0] == [0.0] && [] + [2.0] == [2.0];
  }

  lemma ThirdFailure()
    ensures WithFailure(map["A" := [0.0], "B" := [2.0]], "B", 3.0, 10) == map["A" := [0.0], "B" := [2.0, 3.0]]
  {
    assert [2.0] + [3.0] == [2.0, 3.0];
  }

  lemma FourthFailure()
    ensures WithFailure(map["A" := [0.0], "B" := [2.0, 3.0]], "A", 9.0, 10)
         == map["A" := [0.0, 9.0], "B" := [2.0, 3.0]]
  {
    assert [0.0] + [9.0] == [0.0, 9.0];
  }

  lemma FifthFailure()
    ensures WithoutStale(map["A" := [0.0, 9.0], "B" := [2.0, 3.0]], "B", 1.0) ==
            map["A" := [0.0, 9.0], "B" := [2.0, 3.0]]
    ensures WithFailure(map["A" := [0.0, 9.0], "B" := [2.0, 3.0]], "C", 11.0, 10) ==
            Table3([0.0, 9.0], [2.0, 3.0], [11.0])
  {
    assert [] + [11.0] == [11.0];
  }

  /** Of three keys with room for two, the blocking one goes. */
  lemma BlockingGoes(after: map<Key, seq<real>>)
    requires AfterEviction(Table3([0.0, 9.0], [2.0, 3.0], [11.0]), after, "C", 2, 2)
    ensures "A" in after && after["A"] == [0.0, 9.0] && "B" !in after
  {
    var before := Table3([0.0, 9.0], [2.0, 3.0], [11.0]);
    assert before.Keys == {"A", "B", "C"} && |before| == |before.Keys| == 3;
    assert |after.Keys| == |after| == 2;
    assert !NotAfter(before["A"], before["B"], 2);
    assert "A" in after && "B" in after ==> {"A", "B", "C"} <= after.Keys;
    if "A" in after && "B" in after { SubsetSize({"A", "B", "C"}, after.Keys); }
    if "A" !in after && "B" !in after { SubsetSize(after.Keys, {"C"}); }
  }

  /** Two attempts per ten seconds and room for two keys: A fails at 0 and at 9, B at
      2 and 3. */
  method FourIn() returns (limiter: SlidingWindowRateLimiter)
    ensures fresh(limiter) && limiter.Valid() && limiter.clock == 9.0
    ensures limiter.attempts == 2 && limiter.window == 10 && limiter.maxKeys == 2
    ensures limiter.hits == map["A" := [0.0, 9.0], "B" := [2.0, 3.0]]
  {
    limiter := new SlidingWindowRateLimiter(2, 10, 2);
    FirstFailures();
    ThirdFailure();
    FourthFailure();
    ghost var dropped := limiter.RecordFailure("A", 0.0);
    dropped := limiter.RecordFailure("B", 2.0);
    dropped := limiter.RecordFailure("B", 3.0);
    dropped := limiter.RecordFailure("A", 9.0);
  }

  /** What the histories say at 11, before and after C fails. */
  lemma AtEleven(hits: map<Key, seq<real>>, log: seq<Event>, clock: real)
    requires AllTrack(hits, log, clock, 10) && clock <= 11.0
    ensures Stored(hits, "B") == [2.0, 3.0] ==> Recent(Failures(log, "B"), 1.0) == 2
    ensures Stored(hits, "B") == [] ==> Recent(Failures(log, "B"), 1.0) == 0
    ensures Stored(hits, "A") == [0.0, 9.0] ==> Recent(Failures(log, "A"), 1.0) == 1
  {
    AllTrackLater(hits, log, clock, 11.0, 10);
    StoredCounts(hits, log, "A", 11.0, 10);
    StoredCounts(hits, log, "B", 11.0, 10);
    RecentOfTwo(2.0, 3.0, 1.0);
    RecentOfTwo(0.0, 9.0, 1.0);
  }

  /** At 11 B is blocked and A is not. A failure of C at that moment drops B, whose
      block is gone with it, and keeps A. */
  method BlockedKeyDropped() returns (before: int, after: int, other: int, spared: bool)
    ensures before > 0 && after == 0 && other == 0 && spared
  {
    var limiter := FourIn();
    FifthFailure();
    AtEleven(limiter.hits, limiter.log, 9.0);
    before := limiter.RetryAfter("B", 11.0);
    ghost var dropped := limiter.RecordFailure("C", 11.0);
    BlockingGoes(limiter.hits);
    AtEleven(limiter.hits, limiter.log, 11.0);
    spared := "A" in limiter.hits;
    after := limiter.RetryAfter("B", 11.0);
    other := limiter.RetryAfter("A", 11.0);
  }
}
