/** The webhook retry queue: drain what is due, send it in one batch, put it
    back on failure until it has been tried often enough. */
module Notifications {
  import opened Text

  type Id = nat

  datatype Notification = Notification(id: Id, tries: int, sendAt: real)

  // ------------------------------------------------------------------- the clock

  /** Successive readings of the wall clock. */
  type Clock = nat -> real

  ghost predicate Reaches(clock: Clock, t: real, from: nat) {
    forall j :: j >= from ==> clock(j) >= t
  }

  ghost predicate Passes(clock: Clock, t: real) {
    exists from :: Reaches(clock, t, from)
  }

  /** The clock passes every moment for good. */
  ghost predicate Advances(clock: Clock) {
    forall t: real :: Passes(clock, t)
  }

  ghost predicate AllDue(items: seq<Notification>, clock: Clock, from: nat) {
    forall n :: n in items ==> Reaches(clock, n.sendAt, from)
  }

  lemma {:induction false} Horizon(items: seq<Notification>, clock: Clock) returns (from: nat)
    requires Advances(clock)
    ensures AllDue(items, clock, from)
  {
    if items == [] {
      from := 0;
    } else {
      var a := Horizon(items[..|items| - 1], clock);
      var last := items[|items| - 1];
      assert Passes(clock, last.sendAt);
      var b :| Reaches(clock, last.sendAt, b);
      from := if a < b then b else a;
      forall n | n in items ensures Reaches(clock, n.sendAt, from) {
        if n != last {
          assert n in items[..|items| - 1];
        }
      }
    }
  }

  // ---------------------------------------------------------------- conservation

  /** How often a list holds a notification. */
  function Count(items: seq<Notification>, id: Id): nat {
    if items == [] then 0 else Count(items[..|items| - 1], id) + if items[|items| - 1].id == id then 1 else 0
  }

  lemma {:induction false} CountConcat(a: seq<Notification>, b: seq<Notification>, id: Id)
    ensures Count(a + b, id) == Count(a, id) + Count(b, id)
  {
    if b == [] {
      assert a + b == a;
    } else {
      assert (a + b)[..|a + b| - 1] == a + b[..|b| - 1];
      CountConcat(a, b[..|b| - 1], id);
    }
  }

  lemma CountPush(items: seq<Notification>, n: Notification, id: Id)
    ensures Count(items + [n], id) == Count(items, id) + if n.id == id then 1 else 0
  {
    assert (items + [n])[..|items|] == items;
  }

  lemma CountHead(items: seq<Notification>, id: Id)
    requires items != []
    ensures Count(items, id) == (if items[0].id == id then 1 else 0) + Count(items[1..], id)
  {
    assert items == [items[0]] + items[1..];
    CountPush([], items[0], id);
    assert [] + [items[0]] == [items[0]];
    CountConcat([items[0]], items[1..], id);
  }

  /** Each item was due at the reading noted for it. */
  ghost predicate DueWhen(items: seq<Notification>, clock: Clock, when: seq<nat>, first: nat, next: nat) {
    |when| == |items| && forall k :: 0 <= k < |items| ==> first <= when[k] < next && items[k].sendAt <= clock(when[k])
  }

  /** Items that come from a list and may still be tried, or not. */
  ghost predicate From(items: seq<Notification>, queue: seq<Notification>, limit: int, triable: bool) {
    forall n :: n in items ==> n in queue && (n.tries <= limit) == triable
  }

  ghost predicate Within(items: seq<Notification>, queue: seq<Notification>) {
    forall n :: n in items ==> n in queue
  }

  /** Nothing appears or disappears while the queue is drained. */
  ghost predicate Conserved(rest: seq<Notification>, taken: seq<Notification>, dropped: seq<Notification>,
                            queue: seq<Notification>) {
    forall id :: Count(rest, id) + Count(taken, id) + Count(dropped, id) == Count(queue, id)
  }

  lemma PopKeeps(rest: seq<Notification>, taken: seq<Notification>, dropped: seq<Notification>,
                 queue: seq<Notification>)
    requires rest != [] && Conserved(rest, taken, dropped, queue) && Within(rest, queue)
    ensures Conserved(rest[1..], taken + [rest[0]], dropped, queue)
    ensures Conserved(rest[1..], taken, dropped + [rest[0]], queue)
    ensures Conserved(rest[1..] + [rest[0]], taken, dropped, queue)
    ensures Within(rest[1..], queue) && Within(rest[1..] + [rest[0]], queue)
  {
    forall id: Id
      ensures Count(rest[1..], id) + Count(taken + [rest[0]], id) + Count(dropped, id) == Count(queue, id)
      ensures Count(rest[1..], id) + Count(taken, id) + Count(dropped + [rest[0]], id) == Count(queue, id)
      ensures Count(rest[1..] + [rest[0]], id) + Count(taken, id) + Count(dropped, id) == Count(queue, id)
    {
      CountHead(rest, id);
      CountPush(taken, rest[0], id);
      CountPush(dropped, rest[0], id);
      CountPush(rest[1..], rest[0], id);
    }
  }

  lemma FromPush(items: seq<Notification>, queue: seq<Notification>, limit: int, triable: bool, n: Notification)
    requires From(items, queue, limit, triable) && n in queue && (n.tries <= limit) == triable
    ensures From(items + [n], queue, limit, triable)
  {}

  /** Everything that arrives, in order. */
  function Flat(late: seq<seq<Notification>>): seq<Notification> {
    if late == [] then [] else late[0] + Flat(late[1..])
  }

  lemma ArrivalKeeps(rest: seq<Notification>, taken: seq<Notification>, dropped: seq<Notification>,
                     entered: seq<Notification>, batch: seq<Notification>, limit: int)
    requires Conserved(rest, taken, dropped, entered) && Within(rest, entered)
    requires From(taken, entered, limit, true) && From(dropped, entered, limit, false)
    ensures Conserved(rest + batch, taken, dropped, entered + batch) && Within(rest + batch, entered + batch)
    ensures From(taken, entered + batch, limit, true) && From(dropped, entered + batch, limit, false)
  {
    forall id: Id
      ensures Count(rest + batch, id) + Count(taken, id) + Count(dropped, id) == Count(entered + batch, id)
    {
      CountConcat(rest, batch, id);
      CountConcat(entered, batch, id);
    }
  }

  /** One turn of the pop loop on a queue that is not empty: the item is thrown
      away, put back, or taken. */
  method Pop(rest: seq<Notification>, taken: seq<Notification>, dropped: seq<Notification>,
             limit: int, clock: Clock, next: nat,
             ghost entered: seq<Notification>, ghost when: seq<nat>, ghost first: nat)
    returns (rest': seq<Notification>, taken': seq<Notification>, dropped': seq<Notification>, next': nat,
             ghost when': seq<nat>)
    requires rest != [] && Conserved(rest, taken, dropped, entered) && Within(rest, entered)
    requires From(taken, entered, limit, true) && From(dropped, entered, limit, false)
    requires first <= next && DueWhen(taken, clock, when, first, next)
    ensures Conserved(rest', taken', dropped', entered) && Within(rest', entered)
    ensures From(taken', entered, limit, true) && From(dropped', entered, limit, false)
    ensures next <= next' && DueWhen(taken', clock, when', first, next')
    ensures (forall n :: n in entered ==> n.tries <= limit) ==> dropped' == dropped
    ensures rest[0] in entered
    ensures |rest'| < |rest| || (|rest'| == |rest| && next' == next + 1 && rest[0].sendAt > clock(next))
  {
    PopKeeps(rest, taken, dropped, entered);
    var n := rest[0];
    assert n in entered;
    rest', taken', dropped', next', when' := rest[1..], taken, dropped, next, when;
    if n.tries > limit {
      FromPush(dropped, entered, limit, false, n);
      dropped' := dropped + [n];
    } else {
      var now := clock(next);
      next' := next + 1;
      if n.sendAt > now {
        rest' := rest' + [n];
      } else {
        FromPush(taken, entered, limit, true, n);
        taken', when' := taken + [n], when + [next];
      }
    }
  }

  /** The pop loop: it spins until everything left is due, so it ends with an
      empty queue, having taken every notification that may still be tried. Other
      threads append meanwhile: `late[j]` arrives before the j-th pop, and what
      arrives after the last one is not `early`. */
  method Drain(queue: seq<Notification>, late: seq<seq<Notification>>, limit: int, clock: Clock, first: nat)
    returns (taken: seq<Notification>, dropped: seq<Notification>, next: nat,
             ghost when: seq<nat>, ghost early: seq<Notification>, left: seq<seq<Notification>>)
    requires Advances(clock)
    ensures early + Flat(left) == Flat(late)
    ensures Conserved([], taken, dropped, queue + early)
    ensures From(taken, queue + early, limit, true) && From(dropped, queue + early, limit, false)
    ensures (forall n :: n in queue + early ==> n.tries <= limit) ==> dropped == []
    ensures next >= first && DueWhen(taken, clock, when, first, next)
  {
    taken, dropped, next, when := [], [], first, [];
    early, left := [], late;
    var rest := queue;
    ghost var horizon := Horizon(queue + Flat(late), clock);
    assert queue + early == queue;
    while rest != [] || left != []
      invariant early + Flat(left) == Flat(late)
      invariant Conserved(rest, taken, dropped, queue + early) && Within(rest, queue + early)
      invariant From(taken, queue + early, limit, true) && From(dropped, queue + early, limit, false)
      invariant (forall n :: n in queue + early ==> n.tries <= limit) ==> dropped == []
      invariant next >= first && DueWhen(taken, clock, when, first, next)
      decreases |left|, if next < horizon then horizon - next else 0, |rest|
    {
      if left != [] {
        ArrivalKeeps(rest, taken, dropped, queue + early, left[0], limit);
        Associate(queue, early, left[0]);
        Associate(early, left[0], Flat(left[1..]));
        rest, early, left := rest + left[0], early + left[0], left[1..];
      }
      if rest == [] { break; }
      assert queue + early + Flat(left) == queue + Flat(late) by { Associate(queue, early, Flat(left)); }
      ghost var head := rest[0];
      rest, taken, dropped, next, when := Pop(rest, taken, dropped, limit, clock, next, queue + early, when, first);
      assert head in queue + early ==> Reaches(clock, head.sendAt, horizon);
    }
  }

  lemma Rearrange(a: seq<Notification>, b: seq<Notification>, ab: seq<Notification>, c: seq<Notification>)
    requires a + b == ab
    ensures a + (b + c) == ab + c
  {}

  /** The failure branch: one more try each, later, for those that have one. */
  function Requeued(items: seq<Notification>, limit: int, clock: Clock, i: nat, delay: real): seq<Notification>
    decreases |items|
  {
    if items == [] then []
    else if items[0].tries + 1 > limit then Requeued(items[1..], limit, clock, i, delay)
    else [items[0].(tries := items[0].tries + 1, sendAt := clock(i) + delay)] +
         Requeued(items[1..], limit, clock, i + 1, delay)
  }

  method Requeue(items: seq<Notification>, limit: int, clock: Clock, first: nat, delay: real)
    returns (queue: seq<Notification>)
    ensures queue == Requeued(items, limit, clock, first, delay)
  {
    queue := [];
    var i := first;
    for k := 0 to |items|
      invariant queue + Requeued(items[k..], limit, clock, i, delay) == Requeued(items, limit, clock, first, delay)
    {
      assert items[k..][1..] == items[k + 1..];
      if items[k].tries + 1 > limit { continue; }
      queue := queue + [items[k].(tries := items[k].tries + 1, sendAt := clock(i) + delay)];
      i := i + 1;
    }
  }

  predicate TriedOnce(items: seq<Notification>, again: Notification, limit: int) {
    exists n <- items :: again.id == n.id && again.tries == n.tries + 1 <= limit
  }

  /** What is put back comes from the batch, with one more try counted, and waits for
      the delay from a reading of the clock taken after the send. */
  ghost predicate Retried(items: seq<Notification>, back: seq<Notification>, limit: int, clock: Clock, i: nat,
                          delay: real) {
    forall k :: 0 <= k < |back| ==> TriedOnce(items, back[k], limit) && back[k].sendAt == Reading(clock, i, k) + delay
  }

  function Reading(clock: Clock, i: nat, k: nat): real {
    clock(i + k)
  }

  /** None of these is due before the delay has passed from some reading of the clock
      that comes after `first`. */
  ghost predicate Delayed(items: seq<Notification>, clock: Clock, first: nat, delay: real) {
    forall n <- items :: exists k: nat :: n.sendAt == Reading(clock, first, k) + delay
  }

  lemma RequeuedDelayed(items: seq<Notification>, limit: int, clock: Clock, first: nat, next: nat, delay: real)
    requires first <= next
    ensures Delayed(Requeued(items, limit, clock, next, delay), clock, first, delay)
  {
    var back := Requeued(items, limit, clock, next, delay);
    RequeuedIs(items, limit, clock, next, delay);
    forall n <- back ensures exists k: nat :: n.sendAt == Reading(clock, first, k) + delay {
      var k :| 0 <= k < |back| && back[k] == n;
      assert n.sendAt == Reading(clock, first, next - first + k) + delay;
    }
  }

  lemma {:induction false} RequeuedIs(items: seq<Notification>, limit: int, clock: Clock, i: nat, delay: real)
    ensures Retried(items, Requeued(items, limit, clock, i, delay), limit, clock, i, delay)
    decreases |items|
  {
    if items != [] {
      var head, tail := items[0], items[1..];
      var back := Requeued(items, limit, clock, i, delay);
      if head.tries + 1 > limit {
        RequeuedIs(tail, limit, clock, i, delay);
        forall k | 0 <= k < |back| ensures TriedOnce(items, back[k], limit) {
          TriedOfMore(head, tail, back[k], limit);
        }
      } else {
        RequeuedIs(tail, limit, clock, i + 1, delay);
        var rest := Requeued(tail, limit, clock, i + 1, delay);
        assert head in items && TriedOnce(items, back[0], limit);
        forall k | 1 <= k < |back|
          ensures back[k].sendAt == Reading(clock, i, k) + delay && TriedOnce(items, back[k], limit)
        {
          assert back[k] == rest[k - 1] && i + 1 + (k - 1) == i + k;
          TriedOfMore(head, tail, back[k], limit);
        }
      }
    }
  }

  lemma TriedOfMore(head: Notification, tail: seq<Notification>, again: Notification, limit: int)
    requires TriedOnce(tail, again, limit)
    ensures forall items :: items != [] && items[0] == head && items[1..] == tail ==> TriedOnce(items, again, limit)
  {
    var n :| n in tail && again.id == n.id && again.tries == n.tries + 1 <= limit;
    assert forall items: seq<Notification> :: items != [] && items[1..] == tail ==> n in items;
  }

  // ---------------------------------------------------------------- the ledger

  datatype Fate = Queued | Delivered | Abandoned

  /** How often a notification was sent, and what became of it. */
  datatype Record = Record(attempts: nat, fate: Fate)

  type Ledger = map<Id, Record>

  /** Every notification ever enqueued is in the queue, once, with its failures
      counted, or was delivered, or failed `limit` + 1 times. */
  ghost predicate Accounted(ledger: Ledger, queue: seq<Notification>, limit: int) {
    && (forall id :: Count(queue, id) == if id in ledger && ledger[id].fate.Queued? then 1 else 0)
    && (forall n :: n in queue ==> n.id in ledger && ledger[n.id].attempts == n.tries <= limit)
    && (forall id :: id in ledger ==>
          && (ledger[id].fate.Delivered? ==> 1 <= ledger[id].attempts <= limit + 1)
          && (ledger[id].fate.Abandoned? ==> ledger[id].attempts == limit + 1))
  }

  /** One batch: everything queued was sent once more. */
  function Sent(ledger: Ledger, ok: bool, limit: int): Ledger {
    map id | id in ledger ::
      if !ledger[id].fate.Queued? then ledger[id]
      else Record(ledger[id].attempts + 1,
                  if ok then Delivered else if ledger[id].attempts + 1 > limit then Abandoned else Queued)
  }

  lemma {:induction false} RequeuedCount(items: seq<Notification>, ledger: Ledger, limit: int, clock: Clock, i: nat,
                                         delay: real)
    requires forall n :: n in items ==> n.id in ledger && ledger[n.id].attempts == n.tries
    ensures var queue := Requeued(items, limit, clock, i, delay);
            && (forall id :: Count(queue, id) ==
                  if id in ledger && ledger[id].attempts + 1 <= limit then Count(items, id) else 0)
            && (forall n :: n in queue ==>
                  n.id in ledger && n.tries == ledger[n.id].attempts + 1 <= limit && Count(items, n.id) >= 1)
    decreases |items|
  {
    if items != [] {
      assert items[0] in items;
      forall id: Id ensures Count(items, id) == (if items[0].id == id then 1 else 0) + Count(items[1..], id) {
        CountHead(items, id);
      }
      if items[0].tries + 1 > limit {
        RequeuedCount(items[1..], ledger, limit, clock, i, delay);
      } else {
        RequeuedCount(items[1..], ledger, limit, clock, i + 1, delay);
        var queue := Requeued(items, limit, clock, i, delay);
        assert queue[1..] == Requeued(items[1..], limit, clock, i + 1, delay);
        forall id: Id ensures Count(queue, id) == (if items[0].id == id then 1 else 0) + Count(queue[1..], id) {
          CountHead(queue, id);
        }
      }
    }
  }

  lemma {:induction false} CountMember(items: seq<Notification>, n: Notification)
    requires n in items
    ensures Count(items, n.id) >= 1
  {
    if items[|items| - 1] != n {
      CountMember(items[..|items| - 1], n);
    }
  }

  lemma {:induction false} MemberOfCount(items: seq<Notification>, id: Id) returns (n: Notification)
    requires Count(items, id) >= 1
    ensures n in items && n.id == id
  {
    if items[|items| - 1].id == id {
      n := items[|items| - 1];
    } else {
      n := MemberOfCount(items[..|items| - 1], id);
    }
  }

  /** Whatever the answer of the webhooks, the books balance afterwards. */
  lemma BatchAccounted(ledger: Ledger, taken: seq<Notification>, ok: bool, limit: int, clock: Clock, i: nat,
                       delay: real)
    requires Accounted(ledger, taken, limit)
    ensures Accounted(Sent(ledger, ok, limit), if ok then [] else Requeued(taken, limit, clock, i, delay), limit)
  {
    forall id | id in ledger && ledger[id].fate.Queued? ensures ledger[id].attempts <= limit {
      var n := MemberOfCount(taken, id);
    }
    if !ok { FailedAccounted(ledger, taken, limit, clock, i, delay); }
  }

  lemma FailedAccounted(ledger: Ledger, taken: seq<Notification>, limit: int, clock: Clock, i: nat, delay: real)
    requires Accounted(ledger, taken, limit)
    ensures var after, queue := Sent(ledger, false, limit), Requeued(taken, limit, clock, i, delay);
            && (forall id :: Count(queue, id) == if id in after && after[id].fate.Queued? then 1 else 0)
            && (forall n :: n in queue ==> n.id in after && after[n.id].attempts == n.tries <= limit)
  {
    var after, queue := Sent(ledger, false, limit), Requeued(taken, limit, clock, i, delay);
    RequeuedCount(taken, ledger, limit, clock, i, delay);
    forall id: Id ensures Count(queue, id) == if id in after && after[id].fate.Queued? then 1 else 0 {
      assert Count(taken, id) == if id in ledger && ledger[id].fate.Queued? then 1 else 0;
    }
    forall n | n in queue ensures n.id in after && after[n.id].attempts == n.tries <= limit {
      assert Count(taken, n.id) == if n.id in ledger && ledger[n.id].fate.Queued? then 1 else 0;
    }
  }

  lemma EnqueueAccounted(ledger: Ledger, queue: seq<Notification>, limit: int, n: Notification)
    requires Accounted(ledger, queue, limit) && n.id !in ledger && n.tries == 0 && limit >= 0
    ensures Accounted(ledger[n.id := Record(0, Queued)], queue + [n], limit)
  {
    var after := ledger[n.id := Record(0, Queued)];
    forall id: Id ensures Count(queue + [n], id) == if id in after && after[id].fate.Queued? then 1 else 0 {
      CountPush(queue, n, id);
      assert Count(queue, id) == if id in ledger && ledger[id].fate.Queued? then 1 else 0;
    }
  }

  /** Notifications that are new: never seen, never tried, each once. */
  ghost predicate Arrivals(ledger: Ledger, items: seq<Notification>) {
    && (forall n <- items :: n.tries == 0 && n.id !in ledger)
    && (forall i, j :: 0 <= i < j < |items| ==> items[i].id != items[j].id)
  }

  /** The books after some arrivals. */
  function Enqueued(ledger: Ledger, items: seq<Notification>): Ledger {
    if items == [] then ledger
    else Enqueued(ledger, items[..|items| - 1])[items[|items| - 1].id := Record(0, Queued)]
  }

  lemma {:induction false} EnqueuedIds(ledger: Ledger, items: seq<Notification>, id: Id)
    requires id !in ledger && forall n <- items :: n.id != id
    ensures id !in Enqueued(ledger, items)
  {
    if items != [] { EnqueuedIds(ledger, items[..|items| - 1], id); }
  }

  lemma {:induction false} EnqueuedAccounted(ledger: Ledger, queue: seq<Notification>, items: seq<Notification>,
                                             limit: int)
    requires Accounted(ledger, queue, limit) && Arrivals(ledger, items) && (items != [] ==> limit >= 0)
    ensures Accounted(Enqueued(ledger, items), queue + items, limit)
  {
    if items == [] {
      assert queue + items == queue;
    } else {
      var init, last := items[..|items| - 1], items[|items| - 1];
      assert items == init + [last];
      ArrivalsSplit(ledger, init, [last]);
      EnqueuedAccounted(ledger, queue, init, limit);
      assert last in [last];
      Associate(queue, init, [last]);
      EnqueueAccounted(Enqueued(ledger, init), queue + init, limit, last);
    }
  }

  /** The books of a whole pass balance. */
  lemma PassAccounted(ledger: Ledger, queue: seq<Notification>, early: seq<Notification>, tardy: seq<Notification>,
                      taken: seq<Notification>, dropped: seq<Notification>, ok: bool, limit: int,
                      clock: Clock, next: nat, delay: real)
    requires Accounted(ledger, queue, limit) && Arrivals(ledger, early + tardy) && (early + tardy != [] ==> limit >= 0)
    requires Conserved([], taken, dropped, queue + early) && From(taken, queue + early, limit, true)
    requires (forall n :: n in queue + early ==> n.tries <= limit) ==> dropped == []
    ensures Accounted(Enqueued(Sent(Enqueued(ledger, early), ok, limit), tardy),
                      tardy + (if ok then [] else Requeued(taken, limit, clock, next, delay)), limit)
  {
    var back := if ok then [] else Requeued(taken, limit, clock, next, delay);
    ArrivalsSplit(ledger, early, tardy);
    EnqueuedAccounted(ledger, queue, early, limit);
    DrainedAccounted(Enqueued(ledger, early), queue + early, taken, dropped, limit);
    BatchAccounted(Enqueued(ledger, early), taken, ok, limit, clock, next, delay);
    EnqueuedAccounted(Sent(Enqueued(ledger, early), ok, limit), back, tardy, limit);
    OrderIsNothing(Enqueued(Sent(Enqueued(ledger, early), ok, limit), tardy), back, tardy, limit);
  }

  /** The books do not depend on the order of the queue. */
  lemma OrderIsNothing(ledger: Ledger, a: seq<Notification>, b: seq<Notification>, limit: int)
    requires Accounted(ledger, a + b, limit)
    ensures Accounted(ledger, b + a, limit)
  {
    forall id: Id ensures Count(b + a, id) == Count(a + b, id) {
      CountConcat(a, b, id);
      CountConcat(b, a, id);
    }
  }

  /** What arrives later is still new to the books that hold what came earlier. */
  lemma ArrivalsSplit(ledger: Ledger, early: seq<Notification>, tardy: seq<Notification>)
    requires Arrivals(ledger, early + tardy)
    ensures Arrivals(ledger, early) && Arrivals(Enqueued(ledger, early), tardy)
  {
    var all := early + tardy;
    assert forall n <- early :: n in all;
    assert forall i :: 0 <= i < |early| ==> all[i] == early[i];
    assert forall j :: 0 <= j < |tardy| ==> all[|early| + j] == tardy[j];
    forall n <- tardy ensures n.tries == 0 && n.id !in Enqueued(ledger, early) {
      assert n in all;
      EnqueuedIds(ledger, early, n.id);
    }
  }

  class Dispatcher {
    const limit: int
    const delay: real
    var queue: seq<Notification>
    ghost var ledger: Ledger

    ghost predicate Valid()
      reads this
    {
      Accounted(ledger, queue, limit)
    }

    constructor (limit: int, delay: real)
      ensures Valid() && this.limit == limit && this.delay == delay && queue == [] && ledger == map[]
    {
      this.limit, this.delay := limit, delay;
      queue, ledger := [], map[];
    }

    /** A new notification, never seen before and never tried. */
    method Enqueue(n: Notification)
      requires Valid() && n.id !in ledger && n.tries == 0 && limit >= 0
      modifies this
      ensures Valid() && queue == old(queue) + [n] && ledger == old(ledger)[n.id := Record(0, Queued)]
    {
      EnqueueAccounted(ledger, queue, limit, n);
      queue, ledger := queue + [n], ledger[n.id := Record(0, Queued)];
    }

    /** `send_notifications`, while other threads enqueue: `late` during the pop
        loop, `during` while the batch is being sent. After the pass each
        notification that was queued, or arrived early enough, has been sent exactly
        once more; the others stand at the front of the queue; none was lost. */
    method SendNotifications(clock: Clock, first: nat, ok: bool, late: seq<seq<Notification>>,
                             during: seq<Notification>)
      returns (ghost early: seq<Notification>, ghost tardy: seq<Notification>)
      requires Valid() && Advances(clock) && Arrivals(ledger, Flat(late) + during)
      requires Flat(late) + during != [] ==> limit >= 0
      modifies this
      ensures Valid()
      ensures early + tardy == Flat(late) + during
      ensures ledger == Enqueued(Sent(Enqueued(old(ledger), early), ok, limit), tardy)
      ensures tardy <= queue && (ok ==> queue == tardy)
      ensures Delayed(queue[|tardy|..], clock, first, delay)
    {
      ghost var books;
      var next;
      next, books, early, tardy := Batch(queue, ledger, limit, delay, clock, first, ok, late, during);
      queue, ledger := next, books;
    }
  }

  /** The pass itself, on a queue and its books. */
  method Batch(queue: seq<Notification>, ghost ledger: Ledger, limit: int, delay: real, clock: Clock, first: nat,
               ok: bool, late: seq<seq<Notification>>, during: seq<Notification>)
    returns (queue': seq<Notification>, ghost ledger': Ledger,
             ghost early: seq<Notification>, ghost tardy: seq<Notification>)
    requires Accounted(ledger, queue, limit) && Advances(clock) && Arrivals(ledger, Flat(late) + during)
    requires Flat(late) + during != [] ==> limit >= 0
    ensures Accounted(ledger', queue', limit) && early + tardy == Flat(late) + during
    ensures ledger' == Enqueued(Sent(Enqueued(ledger, early), ok, limit), tardy)
    ensures tardy <= queue' && (ok ==> queue' == tardy)
    ensures Delayed(queue'[|tardy|..], clock, first, delay)
  {
    if queue == [] {
      early, tardy := [], Flat(late) + during;
      QuietAccounted(ledger, tardy, ok, limit);
      ledger', queue' := Enqueued(ledger, tardy), Flat(late) + during;
    } else {
      queue', ledger', early, tardy := SendQueued(queue, ledger, limit, delay, clock, first, ok, late, during);
    }
  }

  /** The pass on a queue that is not empty: drain, send, put back. */
  method SendQueued(queue: seq<Notification>, ghost ledger: Ledger, limit: int, delay: real, clock: Clock, first: nat,
                    ok: bool, late: seq<seq<Notification>>, during: seq<Notification>)
    returns (queue': seq<Notification>, ghost ledger': Ledger,
             ghost early: seq<Notification>, ghost tardy: seq<Notification>)
    requires Accounted(ledger, queue, limit) && Advances(clock) && Arrivals(ledger, Flat(late) + during)
    requires Flat(late) + during != [] ==> limit >= 0
    ensures Accounted(ledger', queue', limit) && early + tardy == Flat(late) + during
    ensures ledger' == Enqueued(Sent(Enqueued(ledger, early), ok, limit), tardy)
    ensures tardy <= queue' && (ok ==> queue' == tardy)
    ensures Delayed(queue'[|tardy|..], clock, first, delay)
  {
    var taken, dropped, next, _, early', left := Drain(queue, late, limit, clock, first);
    early, tardy := early', Flat(left) + during;
    DrainedPass(ledger, queue, early, Flat(left), Flat(late), during, taken, dropped, ok, limit, clock, next, delay);
    ledger' := Enqueued(Sent(Enqueued(ledger, early), ok, limit), tardy);
    queue' := PutBack(Flat(left) + during, taken, ok, limit, clock, next, delay, first);
  }

  /** The queue after the send: what arrived since the drain stands in front, what
      failed and may be tried again is appended behind it. */
  method PutBack(tardy: seq<Notification>, taken: seq<Notification>, ok: bool, limit: int, clock: Clock, next: nat,
                 delay: real, ghost first: nat) returns (queue: seq<Notification>)
    requires first <= next
    ensures queue == tardy + if ok then [] else Requeued(taken, limit, clock, next, delay)
    ensures ok ==> queue == tardy
    ensures Delayed(queue[|tardy|..], clock, first, delay)
  {
    queue := tardy;
    if !ok {
      RequeuedDelayed(taken, limit, clock, first, next, delay);
      var back := Requeue(taken, limit, clock, next, delay);
      queue := queue + back;
    }
  }

  /** The books of a pass, with the arrivals split where the drain ended. */
  lemma DrainedPass(ledger: Ledger, queue: seq<Notification>, early: seq<Notification>, left: seq<Notification>,
                    late: seq<Notification>, during: seq<Notification>, taken: seq<Notification>,
                    dropped: seq<Notification>, ok: bool, limit: int, clock: Clock, next: nat, delay: real)
    requires early + left == late
    requires Accounted(ledger, queue, limit) && Arrivals(ledger, late + during) && (late + during != [] ==> limit >= 0)
    requires Conserved([], taken, dropped, queue + early) && From(taken, queue + early, limit, true)
    requires (forall n :: n in queue + early ==> n.tries <= limit) ==> dropped == []
    ensures early + (left + during) == late + during
    ensures Accounted(Enqueued(Sent(Enqueued(ledger, early), ok, limit), left + during),
                      (left + during) + (if ok then [] else Requeued(taken, limit, clock, next, delay)), limit)
  {
    Rearrange(early, left, late, during);
    PassAccounted(ledger, queue, early, left + during, taken, dropped, ok, limit, clock, next, delay);
  }

  /** Nothing queued, nothing sent: the arrivals are all there is. */
  lemma QuietAccounted(ledger: Ledger, tardy: seq<Notification>, ok: bool, limit: int)
    requires Accounted(ledger, [], limit) && Arrivals(ledger, tardy) && (tardy != [] ==> limit >= 0)
    ensures Accounted(Enqueued(ledger, tardy), tardy, limit)
    ensures Sent(Enqueued(ledger, []), ok, limit) == ledger
  {
    NoneQueued(ledger, [], ok, limit);
    EnqueuedAccounted(ledger, [], tardy, limit);
    assert [] + tardy == tardy;
  }

  lemma NoneQueued(ledger: Ledger, queue: seq<Notification>, ok: bool, limit: int)
    requires Accounted(ledger, queue, limit) && queue == []
    ensures Sent(ledger, ok, limit) == ledger
  {
    forall id | id in ledger ensures !ledger[id].fate.Queued? {
      assert Count(queue, id) == 0;
    }
  }

  /** Draining loses nothing: the loop's first test never fires. */
  lemma DrainedAccounted(ledger: Ledger, queue: seq<Notification>, taken: seq<Notification>, dropped: seq<Notification>,
                         limit: int)
    requires Accounted(ledger, queue, limit) && Conserved([], taken, dropped, queue)
    requires From(taken, queue, limit, true) && dropped == []
    ensures Accounted(ledger, taken, limit)
  {
    assert forall id :: Count(taken, id) + Count([], id) == Count(queue, id);
  }

  /** Along every run: at most `limit` + 1 attempts each, and a notification
      leaves only acknowledged or after exactly `limit` + 1 failures. */
  lemma NothingLost(ledger: Ledger, queue: seq<Notification>, limit: int, id: Id)
    requires Accounted(ledger, queue, limit) && id in ledger && limit >= 0
    ensures ledger[id].attempts <= limit + 1
    ensures (exists n :: n in queue && n.id == id) <==> ledger[id].fate.Queued?
    ensures ledger[id].fate.Abandoned? ==> ledger[id].attempts == limit + 1
  {
    if ledger[id].fate.Queued? {
      var n := MemberOfCount(queue, id);
    } else {
      forall n | n in queue ensures n.id != id {
        CountMember(queue, n);
      }
    }
  }

  /** The retry count must not be negative: a drain of untried notifications
      throws none away exactly when it is not. */
  lemma NothingThrownAwayIff(queue: seq<Notification>, taken: seq<Notification>, dropped: seq<Notification>, limit: int)
    requires queue != [] && forall n :: n in queue ==> n.tries == 0
    requires Conserved([], taken, dropped, queue) && From(taken, queue, limit, true)
    requires (forall n :: n in queue ==> n.tries <= limit) ==> dropped == []
    ensures dropped == [] <==> limit >= 0
  {
    if dropped == [] {
      var id := queue[0].id;
      CountMember(queue, queue[0]);
      assert Count([], id) + Count(taken, id) + Count(dropped, id) == Count(queue, id);
      var n := MemberOfCount(taken, id);
    }
  }
}
