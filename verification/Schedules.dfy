/** Threads that edit a shared table, one atomic call at a time. Each thread
    owns one cell; a schedule says which thread moves next. */
module Schedules {
  import opened Text

  /** The two calls a core offers. Adding an entry that exists and removing one
      that does not are errors the callers swallow, so neither has an effect. */
  datatype Op<V> = Add(value: V) | Remove

  datatype Thread<K, V> = Thread(cell: K, ops: seq<Op<V>>)

  function Get<K, V>(m: map<K, V>, k: K): Option<V> {
    if k in m then Some(m[k]) else None
  }

  function Apply<K, V>(m: map<K, V>, k: K, op: Op<V>): map<K, V> {
    match op
    case Add(v) => if k in m then m else m[k := v]
    case Remove => m - {k}
  }

  /** What a list of calls does to the content of their cell. */
  function Effects<V>(content: Option<V>, ops: seq<Op<V>>): Option<V>
    decreases |ops|
  {
    if ops == [] then content
    else
      Effects(match ops[0]
              case Add(v) => if content.None? then Some(v) else content
              case Remove => None,
              ops[1..])
  }

  /** `_alter_inbound_user`: remove, then add. Whatever was there is replaced. */
  lemma AlterReplaces<V>(content: Option<V>, v: V)
    ensures Effects(content, [Remove, Add(v)]) == Some(v)
  {
    assert [Remove, Add(v)][1..] == [Add(v)];
    assert Effects(None, [Add(v)]) == Effects(Some(v), []);
  }

  lemma AddFills<V>(content: Option<V>, v: V)
    ensures Effects(content, [Add(v)]) == if content.None? then Some(v) else content
  {
    assert [Add(v)][1..] == [];
  }

  function Advance<K, V>(threads: seq<Thread<K, V>>, i: nat): seq<Thread<K, V>>
    requires i < |threads| && threads[i].ops != []
  {
    threads[i := threads[i].(ops := threads[i].ops[1..])]
  }

  /** A schedule that picks unfinished threads only and finishes all of them. */
  ghost predicate Complete<K, V>(threads: seq<Thread<K, V>>, schedule: seq<nat>)
    decreases |schedule|
  {
    if schedule == [] then forall t :: t in threads ==> t.ops == []
    else
      schedule[0] < |threads| && threads[schedule[0]].ops != [] &&
      Complete(Advance(threads, schedule[0]), schedule[1..])
  }

  /** The table after the threads have run in the order a schedule gives. */
  ghost function Exec<K, V>(threads: seq<Thread<K, V>>, schedule: seq<nat>, m: map<K, V>): map<K, V>
    requires Complete(threads, schedule)
    decreases |schedule|
  {
    if schedule == [] then m
    else
      var t := threads[schedule[0]];
      Exec(Advance(threads, schedule[0]), schedule[1..], Apply(m, t.cell, t.ops[0]))
  }

  /** The table after the threads have run one after the other. */
  function InOrder<K, V>(threads: seq<Thread<K, V>>, m: map<K, V>): map<K, V>
    decreases |threads|, if threads == [] then 0 else |threads[0].ops|
  {
    if threads == [] then m
    else if threads[0].ops == [] then InOrder(threads[1..], m)
    else InOrder(Advance(threads, 0), Apply(m, threads[0].cell, threads[0].ops[0]))
  }

  ghost predicate DistinctCells<K, V>(threads: seq<Thread<K, V>>) {
    forall i, j :: 0 <= i < j < |threads| ==> threads[i].cell != threads[j].cell
  }

  /** Under every schedule, a thread's cell ends as if the thread ran alone. */
  lemma {:induction false} ExecOwnCell<K, V>(threads: seq<Thread<K, V>>, schedule: seq<nat>, m: map<K, V>, i: nat)
    requires Complete(threads, schedule) && DistinctCells(threads) && i < |threads|
    ensures Get(Exec(threads, schedule, m), threads[i].cell) == Effects(Get(m, threads[i].cell), threads[i].ops)
    decreases |schedule|
  {
    if schedule == [] {
      assert threads[i] in threads;
    } else {
      var k := schedule[0];
      var t := threads[k];
      ExecOwnCell(Advance(threads, k), schedule[1..], Apply(m, t.cell, t.ops[0]), i);
    }
  }

  /** A cell no thread owns is left alone. */
  lemma {:induction false} ExecOtherCell<K, V>(threads: seq<Thread<K, V>>, schedule: seq<nat>, m: map<K, V>, cell: K)
    requires Complete(threads, schedule)
    requires forall t :: t in threads ==> t.cell != cell
    ensures Get(Exec(threads, schedule, m), cell) == Get(m, cell)
    decreases |schedule|
  {
    if schedule != [] {
      var k := schedule[0];
      var t := threads[k];
      assert t in threads;
      ExecOtherCell(Advance(threads, k), schedule[1..], Apply(m, t.cell, t.ops[0]), cell);
    }
  }

  /** The schedule that runs the threads one after the other. */
  ghost function OneByOne<K, V>(threads: seq<Thread<K, V>>, from: nat): (schedule: seq<nat>)
    requires from <= |threads|
    requires forall i :: 0 <= i < from ==> threads[i].ops == []
    ensures Complete(threads, schedule)
    decreases |threads| - from, if from < |threads| then |threads[from].ops| else 0
  {
    if from == |threads| then []
    else if threads[from].ops == [] then OneByOne(threads, from + 1)
    else [from] + OneByOne(Advance(threads, from), from)
  }

  lemma {:induction false} OneByOneIsInOrder<K, V>(threads: seq<Thread<K, V>>, from: nat, m: map<K, V>)
    requires from <= |threads|
    requires forall i :: 0 <= i < from ==> threads[i].ops == []
    ensures Exec(threads, OneByOne(threads, from), m) == InOrder(threads[from..], m)
    decreases |threads| - from, if from < |threads| then |threads[from].ops| else 0
  {
    if from < |threads| {
      if threads[from].ops == [] {
        OneByOneIsInOrder(threads, from + 1, m);
        assert threads[from..][1..] == threads[from + 1..];
      } else {
        var t := threads[from];
        OneByOneIsInOrder(Advance(threads, from), from, Apply(m, t.cell, t.ops[0]));
        assert Advance(threads, from)[from..] == Advance(threads[from..], 0);
        var rest := OneByOne(Advance(threads, from), from);
        assert OneByOne(threads, from)[1..] == rest;
      }
    }
  }

  lemma MapsAgree<K(!new), V(!new)>(a: map<K, V>, b: map<K, V>)
    requires forall k :: Get(a, k) == Get(b, k)
    ensures a == b
  {
    forall k
      ensures k in a <==> k in b
      ensures k in a ==> a[k] == b[k]
    {
      assert Get(a, k) == Get(b, k);
    }
  }

  /** Threads on pairwise distinct cells reach one result under all schedules. */
  lemma SchedulesAgree<K(!new), V(!new)>(threads: seq<Thread<K, V>>, s1: seq<nat>, s2: seq<nat>, m: map<K, V>)
    requires DistinctCells(threads) && Complete(threads, s1) && Complete(threads, s2)
    ensures Exec(threads, s1, m) == Exec(threads, s2, m)
  {
    forall k ensures Get(Exec(threads, s1, m), k) == Get(Exec(threads, s2, m), k) {
      if i :| 0 <= i < |threads| && threads[i].cell == k {
        ExecOwnCell(threads, s1, m, i);
        ExecOwnCell(threads, s2, m, i);
      } else {
        ExecOtherCell(threads, s1, m, k);
        ExecOtherCell(threads, s2, m, k);
      }
    }
    MapsAgree(Exec(threads, s1, m), Exec(threads, s2, m));
  }

  /** Every interleaving ends where running the threads in order ends. */
  lemma ScheduleIndependence<K(!new), V(!new)>(threads: seq<Thread<K, V>>, schedule: seq<nat>, m: map<K, V>)
    requires DistinctCells(threads) && Complete(threads, schedule)
    ensures Exec(threads, schedule, m) == InOrder(threads, m)
  {
    SchedulesAgree(threads, schedule, OneByOne(threads, 0), m);
    OneByOneIsInOrder(threads, 0, m);
    assert threads[0..] == threads;
  }

  /** Two lists in order are the first and then the second. */
  lemma {:induction false} InOrderConcat<K, V>(a: seq<Thread<K, V>>, b: seq<Thread<K, V>>, m: map<K, V>)
    ensures InOrder(a + b, m) == InOrder(b, InOrder(a, m))
    decreases |a|, if a == [] then 0 else |a[0].ops|
  {
    if a == [] {
      assert a + b == b;
    } else if a[0].ops == [] {
      assert (a + b)[1..] == a[1..] + b;
      InOrderConcat(a[1..], b, m);
    } else {
      assert Advance(a + b, 0) == Advance(a, 0) + b;
      InOrderConcat(Advance(a, 0), b, Apply(m, a[0].cell, a[0].ops[0]));
    }
  }

  /** All the threads of several lists. */
  function Together<K, V>(lists: seq<seq<Thread<K, V>>>): seq<Thread<K, V>> {
    if lists == [] then [] else Together(lists[..|lists| - 1]) + lists[|lists| - 1]
  }
}
