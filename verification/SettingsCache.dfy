/** The hysteria settings cache: a double-checked read, a load under a lock and
    an invalidation after every commit, as interleaved steps. Settings values
    are numbered by the commit that wrote them. */
module SettingsCache {
  import opened Text

  type Tid = nat

  datatype Answer = Value(version: nat) | Missing | Fallback

  /** Where a thread is. `since` is the newest commit whose invalidation had run
      when this `current()` began; `seen` counts the invalidations up to the
      moment it saw a value in the cache. */
  datatype Pc =
    | Check(since: nat)                    // if _cached is not None
    | ReadFast(since: nat, seen: nat)      // ... return _cached
    | WantLock(since: nat)                 // with _lock
    | Inside(since: nat)                   // if _cached is None
    | Loading(since: nat)                  // _load()
    | Storing(since: nat, version: nat)    // _cached = ...
    | Failing(since: nat)                  // the load raised
    | Unlocking(since: nat, seen: nat)     // leave the with block
    | ReadSlow(since: nat, seen: nat)      // return _cached
    | Returned(since: nat, answer: Answer)
    | Saving                               // before db.commit()
    | Committed(version: nat)              // invalidate(): wants the lock
    | Clearing(version: nat)               // _cached = None
    | SaveUnlocking(version: nat)          // leave the with block
  {
    predicate Holds() {
      Inside? || Loading? || Storing? || Failing? || Unlocking? || Clearing? || SaveUnlocking?
    }

    predicate Reading() {
      || Check? || ReadFast? || WantLock? || Inside? || Loading? || Storing?
      || Failing? || Unlocking? || ReadSlow? || Returned?
    }
  }

  /** `floor` is the newest commit whose invalidation has cleared the cache,
      `clears` how many invalidations have. */
  datatype State = State(
    committed: nat,
    cached: Option<nat>,
    lock: Option<Tid>,
    threads: map<Tid, Pc>,
    floor: nat,
    clears: nat)

  datatype Step = BeginCurrent(t: Tid) | BeginSave(t: Tid) | Move(t: Tid) | FailLoad(t: Tid)

  function Max(a: nat, b: nat): nat {
    if a < b then b else a
  }

  function At(s: State, t: Tid, pc: Pc): State {
    s.(threads := s.threads[t := pc])
  }

  function Answered(s: State): Answer {
    if s.cached.Some? then Value(s.cached.value) else Missing
  }

  /** One step of a thread; None when it has to wait for the lock or is done. */
  function Advance(s: State, t: Tid): Option<State>
    requires t in s.threads
  {
    match s.threads[t]
    case Check(since) => Some(At(s, t, if s.cached.Some? then ReadFast(since, s.clears) else WantLock(since)))
    case ReadFast(since, _) => Some(At(s, t, Returned(since, Answered(s))))
    case WantLock(since) => if s.lock.Some? then None else Some(At(s, t, Inside(since)).(lock := Some(t)))
    case Inside(since) => Some(At(s, t, if s.cached.Some? then Unlocking(since, s.clears) else Loading(since)))
    case Loading(since) => Some(At(s, t, Storing(since, s.committed)))
    case Storing(since, v) => Some(At(s, t, Unlocking(since, s.clears)).(cached := Some(v)))
    case Failing(since) => Some(At(s, t, Returned(since, Fallback)).(lock := None))
    case Unlocking(since, seen) => Some(At(s, t, ReadSlow(since, seen)).(lock := None))
    case ReadSlow(since, _) => Some(At(s, t, Returned(since, Answered(s))))
    case Returned(_, _) => None
    case Saving => Some(At(s, t, Committed(s.committed + 1)).(committed := s.committed + 1))
    case Committed(v) => if s.lock.Some? then None else Some(At(s, t, Clearing(v)).(lock := Some(t)))
    case Clearing(v) =>
      Some(At(s, t, SaveUnlocking(v)).(cached := None, floor := Max(s.floor, v), clears := s.clears + 1))
    case SaveUnlocking(v) => Some(At(s, t, Check(s.floor)).(lock := None))
  }

  function Do(s: State, step: Step): Option<State> {
    match step
    case BeginCurrent(t) => if t in s.threads then None else Some(At(s, t, Check(s.floor)))
    case BeginSave(t) => if t in s.threads then None else Some(At(s, t, Saving))
    case Move(t) => if t !in s.threads then None else Advance(s, t)
    case FailLoad(t) =>
      if t !in s.threads || !s.threads[t].Loading? then None else Some(At(s, t, Failing(s.threads[t].since)))
  }

  function Run(s: State, steps: seq<Step>): Option<State> {
    if steps == [] then Some(s)
    else
      var before := Run(s, steps[..|steps| - 1]);
      if before.None? then None else Do(before.value, steps[|steps| - 1])
  }

  // ----------------------------------------------------------------- invariant

  /** What holds of one thread. */
  ghost predicate ThreadOk(s: State, t: Tid, pc: Pc) {
    && (pc.Holds() ==> s.lock == Some(t))
    && (pc.Reading() ==> pc.since <= s.floor)
    && (pc.Storing? ==> s.floor <= pc.version <= s.committed)
    && (pc.Returned? && pc.answer.Value? ==> pc.since <= pc.answer.version)
    && (pc.Committed? || pc.Clearing? ==> pc.version <= s.committed)
    && (pc.SaveUnlocking? ==> pc.version <= s.floor)
    && ((pc.ReadFast? || pc.Unlocking? || pc.ReadSlow?) ==>
        pc.seen <= s.clears && (pc.seen == s.clears ==> s.cached.Some?))
  }

  ghost predicate Inv(s: State) {
    && s.floor <= s.committed
    && (s.cached.Some? ==> s.floor <= s.cached.value <= s.committed)
    && (forall t :: t in s.threads ==> ThreadOk(s, t, s.threads[t]))
  }

  /** The panel starts like this, with or without settings already read. */
  lemma StartKeepsInv(committed: nat)
    ensures Inv(State(committed, None, None, map[], 0, 0)) && Inv(State(committed, Some(committed), None, map[], 0, 0))
  {}

  /** Only the thread that holds the lock can be at a step that needs it. */
  lemma OneHolder(s: State, t: Tid, q: Tid)
    requires Inv(s) && t in s.threads && q in s.threads && s.threads[t].Holds() && s.threads[q].Holds()
    ensures t == q
  {
    assert ThreadOk(s, t, s.threads[t]) && ThreadOk(s, q, s.threads[q]);
  }

  /** A moving thread stays as the invariant asks: the lock and the versions, */
  lemma MoverVersions(s: State, t: Tid)
    requires Inv(s) && t in s.threads && Advance(s, t).Some?
    ensures var s' := Advance(s, t).value;
            var pc := s'.threads[t];
            && (pc.Holds() ==> s'.lock == Some(t))
            && (pc.Storing? ==> s'.floor <= pc.version <= s'.committed)
            && (pc.Committed? || pc.Clearing? ==> pc.version <= s'.committed)
            && (pc.SaveUnlocking? ==> pc.version <= s'.floor)
  {
    assert ThreadOk(s, t, s.threads[t]);
  }

  /** ... and what it has read. */
  lemma MoverReads(s: State, t: Tid)
    requires Inv(s) && t in s.threads && Advance(s, t).Some?
    ensures var s' := Advance(s, t).value;
            var pc := s'.threads[t];
            && (pc.Reading() ==> pc.since <= s'.floor)
            && (pc.Returned? && pc.answer.Value? ==> pc.since <= pc.answer.version)
            && ((pc.ReadFast? || pc.Unlocking? || pc.ReadSlow?) ==>
                pc.seen <= s'.clears && (pc.seen == s'.clears ==> s'.cached.Some?))
  {
    assert ThreadOk(s, t, s.threads[t]);
  }

  lemma MoverOk(s: State, t: Tid)
    requires Inv(s) && t in s.threads && Advance(s, t).Some?
    ensures ThreadOk(Advance(s, t).value, t, Advance(s, t).value.threads[t])
  {
    MoverVersions(s, t);
    MoverReads(s, t);
  }

  /** What the cache holds after a move is no older than the floor. */
  lemma CacheOk(s: State, t: Tid)
    requires Inv(s) && t in s.threads && Advance(s, t).Some?
    ensures var s' := Advance(s, t).value;
            s'.floor <= s'.committed && (s'.cached.Some? ==> s'.floor <= s'.cached.value <= s'.committed)
  {
    assert ThreadOk(s, t, s.threads[t]);
  }

  /** What a move of one thread leaves of the shared fields. */
  lemma MoveShares(s: State, t: Tid)
    requires Inv(s) && t in s.threads && Advance(s, t).Some?
    ensures var s', pc := Advance(s, t).value, s.threads[t];
            && s'.threads == s.threads[t := s'.threads[t]]
            && (s'.lock == s.lock || (s.lock.None? && s'.lock == Some(t)) || (pc.Holds() && s'.lock.None?))
            && (if pc.Clearing? then s'.floor >= s.floor && s'.clears == s.clears + 1 && s'.committed == s.committed
                else s'.floor == s.floor && s'.clears == s.clears && s'.committed >= s.committed &&
                     (s.cached.Some? ==> s'.cached.Some?))
  {}

  /** Another thread is not disturbed. */
  lemma BystanderOk(s: State, t: Tid, q: Tid)
    requires Inv(s) && t in s.threads && q in s.threads && q != t && Advance(s, t).Some?
    ensures ThreadOk(Advance(s, t).value, q, s.threads[q])
  {
    assert ThreadOk(s, q, s.threads[q]) && ThreadOk(s, t, s.threads[t]);
    MoveShares(s, t);
    if s.threads[q].Holds() && s.threads[t].Holds() {
      OneHolder(s, q, t);
    }
  }

  lemma StepKeepsInv(s: State, step: Step)
    requires Inv(s) && Do(s, step).Some?
    ensures Inv(Do(s, step).value) && Do(s, step).value.floor >= s.floor
  {
    var s' := Do(s, step).value;
    if step.Move? {
      MoverOk(s, step.t);
      CacheOk(s, step.t);
      MoveShares(s, step.t);
    }
    forall q | q in s'.threads ensures ThreadOk(s', q, s'.threads[q]) {
      if q != step.t {
        assert ThreadOk(s, q, s.threads[q]);
        if step.Move? { BystanderOk(s, step.t, q); }
      } else if step.FailLoad? {
        assert ThreadOk(s, q, s.threads[q]);
      }
    }
  }

  lemma {:induction false} RunKeepsInv(s: State, steps: seq<Step>)
    requires Inv(s) && Run(s, steps).Some?
    ensures Inv(Run(s, steps).value) && Run(s, steps).value.floor >= s.floor
  {
    if steps != [] {
      RunKeepsInv(s, steps[..|steps| - 1]);
      StepKeepsInv(Run(s, steps[..|steps| - 1]).value, steps[|steps| - 1]);
    }
  }

  // ----------------------------------------------------------------- freshness

  /** A thread remembers the floor its `current()` began with. */
  lemma {:induction false} SinceStays(s: State, steps: seq<Step>, t: Tid)
    requires Run(s, steps).Some? && t in s.threads && s.threads[t].Reading()
    ensures var s' := Run(s, steps).value;
            t in s'.threads && s'.threads[t].Reading() && s'.threads[t].since == s.threads[t].since
  {
    if steps != [] {
      SinceStays(s, steps[..|steps| - 1], t);
    }
  }

  /** A `current()` that begins after a save's invalidation has returned never
      answers with settings older than that save's commit, in any interleaving. */
  lemma FreshAfterSave(s: State, w: Tid, between: seq<Step>, t: Tid, after: seq<Step>)
    requires Inv(s) && w in s.threads && s.threads[w].SaveUnlocking?
    requires Run(Do(s, Move(w)).value, between).Some?
    requires var mid := Run(Do(s, Move(w)).value, between).value;
             Do(mid, BeginCurrent(t)).Some? && Run(Do(mid, BeginCurrent(t)).value, after).Some?
    ensures var mid := Run(Do(s, Move(w)).value, between).value;
            var end := Run(Do(mid, BeginCurrent(t)).value, after).value;
            t in end.threads &&
            (end.threads[t].Returned? && end.threads[t].answer.Value? ==>
               end.threads[t].answer.version >= s.threads[w].version)
  {
    assert ThreadOk(s, w, s.threads[w]);
    var s1 := Do(s, Move(w)).value;
    StepKeepsInv(s, Move(w));
    RunKeepsInv(s1, between);
    var mid := Run(s1, between).value;
    StepKeepsInv(mid, BeginCurrent(t));
    var s2 := Do(mid, BeginCurrent(t)).value;
    RunKeepsInv(s2, after);
    SinceStays(s2, after, t);
    assert ThreadOk(Run(s2, after).value, t, Run(s2, after).value.threads[t]);
  }

  /** What a save itself returns is at least its own commit. */
  lemma SaveReturnsItsOwn(s: State, w: Tid, after: seq<Step>)
    requires Inv(s) && w in s.threads && s.threads[w].SaveUnlocking? && Run(Do(s, Move(w)).value, after).Some?
    ensures var end := Run(Do(s, Move(w)).value, after).value;
            w in end.threads &&
            (end.threads[w].Returned? && end.threads[w].answer.Value? ==>
               end.threads[w].answer.version >= s.threads[w].version)
  {
    assert ThreadOk(s, w, s.threads[w]);
    StepKeepsInv(s, Move(w));
    RunKeepsInv(Do(s, Move(w)).value, after);
    SinceStays(Do(s, Move(w)).value, after, w);
    var end := Run(Do(s, Move(w)).value, after).value;
    assert ThreadOk(end, w, end.threads[w]);
  }

  // ------------------------------------------------ what is read is what is stored

  predicate Invalidates(pc: Pc) {
    pc.Committed? || pc.Clearing?
  }

  /** Some save stands between its commit and its clearing step. */
  ghost predicate Pending(s: State) {
    exists t :: t in s.threads && Invalidates(s.threads[t])
  }

  /** The cache, and whatever is about to be put there, is what the database holds. */
  ghost predicate UpToDate(s: State) {
    && (s.cached.Some? ==> s.cached.value == s.committed)
    && (forall t :: t in s.threads && s.threads[t].Storing? ==> s.threads[t].version == s.committed)
  }

  ghost predicate Current(s: State) {
    Inv(s) && (Pending(s) || UpToDate(s))
  }

  lemma StillPending(s: State, step: Step, q: Tid)
    requires Do(s, step).Some? && q in s.threads && Invalidates(s.threads[q])
    requires step.Move? && step.t == q ==> s.threads[q].Committed?
    ensures Pending(Do(s, step).value)
  {
    var s' := Do(s, step).value;
    assert q in s'.threads && Invalidates(s'.threads[q]);
  }

  /** The step that clears the cache leaves nothing stale behind. */
  lemma ClearingIsEnough(s: State, t: Tid)
    requires Inv(s) && t in s.threads && s.threads[t].Clearing?
    ensures UpToDate(Advance(s, t).value)
  {
    var s' := Advance(s, t).value;
    forall q | q in s'.threads && s'.threads[q].Storing? ensures false {
      OneHolder(s, t, q);
    }
  }

  /** Nothing pending, and no commit in this step. */
  lemma QuietStep(s: State, step: Step)
    requires Inv(s) && UpToDate(s) && !Pending(s) && Do(s, step).Some?
    ensures Pending(Do(s, step).value) || (UpToDate(Do(s, step).value) && Do(s, step).value.committed == s.committed)
  {
    var s' := Do(s, step).value;
    if step.Move? && s.threads[step.t].Saving? {
      assert step.t in s'.threads && Invalidates(s'.threads[step.t]);
    } else if step.Move? {
      assert !Invalidates(s.threads[step.t]);
    }
  }

  lemma StepKeepsCurrent(s: State, step: Step)
    requires Current(s) && Do(s, step).Some?
    ensures Current(Do(s, step).value)
  {
    StepKeepsInv(s, step);
    if step.Move? && s.threads[step.t].Clearing? {
      ClearingIsEnough(s, step.t);
    } else if Pending(s) {
      var q :| q in s.threads && Invalidates(s.threads[q]);
      StillPending(s, step, q);
    } else {
      QuietStep(s, step);
    }
  }

  /** In every interleaving, while no save stands between its commit and its clearing
      step, a cached value is the newest commit. */
  lemma {:induction false} RunKeepsCurrent(s: State, steps: seq<Step>)
    requires Current(s) && Run(s, steps).Some?
    ensures Current(Run(s, steps).value)
    ensures Run(s, steps).value.committed >= s.committed
  {
    if steps != [] {
      RunKeepsCurrent(s, steps[..|steps| - 1]);
      var before := Run(s, steps[..|steps| - 1]).value;
      StepKeepsCurrent(before, steps[|steps| - 1]);
    }
  }

  /** From the start states on: at such a moment the cache holds the newest commit or
      nothing, and so either bare read answers with the newest commit or with None. */
  lemma ReadsNewest(committed: nat, cached: Option<nat>, steps: seq<Step>, t: Tid)
    requires cached in {None, Some(committed)}
    requires var s := State(committed, cached, None, map[], 0, 0);
             Run(s, steps).Some? && !Pending(Run(s, steps).value)
    ensures var s := Run(State(committed, cached, None, map[], 0, 0), steps).value;
            && s.cached in {None, Some(s.committed)}
            && (t in s.threads && (s.threads[t].ReadFast? || s.threads[t].ReadSlow?) ==>
                  && Do(s, Move(t)).Some? && Do(s, Move(t)).value.threads[t].Returned?
                  && Do(s, Move(t)).value.threads[t].answer in {Value(s.committed), Missing})
  {
    StartKeepsInv(committed);
    RunKeepsCurrent(State(committed, cached, None, map[], 0, 0), steps);
  }

  /** Nothing is pending, `c` is the newest commit, and the reader has answered with no
      other value. */
  ghost predicate Quiet(s: State, t: Tid, c: nat) {
    && Current(s) && !Pending(s) && s.committed == c
    && t in s.threads && s.threads[t].Reading()
    && (s.threads[t].Returned? && s.threads[t].answer.Value? ==> s.threads[t].answer.version == c)
  }

  lemma StepQuiet(s: State, step: Step, t: Tid, c: nat)
    requires Quiet(s, t, c) && Do(s, step).Some? && Do(s, step).value.committed == c
    ensures Quiet(Do(s, step).value, t, c)
  {
    StepKeepsCurrent(s, step);
    QuietStaysQuiet(s, step);
  }

  lemma {:induction false} RunQuiet(s: State, steps: seq<Step>, t: Tid, c: nat)
    requires Quiet(s, t, c) && Run(s, steps).Some? && Run(s, steps).value.committed == c
    ensures Quiet(Run(s, steps).value, t, c)
  {
    if steps != [] {
      var init, last := steps[..|steps| - 1], steps[|steps| - 1];
      RunKeepsCurrent(s, init);
      CommitsGrow(Run(s, init).value, last);
      RunQuiet(s, init, t, c);
      StepQuiet(Run(s, init).value, last, t, c);
    }
  }

  lemma CommitsGrow(s: State, step: Step)
    requires Do(s, step).Some?
    ensures Do(s, step).value.committed >= s.committed
  {}

  /** A `current()` that begins when nothing is pending, and during which nothing is
      committed, answers with the newest commit whenever it answers with a value. */
  lemma QuietCurrentIsNewest(s: State, t: Tid, after: seq<Step>)
    requires Current(s) && !Pending(s) && Do(s, BeginCurrent(t)).Some?
    requires Run(Do(s, BeginCurrent(t)).value, after).Some?
    requires Run(Do(s, BeginCurrent(t)).value, after).value.committed == s.committed
    ensures var end := Run(Do(s, BeginCurrent(t)).value, after).value;
            t in end.threads &&
            (end.threads[t].Returned? && end.threads[t].answer.Value? ==> end.threads[t].answer.version == s.committed)
  {
    var begun := Do(s, BeginCurrent(t)).value;
    StepKeepsCurrent(s, BeginCurrent(t));
    QuietStaysQuiet(s, BeginCurrent(t));
    assert Quiet(begun, t, s.committed);
    RunQuiet(begun, after, t, s.committed);
  }

  lemma QuietStaysQuiet(s: State, step: Step)
    requires Inv(s) && !Pending(s) && Do(s, step).Some? && Do(s, step).value.committed == s.committed
    ensures !Pending(Do(s, step).value)
  {
    var s' := Do(s, step).value;
    forall q | q in s'.threads ensures !Invalidates(s'.threads[q]) {
      if q in s.threads { assert !Invalidates(s.threads[q]); }
    }
  }

  /** These many moves of one thread, one after the other. */
  function Alone(s: State, t: Tid, n: nat): Option<State> {
    if n == 0 then Some(s)
    else
      var before := Alone(s, t, n - 1);
      if before.None? then None else Do(before.value, Move(t))
  }

  /** The thread has answered with this version, which is in the cache and the newest. */
  ghost predicate Answers(end: Option<State>, t: Tid, since: nat, version: nat) {
    && end.Some? && t in end.value.threads && end.value.threads[t] == Returned(since, Value(version))
    && end.value.cached == Some(version) && end.value.committed == version && end.value.lock.None?
  }

  /** The way to the load past an empty cache. */
  lemma EnterAlone(s: State, t: Tid, f: nat)
    requires t in s.threads && s.threads[t] == Check(f) && s.cached.None? && s.lock.None?
    ensures var end := Alone(s, t, 3);
            end.Some? && t in end.value.threads && end.value.threads[t] == Loading(f) &&
            end.value.committed == s.committed
  {
    AloneStep(s, t, 0, s);
    var waits := At(s, t, WantLock(f));
    AloneStep(s, t, 1, waits);
    AloneStep(s, t, 2, At(waits, t, Inside(f)).(lock := Some(t)));
  }

  /** The load, the store and the read. */
  lemma StoreAlone(s: State, t: Tid, f: nat)
    requires t in s.threads && s.threads[t] == Loading(f)
    ensures Answers(Alone(s, t, 4), t, f, s.committed)
  {
    AloneStep(s, t, 0, s);
    var storing := At(s, t, Storing(f, s.committed));
    AloneStep(s, t, 1, storing);
    var stored := At(storing, t, Unlocking(f, s.clears)).(cached := Some(s.committed));
    AloneStep(s, t, 2, stored);
    AloneStep(s, t, 3, At(stored, t, ReadSlow(f, s.clears)).(lock := None));
  }

  /** A load that nobody disturbs puts the newest commit into an empty cache and answers
      with it. */
  lemma LoadAlone(s: State, t: Tid, f: nat)
    requires t in s.threads && s.threads[t] == Check(f) && s.cached.None? && s.lock.None?
    ensures Answers(Alone(s, t, 7), t, f, s.committed)
  {
    EnterAlone(s, t, f);
    var loading := Alone(s, t, 3).value;
    StoreAlone(loading, t, f);
    AloneJoins(s, t, 3, loading, 4);
  }

  /** One undisturbed `current()` when nothing is pending and the lock is free answers
      with the newest commit: out of the cache, or loaded into it. */
  lemma AloneAnswersNewest(s: State, t: Tid)
    requires Current(s) && !Pending(s) && s.lock.None? && t !in s.threads
    ensures var begun := Do(s, BeginCurrent(t)).value;
            Answers(Alone(begun, t, if s.cached.Some? then 2 else 7), t, s.floor, s.committed)
  {
    var begun := Do(s, BeginCurrent(t)).value;
    if s.cached.Some? {
      assert Alone(begun, t, 0) == Some(begun);
      assert Alone(begun, t, 1).Some? && Alone(begun, t, 1).value.threads[t].ReadFast?;
    } else {
      LoadAlone(begun, t, s.floor);
    }
  }

  /** The commit of a save that nobody disturbs, and the lock for its invalidation. */
  lemma CommitAlone(s: State, t: Tid)
    requires s.lock.None? && t in s.threads && s.threads[t].Saving?
    ensures var end, v := Alone(s, t, 2), s.committed + 1;
            && end.Some? && t in end.value.threads && end.value.threads[t] == Clearing(v)
            && end.value.committed == v && end.value.floor == s.floor
  {
    var v := s.committed + 1;
    AloneStep(s, t, 0, s);
    AloneStep(s, t, 1, At(s, t, Committed(v)).(committed := v));
  }

  /** The invalidation. */
  lemma ClearAlone(s: State, t: Tid, v: nat)
    requires t in s.threads && s.threads[t] == Clearing(v) && s.floor <= v
    ensures var end := Alone(s, t, 2);
            && end.Some? && t in end.value.threads && end.value.threads[t] == Check(v)
            && end.value.committed == s.committed && end.value.cached.None? && end.value.lock.None?
  {
    AloneStep(s, t, 0, s);
    AloneStep(s, t, 1, At(s, t, SaveUnlocking(v)).(cached := None, floor := v, clears := s.clears + 1));
  }

  lemma ClearAndLoad(s: State, t: Tid, v: nat)
    requires t in s.threads && s.threads[t] == Clearing(v) && s.floor <= v == s.committed
    ensures Answers(Alone(s, t, 9), t, v, v)
  {
    ClearAlone(s, t, v);
    var checks := Alone(s, t, 2).value;
    LoadAlone(checks, t, v);
    AloneJoins(s, t, 2, checks, 7);
  }

  /** One undisturbed save, whatever the cache held: it commits the next version, clears
      the cache, and answers with its own settings, read back. */
  lemma SaveAloneAnswersItself(s: State, t: Tid)
    requires Inv(s) && s.lock.None? && t !in s.threads
    ensures Answers(Alone(Do(s, BeginSave(t)).value, t, 11), t, s.committed + 1, s.committed + 1)
  {
    var begun := Do(s, BeginSave(t)).value;
    CommitAlone(begun, t);
    var clearing := Alone(begun, t, 2).value;
    ClearAndLoad(clearing, t, s.committed + 1);
    AloneJoins(begun, t, 2, clearing, 9);
  }

  lemma {:induction false} AloneJoins(begun: State, t: Tid, n: nat, s: State, m: nat)
    requires Alone(begun, t, n) == Some(s)
    ensures Alone(begun, t, n + m) == Alone(s, t, m)
  {
    if m > 0 { AloneJoins(begun, t, n, s, m - 1); }
  }

  lemma AloneStep(begun: State, t: Tid, n: nat, s: State)
    requires Alone(begun, t, n) == Some(s)
    ensures Alone(begun, t, n + 1) == Do(s, Move(t))
  {}

  /** A panel just started, its settings not yet read: the first `current()` alone
      answers with what the database holds. */
  lemma FirstCurrentLoads(v: nat)
    ensures var end := Alone(Do(State(v, None, None, map[], 0, 0), BeginCurrent(0)).value, 0, 7);
            end.Some? && 0 in end.value.threads && end.value.threads[0] == Returned(0, Value(v))
  {
    StartKeepsInv(v);
    AloneAnswersNewest(State(v, None, None, map[], 0, 0), 0);
  }

  /** A load that raises answers with the fallback, frees the lock and leaves the cache. */
  lemma FailedLoadAnswers(s: State, t: Tid)
    requires t in s.threads && s.threads[t].Loading? && s.lock == Some(t)
    ensures var failing := Do(s, FailLoad(t)).value;
            var end := Alone(failing, t, 1);
            && end.Some? && t in end.value.threads
            && end.value.threads[t] == Returned(s.threads[t].since, Fallback)
            && end.value.lock.None? && end.value.cached == s.cached
  {
    AloneStep(Do(s, FailLoad(t)).value, t, 0, Do(s, FailLoad(t)).value);
  }

  // -------------------------------------------------------------- nobody is stuck

  ghost predicate LockHeld(s: State) {
    s.lock.Some? ==> s.lock.value in s.threads && s.threads[s.lock.value].Holds()
  }

  lemma StepKeepsLock(s: State, step: Step)
    requires Inv(s) && LockHeld(s) && Do(s, step).Some?
    ensures LockHeld(Do(s, step).value)
  {
    if step.Move? {
      assert ThreadOk(s, step.t, s.threads[step.t]);
    }
  }

  lemma {:induction false} RunKeepsLock(s: State, steps: seq<Step>)
    requires Inv(s) && LockHeld(s) && Run(s, steps).Some?
    ensures LockHeld(Run(s, steps).value)
  {
    if steps != [] {
      RunKeepsLock(s, steps[..|steps| - 1]);
      RunKeepsInv(s, steps[..|steps| - 1]);
      StepKeepsLock(Run(s, steps[..|steps| - 1]).value, steps[|steps| - 1]);
    }
  }

  /** In every interleaving a thread that has not answered can move, or waits for one
      that can. */
  lemma NeverStuck(committed: nat, cached: Option<nat>, steps: seq<Step>, t: Tid)
    requires cached in {None, Some(committed)}
    requires Run(State(committed, cached, None, map[], 0, 0), steps).Some?
    ensures var s := Run(State(committed, cached, None, map[], 0, 0), steps).value;
            t in s.threads && !s.threads[t].Returned? ==>
              || Advance(s, t).Some?
              || (s.lock.Some? && s.lock.value in s.threads && Advance(s, s.lock.value).Some?)
  {
    StartKeepsInv(committed);
    RunKeepsLock(State(committed, cached, None, map[], 0, 0), steps);
  }

  // --------------------------------------------------------- the second, bare read

  /** In this run no save performs its clearing step. */
  predicate NoClearing(s: State, steps: seq<Step>) {
    forall n :: 0 <= n < |steps| ==> !Clears(Run(s, steps[..n]), steps[n])
  }

  predicate Clears(s: Option<State>, step: Step) {
    s.Some? && step.Move? && step.t in s.value.threads && s.value.threads[step.t].Clearing?
  }

  /** What keeps a reader from answering None while nothing is cleared. */
  ghost predicate Supplied(s: State, t: Tid, clears: nat) {
    && s.clears == clears && t in s.threads && s.threads[t].Reading()
    && (s.threads[t].ReadFast? || s.threads[t].Unlocking? || s.threads[t].ReadSlow? ==> s.threads[t].seen == clears)
    && (s.threads[t].Returned? ==> s.threads[t].answer != Missing)
  }

  lemma StepSupplied(s: State, step: Step, t: Tid, clears: nat)
    requires Inv(s) && Supplied(s, t, clears) && Do(s, step).Some? && !Clears(Some(s), step)
    ensures Supplied(Do(s, step).value, t, clears)
  {
    assert ThreadOk(s, t, s.threads[t]);
    if step.Move? { MoveShares(s, step.t); }
  }

  lemma {:induction false} RunSupplied(s: State, steps: seq<Step>, t: Tid)
    requires Inv(s) && Supplied(s, t, s.clears) && Run(s, steps).Some? && NoClearing(s, steps)
    ensures Supplied(Run(s, steps).value, t, s.clears)
  {
    if steps != [] {
      var init, last := steps[..|steps| - 1], steps[|steps| - 1];
      assert NoClearing(s, init) by {
        assert forall n :: 0 <= n < |init| ==> init[..n] == steps[..n] && init[n] == steps[n];
      }
      RunSupplied(s, init, t);
      RunKeepsInv(s, init);
      assert !Clears(Run(s, init), last);
      StepSupplied(Run(s, init).value, last, t, s.clears);
    }
  }

  /** A `current()` during whose whole span no save clears the cache never answers
      None, in any interleaving. */
  lemma MissingNeedsInvalidation(s: State, t: Tid, after: seq<Step>)
    requires Inv(s) && Do(s, BeginCurrent(t)).Some?
    requires Run(Do(s, BeginCurrent(t)).value, after).Some? && NoClearing(Do(s, BeginCurrent(t)).value, after)
    ensures var end := Run(Do(s, BeginCurrent(t)).value, after).value;
            t in end.threads && (end.threads[t].Returned? ==> end.threads[t].answer != Missing)
  {
    StepKeepsInv(s, BeginCurrent(t));
    RunSupplied(Do(s, BeginCurrent(t)).value, after, t);
  }

  /** ... and that does happen: a save slipping in between the two reads makes
      `current()` return None although the settings exist. */
  lemma CurrentCanReturnNone(v: nat)
    ensures Run(State(v, Some(v), None, map[], 0, 0),
                [BeginCurrent(0)] + [Move(0)] + [BeginSave(1)] + [Move(1)] + [Move(1)] + [Move(1)] + [Move(0)]) ==
            Some(State(v + 1, None, Some(1), map[0 := Returned(0, Missing), 1 := SaveUnlocking(v + 1)], v + 1, 1))
  {
    var s0 := State(v, Some(v), None, map[], 0, 0);
    var a := [BeginCurrent(0)];
    assert a[..0] == [];
    var s1 := State(v, Some(v), None, map[0 := Check(0)], 0, 0);
    assert Run(s0, a) == Some(s1);
    var s2 := State(v, Some(v), None, map[0 := ReadFast(0, 0)], 0, 0);
    assert s1.threads[0 := ReadFast(0, 0)] == s2.threads;
    Append(s0, a, s1, Move(0), s2);
    var s3 := State(v, Some(v), None, Two(ReadFast(0, 0), Saving), 0, 0);
    Append(s0, a + [Move(0)], s2, BeginSave(1), s3);
    Updates(ReadFast(0, 0), Saving, Committed(v + 1));
    var s4 := State(v + 1, Some(v), None, Two(ReadFast(0, 0), Committed(v + 1)), 0, 0);
    Append(s0, a + [Move(0)] + [BeginSave(1)], s3, Move(1), s4);
    Updates(ReadFast(0, 0), Committed(v + 1), Clearing(v + 1));
    var s5 := State(v + 1, Some(v), Some(1), Two(ReadFast(0, 0), Clearing(v + 1)), 0, 0);
    Append(s0, a + [Move(0)] + [BeginSave(1)] + [Move(1)], s4, Move(1), s5);
    Updates(ReadFast(0, 0), Clearing(v + 1), SaveUnlocking(v + 1));
    var s6 := State(v + 1, None, Some(1), Two(ReadFast(0, 0), SaveUnlocking(v + 1)), v + 1, 1);
    Append(s0, a + [Move(0)] + [BeginSave(1)] + [Move(1)] + [Move(1)], s5, Move(1), s6);
    assert Two(ReadFast(0, 0), SaveUnlocking(v + 1))[0 := Returned(0, Missing)] ==
           Two(Returned(0, Missing), SaveUnlocking(v + 1));
    Append(s0, a + [Move(0)] + [BeginSave(1)] + [Move(1)] + [Move(1)] + [Move(1)], s6, Move(0),
           State(v + 1, None, Some(1), Two(Returned(0, Missing), SaveUnlocking(v + 1)), v + 1, 1));
  }

  function Two(first: Pc, second: Pc): map<Tid, Pc> {
    map[0 := first, 1 := second]
  }

  lemma Updates(first: Pc, second: Pc, third: Pc)
    ensures Two(first, second)[1 := third] == Two(first, third)
    ensures map[0 := first][1 := second] == Two(first, second)
  {}

  lemma Append(s0: State, steps: seq<Step>, s: State, step: Step, s': State)
    requires Run(s0, steps) == Some(s) && Do(s, step) == Some(s')
    ensures Run(s0, steps + [step]) == Some(s')
  {
    assert (steps + [step])[..|steps|] == steps;
  }

  // ------------------------------------------------------ exactly when None is given

  function Saves(steps: seq<Step>): nat {
    if steps == [] then 0 else Saves(steps[..|steps| - 1]) + if steps[|steps| - 1].BeginSave? then 1 else 0
  }

  lemma SavesNext(steps: seq<Step>, step: Step)
    ensures Saves(steps + [step]) == Saves(steps) + if step.BeginSave? then 1 else 0
  {
    assert (steps + [step])[..|steps|] == steps;
  }

  /** The panel just started, with the settings read. */
  function Start(v: nat): State {
    State(v, Some(v), None, map[], 0, 0)
  }

  predicate AnsweredNone(s: State, t: Tid) {
    t in s.threads && s.threads[t].Returned? && s.threads[t].answer == Missing
  }

  lemma {:induction false} ReadersOnly(v: nat, steps: seq<Step>)
    requires Run(Start(v), steps).Some? && Saves(steps) == 0
    ensures var s := Run(Start(v), steps).value; Inv(s) && s.clears == 0 && forall t <- s.threads :: Supplied(s, t, 0)
  {
    StartKeepsInv(v);
    if steps != [] {
      var init, last := steps[..|steps| - 1], steps[|steps| - 1];
      ReadersOnly(v, init);
      var s := Run(Start(v), init).value;
      StepKeepsInv(s, last);
      var s' := Do(s, last).value;
      forall t <- s'.threads ensures Supplied(s', t, 0) {
        if t in s.threads { StepSupplied(s, last, t, 0); }
      }
      assert s'.clears == 0 by {
        if last.Move? { MoveShares(s, last.t); }
      }
    }
  }

  /** `current()` never answers None in any run with at most `m` saves, exactly when
      `m` is zero: a single save is enough. */
  lemma NoneAnsweredIff(v: nat, m: nat)
    ensures (forall steps, t :: Run(Start(v), steps).Some? && Saves(steps) <= m ==>
               !AnsweredNone(Run(Start(v), steps).value, t))
       <==> m == 0
  {
    if m == 0 {
      forall steps, t | Run(Start(v), steps).Some? && Saves(steps) <= m
        ensures !AnsweredNone(Run(Start(v), steps).value, t)
      {
        ReadersOnly(v, steps);
      }
    } else {
      CurrentCanReturnNone(v);
      var begun := [BeginCurrent(0)] + [Move(0)];
      var steps := begun + [BeginSave(1)] + [Move(1)] + [Move(1)] + [Move(1)] + [Move(0)];
      assert [] + [BeginCurrent(0)] == [BeginCurrent(0)];
      SavesNext([], BeginCurrent(0));
      SavesNext([BeginCurrent(0)], Move(0));
      SavesNext(begun, BeginSave(1));
      SavesNext(begun + [BeginSave(1)], Move(1));
      SavesNext(begun + [BeginSave(1)] + [Move(1)], Move(1));
      SavesNext(begun + [BeginSave(1)] + [Move(1)] + [Move(1)], Move(1));
      SavesNext(begun + [BeginSave(1)] + [Move(1)] + [Move(1)] + [Move(1)], Move(0));
      assert AnsweredNone(Run(Start(v), steps).value, 0);
    }
  }
}
