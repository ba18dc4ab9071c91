/** Device registration: touch, count, insert, each its own committed
    statement, interleaved with other requests of the same user. */
module Devices {
  import opened Text

  type Hwid = string
  type Request = nat

  /** Where one subscription fetch is inside `enforce_device_limit`. */
  datatype Phase =
    | Arrived(hwid: Hwid)    // identified, not looked up yet
    | Unknown(hwid: Hwid)    // touched, not found
    | Admitted(hwid: Hwid)   // counted, below the limit
    | Collided(hwid: Hwid)   // the unique constraint refused the insert
    | Served(hwid: Hwid)
    | Refused(hwid: Hwid)
  {
    predicate InFlight() { !Served? && !Refused? }
  }

  datatype State = State(devices: seq<Hwid>, requests: map<Request, Phase>)

  datatype Step =
    | Arrive(r: Request, hwid: Hwid)
    | Touch(r: Request)
    | Count(r: Request)
    | Insert(r: Request)
    | Retouch(r: Request)
    | Forget(hwid: Hwid)
    | ForgetAll

  function Remove(devices: seq<Hwid>, h: Hwid): (r: seq<Hwid>)
    ensures |r| <= |devices| && forall x :: x in r ==> x in devices
  {
    if devices == [] then []
    else
      var before := Remove(devices[..|devices| - 1], h);
      if devices[|devices| - 1] == h then before else before + [devices[|devices| - 1]]
  }

  ghost function Flying(s: State): set<Request> {
    set r | r in s.requests && s.requests[r].InFlight()
  }

  ghost function Admissions(s: State): set<Request> {
    set r | r in s.requests && s.requests[r].Admitted?
  }

  /** What one statement does; None when it is not this request's turn. `limit`
      is the user's effective limit, `k` caps the fetches in flight. */
  ghost function Do(limit: nat, k: nat, s: State, step: Step): Option<State> {
    match step
    case Arrive(r, h) =>
      if r in s.requests || |Flying(s)| >= k then None
      else Some(s.(requests := s.requests[r := Arrived(h)]))
    case Touch(r) =>
      if r !in s.requests || !s.requests[r].Arrived? then None
      else
        var h := s.requests[r].hwid;
        Some(s.(requests := s.requests[r := if h in s.devices then Served(h) else Unknown(h)]))
    case Count(r) =>
      if r !in s.requests || !s.requests[r].Unknown? then None
      else
        var h := s.requests[r].hwid;
        Some(s.(requests := s.requests[r := if |s.devices| >= limit then Refused(h) else Admitted(h)]))
    case Insert(r) =>
      if r !in s.requests || !s.requests[r].Admitted? then None
      else
        var h := s.requests[r].hwid;
        if h in s.devices then Some(s.(requests := s.requests[r := Collided(h)]))
        else Some(State(s.devices + [h], s.requests[r := Served(h)]))
    case Retouch(r) =>
      if r !in s.requests || !s.requests[r].Collided? then None
      else Some(s.(requests := s.requests[r := Served(s.requests[r].hwid)]))
    case Forget(h) => Some(s.(devices := Remove(s.devices, h)))
    case ForgetAll => Some(s.(devices := []))
  }

  /** The state after a sequence of steps, if every one of them was enabled. */
  ghost function Run(limit: nat, k: nat, s: State, steps: seq<Step>): Option<State> {
    if steps == [] then Some(s)
    else
      var before := Run(limit, k, s, steps[..|steps| - 1]);
      if before.None? then None else Do(limit, k, before.value, steps[|steps| - 1])
  }

  // ---------------------------------------------------------------- the bound

  /** At most `bound` devices once every admitted request has inserted. */
  ghost predicate Within(s: State, k: nat, bound: nat) {
    |Flying(s)| <= k && |s.devices| + |Admissions(s)| <= bound
  }

  lemma StepKeepsFlying(limit: nat, k: nat, s: State, step: Step)
    requires |Flying(s)| <= k && Do(limit, k, s, step).Some?
    ensures |Flying(Do(limit, k, s, step).value)| <= k
  {
    var s' := Do(limit, k, s, step).value;
    if step.Arrive? {
      assert Flying(s') == Flying(s) + {step.r};
    } else {
      assert Flying(s') <= Flying(s);
      SubsetSize(Flying(s'), Flying(s));
    }
  }

  lemma StepKeepsWithin(limit: nat, k: nat, s: State, step: Step, bound: nat)
    requires limit >= 1 && limit + k - 1 <= bound && Within(s, k, bound) && Do(limit, k, s, step).Some?
    ensures Within(Do(limit, k, s, step).value, k, bound)
  {
    StepKeepsFlying(limit, k, s, step);
    var s' := Do(limit, k, s, step).value;
    match step {
      case Count(r) =>
        if |s.devices| < limit {
          SubsetSize(Admissions(s'), Flying(s'));
        } else {
          assert Admissions(s') == Admissions(s);
        }
      case Insert(r) => assert Admissions(s') == Admissions(s) - {r};
      case _ => assert Admissions(s') == Admissions(s);
    }
  }

  /** Every interleaving keeps the registered devices within L + k - 1: the
      limit exactly when fetches come one at a time. */
  lemma {:induction false} LimitUnderInterleaving(limit: nat, k: nat, s: State, steps: seq<Step>, bound: nat)
    requires limit >= 1 && limit + k - 1 <= bound && Within(s, k, bound) && Run(limit, k, s, steps).Some?
    ensures Within(Run(limit, k, s, steps).value, k, bound)
    ensures |Run(limit, k, s, steps).value.devices| <= bound
  {
    if steps != [] {
      var init := steps[..|steps| - 1];
      LimitUnderInterleaving(limit, k, s, init, bound);
      StepKeepsWithin(limit, k, Run(limit, k, s, init).value, steps[|steps| - 1], bound);
    }
  }

  // ------------------------------------------------------------ no device twice

  lemma {:induction false} RemoveDistinct(devices: seq<Hwid>, h: Hwid)
    requires Distinct(devices)
    ensures Distinct(Remove(devices, h)) && h !in Remove(devices, h)
  {
    if devices != [] {
      var before := devices[..|devices| - 1];
      RemoveDistinct(before, h);
      forall i | 0 <= i < |Remove(before, h)| ensures Remove(before, h)[i] != devices[|devices| - 1] {
        assert Remove(before, h)[i] in before;
      }
    }
  }

  /** No hardware id is ever registered twice. */
  lemma {:induction false} NeverTwice(limit: nat, k: nat, s: State, steps: seq<Step>)
    requires Distinct(s.devices) && Run(limit, k, s, steps).Some?
    ensures Distinct(Run(limit, k, s, steps).value.devices)
  {
    if steps != [] {
      var init, last := steps[..|steps| - 1], steps[|steps| - 1];
      NeverTwice(limit, k, s, init);
      if last.Forget? {
        RemoveDistinct(Run(limit, k, s, init).value.devices, last.hwid);
      }
    }
  }

  // ------------------------------------------------------ known devices get served

  /** A verdict, once reached, stays. */
  lemma {:induction false} VerdictStays(limit: nat, k: nat, s: State, steps: seq<Step>, r: Request)
    requires Run(limit, k, s, steps).Some? && r in s.requests && !s.requests[r].InFlight()
    ensures var s' := Run(limit, k, s, steps).value; r in s'.requests && s'.requests[r] == s.requests[r]
  {
    if steps != [] {
      VerdictStays(limit, k, s, steps[..|steps| - 1], r);
    }
  }

  lemma {:induction false} RemoveKeeps(devices: seq<Hwid>, h: Hwid, other: Hwid)
    requires other in devices && other != h
    ensures other in Remove(devices, h)
  {
    var n := |devices| - 1;
    if devices[n] != other {
      RemoveKeeps(devices[..n], h, other);
    }
  }

  /** A device registered when its request arrives is never refused, whatever runs
      beside it and however far over the limit the user is, unless somebody takes
      the device away meanwhile. */
  lemma {:induction false} KnownIsServed(limit: nat, k: nat, s: State, steps: seq<Step>, r: Request)
    requires r in s.requests && s.requests[r].Arrived? && s.requests[r].hwid in s.devices
    requires Forget(s.requests[r].hwid) !in steps && ForgetAll !in steps && Run(limit, k, s, steps).Some?
    ensures var s', h := Run(limit, k, s, steps).value, s.requests[r].hwid;
            h in s'.devices && r in s'.requests && (s'.requests[r] == Arrived(h) || s'.requests[r] == Served(h))
  {
    if steps != [] {
      var init, last := steps[..|steps| - 1], steps[|steps| - 1];
      KnownIsServed(limit, k, s, init, r);
      if last.Forget? {
        RemoveKeeps(Run(limit, k, s, init).value.devices, last.hwid, s.requests[r].hwid);
      }
    }
  }

  /** Between lookup and count nobody else registered this device: true of every
      state when fetches come one at a time. */
  ghost predicate StillUnknown(s: State) {
    forall r :: r in s.requests && (s.requests[r].Unknown? || s.requests[r].Admitted?) ==>
      s.requests[r].hwid !in s.devices
  }

  lemma Alone(s: State, r: Request, q: Request)
    requires |Flying(s)| <= 1 && r in Flying(s) && q in Flying(s)
    ensures r == q
  {
    var pair := {r, q};
    if r != q {
      assert |pair| == 2;
      SubsetSize(pair, Flying(s));
    }
  }

  /** The count of this request refuses a device that is registered by then. */
  ghost predicate RefusesKnown(limit: nat, k: nat, s: State, r: Request) {
    && Do(limit, k, s, Count(r)).Some?
    && var s' := Do(limit, k, s, Count(r)).value; s'.requests[r].Refused? && s'.requests[r].hwid in s'.devices
  }

  /** With one fetch at a time, only devices that are not registered are refused. */
  lemma {:induction false} SoloRefusesStrangersOnly(limit: nat, k: nat, s: State, steps: seq<Step>)
    requires k <= 1 && Run(limit, k, s, steps).Some? && |Flying(s)| <= k && StillUnknown(s)
    ensures var s' := Run(limit, k, s, steps).value;
            |Flying(s')| <= k && StillUnknown(s') && forall r :: !RefusesKnown(limit, k, s', r)
  {
    if steps != [] {
      var init, last := steps[..|steps| - 1], steps[|steps| - 1];
      SoloRefusesStrangersOnly(limit, k, s, init);
      var b := Run(limit, k, s, init).value;
      StepKeepsFlying(limit, k, b, last);
      var s' := Do(limit, k, b, last).value;
      if last.Insert? {
        forall q | q in Flying(b) ensures q == last.r {
          Alone(b, last.r, q);
        }
        assert forall q :: q in s'.requests && s'.requests[q].InFlight() ==> q in Flying(b);
      }
    }
  }

  // ----------------------------------------------------- two fetches of one device

  lemma RunAppend(limit: nat, k: nat, s0: State, steps: seq<Step>, s: State, step: Step, s': State)
    requires Run(limit, k, s0, steps) == Some(s) && Do(limit, k, s, step) == Some(s')
    ensures Run(limit, k, s0, steps + [step]) == Some(s')
  {
    assert (steps + [step])[..|steps|] == steps;
  }

  /** The steps of the race: one request looks the device up, another registers it. */
  function Race(a: Request, b: Request, h: Hwid): seq<Step> {
    [Arrive(b, h), Touch(b), Arrive(a, h), Touch(a), Count(a), Insert(a)]
  }

  /** With one place left, two fetches of one new device and any table: the first
      to be counted registers the device and the other is about to be refused. */
  lemma SameDeviceRace(limit: nat, k: nat, s0: State, steps: seq<Step>, s: State, a: Request, b: Request, h: Hwid)
    requires Run(limit, k, s0, steps) == Some(s) && |s.devices| + 1 == limit && h !in s.devices
    requires a !in s.requests && b !in s.requests && a != b && |Flying(s)| + 2 <= k
    ensures Run(limit, k, s0, steps + Race(a, b, h))
         == Some(State(s.devices + [h], s.requests[b := Unknown(h)][a := Served(h)]))
    ensures RefusesKnown(limit, k, State(s.devices + [h], s.requests[b := Unknown(h)][a := Served(h)]), b)
  {
    var s2 := State(s.devices, s.requests[b := Unknown(h)]);
    var looked := steps + [Arrive(b, h), Touch(b)];
    LookUp(limit, k, s0, steps, s, b, h);
    assert Flying(s2) == Flying(s) + {b};
    Register(limit, k, s0, looked, s2, a, h);
    assert looked + [Arrive(a, h), Touch(a), Count(a)] + [Insert(a)] == steps + Race(a, b, h);
  }

  /** A request of an unknown device, up to its look-up. */
  lemma LookUp(limit: nat, k: nat, s0: State, steps: seq<Step>, s: State, r: Request, h: Hwid)
    requires Run(limit, k, s0, steps) == Some(s) && r !in s.requests && |Flying(s)| < k && h !in s.devices
    ensures Run(limit, k, s0, steps + [Arrive(r, h), Touch(r)]) == Some(State(s.devices, s.requests[r := Unknown(h)]))
  {
    var s1, s2 := State(s.devices, s.requests[r := Arrived(h)]), State(s.devices, s.requests[r := Unknown(h)]);
    Overwrite(s.requests, r, Arrived(h), Unknown(h));
    RunAppendTwo(limit, k, s0, steps, s, Arrive(r, h), s1, Touch(r), s2);
  }

  lemma Overwrite(requests: map<Request, Phase>, r: Request, a: Phase, b: Phase)
    ensures requests[r := a][r := b] == requests[r := b]
  {}

  lemma RunAppendTwo(limit: nat, k: nat, s0: State, steps: seq<Step>, s: State, a: Step, s1: State, b: Step, s2: State)
    requires Run(limit, k, s0, steps) == Some(s) && Do(limit, k, s, a) == Some(s1) && Do(limit, k, s1, b) == Some(s2)
    ensures Run(limit, k, s0, steps + [a, b]) == Some(s2)
  {
    RunAppend(limit, k, s0, steps, s, a, s1);
    RunAppend(limit, k, s0, steps + [a], s1, b, s2);
    assert steps + [a, b] == steps + [a] + [b];
  }

  /** A whole fetch of a new device while there is room. */
  lemma Register(limit: nat, k: nat, s0: State, steps: seq<Step>, s: State, r: Request, h: Hwid)
    requires Run(limit, k, s0, steps) == Some(s)
    requires r !in s.requests && |Flying(s)| < k && h !in s.devices && |s.devices| < limit
    ensures Run(limit, k, s0, steps + [Arrive(r, h), Touch(r), Count(r)] + [Insert(r)]) ==
            Some(State(s.devices + [h], s.requests[r := Served(h)]))
  {
    Admit(limit, k, s0, steps, s, r, h);
    var s3, s4 := State(s.devices, s.requests[r := Admitted(h)]), State(s.devices + [h], s.requests[r := Served(h)]);
    assert s3.requests[r := Served(h)] == s4.requests;
    RunAppend(limit, k, s0, steps + [Arrive(r, h), Touch(r), Count(r)], s3, Insert(r), s4);
  }

  /** Steps of two fetches of one device and of nothing else. */
  predicate PairStep(step: Step, h: Hwid) {
    match step
    case Arrive(r, x) => r < 2 && x == h
    case Touch(r) => r < 2
    case Count(r) => r < 2
    case Insert(r) => r < 2
    case Retouch(r) => r < 2
    case _ => false
  }

  predicate PairSteps(steps: seq<Step>, h: Hwid) {
    forall step <- steps :: PairStep(step, h)
  }

  predicate NobodyRefused(s: State) {
    forall r <- s.requests :: !s.requests[r].Refused?
  }

  lemma {:induction false} PairServed(limit: nat, devices: seq<Hwid>, h: Hwid, steps: seq<Step>)
    requires |devices| + 2 <= limit && PairSteps(steps, h) && Run(limit, 2, State(devices, map[]), steps).Some?
    ensures var s := Run(limit, 2, State(devices, map[]), steps).value;
            && NobodyRefused(s) && (s.devices == devices || s.devices == devices + [h])
            && (forall r <- s.requests :: s.requests[r].hwid == h)
  {
    if steps != [] {
      var init, last := steps[..|steps| - 1], steps[|steps| - 1];
      assert PairStep(last, h);
      PairServed(limit, devices, h, init);
      assert h in devices + [h];
    }
  }

  /** ... and otherwise some interleaving refuses one of them. */
  lemma PairRefused(limit: nat, devices: seq<Hwid>, h: Hwid) returns (steps: seq<Step>)
    requires limit >= 1 && h !in devices && |devices| + 2 > limit
    ensures PairSteps(steps, h) && Run(limit, 2, State(devices, map[]), steps).Some?
    ensures !NobodyRefused(Run(limit, 2, State(devices, map[]), steps).value)
  {
    var s := State(devices, map[]);
    assert Flying(s) == {};
    if |devices| >= limit {
      var answer;
      steps, answer := FetchIsARun(limit, 2, devices, h);
      assert answer.LimitReached?;
      assert Only(Refused(h))[0].Refused?;
    } else {
      SameDeviceRace(limit, 2, s, [], s, 0, 1, h);
      assert [] + Race(0, 1, h) == Race(0, 1, h);
      var before := State(devices + [h], s.requests[1 := Unknown(h)][0 := Served(h)]);
      var after := Do(limit, 2, before, Count(1)).value;
      RunAppend(limit, 2, s, Race(0, 1, h), before, Count(1), after);
      steps := Race(0, 1, h) + [Count(1)];
      assert after.requests[1].Refused?;
    }
  }

  /** Two simultaneous fetches of one new device are both let through, whatever the
      order of their steps, exactly when the table has room for two. */
  lemma BothServedIff(limit: nat, devices: seq<Hwid>, h: Hwid)
    requires limit >= 1 && h !in devices
    ensures (forall steps :: PairSteps(steps, h) && Run(limit, 2, State(devices, map[]), steps).Some? ==>
               NobodyRefused(Run(limit, 2, State(devices, map[]), steps).value))
       <==> |devices| + 2 <= limit
  {
    if |devices| + 2 <= limit {
      forall steps | PairSteps(steps, h) && Run(limit, 2, State(devices, map[]), steps).Some?
        ensures NobodyRefused(Run(limit, 2, State(devices, map[]), steps).value)
      {
        PairServed(limit, devices, h, steps);
      }
    } else {
      var steps := PairRefused(limit, devices, h);
    }
  }

  // --------------------------------------------- when a known device can be refused

  /** Devices registered one after the other. */
  function Fill(ids: seq<Hwid>, n: nat): seq<Step>
    requires n <= |ids|
  {
    if n == 0 then []
    else Fill(ids, n - 1) + [Arrive(n - 1, ids[n - 1]), Touch(n - 1), Count(n - 1)] + [Insert(n - 1)]
  }

  lemma NobodyFlies(ids: seq<Hwid>, devices: seq<Hwid>, n: nat)
    requires n <= |ids|
    ensures Flying(State(devices, Waiting(ids, n, n))) == {}
  {}

  lemma FilledStep(ids: seq<Hwid>, n: nat)
    requires 1 <= n <= |ids|
    ensures Waiting(ids, n - 1, n - 1)[n - 1 := Served(ids[n - 1])] == Waiting(ids, n, n)
  {}

  lemma {:induction false} FillRuns(limit: nat, k: nat, ids: seq<Hwid>, n: nat)
    requires n <= |ids| && n <= limit && k >= 1 && Distinct(ids)
    ensures Run(limit, k, State([], map[]), Fill(ids, n)) == Some(State(ids[..n], Waiting(ids, n, n)))
  {
    var s0 := State([], map[]);
    if n == 0 {
      assert Waiting(ids, 0, 0) == map[];
    } else {
      FillRuns(limit, k, ids, n - 1);
      var s, h := State(ids[..n - 1], Waiting(ids, n - 1, n - 1)), ids[n - 1];
      NobodyFlies(ids, ids[..n - 1], n - 1);
      Register(limit, k, s0, Fill(ids, n - 1), s, n - 1, h);
      FilledStep(ids, n);
      TakeNext(ids, n - 1);
    }
  }

  /** As many different ids as one likes. */
  function Ids(n: nat): (ids: seq<Hwid>)
    ensures |ids| == n && forall i :: 0 <= i < n ==> ids[i] == Decimal(i)
  {
    seq(n, i requires 0 <= i < n => Decimal(i))
  }

  lemma IdsDistinct(n: nat)
    ensures Distinct(Ids(n))
  {
    forall i, j | 0 <= i < j < n ensures Ids(n)[i] != Ids(n)[j] {
      if Decimal(i) == Decimal(j) { DecimalInjective(i, j); }
    }
  }

  /** Two fetches in flight are enough to refuse a registered device, under every
      limit and from an empty table. */
  lemma KnownRefused(limit: nat, k: nat) returns (steps: seq<Step>, r: Request)
    requires limit >= 1 && k >= 2
    ensures Run(limit, k, State([], map[]), steps).Some?
    ensures RefusesKnown(limit, k, Run(limit, k, State([], map[]), steps).value, r)
  {
    var ids, n := Ids(limit), limit - 1;
    IdsDistinct(limit);
    FillRuns(limit, k, ids, n);
    var s := State(ids[..n], Waiting(ids, n, n));
    NobodyFlies(ids, ids[..n], n);
    assert ids[n] !in ids[..n];
    SameDeviceRace(limit, k, State([], map[]), Fill(ids, n), s, n, n + 1, ids[n]);
    steps, r := Fill(ids, n) + Race(n, n + 1, ids[n]), n + 1;
  }

  /** From an empty table, under any limit, no run ever refuses a registered device
      exactly when fetches come one at a time. */
  lemma KnownNeverRefusedIff(limit: nat, k: nat)
    requires limit >= 1
    ensures (forall steps, r :: Run(limit, k, State([], map[]), steps).Some? ==>
               !RefusesKnown(limit, k, Run(limit, k, State([], map[]), steps).value, r))
       <==> k <= 1
  {
    var s := State([], map[]);
    assert Flying(s) == {};
    if k <= 1 {
      forall steps, r | Run(limit, k, s, steps).Some?
        ensures !RefusesKnown(limit, k, Run(limit, k, s, steps).value, r)
      {
        SoloRefusesStrangersOnly(limit, k, s, steps);
      }
    } else {
      var steps, r := KnownRefused(limit, k);
    }
  }

  // -------------------------------------------------------------- the bound is met

  /** Every one of these requests arrives, is not found and is admitted. */
  function Rush(ids: seq<Hwid>, n: nat): seq<Step> {
    if n == 0 then []
    else Rush(ids, n - 1) + [Arrive(n - 1, if n <= |ids| then ids[n - 1] else ""), Touch(n - 1), Count(n - 1)]
  }

  /** ... and then every one of them inserts. */
  function Inserts(n: nat): seq<Step> {
    if n == 0 then [] else Inserts(n - 1) + [Insert(n - 1)]
  }

  ghost function Waiting(ids: seq<Hwid>, n: nat, inserted: nat): map<Request, Phase>
    requires inserted <= n <= |ids|
  {
    map r: nat | 0 <= r < n :: if r < inserted then Served(ids[r]) else Admitted(ids[r])
  }

  ghost function Range(n: nat): (range: set<Request>)
    ensures |range| == n && forall r: Request :: r in range <==> r < n
  {
    if n == 0 then {} else Range(n - 1) + {n - 1}
  }

  /** One new device walks through to its insert while there is room. */
  lemma Admit(limit: nat, k: nat, s0: State, steps: seq<Step>, s: State, r: Request, h: Hwid)
    requires Run(limit, k, s0, steps) == Some(s)
    requires r !in s.requests && |Flying(s)| < k && h !in s.devices && |s.devices| < limit
    ensures Run(limit, k, s0, steps + [Arrive(r, h), Touch(r), Count(r)]) ==
            Some(State(s.devices, s.requests[r := Admitted(h)]))
  {
    LookUp(limit, k, s0, steps, s, r, h);
    var s2, s3 := State(s.devices, s.requests[r := Unknown(h)]), State(s.devices, s.requests[r := Admitted(h)]);
    Overwrite(s.requests, r, Unknown(h), Admitted(h));
    RunAppend(limit, k, s0, steps + [Arrive(r, h), Touch(r)], s2, Count(r), s3);
    assert steps + [Arrive(r, h), Touch(r), Count(r)] == steps + [Arrive(r, h), Touch(r)] + [Count(r)];
  }

  lemma {:induction false} RushAdmitsAll(limit: nat, ids: seq<Hwid>, devices: seq<Hwid>, n: nat)
    requires n <= |ids| && |devices| < limit && forall h :: h in ids ==> h !in devices
    ensures Run(limit, |ids|, State(devices, map[]), Rush(ids, n)) == Some(State(devices, Waiting(ids, n, 0)))
  {
    if n == 0 {
      assert Waiting(ids, 0, 0) == map[];
    } else {
      RushAdmitsAll(limit, ids, devices, n - 1);
      var s := State(devices, Waiting(ids, n - 1, 0));
      AllFlying(ids, devices, n - 1);
      Admit(limit, |ids|, State(devices, map[]), Rush(ids, n - 1), s, n - 1, ids[n - 1]);
      WaitingStep(ids, n);
    }
  }

  lemma AllFlying(ids: seq<Hwid>, devices: seq<Hwid>, n: nat)
    requires n <= |ids|
    ensures |Flying(State(devices, Waiting(ids, n, 0)))| == n
  {
    assert Flying(State(devices, Waiting(ids, n, 0))) == Range(n);
  }

  lemma WaitingStep(ids: seq<Hwid>, n: nat)
    requires 1 <= n <= |ids|
    ensures Waiting(ids, n - 1, 0)[n - 1 := Admitted(ids[n - 1])] == Waiting(ids, n, 0)
  {}

  lemma ServedStep(ids: seq<Hwid>, n: nat)
    requires 1 <= n <= |ids|
    ensures Waiting(ids, |ids|, n - 1)[n - 1 := Served(ids[n - 1])] == Waiting(ids, |ids|, n)
  {}

  lemma {:induction false} AllInsert(limit: nat, ids: seq<Hwid>, devices: seq<Hwid>, n: nat)
    requires n <= |ids| && |devices| < limit && (forall h :: h in ids ==> h !in devices) && Distinct(ids)
    ensures Run(limit, |ids|, State(devices, map[]), Rush(ids, |ids|) + Inserts(n)) ==
            Some(State(devices + ids[..n], Waiting(ids, |ids|, n)))
  {
    var k, s0, rush := |ids|, State(devices, map[]), Rush(ids, |ids|);
    if n == 0 {
      RushAdmitsAll(limit, ids, devices, |ids|);
      assert rush + Inserts(0) == rush;
      assert devices + ids[..0] == devices;
    } else {
      AllInsert(limit, ids, devices, n - 1);
      var s := State(devices + ids[..n - 1], Waiting(ids, |ids|, n - 1));
      var s' := State(devices + ids[..n], Waiting(ids, |ids|, n));
      InsertOne(limit, ids, devices, n);
      RunAppend(limit, k, s0, rush + Inserts(n - 1), s, Insert(n - 1), s');
      assert rush + Inserts(n) == rush + Inserts(n - 1) + [Insert(n - 1)];
    }
  }

  lemma InsertOne(limit: nat, ids: seq<Hwid>, devices: seq<Hwid>, n: nat)
    requires 1 <= n <= |ids| && (forall h :: h in ids ==> h !in devices) && Distinct(ids)
    ensures Do(limit, |ids|, State(devices + ids[..n - 1], Waiting(ids, |ids|, n - 1)), Insert(n - 1)) ==
            Some(State(devices + ids[..n], Waiting(ids, |ids|, n)))
  {
    NewTo(ids, devices, n);
    assert devices + ids[..n - 1] + [ids[n - 1]] == devices + ids[..n];
    ServedStep(ids, n);
    assert Waiting(ids, |ids|, n - 1)[n - 1] == Admitted(ids[n - 1]);
  }

  lemma NewTo(ids: seq<Hwid>, devices: seq<Hwid>, n: nat)
    requires 1 <= n <= |ids| && (forall h :: h in ids ==> h !in devices) && Distinct(ids)
    ensures ids[n - 1] !in devices + ids[..n - 1]
  {
    assert ids[n - 1] in ids;
  }

  /** The bound is the best possible: k new devices fetched at once, with one
      place left, all get in. */
  lemma LimitIsReached(limit: nat, ids: seq<Hwid>, devices: seq<Hwid>) returns (steps: seq<Step>)
    requires |devices| + 1 == limit && (forall h :: h in ids ==> h !in devices) && Distinct(ids)
    ensures var end := Run(limit, |ids|, State(devices, map[]), steps);
            end.Some? && end.value.devices == devices + ids && |end.value.devices| == limit + |ids| - 1
  {
    steps := Rush(ids, |ids|) + Inserts(|ids|);
    AllInsert(limit, ids, devices, |ids|);
    assert ids[..|ids|] == ids;
  }

  // ------------------------------------------------------- one fetch, undisturbed

  datatype Answer = Pass | NoHwid | LimitReached

  /** `effective_limit`: the user's own setting, else the global one; zero or
      less means no limit. */
  function EffectiveLimit(own: Option<int>, default': int): nat {
    var configured := if own.Some? then own.value else default';
    if configured > 0 then configured else 0
  }

  /** The devices after one fetch that nothing else runs beside, and its answer. */
  function Fetch(limit: nat, devices: seq<Hwid>, identity: Option<Hwid>): (seq<Hwid>, Answer) {
    if limit == 0 then (devices, Pass)
    else if identity.None? then (devices, NoHwid)
    else if identity.value in devices then (devices, Pass)
    else if |devices| >= limit then (devices, LimitReached)
    else (devices + [identity.value], Pass)
  }

  class DeviceTable {
    var devices: seq<Hwid>

    constructor ()
      ensures devices == []
    {
      devices := [];
    }

    /** `enforce_device_limit` as one request runs it: touch, count, insert. */
    method EnforceDeviceLimit(own: Option<int>, default': int, identity: Option<Hwid>) returns (answer: Answer)
      modifies this
      ensures (devices, answer) == Fetch(EffectiveLimit(own, default'), old(devices), identity)
      ensures var limit := if own.Some? then own.value else default';
              && (limit <= 0 ==> answer == Pass && devices == old(devices))
              && (limit > 0 && identity.None? ==> answer == NoHwid && devices == old(devices))
              && (limit > 0 && identity.Some? && identity.value in old(devices) ==>
                    answer == Pass && devices == old(devices))
              && (limit > 0 && identity.Some? && identity.value !in old(devices) ==>
                    if |old(devices)| < limit then answer == Pass && devices == old(devices) + [identity.value]
                    else answer == LimitReached && devices == old(devices))
      ensures Distinct(old(devices)) ==> Distinct(devices)
    {
      var limit := EffectiveLimit(own, default');
      if limit == 0 { return Pass; }
      if identity.None? { return NoHwid; }
      if identity.value in devices { return Pass; }
      if |devices| >= limit { return LimitReached; }
      devices := devices + [identity.value];
      answer := Pass;
    }
  }

  function Only(phase: Phase): map<Request, Phase> {
    map[0 := phase]
  }

  lemma OnlyMoves(a: Phase)
    ensures forall b :: Only(a)[0 := b] == Only(b)
  {}

  /** One fetch alone is one path through the steps. */
  lemma FetchIsARun(limit: nat, k: nat, devices: seq<Hwid>, h: Hwid) returns (steps: seq<Step>, answer: Answer)
    requires limit >= 1 && k >= 1
    ensures PairSteps(steps, h) && answer == Fetch(limit, devices, Some(h)).1
    ensures Run(limit, k, State(devices, map[]), steps)
         == Some(State(Fetch(limit, devices, Some(h)).0, Only(if answer.Pass? then Served(h) else Refused(h))))
  {
    answer := Fetch(limit, devices, Some(h)).1;
    var s0 := State(devices, map[]);
    assert Flying(s0) == {};
    assert s0.requests[0 := Arrived(h)] == Only(Arrived(h));
    OnlyMoves(Arrived(h));
    OnlyMoves(Unknown(h));
    OnlyMoves(Admitted(h));
    var s1, s2 := State(devices, Only(Arrived(h))), State(devices, Only(Unknown(h)));
    RunAppend(limit, k, s0, [], s0, Arrive(0, h), s1);
    steps := [Arrive(0, h)];
    assert [] + steps == steps;
    if h in devices {
      RunAppend(limit, k, s0, steps, s1, Touch(0), State(devices, Only(Served(h))));
      steps := steps + [Touch(0)];
    } else {
      RunAppend(limit, k, s0, steps, s1, Touch(0), s2);
      steps := steps + [Touch(0)];
      if |devices| >= limit {
        RunAppend(limit, k, s0, steps, s2, Count(0), State(devices, Only(Refused(h))));
        steps := steps + [Count(0)];
      } else {
        var s3 := State(devices, Only(Admitted(h)));
        RunAppend(limit, k, s0, steps, s2, Count(0), s3);
        steps := steps + [Count(0)];
        RunAppend(limit, k, s0, steps, s3, Insert(0), State(devices + [h], Only(Served(h))));
        steps := steps + [Insert(0)];
      }
    }
  }
}
