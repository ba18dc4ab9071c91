/** The review job over whole runs: every change of a user's status or plan uses
    up some of a small measure, a finished pass leaves no active user over its
    limit or past its expiry, and when a pass fails. */
module ReviewRuns {
  import opened Text
  import opened Users
  import opened Database
  import opened TrafficRuns

  // ------------------------------------------------------------- one user

  /** What a pass makes of a user's status and plan, from the row it found. */
  lemma JudgeOutcome(u: User, now: real, clock: real)
    requires !Crashes(u, now, clock)
    ensures var v := Judge(u, now, clock);
            var limited := u.dataLimit.Some? && u.dataLimit.value != 0 && u.usedTraffic >= u.dataLimit.value;
            var expired := u.expire.Some? && u.expire.value != 0 && u.expire.value as real <= now;
            var due := u.nextPlan.Some? && (if u.nextPlan.value.fireOnEither then limited || expired
                                            else limited && expired);
            var since := if u.editAt.Some? then u.editAt.value else u.createdAt;
            var begins := (u.onlineAt.Some? && u.onlineAt.value >= since)
                          || (u.onHoldTimeout.Some? && u.onHoldTimeout.value <= now);
            && (v.status.Limited? <==> u.status.Limited? || (u.status.Active? && limited && !due))
            && (v.status.Expired? <==> u.status.Expired? || (u.status.Active? && !limited && expired && !due))
            && (v.status.OnHold? <==> u.status.OnHold? && !begins)
            && (v.status.Disabled? <==> u.status.Disabled?)
            && (v.nextPlan == if u.status.Active? && due then None else u.nextPlan)
  {}

  /** A user that was active, still is and had no plan fire is under its limit and
      not expired. */
  lemma StillActiveIsInOrder(u: User, now: real, clock: real)
    requires !Crashes(u, now, clock) && u.status.Active?
    requires Judge(u, now, clock).status.Active? && !Fires(u, now, clock)
    ensures var v := Judge(u, now, clock); v == u && !v.LimitReached() && !v.ExpiryPassed(now)
  {}

  // ----------------------------------------------------- a hold that has ended

  /** What happens to one user between edits: passes of the review, and traffic. */
  datatype Event = Pass(now: real, clock: real) | Bytes(count: nat, at: real)

  function Onward(u: User, events: seq<Event>): User {
    if events == [] then u
    else
      var v := Onward(u, events[..|events| - 1]);
      match events[|events| - 1]
      case Pass(now, clock) => Judge(v, now, clock)
      case Bytes(count, at) => Recorded(v, count, at)
  }

  function BytesIn(events: seq<Event>): nat {
    if events == [] then 0
    else
      BytesIn(events[..|events| - 1]) + (if events[|events| - 1].Bytes? then events[|events| - 1].count else 0)
  }

  /** Some pass comes at the expiry or later. */
  predicate PassFrom(events: seq<Event>, expire: int) {
    exists i :: 0 <= i < |events| && events[i].Pass? && expire as real <= events[i].now
  }

  /** No limit is reached within these many bytes, and no plan waits for an expiry. */
  predicate Unhindered(u: User, bytes: nat) {
    && (u.dataLimit.Some? && u.dataLimit.value != 0 ==> u.usedTraffic + bytes < u.dataLimit.value)
    && (u.nextPlan.Some? ==> !u.nextPlan.value.fireOnEither)
  }

  lemma PassFromNext(events: seq<Event>, e: Event, expire: int)
    ensures PassFrom(events + [e], expire) <==> PassFrom(events, expire) || (e.Pass? && expire as real <= e.now)
  {
    var all := events + [e];
    assert all[|events|] == e;
    if i :| 0 <= i < |events| && events[i].Pass? && expire as real <= events[i].now {
      assert all[i] == events[i];
    }
  }

  /** An active user with an expiry and nothing else to stop it: along any events it is
      expired exactly if some pass came at its expiry or later. Zero is no expiry. */
  lemma {:induction false} ExpiresOnTime(u: User, expire: int, events: seq<Event>)
    requires u.status.Active? && u.expire == Some(expire) && Unhindered(u, BytesIn(events))
    ensures var v := Onward(u, events);
            && v.status == (if expire != 0 && PassFrom(events, expire) then Expired else Active)
            && v.expire == u.expire && v.dataLimit == u.dataLimit && v.nextPlan == u.nextPlan
            && v.usedTraffic == u.usedTraffic + BytesIn(events)
  {
    if events != [] {
      var init, last := events[..|events| - 1], events[|events| - 1];
      assert events == init + [last];
      ExpiresOnTime(u, expire, init);
      PassFromNext(init, last, expire);
    }
  }

  /** A hold that a pass has ended runs its whole duration from then on, in whole
      seconds: no pass before that moment expires the user, and the first one from
      that moment on does. */
  lemma HoldRunsItsCourse(u: User, now: real, clock: real, events: seq<Event>)
    requires u.status.OnHold? && u.onHoldDuration.Some? && Unhindered(u, BytesIn(events))
    requires || (u.onlineAt.Some? && u.onlineAt.value >= if u.editAt.Some? then u.editAt.value else u.createdAt)
             || (u.onHoldTimeout.Some? && u.onHoldTimeout.value <= now)
    ensures var begun := Judge(u, now, clock);
            begun.status.Active? && begun.expire == Some(clock.Floor + u.onHoldDuration.value)
    ensures Onward(Judge(u, now, clock), events).status.Expired?
       <==> clock.Floor + u.onHoldDuration.value != 0 &&
            exists i :: 0 <= i < |events| && events[i].Pass?
                        && (clock.Floor + u.onHoldDuration.value) as real <= events[i].now
    ensures Onward(Judge(u, now, clock), events).status in {Active, Expired}
  {
    var begun, expire := Judge(u, now, clock), clock.Floor + u.onHoldDuration.value;
    ExpiresOnTime(begun, expire, events);
  }

  // --------------------------------------------------------------- whole passes

  /** After a pass that did not fail, that holds of every user. */
  lemma PassLeavesOrder(s: State, now: real, clocks: UserId -> real, done: set<UserId>, id: UserId)
    requires id in s.users && id in done && !Crashes(s.users[id], now, clocks(id))
    requires s.users[id].status.Active?
    ensures var u, v := s.users[id], Reviewed(s, now, clocks, done).users[id];
            v.status.Active? && v.nextPlan == u.nextPlan ==> v == u && !v.LimitReached() && !v.ExpiryPassed(now)
  {
    var u := s.users[id];
    if Fires(u, now, clocks(id)) {
      assert u.nextPlan.Some? && Judge(u, now, clocks(id)).nextPlan.None?;
    } else if Judge(u, now, clocks(id)).status.Active? {
      StillActiveIsInOrder(u, now, clocks(id));
    }
  }

  // ------------------------------------------------------------------- failures

  /** A plan that can be carried out, and a duration for whoever is on hold. */
  predicate WellFormed(u: User) {
    && (u.nextPlan.Some? ==> u.nextPlan.value.expire.Some? && (u.nextPlan.value.addRemaining || u.dataLimit.Some?))
    && (u.status.OnHold? ==> u.onHoldDuration.Some?)
  }

  /** A pass fails on a user exactly when a plan that is due lacks an expiry or
      carries over from an unlimited user, or a hold that is over has no
      duration. */
  lemma CrashIff(u: User, now: real, clock: real)
    ensures Crashes(u, now, clock)
       <==> || (u.status.Active? && PlanDue(u, now)
                && (u.nextPlan.value.expire.None? || (!u.nextPlan.value.addRemaining && u.dataLimit.None?)))
            || (u.status.OnHold? && HoldOver(u, now) && u.onHoldDuration.None?)
  {}

  lemma WellFormedStays(u: User, now: real, clock: real, bytes: int)
    requires WellFormed(u)
    ensures !Crashes(u, now, clock) && WellFormed(Judge(u, now, clock)) && WellFormed(Recorded(u, bytes, now))
  {
    CrashIff(u, now, clock);
  }

  // ----------------------------------------------------------------- progress

  predicate Changed(u: User, v: User) {
    u.status != v.status || u.nextPlan != v.nextPlan
  }

  /** How often a review can still change this user. */
  function Left(u: User): nat {
    match u.status
    case OnHold => if u.nextPlan.Some? then 3 else 2
    case Active => if u.nextPlan.Some? then 2 else 1
    case _ => 0
  }

  /** Every change a review makes, even in a pass that fails, uses up the measure. */
  lemma JudgeDescends(u: User, now: real, clock: real)
    ensures var v := Judge(u, now, clock); Left(v) + (if Changed(u, v) then 1 else 0) <= Left(u)
  {}

  /** A run of review passes and recordings only. */
  ghost predicate ReviewRun(states: seq<State>, steps: seq<Step>) {
    && Run(states, steps)
    && (forall step <- steps :: step.Review? || step.Record?)
  }

  lemma StepDescends(s: State, step: Step, s': State, id: UserId)
    requires Next(s, step, s') && (step.Review? || step.Record?) && id in s.users
    ensures id in s'.users
    ensures Left(s'.users[id]) + (if Changed(s.users[id], s'.users[id]) then 1 else 0) <= Left(s.users[id])
  {
    if step.Review? {
      JudgeDescends(s.users[id], step.now, step.clocks(id));
    }
  }

  /** One user's row along a run. */
  function History(states: seq<State>, id: UserId): (rows: seq<User>)
    requires forall i :: 0 <= i < |states| ==> id in states[i].users
    ensures |rows| == |states|
  {
    seq(|states|, i requires 0 <= i < |states| => states[i].users[id])
  }

  /** How many of the first n steps changed the user's status or plan. */
  function ChangesIn(rows: seq<User>, n: nat): nat
    requires n < |rows|
  {
    if n == 0 then 0 else ChangesIn(rows, n - 1) + (if Changed(rows[n - 1], rows[n]) then 1 else 0)
  }

  predicate Descends(u: User, v: User) {
    Left(v) + (if Changed(u, v) then 1 else 0) <= Left(u)
  }

  lemma {:induction false} ChangesDescend(rows: seq<User>, n: nat)
    requires n < |rows| && forall i :: 0 < i < |rows| ==> Descends(rows[i - 1], rows[i])
    ensures ChangesIn(rows, n) + Left(rows[n]) <= Left(rows[0])
  {
    if n > 0 {
      ChangesDescend(rows, n - 1);
      assert Descends(rows[n - 1], rows[n]);
    }
  }

  lemma RunDescends(states: seq<State>, steps: seq<Step>, id: UserId, n: nat)
    requires ReviewRun(states, steps) && n < |steps| && id in states[n].users
    ensures id in states[n + 1].users && Descends(states[n].users[id], states[n + 1].users[id])
  {
    assert steps[n] in steps;
    assert Next(states[n], steps[n], states[n + 1]);
    StepDescends(states[n], steps[n], states[n + 1], id);
  }

  lemma {:induction false} UserStays(states: seq<State>, steps: seq<Step>, id: UserId, n: nat)
    requires ReviewRun(states, steps) && id in states[0].users && n < |states|
    ensures id in states[n].users
  {
    if n > 0 {
      UserStays(states, steps, id, n - 1);
      RunDescends(states, steps, id, n - 1);
    }
  }

  lemma EveryoneStays(states: seq<State>, steps: seq<Step>, id: UserId)
    requires ReviewRun(states, steps) && id in states[0].users
    ensures forall i :: 0 <= i < |states| ==> id in states[i].users
  {
    forall i | 0 <= i < |states| ensures id in states[i].users {
      UserStays(states, steps, id, i);
    }
  }

  lemma HistoryDescends(states: seq<State>, steps: seq<Step>, id: UserId, i: nat)
    requires ReviewRun(states, steps) && 0 < i < |states| && forall k :: 0 <= k < |states| ==> id in states[k].users
    ensures Descends(History(states, id)[i - 1], History(states, id)[i])
  {
    RunDescends(states, steps, id, i - 1);
  }

  /** Over any run of review passes and recordings, however long, a user's status
      or plan changes at most three times. */
  lemma AtMostThreeChanges(states: seq<State>, steps: seq<Step>, id: UserId)
    requires ReviewRun(states, steps) && id in states[0].users
    ensures forall i :: 0 <= i < |states| ==> id in states[i].users
    ensures ChangesIn(History(states, id), |steps|) <= Left(states[0].users[id]) <= 3
  {
    EveryoneStays(states, steps, id);
    var rows := History(states, id);
    forall i | 0 < i < |rows| ensures Descends(rows[i - 1], rows[i]) {
      HistoryDescends(states, steps, id, i);
    }
    ChangesDescend(rows, |steps|);
  }

  /** Three is reached: a hold that ends, a plan that fires, a limit. */
  lemma ThreeChangesHappen(u: User, clock: real)
    requires u.status.OnHold? && u.onHoldDuration == Some(0) && u.onHoldTimeout == Some(0.0)
    requires u.nextPlan == Some(NextPlan(10, Some(0), true, true)) && clock >= 1.0
    ensures var begun := Judge(u, clock, clock);
            var renewed := Judge(begun, clock + 1.0, clock + 1.0);
            var closed := Judge(Recorded(renewed, 10, clock), clock + 1.0, clock + 1.0);
            && closed.status.Limited?
            && ChangesIn([u, begun, renewed, Recorded(renewed, 10, clock), closed], 4) == 3
  {
    var begun := Judge(u, clock, clock);
    assert begun.status.Active? && begun.expire == Some(clock.Floor);
    assert begun.ExpiryPassed(clock + 1.0);
    var renewed := Judge(begun, clock + 1.0, clock + 1.0);
    assert renewed.status.Active? && renewed.dataLimit == Some(10) && renewed.usedTraffic == 0 &&
           renewed.nextPlan.None?;
    var used := Recorded(renewed, 10, clock);
    assert used.LimitReached();
    var rows := [u, begun, renewed, used, Judge(used, clock + 1.0, clock + 1.0)];
    assert ChangesIn(rows, 1) == 1;
    assert ChangesIn(rows, 2) == 2;
    assert ChangesIn(rows, 3) == 2;
  }

  // --------------------------------------------------- runs that never fail

  predicate AllWellFormed(s: State) {
    forall id <- s.users :: WellFormed(s.users[id])
  }

  lemma StepWellFormed(s: State, step: Step, s': State)
    requires Next(s, step, s') && (step.Review? || step.Record?) && AllWellFormed(s)
    ensures AllWellFormed(s')
    ensures step.Review? ==> forall id <- s.users :: !Crashes(s.users[id], step.now, step.clocks(id))
  {
    forall id <- s.users
      ensures WellFormed(s'.users[id])
      ensures step.Review? ==> !Crashes(s.users[id], step.now, step.clocks(id))
    {
      if step.Review? {
        WellFormedStays(s.users[id], step.now, step.clocks(id), 0);
      } else {
        WellFormedStays(s.users[id], step.at, 0.0, ChargedAll(step.reports, s.users[id].id));
      }
    }
  }

  /** With well-formed users no pass of such a run ever fails, so the order a pass
      leaves holds after every one of them. */
  lemma {:induction false} WellFormedRunsNeverFail(states: seq<State>, steps: seq<Step>, n: nat)
    requires ReviewRun(states, steps) && AllWellFormed(states[0]) && n < |steps|
    ensures AllWellFormed(states[n]) && AllWellFormed(states[n + 1])
    ensures steps[n].Review? ==>
              forall id <- states[n].users :: !Crashes(states[n].users[id], steps[n].now, steps[n].clocks(id))
  {
    if n > 0 {
      WellFormedRunsNeverFail(states, steps, n - 1);
    }
    assert steps[n] in steps;
    assert Next(states[n], steps[n], states[n + 1]);
    StepWellFormed(states[n], steps[n], states[n + 1]);
  }
}
