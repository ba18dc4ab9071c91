/** Traffic accounting over whole runs: the hourly rows agree with the counters,
    no traffic is lost by resets, plans or edits, and what truncation costs. */
module TrafficRuns {
  import opened Text
  import opened Users
  import opened Traffic
  import opened Database

  // ----------------------------------------------------------- what truncation costs

  predicate Integral(x: real) {
    x.Floor as real == x
  }

  lemma TruncateClose(x: real)
    requires x >= 0.0
    ensures Truncate(x) as real <= x < Truncate(x) as real + 1.0
  {}

  lemma WeightNonNegative(e: Entry, coefficient: real)
    requires coefficient >= 0.0
    ensures Exact(e, coefficient) >= 0.0
  {}

  /** One report: the charge falls short of the exact weight by less than one
      byte for each entry that mentions the user. */
  lemma {:induction false} ReportShortfall(r: Report, n: nat, uid: UserId)
    requires r.coefficient >= 0.0 && n <= |r.entries|
    ensures Charged(r, n, uid) as real <= Weighed(r, n, OfUser(uid)) <=
            (Charged(r, n, uid) + Mentions(r, n, uid)) as real
    ensures Mentions(r, n, uid) > 0 ==> Weighed(r, n, OfUser(uid)) < (Charged(r, n, uid) + Mentions(r, n, uid)) as real
  {
    if n > 0 {
      ReportShortfall(r, n - 1, uid);
      WeightNonNegative(r.entries[n - 1], r.coefficient);
      TruncateClose(Exact(r.entries[n - 1], r.coefficient));
    }
  }

  /** A whole pass, over all the cores. */
  lemma {:induction false} PassShortfall(reports: seq<Report>, uid: UserId)
    requires forall r <- reports :: r.coefficient >= 0.0
    ensures ChargedAll(reports, uid) as real <= WeighedAll(reports, OfUser(uid)) <=
            (ChargedAll(reports, uid) + MentionsAll(reports, uid)) as real
    ensures MentionsAll(reports, uid) > 0 ==>
              WeighedAll(reports, OfUser(uid)) < (ChargedAll(reports, uid) + MentionsAll(reports, uid)) as real
  {
    if reports != [] {
      var r := reports[|reports| - 1];
      PassShortfall(reports[..|reports| - 1], uid);
      ReportShortfall(r, |r.entries|, uid);
    }
  }

  lemma TruncateWhole(m: int)
    ensures Truncate(m as real) == m
  {}

  lemma WholeProduct(v: nat, k: int)
    ensures v as real * k as real == (v * k) as real
  {}

  lemma IntegralProduct(e: Entry, c: real)
    requires Integral(c)
    ensures Truncate(Exact(e, c)) as real == Exact(e, c)
  {
    var k := c.Floor;
    WholeProduct(e.value, k);
    assert Exact(e, c) == (e.value * k) as real by {
      assert c == k as real;
    }
    TruncateWhole(e.value * k);
  }

  lemma {:induction false} ReportExact(r: Report, n: nat, uid: UserId)
    requires Integral(r.coefficient) && n <= |r.entries|
    ensures Charged(r, n, uid) as real == Weighed(r, n, OfUser(uid))
  {
    if n > 0 {
      ReportExact(r, n - 1, uid);
      IntegralProduct(r.entries[n - 1], r.coefficient);
    }
  }

  lemma {:induction false} PassExact(reports: seq<Report>, uid: UserId)
    requires forall r <- reports :: Integral(r.coefficient)
    ensures ChargedAll(reports, uid) as real == WeighedAll(reports, OfUser(uid))
  {
    if reports != [] {
      var r := reports[|reports| - 1];
      PassExact(reports[..|reports| - 1], uid);
      ReportExact(r, |r.entries|, uid);
    }
  }

  // ------------------------------------------------------------------ the steps

  datatype Step =
    | Record(reports: seq<Report>, at: real, usage: seq<Item<UserId>>)
    | Reset(id: UserId)
    | ActivateNext(id: UserId, clock: real)
    | Edit(id: UserId, change: Change, now: real)
    | SetStatus(id: UserId, status: Status)
    | StartHold(id: UserId, clock: real)
    | Review(now: real, clocks: UserId -> real, done: set<UserId>)
    | Create(user: User)
    | Delete(id: UserId)

  /** The row a step on one user writes. */
  function Rewritten(u: User, step: Step): User {
    match step
    case Reset(_) => ResetUsage(u)
    case ActivateNext(_, clock) => var r := ResetByNext(u, clock); if r.Done? then r.user else u
    case Edit(_, change, now) => Modify(u, change, now)
    case SetStatus(_, status) => u.(status := status)
    case StartHold(_, clock) => var r := StartExpire(u, clock); if r.Done? then r.user else u
    case _ => u
  }

  /** A reset, or a plan that takes effect, clears the hourly rows. */
  predicate Clears(u: User, step: Step) {
    step.Reset? || (step.ActivateNext? && ResetByNext(u, step.clock).Done?)
  }

  predicate NoRowsOf(rows: seq<Row>, id: UserId) {
    forall i :: 0 <= i < |rows| ==> rows[i].key.user != id
  }

  /** Steps that name a user of the database. A new user starts at zero, under an
      id no row bears. */
  predicate Enabled(s: State, step: Step) {
    match step
    case Record(_, _, _) => true
    case Review(_, _, _) => true
    case Create(u) => u.id !in s.users && u.usedTraffic == 0 && NoRowsOf(s.rows, u.id)
    case _ => step.id in s.users
  }

  function Perform(s: State, step: Step): State
    requires Enabled(s, step) && !step.Record?
  {
    match step
    case Record(_, _, _) => s
    case Review(now, clocks, done) => Reviewed(s, now, clocks, done)
    case Create(u) => Put(s, u)
    case Delete(id) => s.(users := s.users - {id}, rows := Without(s.rows, {id}))
    case _ =>
      var u := s.users[step.id];
      if Clears(u, step) then PutCleared(s, Rewritten(u, step)) else Put(s, Rewritten(u, step))
  }

  /** What the steps on one user leave of the database, told from its row before. */
  lemma PerformWrites(s: State, step: Step)
    requires Enabled(s, step) && !step.Record? && !step.Review? && !step.Create? && !step.Delete?
    requires s.users[step.id].id == step.id
    ensures var u, s' := s.users[step.id], Perform(s, step);
            && step.id in s'.users && s'.admins == s.admins
            && (forall id <- s.users :: id != step.id ==> id in s'.users && s'.users[id] == s.users[id])
            && (step.SetStatus? ==> s'.users[step.id] == u.(status := step.status) && s'.rows == s.rows)
            && (step.Edit? ==> s'.users[step.id] == Modify(u, step.change, step.now) && s'.rows == s.rows)
            && (step.Reset? ==> s'.users[step.id] == ResetUsage(u) && s'.rows == Without(s.rows, {step.id}))
            && (step.StartHold? && u.onHoldDuration.Some? ==>
                  Begun(u, s'.users[step.id], step.clock) && s'.rows == s.rows)
            && (step.ActivateNext? && ResetByNext(u, step.clock).Done? ==>
                  Restarted(u, s'.users[step.id], step.clock) && s'.rows == Without(s.rows, {step.id}))
  {
    HoldBegins(s.users[step.id], if step.StartHold? then step.clock else 0.0);
    PlanRestarts(s.users[step.id], if step.ActivateNext? then step.clock else 0.0);
    RewrittenTraffic(s.users[step.id], step);
  }

  ghost predicate Next(s: State, step: Step, s': State) {
    && Enabled(s, step)
    && (if step.Record? then RecordedBy(s, step.reports, step.at, true, step.usage, s') else s' == Perform(s, step))
  }

  ghost predicate Run(states: seq<State>, steps: seq<Step>) {
    && |states| == |steps| + 1
    && (forall i :: 0 <= i < |steps| ==> Next(states[i], steps[i], states[i + 1]))
  }

  // -------------------------------------------------- rows agree with counters

  lemma RecordAgrees(s: State, step: Step, s': State)
    requires Agrees(s) && step.Record? && Next(s, step, s') && forall r <- step.reports :: Integral(r.coefficient)
    ensures Agrees(s')
  {
    forall id ensures Settled(s', id) {
      if id in s.users {
        assert Settled(s, id);
        PassExact(step.reports, id);
        UnmentionedUncharged(step.reports, id);
      }
    }
  }

  lemma {:induction false} NoRowsNoTotal(rows: seq<Row>, id: UserId)
    requires NoRowsOf(rows, id)
    ensures Total(rows, OfUser(id)) == 0.0
  {
    if rows != [] { NoRowsNoTotal(rows[..|rows| - 1], id); }
  }

  lemma CreateAgrees(s: State, u: User)
    requires Agrees(s) && Enabled(s, Create(u))
    ensures Agrees(Put(s, u))
  {
    NoRowsNoTotal(s.rows, u.id);
    forall id ensures Settled(Put(s, u), id) {
      assert Settled(s, id);
    }
  }

  lemma JudgeTraffic(u: User, now: real, clock: real)
    ensures Judge(u, now, clock).id == u.id
    ensures Judge(u, now, clock).usedTraffic == if Fires(u, now, clock) then 0 else u.usedTraffic
  {}

  lemma ReviewAgrees(s: State, now: real, clocks: UserId -> real, done: set<UserId>)
    requires Agrees(s)
    ensures Agrees(Reviewed(s, now, clocks, done))
  {
    var s', fired := Reviewed(s, now, clocks, done), Fired(s.users, now, clocks, done);
    WithoutUnique(s.rows, fired);
    forall id | id in s.users ensures s'.users[id].id == id {
      JudgeTraffic(s.users[id], now, clocks(id));
    }
    forall id ensures Settled(s', id) {
      if id in s.users {
        assert Settled(s, id);
        WithoutTotal(s.rows, fired, id);
        JudgeTraffic(s.users[id], now, clocks(id));
      }
    }
  }

  lemma StepAgrees(s: State, step: Step, s': State)
    requires Agrees(s) && Next(s, step, s')
    requires step.Record? ==> forall r <- step.reports :: Integral(r.coefficient)
    ensures Agrees(s')
  {
    match step
    case Record(_, _, _) => RecordAgrees(s, step, s');
    case Review(now, clocks, done) => ReviewAgrees(s, now, clocks, done);
    case Create(u) => CreateAgrees(s, u);
    case Delete(id) => DeleteAgrees(s, id);
    case _ =>
      var u := s.users[step.id];
      RewrittenTraffic(u, step);
      if Clears(u, step) {
        PutClearedAgrees(s, Rewritten(u, step));
      } else {
        PutAgrees(s, Rewritten(u, step));
      }
  }

  lemma RewrittenTraffic(u: User, step: Step)
    ensures Rewritten(u, step).id == u.id
    ensures Rewritten(u, step).usedTraffic == if Clears(u, step) then 0 else u.usedTraffic
  {}

  /** Over every run with whole coefficients, at every moment, each user's counter
      is the sum of its hourly rows and no hour has two rows for one user and one
      node, the main core's null node included. */
  lemma {:induction false} EveryRunAgrees(states: seq<State>, steps: seq<Step>)
    requires Run(states, steps) && Agrees(states[0])
    requires forall step <- steps :: step.Record? ==> forall r <- step.reports :: Integral(r.coefficient)
    ensures Agrees(states[|steps|])
  {
    if steps != [] {
      var n := |steps| - 1;
      assert Run(states[..|steps|], steps[..n]) by {
        assert forall i :: 0 <= i < n ==> Next(states[..|steps|][i], steps[..n][i], states[..|steps|][i + 1]);
      }
      EveryRunAgrees(states[..|steps|], steps[..n]);
      assert Next(states[n], steps[n], states[n + 1]);
      StepAgrees(states[n], steps[n], states[n + 1]);
    }
  }

  // ------------------------------------------------------ lifetime traffic

  /** What the recording passes of a run charged to one user. */
  function Gain(steps: seq<Step>, id: UserId): int {
    if steps == [] then 0
    else
      var step := steps[|steps| - 1];
      Gain(steps[..|steps| - 1], id) + (if step.Record? then ChargedAll(step.reports, id) else 0)
  }

  lemma JudgeLifetime(u: User, now: real, clock: real)
    ensures Lifetime(Judge(u, now, clock)) == Lifetime(u)
  {
    if Fires(u, now, clock) {
      LoggedKeepsLifetime(u, Judge(u, now, clock));
    }
  }

  lemma RewrittenLifetime(u: User, step: Step)
    ensures Lifetime(Rewritten(u, step)) == Lifetime(u)
  {
    if Clears(u, step) {
      LoggedKeepsLifetime(u, Rewritten(u, step));
    }
  }

  lemma StepLifetime(s: State, step: Step, s': State, id: UserId)
    requires Next(s, step, s') && Keyed(s.users) && id in s.users && step != Delete(id)
    ensures id in s'.users
    ensures Lifetime(s'.users[id]) == Lifetime(s.users[id]) + (if step.Record? then ChargedAll(step.reports, id) else 0)
  {
    match step
    case Record(reports, _, _) => UnmentionedUncharged(reports, id);
    case Review(now, clocks, done) => JudgeLifetime(s.users[id], now, clocks(id));
    case Create(_) =>
    case Delete(_) =>
    case _ => WriteLifetime(s, step, id);
  }

  /** Steps that write one user's row. */
  lemma WriteLifetime(s: State, step: Step, id: UserId)
    requires Enabled(s, step) && Keyed(s.users) && id in s.users
    requires !step.Record? && !step.Review? && !step.Create? && !step.Delete?
    ensures var s' := Perform(s, step); id in s'.users && Lifetime(s'.users[id]) == Lifetime(s.users[id])
  {
    var v := Rewritten(s.users[step.id], step);
    RewrittenTraffic(s.users[step.id], step);
    RewrittenLifetime(s.users[step.id], step);
    assert Perform(s, step).users == s.users[step.id := v];
  }

  lemma StepKeyed(s: State, step: Step, s': State)
    requires Next(s, step, s') && Keyed(s.users)
    ensures Keyed(s'.users)
  {
    match step
    case Record(_, _, _) =>
    case Review(now, clocks, done) =>
      forall id <- s.users ensures s'.users[id].id == id {
        JudgeTraffic(s.users[id], now, clocks(id));
      }
    case Create(_) =>
    case Delete(_) =>
    case _ => RewrittenTraffic(s.users[step.id], step);
  }

  /** Over every run, whatever the coefficients, logged and current traffic of a
      user together grow by exactly what the recording passes charged. */
  lemma {:induction false} LifetimeConserved(states: seq<State>, steps: seq<Step>, id: UserId)
    requires Run(states, steps) && Keyed(states[0].users) && id in states[0].users && Delete(id) !in steps
    ensures Keyed(states[|steps|].users) && id in states[|steps|].users
    ensures Lifetime(states[|steps|].users[id]) == Lifetime(states[0].users[id]) + Gain(steps, id)
  {
    if steps != [] {
      var n := |steps| - 1;
      assert Run(states[..|steps|], steps[..n]) by {
        assert forall i :: 0 <= i < n ==> Next(states[..|steps|][i], steps[..n][i], states[..|steps|][i + 1]);
      }
      LifetimeConserved(states[..|steps|], steps[..n], id);
      assert Next(states[n], steps[n], states[n + 1]) && steps[n] in steps;
      StepLifetime(states[n], steps[n], states[n + 1], id);
      StepKeyed(states[n], steps[n], states[n + 1]);
    }
  }

  // ---------------------------------------------------------------- admin totals

  /** How much the lifetime traffic of an admin's users grew in a pass, over the
      users the pass charged. */
  function LifetimeGrowth(usage: seq<Item<UserId>>, users: Table, users': Table, admin: AdminId): int
    requires users'.Keys == users.Keys
  {
    if usage == [] then 0
    else
      var item := usage[|usage| - 1];
      LifetimeGrowth(usage[..|usage| - 1], users, users', admin)
      + (if admin != 0 && item.key in users && users[item.key].adminId == Some(admin)
         then Lifetime(users'[item.key]) - Lifetime(users[item.key]) else 0)
  }

  lemma {:induction false} GrowthIsOwned(usage: seq<Item<UserId>>, users: Table, users': Table, admin: AdminId)
    requires users'.Keys == users.Keys
    requires forall i :: 0 <= i < |usage| && usage[i].key in users ==>
               Lifetime(users'[usage[i].key]) == Lifetime(users[usage[i].key]) + usage[i].value
    ensures LifetimeGrowth(usage, users, users', admin) == Owned(usage, users, admin)
  {
    if usage != [] {
      GrowthIsOwned(usage[..|usage| - 1], users, users', admin);
    }
  }

  /** A pass credits every admin exactly with what the lifetime traffic of its own
      users grew by. */
  lemma AdminsGetTheirUsers(s: State, step: Step, s': State, admin: AdminId)
    requires step.Record? && Next(s, step, s') && Keyed(s.users) && admin in s.admins
    ensures s'.admins[admin] == s.admins[admin] + LifetimeGrowth(step.usage, s.users, s'.users, admin)
  {
    var usage := step.usage;
    forall i | 0 <= i < |usage| && usage[i].key in s.users
      ensures Lifetime(s'.users[usage[i].key]) == Lifetime(s.users[usage[i].key]) + usage[i].value
    {
      LookupAt(usage, i);
      StepLifetime(s, step, s', usage[i].key);
    }
    GrowthIsOwned(usage, s.users, s'.users, admin);
  }

  // ------------------------------------------------ from the counters of the cores

  /** What stands behind one report: the counters of a core, and for the main one
      the entries of the other daemon. */
  datatype Source = Source(counters: seq<Counter>, direct: seq<Entry>)

  /** The report is what get_users_stats makes of the counters, with the direct
      entries behind it. */
  ghost predicate ReportOf(r: Report, source: Source) {
    exists params :: StatsAre(params, StatsOf(source.counters)) && r.entries == ToEntries(params) + source.direct
  }

  /** What a source owes to one user's counter. */
  function Owed(r: Report, source: Source, id: UserId): int {
    Truncate(Weight(CounterTotal(source.counters, id), r.coefficient))
    + Charged(r.(entries := source.direct), |source.direct|, id)
  }

  function OwedAll(reports: seq<Report>, sources: seq<Source>, id: UserId): int
    requires |sources| == |reports|
  {
    if reports == [] then 0
    else
      var n := |reports| - 1;
      OwedAll(reports[..n], sources[..n], id) + Owed(reports[n], sources[n], id)
  }

  lemma {:induction false} ChargedConcat(r: Report, a: seq<Entry>, b: seq<Entry>, n: nat, id: UserId)
    requires r.entries == a + b && n <= |b|
    ensures Charged(r, |a| + n, id) == Charged(r.(entries := a), |a|, id) + Charged(r.(entries := b), n, id)
  {
    if n == 0 {
      ChargedPrefix(r, a, |a|, id);
    } else {
      ChargedConcat(r, a, b, n - 1, id);
      assert r.entries[|a| + n - 1] == b[n - 1];
    }
  }

  lemma {:induction false} ChargedPrefix(r: Report, a: seq<Entry>, n: nat, id: UserId)
    requires n <= |a| <= |r.entries| && r.entries[..|a|] == a
    ensures Charged(r, n, id) == Charged(r.(entries := a), n, id)
  {
    if n > 0 {
      ChargedPrefix(r, a, n - 1, id);
      assert r.entries[n - 1] == a[n - 1];
    }
  }

  lemma StatsAreOwed(r: Report, params: seq<Item<string>>, source: Source, id: UserId)
    requires StatsAre(params, StatsOf(source.counters))
    ensures var own := r.(entries := ToEntries(params));
            Charged(own, |own.entries|, id) == Truncate(Weight(CounterTotal(source.counters, id), r.coefficient))
  {
    EntriesCharge(r.(entries := ToEntries(params)), params, source.counters, id);
  }

  lemma SourceIsOwed(r: Report, source: Source, id: UserId)
    requires ReportOf(r, source)
    ensures Charged(r, |r.entries|, id) == Owed(r, source, id)
  {
    var params :| StatsAre(params, StatsOf(source.counters)) && r.entries == ToEntries(params) + source.direct;
    StatsAreOwed(r, params, source, id);
    ChargedConcat(r, ToEntries(params), source.direct, |source.direct|, id);
  }

  lemma {:induction false} SourcesAreOwed(reports: seq<Report>, sources: seq<Source>, id: UserId)
    requires |sources| == |reports| && forall k :: 0 <= k < |reports| ==> ReportOf(reports[k], sources[k])
    ensures ChargedAll(reports, id) == OwedAll(reports, sources, id)
  {
    if reports != [] {
      var n := |reports| - 1;
      SourcesAreOwed(reports[..n], sources[..n], id);
      SourceIsOwed(reports[n], sources[n], id);
    }
  }

  /** From the counters of the cores to the user's account: a pass grows the
      lifetime traffic of a user by its own counters on every core, each core's sum
      weighted and cut to whole bytes once, whatever dots the names hold. */
  lemma CountersReachLifetime(s: State, step: Step, s': State, sources: seq<Source>, id: UserId)
    requires step.Record? && Next(s, step, s') && Keyed(s.users) && id in s.users
    requires |sources| == |step.reports|
    requires forall k :: 0 <= k < |step.reports| ==> ReportOf(step.reports[k], sources[k])
    ensures Lifetime(s'.users[id]) == Lifetime(s.users[id]) + OwedAll(step.reports, sources, id)
  {
    StepLifetime(s, step, s', id);
    SourcesAreOwed(step.reports, sources, id);
  }
}
