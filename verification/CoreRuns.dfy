/** Whole runs of the panel: every operation that edits a user and tells the
    cores about it, in any order, under any schedule of the spawned threads. */
module CoreRuns {
  import opened Text
  import opened Users
  import opened Schedules
  import opened XrayConfig
  import opened Rebuild
  import opened Operations
  import opened CoreSync

  predicate CleanTag(tag: Tag) {
    tag != "" && ',' !in tag
  }

  predicate CleanTags(excluded: map<ProxyType, seq<Tag>>) {
    forall t :: t in excluded ==> forall tag :: tag in excluded[t] ==> CleanTag(tag)
  }

  predicate CleanProxies(proxies: map<ProxyType, Proxy>) {
    forall t :: t in proxies ==> forall tag :: tag in proxies[t].excluded ==> CleanTag(tag)
  }

  datatype Step =
    | CreateUser(user: User)
    | ModifyUser(id: UserId, change: Change, now: real)
    | DeleteUser(id: UserId)
    | ResetUser(id: UserId)
    | ActivateNext(id: UserId, clock: real)
    | ReviewOne(id: UserId, now: real, clock: real)
    | RecordUsage(id: UserId, bytes: int, at: real)
    | AutoDelete(id: UserId)
    | StartCore(core: CoreId, rows: seq<Row>)
    | StopCore(core: CoreId)
  {
    /** Requests carry settings of the right types and exclude only tags of the
        file, which `_validate` keeps non-empty and free of commas. */
    predicate WellTyped() {
      && (CreateUser? ==> user.WellTyped() && CleanProxies(user.proxies))
      && (ModifyUser? ==> change.WellTyped() && CleanTags(change.excluded))
    }
  }

  /** What a request does to the table, and the call it makes on the cores. */
  datatype Effect = Effect(db: Table, call: Option<Call>)

  predicate UsernameTaken(db: Table, name: string) {
    exists id :: id in db && db[id].username == name
  }

  /** The row a request on one existing user leaves, and its call. */
  function OnUser(db: Table, u: User, call: Option<Call>): Effect {
    Effect(db[u.id := u], call)
  }

  /** The database half of each operation; a refused request changes nothing. */
  function Perform(db: Table, step: Step): Effect {
    match step
    case CreateUser(u) =>
      if u.id in db || UsernameTaken(db, u.username) || !u.Live() then Effect(db, None)
      else OnUser(db, u, Some(AddCall(u)))
    case ModifyUser(id, change, now) =>
      if id !in db then Effect(db, None)
      else
        var v := Modify(db[id], change, now);
        Effect(db[id := v], Some(if v.Live() then UpdateCall(v) else RemoveCall(v)))
    case DeleteUser(id) =>
      if id !in db then Effect(db, None) else Effect(db - {id}, Some(RemoveCall(db[id])))
    case ResetUser(id) =>
      if id !in db then Effect(db, None)
      else
        var v := ResetUsage(db[id]);
        Effect(db[id := v], if v.Live() then Some(AddCall(v)) else None)
    case ActivateNext(id, clock) =>
      if id !in db || !ResetByNext(db[id], clock).Done? then Effect(db, None)
      else
        var v := ResetByNext(db[id], clock).user;
        Effect(db[id := v], if v.Live() then Some(AddCall(v)) else None)
    case ReviewOne(id, now, clock) =>
      if id !in db then Effect(db, None)
      else (
        match ReviewUser(db[id], now, clock)
        case Untouched => Effect(db, None)
        case PlanFired(v) => Effect(db[id := v], Some(UpdateCall(v)))
        case Closed(v) => Effect(db[id := v], Some(RemoveCall(v)))
        case Opened(v) => Effect(db[id := v], None)
        case Crashed(v) => Effect(db[id := v], None))
    case RecordUsage(id, bytes, at) =>
      if id !in db then Effect(db, None)
      else Effect(db[id := Recorded(db[id], bytes, at)], None)
    case AutoDelete(id) =>
      if id !in db || db[id].Live() then Effect(db, None) else Effect(db - {id}, None)
    case StartCore(_, _) => Effect(db, None)
    case StopCore(_) => Effect(db, None)
  }

  /** A new user under a name and an id not in use is added and its accounts with it; one
      under a name in use is refused, and nothing happens. */
  lemma CreateOutcome(db: Table, u: User)
    requires u.id !in db && u.status in {Active, OnHold}
    ensures var e := Perform(db, CreateUser(u));
            if u.username in set id | id in db :: db[id].username then e == Effect(db, None)
            else e == Effect(db[u.id := u], Some(AddCall(u)))
  {
    var names := set id | id in db :: db[id].username;
    if u.username in names {
      var id :| id in db && db[id].username == u.username;
    }
  }

  /** Which call follows each change of an existing user, told from the rows before and
      after: an edit updates or removes, a reset and a plan that takes effect add, a
      review updates when a plan fired and removes when it closed the user, and nothing
      else of a review, no recording and no clean-up makes a call. */
  lemma CallsFollow(db: Table, step: Step)
    requires !step.CreateUser? && !step.StartCore? && !step.StopCore? && step.id in db
    ensures var e, u := Perform(db, step), db[step.id];
            && (step.ModifyUser? ==>
                  && step.id in e.db
                  && e.call == Some(if e.db[step.id].status in {Active, OnHold} then UpdateCall(e.db[step.id])
                                    else RemoveCall(e.db[step.id])))
            && (step.DeleteUser? ==> step.id !in e.db && e.call == Some(RemoveCall(u)))
            && (step.ResetUser? ==>
                  && step.id in e.db
                  && e.call == if e.db[step.id].status in {Active, OnHold} then Some(AddCall(e.db[step.id])) else None)
            && (step.ActivateNext? ==>
                  && step.id in e.db
                  && e.call == if e.db[step.id] != u then Some(AddCall(e.db[step.id])) else None)
            && (step.ReviewOne? ==>
                  && step.id in e.db
                  && var v := e.db[step.id];
                     e.call == if u.status.Active? && v.usageLogs != u.usageLogs then Some(UpdateCall(v))
                               else if u.status.Active? && v.status != Active then Some(RemoveCall(v))
                               else None)
            && (step.RecordUsage? || step.AutoDelete? ==> e.call.None?)
  {
    assert forall xs: seq<int>, x: int :: |xs + [x]| != |xs|;
  }

  function Without(cores: seq<CoreId>, c: CoreId): (r: seq<CoreId>)
    ensures forall x :: x in r <==> x in cores && x != c
  {
    if cores == [] then []
    else
      assert cores == cores[..|cores| - 1] + [cores[|cores| - 1]];
      var before := Without(cores[..|cores| - 1], c);
      if cores[|cores| - 1] == c then before else before + [cores[|cores| - 1]]
  }

  lemma {:induction false} WithoutDistinct(cores: seq<CoreId>, c: CoreId)
    requires DistinctCores(cores)
    ensures DistinctCores(Without(cores, c))
  {
    if cores != [] {
      WithoutDistinct(cores[..|cores| - 1], c);
      var before := Without(cores[..|cores| - 1], c);
      forall k | 0 <= k < |before| ensures before[k] != cores[|cores| - 1] {
        assert before[k] in before;
      }
    }
  }

  /** One step of the panel: the cores see the call's threads in some order; a
      core that connects is started from the file rebuilt out of the rows of that
      moment. */
  ghost predicate Next(inbounds: seq<Inbound>, s: State, step: Step, s': State)
  {
    match step
    case StartCore(c, rows) =>
      && c !in s.cores && s'.db == s.db && s'.cores == s.cores + [c]
      && AllRows(rows, s.db) && StartedFrom(inbounds, s.accounts, c, rows, s'.accounts)
    case StopCore(c) =>
      && s'.db == s.db && s'.cores == Without(s.cores, c)
      && s'.accounts == map cell | cell in s.accounts && cell.core != c :: s.accounts[cell]
    case _ =>
      var e := Perform(s.db, step);
      s'.db == e.db && s'.cores == s.cores && Called(inbounds, s.cores, s.accounts, e.call, s'.accounts)
  }

  // ------------------------------------------------------------------ each step

  lemma ReviewKeeps(u: User, now: real, clock: real)
    ensures var r := ReviewUser(u, now, clock);
            && (r.PlanFired? || r.Closed? || r.Opened? || r.Crashed? ==>
                  r.user.id == u.id && r.user.username == u.username && r.user.proxies == u.proxies)
            && (r.PlanFired? ==> r.user.Live() && u.Live())
            && (r.Closed? ==> !r.user.Live())
            && (r.Opened? || r.Crashed? ==> r.user.Live() && u.Live())
  {}

  /** What a core holds does not depend on which others are connected. */
  lemma CoreByCore(inbounds: seq<Inbound>, cores: seq<CoreId>, cores': seq<CoreId>, db: Table, cell: Cell)
    requires Sound(inbounds, db)
    ensures cell.core !in cores ==> cell !in Accounts(inbounds, cores, db)
    ensures cell.core in cores && cell.core in cores' && cell in Accounts(inbounds, cores, db) ==>
              Get(Accounts(inbounds, cores, db), cell) == Get(Accounts(inbounds, cores', db), cell)
  {
    if cell in Accounts(inbounds, cores, db) {
      var i, id := AccountsOwner(inbounds, cores, db, cell);
      if cell.core in cores' {
        AccountsAt(inbounds, cores, db, cell.core, i, id);
        AccountsAt(inbounds, cores', db, cell.core, i, id);
      }
    }
  }

  lemma StartResyncs(inbounds: seq<Inbound>, s: State, c: CoreId)
    requires InSync(inbounds, s) && c !in s.cores
    ensures s.accounts + Accounts(inbounds, [c], s.db) == Accounts(inbounds, s.cores + [c], s.db)
  {
    var cores := s.cores + [c];
    var left := s.accounts + Accounts(inbounds, [c], s.db);
    forall cell: Cell ensures Get(left, cell) == Get(Accounts(inbounds, cores, s.db), cell) {
      CoreByCore(inbounds, cores, s.cores, s.db, cell);
      CoreByCore(inbounds, cores, [c], s.db, cell);
      CoreByCore(inbounds, s.cores, cores, s.db, cell);
      CoreByCore(inbounds, [c], cores, s.db, cell);
    }
    MapsAgree(left, Accounts(inbounds, cores, s.db));
  }

  lemma StopResyncs(inbounds: seq<Inbound>, s: State, c: CoreId)
    requires InSync(inbounds, s)
    ensures (map cell | cell in s.accounts && cell.core != c :: s.accounts[cell]) ==
            Accounts(inbounds, Without(s.cores, c), s.db)
  {
    var cores := Without(s.cores, c);
    var left := map cell | cell in s.accounts && cell.core != c :: s.accounts[cell];
    forall cell: Cell ensures Get(left, cell) == Get(Accounts(inbounds, cores, s.db), cell) {
      CoreByCore(inbounds, s.cores, cores, s.db, cell);
      CoreByCore(inbounds, cores, s.cores, s.db, cell);
    }
    MapsAgree(left, Accounts(inbounds, cores, s.db));
  }

  lemma DeleteResyncs(inbounds: seq<Inbound>, cores: seq<CoreId>, db: Table, id: UserId, m': map<Cell, Account>)
    requires Sound(inbounds, db) && id in db
    requires Called(inbounds, cores, Accounts(inbounds, cores, db), Some(RemoveCall(db[id])), m')
    ensures Sound(inbounds, db - {id}) && m' == Accounts(inbounds, cores, db - {id})
  {
    var m, u, db' := Accounts(inbounds, cores, db), db[id], db - {id};
    OthersUntouched(inbounds, cores, m, RemoveCall(u), m');
    var threads, schedule :|
      SpawnedBy(threads, inbounds, cores, RemoveCall(u)) && Complete(threads, schedule) &&
        m' == Exec(threads, schedule, m);
    forall cell: Cell ensures Get(m', cell) == Get(Accounts(inbounds, cores, db'), cell) {
      if cell.email == u.Mail() {
        RemoveOwn(inbounds, cores, db, u, threads, schedule, cell);
        NoStrangers(inbounds, cores, db', id, u.username, cell);
      } else {
        assert db - {id} == db' - {id};
        AccountsOfOthers(inbounds, cores, db, db', id, cell);
        AccountsOfOthers(inbounds, cores, db', db, id, cell);
      }
    }
    MapsAgree(m', Accounts(inbounds, cores, db'));
  }

  // ------------------------------------------------------------- every operation

  /** A row of an existing user written back, whatever call follows. */
  ghost predicate Wrote(inbounds: seq<Inbound>, s: State, v: User, call: Option<Call>, s': State) {
    && v.id in s.db && v.username == s.db[v.id].username && v.WellTyped()
    && s'.db == s.db[v.id := v] && s'.cores == s.cores
    && Called(inbounds, s.cores, s.accounts, call, s'.accounts)
  }

  lemma UpdateInSync(inbounds: seq<Inbound>, s: State, v: User, s': State)
    requires InSync(inbounds, s) && RawFree(inbounds) && v.Live() && Wrote(inbounds, s, v, Some(UpdateCall(v)), s')
    ensures InSync(inbounds, s')
  {
    RawFreeIff(inbounds);
    UpdateResyncs(inbounds, s.cores, s.db, v, s'.accounts);
  }

  lemma RemoveInSync(inbounds: seq<Inbound>, s: State, v: User, s': State)
    requires InSync(inbounds, s) && !v.Live() && Wrote(inbounds, s, v, Some(RemoveCall(v)), s')
    ensures InSync(inbounds, s')
  {
    RemoveResyncs(inbounds, s.cores, s.db, v, s'.accounts);
  }

  lemma AddInSync(inbounds: seq<Inbound>, s: State, v: User, s': State)
    requires InSync(inbounds, s) && v.Live() && Wrote(inbounds, s, v, Some(AddCall(v)), s')
    requires v.proxies == s.db[v.id].proxies
    ensures InSync(inbounds, s')
  {
    AddResyncs(inbounds, s.cores, s.db, v, s'.accounts);
  }

  lemma SilentInSync(inbounds: seq<Inbound>, s: State, v: User, s': State)
    requires InSync(inbounds, s) && Wrote(inbounds, s, v, None, s')
    requires v.proxies == s.db[v.id].proxies && v.Live() == s.db[v.id].Live()
    ensures InSync(inbounds, s')
  {
    SilentResyncs(inbounds, s.cores, s.db, v);
  }

  /** The operations that edit one existing user and call the cores. */
  lemma EditStepInSync(inbounds: seq<Inbound>, s: State, step: Step, s': State)
    requires InSync(inbounds, s) && RawFree(inbounds) && step.WellTyped() && Next(inbounds, s, step, s')
    requires step.ModifyUser? || step.ResetUser? || step.ActivateNext?
    ensures InSync(inbounds, s')
  {
    if step.id in s.db {
      var u := s.db[step.id];
      match step {
        case ModifyUser(id, change, now) =>
          var v := Modify(u, change, now);
          ModifyKeepsIdentity(u, change, now);
          if v.Live() { UpdateInSync(inbounds, s, v, s'); } else { RemoveInSync(inbounds, s, v, s'); }
        case ResetUser(id) =>
          var v := ResetUsage(u);
          if v.Live() { AddInSync(inbounds, s, v, s'); } else { SilentInSync(inbounds, s, v, s'); }
        case ActivateNext(id, clock) =>
          if ResetByNext(u, clock).Done? { AddInSync(inbounds, s, ResetByNext(u, clock).user, s'); }
      }
    }
  }

  lemma ReviewStepInSync(inbounds: seq<Inbound>, s: State, step: Step, s': State)
    requires InSync(inbounds, s) && RawFree(inbounds) && Next(inbounds, s, step, s') && step.ReviewOne?
    ensures InSync(inbounds, s')
  {
    if step.id in s.db {
      ReviewKeeps(s.db[step.id], step.now, step.clock);
      match ReviewUser(s.db[step.id], step.now, step.clock) {
        case Untouched =>
        case PlanFired(v) => UpdateInSync(inbounds, s, v, s');
        case Closed(v) => RemoveInSync(inbounds, s, v, s');
        case Opened(v) => SilentInSync(inbounds, s, v, s');
        case Crashed(v) => SilentInSync(inbounds, s, v, s');
      }
    }
  }

  lemma CreateStepInSync(inbounds: seq<Inbound>, s: State, step: Step, s': State)
    requires InSync(inbounds, s) && step.WellTyped() && Next(inbounds, s, step, s') && step.CreateUser?
    ensures InSync(inbounds, s')
  {
    if Perform(s.db, step).call.Some? {
      assert Edit(inbounds, s.db, step.user);
      AddResyncs(inbounds, s.cores, s.db, step.user, s'.accounts);
    }
  }

  lemma DeleteStepInSync(inbounds: seq<Inbound>, s: State, step: Step, s': State)
    requires InSync(inbounds, s) && Next(inbounds, s, step, s') && (step.DeleteUser? || step.AutoDelete?)
    ensures InSync(inbounds, s')
  {
    if step.id in s.db {
      if step.DeleteUser? {
        DeleteResyncs(inbounds, s.cores, s.db, step.id, s'.accounts);
      } else if !s.db[step.id].Live() {
        DeletionResyncs(inbounds, s.cores, s.db, step.id);
      }
    }
  }

  lemma IdleStep(inbounds: seq<Inbound>, s: State, step: Step, s': State)
    requires Next(inbounds, s, step, s') && !step.StartCore? && !step.StopCore?
    requires Perform(s.db, step) == Effect(s.db, None)
    ensures s' == s
  {}

  lemma RecordedWrote(inbounds: seq<Inbound>, s: State, step: Step, s': State)
    requires InSync(inbounds, s) && Next(inbounds, s, step, s') && step.RecordUsage? && step.id in s.db
    ensures Wrote(inbounds, s, Recorded(s.db[step.id], step.bytes, step.at), None, s')
  {
    var v := Recorded(s.db[step.id], step.bytes, step.at);
    assert s.db[step.id].id == step.id && s.db[step.id].WellTyped();
    assert v.id == step.id && v.proxies == s.db[step.id].proxies;
    assert Perform(s.db, step) == Effect(s.db[step.id := v], None);
  }

  lemma RecordStepInSync(inbounds: seq<Inbound>, s: State, step: Step, s': State)
    requires InSync(inbounds, s) && Next(inbounds, s, step, s') && step.RecordUsage?
    ensures InSync(inbounds, s')
  {
    if step.id in s.db {
      RecordedWrote(inbounds, s, step, s');
      SilentInSync(inbounds, s, Recorded(s.db[step.id], step.bytes, step.at), s');
    } else {
      assert Perform(s.db, step) == Effect(s.db, None);
      IdleStep(inbounds, s, step, s');
    }
  }

  /** Loading the rebuilt file is adding the core's accounts to the tables. */
  lemma StartedIsAdded(inbounds: seq<Inbound>, s: State, c: CoreId, rows: seq<Row>, m': map<Cell, Account>)
    requires InSync(inbounds, s) && CleanExclusions(s.db) && c !in s.cores
    requires AllRows(rows, s.db) && StartedFrom(inbounds, s.accounts, c, rows, m')
    ensures m' == s.accounts + Accounts(inbounds, [c], s.db)
  {
    var sum := s.accounts + Accounts(inbounds, [c], s.db);
    forall cell: Cell ensures Get(m', cell) == Get(sum, cell) {
      StartedHolds(inbounds, s.accounts, c, rows, m', s.db, cell);
      SumOfCores(inbounds, s, c, cell);
    }
    MapsAgree(m', sum);
  }

  /** Of two disjoint sets of cores each brings its own cells. */
  lemma SumOfCores(inbounds: seq<Inbound>, s: State, c: CoreId, cell: Cell)
    requires InSync(inbounds, s) && c !in s.cores
    ensures Get(s.accounts + Accounts(inbounds, [c], s.db), cell) ==
            if cell.core == c then Get(Accounts(inbounds, [c], s.db), cell) else Get(s.accounts, cell)
  {
    CoreByCore(inbounds, s.cores, [c], s.db, cell);
    CoreByCore(inbounds, [c], s.cores, s.db, cell);
  }

  lemma CoreStepInSync(inbounds: seq<Inbound>, s: State, step: Step, s': State)
    requires InSync(inbounds, s) && CleanExclusions(s.db)
    requires Next(inbounds, s, step, s') && (step.StartCore? || step.StopCore?)
    ensures InSync(inbounds, s')
  {
    if step.StartCore? {
      StartedIsAdded(inbounds, s, step.core, step.rows, s'.accounts);
      StartResyncs(inbounds, s, step.core);
    } else {
      StopResyncs(inbounds, s, step.core);
      WithoutDistinct(s.cores, step.core);
    }
  }

  lemma ModifyClean(proxies: map<ProxyType, Proxy>, change: Change)
    requires CleanProxies(proxies) && CleanTags(change.excluded)
    ensures CleanProxies(ModifyProxies(proxies, change))
  {}

  lemma PutClean(db: Table, u: User)
    requires CleanExclusions(db) && CleanProxies(u.proxies)
    ensures CleanExclusions(db[u.id := u])
  {}

  /** The row a step writes keeps its exclusions, unless the step is an edit. */
  lemma StepClean(db: Table, step: Step)
    requires CleanExclusions(db) && ValidTable(db) && step.WellTyped()
    ensures CleanExclusions(Perform(db, step).db)
  {
    match step
    case CreateUser(u) => PutClean(db, u);
    case ModifyUser(id, change, now) =>
      if id in db {
        ModifyClean(db[id].proxies, change);
        assert Modify(db[id], change, now).proxies == ModifyProxies(db[id].proxies, change);
        PutClean(db, Modify(db[id], change, now));
      }
    case ReviewOne(id, now, clock) =>
      if id in db { ReviewKeeps(db[id], now, clock); }
    case _ =>
  }

  /** Every operation, under every schedule, leads from a synchronised state to
      a synchronised state. */
  lemma StepInSync(inbounds: seq<Inbound>, s: State, step: Step, s': State)
    requires InSync(inbounds, s) && CleanExclusions(s.db)
    requires RawFree(inbounds) && step.WellTyped() && Next(inbounds, s, step, s')
    ensures InSync(inbounds, s') && CleanExclusions(s'.db)
  {
    StepClean(s.db, step);
    if step.StartCore? || step.StopCore? {
      CoreStepInSync(inbounds, s, step, s');
    } else if step.ReviewOne? {
      ReviewStepInSync(inbounds, s, step, s');
    } else if step.ModifyUser? || step.ResetUser? || step.ActivateNext? {
      EditStepInSync(inbounds, s, step, s');
    } else if step.CreateUser? {
      CreateStepInSync(inbounds, s, step, s');
    } else if step.RecordUsage? {
      RecordStepInSync(inbounds, s, step, s');
    } else {
      DeleteStepInSync(inbounds, s, step, s');
    }
  }

  /** A run: states joined by steps. */
  ghost predicate Run(inbounds: seq<Inbound>, states: seq<State>, steps: seq<Step>) {
    && |states| == |steps| + 1
    && forall k :: 0 <= k < |steps| ==>
         steps[k].WellTyped() && Next(inbounds, states[k], steps[k], states[k + 1])
  }

  lemma RunStepInSync(inbounds: seq<Inbound>, states: seq<State>, steps: seq<Step>, k: nat)
    requires RawFree(inbounds) && Run(inbounds, states, steps) && k < |steps|
    requires InSync(inbounds, states[k]) && CleanExclusions(states[k].db)
    ensures InSync(inbounds, states[k + 1]) && CleanExclusions(states[k + 1].db)
  {
    StepInSync(inbounds, states[k], steps[k], states[k + 1]);
  }

  /** Incremental refines rebuild: along every run that starts synchronised,
      every core always equals the rebuild of the database of that moment. */
  lemma {:induction false} EveryRunInSync(inbounds: seq<Inbound>, states: seq<State>, steps: seq<Step>, k: nat)
    requires RawFree(inbounds) && Run(inbounds, states, steps) && k < |states|
    requires InSync(inbounds, states[0]) && CleanExclusions(states[0].db)
    ensures InSync(inbounds, states[k]) && CleanExclusions(states[k].db)
  {
    if k > 0 {
      EveryRunInSync(inbounds, states, steps, k - 1);
      RunStepInSync(inbounds, states, steps, k - 1);
    }
  }

  // ------------------------------------------------------ operations that overlap

  /** Operations on users, one after the other in the database, each with the threads
      its call spawns; the cores do not change meanwhile. */
  ghost predicate Overlap(inbounds: seq<Inbound>, cores: seq<CoreId>, dbs: seq<Table>, steps: seq<Step>,
                          lists: seq<seq<AccountThread>>)
  {
    && |dbs| == |steps| + 1 && AllSpawned(lists, inbounds, cores, CallsOf(dbs, steps))
    && (forall k :: 0 <= k < |steps| ==>
          && steps[k].WellTyped() && !steps[k].StartCore? && !steps[k].StopCore?
          && dbs[k + 1] == Perform(dbs[k], steps[k]).db)
  }

  function CallsOf(dbs: seq<Table>, steps: seq<Step>): (calls: seq<Option<Call>>)
    requires |dbs| == |steps| + 1
    ensures |calls| == |steps|
  {
    seq(|steps|, k requires 0 <= k < |steps| => Perform(dbs[k], steps[k]).call)
  }

  /** The threads of one call, run in order, are one of its schedules. */
  lemma InOrderIsCalled(inbounds: seq<Inbound>, cores: seq<CoreId>, call: Option<Call>, threads: seq<AccountThread>,
                        m: map<Cell, Account>)
    requires SpawnedFor(threads, inbounds, cores, call)
    ensures Called(inbounds, cores, m, call, InOrder(threads, m))
  {
    if call.Some? {
      var schedule := OneByOne(threads, 0);
      OneByOneIsInOrder(threads, 0, m);
      assert threads[0..] == threads;
      assert Complete(threads, schedule) && InOrder(threads, m) == Exec(threads, schedule, m);
    }
  }

  lemma {:induction false} OverlapInOrder(inbounds: seq<Inbound>, cores: seq<CoreId>, dbs: seq<Table>, steps: seq<Step>,
                                          lists: seq<seq<AccountThread>>, m: map<Cell, Account>)
    requires RawFree(inbounds) && Overlap(inbounds, cores, dbs, steps, lists)
    requires InSync(inbounds, State(dbs[0], cores, m)) && CleanExclusions(dbs[0])
    ensures InSync(inbounds, State(dbs[|steps|], cores, InOrder(Together(lists), m))) && CleanExclusions(dbs[|steps|])
  {
    if steps != [] {
      var n := |steps| - 1;
      OverlapInit(inbounds, cores, dbs, steps, lists);
      OverlapInOrder(inbounds, cores, dbs[..n + 1], steps[..n], lists[..n], m);
      var before := InOrder(Together(lists[..n]), m);
      InOrderConcat(Together(lists[..n]), lists[n], m);
      OverlapStep(inbounds, cores, dbs, steps, lists, before);
    }
  }

  lemma OverlapInit(inbounds: seq<Inbound>, cores: seq<CoreId>, dbs: seq<Table>, steps: seq<Step>,
                    lists: seq<seq<AccountThread>>)
    requires Overlap(inbounds, cores, dbs, steps, lists) && steps != []
    ensures Overlap(inbounds, cores, dbs[..|steps|], steps[..|steps| - 1], lists[..|steps| - 1])
  {
    var n := |steps| - 1;
    assert CallsOf(dbs[..n + 1], steps[..n]) == CallsOf(dbs, steps)[..n];
  }

  lemma OverlapStep(inbounds: seq<Inbound>, cores: seq<CoreId>, dbs: seq<Table>, steps: seq<Step>,
                    lists: seq<seq<AccountThread>>, before: map<Cell, Account>)
    requires RawFree(inbounds) && Overlap(inbounds, cores, dbs, steps, lists) && steps != []
    requires InSync(inbounds, State(dbs[|steps| - 1], cores, before)) && CleanExclusions(dbs[|steps| - 1])
    ensures InSync(inbounds, State(dbs[|steps|], cores, InOrder(lists[|steps| - 1], before)))
    ensures CleanExclusions(dbs[|steps|])
  {
    var n := |steps| - 1;
    var s, s' := State(dbs[n], cores, before), State(dbs[n + 1], cores, InOrder(lists[n], before));
    assert CallsOf(dbs, steps)[n] == Perform(dbs[n], steps[n]).call;
    InOrderIsCalled(inbounds, cores, Perform(dbs[n], steps[n]).call, lists[n], before);
    StepInSync(inbounds, s, steps[n], s');
  }

  /** Operations on different users may overlap: whatever the order in which the
      threads of all their calls move, once they are done the cores equal the rebuild
      of the database that holds all the changes. */
  lemma OverlapInSync(inbounds: seq<Inbound>, cores: seq<CoreId>, dbs: seq<Table>, steps: seq<Step>,
                      lists: seq<seq<AccountThread>>, schedule: seq<nat>, m: map<Cell, Account>)
    requires RawFree(inbounds) && Overlap(inbounds, cores, dbs, steps, lists) && DifferentUsers(CallsOf(dbs, steps))
    requires InSync(inbounds, State(dbs[0], cores, m)) && CleanExclusions(dbs[0])
    requires Complete(Together(lists), schedule)
    ensures InSync(inbounds, State(dbs[|steps|], cores, Exec(Together(lists), schedule, m)))
  {
    ConcurrentCalls(lists, schedule, inbounds, cores, CallsOf(dbs, steps), m);
    OverlapInOrder(inbounds, cores, dbs, steps, lists, m);
  }

  /** Every run can begin: a panel without users is synchronised, whatever cores
      it has. */
  lemma EmptyInSync(inbounds: seq<Inbound>, cores: seq<CoreId>)
    requires DistinctTags(inbounds) && DistinctCores(cores)
    ensures InSync(inbounds, State(map[], cores, map[])) && CleanExclusions(map[])
  {
    var none: Table := map[];
    forall cell: Cell ensures cell !in Accounts(inbounds, cores, none) {
      if cell in Accounts(inbounds, cores, none) {
        var i, id := AccountsOwner(inbounds, cores, none, cell);
      }
    }
    assert Accounts(inbounds, cores, none) == map[];
  }

  // ----------------------------------------------------- two jobs that fall short

  /** A live row whose user no core knows about, as the reset job leaves it. */
  lemma MissingUntilRebuilt(inbounds: seq<Inbound>, cores: seq<CoreId>, db: Table, u: User)
    requires Edit(inbounds, db, u) && u.id in db && cores != []
    requires u.Live() != db[u.id].Live() && u.proxies.Keys == db[u.id].proxies.Keys
    requires forall t :: t in u.proxies ==> u.proxies[t].excluded == db[u.id].proxies[t].excluded
    ensures Sound(inbounds, db[u.id := u])
    ensures Accounts(inbounds, cores, db) == Accounts(inbounds, cores, db[u.id := u]) <==>
            forall i :: i in inbounds ==> !Carries(i, u)
  {
    EditSound(inbounds, db, u);
    var db', old' := db[u.id := u], db[u.id];
    if i :| i in inbounds && Carries(i, u) {
      var cell := Cell(cores[0], i.tag, u.Mail());
      AccountsOfUser(inbounds, cores, db, u.id, cell);
      AccountsOfUser(inbounds, cores, db', u.id, cell);
      OwnAt(inbounds, cores, u, cores[0], i);
      OwnAt(inbounds, cores, old', cores[0], i);
      assert Get(Accounts(inbounds, cores, db), cell) != Get(Accounts(inbounds, cores, db'), cell);
    } else {
      forall cell: Cell | cell.email == u.Mail()
        ensures Get(Accounts(inbounds, cores, db), cell) == Get(Own(inbounds, cores, u), cell)
      {
        AccountsOfUser(inbounds, cores, db, u.id, cell);
        if Reachable(inbounds, cores, cell) {
          var i :| i in inbounds && i.tag == cell.tag;
          OwnAt(inbounds, cores, u, cell.core, i);
          OwnAt(inbounds, cores, old', cell.core, i);
        } else {
          OwnElsewhere(inbounds, cores, u, cell);
          OwnElsewhere(inbounds, cores, old', cell);
        }
      }
      Resync(inbounds, cores, db, u, Accounts(inbounds, cores, db));
    }
  }

  /** The call of the periodic reset job: it asks whether the user is limited
      after the reset has made it active. */
  function PeriodicResetCall(u: User): Option<Call> {
    var v := ResetUsage(u);
    if v.status.Limited? then Some(AddCall(v)) else None
  }

  /** The job never calls the cores, so it keeps them right exactly for users
      that were not limited, or whom no inbound carries. */
  lemma PeriodicResetInSyncIff(inbounds: seq<Inbound>, s: State, id: UserId, accounts: map<Cell, Account>)
    requires InSync(inbounds, s) && s.cores != [] && id in s.db
    requires s.db[id].status.Active? || s.db[id].status.Limited?
    requires Called(inbounds, s.cores, s.accounts, PeriodicResetCall(s.db[id]), accounts)
    ensures InSync(inbounds, State(s.db[id := ResetUsage(s.db[id])], s.cores, accounts)) <==>
            s.db[id].status.Active? || forall i :: i in inbounds ==> !Carries(i, s.db[id])
  {
    var u := s.db[id];
    var v := ResetUsage(u);
    assert Edit(inbounds, s.db, v) && accounts == s.accounts;
    assert forall i :: Carries(i, v) <==> Carries(i, u);
    if u.status.Active? {
      SilentResyncs(inbounds, s.cores, s.db, v);
    } else {
      MissingUntilRebuilt(inbounds, s.cores, s.db, v);
    }
  }

  /** The revoke endpoint re-evaluates the status but only tells the cores when
      the user ends up live. */
  function RevokeCall(v: User): Option<Call> {
    if v.Live() then Some(UpdateCall(v)) else None
  }

  /** Revoking keeps the cores right exactly when it does not discover that a
      live user is over its limit or its time, or no inbound carries the user. */
  lemma RevokeInSyncIff(inbounds: seq<Inbound>, s: State, id: UserId, renew: ProxyType -> string, now: real,
                        accounts: map<Cell, Account>)
    requires InSync(inbounds, s) && RawFree(inbounds) && s.cores != [] && id in s.db
    requires Called(inbounds, s.cores, s.accounts,
                    RevokeCall(Modify(s.db[id], RevokeChange(s.db[id], renew), now)), accounts)
    ensures var u := s.db[id];
            InSync(inbounds, State(s.db[id := Modify(u, RevokeChange(u, renew), now)], s.cores, accounts)) <==>
            || !u.Live() || (!u.LimitReached() && !(u.status.Active? && u.ExpiryPassed(now)))
            || forall i :: i in inbounds ==> !Carries(i, u)
  {
    var u := s.db[id];
    var v := Modify(u, RevokeChange(u, renew), now);
    RevokedProxies(u, renew, now);
    ModifyKeepsIdentity(u, RevokeChange(u, renew), now);
    RevokedStatus(u, renew, now);
    RawFreeIff(inbounds);
    assert Edit(inbounds, s.db, v);
    assert forall i :: Carries(i, v) <==> Carries(i, u);
    if v.Live() {
      UpdateResyncs(inbounds, s.cores, s.db, v, accounts);
    } else if u.Live() {
      MissingUntilRebuilt(inbounds, s.cores, s.db, v);
    } else {
      SilentResyncs(inbounds, s.cores, s.db, v);
    }
  }

  // ------------------------------------------------------------ both, on one user

  const INBOUND: Inbound := Inbound("in", VMess, "tcp", "none", "")

  /** A user with one proxy that has used ten bytes of its ten. */
  function Spent(status: Status): User {
    User(1, "alice", status, map[VMess := Proxy(VMessSettings("id"), [])], 10, [], Some(10),
         None, None, None, None, None, 0.0, None, None)
  }

  lemma SpentIsCarried(status: Status)
    ensures Carries(INBOUND, Spent(status)) && Sound([INBOUND], map[1 := Spent(status)]) && RawFree([INBOUND])
  {}

  /** The reset job makes the user active and leaves it without its account. */
  lemma PeriodicResetForgets()
    ensures var s := State(map[1 := Spent(Limited)], [MainCore], map[]);
            InSync([INBOUND], s) && Called([INBOUND], s.cores, s.accounts, PeriodicResetCall(Spent(Limited)),
              s.accounts)
            && !InSync([INBOUND], s.(db := map[1 := ResetUsage(Spent(Limited))]))
  {
    var db: Table := map[1 := Spent(Limited)];
    var s := State(db, [MainCore], map[]);
    SpentIsCarried(Limited);
    forall cell: Cell ensures cell !in Accounts([INBOUND], [MainCore], db) {
      if cell in Accounts([INBOUND], [MainCore], db) {
        var i, id := AccountsOwner([INBOUND], [MainCore], db, cell);
      }
    }
    assert Accounts([INBOUND], [MainCore], db) == map[];
    PeriodicResetInSyncIff([INBOUND], s, 1, s.accounts);
    assert INBOUND in [INBOUND];
    assert db[1 := ResetUsage(Spent(Limited))] == map[1 := ResetUsage(Spent(Limited))];
  }

  function SpentRevoked(renew: ProxyType -> string, now: real): User {
    Modify(Spent(Active), RevokeChange(Spent(Active), renew), now)
  }

  lemma RevokedIsClosed(renew: ProxyType -> string, now: real)
    ensures !SpentRevoked(renew, now).Live() && RevokeCall(SpentRevoked(renew, now)) == None
    ensures Spent(Active).Live() && Spent(Active).LimitReached()
  {
    RevokedStatus(Spent(Active), renew, now);
  }

  /** The revocation of an active user over its limit makes it limited and leaves its
      account where it is. */
  lemma RevocationForgets(renew: ProxyType -> string, now: real)
    ensures var db: Table := map[1 := Spent(Active)];
            var s := State(db, [MainCore], Accounts([INBOUND], [MainCore], db));
            InSync([INBOUND], s)
            && Called([INBOUND], s.cores, s.accounts, RevokeCall(SpentRevoked(renew, now)), s.accounts)
            && !InSync([INBOUND], State(db[1 := SpentRevoked(renew, now)], s.cores, s.accounts))
  {
    var db: Table := map[1 := Spent(Active)];
    var s := State(db, [MainCore], Accounts([INBOUND], [MainCore], db));
    SpentIsCarried(Active);
    RevokedIsClosed(renew, now);
    assert INBOUND in [INBOUND];
    assert Called([INBOUND], s.cores, s.accounts, RevokeCall(SpentRevoked(renew, now)), s.accounts);
    RevokeInSyncIff([INBOUND], s, 1, renew, now, s.accounts);
  }
}
