/** One change of one user and the call that follows it: under every schedule of
    the call's threads, the cores hold exactly the accounts a rebuild from the
    changed database would give them, or an exact condition says when not. */
module CoreSync {
  import opened Text
  import opened Users
  import opened Schedules
  import opened XrayConfig
  import opened Rebuild
  import opened Operations

  datatype State = State(db: Table, cores: seq<CoreId>, accounts: map<Cell, Account>)

  ghost predicate InSync(inbounds: seq<Inbound>, s: State) {
    Sound(inbounds, s.db) && DistinctCores(s.cores) && s.accounts == Accounts(inbounds, s.cores, s.db)
  }

  /** The tables after a call, or after none: some list of the call's threads and
      some schedule of them lead from `m` to `m'`. */
  ghost predicate Called(inbounds: seq<Inbound>, cores: seq<CoreId>, m: map<Cell, Account>, call: Option<Call>,
                         m': map<Cell, Account>) {
    if call.None? then m' == m
    else exists threads, schedule ::
      SpawnedBy(threads, inbounds, cores, call.value) && Complete(threads, schedule) && m' == Exec(threads, schedule, m)
  }

  // ---------------------------------------------------- what one row accounts for

  /** The accounts of a table that holds one user only. */
  ghost function Own(inbounds: seq<Inbound>, cores: seq<CoreId>, u: User): map<Cell, Account> {
    Accounts(inbounds, cores, map[u.id := u])
  }

  lemma OwnAt(inbounds: seq<Inbound>, cores: seq<CoreId>, u: User, c: CoreId, i: Inbound)
    requires DistinctTags(inbounds) && u.WellTyped() && c in cores && i in inbounds
    ensures Get(Own(inbounds, cores, u), Cell(c, i.tag, u.Mail())) ==
            if u.Live() && Carries(i, u) then Some(AccountOn(i, u)) else None
  {
    var db := map[u.id := u];
    if u.Live() {
      AccountsAt(inbounds, cores, db, c, i, u.id);
    } else if Cell(c, i.tag, u.Mail()) in Accounts(inbounds, cores, db) {
      var j, id := AccountsOwner(inbounds, cores, db, Cell(c, i.tag, u.Mail()));
    }
  }

  lemma OwnElsewhere(inbounds: seq<Inbound>, cores: seq<CoreId>, u: User, cell: Cell)
    requires cell.core !in cores || cell.email != u.Mail() || forall i :: i in inbounds ==> i.tag != cell.tag
    ensures Get(Own(inbounds, cores, u), cell) == None
  {
    var db: Table := map[u.id := u];
    if cell in Accounts(inbounds, cores, db) {
      var j, id := AccountsOwner(inbounds, cores, db, cell);
    }
  }

  /** A user's cells hold its own accounts; nobody else's row matters. */
  lemma AccountsOfUser(inbounds: seq<Inbound>, cores: seq<CoreId>, db: Table, id: UserId, cell: Cell)
    requires Sound(inbounds, db) && id in db && cell.email == db[id].Mail()
    ensures Get(Accounts(inbounds, cores, db), cell) == Get(Own(inbounds, cores, db[id]), cell)
  {
    var u := db[id];
    if cell in Accounts(inbounds, cores, db) {
      var i, id' := AccountsOwner(inbounds, cores, db, cell);
      OneOwner(inbounds, db, i, id, i, id');
      AccountsAt(inbounds, cores, db, cell.core, i, id);
      OwnAt(inbounds, cores, u, cell.core, i);
    } else if cell in Own(inbounds, cores, u) {
      var i, id' := AccountsOwner(inbounds, cores, map[u.id := u], cell);
      AccountsAt(inbounds, cores, db, cell.core, i, id);
    }
  }

  /** Changing one row changes no other user's cells. */
  lemma AccountsOfOthers(inbounds: seq<Inbound>, cores: seq<CoreId>, db: Table, db': Table, id: UserId, cell: Cell)
    requires Sound(inbounds, db) && Sound(inbounds, db') && db - {id} == db' - {id}
    requires id in db ==> cell.email != db[id].Mail()
    ensures cell in Accounts(inbounds, cores, db) ==>
              Get(Accounts(inbounds, cores, db'), cell) == Get(Accounts(inbounds, cores, db), cell)
  {
    if cell in Accounts(inbounds, cores, db) {
      var i, k := AccountsOwner(inbounds, cores, db, cell);
      assert k in db - {id} && (db - {id})[k] == db[k];
      assert k in db' && db'[k] == db[k];
      AccountsAt(inbounds, cores, db, cell.core, i, k);
      AccountsAt(inbounds, cores, db', cell.core, i, k);
    }
  }

  /** No cell bears the identity of a user that is not in the table. */
  lemma NoStrangers(inbounds: seq<Inbound>, cores: seq<CoreId>, db: Table, id: UserId, username: string, cell: Cell)
    requires Sound(inbounds, db) && id !in db && cell.email == Email(id, username)
    ensures cell !in Accounts(inbounds, cores, db)
  {
    if cell in Accounts(inbounds, cores, db) {
      var i, k := AccountsOwner(inbounds, cores, db, cell);
      EmailInjective(id, username, db[k].id, db[k].username);
    }
  }

  /** A row is replaced or added, its identity kept. */
  ghost predicate Edit(inbounds: seq<Inbound>, db: Table, u: User) {
    Sound(inbounds, db) && u.WellTyped() && (u.id in db ==> db[u.id].username == u.username)
  }

  lemma EditSound(inbounds: seq<Inbound>, db: Table, u: User)
    requires Edit(inbounds, db, u)
    ensures Sound(inbounds, db[u.id := u])
  {}

  /** The cells of the edited table: the user's own, and the others as before. */
  lemma EditedCell(inbounds: seq<Inbound>, cores: seq<CoreId>, db: Table, u: User, cell: Cell)
    requires Edit(inbounds, db, u)
    ensures Sound(inbounds, db[u.id := u])
    ensures Get(Accounts(inbounds, cores, db[u.id := u]), cell) ==
            if cell.email == u.Mail() then Get(Own(inbounds, cores, u), cell)
            else Get(Accounts(inbounds, cores, db), cell)
  {
    EditSound(inbounds, db, u);
    var db' := db[u.id := u];
    if cell.email == u.Mail() {
      AccountsOfUser(inbounds, cores, db', u.id, cell);
    } else {
      assert db - {u.id} == db' - {u.id};
      AccountsOfOthers(inbounds, cores, db, db', u.id, cell);
      AccountsOfOthers(inbounds, cores, db', db, u.id, cell);
    }
  }

  /** The tables match the new rows once the edited user's own cells do. */
  lemma Resync(inbounds: seq<Inbound>, cores: seq<CoreId>, db: Table, u: User, m': map<Cell, Account>)
    requires Edit(inbounds, db, u)
    requires forall cell: Cell :: cell.email != u.Mail() ==> Get(m', cell) == Get(Accounts(inbounds, cores, db), cell)
    requires forall cell: Cell :: cell.email == u.Mail() ==> Get(m', cell) == Get(Own(inbounds, cores, u), cell)
    ensures Sound(inbounds, db[u.id := u]) && m' == Accounts(inbounds, cores, db[u.id := u])
  {
    EditSound(inbounds, db, u);
    var db' := db[u.id := u];
    forall cell: Cell ensures Get(m', cell) == Get(Accounts(inbounds, cores, db'), cell) {
      EditedCell(inbounds, cores, db, u, cell);
    }
    MapsAgree(m', Accounts(inbounds, cores, db'));
  }

  // ------------------------------------------------------------- the three calls

  /** A cell of a connected core and an inbound of the file. */
  predicate Reachable(inbounds: seq<Inbound>, cores: seq<CoreId>, cell: Cell) {
    cell.core in cores && exists i :: i in inbounds && i.tag == cell.tag
  }

  /** What a user's cells hold before it is added: nothing, or the right thing. */
  lemma BeforeAdd(inbounds: seq<Inbound>, cores: seq<CoreId>, db: Table, u: User, cell: Cell)
    requires Edit(inbounds, db, u) && u.Live() && cell.email == u.Mail()
    requires u.id in db ==> db[u.id].proxies == u.proxies
    ensures var before := Get(Accounts(inbounds, cores, db), cell);
            before == None || before == Get(Own(inbounds, cores, u), cell)
  {
    if u.id !in db {
      NoStrangers(inbounds, cores, db, u.id, u.username, cell);
    } else {
      AccountsOfUser(inbounds, cores, db, u.id, cell);
      if Reachable(inbounds, cores, cell) {
        var i :| i in inbounds && i.tag == cell.tag;
        OwnAt(inbounds, cores, u, cell.core, i);
        OwnAt(inbounds, cores, db[u.id], cell.core, i);
      } else {
        OwnElsewhere(inbounds, cores, db[u.id], cell);
      }
    }
  }

  lemma AddOwn(inbounds: seq<Inbound>, cores: seq<CoreId>, db: Table, u: User, threads: seq<AccountThread>,
               schedule: seq<nat>, cell: Cell)
    requires Edit(inbounds, db, u) && u.Live() && cell.email == u.Mail()
    requires u.id in db ==> db[u.id].proxies == u.proxies
    requires SpawnedBy(threads, inbounds, cores, AddCall(u)) && Complete(threads, schedule)
    ensures Get(Exec(threads, schedule, Accounts(inbounds, cores, db)), cell) == Get(Own(inbounds, cores, u), cell)
  {
    var m := Accounts(inbounds, cores, db);
    BeforeAdd(inbounds, cores, db, u, cell);
    if i :| i in inbounds && i.tag == cell.tag && cell.core in cores && Carries(i, u) {
      OwnAt(inbounds, cores, u, cell.core, i);
      AfterCall(threads, schedule, inbounds, cores, AddCall(u), m, cell.core, i);
      AddFills(Get(m, cell), AccountOn(i, u));
    } else {
      AfterCallElsewhere(threads, schedule, inbounds, cores, AddCall(u), m, cell);
      var db1: Table := map[u.id := u];
      if cell in Accounts(inbounds, cores, db1) {
        var i, id := AccountsOwner(inbounds, cores, db1, cell);
      }
    }
  }

  lemma RemoveOwn(inbounds: seq<Inbound>, cores: seq<CoreId>, db: Table, u: User, threads: seq<AccountThread>,
                  schedule: seq<nat>, cell: Cell)
    requires Edit(inbounds, db, u) && u.id in db && cell.email == u.Mail()
    requires SpawnedBy(threads, inbounds, cores, RemoveCall(u)) && Complete(threads, schedule)
    ensures Get(Exec(threads, schedule, Accounts(inbounds, cores, db)), cell) == None
  {
    var m := Accounts(inbounds, cores, db);
    if Reachable(inbounds, cores, cell) {
      var i :| i in inbounds && i.tag == cell.tag;
      AfterCall(threads, schedule, inbounds, cores, RemoveCall(u), m, cell.core, i);
    } else {
      AfterCallElsewhere(threads, schedule, inbounds, cores, RemoveCall(u), m, cell);
      AccountsOfUser(inbounds, cores, db, u.id, cell);
      OwnElsewhere(inbounds, cores, db[u.id], cell);
    }
  }

  /** After an update a reachable cell holds what `update_user` sent. */
  lemma UpdateOwn(inbounds: seq<Inbound>, cores: seq<CoreId>, db: Table, u: User, threads: seq<AccountThread>,
                  schedule: seq<nat>, cell: Cell)
    requires Edit(inbounds, db, u) && u.id in db && cell.email == u.Mail()
    requires SpawnedBy(threads, inbounds, cores, UpdateCall(u)) && Complete(threads, schedule)
    ensures var after := Get(Exec(threads, schedule, Accounts(inbounds, cores, db)), cell);
            && (!Reachable(inbounds, cores, cell) ==> after == None)
            && (forall i :: i in inbounds && i.tag == cell.tag && cell.core in cores ==>
                  after == if Carries(i, u) then Some(UpdateAccount(i, u)) else None)
  {
    var m := Accounts(inbounds, cores, db);
    if Reachable(inbounds, cores, cell) {
      forall i | i in inbounds && i.tag == cell.tag && cell.core in cores
        ensures Get(Exec(threads, schedule, m), cell) == if Carries(i, u) then Some(UpdateAccount(i, u)) else None
      {
        AfterCall(threads, schedule, inbounds, cores, UpdateCall(u), m, cell.core, i);
        if Carries(i, u) { AlterReplaces(Get(m, cell), UpdateAccount(i, u)); }
      }
    } else {
      AfterCallElsewhere(threads, schedule, inbounds, cores, UpdateCall(u), m, cell);
      AccountsOfUser(inbounds, cores, db, u.id, cell);
      OwnElsewhere(inbounds, cores, db[u.id], cell);
    }
  }

  // ------------------------------------------------------------ one operation each

  /** No call changes the accounts of another identity. */
  lemma OthersUntouched(inbounds: seq<Inbound>, cores: seq<CoreId>, m: map<Cell, Account>, call: Call,
                        m': map<Cell, Account>)
    requires Called(inbounds, cores, m, Some(call), m')
    ensures forall cell: Cell :: cell.email != call.user.Mail() ==> Get(m', cell) == Get(m, cell)
  {
    var threads, schedule :|
      SpawnedBy(threads, inbounds, cores, call) && Complete(threads, schedule) && m' == Exec(threads, schedule, m);
    forall cell: Cell | cell.email != call.user.Mail() ensures Get(m', cell) == Get(m, cell) {
      AfterCallElsewhere(threads, schedule, inbounds, cores, call, m, cell);
    }
  }

  /** Adding a live user whose accounts were either absent or already right. */
  lemma AddResyncs(inbounds: seq<Inbound>, cores: seq<CoreId>, db: Table, u: User, m': map<Cell, Account>)
    requires Edit(inbounds, db, u) && u.Live() && (u.id in db ==> db[u.id].proxies == u.proxies)
    requires Called(inbounds, cores, Accounts(inbounds, cores, db), Some(AddCall(u)), m')
    ensures Sound(inbounds, db[u.id := u]) && m' == Accounts(inbounds, cores, db[u.id := u])
  {
    var m := Accounts(inbounds, cores, db);
    OthersUntouched(inbounds, cores, m, AddCall(u), m');
    var threads, schedule :|
      SpawnedBy(threads, inbounds, cores, AddCall(u)) && Complete(threads, schedule) &&
        m' == Exec(threads, schedule, m);
    forall cell: Cell | cell.email == u.Mail() ensures Get(m', cell) == Get(Own(inbounds, cores, u), cell) {
      AddOwn(inbounds, cores, db, u, threads, schedule, cell);
    }
    Resync(inbounds, cores, db, u, m');
  }

  lemma DeadOwnsNothing(inbounds: seq<Inbound>, cores: seq<CoreId>, u: User, cell: Cell)
    requires DistinctTags(inbounds) && u.WellTyped() && !u.Live()
    ensures Get(Own(inbounds, cores, u), cell) == None
  {
    var db: Table := map[u.id := u];
    if cell in Accounts(inbounds, cores, db) {
      var j, id := AccountsOwner(inbounds, cores, db, cell);
    }
  }

  /** Removing a user that is no longer live. */
  lemma RemoveResyncs(inbounds: seq<Inbound>, cores: seq<CoreId>, db: Table, u: User, m': map<Cell, Account>)
    requires Edit(inbounds, db, u) && u.id in db && !u.Live()
    requires Called(inbounds, cores, Accounts(inbounds, cores, db), Some(RemoveCall(u)), m')
    ensures Sound(inbounds, db[u.id := u]) && m' == Accounts(inbounds, cores, db[u.id := u])
  {
    var m := Accounts(inbounds, cores, db);
    OthersUntouched(inbounds, cores, m, RemoveCall(u), m');
    var threads, schedule :|
      SpawnedBy(threads, inbounds, cores, RemoveCall(u)) && Complete(threads, schedule) &&
        m' == Exec(threads, schedule, m);
    forall cell: Cell | cell.email == u.Mail() ensures Get(m', cell) == Get(Own(inbounds, cores, u), cell) {
      RemoveOwn(inbounds, cores, db, u, threads, schedule, cell);
      DeadOwnsNothing(inbounds, cores, u, cell);
    }
    Resync(inbounds, cores, db, u, m');
  }

  /** A change of the row that no core needs to hear about. */
  lemma SilentResyncs(inbounds: seq<Inbound>, cores: seq<CoreId>, db: Table, u: User)
    requires Edit(inbounds, db, u) && u.id in db
    requires u.Live() == db[u.id].Live() && (u.Live() ==> u.proxies == db[u.id].proxies)
    ensures Sound(inbounds, db[u.id := u]) && Accounts(inbounds, cores, db) == Accounts(inbounds, cores, db[u.id := u])
  {
    var m := Accounts(inbounds, cores, db);
    forall cell: Cell | cell.email == u.Mail() ensures Get(m, cell) == Get(Own(inbounds, cores, u), cell) {
      AccountsOfUser(inbounds, cores, db, u.id, cell);
      if !u.Live() {
        DeadOwnsNothing(inbounds, cores, u, cell);
        DeadOwnsNothing(inbounds, cores, db[u.id], cell);
      } else if Reachable(inbounds, cores, cell) {
        var i :| i in inbounds && i.tag == cell.tag;
        OwnAt(inbounds, cores, u, cell.core, i);
        OwnAt(inbounds, cores, db[u.id], cell.core, i);
      } else {
        OwnElsewhere(inbounds, cores, u, cell);
        OwnElsewhere(inbounds, cores, db[u.id], cell);
      }
    }
    Resync(inbounds, cores, db, u, m);
  }

  /** Deleting the row of a user that is not live. */
  lemma DeletionResyncs(inbounds: seq<Inbound>, cores: seq<CoreId>, db: Table, id: UserId)
    requires Sound(inbounds, db) && id in db && !db[id].Live()
    ensures Sound(inbounds, db - {id}) && Accounts(inbounds, cores, db) == Accounts(inbounds, cores, db - {id})
  {
    var db', u := db - {id}, db[id];
    forall cell: Cell ensures Get(Accounts(inbounds, cores, db), cell) == Get(Accounts(inbounds, cores, db'), cell) {
      if cell.email == u.Mail() {
        AccountsOfUser(inbounds, cores, db, id, cell);
        DeadOwnsNothing(inbounds, cores, u, cell);
        NoStrangers(inbounds, cores, db', id, u.username, cell);
      } else {
        assert db - {id} == db' - {id};
        AccountsOfOthers(inbounds, cores, db, db', id, cell);
        AccountsOfOthers(inbounds, cores, db', db, id, cell);
      }
    }
    MapsAgree(Accounts(inbounds, cores, db), Accounts(inbounds, cores, db'));
  }

  // ------------------------------------------- the "raw" deviation of update_user

  /** The accounts `update_user` and the rebuild disagree on: a flow on a raw
      inbound that would keep it. */
  predicate LosesFlow(i: Inbound, s: Settings) {
    s.Flow() != "" && i.network == "raw" && i.KeepsFlow()
  }

  /** No inbound of this user is one where an update drops the flow. */
  ghost predicate UpdateSafe(inbounds: seq<Inbound>, u: User) {
    forall i :: i in inbounds && Carries(i, u) ==> !LosesFlow(i, u.proxies[i.protocol].settings)
  }

  lemma UpdateAccountIs(i: Inbound, u: User)
    requires Carries(i, u)
    ensures UpdateAccount(i, u) == AccountOn(i, u) <==> !LosesFlow(i, u.proxies[i.protocol].settings)
  {}

  lemma SafeUpdateOwn(inbounds: seq<Inbound>, cores: seq<CoreId>, db: Table, u: User, threads: seq<AccountThread>,
                      schedule: seq<nat>, cell: Cell)
    requires Edit(inbounds, db, u) && u.id in db && u.Live() && UpdateSafe(inbounds, u) && cell.email == u.Mail()
    requires SpawnedBy(threads, inbounds, cores, UpdateCall(u)) && Complete(threads, schedule)
    ensures Get(Exec(threads, schedule, Accounts(inbounds, cores, db)), cell) == Get(Own(inbounds, cores, u), cell)
  {
    UpdateOwn(inbounds, cores, db, u, threads, schedule, cell);
    if Reachable(inbounds, cores, cell) {
      var i :| i in inbounds && i.tag == cell.tag;
      OwnAt(inbounds, cores, u, cell.core, i);
      if Carries(i, u) { UpdateAccountIs(i, u); }
    } else {
      OwnElsewhere(inbounds, cores, u, cell);
    }
  }

  lemma UpdateResyncs(inbounds: seq<Inbound>, cores: seq<CoreId>, db: Table, u: User, m': map<Cell, Account>)
    requires Edit(inbounds, db, u) && u.id in db && u.Live() && UpdateSafe(inbounds, u)
    requires Called(inbounds, cores, Accounts(inbounds, cores, db), Some(UpdateCall(u)), m')
    ensures Sound(inbounds, db[u.id := u]) && m' == Accounts(inbounds, cores, db[u.id := u])
  {
    var m := Accounts(inbounds, cores, db);
    OthersUntouched(inbounds, cores, m, UpdateCall(u), m');
    var threads, schedule :|
      SpawnedBy(threads, inbounds, cores, UpdateCall(u)) && Complete(threads, schedule) &&
        m' == Exec(threads, schedule, m);
    forall cell: Cell | cell.email == u.Mail() ensures Get(m', cell) == Get(Own(inbounds, cores, u), cell) {
      SafeUpdateOwn(inbounds, cores, db, u, threads, schedule, cell);
    }
    Resync(inbounds, cores, db, u, m');
  }

  lemma UpdatedCell(inbounds: seq<Inbound>, cores: seq<CoreId>, db: Table, u: User, m': map<Cell, Account>, i: Inbound)
    requires Edit(inbounds, db, u) && u.id in db && u.Live() && cores != [] && i in inbounds && Carries(i, u)
    requires Called(inbounds, cores, Accounts(inbounds, cores, db), Some(UpdateCall(u)), m')
    ensures var cell := Cell(cores[0], i.tag, u.Mail());
            && Get(m', cell) == Some(UpdateAccount(i, u))
            && Get(Accounts(inbounds, cores, db[u.id := u]), cell) == Some(AccountOn(i, u))
  {
    var m := Accounts(inbounds, cores, db);
    var threads, schedule :|
      SpawnedBy(threads, inbounds, cores, UpdateCall(u)) && Complete(threads, schedule) &&
        m' == Exec(threads, schedule, m);
    AfterCall(threads, schedule, inbounds, cores, UpdateCall(u), m, cores[0], i);
    AlterReplaces(Get(m, Cell(cores[0], i.tag, u.Mail())), UpdateAccount(i, u));
    EditSound(inbounds, db, u);
    AccountsAt(inbounds, cores, db[u.id := u], cores[0], i, u.id);
  }

  /** An update brings the cores to the rebuilt state exactly when no inbound
      the user carries is a raw one that keeps the user's flow. */
  lemma UpdateResyncsIff(inbounds: seq<Inbound>, cores: seq<CoreId>, db: Table, u: User, m': map<Cell, Account>)
    requires Edit(inbounds, db, u) && u.id in db && u.Live() && cores != []
    requires Called(inbounds, cores, Accounts(inbounds, cores, db), Some(UpdateCall(u)), m')
    ensures Sound(inbounds, db[u.id := u])
    ensures m' == Accounts(inbounds, cores, db[u.id := u]) <==> UpdateSafe(inbounds, u)
  {
    EditSound(inbounds, db, u);
    if UpdateSafe(inbounds, u) {
      UpdateResyncs(inbounds, cores, db, u, m');
    } else {
      var i :| i in inbounds && Carries(i, u) && LosesFlow(i, u.proxies[i.protocol].settings);
      UpdatedCell(inbounds, cores, db, u, m', i);
      UpdateAccountIs(i, u);
    }
  }

  /** Inbounds on which no update can lose a flow, whoever the user is. */
  predicate RawFree(inbounds: seq<Inbound>) {
    forall i :: i in inbounds && (i.protocol.VLESS? || i.protocol.Trojan?) ==> !(i.network == "raw" && i.KeepsFlow())
  }

  /** ... and that is the exact condition on a configuration. */
  lemma RawFreeIff(inbounds: seq<Inbound>)
    ensures RawFree(inbounds) <==> forall u: User :: u.WellTyped() ==> UpdateSafe(inbounds, u)
  {
    if !RawFree(inbounds) {
      var i :| i in inbounds && (i.protocol.VLESS? || i.protocol.Trojan?) && i.network == "raw" && i.KeepsFlow();
      var s := if i.protocol.VLESS? then VLESSSettings("", "xtls-rprx-vision")
               else TrojanSettings("", "xtls-rprx-vision");
      var u := User(0, "", Active, map[i.protocol := Proxy(s, [])], 0, [],
                    None, None, None, None, None, None, 0.0, None, None);
      assert u.WellTyped() && Carries(i, u) && LosesFlow(i, u.proxies[i.protocol].settings);
      assert !UpdateSafe(inbounds, u);
    }
  }
}
