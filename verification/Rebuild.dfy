/** The table of accounts the cores should hold, defined from the database
    alone, and the proof that `include_db_users` writes exactly that table. */
module Rebuild {
  import opened Text
  import opened Users
  import opened Schedules
  import opened XrayConfig

  /** Inbounds with distinct tags and a well-formed user table. */
  ghost predicate Sound(inbounds: seq<Inbound>, db: Table) {
    DistinctTags(inbounds) && ValidTable(db)
  }

  ghost predicate Deserves(db: Table, i: Inbound, id: UserId) {
    id in db && db[id].Live() && Carries(i, db[id])
  }

  lemma OneOwner(inbounds: seq<Inbound>, db: Table, i: Inbound, a: UserId, j: Inbound, b: UserId)
    requires Sound(inbounds, db) && i in inbounds && j in inbounds && a in db && b in db
    requires i.tag == j.tag && db[a].Mail() == db[b].Mail()
    ensures i == j && a == b
  {
    TagOwner(inbounds, i, j);
    EmailInjective(db[a].id, db[a].username, db[b].id, db[b].username);
  }


  ghost predicate Owns(inbounds: seq<Inbound>, db: Table, i: Inbound, id: UserId, tag: Tag, email: string) {
    i in inbounds && Deserves(db, i, id) && i.tag == tag && db[id].Mail() == email
  }

  ghost predicate Owned(inbounds: seq<Inbound>, db: Table, tag: Tag, email: string) {
    exists i, id :: Owns(inbounds, db, i, id, tag, email)
  }

  ghost function AccountOf(inbounds: seq<Inbound>, db: Table, tag: Tag, email: string): (a: Account)
    requires Owned(inbounds, db, tag, email)
    ensures exists i, id :: Owns(inbounds, db, i, id, tag, email) && a == AccountOn(i, db[id])
  {
    var i, id :| Owns(inbounds, db, i, id, tag, email);
    AccountOn(i, db[id])
  }

  ghost function Cells(inbounds: seq<Inbound>, cores: seq<CoreId>, db: Table): set<Cell> {
    set c, i, id | c in cores && i in inbounds && id in db && Deserves(db, i, id) :: Cell(c, i.tag, db[id].Mail())
  }

  /** The rebuild: every live user's account on every inbound it may use, on every core. */
  ghost function Accounts(inbounds: seq<Inbound>, cores: seq<CoreId>, db: Table): map<Cell, Account>
  {
    map cell | cell in Cells(inbounds, cores, db) && Owned(inbounds, db, cell.tag, cell.email) ::
      AccountOf(inbounds, db, cell.tag, cell.email)
  }

  lemma AccountOfIs(inbounds: seq<Inbound>, db: Table, i: Inbound, id: UserId)
    requires Sound(inbounds, db) && i in inbounds && Deserves(db, i, id)
    ensures Owned(inbounds, db, i.tag, db[id].Mail())
    ensures AccountOf(inbounds, db, i.tag, db[id].Mail()) == AccountOn(i, db[id])
  {
    assert Owns(inbounds, db, i, id, i.tag, db[id].Mail());
    var email := db[id].Mail();
    var a := AccountOf(inbounds, db, i.tag, email);
    var j, id' :| Owns(inbounds, db, j, id', i.tag, email) && a == AccountOn(j, db[id']);
    OneOwner(inbounds, db, i, id, j, id');
  }

  /** The content of a live user's cell. */
  lemma AccountsAt(inbounds: seq<Inbound>, cores: seq<CoreId>, db: Table, c: CoreId, i: Inbound, id: UserId)
    requires Sound(inbounds, db) && c in cores && i in inbounds && id in db && db[id].Live()
    ensures Get(Accounts(inbounds, cores, db), Cell(c, i.tag, db[id].Mail())) ==
            if Carries(i, db[id]) then Some(AccountOn(i, db[id])) else None
    ensures Carries(i, db[id]) ==>
              var a := AccountOn(i, db[id]);
              a.email == db[id].Mail() && Sent(a.settings, db[id].proxies[i.protocol].settings, i, true)
  {
    var all := Accounts(inbounds, cores, db);
    var cell := Cell(c, i.tag, db[id].Mail());
    if Carries(i, db[id]) {
      AccountOfIs(inbounds, db, i, id);
      assert cell in Cells(inbounds, cores, db);
    } else if cell in all {
      var j, id' :| Owns(inbounds, db, j, id', i.tag, db[id].Mail());
      OneOwner(inbounds, db, i, id, j, id');
    }
  }

  /** A cell outside the inbounds, the cores or the live users is empty. */
  lemma AccountsOwner(inbounds: seq<Inbound>, cores: seq<CoreId>, db: Table, cell: Cell)
    returns (i: Inbound, id: UserId)
    requires cell in Accounts(inbounds, cores, db)
    ensures cell.core in cores && Owns(inbounds, db, i, id, cell.tag, cell.email)
  {
    i, id :| Owns(inbounds, db, i, id, cell.tag, cell.email);
  }

  // ------------------------------------------------------- the query and the file

  /** The rows of the query: one per proxy of each live user, in any order. */
  ghost predicate RowsOf(rows: seq<Row>, db: Table) {
    && (forall r :: r in rows ==> RowFrom(r, db))
    && (forall k, l :: 0 <= k < l < |rows| ==> rows[k].id != rows[l].id || rows[k].kind != rows[l].kind)
  }

  ghost predicate RowFrom(r: Row, db: Table) {
    && r.id in db && (db[r.id].status.Active? || db[r.id].status.OnHold?)
    && r.username == db[r.id].username && r.kind in db[r.id].proxies
    && r.settings == db[r.id].proxies[r.kind].settings
    && r.excludedTags == GroupConcat(db[r.id].proxies[r.kind].excluded)
  }

  ghost predicate AllRows(rows: seq<Row>, db: Table) {
    RowsOf(rows, db) &&
    forall id, t :: id in db && (db[id].status.Active? || db[id].status.OnHold?) && t in db[id].proxies ==>
      exists r :: r in rows && r.id == id && r.kind == t
  }

  /** Exclusions name tags of the file, which `_validate` keeps free of commas. */
  ghost predicate CleanExclusions(db: Table) {
    forall id, t :: id in db && t in db[id].proxies ==>
      forall tag :: tag in db[id].proxies[t].excluded ==> tag != "" && ',' !in tag
  }

  /** A core reads the client list of an inbound into a table by identity. */
  function Load(clients: seq<Account>): map<string, Account> {
    if clients == [] then map[]
    else
      var last := clients[|clients| - 1];
      Load(clients[..|clients| - 1])[last.email := last]
  }

  lemma RowAccount(r: Row, i: Inbound, db: Table)
    requires ValidTable(db) && CleanExclusions(db) && RowFrom(r, db) && r.kind == i.protocol
    ensures Email(r.id, r.username) == db[r.id].Mail()
    ensures i.tag in ReadExcluded(r.excludedTags) <==> !Carries(i, db[r.id])
    ensures Carries(i, db[r.id]) ==>
              Account(Email(r.id, r.username), RebuildSettings(i, r.settings)) == AccountOn(i, db[r.id])
  {
    ExcludedTagsRoundTrip(db[r.id].proxies[r.kind].excluded);
  }

  lemma LoadNext(clients: seq<Account>, a: Account)
    ensures Load(clients + [a]) == Load(clients)[a.email := a]
  {
    assert (clients + [a])[..|clients|] == clients;
  }

  /** What one more row adds to the table of an inbound. */
  lemma LoadRow(i: Inbound, rows: seq<Row>, row: Row, db: Table)
    requires ValidTable(db) && CleanExclusions(db) && RowFrom(row, db)
    ensures Load(ClientsOf(i, rows + [row])) ==
            if row.kind == i.protocol && Carries(i, db[row.id])
            then Load(ClientsOf(i, rows))[db[row.id].Mail() := AccountOn(i, db[row.id])]
            else Load(ClientsOf(i, rows))
  {
    assert (rows + [row])[..|rows|] == rows;
    if row.kind == i.protocol {
      RowAccount(row, i, db);
      if Carries(i, db[row.id]) {
        LoadNext(ClientsOf(i, rows), AccountOn(i, db[row.id]));
      }
    }
  }

  /** Rows of one protocol name different accounts. */
  lemma OtherRow(rows: seq<Row>, k: nat, l: nat, db: Table)
    requires ValidTable(db) && RowsOf(rows, db) && k < l < |rows| && rows[k].kind == rows[l].kind
    ensures rows[k].id in db && rows[l].id in db && db[rows[k].id].Mail() != db[rows[l].id].Mail()
  {
    assert rows[k] in rows && rows[l] in rows;
    assert RowFrom(rows[k], db) && RowFrom(rows[l], db);
    if db[rows[k].id].Mail() == db[rows[l].id].Mail() {
      EmailInjective(rows[k].id, rows[k].username, rows[l].id, rows[l].username);
    }
  }

  lemma RowsInit(rows: seq<Row>, db: Table)
    requires RowsOf(rows, db) && rows != []
    ensures RowsOf(rows[..|rows| - 1], db) && RowFrom(rows[|rows| - 1], db)
  {
    assert rows[|rows| - 1] in rows;
  }

  /** Every account that is loaded comes from a row. */
  lemma {:induction false} LoadedHasRow(i: Inbound, rows: seq<Row>, db: Table, email: string) returns (r: Row)
    requires ValidTable(db) && CleanExclusions(db) && RowsOf(rows, db) && email in Load(ClientsOf(i, rows))
    ensures r in rows && r.id in db && r.kind == i.protocol && Carries(i, db[r.id]) && email == db[r.id].Mail()
  {
    var before, row := rows[..|rows| - 1], rows[|rows| - 1];
    assert rows == before + [row];
    RowsInit(rows, db);
    LoadRow(i, before, row, db);
    if email in Load(ClientsOf(i, before)) {
      r := LoadedHasRow(i, before, db, email);
    } else {
      r := row;
    }
  }

  /** ... and every row is loaded. */
  lemma {:induction false} RowIsLoaded(i: Inbound, rows: seq<Row>, db: Table, k: nat)
    requires ValidTable(db) && CleanExclusions(db) && RowsOf(rows, db)
    requires k < |rows| && rows[k].kind == i.protocol && rows[k].id in db && Carries(i, db[rows[k].id])
    ensures Get(Load(ClientsOf(i, rows)), db[rows[k].id].Mail()) == Some(AccountOn(i, db[rows[k].id]))
  {
    var n := |rows| - 1;
    var before, row := rows[..n], rows[n];
    assert rows == before + [row];
    RowsInit(rows, db);
    LoadRow(i, before, row, db);
    if k < n {
      RowIsLoaded(i, before, db, k);
      if row.kind == i.protocol { OtherRow(rows, k, n, db); }
    }
  }

  /** What loading one inbound's clients gives, entry by entry. */
  lemma LoadedClients(i: Inbound, rows: seq<Row>, db: Table, email: string)
    requires ValidTable(db) && CleanExclusions(db) && RowsOf(rows, db)
    ensures email in Load(ClientsOf(i, rows)) ==>
              exists r :: r in rows && r.kind == i.protocol && Carries(i, db[r.id]) && email == db[r.id].Mail()
    ensures forall r :: r in rows && r.kind == i.protocol && Carries(i, db[r.id]) && email == db[r.id].Mail() ==>
              Get(Load(ClientsOf(i, rows)), email) == Some(AccountOn(i, db[r.id]))
  {
    if email in Load(ClientsOf(i, rows)) {
      var r := LoadedHasRow(i, rows, db, email);
    }
    forall r | r in rows && r.kind == i.protocol && Carries(i, db[r.id]) && email == db[r.id].Mail()
      ensures Get(Load(ClientsOf(i, rows)), email) == Some(AccountOn(i, db[r.id]))
    {
      var k :| 0 <= k < |rows| && rows[k] == r;
      RowIsLoaded(i, rows, db, k);
    }
  }

  /** Starting a core from the rebuilt configuration fills its tables with the
      accounts of the database, no more and no fewer. */
  lemma RebuildLoads(inbounds: seq<Inbound>, cores: seq<CoreId>, db: Table, rows: seq<Row>, c: CoreId, i: Inbound,
                     email: string)
    requires Sound(inbounds, db) && CleanExclusions(db) && AllRows(rows, db)
    requires c in cores && i in inbounds
    ensures Get(Load(ClientsOf(i, rows)), email) == Get(Accounts(inbounds, cores, db), Cell(c, i.tag, email))
  {
    LoadedClients(i, rows, db, email);
    var all, cell := Accounts(inbounds, cores, db), Cell(c, i.tag, email);
    if cell in all {
      var j, id := AccountsOwner(inbounds, cores, db, cell);
      TagOwner(inbounds, i, j);
      AccountsAt(inbounds, cores, db, c, i, id);
      var r :| r in rows && r.id == id && r.kind == i.protocol;
      assert Get(Load(ClientsOf(i, rows)), email) == Some(AccountOn(i, db[r.id]));
    } else if email in Load(ClientsOf(i, rows)) {
      var r :| r in rows && r.kind == i.protocol && Carries(i, db[r.id]) && email == db[r.id].Mail();
      AccountsAt(inbounds, cores, db, c, i, r.id);
    }
  }

  /** A core started from the file: the clients of every inbound are loaded, and
      nothing is on tags the file does not have. Other cores do not notice. */
  ghost predicate StartedFrom(inbounds: seq<Inbound>, m: map<Cell, Account>, c: CoreId, rows: seq<Row>,
                              m': map<Cell, Account>) {
    && (forall cell: Cell :: cell.core != c ==> Get(m', cell) == Get(m, cell))
    && (forall i, email :: i in inbounds ==> Get(m', Cell(c, i.tag, email)) == Get(Load(ClientsOf(i, rows)), email))
    && (forall cell: Cell :: cell.core == c && (forall i :: i in inbounds ==> i.tag != cell.tag) ==> cell !in m')
  }

  /** Such a core holds what the database says, entry by entry. */
  lemma StartedHolds(inbounds: seq<Inbound>, m: map<Cell, Account>, c: CoreId, rows: seq<Row>, m': map<Cell, Account>,
                     db: Table, cell: Cell)
    requires Sound(inbounds, db) && CleanExclusions(db) && AllRows(rows, db) && StartedFrom(inbounds, m, c, rows, m')
    ensures cell.core == c ==> Get(m', cell) == Get(Accounts(inbounds, [c], db), cell)
  {
    if cell.core == c {
      if i :| i in inbounds && i.tag == cell.tag {
        RebuildLoads(inbounds, [c], db, rows, c, i, cell.email);
        assert cell == Cell(c, i.tag, cell.email);
      } else if cell in Accounts(inbounds, [c], db) {
        var i, id := AccountsOwner(inbounds, [c], db, cell);
      }
    }
  }
}
