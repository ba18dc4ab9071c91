/** The database as the jobs and app/db/crud.py change it: user rows, hourly
    usage rows and admin totals. Every committed statement is one step. */
module Database {
  import opened Text
  import opened Users
  import opened Traffic

  datatype State = State(users: Table, rows: seq<Row>, admins: map<AdminId, int>)

  /** Each row is found under its own id. */
  predicate Keyed(users: Table) {
    forall id <- users :: users[id].id == id
  }

  // -------------------------------------------------------- sums over all cores

  function ChargedAll(reports: seq<Report>, uid: UserId): int {
    if reports == [] then 0
    else
      var r := reports[|reports| - 1];
      ChargedAll(reports[..|reports| - 1], uid) + Charged(r, |r.entries|, uid)
  }

  function MentionsAll(reports: seq<Report>, uid: UserId): nat {
    if reports == [] then 0
    else
      var r := reports[|reports| - 1];
      MentionsAll(reports[..|reports| - 1], uid) + Mentions(r, |r.entries|, uid)
  }

  function WeighedAll(reports: seq<Report>, test: Key -> bool): real {
    if reports == [] then 0.0
    else
      var r := reports[|reports| - 1];
      WeighedAll(reports[..|reports| - 1], test) + Weighed(r, |r.entries|, test)
  }

  lemma ReportsNext(reports: seq<Report>, r: Report)
    ensures forall uid :: ChargedAll(reports + [r], uid) == ChargedAll(reports, uid) + Charged(r, |r.entries|, uid)
    ensures forall uid :: MentionsAll(reports + [r], uid) == MentionsAll(reports, uid) + Mentions(r, |r.entries|, uid)
    ensures forall test :: WeighedAll(reports + [r], test) == WeighedAll(reports, test) + Weighed(r, |r.entries|, test)
  {
    assert (reports + [r])[..|reports|] == reports;
  }

  // ------------------------------------------------------------- users_usage

  method AddReport(before: seq<Item<UserId>>, r: Report) returns (usage: seq<Item<UserId>>)
    requires DistinctKeys(before)
    ensures DistinctKeys(usage)
    ensures forall uid :: Lookup(usage, uid) == Lookup(before, uid) + Charged(r, |r.entries|, uid)
    ensures forall uid :: Has(usage, uid) <==> Has(before, uid) || Mentions(r, |r.entries|, uid) > 0
  {
    usage := before;
    for i := 0 to |r.entries|
      invariant DistinctKeys(usage)
      invariant forall uid :: Lookup(usage, uid) == Lookup(before, uid) + Charged(r, i, uid)
      invariant forall uid :: Has(usage, uid) <==> Has(before, uid) || Mentions(r, i, uid) > 0
    {
      var e := r.entries[i];
      AddAll(usage, e.uid, Truncate(Exact(e, r.coefficient)));
      usage := Add(usage, e.uid, Truncate(Exact(e, r.coefficient)));
    }
  }

  lemma AddAll<K(!new)>(d: seq<Item<K>>, key: K, value: int)
    requires DistinctKeys(d)
    ensures DistinctKeys(Add(d, key, value))
    ensures forall k :: Lookup(Add(d, key, value), k) == Lookup(d, k) + (if k == key then value else 0)
    ensures forall k :: Has(Add(d, key, value), k) <==> Has(d, k) || k == key
  {
    AddDistinct(d, key, value);
    forall k
      ensures Lookup(Add(d, key, value), k) == Lookup(d, k) + (if k == key then value else 0)
      ensures Has(Add(d, key, value), k) <==> Has(d, k) || k == key
    {
      AddLookup(d, key, value, k);
    }
  }

  /** The list of charges of a pass: every user mentioned, once. */
  ghost predicate UsageOf(usage: seq<Item<UserId>>, reports: seq<Report>) {
    && DistinctKeys(usage)
    && (forall uid :: Lookup(usage, uid) == ChargedAll(reports, uid))
    && (forall uid :: Has(usage, uid) <==> MentionsAll(reports, uid) > 0)
  }

  /** The loop that fills `users_usage`. */
  method UsersUsage(reports: seq<Report>) returns (usage: seq<Item<UserId>>)
    ensures UsageOf(usage, reports)
  {
    usage := [];
    for i := 0 to |reports|
      invariant UsageOf(usage, reports[..i])
    {
      TakeNext(reports, i);
      ReportsNext(reports[..i], reports[i]);
      usage := AddReport(usage, reports[i]);
    }
    assert reports[..|reports|] == reports;
  }

  // -------------------------------------------------------- users and admins

  /** A user's admin; the panel takes an admin id of zero for no admin. */
  function Owner(users: Table, uid: UserId): Option<AdminId> {
    if uid in users && users[uid].adminId.Some? && users[uid].adminId.value != 0 then users[uid].adminId else None
  }

  /** Bytes charged to the users of one admin. */
  function Owned(usage: seq<Item<UserId>>, users: Table, admin: AdminId): int {
    if usage == [] then 0
    else
      var item := usage[|usage| - 1];
      Owned(usage[..|usage| - 1], users, admin) + (if Owner(users, item.key) == Some(admin) then item.value else 0)
  }

  /** The loop that fills `admin_usage`. */
  method AdminUsage(usage: seq<Item<UserId>>, users: Table) returns (totals: seq<Item<AdminId>>)
    ensures DistinctKeys(totals)
    ensures forall a :: Lookup(totals, a) == Owned(usage, users, a)
  {
    totals := [];
    for i := 0 to |usage|
      invariant DistinctKeys(totals)
      invariant forall a :: Lookup(totals, a) == Owned(usage[..i], users, a)
    {
      assert usage[..i + 1][..i] == usage[..i];
      var owner := Owner(users, usage[i].key);
      if owner.Some? {
        AddAll(totals, owner.value, usage[i].value);
        totals := Add(totals, owner.value, usage[i].value);
      }
    }
    assert usage[..|usage|] == usage;
  }

  /** The user rows after every charge has been added to its row. */
  function Charge(users: Table, usage: seq<Item<UserId>>, at: real): Table {
    map id | id in users :: if Has(usage, id) then Recorded(users[id], Lookup(usage, id), at) else users[id]
  }

  function ChargeOne(users: Table, item: Item<UserId>, at: real): Table {
    if item.key in users then users[item.key := Recorded(users[item.key], item.value, at)] else users
  }

  lemma ChargeFirst(users: Table, usage: seq<Item<UserId>>, at: real)
    requires usage != [] && DistinctKeys(usage)
    ensures Charge(ChargeOne(users, usage[0], at), usage[1..], at) == Charge(users, usage, at)
  {}

  method ChargeUsers(before: Table, usage: seq<Item<UserId>>, at: real) returns (users: Table)
    requires DistinctKeys(usage)
    ensures users == Charge(before, usage, at)
  {
    users := before;
    var rest := usage;
    while rest != []
      invariant DistinctKeys(rest) && Charge(users, rest, at) == Charge(before, usage, at)
      decreases |rest|
    {
      var item := rest[0];
      ChargeFirst(users, rest, at);
      if item.key in users {
        users := users[item.key := Recorded(users[item.key], item.value, at)];
      }
      rest := rest[1..];
    }
  }

  function Credit(admins: map<AdminId, int>, totals: seq<Item<AdminId>>): map<AdminId, int> {
    map a | a in admins :: admins[a] + Lookup(totals, a)
  }

  function CreditOne(admins: map<AdminId, int>, item: Item<AdminId>): map<AdminId, int> {
    if item.key in admins then admins[item.key := admins[item.key] + item.value] else admins
  }

  lemma CreditFirst(admins: map<AdminId, int>, totals: seq<Item<AdminId>>)
    requires totals != [] && DistinctKeys(totals)
    ensures Credit(CreditOne(admins, totals[0]), totals[1..]) == Credit(admins, totals)
  {
    AbsentIsZero(totals[1..], totals[0].key);
  }

  method CreditAdmins(before: map<AdminId, int>, totals: seq<Item<AdminId>>) returns (admins: map<AdminId, int>)
    requires DistinctKeys(totals)
    ensures admins == Credit(before, totals)
  {
    admins := before;
    var rest := totals;
    while rest != []
      invariant DistinctKeys(rest) && Credit(admins, rest) == Credit(before, totals)
      decreases |rest|
    {
      var item := rest[0];
      CreditFirst(admins, rest);
      if item.key in admins {
        admins := admins[item.key := admins[item.key] + item.value];
      }
      rest := rest[1..];
    }
  }

  // ------------------------------------------------------------- rows of a pass

  /** Every sum of rows grows by what all the reports weigh, and no key gets a
      second row. */
  ghost predicate RowsAfterAll(rows: seq<Row>, reports: seq<Report>, rows': seq<Row>) {
    && Unique(rows')
    && (forall key :: CountKey(rows, key) <= CountKey(rows', key))
    && (forall test :: Total(rows', test) == Total(rows, test) + WeighedAll(reports, test))
  }

  method RecordAllStats(before: seq<Row>, reports: seq<Report>) returns (rows: seq<Row>)
    requires Unique(before)
    ensures RowsAfterAll(before, reports, rows)
  {
    rows := before;
    for i := 0 to |reports|
      invariant RowsAfterAll(before, reports[..i], rows)
    {
      TakeNext(reports, i);
      ReportsNext(reports[..i], reports[i]);
      rows := RecordUserStats(rows, reports[i]);
    }
    assert reports[..|reports|] == reports;
  }

  lemma LastIsMentioned(r: Report)
    ensures r.entries != [] ==> exists uid :: Mentions(r, |r.entries|, uid) > 0
  {
    if r.entries != [] {
      assert Mentions(r, |r.entries|, r.entries[|r.entries| - 1].uid) > 0;
    }
  }

  lemma {:induction false} NothingToWeigh(reports: seq<Report>, test: Key -> bool)
    requires forall uid :: MentionsAll(reports, uid) == 0
    ensures WeighedAll(reports, test) == 0.0
  {
    if reports != [] {
      var init, r := reports[..|reports| - 1], reports[|reports| - 1];
      assert reports == init + [r];
      ReportsNext(init, r);
      LastIsMentioned(r);
      assert forall uid :: MentionsAll(init, uid) <= MentionsAll(init + [r], uid);
      NothingToWeigh(init, test);
    }
  }

  // ------------------------------------------------------------- the recording

  /** A pass's reports: the main core first, the other daemon's users with it. */
  function AllReports(main: seq<Entry>, hysteria: seq<Entry>, hour: int, nodes: seq<Report>): seq<Report> {
    [Report(None, 1.0, hour, main + hysteria)] + nodes
  }

  /** What a list of entries says of one user, in full. */
  function ValueOf(entries: seq<Entry>, uid: UserId): int {
    if entries == [] then 0
    else
      var e := entries[|entries| - 1];
      ValueOf(entries[..|entries| - 1], uid) + (if e.uid == uid then e.value else 0)
  }

  predicate Speaks(entries: seq<Entry>, uid: UserId) {
    exists i :: 0 <= i < |entries| && entries[i].uid == uid
  }

  lemma {:induction false} ValueOfConcat(a: seq<Entry>, b: seq<Entry>, uid: UserId)
    ensures ValueOf(a + b, uid) == ValueOf(a, uid) + ValueOf(b, uid)
  {
    if b == [] {
      assert a + b == a;
    } else {
      assert (a + b)[..|a + b| - 1] == a + b[..|b| - 1];
      ValueOfConcat(a, b[..|b| - 1], uid);
    }
  }

  lemma SpeaksConcat(a: seq<Entry>, b: seq<Entry>, uid: UserId)
    ensures Speaks(a + b, uid) <==> Speaks(a, uid) || Speaks(b, uid)
  {
    var all := a + b;
    if i :| 0 <= i < |b| && b[i].uid == uid { assert all[|a| + i] == b[i]; }
    if i :| 0 <= i < |a| && a[i].uid == uid { assert all[i] == a[i]; }
  }

  /** At coefficient one a report counts in full. */
  lemma {:induction false} CountsInFull(r: Report, n: nat, uid: UserId)
    requires r.coefficient == 1.0 && n <= |r.entries|
    ensures Charged(r, n, uid) == ValueOf(r.entries[..n], uid)
    ensures Mentions(r, n, uid) > 0 <==> Speaks(r.entries[..n], uid)
    ensures Weighed(r, n, OneKey(Key(r.hour, uid, r.node))) == ValueOf(r.entries[..n], uid) as real
  {
    if n > 0 {
      CountsInFull(r, n - 1, uid);
      TakeNext(r.entries, n - 1);
      assert r.entries[..n][..n - 1] == r.entries[..n - 1];
      SpeaksConcat(r.entries[..n - 1], [r.entries[n - 1]], uid);
      assert [r.entries[n - 1]][0] == r.entries[n - 1];
    }
  }

  function OneKey(key: Key): Key -> bool {
    (k: Key) => k == key
  }

  lemma {:induction false} OtherNode(r: Report, n: nat, key: Key)
    requires n <= |r.entries| && r.node != key.node
    ensures Weighed(r, n, OneKey(key)) == 0.0
  {
    if n > 0 { OtherNode(r, n - 1, key); }
  }

  lemma {:induction false} OtherNodes(reports: seq<Report>, key: Key)
    requires forall r <- reports :: r.node != key.node
    ensures WeighedAll(reports, OneKey(key)) == 0.0
  {
    if reports != [] {
      var r := reports[|reports| - 1];
      OtherNodes(reports[..|reports| - 1], key);
      OtherNode(r, |r.entries|, key);
    }
  }

  lemma {:induction false} FirstApart(first: Report, rest: seq<Report>, uid: UserId, test: Key -> bool)
    ensures ChargedAll([first] + rest, uid) == Charged(first, |first.entries|, uid) + ChargedAll(rest, uid)
    ensures MentionsAll([first] + rest, uid) == Mentions(first, |first.entries|, uid) + MentionsAll(rest, uid)
    ensures WeighedAll([first] + rest, test) == Weighed(first, |first.entries|, test) + WeighedAll(rest, test)
  {
    if rest == [] {
      assert [first] + rest == [] + [first];
      ReportsNext([], first);
    } else {
      var init, last := rest[..|rest| - 1], rest[|rest| - 1];
      FirstApart(first, init, uid, test);
      assert [first] + rest == ([first] + init) + [last];
      ReportsNext([first] + init, last);
    }
  }

  /** The main core and the other daemon count in full, for every user and in the row
      of the hour without a node; the nodes come on top. */
  lemma AllReportsCount(main: seq<Entry>, hysteria: seq<Entry>, hour: int, nodes: seq<Report>, uid: UserId)
    ensures var all := AllReports(main, hysteria, hour, nodes);
            && ChargedAll(all, uid) == ValueOf(main, uid) + ValueOf(hysteria, uid) + ChargedAll(nodes, uid)
            && (MentionsAll(all, uid) > 0 <==>
                Speaks(main, uid) || Speaks(hysteria, uid) || MentionsAll(nodes, uid) > 0)
            && ((forall r <- nodes :: r.node.Some?) ==>
                  WeighedAll(all, OneKey(Key(hour, uid, None))) ==
                  (ValueOf(main, uid) + ValueOf(hysteria, uid)) as real)
  {
    var first, key := Report(None, 1.0, hour, main + hysteria), Key(hour, uid, None);
    FirstApart(first, nodes, uid, OneKey(key));
    CountsInFull(first, |first.entries|, uid);
    assert first.entries[..|first.entries|] == main + hysteria;
    ValueOfConcat(main, hysteria, uid);
    SpeaksConcat(main, hysteria, uid);
    if forall r <- nodes :: r.node.Some? { OtherNodes(nodes, key); }
  }

  /** One user's row after a pass: its traffic grows by what the main core and the
      other daemon say of it, in full, and by what the nodes' reports charge; nothing
      else changes but the time it was last online. */
  ghost predicate Grown(u: User, v: User, main: seq<Entry>, hysteria: seq<Entry>, nodes: seq<Report>, at: real) {
    && v.usedTraffic == u.usedTraffic + ValueOf(main, u.id) + ValueOf(hysteria, u.id) + ChargedAll(nodes, u.id)
    && v.onlineAt == (if Speaks(main, u.id) || Speaks(hysteria, u.id) || MentionsAll(nodes, u.id) > 0
                      then Some(at) else u.onlineAt)
    && v == u.(usedTraffic := v.usedTraffic, onlineAt := v.onlineAt)
  }

  lemma RecordedGrows(s: State, main: seq<Entry>, hysteria: seq<Entry>, hour: int, nodes: seq<Report>, at: real,
                      keep: bool, usage: seq<Item<UserId>>, s': State)
    requires RecordedBy(s, AllReports(main, hysteria, hour, nodes), at, keep, usage, s') && Keyed(s.users)
    ensures s'.users.Keys == s.users.Keys
    ensures forall id <- s.users :: Grown(s.users[id], s'.users[id], main, hysteria, nodes, at)
    ensures keep && (forall r <- nodes :: r.node.Some?) ==>
              forall id :: Total(s'.rows, OneKey(Key(hour, id, None))) ==
                           Total(s.rows, OneKey(Key(hour, id, None)))
                           + (ValueOf(main, id) + ValueOf(hysteria, id)) as real
  {
    var reports := AllReports(main, hysteria, hour, nodes);
    forall id <- s.users ensures Grown(s.users[id], s'.users[id], main, hysteria, nodes, at) {
      AllReportsCount(main, hysteria, hour, nodes, id);
      UnmentionedUncharged(reports, id);
    }
    if keep && forall r <- nodes :: r.node.Some? {
      forall id ensures Total(s'.rows, OneKey(Key(hour, id, None))) ==
                        Total(s.rows, OneKey(Key(hour, id, None))) + (ValueOf(main, id) + ValueOf(hysteria, id)) as real
      {
        AllReportsCount(main, hysteria, hour, nodes, id);
      }
    }
  }

  lemma {:induction false} UnmentionedUncharged(reports: seq<Report>, uid: UserId)
    ensures MentionsAll(reports, uid) == 0 ==> ChargedAll(reports, uid) == 0
  {
    if reports != [] {
      var r := reports[|reports| - 1];
      UnmentionedUncharged(reports[..|reports| - 1], uid);
      UnmentionedByOne(r, |r.entries|, uid);
    }
  }

  lemma {:induction false} UnmentionedByOne(r: Report, n: nat, uid: UserId)
    requires n <= |r.entries|
    ensures Mentions(r, n, uid) == 0 ==> Charged(r, n, uid) == 0
  {
    if n > 0 { UnmentionedByOne(r, n - 1, uid); }
  }

  function ChargedUser(u: User, reports: seq<Report>, at: real): User {
    if MentionsAll(reports, u.id) > 0 then Recorded(u, ChargedAll(reports, u.id), at) else u
  }

  /** What one recording pass does to the database: each user is charged the sum
      of its truncated, weighted reports; each admin gets what its users were
      charged; the rows, if they are kept, grow by the exact weights. */
  ghost predicate RecordedBy(s: State, reports: seq<Report>, at: real, keep: bool, usage: seq<Item<UserId>>,
                             s': State) {
    && UsageOf(usage, reports)
    && s'.users.Keys == s.users.Keys
    && (forall id <- s.users :: s'.users[id] == ChargedUser(s.users[id], reports, at))
    && s'.admins.Keys == s.admins.Keys
    && (forall a <- s.admins :: s'.admins[a] == s.admins[a] + Owned(usage, s.users, a))
    && (if keep then RowsAfterAll(s.rows, reports, s'.rows) else s'.rows == s.rows)
  }

  lemma NothingRecorded(s: State, reports: seq<Report>, at: real, keep: bool)
    requires Unique(s.rows) && UsageOf([], reports)
    ensures RecordedBy(s, reports, at, keep, [], s)
  {
    assert forall uid :: !Has<UserId>([], uid);
    assert forall uid :: MentionsAll(reports, uid) == 0;
    forall test ensures WeighedAll(reports, test) == 0.0 {
      NothingToWeigh(reports, test);
    }
  }

  // ------------------------------------------------------------- the review

  /** The row a pass of the review job leaves for a user. */
  function Judge(u: User, now: real, clock: real): User {
    var v := ReviewUser(u, now, clock);
    if v.Untouched? then u else v.user
  }

  predicate Fires(u: User, now: real, clock: real) {
    ReviewUser(u, now, clock).PlanFired?
  }

  /** Users and rows after the review has dealt with some of the users. */
  function Judged(users: Table, now: real, clock: UserId -> real, done: set<UserId>): Table {
    map id | id in users :: if id in done then Judge(users[id], now, clock(id)) else users[id]
  }

  function Fired(users: Table, now: real, clock: UserId -> real, done: set<UserId>): set<UserId> {
    set id | id in done && id in users && Fires(users[id], now, clock(id))
  }

  function Reviewed(s: State, now: real, clock: UserId -> real, done: set<UserId>): State {
    State(Judged(s.users, now, clock, done), Without(s.rows, Fired(s.users, now, clock, done)), s.admins)
  }

  lemma ReviewedNobody(s: State, now: real, clock: UserId -> real)
    ensures Reviewed(s, now, clock, {}) == s
  {
    assert Fired(s.users, now, clock, {}) == {};
    WithoutNobody(s.rows);
  }

  lemma ReviewedNext(s: State, now: real, clock: UserId -> real, done: set<UserId>, id: UserId)
    requires id in s.users && id !in done
    ensures var before, after := Reviewed(s, now, clock, done), Reviewed(s, now, clock, done + {id});
            && before.users[id] == s.users[id]
            && after.users == before.users[id := Judge(s.users[id], now, clock(id))]
            && after.rows == (if Fires(s.users[id], now, clock(id)) then Without(before.rows, {id}) else before.rows)
  {
    var fired := Fired(s.users, now, clock, done);
    if Fires(s.users[id], now, clock(id)) {
      assert Fired(s.users, now, clock, done + {id}) == fired + {id};
      WithoutTwice(s.rows, fired, {id});
    } else {
      assert Fired(s.users, now, clock, done + {id}) == fired;
    }
  }

  lemma HeldNext(s: State, now: real, clock: UserId -> real, done: set<UserId>, id: UserId)
    requires id in s.users && id !in done && s.users[id].status.OnHold?
    ensures var before := Reviewed(s, now, clock, done);
            && before.users[id] == s.users[id]
            && Reviewed(s, now, clock, done + {id}) ==
               before.(users := before.users[id := Judge(s.users[id], now, clock(id))])
  {
    ReviewedNext(s, now, clock, done, id);
  }

  predicate Crashes(u: User, now: real, clock: real) {
    ReviewUser(u, now, clock).Crashed?
  }

  // ------------------------------------------------------------------- an edit

  /** The proxies once some of the types of a change have been written. */
  function Written(before: map<ProxyType, Proxy>, change: map<ProxyType, Settings>,
                   done: set<ProxyType>): map<ProxyType, Proxy>
    requires done <= change.Keys
  {
    map t | t in before.Keys + done ::
      if t !in done then before[t] else WrittenProxy(before, change, t)
  }

  function WrittenProxy(before: map<ProxyType, Proxy>, change: map<ProxyType, Settings>, t: ProxyType): Proxy
    requires t in change
  {
    if t in before then before[t].(settings := change[t]) else Proxy(change[t], [])
  }

  lemma WrittenNext(before: map<ProxyType, Proxy>, change: map<ProxyType, Settings>, todo: set<ProxyType>, t: ProxyType)
    requires todo <= change.Keys && t in todo
    ensures Written(before[t := WrittenProxy(before, change, t)], change, todo - {t}) == Written(before, change, todo)
  {}

  lemma WrittenNothing(before: map<ProxyType, Proxy>, change: map<ProxyType, Settings>)
    ensures Written(before, change, {}) == before
  {}

  /** The loop over `modify.proxies`. */
  method WriteSettings(before: map<ProxyType, Proxy>, change: map<ProxyType, Settings>)
    returns (proxies: map<ProxyType, Proxy>)
    ensures proxies == Written(before, change, change.Keys)
  {
    proxies := before;
    var todo := change.Keys;
    while todo != {}
      invariant todo <= change.Keys && Written(proxies, change, todo) == Written(before, change, change.Keys)
      decreases |todo|
    {
      var t :| t in todo;
      WrittenNext(proxies, change, todo, t);
      proxies := proxies[t := if t in proxies then proxies[t].(settings := change[t]) else Proxy(change[t], [])];
      todo := todo - {t};
    }
    WrittenNothing(proxies, change);
  }

  /** The proxies once some of the exclusions have been written. */
  function Excluding(proxies: map<ProxyType, Proxy>, excluded: map<ProxyType, seq<Tag>>,
                     todo: set<ProxyType>): map<ProxyType, Proxy>
    requires todo <= excluded.Keys
  {
    map t | t in proxies :: if t in todo then proxies[t].(excluded := excluded[t]) else proxies[t]
  }

  lemma ExcludingNext(proxies: map<ProxyType, Proxy>, excluded: map<ProxyType, seq<Tag>>, todo: set<ProxyType>,
                      t: ProxyType)
    requires todo <= excluded.Keys && t in todo
    ensures var next := if t in proxies then proxies[t := proxies[t].(excluded := excluded[t])] else proxies;
            Excluding(next, excluded, todo - {t}) == Excluding(proxies, excluded, todo)
  {}

  lemma ExcludingNothing(proxies: map<ProxyType, Proxy>, excluded: map<ProxyType, seq<Tag>>)
    ensures Excluding(proxies, excluded, {}) == proxies
  {}

  /** The loop over `modify.excluded_inbounds`. */
  method WriteExclusions(before: map<ProxyType, Proxy>, excluded: map<ProxyType, seq<Tag>>)
    returns (proxies: map<ProxyType, Proxy>)
    ensures proxies == Excluding(before, excluded, excluded.Keys)
  {
    proxies := before;
    var todo := excluded.Keys;
    while todo != {}
      invariant todo <= excluded.Keys
      invariant Excluding(proxies, excluded, todo) == Excluding(before, excluded, excluded.Keys)
      decreases |todo|
    {
      var t :| t in todo;
      ExcludingNext(proxies, excluded, todo, t);
      if t in proxies {
        proxies := proxies[t := proxies[t].(excluded := excluded[t])];
      }
      todo := todo - {t};
    }
    ExcludingNothing(proxies, excluded);
  }

  /** The proxy rows of an edit: written, those not mentioned deleted, and then
      their exclusions. */
  method EditProxies(before: map<ProxyType, Proxy>, change: Change) returns (proxies: map<ProxyType, Proxy>)
    ensures proxies == ModifyProxies(before, change)
  {
    proxies := before;
    if change.proxies != map[] {
      proxies := WriteSettings(before, change.proxies);
      proxies := map t | t in proxies && t in change.proxies :: proxies[t];
    }
    proxies := WriteExclusions(proxies, change.excluded);
  }

  /** The status, limit and expiry of an edit, in the order the fields are set. */
  method EditStatus(u: User, change: Change, now: real)
    returns (status: Status, limit: Option<int>, expire: Option<int>)
    ensures var v := Modify(u, change, now); status == v.status && limit == v.dataLimit && expire == v.expire
  {
    status, limit, expire := u.status, u.dataLimit, u.expire;
    if change.status.Some? { status := change.status.value; }
    if change.dataLimit.Some? {
      limit := if change.dataLimit.value == 0 then None else change.dataLimit;
      if !status.Expired? && !status.Disabled? {
        if limit.None? || u.usedTraffic < limit.value {
          if !status.OnHold? { status := Active; }
        } else {
          status := Limited;
        }
      }
    }
    if change.expire.Some? {
      expire := if change.expire.value == 0 then None else change.expire;
      if status.Active? || status.Expired? {
        status := if expire.None? || expire.value as real > now then Active else Expired;
      }
    }
  }

  // -------------------------------------------------- rows agree with counters

  predicate Settled(s: State, id: UserId) {
    id in s.users ==> Total(s.rows, OfUser(id)) == s.users[id].usedTraffic as real
  }

  /** One row at most per hour, user and node, and every counter equal to the sum
      of its user's rows. */
  ghost predicate Agrees(s: State) {
    Keyed(s.users) && Unique(s.rows) && forall id :: Settled(s, id)
  }

  function Put(s: State, u: User): State {
    s.(users := s.users[u.id := u])
  }

  function PutCleared(s: State, u: User): State {
    s.(users := s.users[u.id := u], rows := Without(s.rows, {u.id}))
  }

  lemma PutAgrees(s: State, u: User)
    requires Agrees(s) && u.id in s.users && u.usedTraffic == s.users[u.id].usedTraffic
    ensures Agrees(Put(s, u))
  {
    forall id ensures Settled(Put(s, u), id) {
      assert Settled(s, id);
    }
  }

  lemma PutClearedAgrees(s: State, u: User)
    requires Agrees(s) && u.id in s.users && u.usedTraffic == 0
    ensures Agrees(PutCleared(s, u))
  {
    WithoutUnique(s.rows, {u.id});
    forall id ensures Settled(PutCleared(s, u), id) {
      assert Settled(s, id);
      WithoutTotal(s.rows, {u.id}, id);
    }
  }

  lemma DeleteAgrees(s: State, id: UserId)
    requires Agrees(s)
    ensures Agrees(s.(users := s.users - {id}, rows := Without(s.rows, {id})))
  {
    var s' := s.(users := s.users - {id}, rows := Without(s.rows, {id}));
    WithoutUnique(s.rows, {id});
    forall k ensures Settled(s', k) {
      assert Settled(s, k);
      WithoutTotal(s.rows, {id}, k);
    }
  }

  /** Nothing but one user's row and hourly rows differs. */
  ghost predicate OnlyUser(s: State, s': State, id: UserId) {
    && s'.admins == s.admins
    && (forall k :: k != id ==> (k in s'.users <==> k in s.users))
    && (forall k :: k != id ==> Total(s'.rows, OfUser(k)) == Total(s.rows, OfUser(k)))
    && (forall k :: k != id && k in s.users && k in s'.users ==> s'.users[k] == s.users[k])
  }

  lemma ClearedTotals(s: State, users: Table, id: UserId)
    requires forall k :: k != id ==> (k in users <==> k in s.users)
    requires forall k :: k != id && k in users ==> users[k] == s.users[k]
    ensures OnlyUser(s, s.(users := users, rows := Without(s.rows, {id})), id)
    ensures Total(Without(s.rows, {id}), OfUser(id)) == 0.0
  {
    forall k ensures Total(Without(s.rows, {id}), OfUser(k)) == if k == id then 0.0 else Total(s.rows, OfUser(k)) {
      WithoutTotal(s.rows, {id}, k);
    }
  }

  /** A row written back with its counter logged and its hourly rows cleared. */
  lemma ClearedKeeps(s: State, id: UserId, v: User)
    requires id in s.users && v.id == s.users[id].id
    requires v.usageLogs == s.users[id].usageLogs + [s.users[id].usedTraffic] && v.usedTraffic == 0
    ensures var s' := s.(users := s.users[id := v], rows := Without(s.rows, {id}));
            OnlyUser(s, s', id) && (Agrees(s) ==> Agrees(s')) && Total(s'.rows, OfUser(id)) == 0.0
    ensures Lifetime(v) == Lifetime(s.users[id])
  {
    ClearedTotals(s, s.users[id := v], id);
    LoggedKeepsLifetime(s.users[id], v);
    if Agrees(s) { PutClearedAgrees(s, v); }
  }

  /** A row written back with its traffic as it was. */
  lemma WrittenKeeps(s: State, id: UserId, v: User)
    requires id in s.users && v.id == s.users[id].id && v.usedTraffic == s.users[id].usedTraffic
    ensures var s' := s.(users := s.users[id := v]); OnlyUser(s, s', id) && (Agrees(s) ==> Agrees(s'))
  {
    if Agrees(s) { PutAgrees(s, v); }
  }

  // ------------------------------------------- single rows, before and after

  /** A plan took effect: traffic starts anew under the plan's limit and expiry. With
      the flag unset the plan's limit is extended by what was left of the old one. */
  predicate Restarted(u: User, v: User, clock: real) {
    && u.nextPlan.Some? && u.nextPlan.value.expire.Some?
    && v.status.Active? && v.nextPlan.None? && v.usedTraffic == 0 && v.usageLogs == u.usageLogs + [u.usedTraffic]
    && v.expire == Some((u.nextPlan.value.expire.value as real + clock).Floor)
    && (u.nextPlan.value.addRemaining ==> v.dataLimit == Some(u.nextPlan.value.dataLimit))
    && (!u.nextPlan.value.addRemaining ==>
          u.dataLimit.Some? && v.dataLimit == Some(u.nextPlan.value.dataLimit + u.dataLimit.value - u.usedTraffic))
    && v == u.(status := v.status, nextPlan := v.nextPlan, usedTraffic := v.usedTraffic, usageLogs := v.usageLogs,
               expire := v.expire, dataLimit := v.dataLimit)
  }

  /** An expiry began to run: the hold's duration from now on, in whole seconds. */
  predicate Begun(u: User, v: User, clock: real) {
    && u.onHoldDuration.Some? && v.expire == Some(clock.Floor + u.onHoldDuration.value)
    && v.onHoldDuration.None? && v.onHoldTimeout.None?
    && v == u.(expire := v.expire, onHoldDuration := None, onHoldTimeout := None)
  }

  /** What a pass leaves of an active user, from the row alone. */
  predicate ActiveReviewed(u: User, v: User, now: real, clock: real) {
    var limited := u.dataLimit.Some? && u.dataLimit.value != 0 && u.usedTraffic >= u.dataLimit.value;
    var expired := u.expire.Some? && u.expire.value != 0 && u.expire.value as real <= now;
    if u.nextPlan.Some? && ((limited && expired) || (u.nextPlan.value.fireOnEither && (limited || expired)))
      then Restarted(u, v, clock)
    else if limited then v == u.(status := Limited)
    else if expired then v == u.(status := Expired)
    else v == u
  }

  /** ... and of a user on hold: it starts once the user was online after the last edit
      or since its creation, or once the timeout has passed. */
  predicate HoldReviewed(u: User, v: User, now: real, clock: real) {
    var since := if u.editAt.Some? then u.editAt.value else u.createdAt;
    if (u.onlineAt.Some? && u.onlineAt.value >= since) || (u.onHoldTimeout.Some? && u.onHoldTimeout.value <= now)
      then Begun(u.(status := Active), v, clock)
    else v == u
  }

  lemma PlanRestarts(u: User, clock: real)
    ensures ResetByNext(u, clock).Done? ==> Restarted(u, ResetByNext(u, clock).user, clock)
  {}

  lemma HoldBegins(u: User, clock: real)
    ensures StartExpire(u, clock).Done? <==> u.onHoldDuration.Some?
    ensures StartExpire(u, clock).Done? ==> Begun(u, StartExpire(u, clock).user, clock)
  {}

  lemma JudgedActiveUser(u: User, now: real, clock: real)
    requires u.status.Active?
    ensures !Crashes(u, now, clock) ==> ActiveReviewed(u, Judge(u, now, clock), now, clock)
    ensures Crashes(u, now, clock) ==> Judge(u, now, clock) == u
  {
    PlanRestarts(u, clock);
  }

  lemma JudgedHeldUser(u: User, now: real, clock: real)
    requires u.status.OnHold?
    ensures !Crashes(u, now, clock) ==> HoldReviewed(u, Judge(u, now, clock), now, clock)
  {
    HoldBegins(u.(status := Active), clock);
  }

  // ------------------------------------------------------------------ a session

  class Session {
    var users: Table
    var rows: seq<Row>
    var admins: map<AdminId, int>

    function Value(): State
      reads this
    {
      State(users, rows, admins)
    }

    constructor (s: State)
      ensures Value() == s
    {
      users, rows, admins := s.users, s.rows, s.admins;
    }

    /** `record_user_usages`; `at` is the time written to online_at, `keep` says
        that hourly rows are recorded. */
    method RecordUserUsages(main: seq<Entry>, hysteria: seq<Entry>, hour: int, nodes: seq<Report>, at: real, keep: bool)
      returns (ghost usage: seq<Item<UserId>>)
      requires Unique(rows) && Keyed(users)
      modifies this
      ensures RecordedBy(old(Value()), AllReports(main, hysteria, hour, nodes), at, keep, usage, Value())
      ensures users.Keys == old(users).Keys
      ensures forall id <- users :: Grown(old(users)[id], users[id], main, hysteria, nodes, at)
      ensures keep && (forall r <- nodes :: r.node.Some?) ==>
                forall id :: Total(rows, OneKey(Key(hour, id, None))) ==
                             old(Total(rows, OneKey(Key(hour, id, None))))
                             + (ValueOf(main, id) + ValueOf(hysteria, id)) as real
    {
      usage := RecordReports(AllReports(main, hysteria, hour, nodes), at, keep);
      RecordedGrows(old(Value()), main, hysteria, hour, nodes, at, keep, usage, Value());
    }

    method RecordReports(reports: seq<Report>, at: real, keep: bool) returns (ghost usage: seq<Item<UserId>>)
      requires Unique(rows) && Keyed(users)
      modifies this
      ensures RecordedBy(old(Value()), reports, at, keep, usage, Value())
    {
      var charges := UsersUsage(reports);
      usage := charges;
      if charges == [] {
        NothingRecorded(Value(), reports, at, keep);
        return;
      }
      var totals := AdminUsage(charges, users);
      users := ChargeUsers(users, charges, at);
      admins := CreditAdmins(admins, totals);
      if !keep { return; }
      rows := RecordAllStats(rows, reports);
    }

    /** `reset_user_data_usage`: the counter moves to the log, the rows go with it,
        and nobody else is concerned. */
    method ResetUserDataUsage(id: UserId)
      requires id in users
      modifies this
      ensures Value() == old(Value()).(users := old(users)[id := ResetUsage(old(users)[id])],
                                       rows := Without(old(rows), {id}))
      ensures Lifetime(users[id]) == old(Lifetime(users[id])) && users[id].usedTraffic == 0 &&
              Total(rows, OfUser(id)) == 0.0
      ensures users[id].usageLogs == old(users)[id].usageLogs + [old(users)[id].usedTraffic] && users[id].nextPlan.None?
      ensures users[id].status ==
              if old(users)[id].status in {Expired, Disabled} then old(users)[id].status else Active
      ensures OnlyUser(old(Value()), Value(), id) && (Agrees(old(Value())) ==> Agrees(Value()))
    {
      var u := users[id];
      var status := if u.status.Expired? || u.status.Disabled? then u.status else Active;
      var v := u.(usageLogs := u.usageLogs + [u.usedTraffic], usedTraffic := 0, status := status, nextPlan := None);
      ClearedKeeps(Value(), id, v);
      users := users[id := v];
      rows := Without(rows, {id});
    }

    /** `reset_user_by_next`: a plan that takes effect keeps the lifetime total and
        clears the rows; nothing is committed when it fails. */
    method ResetUserByNext(id: UserId, clock: real) returns (outcome: Outcome)
      requires id in users
      modifies this
      ensures outcome == ResetByNext(old(users)[id], clock)
      ensures outcome.NoPlan? <==> old(users)[id].nextPlan.None?
      ensures outcome.Done? ==> Restarted(old(users)[id], outcome.user, clock)
      ensures Value() == if outcome.Done?
                         then old(Value()).(users := old(users)[id := outcome.user], rows := Without(old(rows), {id}))
                         else old(Value())
      ensures Lifetime(users[id]) == old(Lifetime(users[id])) && (outcome.Done? ==> Total(rows, OfUser(id)) == 0.0)
      ensures OnlyUser(old(Value()), Value(), id) && (Agrees(old(Value())) ==> Agrees(Value()))
    {
      PlanRestarts(users[id], clock);
      outcome := ResetByNext(users[id], clock);
      if outcome.Done? {
        ClearedKeeps(Value(), id, outcome.user);
        users := users[id := outcome.user];
        rows := Without(rows, {id});
      }
    }

    /** `update_user`: the row is edited field by field, then committed. */
    method UpdateUser(id: UserId, change: Change, now: real)
      requires id in users
      modifies this`users
      ensures users == old(users)[id := Modify(old(users)[id], change, now)]
      ensures Lifetime(users[id]) == old(Lifetime(users[id]))
      ensures OnlyUser(old(Value()), Value(), id) && (Agrees(old(Value())) ==> Agrees(Value()))
    {
      var u := users[id];
      ModifyKeepsTraffic(u, change, now);
      WrittenKeeps(Value(), id, Modify(u, change, now));
      var proxies := EditProxies(u.proxies, change);
      var status, limit, expire := EditStatus(u, change, now);
      var timeout, duration := u.onHoldTimeout, u.onHoldDuration;
      if change.onHoldTimeout.Some? { timeout := change.onHoldTimeout; }
      if change.onHoldDuration.Some? { duration := change.onHoldDuration; }
      users := users[id := u.(proxies := proxies, status := status, dataLimit := limit, expire := expire,
                              onHoldTimeout := timeout, onHoldDuration := duration, nextPlan := change.nextPlan,
                              editAt := Some(now))];
    }

    /** `create_user`, under an id the database has just given out. */
    method CreateUser(u: User)
      requires u.id !in users
      modifies this`users
      ensures users == old(users)[u.id := u]
    {
      users := users[u.id := u];
    }

    /** `remove_user`: the hourly rows go with their user. */
    method RemoveUser(id: UserId)
      requires id in users
      modifies this
      ensures Value() == old(Value()).(users := old(users) - {id}, rows := Without(old(rows), {id}))
      ensures id !in users && Total(rows, OfUser(id)) == 0.0
      ensures OnlyUser(old(Value()), Value(), id) && (Agrees(old(Value())) ==> Agrees(Value()))
    {
      ClearedTotals(Value(), users - {id}, id);
      if Agrees(Value()) { DeleteAgrees(Value(), id); }
      users := users - {id};
      rows := Without(rows, {id});
    }

    /** `update_user_status`: no traffic moves. */
    method UpdateUserStatus(id: UserId, status: Status)
      requires id in users
      modifies this`users
      ensures users == old(users)[id := old(users)[id].(status := status)]
      ensures Lifetime(users[id]) == old(Lifetime(users[id]))
      ensures OnlyUser(old(Value()), Value(), id) && (Agrees(old(Value())) ==> Agrees(Value()))
    {
      WrittenKeeps(Value(), id, users[id].(status := status));
      users := users[id := users[id].(status := status)];
    }

    /** `start_user_expire`: no traffic moves, and a hold cannot start twice. */
    method StartUserExpire(id: UserId, clock: real) returns (outcome: Outcome)
      requires id in users
      modifies this`users
      ensures outcome == StartExpire(old(users)[id], clock)
      ensures outcome.Done? <==> old(users)[id].onHoldDuration.Some?
      ensures outcome.Done? ==> Begun(old(users)[id], outcome.user, clock)
      ensures users == if outcome.Done? then old(users)[id := outcome.user] else old(users)
      ensures Lifetime(users[id]) == old(Lifetime(users[id]))
      ensures outcome.Done? ==> StartExpire(users[id], clock).TypeError? && users[id].expire.Some?
      ensures OnlyUser(old(Value()), Value(), id) && (Agrees(old(Value())) ==> Agrees(Value()))
    {
      HoldBegins(users[id], clock);
      outcome := StartExpire(users[id], clock);
      if outcome.Done? {
        WrittenKeeps(Value(), id, outcome.user);
        users := users[id := outcome.user];
      }
    }

    /** The body of the first loop of `review`: an active user. */
    method ReviewActive(id: UserId, now: real, clock: real) returns (crashed: bool)
      requires id in users && users[id].status.Active?
      modifies this
      ensures users.Keys == old(users).Keys && (crashed ==> users == old(users))
      ensures !crashed ==> ActiveReviewed(old(users)[id], users[id], now, clock)
      ensures crashed <==> Crashes(old(users)[id], now, clock)
      ensures users == old(users)[id := Judge(old(users)[id], now, clock)] && admins == old(admins)
      ensures rows == if Fires(old(users)[id], now, clock) then Without(old(rows), {id}) else old(rows)
    {
      crashed := false;
      var u := users[id];
      JudgedActiveUser(u, now, clock);
      var limited, expired := u.LimitReached(), u.ExpiryPassed(now);
      if (limited || expired) && u.nextPlan.Some? && (u.nextPlan.value.fireOnEither || (limited && expired)) {
        var outcome := ResetUserByNext(id, clock);
        crashed := !outcome.Done?;
        return;
      }
      if limited {
        UpdateUserStatus(id, Limited);
      } else if expired {
        UpdateUserStatus(id, Expired);
      }
    }

    /** The body of the second loop of `review`: a user on hold. */
    method ReviewOnHold(id: UserId, now: real, clock: real) returns (crashed: bool)
      requires id in users && users[id].status.OnHold?
      modifies this`users
      ensures users.Keys == old(users).Keys
      ensures !crashed ==> HoldReviewed(old(users)[id], users[id], now, clock)
      ensures crashed ==> users == old(users)[id := old(users)[id].(status := Active)]
      ensures crashed <==> Crashes(old(users)[id], now, clock)
      ensures users == old(users)[id := Judge(old(users)[id], now, clock)]
    {
      crashed := false;
      var u := users[id];
      JudgedHeldUser(u, now, clock);
      var base := if u.editAt.Some? then u.editAt.value else u.createdAt;
      if u.onlineAt.Some? && base <= u.onlineAt.value {
        UpdateUserStatus(id, Active);
      } else if u.onHoldTimeout.Some? && u.onHoldTimeout.value <= now {
        UpdateUserStatus(id, Active);
      } else {
        return;
      }
      var outcome := StartUserExpire(id, clock);
      crashed := !outcome.Done?;
    }

    /** The first loop of `review`. */
    method ReviewActives(now: real, clock: UserId -> real) returns (crashed: bool, ghost done: set<UserId>)
      modifies this
      ensures done <= old(users).Keys && Value() == Reviewed(old(Value()), now, clock, done)
      ensures crashed <==> exists id :: id in done && Crashes(old(users)[id], now, clock(id))
      ensures !crashed ==> forall id :: id in old(users) && old(users)[id].status.Active? <==> id in done
    {
      done := {};
      crashed := false;
      ReviewedNobody(Value(), now, clock);
      var todo := set id | id in users && users[id].status.Active?;
      while todo != {}
        invariant todo !! done && done <= old(users).Keys && users.Keys == old(users).Keys
        invariant Value() == Reviewed(old(Value()), now, clock, done)
        invariant forall id :: id in done ==> !Crashes(old(users)[id], now, clock(id))
        invariant forall id :: id in old(users) && old(users)[id].status.Active? <==> id in todo || id in done
        decreases |todo|
      {
        var id :| id in todo;
        ReviewedNext(old(Value()), now, clock, done, id);
        crashed := ReviewActive(id, now, clock(id));
        done := done + {id};
        todo := todo - {id};
        if crashed { return; }
      }
    }

    /** One turn of the second loop, seen from the start of the pass. */
    method ReviewHeld(ghost s: State, ghost done: set<UserId>, id: UserId, now: real, clock: UserId -> real)
      returns (crashed: bool)
      requires Value() == Reviewed(s, now, clock, done)
      requires id in s.users && id !in done && s.users[id].status.OnHold?
      modifies this
      ensures Value() == Reviewed(s, now, clock, done + {id})
      ensures crashed <==> Crashes(s.users[id], now, clock(id))
    {
      HeldNext(s, now, clock, done, id);
      crashed := ReviewOnHold(id, now, clock(id));
    }

    /** The second loop over these users on hold; `s` is the database before the
        pass and `first` the users already dealt with. */
    method ReviewAllHeld(ghost s: State, ghost first: set<UserId>, held: set<UserId>, now: real, clock: UserId -> real)
      returns (crashed: bool, ghost done: set<UserId>)
      requires Value() == Reviewed(s, now, clock, first) && held !! first
      requires forall id :: id in held ==> id in s.users && s.users[id].status.OnHold?
      modifies this
      ensures Value() == Reviewed(s, now, clock, done)
      ensures forall id :: id in first ==> id in done
      ensures forall id :: id in done ==> id in first || id in held
      ensures crashed <==> exists id :: id in done && id in held && Crashes(s.users[id], now, clock(id))
      ensures !crashed ==> forall id :: id in held ==> id in done
    {
      done := first;
      crashed := false;
      var todo := held;
      while todo != {}
        invariant todo <= held && Value() == Reviewed(s, now, clock, done)
        invariant forall id :: id in done <==> id in first || (id in held && id !in todo)
        invariant forall id :: id in done && id in held ==> !Crashes(s.users[id], now, clock(id))
        decreases |todo|
      {
        var id :| id in todo;
        crashed := ReviewHeld(s, done, id, now, clock);
        done := done + {id};
        todo := todo - {id};
        if crashed { return; }
      }
    }

    /** The second loop, over the users on hold when it begins. */
    method ReviewOnHolds(ghost s: State, ghost first: set<UserId>, now: real, clock: UserId -> real)
      returns (crashed: bool, ghost done: set<UserId>)
      requires first <= s.users.Keys && Value() == Reviewed(s, now, clock, first)
      requires forall id :: id in s.users && s.users[id].status.Active? <==> id in first
      requires forall id :: id in first ==> !Crashes(s.users[id], now, clock(id))
      modifies this
      ensures done <= s.users.Keys && Value() == Reviewed(s, now, clock, done)
      ensures crashed <==> exists id :: id in done && Crashes(s.users[id], now, clock(id))
      ensures !crashed ==> forall id :: id in s.users && s.users[id].Live() <==> id in done
    {
      JudgedActive(s.users, now, clock, first);
      var held := set id | id in users && users[id].status.OnHold?;
      crashed, done := ReviewAllHeld(s, first, held, now, clock);
    }

    /** `review`: all active users, then all users on hold, in any order; an
        exception ends the pass where it is. */
    method Review(now: real, clock: UserId -> real) returns (crashed: bool, ghost done: set<UserId>)
      modifies this
      ensures Value() == Reviewed(old(Value()), now, clock, done)
      ensures crashed <==> exists id :: id in old(users) && Crashes(old(users)[id], now, clock(id))
      ensures !crashed ==> old(users).Keys <= done
    {
      ghost var s := Value();
      crashed, done := ReviewActives(now, clock);
      if crashed { return; }
      crashed, done := ReviewOnHolds(s, done, now, clock);
      if crashed { return; }
      RestUntouched(s, now, clock, done);
      done := done + s.users.Keys;
    }
  }

  /** The first loop leaves nobody on hold that was not, and changes nobody that
      is. */
  lemma JudgedActive(users: Table, now: real, clock: UserId -> real, done: set<UserId>)
    requires forall id :: id in users && users[id].status.Active? <==> id in done
    ensures var after := Judged(users, now, clock, done);
            forall id :: id in users ==> (after[id].status.OnHold? <==> users[id].status.OnHold?)
  {}

  lemma RestUntouched(s: State, now: real, clock: UserId -> real, done: set<UserId>)
    requires forall id :: id in s.users && s.users[id].Live() <==> id in done
    ensures Reviewed(s, now, clock, done + s.users.Keys) == Reviewed(s, now, clock, done)
    ensures forall id :: id in s.users && id !in done ==> !Crashes(s.users[id], now, clock(id))
  {
    assert Judged(s.users, now, clock, done + s.users.Keys) == Judged(s.users, now, clock, done);
    assert Fired(s.users, now, clock, done + s.users.Keys) == Fired(s.users, now, clock, done);
  }
}
