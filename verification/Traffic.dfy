/** The sums behind traffic accounting: dictionaries that accumulate, the charge
    of one report with its coefficient, and the hourly rows. */
module Traffic {
  import opened Text
  import opened Users

  type NodeId = nat

  // --------------------------------------- a dictionary that accumulates values

  /** `defaultdict(int)` in insertion order. */
  datatype Item<+K> = Item(key: K, value: int)

  /** `d[key] += value`. */
  function Add<K(==)>(d: seq<Item<K>>, key: K, value: int): (r: seq<Item<K>>)
    ensures r != []
  {
    if d == [] then [Item(key, value)]
    else if d[0].key == key then [Item(key, d[0].value + value)] + d[1..]
    else [d[0]] + Add(d[1..], key, value)
  }

  function Lookup<K(==)>(d: seq<Item<K>>, key: K): int {
    if d == [] then 0 else if d[0].key == key then d[0].value else Lookup(d[1..], key)
  }

  predicate Has<K(==)>(d: seq<Item<K>>, key: K) {
    d != [] && (d[0].key == key || Has(d[1..], key))
  }

  predicate DistinctKeys<K(==)>(d: seq<Item<K>>) {
    d == [] || (!Has(d[1..], d[0].key) && DistinctKeys(d[1..]))
  }

  lemma {:induction false} AddLookup<K>(d: seq<Item<K>>, key: K, value: int, k: K)
    ensures Lookup(Add(d, key, value), k) == Lookup(d, k) + (if k == key then value else 0)
    ensures Has(Add(d, key, value), k) <==> Has(d, k) || k == key
  {
    if d != [] && d[0].key != key {
      AddLookup(d[1..], key, value, k);
      assert ([d[0]] + Add(d[1..], key, value))[1..] == Add(d[1..], key, value);
    } else if d != [] {
      assert ([Item(key, d[0].value + value)] + d[1..])[1..] == d[1..];
    }
  }

  lemma {:induction false} AddDistinct<K>(d: seq<Item<K>>, key: K, value: int)
    requires DistinctKeys(d)
    ensures DistinctKeys(Add(d, key, value))
  {
    if d != [] && d[0].key != key {
      AddDistinct(d[1..], key, value);
      AddLookup(d[1..], key, value, d[0].key);
      assert ([d[0]] + Add(d[1..], key, value))[1..] == Add(d[1..], key, value);
    } else if d != [] {
      assert ([Item(key, d[0].value + value)] + d[1..])[1..] == d[1..];
    }
  }

  lemma {:induction false} LookupAt<K>(d: seq<Item<K>>, i: nat)
    requires DistinctKeys(d) && i < |d|
    ensures Has(d, d[i].key) && Lookup(d, d[i].key) == d[i].value
  {
    if i > 0 {
      LookupAt(d[1..], i - 1);
      assert d[1..][i - 1] == d[i];
    }
  }

  lemma {:induction false} AbsentIsZero<K>(d: seq<Item<K>>, key: K)
    requires !Has(d, key)
    ensures Lookup(d, key) == 0
  {
    if d != [] { AbsentIsZero(d[1..], key); }
  }

  // ------------------------------------------------------ statistics of one core

  datatype Stat = Stat(name: string, value: nat)

  /** The traffic a core reports under one prefix. */
  function StatTotal(stats: seq<Stat>, prefix: string): int {
    if stats == [] then 0
    else
      var s := stats[|stats| - 1];
      StatTotal(stats[..|stats| - 1], prefix) + (if EmailPrefix(s.name) == prefix then s.value else 0)
  }

  predicate Reports(stats: seq<Stat>, prefix: string) {
    exists s <- stats :: s.value != 0 && EmailPrefix(s.name) == prefix
  }

  /** Every reported prefix once, with the sum of all its counters. */
  ghost predicate StatsAre(params: seq<Item<string>>, stats: seq<Stat>) {
    && DistinctKeys(params)
    && (forall prefix :: Lookup(params, prefix) == StatTotal(stats, prefix))
    && (forall prefix :: Has(params, prefix) <==> Reports(stats, prefix))
  }

  /** `get_users_stats` on what the core answered: every user once, with all its
      counters added up; users without traffic are not mentioned. */
  method GetUsersStats(stats: seq<Stat>) returns (params: seq<Item<string>>)
    ensures StatsAre(params, stats)
  {
    params := [];
    for i := 0 to |stats|
      invariant StatsAre(params, stats[..i])
    {
      var s := stats[i];
      TakeNext(stats, i);
      StatsNext(stats[..i], s);
      if s.value != 0 {
        var uid := EmailPrefix(s.name);
        AddDistinct(params, uid, s.value);
        forall prefix ensures Lookup(Add(params, uid, s.value), prefix) ==
                              Lookup(params, prefix) + (if prefix == uid then s.value else 0)
                      ensures Has(Add(params, uid, s.value), prefix) <==> Has(params, prefix) || prefix == uid {
          AddLookup(params, uid, s.value, prefix);
        }
        params := Add(params, uid, s.value);
      }
    }
    assert stats[..|stats|] == stats;
  }

  lemma StatsNext(stats: seq<Stat>, s: Stat)
    ensures forall prefix ::
              StatTotal(stats + [s], prefix) ==
              StatTotal(stats, prefix) + (if EmailPrefix(s.name) == prefix then s.value else 0)
    ensures forall prefix ::
              Reports(stats + [s], prefix) <==>
              Reports(stats, prefix) || (s.value != 0 && EmailPrefix(s.name) == prefix)
  {
    assert (stats + [s])[..|stats|] == stats;
    forall prefix
      ensures Reports(stats + [s], prefix) <==>
              Reports(stats, prefix) || (s.value != 0 && EmailPrefix(s.name) == prefix)
    {
      assert forall x :: x in stats + [s] <==> x in stats || x == s;
    }
  }

  /** A counter of a core, by the account that owns it. */
  datatype Counter = Counter(id: UserId, username: string, value: nat)

  function StatsOf(counters: seq<Counter>): (stats: seq<Stat>)
    ensures |stats| == |counters|
  {
    if counters == [] then []
    else
      var c := counters[|counters| - 1];
      StatsOf(counters[..|counters| - 1]) + [Stat(Email(c.id, c.username), c.value)]
  }

  function CounterTotal(counters: seq<Counter>, id: UserId): int {
    if counters == [] then 0
    else
      var c := counters[|counters| - 1];
      CounterTotal(counters[..|counters| - 1], id) + (if c.id == id then c.value else 0)
  }

  /** The text before the first dot finds the owner again, dots in names or not:
      each user is charged its own counters and nobody else's. */
  lemma {:induction false} StatsFindOwner(counters: seq<Counter>, id: UserId)
    ensures StatTotal(StatsOf(counters), Decimal(id)) == CounterTotal(counters, id)
  {
    if counters != [] {
      var init, c := counters[..|counters| - 1], counters[|counters| - 1];
      StatsFindOwner(init, id);
      EmailPrefixIsId(c.id, c.username);
      if Decimal(c.id) == Decimal(id) { DecimalInjective(c.id, id); }
      assert StatsOf(counters)[..|init|] == StatsOf(init);
    }
  }

  // ------------------------------------------------------------- one report

  datatype Entry = Entry(uid: UserId, value: nat)

  /** What one core reported: its node, None for the main one, its coefficient,
      and the hour in which its rows are written. */
  datatype Report = Report(node: Option<NodeId>, coefficient: real, hour: int, entries: seq<Entry>)

  /** `int(x)`. */
  function Truncate(x: real): int {
    if x >= 0.0 then x.Floor else -((-x).Floor)
  }

  function Weight(bytes: int, coefficient: real): real {
    bytes as real * coefficient
  }

  function Exact(e: Entry, coefficient: real): real {
    Weight(e.value, coefficient)
  }

  /** Bytes charged to a user's counter by one report. */
  function Charged(r: Report, n: nat, uid: UserId): int
    requires n <= |r.entries|
  {
    if n == 0 then 0
    else
      var e := r.entries[n - 1];
      Charged(r, n - 1, uid) + (if e.uid == uid then Truncate(Exact(e, r.coefficient)) else 0)
  }

  function Mentions(r: Report, n: nat, uid: UserId): nat
    requires n <= |r.entries|
  {
    if n == 0 then 0 else Mentions(r, n - 1, uid) + (if r.entries[n - 1].uid == uid then 1 else 0)
  }

  // ----------------------------------------------- from a core's counters to charges

  /** `int(uid)`, for the identities the panel gives out. */
  function IdOf(uid: string): UserId {
    if forall c :: c in uid ==> IsDigit(c) then DecimalValue(uid) else 0
  }

  /** The entries of a report, from the list of statistics. */
  function ToEntries(params: seq<Item<string>>): (entries: seq<Entry>)
    ensures |entries| == |params|
  {
    seq(|params|, i requires 0 <= i < |params| =>
      Entry(IdOf(params[i].key), if params[i].value >= 0 then params[i].value else 0))
  }

  lemma {:induction false} StatTotalPositive(stats: seq<Stat>, prefix: string)
    ensures StatTotal(stats, prefix) >= 0
  {
    if stats != [] { StatTotalPositive(stats[..|stats| - 1], prefix); }
  }

  lemma {:induction false} StatsOfNames(counters: seq<Counter>, s: Stat) returns (c: Counter)
    requires s in StatsOf(counters)
    ensures EmailPrefix(s.name) == Decimal(c.id)
  {
    c := counters[|counters| - 1];
    if s == Stat(Email(c.id, c.username), c.value) {
      EmailPrefixIsId(c.id, c.username);
    } else {
      c := StatsOfNames(counters[..|counters| - 1], s);
    }
  }

  /** One entry of the list: its key is a printed id, its value that id's total. */
  lemma ParamIs(params: seq<Item<string>>, counters: seq<Counter>, i: nat)
    requires StatsAre(params, StatsOf(counters)) && i < |params|
    ensures var e := ToEntries(params)[i];
            params[i].key == Decimal(e.uid) && e.value == params[i].value == CounterTotal(counters, e.uid)
  {
    LookupAt(params, i);
    assert Reports(StatsOf(counters), params[i].key);
    var s :| s in StatsOf(counters) && s.value != 0 && EmailPrefix(s.name) == params[i].key;
    var c := StatsOfNames(counters, s);
    DecimalRoundTrip(c.id);
    StatsFindOwner(counters, c.id);
    StatTotalPositive(StatsOf(counters), params[i].key);
  }

  lemma {:induction false} KeysDiffer<K>(d: seq<Item<K>>, i: nat, j: nat)
    requires DistinctKeys(d) && i < j < |d|
    ensures d[i].key != d[j].key
  {
    if i == 0 {
      LookupAt(d[1..], j - 1);
      assert d[1..][j - 1] == d[j];
    } else {
      KeysDiffer(d[1..], i - 1, j - 1);
      assert d[1..][i - 1] == d[i] && d[1..][j - 1] == d[j];
    }
  }

  predicate DistinctUsers(entries: seq<Entry>) {
    forall i, j :: 0 <= i < j < |entries| ==> entries[i].uid != entries[j].uid
  }

  lemma {:induction false} ChargedNone(r: Report, n: nat, uid: UserId)
    requires n <= |r.entries| && forall i :: 0 <= i < n ==> r.entries[i].uid != uid
    ensures Charged(r, n, uid) == 0
  {
    if n > 0 { ChargedNone(r, n - 1, uid); }
  }

  /** A user with one entry is charged for that one. */
  lemma {:induction false} ChargedAt(r: Report, n: nat, k: nat)
    requires k < n <= |r.entries| && DistinctUsers(r.entries)
    ensures Charged(r, n, r.entries[k].uid) == Truncate(Exact(r.entries[k], r.coefficient))
  {
    if k == n - 1 {
      ChargedNone(r, n - 1, r.entries[k].uid);
    } else {
      ChargedAt(r, n - 1, k);
    }
  }

  lemma EntriesDistinct(params: seq<Item<string>>, counters: seq<Counter>)
    requires StatsAre(params, StatsOf(counters))
    ensures DistinctUsers(ToEntries(params))
  {
    var entries := ToEntries(params);
    forall i, j | 0 <= i < j < |entries| ensures entries[i].uid != entries[j].uid {
      ParamIs(params, counters, i);
      ParamIs(params, counters, j);
      KeysDiffer(params, i, j);
    }
  }

  lemma NoEntry(params: seq<Item<string>>, counters: seq<Counter>, uid: UserId)
    requires StatsAre(params, StatsOf(counters)) && !Has(params, Decimal(uid))
    ensures CounterTotal(counters, uid) == 0
    ensures forall i :: 0 <= i < |params| ==> ToEntries(params)[i].uid != uid
  {
    StatsFindOwner(counters, uid);
    AbsentIsZero(params, Decimal(uid));
    forall i | 0 <= i < |params| ensures ToEntries(params)[i].uid != uid {
      ParamIs(params, counters, i);
      LookupAt(params, i);
    }
  }

  /** What a core's report charges a user: its own counters there, added up,
      weighted and cut to whole bytes once. */
  lemma EntriesCharge(r: Report, params: seq<Item<string>>, counters: seq<Counter>, uid: UserId)
    requires StatsAre(params, StatsOf(counters)) && r.entries == ToEntries(params)
    ensures Charged(r, |r.entries|, uid) == Truncate(Weight(CounterTotal(counters, uid), r.coefficient))
  {
    if Has(params, Decimal(uid)) {
      var i := IndexOf(params, Decimal(uid));
      ParamIs(params, counters, i);
      DecimalInjective(uid, r.entries[i].uid);
      EntriesDistinct(params, counters);
      ChargedAt(r, |r.entries|, i);
    } else {
      NoEntry(params, counters, uid);
      ChargedNone(r, |r.entries|, uid);
    }
  }

  lemma {:induction false} IndexOf<K>(d: seq<Item<K>>, key: K) returns (i: nat)
    requires Has(d, key)
    ensures i < |d| && d[i].key == key
  {
    if d[0].key == key {
      i := 0;
    } else {
      i := IndexOf(d[1..], key);
      i := i + 1;
    }
  }

  // ------------------------------------------------------------------ hourly rows

  datatype Key = Key(hour: int, user: UserId, node: Option<NodeId>)

  datatype Row = Row(key: Key, used: real)

  function KeyOf(r: Report, uid: UserId): Key {
    Key(r.hour, uid, r.node)
  }

  function CountKey(rows: seq<Row>, key: Key): nat {
    if rows == [] then 0 else CountKey(rows[..|rows| - 1], key) + (if rows[|rows| - 1].key == key then 1 else 0)
  }

  /** At most one row for an hour, a user and a node, the null node included. */
  ghost predicate Unique(rows: seq<Row>) {
    forall key :: CountKey(rows, key) <= 1
  }

  /** The traffic in the rows whose key a test picks. */
  function Total(rows: seq<Row>, test: Key -> bool): real {
    if rows == [] then 0.0
    else Total(rows[..|rows| - 1], test) + (if test(rows[|rows| - 1].key) then rows[|rows| - 1].used else 0.0)
  }

  function OfUser(uid: UserId): Key -> bool {
    (key: Key) => key.user == uid
  }

  /** The exact, coefficient-weighted traffic a report puts in picked rows. */
  function Weighed(r: Report, n: nat, test: Key -> bool): real
    requires n <= |r.entries|
  {
    if n == 0 then 0.0
    else
      var e := r.entries[n - 1];
      Weighed(r, n - 1, test) + (if test(KeyOf(r, e.uid)) then Exact(e, r.coefficient) else 0.0)
  }

  /** One entry: its bytes times the coefficient of the core, cut toward zero for the
      user's counter and exact in the row of the report's hour and node. */
  lemma OneEntry(r: Report, uid: UserId, bytes: nat, test: Key -> bool)
    requires r.entries == [Entry(uid, bytes)]
    ensures var exact := bytes as real * r.coefficient;
            && Charged(r, 1, uid) == (if exact >= 0.0 then exact.Floor else -(-exact).Floor)
            && Weighed(r, 1, test) == (if test(Key(r.hour, uid, r.node)) then exact else 0.0)
            && Mentions(r, 1, uid) == 1
    ensures forall other :: other != uid ==> Charged(r, 1, other) == 0 && Mentions(r, 1, other) == 0
  {
    var e := r.entries[0];
    assert Charged(r, 0, uid) == 0 && Mentions(r, 0, uid) == 0 && Weighed(r, 0, test) == 0.0;
    forall other | other != uid ensures Charged(r, 1, other) == 0 && Mentions(r, 1, other) == 0 {
      assert Charged(r, 0, other) == 0 && Mentions(r, 0, other) == 0;
    }
  }

  lemma RowsNext(rows: seq<Row>, row: Row)
    ensures forall key :: CountKey(rows + [row], key) == CountKey(rows, key) + (if row.key == key then 1 else 0)
    ensures forall test :: Total(rows + [row], test) == Total(rows, test) + (if test(row.key) then row.used else 0.0)
  {
    assert (rows + [row])[..|rows|] == rows;
  }

  /** `UPDATE … SET used_traffic = used_traffic + amount WHERE` the key matches. */
  function Bump(rows: seq<Row>, key: Key, amount: real): (r: seq<Row>)
    ensures |r| == |rows|
  {
    if rows == [] then []
    else
      var init, row := Bump(rows[..|rows| - 1], key, amount), rows[|rows| - 1];
      init + [if row.key == key then row.(used := row.used + amount) else row]
  }

  lemma {:induction false} BumpAbsent(rows: seq<Row>, key: Key, amount: real)
    requires CountKey(rows, key) == 0
    ensures Bump(rows, key, amount) == rows
  {
    if rows != [] {
      BumpAbsent(rows[..|rows| - 1], key, amount);
    }
  }

  lemma {:induction false} BumpCounts(rows: seq<Row>, key: Key, amount: real, k: Key)
    ensures CountKey(Bump(rows, key, amount), k) == CountKey(rows, k)
  {
    if rows != [] {
      var init := rows[..|rows| - 1];
      BumpCounts(init, key, amount, k);
      assert Bump(rows, key, amount)[..|init|] == Bump(init, key, amount);
    }
  }

  /** Adding to the one row of a key adds to every sum that contains it. */
  lemma {:induction false} BumpTotal(rows: seq<Row>, key: Key, amount: real, test: Key -> bool)
    requires CountKey(rows, key) == 1
    ensures Total(Bump(rows, key, amount), test) == Total(rows, test) + (if test(key) then amount else 0.0)
  {
    var init, row := rows[..|rows| - 1], rows[|rows| - 1];
    assert Bump(rows, key, amount)[..|init|] == Bump(init, key, amount);
    if row.key == key {
      BumpAbsent(init, key, amount);
    } else {
      BumpTotal(init, key, amount, test);
    }
  }

  /** `node_usages.clear()`, for a set of users. */
  function Without(rows: seq<Row>, users: set<UserId>): seq<Row> {
    if rows == [] then []
    else
      var init, row := Without(rows[..|rows| - 1], users), rows[|rows| - 1];
      if row.key.user in users then init else init + [row]
  }

  lemma {:induction false} WithoutCounts(rows: seq<Row>, users: set<UserId>, key: Key)
    ensures CountKey(Without(rows, users), key) == if key.user in users then 0 else CountKey(rows, key)
  {
    if rows != [] {
      var init := rows[..|rows| - 1];
      WithoutCounts(init, users, key);
      RowsNext(Without(init, users), rows[|rows| - 1]);
    }
  }

  lemma {:induction false} WithoutTotal(rows: seq<Row>, users: set<UserId>, uid: UserId)
    ensures Total(Without(rows, users), OfUser(uid)) == if uid in users then 0.0 else Total(rows, OfUser(uid))
  {
    if rows != [] {
      var init := rows[..|rows| - 1];
      WithoutTotal(init, users, uid);
      RowsNext(Without(init, users), rows[|rows| - 1]);
    }
  }

  lemma {:induction false} WithoutTwice(rows: seq<Row>, a: set<UserId>, b: set<UserId>)
    ensures Without(Without(rows, a), b) == Without(rows, a + b)
  {
    if rows != [] {
      var init, row := rows[..|rows| - 1], rows[|rows| - 1];
      WithoutTwice(init, a, b);
      if row.key.user !in a {
        assert (Without(init, a) + [row])[..|Without(init, a)|] == Without(init, a);
      }
    }
  }

  lemma {:induction false} WithoutNobody(rows: seq<Row>)
    ensures Without(rows, {}) == rows
  {
    if rows != [] { WithoutNobody(rows[..|rows| - 1]); }
  }

  lemma WithoutUnique(rows: seq<Row>, users: set<UserId>)
    requires Unique(rows)
    ensures Unique(Without(rows, users))
  {
    forall key ensures CountKey(Without(rows, users), key) <= 1 {
      WithoutCounts(rows, users, key);
    }
  }

  // --------------------------------------------------- writing one core's rows

  predicate Named(r: Report, n: nat, uid: UserId)
    requires n <= |r.entries|
  {
    exists i :: 0 <= i < n && r.entries[i].uid == uid
  }

  lemma NamedNext(r: Report, n: nat)
    requires n < |r.entries|
    ensures forall uid :: Named(r, n + 1, uid) <==> Named(r, n, uid) || uid == r.entries[n].uid
  {
    forall uid ensures Named(r, n + 1, uid) <==> Named(r, n, uid) || uid == r.entries[n].uid {
      if uid == r.entries[n].uid {
        assert 0 <= n < n + 1 && r.entries[n].uid == uid;
      }
    }
  }

  /** A report gives this key a row. */
  predicate Covers(r: Report, key: Key) {
    Named(r, |r.entries|, key.user) && key == KeyOf(r, key.user)
  }

  /** The users that already have a row for the node and the hour. */
  method Existing(rows: seq<Row>, r: Report) returns (uids: set<UserId>)
    ensures forall uid :: uid in uids <==> CountKey(rows, KeyOf(r, uid)) > 0
  {
    uids := {};
    for i := 0 to |rows|
      invariant forall uid :: uid in uids <==> CountKey(rows[..i], KeyOf(r, uid)) > 0
    {
      TakeNext(rows, i);
      RowsNext(rows[..i], rows[i]);
      if rows[i].key.node == r.node && rows[i].key.hour == r.hour {
        uids := uids + {rows[i].key.user};
      }
    }
    assert rows[..|rows|] == rows;
  }

  /** The first half of `record_user_stats`: a row at zero for every reported user
      that has none yet, once however often the user is reported. */
  method InsertMissing(rows: seq<Row>, r: Report) returns (rows': seq<Row>)
    requires Unique(rows)
    ensures Unique(rows')
    ensures forall test :: Total(rows', test) == Total(rows, test)
    ensures forall key :: CountKey(rows', key) == if Covers(r, key) then 1 else CountKey(rows, key)
  {
    var existing := Existing(rows, r);
    var missing: set<UserId> := {};
    for i := 0 to |r.entries|
      invariant forall uid :: uid in missing <==> Named(r, i, uid) && uid !in existing
    {
      var uid := r.entries[i].uid;
      NamedNext(r, i);
      if uid !in existing {
        missing := missing + {uid};
      }
    }
    rows' := InsertAll(rows, r, missing);
  }

  method InsertAll(rows: seq<Row>, r: Report, missing: set<UserId>) returns (rows': seq<Row>)
    requires forall uid <- missing :: CountKey(rows, KeyOf(r, uid)) == 0
    ensures forall test :: Total(rows', test) == Total(rows, test)
    ensures forall key ::
              CountKey(rows', key) ==
              if key.user in missing && key == KeyOf(r, key.user) then 1 else CountKey(rows, key)
  {
    rows' := rows;
    var todo := missing;
    while todo != {}
      invariant todo <= missing
      invariant forall test :: Total(rows', test) == Total(rows, test)
      invariant forall key ::
        CountKey(rows', key) ==
        if key.user in missing - todo && key == KeyOf(r, key.user) then 1 else CountKey(rows, key)
      decreases |todo|
    {
      var uid :| uid in todo;
      RowsNext(rows', Row(KeyOf(r, uid), 0.0));
      rows' := rows' + [Row(KeyOf(r, uid), 0.0)];
      todo := todo - {uid};
    }
  }

  /** The second half: every entry is added to its row. */
  method AddUsage(rows: seq<Row>, r: Report) returns (rows': seq<Row>)
    requires forall i :: 0 <= i < |r.entries| ==> CountKey(rows, KeyOf(r, r.entries[i].uid)) == 1
    ensures forall key :: CountKey(rows', key) == CountKey(rows, key)
    ensures forall test :: Total(rows', test) == Total(rows, test) + Weighed(r, |r.entries|, test)
  {
    rows' := rows;
    for i := 0 to |r.entries|
      invariant forall key :: CountKey(rows', key) == CountKey(rows, key)
      invariant forall test :: Total(rows', test) == Total(rows, test) + Weighed(r, i, test)
    {
      var e := r.entries[i];
      BumpAll(rows', KeyOf(r, e.uid), Exact(e, r.coefficient));
      rows' := Bump(rows', KeyOf(r, e.uid), Exact(e, r.coefficient));
    }
  }

  lemma BumpAll(rows: seq<Row>, key: Key, amount: real)
    requires CountKey(rows, key) == 1
    ensures forall k :: CountKey(Bump(rows, key, amount), k) == CountKey(rows, k)
    ensures forall test ::
              Total(Bump(rows, key, amount), test) == Total(rows, test) + (if test(key) then amount else 0.0)
  {
    forall k ensures CountKey(Bump(rows, key, amount), k) == CountKey(rows, k) {
      BumpCounts(rows, key, amount, k);
    }
    forall test ensures Total(Bump(rows, key, amount), test) ==
                        Total(rows, test) + (if test(key) then amount else 0.0) {
      BumpTotal(rows, key, amount, test);
    }
  }

  /** What `record_user_stats` makes of the rows: one row for every reported user
      in that hour at that node, nothing else added or removed, and every sum
      grown by exactly the weighed traffic that falls into it. */
  ghost predicate RowsAfter(rows: seq<Row>, r: Report, rows': seq<Row>) {
    && (forall key :: CountKey(rows', key) == if Covers(r, key) then 1 else CountKey(rows, key))
    && (forall test :: Total(rows', test) == Total(rows, test) + Weighed(r, |r.entries|, test))
  }

  /** `record_user_stats`. */
  method RecordUserStats(rows: seq<Row>, r: Report) returns (rows': seq<Row>)
    requires Unique(rows)
    ensures Unique(rows') && RowsAfter(rows, r, rows')
  {
    if r.entries == [] { return rows; }
    var with := InsertMissing(rows, r);
    forall i | 0 <= i < |r.entries| ensures CountKey(with, KeyOf(r, r.entries[i].uid)) == 1 {
      assert Named(r, |r.entries|, r.entries[i].uid);
    }
    rows' := AddUsage(with, r);
  }
}
