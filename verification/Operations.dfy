/** The incremental calls: add, update and remove one user on every core, each
    by spawning one thread per core and inbound tag. */
module Operations {
  import opened Text
  import opened Users
  import opened Schedules
  import opened XrayConfig

  type AccountThread = Thread<Cell, Account>

  /** The account `update_user` sends; its flow rule forgets "raw". */
  function UpdateAccount(i: Inbound, u: User): Account
    requires Carries(i, u)
  {
    Account(u.Mail(), UpdateSettings(i, u.proxies[i.protocol].settings))
  }

  datatype Call = AddCall(user: User) | UpdateCall(user: User) | RemoveCall(user: User) {
    /** The inbounds the call reaches. */
    predicate Reaches(i: Inbound) {
      AddCall? ==> Carries(i, user)
    }

    /** What its thread does on one of them. */
    function Ops(i: Inbound): seq<Op<Account>>
      requires Reaches(i)
    {
      match this
      case AddCall(u) => [Add(AccountOn(i, u))]
      case UpdateCall(u) => if Carries(i, u) then [Remove, Add(UpdateAccount(i, u))] else [Remove]
      case RemoveCall(u) => [Remove]
    }
  }

  predicate DistinctCores(cores: seq<CoreId>) {
    forall k, l :: 0 <= k < l < |cores| ==> cores[k] != cores[l]
  }

  /** These threads do, on every core, what the call does on these inbounds. */
  ghost predicate Realises(threads: seq<AccountThread>, done: set<Inbound>, cores: seq<CoreId>, email: string,
                           call: Call) {
    && DistinctCells(threads)
    && (forall t :: t in threads ==> Serves(t, done, cores, email, call))
    && (forall i :: i in done ==> Covers(threads, i.tag, cores, email))
  }

  ghost predicate SpawnedBy(threads: seq<AccountThread>, inbounds: seq<Inbound>, cores: seq<CoreId>, call: Call) {
    Realises(threads, (set i | i in inbounds && call.Reaches(i)), cores, call.user.Mail(), call)
  }

  // ------------------------------------------------------------------ spawning

  /** One thread per core for one inbound. */
  function OnCores(cores: seq<CoreId>, tag: Tag, email: string, ops: seq<Op<Account>>): seq<AccountThread> {
    seq(|cores|, k requires 0 <= k < |cores| => Thread(Cell(cores[k], tag, email), ops))
  }

  method SpawnOnCores(cores: seq<CoreId>, tag: Tag, email: string, ops: seq<Op<Account>>)
    returns (threads: seq<AccountThread>)
    ensures threads == OnCores(cores, tag, email, ops)
  {
    threads := [];
    for k := 0 to |cores|
      invariant threads == OnCores(cores[..k], tag, email, ops)
    {
      threads := threads + [Thread(Cell(cores[k], tag, email), ops)];
    }
    assert cores[..|cores|] == cores;
  }

  /** The body of the inner loops: build the account, drop a flow the inbound
      does not carry. */
  method ThreadBody(call: Call, i: Inbound) returns (ops: seq<Op<Account>>)
    requires call.Reaches(i)
    ensures ops == call.Ops(i)
  {
    if call.RemoveCall? || !Carries(i, call.user) { return [Remove]; }
    var s := call.user.proxies[i.protocol].settings;
    if call.AddCall? {
      if s.Flow() != "" && !i.KeepsFlow() { s := s.WithoutFlow(); }
      return [Add(Account(call.user.Mail(), s))];
    }
    if s.Flow() != "" && !i.UpdateKeepsFlow() { s := s.WithoutFlow(); }
    return [Remove, Add(Account(call.user.Mail(), s))];
  }

  lemma OnCoresDistinct(threads: seq<AccountThread>, cores: seq<CoreId>, tag: Tag, email: string, ops: seq<Op<Account>>)
    requires DistinctCells(threads) && DistinctCores(cores)
    requires forall t :: t in threads ==> t.cell.tag != tag
    ensures DistinctCells(threads + OnCores(cores, tag, email, ops))
  {
    var all := threads + OnCores(cores, tag, email, ops);
    forall k, l | 0 <= k < l < |all| ensures all[k].cell != all[l].cell {
      if k < |threads| <= l {
        assert all[k] in threads;
      }
    }
  }

  ghost predicate Covers(threads: seq<AccountThread>, tag: Tag, cores: seq<CoreId>, email: string) {
    forall c :: c in cores ==> exists t :: t in threads && t.cell == Cell(c, tag, email)
  }

  lemma OnCoresCover(threads: seq<AccountThread>, cores: seq<CoreId>, tag: Tag, email: string, ops: seq<Op<Account>>)
    ensures Covers(threads + OnCores(cores, tag, email, ops), tag, cores, email)
  {
    var block := OnCores(cores, tag, email, ops);
    forall c | c in cores ensures exists t :: t in threads + block && t.cell == Cell(c, tag, email) {
      var k :| 0 <= k < |cores| && cores[k] == c;
      assert (threads + block)[|threads| + k] == block[k];
    }
  }

  lemma CoversMore(threads: seq<AccountThread>, more: seq<AccountThread>, tag: Tag, cores: seq<CoreId>, email: string)
    requires Covers(threads, tag, cores, email)
    ensures Covers(threads + more, tag, cores, email)
  {
    forall c | c in cores ensures exists t :: t in threads + more && t.cell == Cell(c, tag, email) {
      var t :| t in threads && t.cell == Cell(c, tag, email);
      assert t in threads + more;
    }
  }

  /** A thread that does what the call does on one of these inbounds. */
  ghost predicate Serves(t: AccountThread, done: set<Inbound>, cores: seq<CoreId>, email: string, call: Call) {
    t.cell.core in cores && t.cell.email == email &&
    exists i :: i in done && i.tag == t.cell.tag && call.Reaches(i) && t.ops == call.Ops(i)
  }

  lemma ServesMore(t: AccountThread, done: set<Inbound>, cores: seq<CoreId>, email: string, call: Call, i: Inbound)
    requires Serves(t, done, cores, email, call)
    ensures Serves(t, done + {i}, cores, email, call)
  {
    var j :| j in done && j.tag == t.cell.tag && call.Reaches(j) && t.ops == call.Ops(j);
    assert j in done + {i};
  }

  lemma RealisesMore(threads: seq<AccountThread>, done: set<Inbound>, cores: seq<CoreId>, email: string, call: Call,
                     i: Inbound)
    requires Realises(threads, done, cores, email, call) && DistinctCores(cores) && call.Reaches(i)
    requires forall j :: j in done ==> j.tag != i.tag
    ensures Realises(threads + OnCores(cores, i.tag, email, call.Ops(i)), done + {i}, cores, email, call)
  {
    var block := OnCores(cores, i.tag, email, call.Ops(i));
    forall t | t in threads ensures t.cell.tag != i.tag {
      var j :| j in done && j.tag == t.cell.tag && call.Reaches(j) && t.ops == call.Ops(j);
    }
    OnCoresDistinct(threads, cores, i.tag, email, call.Ops(i));
    forall t | t in threads + block ensures Serves(t, done + {i}, cores, email, call) {
      if t in threads {
        ServesMore(t, done, cores, email, call, i);
      } else {
        assert t in block && i in done + {i};
      }
    }
    forall j | j in done + {i} ensures Covers(threads + block, j.tag, cores, email) {
      if j in done {
        CoversMore(threads, block, j.tag, cores, email);
      } else {
        OnCoresCover(threads, cores, i.tag, email, call.Ops(i));
      }
    }
  }

  /** `User.inbounds` of models.py: the tags of a protocol a proxy may use. */
  function EnabledTags(inbounds: seq<Inbound>, excluded: seq<Tag>): (tags: seq<Tag>)
    ensures forall t :: t in tags <==> exists i :: i in inbounds && i.tag == t && t !in excluded
  {
    if inbounds == [] then []
    else
      var before := EnabledTags(inbounds[..|inbounds| - 1], excluded);
      var last := inbounds[|inbounds| - 1];
      assert inbounds == inbounds[..|inbounds| - 1] + [last];
      if last.tag in excluded then before else before + [last.tag]
  }

  lemma {:induction false} EnabledTagsDistinct(inbounds: seq<Inbound>, excluded: seq<Tag>)
    requires DistinctTags(inbounds)
    ensures Distinct(EnabledTags(inbounds, excluded))
  {
    if inbounds != [] {
      var before := inbounds[..|inbounds| - 1];
      EnabledTagsDistinct(before, excluded);
      var tags := EnabledTags(before, excluded);
      forall t | t in tags ensures t != inbounds[|inbounds| - 1].tag {
        var i :| i in before && i.tag == t && t !in excluded;
      }
    }
  }

  ghost function ByTags(byTag: map<Tag, Inbound>, tags: seq<Tag>): set<Inbound>
    requires forall t :: t in tags ==> t in byTag
  {
    set t | t in tags :: byTag[t]
  }

  lemma ByTagsStep(byTag: map<Tag, Inbound>, tags: seq<Tag>, k: nat)
    requires k < |tags| && Distinct(tags)
    requires forall t :: t in tags ==> t in byTag && byTag[t].tag == t
    ensures ByTags(byTag, tags[..k + 1]) == ByTags(byTag, tags[..k]) + {byTag[tags[k]]}
    ensures forall i :: i in ByTags(byTag, tags[..k]) ==> i.tag != tags[k]
  {
    assert tags[..k + 1] == tags[..k] + [tags[k]];
    forall t | t in tags[..k] ensures t != tags[k] {
      var l :| 0 <= l < k && tags[l] == t;
    }
  }

  /** Spawn the call's threads for a list of tags, looked up by tag. */
  method SpawnTags(config: Config, tags: seq<Tag>, cores: seq<CoreId>, email: string, call: Call,
                   before: seq<AccountThread>, ghost done: set<Inbound>)
    returns (threads: seq<AccountThread>)
    requires config.Indexed() && DistinctCores(cores)
    requires Distinct(tags)
    requires forall t :: t in tags ==> t in config.byTag && call.Reaches(config.byTag[t])
    requires forall t, i :: t in tags && i in done ==> i.tag != t
    requires Realises(before, done, cores, email, call)
    ensures Realises(threads, done + ByTags(config.byTag, tags), cores, email, call)
  {
    threads := before;
    ghost var seen := done;
    for k := 0 to |tags|
      invariant seen == done + ByTags(config.byTag, tags[..k])
      invariant Realises(threads, seen, cores, email, call)
    {
      var i := config.byTag[tags[k]];
      ByTagsStep(config.byTag, tags, k);
      var ops := ThreadBody(call, i);
      var block := SpawnOnCores(cores, i.tag, email, ops);
      RealisesMore(threads, seen, cores, email, call, i);
      threads, seen := threads + block, seen + {i};
    }
    assert tags[..|tags|] == tags;
  }

  /** The tags of one protocol this user may use, as the outer loop sees them. */
  method TagsOfType(config: Config, u: User, p: ProxyType) returns (tags: seq<Tag>)
    requires config.Indexed() && DistinctTags(config.inbounds) && p in u.proxies
    ensures Distinct(tags)
    ensures forall t :: t in tags ==> t in config.byTag && config.byTag[t].protocol == p && Carries(config.byTag[t], u)
    ensures forall i :: i in config.inbounds && i.protocol == p && Carries(i, u) ==> i.tag in tags
  {
    if p !in config.byProtocol {
      tags := [];
    } else {
      OfProtocolDistinct(config.inbounds, p);
      EnabledTagsDistinct(config.byProtocol[p], u.proxies[p].excluded);
      tags := EnabledTags(config.byProtocol[p], u.proxies[p].excluded);
      forall t | t in tags
        ensures t in config.byTag && config.byTag[t].protocol == p && Carries(config.byTag[t], u)
      {
        var i :| i in config.byProtocol[p] && i.tag == t && t !in u.proxies[p].excluded;
        TagOwner(config.inbounds, i, config.byTag[t]);
      }
    }
  }

  ghost function CarriedBy(inbounds: seq<Inbound>, u: User, types: set<ProxyType>): set<Inbound> {
    set i | i in inbounds && Carries(i, u) && i.protocol in types
  }

  lemma CarriedByStep(inbounds: seq<Inbound>, byTag: map<Tag, Inbound>, u: User, types: set<ProxyType>, p: ProxyType,
                      tags: seq<Tag>)
    requires DistinctTags(inbounds) && p !in types
    requires forall t :: t in byTag ==> byTag[t] in inbounds && byTag[t].tag == t
    requires forall t :: t in tags ==> t in byTag && byTag[t].protocol == p && Carries(byTag[t], u)
    requires forall i :: i in inbounds && i.protocol == p && Carries(i, u) ==> i.tag in tags
    ensures forall t, i :: t in tags && i in CarriedBy(inbounds, u, types) ==> i.tag != t
    ensures CarriedBy(inbounds, u, types + {p}) == CarriedBy(inbounds, u, types) + ByTags(byTag, tags)
    ensures (set i | i in CarriedBy(inbounds, u, types + {p}) :: i.tag) ==
            (set i | i in CarriedBy(inbounds, u, types) :: i.tag) + set t | t in tags
  {
    forall i | i in inbounds && i.tag in byTag ensures byTag[i.tag] == i {
      TagOwner(inbounds, i, byTag[i.tag]);
    }
    var new' := ByTags(byTag, tags);
    assert CarriedBy(inbounds, u, types + {p}) == CarriedBy(inbounds, u, types) + new';
    assert (set i | i in new' :: i.tag) == set t | t in tags;
  }

  ghost function TagsOf(inbounds: set<Inbound>): set<Tag> {
    set i | i in inbounds :: i.tag
  }

  /** One turn of the outer loop: one protocol of the user. */
  method SpawnType(config: Config, cores: seq<CoreId>, email: string, call: Call, p: ProxyType,
                   before: seq<AccountThread>, ghost types: set<ProxyType>)
    returns (threads: seq<AccountThread>, tags: seq<Tag>)
    requires config.Indexed() && DistinctTags(config.inbounds) && DistinctCores(cores)
    requires !call.RemoveCall? && p in call.user.proxies && p !in types
    requires Realises(before, CarriedBy(config.inbounds, call.user, types), cores, email, call)
    ensures Realises(threads, CarriedBy(config.inbounds, call.user, types + {p}), cores, email, call)
    ensures TagsOf(CarriedBy(config.inbounds, call.user, types + {p})) ==
            TagsOf(CarriedBy(config.inbounds, call.user, types)) + set t | t in tags
  {
    if !p.IsXray() {
      assert CarriedBy(config.inbounds, call.user, types + {p}) == CarriedBy(config.inbounds, call.user, types);
      return before, [];
    }
    tags := TagsOfType(config, call.user, p);
    CarriedByStep(config.inbounds, config.byTag, call.user, types, p, tags);
    threads := SpawnTags(config, tags, cores, email, call, before, CarriedBy(config.inbounds, call.user, types));
  }

  /** The outer loop of `add_user` and `update_user`: every protocol of the
      user the core serves, every tag of it. */
  method SpawnTypes(config: Config, cores: seq<CoreId>, email: string, call: Call)
    returns (threads: seq<AccountThread>, active: set<Tag>)
    requires config.Indexed() && DistinctTags(config.inbounds) && DistinctCores(cores) && !call.RemoveCall?
    ensures Realises(threads, CarriedBy(config.inbounds, call.user, call.user.proxies.Keys), cores, email, call)
    ensures active == TagsOf(CarriedBy(config.inbounds, call.user, call.user.proxies.Keys))
  {
    threads, active := [], {};
    var todo := call.user.proxies.Keys;
    ghost var types: set<ProxyType> := {};
    while todo != {}
      invariant types + todo == call.user.proxies.Keys && types !! todo
      invariant Realises(threads, CarriedBy(config.inbounds, call.user, types), cores, email, call)
      invariant active == TagsOf(CarriedBy(config.inbounds, call.user, types))
    {
      var p :| p in todo;
      var tags;
      threads, tags := SpawnType(config, cores, email, call, p, threads, types);
      active := active + set t | t in tags;
      todo, types := todo - {p}, types + {p};
    }
  }

  /** Whatever these threads add goes to an inbound that carries the user, under the
      user's identity, with the kind and the credential of the user's own proxy and
      the flow that inbound lets through. */
  ghost predicate AddsOwn(threads: seq<AccountThread>, byTag: map<Tag, Inbound>, u: User, raw: bool) {
    forall t <- threads :: forall op <- t.ops :: op.Add? ==> IsOwn(t.cell, op.value, byTag, u, raw)
  }

  predicate IsOwn(cell: Cell, a: Account, byTag: map<Tag, Inbound>, u: User, raw: bool) {
    && cell.tag in byTag && Carries(byTag[cell.tag], u)
    && a.email == cell.email == u.Mail()
    && Sent(a.settings, u.proxies[byTag[cell.tag].protocol].settings, byTag[cell.tag], raw)
  }

  lemma SpawnedAddsOwn(threads: seq<AccountThread>, inbounds: seq<Inbound>, byTag: map<Tag, Inbound>,
                       cores: seq<CoreId>, call: Call)
    requires SpawnedBy(threads, inbounds, cores, call) && DistinctTags(inbounds) && !call.RemoveCall?
    requires forall t :: t in byTag ==> byTag[t] in inbounds && byTag[t].tag == t
    requires forall i :: i in inbounds ==> i.tag in byTag
    ensures AddsOwn(threads, byTag, call.user, call.AddCall?)
  {
    var done := set i | i in inbounds && call.Reaches(i);
    forall t <- threads, op <- t.ops | op.Add? ensures IsOwn(t.cell, op.value, byTag, call.user, call.AddCall?) {
      assert Serves(t, done, cores, call.user.Mail(), call);
      var i :| i in done && i.tag == t.cell.tag && call.Reaches(i) && t.ops == call.Ops(i);
      TagOwner(inbounds, i, byTag[t.cell.tag]);
    }
  }

  /** `add_user`. */
  method AddUser(config: Config, cores: seq<CoreId>, u: User) returns (threads: seq<AccountThread>)
    requires config.Indexed() && DistinctTags(config.inbounds) && DistinctCores(cores)
    ensures SpawnedBy(threads, config.inbounds, cores, AddCall(u))
    ensures AddsOwn(threads, config.byTag, u, true)
  {
    var active;
    threads, active := SpawnTypes(config, cores, u.Mail(), AddCall(u));
    assert CarriedBy(config.inbounds, u, u.proxies.Keys) == set i | i in config.inbounds && AddCall(u).Reaches(i);
    SpawnedAddsOwn(threads, config.inbounds, config.byTag, cores, AddCall(u));
  }

  /** The loop over the whole tag index, skipping the tags already served. */
  method SpawnRest(config: Config, cores: seq<CoreId>, email: string, call: Call, active: set<Tag>,
                   before: seq<AccountThread>, ghost done: set<Inbound>)
    returns (threads: seq<AccountThread>)
    requires config.Indexed() && DistinctTags(config.inbounds) && DistinctCores(cores) && !call.AddCall?
    requires done <= (set i | i in config.inbounds) && active == TagsOf(done)
    requires Realises(before, done, cores, email, call)
    ensures Realises(threads, (set i | i in config.inbounds), cores, email, call)
  {
    threads := before;
    var todo := config.byTag.Keys;
    ghost var seen := done;
    assert seen == Seen(config.inbounds, todo, active) by { SeenAtFirst(config.inbounds, todo, done, active); }
    while todo != {}
      invariant todo <= config.byTag.Keys
      invariant seen == Seen(config.inbounds, todo, active)
      invariant Realises(threads, seen, cores, email, call)
    {
      var tag :| tag in todo;
      SeenStep(config.inbounds, config.byTag, todo, active, tag);
      todo := todo - {tag};
      if tag !in active {
        threads := SpawnTags(config, [tag], cores, email, call, threads, seen);
        seen := seen + ByTags(config.byTag, [tag]);
      }
    }
    assert seen == set i | i in config.inbounds;
  }

  ghost function Seen(inbounds: seq<Inbound>, todo: set<Tag>, active: set<Tag>): set<Inbound> {
    set i | i in inbounds && (i.tag !in todo || i.tag in active)
  }

  lemma SeenAtFirst(inbounds: seq<Inbound>, tags: set<Tag>, done: set<Inbound>, active: set<Tag>)
    requires DistinctTags(inbounds) && done <= (set i | i in inbounds) && active == TagsOf(done)
    requires forall i :: i in inbounds ==> i.tag in tags
    ensures done == Seen(inbounds, tags, active)
  {
    forall i | i in inbounds && i.tag in active ensures i in done {
      var j :| j in done && j.tag == i.tag;
      TagOwner(inbounds, i, j);
    }
  }

  lemma SeenStep(inbounds: seq<Inbound>, byTag: map<Tag, Inbound>, todo: set<Tag>, active: set<Tag>, tag: Tag)
    requires DistinctTags(inbounds) && tag in todo && tag in byTag && byTag[tag] in inbounds && byTag[tag].tag == tag
    ensures tag in active ==> Seen(inbounds, todo - {tag}, active) == Seen(inbounds, todo, active)
    ensures tag !in active ==>
              Seen(inbounds, todo - {tag}, active) == Seen(inbounds, todo, active) + ByTags(byTag, [tag])
    ensures tag !in active ==> forall i :: i in Seen(inbounds, todo, active) ==> i.tag != tag
  {
    forall i | i in inbounds && i.tag == tag ensures i == byTag[tag] {
      TagOwner(inbounds, i, byTag[tag]);
    }
  }

  /** `update_user`. */
  method UpdateUser(config: Config, cores: seq<CoreId>, u: User) returns (threads: seq<AccountThread>)
    requires config.Indexed() && DistinctTags(config.inbounds) && DistinctCores(cores)
    ensures SpawnedBy(threads, config.inbounds, cores, UpdateCall(u))
    ensures AddsOwn(threads, config.byTag, u, false)
  {
    var active;
    threads, active := SpawnTypes(config, cores, u.Mail(), UpdateCall(u));
    threads := SpawnRest(config, cores, u.Mail(), UpdateCall(u), active, threads,
                         CarriedBy(config.inbounds, u, u.proxies.Keys));
    assert (set i | i in config.inbounds) == set i | i in config.inbounds && UpdateCall(u).Reaches(i);
    SpawnedAddsOwn(threads, config.inbounds, config.byTag, cores, UpdateCall(u));
  }

  /** `remove_user`. */
  method RemoveUser(config: Config, cores: seq<CoreId>, u: User) returns (threads: seq<AccountThread>)
    requires config.Indexed() && DistinctTags(config.inbounds) && DistinctCores(cores)
    ensures SpawnedBy(threads, config.inbounds, cores, RemoveCall(u))
  {
    threads := SpawnRest(config, cores, u.Mail(), RemoveCall(u), {}, [], {});
    assert (set i | i in config.inbounds) == set i | i in config.inbounds && RemoveCall(u).Reaches(i);
  }

  // -------------------------------------------------------- what a call leaves

  /** Under every schedule, what a call leaves in a cell it reaches. */
  lemma AfterCall(threads: seq<AccountThread>, schedule: seq<nat>, inbounds: seq<Inbound>, cores: seq<CoreId>,
                  call: Call, m: map<Cell, Account>, c: CoreId, i: Inbound)
    requires SpawnedBy(threads, inbounds, cores, call) && Complete(threads, schedule) && DistinctTags(inbounds)
    requires c in cores && i in inbounds && call.Reaches(i)
    ensures var cell := Cell(c, i.tag, call.user.Mail());
            Get(Exec(threads, schedule, m), cell) == Effects(Get(m, cell), call.Ops(i))
  {
    var email := call.user.Mail();
    var done := set i | i in inbounds && call.Reaches(i);
    assert Covers(threads, i.tag, cores, email);
    var t :| t in threads && t.cell == Cell(c, i.tag, email);
    assert Serves(t, done, cores, email, call);
    var j :| j in done && j.tag == t.cell.tag && call.Reaches(j) && t.ops == call.Ops(j);
    TagOwner(inbounds, i, j);
    var k :| 0 <= k < |threads| && threads[k] == t;
    ExecOwnCell(threads, schedule, m, k);
  }

  /** Everything else, other users' accounts included, is untouched. */
  lemma AfterCallElsewhere(threads: seq<AccountThread>, schedule: seq<nat>, inbounds: seq<Inbound>, cores: seq<CoreId>,
                           call: Call, m: map<Cell, Account>, cell: Cell)
    requires SpawnedBy(threads, inbounds, cores, call) && Complete(threads, schedule)
    requires cell.email != call.user.Mail() || cell.core !in cores ||
             forall i :: i in inbounds && call.Reaches(i) ==> i.tag != cell.tag
    ensures Get(Exec(threads, schedule, m), cell) == Get(m, cell)
  {
    var email := call.user.Mail();
    var done := set i | i in inbounds && call.Reaches(i);
    forall t | t in threads ensures t.cell != cell {
      assert Serves(t, done, cores, email, call);
    }
    ExecOtherCell(threads, schedule, m, cell);
  }

  // ------------------------------------------------------- calls that overlap

  /** The threads of a call that may not have been made. */
  ghost predicate SpawnedFor(threads: seq<AccountThread>, inbounds: seq<Inbound>, cores: seq<CoreId>,
                             call: Option<Call>) {
    if call.None? then threads == [] else SpawnedBy(threads, inbounds, cores, call.value)
  }

  predicate DifferentUsers(calls: seq<Option<Call>>) {
    forall k, l :: 0 <= k < l < |calls| && calls[k].Some? && calls[l].Some? ==>
      calls[k].value.user.id != calls[l].value.user.id
  }

  ghost predicate AllSpawned(lists: seq<seq<AccountThread>>, inbounds: seq<Inbound>, cores: seq<CoreId>,
                             calls: seq<Option<Call>>)
  {
    |lists| == |calls| && forall k :: 0 <= k < |lists| ==> SpawnedFor(lists[k], inbounds, cores, calls[k])
  }

  /** Every thread of the lists works for one of the calls. */
  lemma {:induction false} WhoseThread(lists: seq<seq<AccountThread>>, inbounds: seq<Inbound>, cores: seq<CoreId>,
                                       calls: seq<Option<Call>>, t: AccountThread) returns (k: nat)
    requires AllSpawned(lists, inbounds, cores, calls) && t in Together(lists)
    ensures k < |calls| && calls[k].Some? && t.cell.email == calls[k].value.user.Mail()
  {
    var n := |lists| - 1;
    if t in lists[n] {
      k := n;
      LastThread(lists[n], inbounds, cores, calls[n], t);
    } else {
      k := WhoseThread(lists[..n], inbounds, cores, calls[..n], t);
    }
  }

  lemma {:induction false} TogetherDistinct(lists: seq<seq<AccountThread>>, inbounds: seq<Inbound>,
                                            cores: seq<CoreId>, calls: seq<Option<Call>>)
    requires AllSpawned(lists, inbounds, cores, calls) && DifferentUsers(calls)
    ensures DistinctCells(Together(lists))
  {
    if lists != [] {
      var n := |lists| - 1;
      var before, last := Together(lists[..n]), lists[n];
      TogetherDistinct(lists[..n], inbounds, cores, calls[..n]);
      forall s, t | s in before && t in last ensures s.cell != t.cell {
        var k := WhoseThread(lists[..n], inbounds, cores, calls[..n], s);
        LastThread(last, inbounds, cores, calls[n], t);
        DifferentCells(calls[k].value.user, calls[n].value.user, s, t);
      }
      assert SpawnedFor(last, inbounds, cores, calls[n]);
      ConcatDistinct(before, last);
    }
  }

  lemma LastThread(threads: seq<AccountThread>, inbounds: seq<Inbound>, cores: seq<CoreId>, call: Option<Call>,
                   t: AccountThread)
    requires SpawnedFor(threads, inbounds, cores, call) && t in threads
    ensures call.Some? && t.cell.email == call.value.user.Mail()
  {
    var done := set i | i in inbounds && call.value.Reaches(i);
    assert Serves(t, done, cores, call.value.user.Mail(), call.value);
  }

  lemma DifferentCells(u: User, v: User, s: AccountThread, t: AccountThread)
    requires u.id != v.id && s.cell.email == u.Mail() && t.cell.email == v.Mail()
    ensures s.cell != t.cell
  {
    if u.Mail() == v.Mail() { EmailInjective(u.id, u.username, v.id, v.username); }
  }

  lemma ConcatDistinct(a: seq<AccountThread>, b: seq<AccountThread>)
    requires DistinctCells(a) && DistinctCells(b)
    requires forall s, t :: s in a && t in b ==> s.cell != t.cell
    ensures DistinctCells(a + b)
  {
    var all := a + b;
    forall k, l | 0 <= k < l < |all| ensures all[k].cell != all[l].cell {
      if k < |a| <= l {
        assert all[k] in a && all[l] in b;
      }
    }
  }

  /** The threads of any number of calls for different users may run at the same
      time: every interleaving of all of them ends as running the calls one after the
      other does. */
  lemma ConcurrentCalls(lists: seq<seq<AccountThread>>, schedule: seq<nat>, inbounds: seq<Inbound>,
                        cores: seq<CoreId>, calls: seq<Option<Call>>, m: map<Cell, Account>)
    requires AllSpawned(lists, inbounds, cores, calls) && DifferentUsers(calls)
    requires Complete(Together(lists), schedule)
    ensures Exec(Together(lists), schedule, m) == InOrder(Together(lists), m)
  {
    TogetherDistinct(lists, inbounds, cores, calls);
    ScheduleIndependence(Together(lists), schedule, m);
  }
}
