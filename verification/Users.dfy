/** User rows and what the functions of app/db/crud.py make of one row. The
    imperative versions that work on the whole database are in `Database`. */
module Users {
  import opened Text

  type UserId = nat
  type AdminId = nat
  type Tag = string

  datatype Status = Active | Disabled | Limited | Expired | OnHold

  datatype ProxyType = VMess | VLESS | Trojan | Shadowsocks | Hysteria2 {
    /** Hysteria2 is served by another daemon, not by the core. */
    predicate IsXray() { this != Hysteria2 }

    /** The protocol as configuration files spell it. */
    function Name(): string {
      match this
      case VMess => "vmess"
      case VLESS => "vless"
      case Trojan => "trojan"
      case Shadowsocks => "shadowsocks"
      case Hysteria2 => "hysteria2"
    }
  }

  datatype Settings =
    | VMessSettings(id: string)
    | VLESSSettings(id: string, flow: string)
    | TrojanSettings(password: string, flow: string)
    | ShadowsocksSettings(password: string, cipher: string)
    | Hysteria2Settings(password: string)
  {
    function Kind(): ProxyType {
      match this
      case VMessSettings(_) => VMess
      case VLESSSettings(_, _) => VLESS
      case TrojanSettings(_, _) => Trojan
      case ShadowsocksSettings(_, _) => Shadowsocks
      case Hysteria2Settings(_) => Hysteria2
    }

    /** The XTLS flow, "" for the protocols that have none. */
    function Flow(): string {
      if VLESSSettings? || TrojanSettings? then flow else ""
    }

    /** What the user authenticates with: an id or a password. */
    function Credential(): string {
      if VMessSettings? || VLESSSettings? then id else password
    }

    /** The Shadowsocks cipher, "" for the protocols that have none. */
    function Cipher(): string {
      if ShadowsocksSettings? then cipher else ""
    }

    function WithoutFlow(): (r: Settings)
      ensures r.Kind() == Kind() && r.Credential() == Credential() && r.Cipher() == Cipher() && r.Flow() == ""
    {
      if VLESSSettings? || TrojanSettings? then this.(flow := "") else this
    }

    /** `settings.revoke()`: a fresh credential, everything else kept. */
    function Revoked(credential: string): (r: Settings)
      ensures r.Kind() == Kind() && r.Flow() == Flow() && r.Cipher() == Cipher() && r.Credential() == credential
    {
      if VMessSettings? || VLESSSettings? then this.(id := credential)
      else this.(password := credential)
    }
  }

  /** Settings are their kind, their credential, their flow and their cipher. */
  lemma SettingsAreTheirParts(a: Settings, b: Settings)
    ensures (a.VMessSettings? <==> a.Kind() == VMess) && (a.VLESSSettings? <==> a.Kind() == VLESS)
    ensures (a.TrojanSettings? <==> a.Kind() == Trojan) && (a.ShadowsocksSettings? <==> a.Kind() == Shadowsocks)
    ensures a == b <==> a.Kind() == b.Kind() && a.Credential() == b.Credential()
                        && a.Flow() == b.Flow() && a.Cipher() == b.Cipher()
  {}

  datatype Proxy = Proxy(settings: Settings, excluded: seq<Tag>)

  datatype NextPlan = NextPlan(dataLimit: int, expire: Option<int>, addRemaining: bool, fireOnEither: bool)

  datatype User = User(
    id: UserId,
    username: string,
    status: Status,
    proxies: map<ProxyType, Proxy>,
    usedTraffic: int,
    usageLogs: seq<int>,
    dataLimit: Option<int>,
    expire: Option<int>,
    onHoldDuration: Option<int>,
    onHoldTimeout: Option<real>,
    onlineAt: Option<real>,
    editAt: Option<real>,
    createdAt: real,
    nextPlan: Option<NextPlan>,
    adminId: Option<AdminId>)
  {
    /** Each proxy row holds settings of its own type. */
    predicate WellTyped() {
      forall t :: t in proxies ==> proxies[t].settings.Kind() == t
    }

    /** The statuses whose accounts a core carries. */
    predicate Live() {
      status.Active? || status.OnHold?
    }

    /** `user.data_limit and user.used_traffic >= user.data_limit`. */
    predicate LimitReached() {
      Reached(dataLimit, usedTraffic)
    }

    /** `user.expire and user.expire <= now`. */
    predicate ExpiryPassed(now: real) {
      Passed(expire, now)
    }

    function Mail(): string {
      Email(id, username)
    }
  }

  type Table = map<UserId, User>

  predicate ValidTable(db: Table) {
    forall id :: id in db ==> db[id].id == id && db[id].WellTyped()
  }

  // -------------------------------------------------------------------- emails

  /** The identity of an account in a core. */
  function Email(id: UserId, username: string): string {
    Decimal(id) + "." + username
  }

  /** `name.split('.', 1)[0]`, the way usage statistics are read back. */
  function EmailPrefix(email: string): string {
    email[..FirstIndex(email, '.')]
  }

  lemma EmailPrefixIsId(id: UserId, username: string)
    ensures EmailPrefix(Email(id, username)) == Decimal(id)
  {
    assert '.' !in Decimal(id);
    FirstIndexIs(Decimal(id), '.', username);
    assert Email(id, username)[..|Decimal(id)|] == Decimal(id);
  }

  /** Two users never share an account identity, whatever dots their names hold. */
  lemma EmailInjective(a: UserId, x: string, b: UserId, y: string)
    requires Email(a, x) == Email(b, y)
    ensures a == b && x == y
  {
    EmailPrefixIsId(a, x);
    EmailPrefixIsId(b, y);
    DecimalInjective(a, b);
    assert Email(a, x)[|Decimal(a)| + 1..] == x;
    assert Email(b, y)[|Decimal(b)| + 1..] == y;
  }

  // ---------------------------------------------------------- changes to a row

  datatype Outcome = NoPlan | TypeError | Done(user: User)

  /** `reset_user_data_usage`. */
  function ResetUsage(u: User): User {
    u.(usageLogs := u.usageLogs + [u.usedTraffic],
       usedTraffic := 0,
       status := if u.status.Expired? || u.status.Disabled? then u.status else Active,
       nextPlan := None)
  }

  /** `reset_user_by_next`. A plan without an expiry, or one that carries the
      remaining traffic of an unlimited user, adds None to a number. */
  function ResetByNext(u: User, now: real): Outcome {
    if u.nextPlan.None? then NoPlan
    else
      var plan := u.nextPlan.value;
      if plan.expire.None? || (!plan.addRemaining && u.dataLimit.None?) then TypeError
      else
        Done(u.(usageLogs := u.usageLogs + [u.usedTraffic],
                usedTraffic := 0,
                status := Active,
                dataLimit := Some(plan.dataLimit +
                  (if plan.addRemaining then 0 else u.dataLimit.value - u.usedTraffic)),
                expire := Some((plan.expire.value as real + now).Floor),
                nextPlan := None))
  }

  /** `start_user_expire`. */
  function StartExpire(u: User, now: real): Outcome {
    if u.onHoldDuration.None? then TypeError
    else Done(u.(expire := Some(now.Floor + u.onHoldDuration.value), onHoldDuration := None, onHoldTimeout := None))
  }

  /** What a request to modify a user carries; None or an empty map leaves a
      field alone. */
  datatype Change = Change(
    proxies: map<ProxyType, Settings>,
    excluded: map<ProxyType, seq<Tag>>,
    status: Option<Status>,
    dataLimit: Option<int>,
    expire: Option<int>,
    onHoldTimeout: Option<real>,
    onHoldDuration: Option<int>,
    nextPlan: Option<NextPlan>)
  {
    predicate WellTyped() {
      forall t :: t in proxies ==> proxies[t].Kind() == t
    }
  }

  function ModifyProxies(old': map<ProxyType, Proxy>, change: Change): map<ProxyType, Proxy> {
    var settings :=
      if change.proxies == map[] then old'
      else map t | t in change.proxies ::
             if t in old' then old'[t].(settings := change.proxies[t]) else Proxy(change.proxies[t], []);
    map t | t in settings ::
      if t in change.excluded then settings[t].(excluded := change.excluded[t]) else settings[t]
  }

  predicate Reached(limit: Option<int>, used: int) {
    limit.Some? && limit.value != 0 && used >= limit.value
  }

  predicate Passed(expire: Option<int>, now: real) {
    expire.Some? && expire.value != 0 && expire.value as real <= now
  }

  function NoneIfZero(x: Option<int>): Option<int> {
    if x == Some(0) then None else x
  }

  /** The `data_limit` block of `update_user`: the status a new limit gives. */
  function StatusForLimit(status: Status, limit: Option<int>, used: int): Status {
    if status.Expired? || status.Disabled? then status
    else if Reached(limit, used) then Limited
    else if status.OnHold? then OnHold
    else Active
  }

  /** The `expire` block of `update_user`: the status a new expiry gives. */
  function StatusForExpiry(status: Status, expire: Option<int>, now: real): Status {
    if !(status.Active? || status.Expired?) then status
    else if Passed(expire, now) then Expired
    else Active
  }

  /** `update_user`. */
  function Modify(u: User, change: Change, now: real): User {
    var limit := if change.dataLimit.Some? then NoneIfZero(change.dataLimit) else u.dataLimit;
    var expire := if change.expire.Some? then NoneIfZero(change.expire) else u.expire;
    var s0 := if change.status.Some? then change.status.value else u.status;
    var s1 := if change.dataLimit.Some? then StatusForLimit(s0, limit, u.usedTraffic) else s0;
    var s2 := if change.expire.Some? then StatusForExpiry(s1, expire, now) else s1;
    u.(proxies := ModifyProxies(u.proxies, change),
       status := s2,
       dataLimit := limit,
       expire := expire,
       onHoldTimeout := if change.onHoldTimeout.Some? then change.onHoldTimeout else u.onHoldTimeout,
       onHoldDuration := if change.onHoldDuration.Some? then change.onHoldDuration else u.onHoldDuration,
       nextPlan := change.nextPlan,
       editAt := Some(now))
  }

  /** The change `revoke_user_sub` sends: the user's own values back, with
      fresh credentials. */
  function RevokeChange(u: User, renew: ProxyType -> string): Change {
    Change(map t | t in u.proxies :: u.proxies[t].settings.Revoked(renew(t)),
           map t | t in u.proxies :: u.proxies[t].excluded,
           Some(u.status), u.dataLimit, u.expire, u.onHoldTimeout, u.onHoldDuration, u.nextPlan)
  }

  /** What one pass of the review job makes of one user. */
  datatype Verdict = Untouched | PlanFired(user: User) | Closed(user: User) | Opened(user: User) | Crashed(user: User)

  predicate PlanDue(u: User, now: real) {
    && u.nextPlan.Some? && (u.LimitReached() || u.ExpiryPassed(now))
    && (u.nextPlan.value.fireOnEither || (u.LimitReached() && u.ExpiryPassed(now)))
  }

  predicate HoldOver(u: User, now: real) {
    var base := if u.editAt.Some? then u.editAt.value else u.createdAt;
    (u.onlineAt.Some? && base <= u.onlineAt.value) || (u.onHoldTimeout.Some? && u.onHoldTimeout.value <= now)
  }

  /** The two loops of `review`, seen from one user: `now` is read once per
      pass, `clock` when the row is written. */
  function ReviewUser(u: User, now: real, clock: real): Verdict {
    match u.status
    case Active =>
      if PlanDue(u, now) then
        var r := ResetByNext(u, clock);
        if r.Done? then PlanFired(r.user) else Crashed(u)
      else if u.LimitReached() then Closed(u.(status := Limited))
      else if u.ExpiryPassed(now) then Closed(u.(status := Expired))
      else Untouched
    case OnHold =>
      if !HoldOver(u, now) then Untouched
      else
        var r := StartExpire(u.(status := Active), clock);
        if r.Done? then Opened(r.user) else Crashed(u.(status := Active))
    case _ => Untouched
  }

  // ---------------------------------------------------------- what changes keep

  /** Traffic counted over the whole life of the user. */
  function Lifetime(u: User): int {
    Sum(u.usageLogs) + u.usedTraffic
  }

  function Sum(xs: seq<int>): int {
    if xs == [] then 0 else Sum(xs[..|xs| - 1]) + xs[|xs| - 1]
  }

  /** Moving the counter into the log keeps the lifetime total. */
  lemma LogKeepsLifetime(logs: seq<int>, used: int)
    ensures Sum(logs + [used]) == Sum(logs) + used
  {
    assert (logs + [used])[..|logs|] == logs;
  }

  /** A recording pass adds to the counter and notes the time. */
  function Recorded(u: User, bytes: int, at: real): User {
    u.(usedTraffic := u.usedTraffic + bytes, onlineAt := Some(at))
  }

  lemma ModifyKeepsTraffic(u: User, change: Change, now: real)
    ensures var v := Modify(u, change, now); v.usedTraffic == u.usedTraffic && v.usageLogs == u.usageLogs
  {}

  lemma LoggedKeepsLifetime(u: User, v: User)
    requires v.usageLogs == u.usageLogs + [u.usedTraffic] && v.usedTraffic == 0
    ensures Lifetime(v) == Lifetime(u)
  {
    LogKeepsLifetime(u.usageLogs, u.usedTraffic);
  }

  /** No reset, plan, edit or start of an expiry touches lifetime traffic. */
  lemma ChangesKeepLifetime(u: User, change: Change, now: real)
    ensures Lifetime(ResetUsage(u)) == Lifetime(u)
    ensures ResetByNext(u, now).Done? ==> Lifetime(ResetByNext(u, now).user) == Lifetime(u)
    ensures StartExpire(u, now).Done? ==> Lifetime(StartExpire(u, now).user) == Lifetime(u)
    ensures Lifetime(Modify(u, change, now)) == Lifetime(u)
  {
    LoggedKeepsLifetime(u, ResetUsage(u));
    var r := ResetByNext(u, now);
    if r.Done? { LoggedKeepsLifetime(u, r.user); }
    ModifyKeepsTraffic(u, change, now);
  }

  lemma ModifyProxiesTyped(proxies: map<ProxyType, Proxy>, change: Change)
    requires forall t :: t in proxies ==> proxies[t].settings.Kind() == t
    requires change.WellTyped()
    ensures var r := ModifyProxies(proxies, change); forall t :: t in r ==> r[t].settings.Kind() == t
  {}

  /** An edit keeps the user's identity and types, so its accounts keep their
      names in the cores. */
  lemma ModifyKeepsIdentity(u: User, change: Change, now: real)
    requires u.WellTyped() && change.WellTyped()
    ensures var v := Modify(u, change, now); v.id == u.id && v.username == u.username && v.WellTyped()
  {
    ModifyProxiesTyped(u.proxies, change);
    assert Modify(u, change, now).proxies == ModifyProxies(u.proxies, change);
  }

  /** What an edit makes of the proxies: the types it names if it names any, with the
      settings and exclusions it gives, and what was there where it gives none. */
  lemma ModifiedProxies(before: map<ProxyType, Proxy>, change: Change)
    ensures var after := ModifyProxies(before, change);
            && after.Keys == (if change.proxies.Keys == {} then before.Keys else change.proxies.Keys)
            && (forall t <- after ::
                  && (t in change.proxies ==> after[t].settings == change.proxies[t])
                  && (t !in change.proxies ==> t in before && after[t].settings == before[t].settings)
                  && (t in change.excluded ==> after[t].excluded == change.excluded[t])
                  && (t !in change.excluded ==>
                        after[t].excluded == if t in before then before[t].excluded else []))
  {
    assert change.proxies.Keys == {} ==> change.proxies == map[];
  }

  /** A revocation replaces every credential by a new one and nothing else: same
      types, flows, ciphers and exclusions. */
  lemma RevokedProxies(u: User, renew: ProxyType -> string, now: real)
    requires u.WellTyped()
    ensures RevokeChange(u, renew).WellTyped()
    ensures var v := Modify(u, RevokeChange(u, renew), now);
            && v.proxies.Keys == u.proxies.Keys
            && (forall t <- u.proxies :: Renewed(u.proxies[t], v.proxies[t], renew(t)))
  {
    var change := RevokeChange(u, renew);
    assert change.proxies.Keys == u.proxies.Keys && change.excluded.Keys == u.proxies.Keys;
    ModifiedProxies(u.proxies, change);
    assert Modify(u, change, now).proxies == ModifyProxies(u.proxies, change);
  }

  predicate Renewed(before: Proxy, after: Proxy, credential: string) {
    && after.settings.Credential() == credential
    && after.settings.Kind() == before.settings.Kind()
    && after.settings.Flow() == before.settings.Flow()
    && after.settings.Cipher() == before.settings.Cipher()
    && after.excluded == before.excluded
  }

  /** Which status an edit leaves, from what was asked for: `start` is the status
      asked for or else the one before, `full` and `past` say that a limit or an
      expiry that is given is already reached. */
  lemma ModifiedStatus(u: User, change: Change, now: real)
    ensures var v := Modify(u, change, now);
            var start := if change.status.Some? then change.status.value else u.status;
            var full := change.dataLimit.Some? && change.dataLimit.value != 0
                        && u.usedTraffic >= change.dataLimit.value;
            var past := change.expire.Some? && change.expire.value != 0 && change.expire.value as real <= now;
            && (v.status.Disabled? <==> start.Disabled?)
            && (v.status.OnHold? <==> start.OnHold? && !full)
            && (v.status.Limited? <==>
                  || (full && !start.Expired? && !start.Disabled?)
                  || (change.dataLimit.None? && start.Limited?))
            && (v.status.Expired? <==>
                  || (start.Expired? && (change.expire.None? || past))
                  || (past && !full && (start.Active? || (start.Limited? && change.dataLimit.Some?))))
  {}

  /** The rest of the row: what is given is written, zero standing for none, and what
      is not given stays, but for the plan, which an edit always replaces. */
  lemma ModifiedFields(u: User, change: Change, now: real)
    ensures var v := Modify(u, change, now);
            && v.editAt == Some(now) && v.nextPlan == change.nextPlan
            && (change.dataLimit.None? ==> v.dataLimit == u.dataLimit)
            && (change.dataLimit == Some(0) ==> v.dataLimit.None?)
            && (change.dataLimit.Some? && change.dataLimit.value != 0 ==> v.dataLimit == change.dataLimit)
            && (change.expire.None? ==> v.expire == u.expire)
            && (change.expire == Some(0) ==> v.expire.None?)
            && (change.expire.Some? && change.expire.value != 0 ==> v.expire == change.expire)
            && v.onHoldTimeout == (if change.onHoldTimeout.None? then u.onHoldTimeout else change.onHoldTimeout)
            && v.onHoldDuration == (if change.onHoldDuration.None? then u.onHoldDuration else change.onHoldDuration)
            && v == u.(proxies := v.proxies, status := v.status, dataLimit := v.dataLimit, expire := v.expire,
                       onHoldTimeout := v.onHoldTimeout, onHoldDuration := v.onHoldDuration,
                       nextPlan := v.nextPlan, editAt := v.editAt)
  {}

  /** When re-sending a user's own values, as a revocation does, turns a live
      user into one that is not: exactly the cases the next review would find. */
  lemma RevokedStatus(u: User, renew: ProxyType -> string, now: real)
    ensures var v := Modify(u, RevokeChange(u, renew), now);
            var full := u.dataLimit.Some? && u.dataLimit.value != 0 && u.usedTraffic >= u.dataLimit.value;
            var past := u.expire.Some? && u.expire.value != 0 && u.expire.value as real <= now;
            u.status.Active? || u.status.OnHold? ==>
              (v.status.Active? || v.status.OnHold? <==> !full && !(u.status.Active? && past))
  {}

  /** An on-hold user always has a duration to start, once one was required of
      the request that put it on hold. */
  lemma OnHoldKeepsDuration(u: User, change: Change, now: real)
    requires u.status.OnHold? ==> u.onHoldDuration.Some?
    requires change.status == Some(OnHold) ==> change.onHoldDuration.Some?
    ensures var v := Modify(u, change, now); v.status.OnHold? ==> v.onHoldDuration.Some?
    ensures var v := ResetUsage(u); v.status.OnHold? ==> v.onHoldDuration.Some?
  {}
}
