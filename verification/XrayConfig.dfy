/** The core's configuration: which inbounds it has, how they are indexed, and
    which accounts a full rebuild from the database puts in each. */
module XrayConfig {
  import opened Text
  import opened Users
  import opened Schedules

  /** One inbound as the file spells it: the fields that decide which accounts it
      carries, and the clients somebody wrote into it. */
  datatype FileInbound = FileInbound(
    tag: string, protocol: string, network: string, tls: string, headerType: string, clients: seq<Account>)

  datatype Inbound = Inbound(tag: Tag, protocol: ProxyType, network: string, tls: string, headerType: string) {
    /** config.py: the XTLS flow survives on this inbound. */
    predicate KeepsFlow() {
      (network == "tcp" || network == "raw" || network == "kcp") && (tls == "tls" || tls == "reality") &&
        headerType != "http"
    }

    /** operations.update_user: the same rule without "raw". */
    predicate UpdateKeepsFlow() {
      (network == "tcp" || network == "kcp") && (tls == "tls" || tls == "reality") && headerType != "http"
    }
  }

  datatype Account = Account(email: string, settings: Settings)

  datatype CoreId = MainCore | Node(id: nat)

  /** Where one account sits: a core, an inbound of it, an identity. */
  datatype Cell = Cell(core: CoreId, tag: Tag, email: string)

  // ---------------------------------------------------------------- validation

  datatype Validation = Accepted | NoInbounds | NoOutbounds | MissingTag | CommaInTag | MissingOutboundTag

  /** `_validate`. */
  method Validate(inbounds: seq<FileInbound>, outboundTags: seq<string>) returns (r: Validation)
    ensures r.Accepted? <==>
              && inbounds != [] && outboundTags != []
              && (forall i :: i in inbounds ==> i.tag != "" && ',' !in i.tag)
              && (forall t :: t in outboundTags ==> t != "")
  {
    if inbounds == [] { return NoInbounds; }
    if outboundTags == [] { return NoOutbounds; }
    for k := 0 to |inbounds|
      invariant forall l :: 0 <= l < k ==> inbounds[l].tag != "" && ',' !in inbounds[l].tag
    {
      if inbounds[k].tag == "" { return MissingTag; }
      if ',' in inbounds[k].tag { return CommaInTag; }
    }
    for k := 0 to |outboundTags|
      invariant forall l :: 0 <= l < k ==> outboundTags[l] != ""
    {
      assert outboundTags[k] in outboundTags;
      if outboundTags[k] == "" { return MissingOutboundTag; }
    }
    return Accepted;
  }

  /** The messages speak of unique tags, but one inbound twice is accepted. */
  method DuplicatesPass(i: FileInbound) returns (r: Validation)
    requires i.tag != "" && ',' !in i.tag
    ensures r.Accepted?
  {
    r := Validate([i, i], ["direct"]);
  }

  // ------------------------------------------------------------------- indexes

  /** `ProxyTypes._value2member_map_.get(name)`. */
  function ParseProtocol(name: string): Option<ProxyType> {
    if name == "vmess" then Some(VMess)
    else if name == "vless" then Some(VLESS)
    else if name == "trojan" then Some(Trojan)
    else if name == "shadowsocks" then Some(Shadowsocks)
    else if name == "hysteria2" then Some(Hysteria2)
    else None
  }

  function Resolve(entry: FileInbound, hidden: set<Tag>): Option<Inbound> {
    var protocol := ParseProtocol(entry.protocol);
    if protocol.None? || !protocol.value.IsXray() || entry.tag in hidden then None
    else Some(Inbound(entry.tag, protocol.value, entry.network, entry.tls, entry.headerType))
  }

  function Resolved(file: seq<FileInbound>, hidden: set<Tag>): seq<Inbound> {
    if file == [] then []
    else
      var before := Resolved(file[..|file| - 1], hidden);
      var last := Resolve(file[|file| - 1], hidden);
      if last.Some? then before + [last.value] else before
  }

  /** A name is read as the one protocol that is spelled so. */
  lemma ProtocolNamed(name: string, p: ProxyType)
    ensures ParseProtocol(name) == Some(p) <==> name == p.Name()
  {}

  /** What an entry of the file says of an inbound the panel manages. */
  predicate Says(entry: FileInbound, i: Inbound, hidden: set<Tag>) {
    && entry.tag !in hidden && i.protocol in {VMess, VLESS, Trojan, Shadowsocks} && entry.protocol == i.protocol.Name()
    && entry.tag == i.tag && entry.network == i.network && entry.tls == i.tls && entry.headerType == i.headerType
  }

  lemma ResolveSays(entry: FileInbound, hidden: set<Tag>, i: Inbound)
    ensures Resolve(entry, hidden) == Some(i) <==> Says(entry, i, hidden)
  {
    ProtocolNamed(entry.protocol, i.protocol);
  }

  /** The inbounds of the file that are not hidden and speak one of the core's four
      protocols, with the fields the file gives them. */
  lemma {:induction false} ResolvedSay(file: seq<FileInbound>, hidden: set<Tag>, i: Inbound)
    ensures i in Resolved(file, hidden) <==> exists entry <- file :: Says(entry, i, hidden)
  {
    if file != [] {
      var init, last := file[..|file| - 1], file[|file| - 1];
      assert file == init + [last];
      ResolvedSay(init, hidden, i);
      ResolveSays(last, hidden, i);
    }
  }

  /** The first entry the panel manages under a tag gives the clients of that tag. */
  lemma {:induction false} FirstIsWritten(file: seq<FileInbound>, hidden: set<Tag>, k: nat)
    requires k < |file| && Resolve(file[k], hidden).Some?
    requires forall j :: 0 <= j < k ==> file[j].tag != file[k].tag || Resolve(file[j], hidden).None?
    ensures file[k].tag in WrittenBy(file, hidden) && WrittenBy(file, hidden)[file[k].tag] == file[k].clients
  {
    var n := |file| - 1;
    if k < n {
      FirstIsWritten(file[..n], hidden, k);
    } else {
      NotYetWritten(file[..n], hidden, file[k].tag);
    }
  }

  lemma {:induction false} NotYetWritten(file: seq<FileInbound>, hidden: set<Tag>, tag: Tag)
    requires forall j :: 0 <= j < |file| ==> file[j].tag != tag || Resolve(file[j], hidden).None?
    ensures tag !in WrittenBy(file, hidden)
  {
    if file != [] { NotYetWritten(file[..|file| - 1], hidden, tag); }
  }

  /** The clients the file itself lists, by tag; the first inbound of a tag counts. */
  function WrittenBy(file: seq<FileInbound>, hidden: set<Tag>): map<Tag, seq<Account>> {
    if file == [] then map[]
    else
      var before, last := WrittenBy(file[..|file| - 1], hidden), file[|file| - 1];
      if Resolve(last, hidden).None? || last.tag in before then before else before[last.tag := last.clients]
  }

  function OfProtocol(inbounds: seq<Inbound>, p: ProxyType): (r: seq<Inbound>)
    ensures forall i :: i in r <==> i in inbounds && i.protocol == p
  {
    if inbounds == [] then []
    else
      var before := OfProtocol(inbounds[..|inbounds| - 1], p);
      var last := inbounds[|inbounds| - 1];
      assert inbounds == inbounds[..|inbounds| - 1] + [last];
      if last.protocol == p then before + [last] else before
  }

  lemma OfProtocolAppend(inbounds: seq<Inbound>, i: Inbound, p: ProxyType)
    ensures OfProtocol(inbounds + [i], p) == OfProtocol(inbounds, p) + (if i.protocol == p then [i] else [])
  {
    assert (inbounds + [i])[..|inbounds|] == inbounds;
  }

  lemma {:induction false} OfProtocolNone(inbounds: seq<Inbound>, p: ProxyType)
    requires forall i :: i in inbounds ==> i.protocol != p
    ensures OfProtocol(inbounds, p) == []
  {
    if inbounds != [] {
      OfProtocolNone(inbounds[..|inbounds| - 1], p);
    }
  }

  predicate DistinctTags(inbounds: seq<Inbound>) {
    forall i, j :: 0 <= i < j < |inbounds| ==> inbounds[i].tag != inbounds[j].tag
  }

  lemma TagOwner(inbounds: seq<Inbound>, i: Inbound, j: Inbound)
    requires DistinctTags(inbounds) && i in inbounds && j in inbounds && i.tag == j.tag
    ensures i == j
  {}

  class Config {
    var inbounds: seq<Inbound>
    var byTag: map<Tag, Inbound>
    var byProtocol: map<ProxyType, seq<Inbound>>
    var written: map<Tag, seq<Account>>

    /** The two dictionaries index exactly the inbounds of the list. */
    ghost predicate Indexed()
      reads this
    {
      && (forall t :: t in byTag ==> byTag[t] in inbounds && byTag[t].tag == t)
      && (forall i :: i in inbounds ==> i.tag in byTag && i.tag in written)
      && (forall p :: p in byProtocol ==> byProtocol[p] == OfProtocol(inbounds, p))
      && (forall i :: i in inbounds ==> i.protocol in byProtocol && i.protocol.IsXray())
    }

    /** `_resolve_inbounds`. */
    constructor (file: seq<FileInbound>, hidden: set<Tag>)
      ensures Indexed() && inbounds == Resolved(file, hidden) && written == WrittenBy(file, hidden)
      ensures forall i :: i in inbounds <==> exists entry <- file :: Says(entry, i, hidden)
    {
      inbounds, byTag, byProtocol, written := [], map[], map[], map[];
      new;
      for k := 0 to |file|
        invariant inbounds == Resolved(file[..k], hidden) && written == WrittenBy(file[..k], hidden)
        invariant Indexed()
      {
        assert file[..k + 1][..k] == file[..k];
        var entry := Resolve(file[k], hidden);
        if entry.Some? {
          var i := entry.value;
          Append(i, file[k].clients);
        }
      }
      assert file[..|file|] == file;
      forall i ensures i in inbounds <==> exists entry <- file :: Says(entry, i, hidden) {
        ResolvedSay(file, hidden, i);
      }
    }

    /** One more inbound, with the clients the file gives it. */
    method Append(i: Inbound, clients: seq<Account>)
      requires Indexed() && i.protocol.IsXray()
      modifies this
      ensures Indexed() && inbounds == old(inbounds) + [i]
      ensures written == if i.tag in old(written) then old(written) else old(written)[i.tag := clients]
    {
      if i.protocol in byProtocol {
        byProtocol := byProtocol[i.protocol := byProtocol[i.protocol] + [i]];
      } else {
        byProtocol := byProtocol[i.protocol := [i]];
        OfProtocolNone(inbounds, i.protocol);
      }
      forall p | p in byProtocol
        ensures byProtocol[p] == OfProtocol(inbounds + [i], p)
      {
        OfProtocolAppend(inbounds, i, p);
      }
      inbounds := inbounds + [i];
      byTag := byTag[i.tag := i];
      if i.tag !in written { written := written[i.tag := clients]; }
    }

    /** `include_db_users`, from the rows the query returned: every tag keeps the
        clients of the file and gains those its inbounds get from the database,
        protocol by protocol. */
    method IncludeDbUsers(rows: seq<Row>) returns (clients: map<Tag, seq<Account>>)
      requires Indexed()
      ensures clients.Keys == set i | i in inbounds :: i.tag
      ensures forall i :: i in inbounds ==>
                clients[i.tag] == written[i.tag] + Gathered(i.tag, inbounds, KindsOf(rows), rows)
    {
      IndexTargets(inbounds, byProtocol);
      clients := FillKinds(inbounds, byProtocol, StartOf(inbounds, written), rows);
    }
  }

  /** The client lists before the rows are read. */
  function StartOf(inbounds: seq<Inbound>, written: map<Tag, seq<Account>>): (start: map<Tag, seq<Account>>)
    requires forall i :: i in inbounds ==> i.tag in written
    ensures start.Keys == set i | i in inbounds :: i.tag
    ensures forall i :: i in inbounds ==> i.tag in start && start[i.tag] == written[i.tag]
  {
    map i | i in inbounds :: i.tag := written[i.tag]
  }

  lemma IndexTargets(inbounds: seq<Inbound>, byProtocol: map<ProxyType, seq<Inbound>>)
    requires forall p :: p in byProtocol ==> byProtocol[p] == OfProtocol(inbounds, p)
    requires forall i :: i in inbounds ==> i.protocol in byProtocol
    ensures forall p :: TargetsOf(byProtocol, p) == OfProtocol(inbounds, p)
  {
    forall p ensures TargetsOf(byProtocol, p) == OfProtocol(inbounds, p) {
      if p !in byProtocol { OfProtocolNone(inbounds, p); }
    }
  }

  /** The inbounds of one protocol, none if the dictionary has no such key. */
  function TargetsOf(byProtocol: map<ProxyType, seq<Inbound>>, p: ProxyType): seq<Inbound> {
    if p in byProtocol then byProtocol[p] else []
  }

  /** The loop over `grouped_data`. */
  method FillKinds(inbounds: seq<Inbound>, byProtocol: map<ProxyType, seq<Inbound>>, start: map<Tag, seq<Account>>,
                   rows: seq<Row>) returns (clients: map<Tag, seq<Account>>)
    requires forall p :: TargetsOf(byProtocol, p) == OfProtocol(inbounds, p)
    requires forall i :: i in inbounds ==> i.tag in start
    ensures Gained(start, clients, inbounds, KindsOf(rows), rows)
  {
    var grouped, kinds := GroupRows(rows);
    clients := start;
    for k := 0 to |kinds|
      invariant Gained(start, clients, inbounds, kinds[..k], rows)
    {
      var p := kinds[k];
      var targets, group := TargetsOf(byProtocol, p), Group(grouped, p);
      assert targets == OfProtocol(inbounds, p) && group == RowsOfKind(rows, p);
      var filled := FillInbounds(clients, targets, group);
      TakeNext(kinds, k);
      GainNext(start, clients, filled, inbounds, kinds[..k], p, rows);
      clients := filled;
    }
    assert kinds[..|kinds|] == kinds;
  }

  /** Every tag has grown by what some inbounds give it. */
  ghost predicate Filled(before: map<Tag, seq<Account>>, after: map<Tag, seq<Account>>, targets: seq<Inbound>,
                         rows: seq<Row>)
  {
    after.Keys == before.Keys && forall t :: t in before ==> FilledAt(before, after, t, targets, rows)
  }

  ghost predicate FilledAt(before: map<Tag, seq<Account>>, after: map<Tag, seq<Account>>, t: Tag,
                           targets: seq<Inbound>, rows: seq<Row>)
  {
    t in before && t in after && after[t] == before[t] + FromTargets(t, targets, rows)
  }

  /** Every tag has grown by what some protocols give it. */
  ghost predicate Gained(start: map<Tag, seq<Account>>, clients: map<Tag, seq<Account>>, inbounds: seq<Inbound>,
                         kinds: seq<ProxyType>, rows: seq<Row>)
  {
    clients.Keys == start.Keys && forall t :: t in start ==> clients[t] == start[t] + Gathered(t, inbounds, kinds, rows)
  }

  lemma FillNext(before: map<Tag, seq<Account>>, after: map<Tag, seq<Account>>, targets: seq<Inbound>, i: Inbound,
                 rows: seq<Row>)
    requires Filled(before, after, targets, rows) && i.tag in before
    ensures Filled(before, after[i.tag := after[i.tag] + Clients(i, rows)], targets + [i], rows)
  {
    var next := after[i.tag := after[i.tag] + Clients(i, rows)];
    assert next.Keys == before.Keys;
    forall t | t in before ensures FilledAt(before, next, t, targets + [i], rows) {
      FillOne(before, after, t, targets, i, rows);
    }
  }

  lemma FillOne(before: map<Tag, seq<Account>>, after: map<Tag, seq<Account>>, t: Tag, targets: seq<Inbound>,
                i: Inbound, rows: seq<Row>)
    requires FilledAt(before, after, t, targets, rows) && i.tag in after
    ensures FilledAt(before, after[i.tag := after[i.tag] + Clients(i, rows)], t, targets + [i], rows)
  {
    TargetsLast(before[t], t, targets, i, rows);
  }

  lemma TargetsLast(start: seq<Account>, tag: Tag, targets: seq<Inbound>, i: Inbound, rows: seq<Row>)
    ensures start + FromTargets(tag, targets + [i], rows)
         == (start + FromTargets(tag, targets, rows)) + if i.tag == tag then Clients(i, rows) else []
  {
    assert (targets + [i])[..|targets|] == targets;
    Associate(start, FromTargets(tag, targets, rows), if i.tag == tag then Clients(i, rows) else []);
  }

  lemma GainNext(start: map<Tag, seq<Account>>, before: map<Tag, seq<Account>>, after: map<Tag, seq<Account>>,
                 inbounds: seq<Inbound>, kinds: seq<ProxyType>, p: ProxyType, rows: seq<Row>)
    requires Gained(start, before, inbounds, kinds, rows)
    requires Filled(before, after, OfProtocol(inbounds, p), RowsOfKind(rows, p))
    ensures Gained(start, after, inbounds, kinds + [p], rows)
  {
    forall t | t in start ensures after[t] == start[t] + Gathered(t, inbounds, kinds + [p], rows) {
      assert FilledAt(before, after, t, OfProtocol(inbounds, p), RowsOfKind(rows, p));
      GatheredLast(start[t], t, inbounds, kinds, p, rows);
    }
  }

  lemma GatheredLast(start: seq<Account>, tag: Tag, inbounds: seq<Inbound>, kinds: seq<ProxyType>, p: ProxyType,
                     rows: seq<Row>)
    ensures start + Gathered(tag, inbounds, kinds + [p], rows)
         == (start + Gathered(tag, inbounds, kinds, rows))
            + FromTargets(tag, OfProtocol(inbounds, p), RowsOfKind(rows, p))
  {
    assert (kinds + [p])[..|kinds|] == kinds;
    Associate(start, Gathered(tag, inbounds, kinds, rows),
              FromTargets(tag, OfProtocol(inbounds, p), RowsOfKind(rows, p)));
  }

  /** The protocols of the rows, in the order in which they first appear. */
  function KindsOf(rows: seq<Row>): seq<ProxyType> {
    if rows == [] then []
    else
      var before, kind := KindsOf(rows[..|rows| - 1]), rows[|rows| - 1].kind;
      if kind in before then before else before + [kind]
  }

  /** What one tag gains from some inbounds, each with these rows. */
  function FromTargets(tag: Tag, targets: seq<Inbound>, rows: seq<Row>): seq<Account> {
    if targets == [] then []
    else
      var last := targets[|targets| - 1];
      FromTargets(tag, targets[..|targets| - 1], rows) + if last.tag == tag then Clients(last, rows) else []
  }

  /** What one tag gains over some protocols. */
  function Gathered(tag: Tag, inbounds: seq<Inbound>, kinds: seq<ProxyType>, rows: seq<Row>): seq<Account> {
    if kinds == [] then []
    else
      var last := kinds[|kinds| - 1];
      Gathered(tag, inbounds, kinds[..|kinds| - 1], rows)
      + FromTargets(tag, OfProtocol(inbounds, last), RowsOfKind(rows, last))
  }

  // ------------------------------------------- with the tags the messages ask for

  lemma {:induction false} FromOthers(tag: Tag, targets: seq<Inbound>, rows: seq<Row>)
    requires forall j :: j in targets ==> j.tag != tag
    ensures FromTargets(tag, targets, rows) == []
  {
    if targets != [] { FromOthers(tag, targets[..|targets| - 1], rows); }
  }

  /** With distinct tags a tag gains its own inbound's clients and nothing else. */
  lemma {:induction false} FromOwn(i: Inbound, targets: seq<Inbound>, rows: seq<Row>)
    requires DistinctTags(targets) && i in targets
    ensures FromTargets(i.tag, targets, rows) == Clients(i, rows)
  {
    var init, last := targets[..|targets| - 1], targets[|targets| - 1];
    OthersBefore(targets);
    FromLast(i.tag, targets, rows);
    if last == i {
      FromOthers(i.tag, init, rows);
    } else {
      assert i in init;
      FromOwn(i, init, rows);
    }
  }

  lemma FromLast(tag: Tag, targets: seq<Inbound>, rows: seq<Row>)
    requires targets != []
    ensures FromTargets(tag, targets, rows) == FromTargets(tag, targets[..|targets| - 1], rows)
         + if targets[|targets| - 1].tag == tag then Clients(targets[|targets| - 1], rows) else []
  {}

  lemma OthersBefore(targets: seq<Inbound>)
    requires DistinctTags(targets) && targets != []
    ensures forall j :: j in targets[..|targets| - 1] ==> j.tag != targets[|targets| - 1].tag
    ensures DistinctTags(targets[..|targets| - 1])
  {}

  lemma {:induction false} GatheredKinds(inbounds: seq<Inbound>, kinds: seq<ProxyType>, rows: seq<Row>, i: Inbound)
    requires DistinctTags(inbounds) && i in inbounds && Distinct(kinds)
    ensures Gathered(i.tag, inbounds, kinds, rows)
         == if i.protocol in kinds then Clients(i, RowsOfKind(rows, i.protocol)) else []
  {
    if kinds != [] {
      var init, p := kinds[..|kinds| - 1], kinds[|kinds| - 1];
      assert kinds == init + [p];
      GatheredKinds(inbounds, init, rows, i);
      OfProtocolDistinct(inbounds, p);
      if p == i.protocol {
        FromOwn(i, OfProtocol(inbounds, p), RowsOfKind(rows, p));
      } else {
        OtherTags(inbounds, i, OfProtocol(inbounds, p), p);
        FromOthers(i.tag, OfProtocol(inbounds, p), RowsOfKind(rows, p));
      }
    }
  }

  lemma {:induction false} KindsAre(rows: seq<Row>, p: ProxyType)
    ensures Distinct(KindsOf(rows)) && (p !in KindsOf(rows) ==> RowsOfKind(rows, p) == [])
  {
    if rows != [] { KindsAre(rows[..|rows| - 1], p); }
  }

  /** With distinct tags, what a tag gains is the clients of its own inbound, row by
      row in the order of the query. */
  lemma GatheredIsOwn(inbounds: seq<Inbound>, rows: seq<Row>, i: Inbound)
    requires DistinctTags(inbounds) && i in inbounds
    ensures Gathered(i.tag, inbounds, KindsOf(rows), rows) == ClientsOf(i, rows)
  {
    KindsAre(rows, i.protocol);
    GatheredKinds(inbounds, KindsOf(rows), rows, i);
    ClientsSkipOtherKinds(i, rows);
  }

  /** An inbound of another protocol shares no tag with these. */
  lemma OtherTags(inbounds: seq<Inbound>, i: Inbound, targets: seq<Inbound>, p: ProxyType)
    requires DistinctTags(inbounds) && i in inbounds && i.protocol != p
    requires forall j :: j in targets ==> j in inbounds && j.protocol == p
    ensures forall j :: j in targets ==> j.tag != i.tag
  {
    forall j | j in targets ensures j.tag != i.tag {
      if j.tag == i.tag { TagOwner(inbounds, i, j); }
    }
  }

  /** What a defaultdict answers for a type. */
  function Group(grouped: map<ProxyType, seq<Row>>, p: ProxyType): seq<Row> {
    if p in grouped then grouped[p] else []
  }

  lemma RowsOfKindAppend(rows: seq<Row>, k: nat, p: ProxyType)
    requires k < |rows|
    ensures RowsOfKind(rows[..k + 1], p) == RowsOfKind(rows[..k], p) + (if rows[k].kind == p then [rows[k]] else [])
  {
    assert rows[..k + 1][..k] == rows[..k];
  }

  lemma GroupStep(rows: seq<Row>, k: nat, grouped: map<ProxyType, seq<Row>>)
    requires k < |rows|
    requires forall p :: Group(grouped, p) == RowsOfKind(rows[..k], p)
    ensures var after := grouped[rows[k].kind := Group(grouped, rows[k].kind) + [rows[k]]];
            forall p :: Group(after, p) == RowsOfKind(rows[..k + 1], p)
  {
    var after := grouped[rows[k].kind := Group(grouped, rows[k].kind) + [rows[k]]];
    forall p ensures Group(after, p) == RowsOfKind(rows[..k + 1], p) {
      RowsOfKindAppend(rows, k, p);
    }
  }

  /** `grouped_data`: the rows by proxy type, and its keys in insertion order. */
  method GroupRows(rows: seq<Row>) returns (grouped: map<ProxyType, seq<Row>>, kinds: seq<ProxyType>)
    ensures kinds == KindsOf(rows)
    ensures forall p :: Group(grouped, p) == RowsOfKind(rows, p)
  {
    grouped, kinds := map[], [];
    for k := 0 to |rows|
      invariant kinds == KindsOf(rows[..k])
      invariant forall p :: Group(grouped, p) == RowsOfKind(rows[..k], p)
    {
      GroupStep(rows, k, grouped);
      assert rows[..k + 1][..k] == rows[..k];
      if rows[k].kind !in kinds { kinds := kinds + [rows[k].kind]; }
      grouped := grouped[rows[k].kind := Group(grouped, rows[k].kind) + [rows[k]]];
    }
    assert rows[..|rows|] == rows;
  }

  /** The two inner loops: every row into every inbound of its protocol. */
  method FillInbounds(clients: map<Tag, seq<Account>>, targets: seq<Inbound>, rows: seq<Row>)
    returns (filled: map<Tag, seq<Account>>)
    requires forall i :: i in targets ==> i.tag in clients
    ensures Filled(clients, filled, targets, rows)
  {
    filled := clients;
    for k := 0 to |targets|
      invariant Filled(clients, filled, targets[..k], rows)
    {
      var i := targets[k];
      TakeNext(targets, k);
      FillNext(clients, filled, targets[..k], i, rows);
      var extended := AppendClients(filled[i.tag], i, rows);
      filled := filled[i.tag := extended];
    }
    assert targets[..|targets|] == targets;
  }

  lemma {:induction false} OfProtocolDistinct(inbounds: seq<Inbound>, p: ProxyType)
    requires DistinctTags(inbounds)
    ensures DistinctTags(OfProtocol(inbounds, p))
  {
    if inbounds != [] {
      var before := inbounds[..|inbounds| - 1];
      OfProtocolDistinct(before, p);
      forall i | i in OfProtocol(before, p) ensures i.tag != inbounds[|inbounds| - 1].tag {
        assert i in before;
      }
    }
  }

  // ------------------------------------------------------------------- rebuild

  /** One row of the query: a live user's proxy, with the tags it is excluded
      from glued together by the database. */
  datatype Row = Row(id: UserId, username: string, kind: ProxyType, settings: Settings, excludedTags: Option<string>)

  /** `group_concat(inbound_tag)`: NULL when there are none. */
  function GroupConcat(tags: seq<Tag>): Option<string> {
    if tags == [] then None else Some(Join(tags, ","))
  }

  function DropEmpty(parts: seq<string>): seq<string> {
    if parts == [] then [] else (if parts[0] == "" then [] else [parts[0]]) + DropEmpty(parts[1..])
  }

  /** `[i for i in excluded_inbound_tags.split(',') if i]`. */
  function ReadExcluded(glued: Option<string>): seq<Tag> {
    if glued.None? || glued.value == "" then [] else DropEmpty(Split(glued.value, ','))
  }

  lemma {:induction false} DropEmptyIs(parts: seq<string>)
    ensures (forall p :: p in parts ==> p != "") ==> DropEmpty(parts) == parts
    ensures forall p :: p in DropEmpty(parts) ==> p in parts && p != ""
  {
    if parts != [] {
      DropEmptyIs(parts[1..]);
      assert parts == [parts[0]] + parts[1..];
      assert parts[0] in parts;
      assert forall p :: p in parts[1..] ==> p in parts;
    }
  }

  /** Tags survive being glued together exactly when none is empty and none
      holds a comma, which is what `_validate` demands of the file. */
  lemma ExcludedTagsRoundTrip(tags: seq<Tag>)
    ensures ReadExcluded(GroupConcat(tags)) == tags <==> forall t :: t in tags ==> t != "" && ',' !in t
  {
    if tags != [] {
      var glued := Join(tags, ",");
      DropEmptyIs(Split(glued, ','));
      if forall t :: t in tags ==> t != "" && ',' !in t {
        SplitJoin(tags, ',');
        DropEmptyIs(tags);
        assert glued != "" by {
          assert tags[0] in tags;
        }
      }
    }
  }

  function RebuildSettings(i: Inbound, s: Settings): (r: Settings)
    ensures Sent(r, s, i, true)
  {
    if s.Flow() != "" && !i.KeepsFlow() then s.WithoutFlow() else s
  }

  function UpdateSettings(i: Inbound, s: Settings): (r: Settings)
    ensures Sent(r, s, i, false)
  {
    if s.Flow() != "" && !i.UpdateKeepsFlow() then s.WithoutFlow() else s
  }

  /** What a core must be told of a proxy: its kind, its credential and its cipher as
      they are; its flow over TLS or REALITY on TCP or mKCP without an HTTP header,
      and no flow otherwise. `raw` says that "raw" passes for TCP. */
  predicate Sent(r: Settings, s: Settings, i: Inbound, raw: bool) {
    && r.Kind() == s.Kind() && r.Credential() == s.Credential() && r.Cipher() == s.Cipher()
    && (if && (i.network == "tcp" || i.network == "kcp" || (raw && i.network == "raw"))
           && (i.tls == "tls" || i.tls == "reality")
           && i.headerType != "http"
        then r.Flow() == s.Flow()
        else r.Flow() == "")
  }

  /** The same for a row of the query. */
  predicate SentFor(a: Account, row: Row, i: Inbound) {
    a.email == Email(row.id, row.username) && Sent(a.settings, row.settings, i, true)
  }

  /** The rows that are not excluded from a tag. */
  function Admitted(tag: Tag, rows: seq<Row>): (r: seq<Row>)
    ensures forall row :: row in r <==> row in rows && tag !in ReadExcluded(row.excludedTags)
  {
    if rows == [] then []
    else
      var init, last := rows[..|rows| - 1], rows[|rows| - 1];
      assert rows == init + [last];
      if tag in ReadExcluded(last.excludedTags) then Admitted(tag, init) else Admitted(tag, init) + [last]
  }

  /** These clients, and behind them one for each admitted row, in the order of the
      rows, with the row's own identity and credential. */
  ghost predicate Extends(start: seq<Account>, clients: seq<Account>, i: Inbound, rows: seq<Row>) {
    && start <= clients && |clients| == |start| + |rows|
    && forall k :: 0 <= k < |rows| ==> SentFor(clients[|start| + k], rows[k], i)
  }

  lemma ExtendsNext(start: seq<Account>, clients: seq<Account>, i: Inbound, rows: seq<Row>, row: Row)
    requires Extends(start, clients, i, rows)
    ensures Extends(start, clients + [Account(Email(row.id, row.username), RebuildSettings(i, row.settings))],
                    i, rows + [row])
  {}

  lemma {:induction false} ClientsExtend(start: seq<Account>, i: Inbound, rows: seq<Row>)
    ensures Extends(start, start + Clients(i, rows), i, Admitted(i.tag, rows))
  {
    if rows != [] {
      var init, row := rows[..|rows| - 1], rows[|rows| - 1];
      ClientsExtend(start, i, init);
      if i.tag !in ReadExcluded(row.excludedTags) {
        ExtendsNext(start, start + Clients(i, init), i, Admitted(i.tag, init), row);
        Associate(start, Clients(i, init), [Account(Email(row.id, row.username), RebuildSettings(i, row.settings))]);
      }
    } else {
      assert start + [] == start;
    }
  }

  predicate Carries(i: Inbound, u: User) {
    i.protocol in u.proxies && i.tag !in u.proxies[i.protocol].excluded
  }

  /** The account a rebuild gives a user on an inbound it may use. */
  function AccountOn(i: Inbound, u: User): Account
    requires Carries(i, u)
  {
    Account(u.Mail(), RebuildSettings(i, u.proxies[i.protocol].settings))
  }

  /** The clients of one inbound, row by row. */
  function Clients(i: Inbound, rows: seq<Row>): seq<Account> {
    if rows == [] then []
    else
      var row := rows[|rows| - 1];
      var before := Clients(i, rows[..|rows| - 1]);
      if i.tag in ReadExcluded(row.excludedTags) then before
      else before + [Account(Email(row.id, row.username), RebuildSettings(i, row.settings))]
  }

  function RowsOfKind(rows: seq<Row>, p: ProxyType): seq<Row> {
    if rows == [] then []
    else
      var row := rows[|rows| - 1];
      RowsOfKind(rows[..|rows| - 1], p) + (if row.kind == p then [row] else [])
  }

  function ClientsOf(i: Inbound, rows: seq<Row>): seq<Account> {
    if rows == [] then []
    else
      var row := rows[|rows| - 1];
      var before := ClientsOf(i, rows[..|rows| - 1]);
      if row.kind != i.protocol || i.tag in ReadExcluded(row.excludedTags) then before
      else before + [Account(Email(row.id, row.username), RebuildSettings(i, row.settings))]
  }

  lemma ClientsLast(i: Inbound, rows: seq<Row>, row: Row)
    ensures Clients(i, rows + [row]) ==
            Clients(i, rows) + (if i.tag in ReadExcluded(row.excludedTags) then []
                                else [Account(Email(row.id, row.username), RebuildSettings(i, row.settings))])
  {
    assert (rows + [row])[..|rows|] == rows;
  }

  lemma {:induction false} ClientsSkipOtherKinds(i: Inbound, rows: seq<Row>)
    ensures Clients(i, RowsOfKind(rows, i.protocol)) == ClientsOf(i, rows)
  {
    if rows != [] {
      var before, row := rows[..|rows| - 1], rows[|rows| - 1];
      ClientsSkipOtherKinds(i, before);
      var kept := RowsOfKind(before, i.protocol);
      if row.kind == i.protocol {
        assert RowsOfKind(rows, i.protocol) == kept + [row];
        ClientsLast(i, kept, row);
      } else {
        assert RowsOfKind(rows, i.protocol) == kept;
      }
    }
  }

  lemma ClientsStep(start: seq<Account>, i: Inbound, rows: seq<Row>, k: nat)
    requires k < |rows|
    ensures start + Clients(i, rows[..k + 1]) ==
            if i.tag in ReadExcluded(rows[k].excludedTags) then start + Clients(i, rows[..k])
            else start + Clients(i, rows[..k])
                 + [Account(Email(rows[k].id, rows[k].username), RebuildSettings(i, rows[k].settings))]
  {
    TakeNext(rows, k);
    ClientsLast(i, rows[..k], rows[k]);
    if i.tag !in ReadExcluded(rows[k].excludedTags) {
      Associate(start, Clients(i, rows[..k]),
                [Account(Email(rows[k].id, rows[k].username), RebuildSettings(i, rows[k].settings))]);
    }
  }

  method AppendClients(start: seq<Account>, i: Inbound, rows: seq<Row>) returns (clients: seq<Account>)
    ensures clients == start + Clients(i, rows)
    ensures Extends(start, clients, i, Admitted(i.tag, rows))
  {
    clients := start;
    for k := 0 to |rows|
      invariant clients == start + Clients(i, rows[..k])
    {
      var row := rows[k];
      ClientsStep(start, i, rows, k);
      if i.tag in ReadExcluded(row.excludedTags) { continue; }
      var s := row.settings;
      if s.Flow() != "" && !i.KeepsFlow() { s := s.WithoutFlow(); }
      clients := clients + [Account(Email(row.id, row.username), s)];
    }
    assert rows[..|rows|] == rows;
    ClientsExtend(start, i, rows);
  }
}
