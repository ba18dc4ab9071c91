/** Unique proxy names in the clash and sing-box subscriptions: an unbounded
    suffix search that a pigeonhole argument stops. */
module Remarks {
  import opened Text

  /** `f'{remark} ({c})'`. */
  function Candidate(remark: string, c: nat): string {
    remark + " (" + Decimal(c) + ")"
  }

  lemma CandidateInjective(remark: string, c: nat, d: nat)
    requires Candidate(remark, c) == Candidate(remark, d)
    ensures c == d
  {
    var x, y := Candidate(remark, c), Candidate(remark, d);
    assert x[|remark| + 2..|x| - 1] == Decimal(c);
    assert y[|remark| + 2..|y| - 1] == Decimal(d);
    DecimalInjective(c, d);
  }

  function Members(names: seq<string>): set<string> {
    set n | n in names
  }

  lemma {:induction false} MembersSize(names: seq<string>)
    ensures |Members(names)| <= |names|
  {
    if names == [] {
      assert Members(names) == {};
    } else {
      var before := names[..|names| - 1];
      MembersSize(before);
      assert names == before + [names[|names| - 1]];
      assert Members(names) == Members(before) + {names[|names| - 1]};
    }
  }

  /** The name itself and its candidates up to a counter, all different. */
  ghost function Tried(remark: string, c: nat): set<string> {
    if c <= 2 then {remark} else Tried(remark, c - 1) + {Candidate(remark, c - 1)}
  }

  lemma {:induction false} TriedSize(remark: string, c: nat)
    requires c >= 2
    ensures |Tried(remark, c)| == c - 1
    ensures forall d: nat :: d >= c ==> Candidate(remark, d) !in Tried(remark, c)
  {
    if c == 2 {
      assert forall d: nat :: |Candidate(remark, d)| > |remark|;
    } else {
      TriedSize(remark, c - 1);
      forall d: nat | d >= c ensures Candidate(remark, d) !in Tried(remark, c) {
        if Candidate(remark, d) == Candidate(remark, c - 1) {
          CandidateInjective(remark, d, c - 1);
        }
      }
    }
  }

  /** Pigeonhole: a list cannot hold more taken candidates than it is long. */
  lemma Pigeonhole(taken: seq<string>, remark: string, c: nat)
    requires c >= 2 && Tried(remark, c) <= Members(taken)
    ensures c <= |taken| + 1
  {
    TriedSize(remark, c);
    SubsetSize(Tried(remark, c), Members(taken));
    MembersSize(taken);
  }

  /** The first counter from `c` on whose candidate is free. */
  function FirstFree(taken: seq<string>, remark: string, c: nat): (r: nat)
    requires c >= 2 && Tried(remark, c) <= Members(taken)
    ensures c <= r <= |taken| + 1 && Candidate(remark, r) !in taken
    ensures forall d :: c <= d < r ==> Candidate(remark, d) in taken
    decreases |taken| + 1 - c
  {
    Pigeonhole(taken, remark, c);
    if Candidate(remark, c) !in taken then c
    else
      assert Tried(remark, c + 1) == Tried(remark, c) + {Candidate(remark, c)};
      Pigeonhole(taken, remark, c + 1);
      FirstFree(taken, remark, c + 1)
  }

  /** The name a remark gets: itself if free, else its first free candidate. */
  function Chosen(taken: seq<string>, remark: string): (name: string)
    ensures name !in taken
  {
    if remark !in taken then remark else Candidate(remark, FirstFree(taken, remark, 2))
  }

  /** `_remark_validation`: the first free name, found before the counter
      passes the number of names by more than one. */
  method RemarkValidation(taken: seq<string>, remark: string) returns (name: string, counter: nat)
    ensures name == Chosen(taken, remark) && name !in taken
    ensures remark !in taken ==> name == remark
    ensures remark in taken ==>
              && name == remark + " (" + Decimal(counter) + ")" && 2 <= counter <= |taken| + 1
              && forall d :: 2 <= d < counter ==> Candidate(remark, d) in taken
  {
    if remark !in taken { return remark, 0; }
    counter := 2;
    while true
      invariant 2 <= counter <= |taken| + 1
      invariant Tried(remark, counter) <= Members(taken)
      invariant forall d :: 2 <= d < counter ==> Candidate(remark, d) in taken
      decreases |taken| + 1 - counter
    {
      name := Candidate(remark, counter);
      if name !in taken {
        FreeIsUnique(taken, remark, counter);
        return;
      }
      assert Tried(remark, counter + 1) == Tried(remark, counter) + {name};
      Pigeonhole(taken, remark, counter + 1);
      counter := counter + 1;
    }
  }

  /** There is only one first free counter. */
  lemma FreeIsUnique(taken: seq<string>, remark: string, c: nat)
    requires remark in taken && c >= 2 && Candidate(remark, c) !in taken
    requires forall d :: 2 <= d < c ==> Candidate(remark, d) in taken
    ensures c == FirstFree(taken, remark, 2)
  {}

  lemma DistinctAppend(names: seq<string>, name: string)
    ensures Distinct(names + [name]) <==> Distinct(names) && name !in names
  {
    var all := names + [name];
    assert all[..|names|] == names;
    if i, j :| 0 <= i < j < |names| && names[i] == names[j] {
      assert all[i] == all[j];
    }
    if i :| 0 <= i < |names| && names[i] == name {
      assert all[i] == all[|names|];
    }
  }

  datatype Node = Node(name: string, protocol: string)

  function Names(nodes: seq<Node>): seq<string> {
    seq(|nodes|, i requires 0 <= i < |nodes| => nodes[i].name)
  }

  /** Networks both clash dialects and sing-box cannot carry. */
  predicate Unsupported(network: string) {
    network == "kcp" || network == "splithttp" || network == "xhttp"
  }

  class ClashConfiguration {
    var proxies: seq<Node>
    var remarks: seq<string>

    /** Every proxy's name is recorded, and no name is recorded twice. */
    ghost predicate Valid()
      reads this
    {
      Names(proxies) == remarks && Distinct(remarks)
    }

    constructor ()
      ensures Valid() && proxies == []
    {
      proxies, remarks := [], [];
    }

    /** `add` of clash (`meta` false) and of clash-meta (`meta` true). */
    method Add(meta: bool, remark: string, network: string, headerType: string, protocol: string)
      requires Valid()
      modifies this
      ensures Valid()
      ensures (remarks == old(remarks) && proxies == old(proxies)) ||
              (|proxies| == |old(proxies)| + 1 && proxies[..|old(proxies)|] == old(proxies) &&
               proxies[|old(proxies)|] == Node(Chosen(old(remarks), remark), protocol))
      ensures |proxies| > |old(proxies)| <==>
              && network != "kcp" && network != "splithttp" && network != "xhttp"
              && !(meta && network == "quic" && headerType != "none")
              && (protocol == "vmess" || protocol == "trojan" || protocol == "shadowsocks" ||
                  (meta && protocol == "vless"))
    {
      if Unsupported(network) || (meta && network == "quic" && headerType != "none") { return; }
      var name, _ := RemarkValidation(remarks, remark);
      if protocol != "vmess" && protocol != "trojan" && protocol != "shadowsocks" &&
        !(meta && protocol == "vless") { return; }
      DistinctAppend(remarks, name);
      proxies := proxies + [Node(name, protocol)];
      remarks := remarks + [name];
    }
  }

  /** What sing-box cannot carry. */
  predicate Skipped(network: string, headerType: string) {
    Unsupported(network) || (network == "quic" && headerType != "none")
  }

  class SingBoxConfiguration {
    const template: seq<Node>
    var outbounds: seq<Node>
    var remarks: seq<string>

    /** The outbounds are the template's followed by one per recorded name. */
    ghost predicate Valid()
      reads this
    {
      && |template| <= |outbounds| && outbounds[..|template|] == template
      && Names(outbounds[|template|..]) == remarks && Distinct(remarks)
    }

    constructor (template: seq<Node>)
      ensures Valid() && this.template == template && outbounds == template && remarks == []
    {
      this.template, outbounds, remarks := template, template, [];
    }

    /** `add`: the name is recorded first, the outbound follows whatever the
        protocol is. Names are compared with earlier names only: the tags stay
        distinct exactly when the chosen name is not one of the template's. */
    method Add(remark: string, network: string, headerType: string, protocol: string)
      requires Valid()
      modifies this
      ensures Valid()
      ensures remarks == old(remarks) && outbounds == old(outbounds) <==>
                || network == "kcp" || network == "splithttp" || network == "xhttp"
                || (network == "quic" && headerType != "none")
      ensures remarks != old(remarks) ==>
                && remarks == old(remarks) + [Chosen(old(remarks), remark)]
                && outbounds == old(outbounds) + [Node(Chosen(old(remarks), remark), protocol)]
                && (Distinct(old(Names(outbounds))) ==>
                      (Distinct(Names(outbounds)) <==> Chosen(old(remarks), remark) !in Names(template)))
    {
      if Skipped(network, headerType) { return; }
      var name, _ := RemarkValidation(remarks, remark);
      DistinctAppend(remarks, name);
      ghost var tags, added := Names(outbounds), outbounds[|template|..];
      TagsAre(template, remarks, outbounds, Node(name, protocol));
      DistinctAppend(tags, name);
      remarks := remarks + [name];
      outbounds := outbounds + [Node(name, protocol)];
      assert outbounds[|template|..] == added + [Node(name, protocol)];
    }
  }

  /** The tags are the template's and then the recorded names. */
  lemma TagsAre(template: seq<Node>, remarks: seq<string>, outbounds: seq<Node>, n: Node)
    requires |template| <= |outbounds| && outbounds[..|template|] == template
    requires Names(outbounds[|template|..]) == remarks
    ensures Names(outbounds) == Names(template) + remarks
    ensures Names(outbounds + [n]) == Names(outbounds) + [n.name]
  {
    var rest := outbounds[|template|..];
    assert outbounds == template + rest;
    forall i | 0 <= i < |outbounds| ensures Names(outbounds)[i] == (Names(template) + remarks)[i] {
      if i >= |template| {
        assert rest[i - |template|] == outbounds[i] && Names(rest)[i - |template|] == remarks[i - |template|];
      }
    }
  }

  /** The shipped search does let a remark repeat a tag of the template. */
  method TemplateClash() returns (config: SingBoxConfiguration)
    ensures fresh(config) && config.Valid() && config.remarks == ["direct"]
    ensures Distinct(Names(config.template)) && !Distinct(Names(config.outbounds))
  {
    config := new SingBoxConfiguration([Node("direct", "direct")]);
    config.Add("direct", "tcp", "", "vmess");
    assert Names(config.template)[0] == "direct";
  }
}
