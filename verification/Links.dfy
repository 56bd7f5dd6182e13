/** The node side of an exit link: its plan up and down, and the gate the links share. */
module Links {
  import opened Outcomes
  import opened Peers
  import opened Kernel
  import opened Subjects
  import opened RuleLists

  /** endpointPort and addr are None where the text does not parse. */
  datatype Link = Link(
    dev: Iface, keyFile: string, port: nat, peerKey: string, endpointPort: Option<int>, addr: Option<Prefix>,
    table: nat, sources: seq<Prefix>)

  const NAT_CHAIN: Key := (Nat, "STACKR-NAT")
  const GATE: Key := (Filter, "STACKR-XN")
  const RAW_CHAIN: Key := (Raw, "STACKR-RAW")

  predicate BadName(d: Iface) { d == "" || |d| > 15 }

  predicate BadPort(p: Option<int>) { p == None || p.value < 1 || p.value > 65535 }

  function LinkError(l: Link): Option<PlanError> {
    if BadName(l.dev) then Some(BadInterface)
    else if l.keyFile == "" || l.peerKey == "" || l.port < 1 || l.table < 1 then Some(Incomplete)
    else if l.addr == None || l.addr.value.bits > 32 then Some(BadAddress)
    else if BadPort(l.endpointPort) then Some(BadEndpoint)
    else RangesError(l.sources)
  }

  function Est(d: Iface): FwRule { FwRule([In(d), State(StEstablished)], Accept) }
  function Bar(d: Iface): FwRule { FwRule([In(d)], Deny) }
  function RawSpot(d: Iface, src: Prefix): Spot { (RAW_CHAIN, FwRule([In(d), Dst(src)], Accept)) }

  function NetUp(l: Link): seq<Step> {
    [Quiet(LinkDel(l.dev)), Do(LinkAdd(l.dev)), Do(LinkSet(l.dev, ["wg", l.peerKey])), Do(LinkSet(l.dev, ["addr"])),
     Do(LinkSet(l.dev, ["up"])), Do(RouteReplace(DEFAULT, l.dev, l.table))]
  }

  function Adds(l: Link): seq<Addition> {
    [((NAT_CHAIN, FwRule([Out(l.dev)], Accept)), true), ((GATE, Est(l.dev)), true), ((GATE, Bar(l.dev)), false)]
    + seq(|l.sources|, i requires 0 <= i < |l.sources| => (RawSpot(l.dev, l.sources[i]), true))
  }

  function Spots(l: Link): seq<Spot> {
    [(NAT_CHAIN, FwRule([Out(l.dev)], Accept)), (GATE, Est(l.dev)), (GATE, Bar(l.dev))]
    + seq(|l.sources|, i requires 0 <= i < |l.sources| => RawSpot(l.dev, l.sources[i]))
  }

  function LinkUp(l: Link): Result<seq<Step>, PlanError> {
    match LinkError(l)
    case Some(e) => Err(e)
    case None => Ok(NetUp(l) + Onces(Adds(l)))
  }

  function NetDown(l: Link): seq<Step> { [Quiet(RouteFlush(l.table)), Quiet(LinkDel(l.dev))] }

  function LinkDown(l: Link): seq<Step> { NetDown(l) + Erasures(Spots(l)) }

  /** The plans as they are built, one source at a time. */
  method BuildLinkUp(l: Link) returns (r: Result<seq<Step>, PlanError>)
    ensures r == LinkUp(l)
    ensures r.Ok? <==>
      && 0 < |l.dev| <= 15 && l.keyFile != "" && l.peerKey != "" && l.port > 0 && l.table > 0
      && l.addr.Some? && l.addr.value.bits <= 32 && l.endpointPort.Some? && 1 <= l.endpointPort.value <= 65535
      && l.sources != [] && forall i :: 0 <= i < |l.sources| ==> l.sources[i].bits <= 32
  {
    var e := LinkError(l);
    if e.Some? {
      return Err(e.value);
    }
    var s := NetUp(l)
      + [Once((NAT_CHAIN, FwRule([Out(l.dev)], Accept)), true), Once((GATE, Est(l.dev)), true),
        Once((GATE, Bar(l.dev)), false)];
    var i := 0;
    while i < |l.sources|
      invariant 0 <= i <= |l.sources| && s == NetUp(l) + Onces(Adds(l)[..3 + i])
    {
      s := s + [Once(RawSpot(l.dev, l.sources[i]), true)];
      assert Adds(l)[..3 + i + 1] == Adds(l)[..3 + i] + [(RawSpot(l.dev, l.sources[i]), true)];
      i := i + 1;
    }
    assert Adds(l)[..3 + i] == Adds(l);
    return Ok(s);
  }

  method BuildLinkDown(l: Link) returns (s: seq<Step>)
    ensures s == LinkDown(l)
  {
    s := NetDown(l) + [Erase((NAT_CHAIN, FwRule([Out(l.dev)], Accept))), Erase((GATE, Est(l.dev))), Erase((GATE, Bar(l.dev)))];
    var i := 0;
    while i < |l.sources|
      invariant 0 <= i <= |l.sources| && s == NetDown(l) + Erasures(Spots(l)[..3 + i])
    {
      s := s + [Erase(RawSpot(l.dev, l.sources[i]))];
      assert Spots(l)[..3 + i + 1] == Spots(l)[..3 + i] + [RawSpot(l.dev, l.sources[i])];
      i := i + 1;
    }
    assert Spots(l)[..3 + i] == Spots(l);
  }

  // ---- up and down ----

  lemma {:induction false} NetOnly(k: Kernel, steps: seq<Step>, broken: set<Cmd>)
    requires forall i :: 0 <= i < |steps| ==> !IsFw(steps[i].cmd) && steps[i].check == None
    ensures Apply(k, steps, broken).kernel.fw == k.fw
    decreases |steps|
  {
    if steps != [] {
      NetOnly(RunStep(k, steps[0], broken).kernel, steps[1..], broken);
    }
  }

  lemma SpotsAdded(l: Link)
    ensures SpotsOf(Adds(l)) == set sp | sp in Spots(l)
  {
    forall sp | sp in Spots(l) ensures sp in SpotsOf(Adds(l)) {
      var i :| 0 <= i < |Spots(l)| && Spots(l)[i] == sp;
      assert Adds(l)[i].0 == sp && Adds(l)[i] in Adds(l);
    }
    forall a | a in Adds(l) ensures a.0 in Spots(l) {
      var i :| 0 <= i < |Adds(l)| && Adds(l)[i] == a;
      assert Spots(l)[i] == a.0;
    }
  }

  lemma UpOnFirewall(k: Kernel, l: Link, broken: set<Cmd>)
    ensures
      var a := Apply(k, NetUp(l) + Onces(Adds(l)), broken);
      && SameApart(k.fw, a.kernel.fw, SpotsOf(Adds(l))) && Gained(k.fw, a.kernel.fw, SpotsOf(Adds(l)))
      && (a.ok ==> forall sp :: sp in Spots(l) ==> Count(a.kernel.fw, sp) > 0)
      && (ChecksHold(Adds(l), broken) ==> GainedOnce(k.fw, a.kernel.fw))
  {
    NetOnly(k, NetUp(l), broken);
    ApplyConcat(k, NetUp(l), Onces(Adds(l)), broken);
    OncesEffect(Apply(k, NetUp(l), broken).kernel, Adds(l), SpotsOf(Adds(l)), broken);
    SpotsAdded(l);
  }

  lemma DownOnFirewall(k: Kernel, l: Link, broken: set<Cmd>)
    ensures
      var a := Apply(k, LinkDown(l), broken);
      && a.ok && SameApart(k.fw, a.kernel.fw, SpotsOf(Adds(l))) && Lessened(k.fw, a.kernel.fw, Spots(l))
      && (NoneLost(Spots(l), broken) ==>
            forall sp :: sp in Spots(l) && Count(k.fw, sp) > 0 ==> Count(a.kernel.fw, sp) < Count(k.fw, sp))
  {
    NetOnly(k, NetDown(l), broken);
    ApplyConcat(k, NetDown(l), Erasures(Spots(l)), broken);
    ApplyTwo(k, Quiet(RouteFlush(l.table)), Quiet(LinkDel(l.dev)), broken);
    SpotsAdded(l);
    ErasuresEffect(Apply(k, NetDown(l), broken).kernel, Spots(l), SpotsOf(Adds(l)), broken);
  }

  /** Bringing a link up again, fully or not, leaves every rule list as the first success did. */
  lemma UpAgainChangesNothing(k: Kernel, l: Link, broken: set<Cmd>, mid: Kernel, later: set<Cmd>)
    requires LinkError(l) == None && Apply(k, LinkUp(l).value, broken).ok
    requires mid.fw == Apply(k, LinkUp(l).value, broken).kernel.fw && ChecksHold(Adds(l), later)
    ensures Apply(mid, LinkUp(l).value, later).kernel.fw == mid.fw
  {
    UpOnFirewall(k, l, broken);
    SpotsAdded(l);
    NetOnly(mid, NetUp(l), later);
    ApplyConcat(mid, NetUp(l), Onces(Adds(l)), later);
    OncesIdle(Apply(mid, NetUp(l), later).kernel, Adds(l), later);
  }

  /** Down after Up gives back every chain, order included, exactly when none of the link's
      rules stood there before. */
  lemma DownUndoesUp(k: Kernel, l: Link, broken: set<Cmd>, mid: Kernel, later: set<Cmd>)
    requires LinkError(l) == None && Apply(k, LinkUp(l).value, broken).ok && ChecksHold(Adds(l), broken)
    requires mid.fw == Apply(k, LinkUp(l).value, broken).kernel.fw && NoneLost(Spots(l), later)
    ensures Apply(mid, LinkDown(l), later).kernel.fw == k.fw <==> forall sp :: sp in Spots(l) ==> Count(k.fw, sp) == 0
  {
    UpOnFirewall(k, l, broken);
    DownOnFirewall(mid, l, later);
    SpotsAdded(l);
    UpThenDown(k.fw, mid.fw, Apply(mid, LinkDown(l), later).kernel.fw, Adds(l), Spots(l));
  }

  // ---- the exit's table ----

  ghost predicate DefaultsOnly(n: Net, t: nat) { forall r :: r in OfTable(n, t) ==> r.dest == DEFAULT }

  lemma {:induction false} NotBySubset(rs: seq<Route>, dev: Iface)
    ensures forall r :: r in NotBy(rs, dev) ==> r in rs
  {
    if rs != [] {
      NotBySubset(rs[1..], dev);
    }
  }

  lemma {:induction false} LinkStepsKeepDefaults(k: Kernel, steps: seq<Step>, t: nat, broken: set<Cmd>)
    requires forall i :: 0 <= i < |steps| ==>
      steps[i].check == None && (steps[i].cmd.LinkDel? || steps[i].cmd.LinkAdd? || steps[i].cmd.LinkSet?)
    requires DefaultsOnly(k.net, t)
    ensures DefaultsOnly(Apply(k, steps, broken).kernel.net, t)
    decreases |steps|
  {
    if steps != [] {
      if steps[0].cmd.LinkDel? {
        NotBySubset(OfTable(k.net, t), steps[0].cmd.dev);
      }
      LinkStepsKeepDefaults(RunStep(k, steps[0], broken).kernel, steps[1..], t, broken);
    }
  }

  lemma BestOfDefaults(rs: seq<Route>, r: Route, dst: Addr)
    requires Contains(DEFAULT, dst) && r.dest == DEFAULT && forall x :: x in rs ==> x.dest == DEFAULT
    ensures Best(Replaced(rs, r), dst) == Some(r)
  {
    if rs != [] {
      assert rs[0] in rs;
      assert Replaced(rs, r)[1..] == rs[1..];
    }
  }

  /** A link that is up carries every IPv4 address its table is asked for, if the table held
      at most defaults before. */
  lemma DefaultThroughLink(k: Kernel, l: Link, broken: set<Cmd>, dst: Addr)
    requires LinkError(l) == None && Apply(k, LinkUp(l).value, broken).ok && Contains(DEFAULT, dst)
    requires DefaultsOnly(k.net, l.table)
    ensures
      var net := Apply(k, LinkUp(l).value, broken).kernel.net;
      l.dev in net.links && Best(OfTable(net, l.table), dst) == Some(Route(DEFAULT, l.dev))
  {
    var links, route := NetUp(l)[..5], Do(RouteReplace(DEFAULT, l.dev, l.table));
    assert NetUp(l) == links + [route];
    ApplyConcat(k, NetUp(l), Onces(Adds(l)), broken);
    ApplyConcat(k, links, [route], broken);
    var mid := Apply(k, links, broken).kernel;
    ApplyOne(mid, route, broken);
    LinkStepsKeepDefaults(k, links, l.table, broken);
    BestOfDefaults(OfTable(mid.net, l.table), Route(DEFAULT, l.dev), dst);
    OncesEffect(Apply(k, NetUp(l), broken).kernel, Adds(l), SpotsOf(Adds(l)), broken);
  }
}
