/** The exit side of a link: chains of its own for one client, and the way back for replies. */
module Serve {
  import opened Outcomes
  import opened Peers
  import opened Kernel
  import opened Subjects
  import opened RuleLists
  import opened Links
  import opened Refill
  import opened Fence
  import opened Traffic

  /** addr, peerAddr and the endpoint's port are None where the text does not parse; an absent
      endpoint is None outright. */
  datatype Serve = Serve(
    dev: Iface, keyFile: string, port: nat, peerKey: string, endpoint: Option<Option<int>>, addr: Option<Prefix>,
    peerAddr: Option<Prefix>, subnets: seq<Prefix>, uplink: Iface, table: nat, mark: nat, pref: nat)

  function ServeError(v: Serve): Option<PlanError> {
    if BadName(v.dev) || BadName(v.uplink) then Some(BadInterface)
    else if v.keyFile == "" || v.peerKey == "" || v.port < 1 || v.table < 1 || v.mark < 1 || v.pref < 1 then Some(Incomplete)
    else if v.endpoint.Some? && BadPort(v.endpoint.value) then Some(BadEndpoint)
    else if v.addr == None || v.addr.value.bits > 32 || v.peerAddr == None || v.peerAddr.value.bits > 32 then Some(BadAddress)
    else RangesError(v.subnets)
  }

  function MarkChain(v: Serve): Key { (Mangle, "STACKR-XM-" + v.dev) }
  function NatChain(v: Serve): Key { (Nat, "STACKR-XT-" + v.dev) }
  function ForwardChain(v: Serve): Key { (Filter, "STACKR-XF-" + v.dev) }
  const INPUT: Key := (Filter, "INPUT")

  function MarkRules(v: Serve): seq<FwRule> {
    [FwRule([In(v.dev), State(StNew)], SetConnMark(v.mark)), FwRule([HasConnMark(v.mark)], RestoreMark)]
  }

  function NatRules(v: Serve): seq<FwRule> {
    seq(|v.subnets|, i requires 0 <= i < |v.subnets| => FwRule([Src(v.subnets[i]), Out(v.uplink)], Masquerade))
  }

  function Refusals(v: Serve, n: nat): seq<FwRule>
    requires n <= |REFUSED|
  {
    seq(n, i requires 0 <= i < n => FwRule([In(v.dev), Dst(REFUSED[i])], Deny))
  }

  function ForwardRules(v: Serve): seq<FwRule> {
    [FwRule([Out(v.dev), State(StEstablished)], Accept)]
    + (Refusals(v, |REFUSED|) + [FwRule([In(v.dev), Out(v.uplink)], Accept), FwRule([In(v.dev)], Deny)])
  }

  function InputDrop(v: Serve): Spot { (INPUT, FwRule([In(v.dev)], Deny)) }
  function InputEcho(v: Serve): Spot { (INPUT, FwRule([In(v.dev), EchoRequest], Accept)) }

  function Jumps(v: Serve): seq<Spot> {
    [((Mangle, "PREROUTING"), FwRule([], Jump(MarkChain(v).1))),
     ((Nat, "POSTROUTING"), FwRule([], Jump(NatChain(v).1))),
     (USER, FwRule([], Jump(ForwardChain(v).1)))]
  }

  function ServePlan(v: Serve): Plan {
    Plan(
      [Quiet(LinkDel(v.dev)), Do(LinkAdd(v.dev)), Do(LinkSet(v.dev, ["wg", v.peerKey])),
       Do(LinkSet(v.dev, ["addr"])), Do(LinkSet(v.dev, ["up"]))],
      [(MarkChain(v), MarkRules(v)), (NatChain(v), NatRules(v)), (ForwardChain(v), ForwardRules(v))],
      [(Jumps(v)[0], true), (Jumps(v)[1], true), (Jumps(v)[2], true), (InputDrop(v), false), (InputEcho(v), true)],
      BackRoutes(v, |v.subnets|) + [Quiet(RuleDel(v.pref)), Do(RuleAdd(v.pref, PolicyRule(FwMark(v.mark), Lookup(v.table))))],
      Jumps(v) + [InputDrop(v), InputEcho(v)],
      [Quiet(RuleDel(v.pref)), Quiet(RouteFlush(v.table)), Quiet(LinkDel(v.dev))])
  }

  function BackRoutes(v: Serve, n: nat): seq<Step>
    requires n <= |v.subnets|
  {
    seq(n, i requires 0 <= i < n => Do(RouteReplace(v.subnets[i], v.dev, v.table)))
  }

  function ServeUp(v: Serve): Result<seq<Step>, PlanError> {
    match ServeError(v)
    case Some(e) => Err(e)
    case None => Ok(PlanUp(ServePlan(v)))
  }

  function ServeDown(v: Serve): seq<Step> { PlanDown(ServePlan(v)) }

  function OwnKeys(v: Serve): set<Key> { {MarkChain(v), NatChain(v), ForwardChain(v)} }

  lemma OwnKeysAre(v: Serve)
    ensures KeysOf(ServePlan(v).fills) == OwnKeys(v)
  {
    var fills := ServePlan(v).fills;
    assert fills[0].0 == MarkChain(v) && fills[1].0 == NatChain(v) && fills[2].0 == ForwardChain(v);
    assert fills[0] in fills && fills[1] in fills && fills[2] in fills;
  }

  lemma ServeProper(v: Serve)
    ensures Proper(ServePlan(v)) && KeysOf(ServePlan(v).fills) == OwnKeys(v)
  {
    NetStepsOnly(v);
    OwnKeysAre(v);
    RulesDoNotJump(v);
    HooksApart(v);
    HooksMatch(v);
  }

  lemma NetStepsOnly(v: Serve)
    ensures NetPart(ServePlan(v))
  {
  }

  lemma RulesDoNotJump(v: Serve)
    ensures ChainPart(ServePlan(v))
  {
    assert forall r :: r in MarkRules(v) ==> !r.target.Jump?;
    assert forall r :: r in NatRules(v) ==> !r.target.Jump?;
    assert forall r :: r in ForwardRules(v) ==> !r.target.Jump?;
  }

  /** The owned chains' names are none of the built-in ones'. */
  lemma HooksApart(v: Serve)
    ensures forall a :: a in ServePlan(v).adds ==> a.0.0 !in OwnKeys(v)
  {
    assert MarkChain(v).1[0] == 'S' && NatChain(v).1[0] == 'S' && ForwardChain(v).1[0] == 'S';
    assert "PREROUTING"[0] == 'P' && "POSTROUTING"[0] == 'P' && "DOCKER-USER"[0] == 'D' && "INPUT"[0] == 'I';
    assert INPUT !in OwnKeys(v) && USER !in OwnKeys(v);
  }

  lemma HooksMatch(v: Serve)
    ensures SpotsOf(ServePlan(v).adds) == set sp | sp in ServePlan(v).unhook
  {
    var adds, unhook := ServePlan(v).adds, ServePlan(v).unhook;
    forall sp | sp in unhook ensures sp in SpotsOf(adds) {
      var i :| 0 <= i < |unhook| && unhook[i] == sp;
      assert adds[i].0 == sp && adds[i] in adds;
    }
    forall a | a in adds ensures a.0 in unhook {
      var i :| 0 <= i < |adds| && adds[i] == a;
      assert unhook[i] == a.0;
    }
  }

  // ---- what forwarded packets meet ----

  lemma {:induction false} RefusalsEnd(v: Serve, n: nat, p: Packet)
    requires n <= |REFUSED|
    ensures FirstEnd(Refusals(v, n), p) ==
      if p.inDev == v.dev && exists i :: 0 <= i < n && Contains(REFUSED[i], p.dst) then Some(Deny) else None
  {
    if n > 0 {
      var last := FwRule([In(v.dev), Dst(REFUSED[n - 1])], Deny);
      assert Refusals(v, n) == Refusals(v, n - 1) + [last];
      FirstEndConcat(Refusals(v, n - 1), [last], p);
      RefusalsEnd(v, n - 1, p);
      HitsTwo(In(v.dev), Dst(REFUSED[n - 1]), Deny, p);
      assert [last][1..] == [];
    }
  }

  lemma ForwardEnd(v: Serve, p: Packet)
    ensures ChainVerdict(ForwardRules(v), p) ==
      if p.outDev == v.dev && StEstablished in p.states then Passed
      else if p.inDev != v.dev then FellThrough
      else if InAny(REFUSED, p.dst) || p.outDev != v.uplink then Denied
      else Passed
  {
    var reply := FwRule([Out(v.dev), State(StEstablished)], Accept);
    var tail := [FwRule([In(v.dev), Out(v.uplink)], Accept), FwRule([In(v.dev)], Deny)];
    FirstEndConcat([reply], Refusals(v, |REFUSED|) + tail, p);
    FirstEndConcat(Refusals(v, |REFUSED|), tail, p);
    RefusalsEnd(v, |REFUSED|, p);
    HitsTwo(Out(v.dev), State(StEstablished), Accept, p);
    HitsTwo(In(v.dev), Out(v.uplink), Accept, p);
    HitsOne(In(v.dev), Deny, p);
    assert [reply][1..] == [] && tail[1..] == [tail[1]] && tail[1..][1..] == [];
  }

  /** Once the serve is up, whatever its chains held before: a client's packets pass only to
      public destinations by the uplink, its replies pass back, nothing else of the link's
      passes, and packets of other interfaces are left to the rules that follow. */
  lemma ServeGuards(k: Kernel, v: Serve, broken: set<Cmd>, p: Packet)
    requires ServeError(v) == None && Apply(k, ServeUp(v).value, broken).ok
    ensures
      var fw := Apply(k, ServeUp(v).value, broken).kernel.fw;
      && ForwardChain(v) in fw && Count(fw, Jumps(v)[2]) > 0
      && (ChainVerdict(fw[ForwardChain(v)], p) == Passed <==>
            || (p.outDev == v.dev && StEstablished in p.states)
            || (p.inDev == v.dev && !InAny(REFUSED, p.dst) && p.outDev == v.uplink))
      && (ChainVerdict(fw[ForwardChain(v)], p) == FellThrough <==>
            p.inDev != v.dev && !(p.outDev == v.dev && StEstablished in p.states))
  {
    ServeProper(v);
    UpConverges(k, ServePlan(v), broken);
    assert ServePlan(v).fills[2] == (ForwardChain(v), ForwardRules(v));
    assert Jumps(v)[2] in SpotsOf(ServePlan(v).adds) by { assert ServePlan(v).adds[2] == (Jumps(v)[2], true); }
    ForwardEnd(v, p);
  }

  /** Masquerading touches exactly the assigned subnets on their way out by the uplink. */
  lemma NatOnlyAssigned(v: Serve, p: Packet)
    ensures (exists r :: r in NatRules(v) && Hits(r, p)) <==> InAny(v.subnets, p.src) && p.outDev == v.uplink
  {
    forall i | 0 <= i < |v.subnets|
      ensures Hits(NatRules(v)[i], p) <==> Contains(v.subnets[i], p.src) && p.outDev == v.uplink
    {
      HitsTwo(Src(v.subnets[i]), Out(v.uplink), Masquerade, p);
    }
    if InAny(v.subnets, p.src) && p.outDev == v.uplink {
      var i :| 0 <= i < |v.subnets| && Contains(v.subnets[i], p.src);
      assert NatRules(v)[i] in NatRules(v) && Hits(NatRules(v)[i], p);
    }
  }

  /** A serve of a new subnet list holds the same chains whatever stood there, an older list's
      among it. */
  lemma ServeConverges(k: Kernel, l: Kernel, v: Serve, broken: set<Cmd>, later: set<Cmd>)
    requires ServeError(v) == None
    requires Apply(k, ServeUp(v).value, broken).ok && Apply(l, ServeUp(v).value, later).ok
    ensures
      var one, two := Apply(k, ServeUp(v).value, broken).kernel.fw, Apply(l, ServeUp(v).value, later).kernel.fw;
      forall c :: c in OwnKeys(v) ==> c in one && c in two && one[c] == two[c]
  {
    ServeProper(v);
    UpConverges(k, ServePlan(v), broken);
    UpConverges(l, ServePlan(v), later);
    var fills := ServePlan(v).fills;
    assert fills[0].0 == MarkChain(v) && fills[1].0 == NatChain(v) && fills[2].0 == ForwardChain(v);
  }

  /** Taking the serve down gives back every chain exactly when none of its hooks stood there
      and each of its chains was missing, or empty with a stranger's jump to it. */
  lemma ServeUndone(k: Kernel, v: Serve, broken: set<Cmd>, later: set<Cmd>)
    requires ServeError(v) == None && Closed(k.fw) && Apply(k, ServeUp(v).value, broken).ok
    requires ChecksHold(ServePlan(v).adds, broken) && NothingLost(ServePlan(v), later)
    ensures
      var mid, own := Apply(k, ServeUp(v).value, broken).kernel, OwnKeys(v);
      Apply(mid, ServeDown(v), later).kernel.fw == k.fw <==>
        && (forall sp :: sp in Jumps(v) + [InputDrop(v), InputEcho(v)] ==> Count(k.fw, sp) == 0)
        && (forall c :: c in own && c in k.fw ==> k.fw[c] == [] && JumpedOut(k.fw, c, own))
  {
    ServeProper(v);
    Refill.DownUndoesUp(k, ServePlan(v), broken, Apply(k, ServeUp(v).value, broken).kernel, later);
  }

  // ---- the way back ----

  ghost predicate OnlyBy(n: Net, t: nat, dev: Iface) { forall r :: r in OfTable(n, t) ==> r.dev == dev }

  lemma {:induction false} ReplacedHas(rs: seq<Route>, r: Route)
    ensures r in Replaced(rs, r)
    ensures forall x :: x in Replaced(rs, r) ==> x == r || x in rs
    ensures forall x :: x in rs && x.dest != r.dest ==> x in Replaced(rs, r)
  {
    if rs == [] {
    } else if rs[0].dest == r.dest {
      assert Replaced(rs, r)[0] == r && rs == [rs[0]] + rs[1..];
    } else {
      ReplacedHas(rs[1..], r);
      assert Replaced(rs, r) == [rs[0]] + Replaced(rs[1..], r) && rs == [rs[0]] + rs[1..];
    }
  }

  ghost predicate Routed(n: Net, v: Serve, i: nat)
    requires i <= |v.subnets|
  {
    forall j :: 0 <= j < i ==> exists r :: r in OfTable(n, v.table) && r.dest == v.subnets[j]
  }

  lemma RouteAdded(k: Kernel, v: Serve, n: nat, broken: set<Cmd>)
    requires 0 < n <= |v.subnets| && OnlyBy(k.net, v.table, v.dev) && Routed(k.net, v, n - 1)
    requires RunStep(k, Do(RouteReplace(v.subnets[n - 1], v.dev, v.table)), broken).ok
    ensures
      var net := RunStep(k, Do(RouteReplace(v.subnets[n - 1], v.dev, v.table)), broken).kernel.net;
      OnlyBy(net, v.table, v.dev) && Routed(net, v, n)
  {
    ReplacedHas(OfTable(k.net, v.table), Route(v.subnets[n - 1], v.dev));
  }

  lemma {:induction false} BackRoutesEffect(k: Kernel, v: Serve, n: nat, broken: set<Cmd>)
    requires n <= |v.subnets| && OnlyBy(k.net, v.table, v.dev) && Apply(k, BackRoutes(v, n), broken).ok
    ensures var net := Apply(k, BackRoutes(v, n), broken).kernel.net; OnlyBy(net, v.table, v.dev) && Routed(net, v, n)
  {
    if n > 0 {
      var last := Do(RouteReplace(v.subnets[n - 1], v.dev, v.table));
      assert BackRoutes(v, n) == BackRoutes(v, n - 1) + [last];
      ApplyConcat(k, BackRoutes(v, n - 1), [last], broken);
      BackRoutesEffect(k, v, n - 1, broken);
      var mid := Apply(k, BackRoutes(v, n - 1), broken).kernel;
      ApplyOne(mid, last, broken);
      RouteAdded(mid, v, n, broken);
    }
  }

  lemma {:induction false} FwStepsKeepNet(k: Kernel, steps: seq<Step>, broken: set<Cmd>)
    requires forall i :: 0 <= i < |steps| ==> IsFw(steps[i].cmd)
    ensures Apply(k, steps, broken).kernel.net == k.net
    decreases |steps|
  {
    if steps != [] {
      FwStepsKeepNet(RunStep(k, steps[0], broken).kernel, steps[1..], broken);
    }
  }

  lemma {:induction false} LinkStepsKeepOnlyBy(k: Kernel, steps: seq<Step>, t: nat, dev: Iface, broken: set<Cmd>)
    requires forall i :: 0 <= i < |steps| ==>
      steps[i].check == None && (steps[i].cmd.LinkDel? || steps[i].cmd.LinkAdd? || steps[i].cmd.LinkSet?)
    requires OnlyBy(k.net, t, dev)
    ensures OnlyBy(Apply(k, steps, broken).kernel.net, t, dev)
    decreases |steps|
  {
    if steps != [] {
      if steps[0].cmd.LinkDel? {
        NotBySubset(OfTable(k.net, t), steps[0].cmd.dev);
      }
      LinkStepsKeepOnlyBy(RunStep(k, steps[0], broken).kernel, steps[1..], t, dev, broken);
    }
  }

  /** The last steps: a route per subnet, then the one rule at the link's priority. */
  lemma AfterEffect(k: Kernel, v: Serve, broken: set<Cmd>)
    requires OnlyBy(k.net, v.table, v.dev) && Apply(k, ServePlan(v).after, broken).ok
    ensures
      var net := Apply(k, ServePlan(v).after, broken).kernel.net;
      && OnlyBy(net, v.table, v.dev) && Routed(net, v, |v.subnets|)
      && v.pref in net.rules && net.rules[v.pref] == PolicyRule(FwMark(v.mark), Lookup(v.table))
  {
    var del, add := Quiet(RuleDel(v.pref)), Do(RuleAdd(v.pref, PolicyRule(FwMark(v.mark), Lookup(v.table))));
    ApplyConcat(k, BackRoutes(v, |v.subnets|), [del, add], broken);
    BackRoutesEffect(k, v, |v.subnets|, broken);
    RuleReplaced(Apply(k, BackRoutes(v, |v.subnets|), broken).kernel, v.pref,
      PolicyRule(FwMark(v.mark), Lookup(v.table)), broken);
  }

  lemma RuleReplaced(k: Kernel, pref: nat, r: PolicyRule, broken: set<Cmd>)
    requires Apply(k, [Quiet(RuleDel(pref)), Do(RuleAdd(pref, r))], broken).ok
    ensures
      var l := Apply(k, [Quiet(RuleDel(pref)), Do(RuleAdd(pref, r))], broken).kernel;
      && l == k.(net := k.net.(rules := l.net.rules)) && pref in l.net.rules && l.net.rules[pref] == r
  {
    ApplyTwo(k, Quiet(RuleDel(pref)), Do(RuleAdd(pref, r)), broken);
  }

  lemma {:induction false} HeadsAreFw(fills: seq<Fill>)
    ensures forall i :: 0 <= i < |Heads(fills)| ==> IsFw(Heads(fills)[i].cmd)
    ensures forall i :: 0 <= i < |Appends(fills)| ==> IsFw(Appends(fills)[i].cmd)
  {
    if fills != [] {
      HeadsAreFw(fills[1..]);
    }
  }

  lemma UpNet(k: Kernel, v: Serve, broken: set<Cmd>)
    requires Apply(k, PlanUp(ServePlan(v)), broken).ok && OnlyBy(k.net, v.table, v.dev)
    ensures
      var net := Apply(k, PlanUp(ServePlan(v)), broken).kernel.net;
      && OnlyBy(net, v.table, v.dev) && Routed(net, v, |v.subnets|)
      && v.pref in net.rules && net.rules[v.pref] == PolicyRule(FwMark(v.mark), Lookup(v.table))
  {
    var pl := ServePlan(v);
    var fw := Heads(pl.fills) + (Appends(pl.fills) + Onces(pl.adds));
    HeadsAreFw(pl.fills);
    assert PlanUp(pl) == pl.before + (fw + pl.after);
    ApplyConcat(k, pl.before, fw + pl.after, broken);
    LinkStepsKeepOnlyBy(k, pl.before, v.table, v.dev, broken);
    var k1 := Apply(k, pl.before, broken).kernel;
    ApplyConcat(k1, fw, pl.after, broken);
    FwStepsKeepNet(k1, fw, broken);
    AfterEffect(Apply(k1, fw, broken).kernel, v, broken);
  }

  /** Once the serve is up with a table of its own, a packet carrying its mark for an assigned
      subnet goes back into the link, whatever more specific route main has for it. */
  lemma RepliesReturn(k: Kernel, v: Serve, broken: set<Cmd>, p: Packet)
    requires ServeError(v) == None && Apply(k, ServeUp(v).value, broken).ok && OnlyBy(k.net, v.table, v.dev)
    requires v.pref <= LAST_PREF && p.mark == v.mark && InAny(v.subnets, p.dst)
    requires Undecided(Apply(k, ServeUp(v).value, broken).kernel.net, p, 0, v.pref)
    ensures PacketFate(Apply(k, ServeUp(v).value, broken).kernel.net, p) == Leaves(v.dev)
  {
    UpNet(k, v, broken);
    MarkedLeaves(Apply(k, ServeUp(v).value, broken).kernel.net, v, p);
  }

  lemma MarkedLeaves(net: Net, v: Serve, p: Packet)
    requires OnlyBy(net, v.table, v.dev) && Routed(net, v, |v.subnets|)
    requires v.pref in net.rules && net.rules[v.pref] == PolicyRule(FwMark(v.mark), Lookup(v.table))
    requires v.pref <= LAST_PREF && p.mark == v.mark && InAny(v.subnets, p.dst) && Undecided(net, p, 0, v.pref)
    ensures PacketFate(net, p) == Leaves(v.dev)
  {
    var i :| 0 <= i < |v.subnets| && Contains(v.subnets[i], p.dst);
    var r :| r in OfTable(net, v.table) && r.dest == v.subnets[i];
    assert Best(OfTable(net, v.table), p.dst).Some?;
    FateSkips(net, p, 0, v.pref);
  }

  /** The mark chain, exactly: a new flow from the link gets the link's mark, every packet of a
      flow that has it is marked with it, and no other packet is touched. */
  lemma FlowMarked(v: Serve, p: Packet)
    ensures
      var mine := (p.inDev == v.dev && StNew in p.states) || p.connMark == v.mark;
      Mangled(MarkRules(v), p) == if mine then p.(connMark := v.mark, mark := v.mark) else p
  {
    var rules := MarkRules(v);
    var q := if p.inDev == v.dev && StNew in p.states then p.(connMark := v.mark) else p;
    HitsTwo(In(v.dev), State(StNew), SetConnMark(v.mark), p);
    HitsOne(HasConnMark(v.mark), RestoreMark, q);
    assert rules[1..] == [rules[1]] && rules[1..][1..] == [];
    assert Mangled(rules, p) == Mangled(rules[1..], q);
    assert Mangled([rules[1]], q) == if q.connMark == v.mark then q.(mark := q.connMark) else q;
  }

  /** A client's flow there and back. The packet q opens it from the link; p is a later packet
      of the flow, so it carries the connection mark q was given. Once the serve is up, p is
      marked by the link's own chain and goes back into the link. */
  lemma FlowReturns(k: Kernel, v: Serve, broken: set<Cmd>, q: Packet, p: Packet)
    requires ServeError(v) == None && Apply(k, ServeUp(v).value, broken).ok && OnlyBy(k.net, v.table, v.dev)
    requires q.inDev == v.dev && StNew in q.states && p.connMark == Mangled(MarkRules(v), q).connMark
    requires v.pref <= LAST_PREF && InAny(v.subnets, p.dst)
    requires Undecided(Apply(k, ServeUp(v).value, broken).kernel.net, p.(mark := v.mark), 0, v.pref)
    ensures
      var l := Apply(k, ServeUp(v).value, broken).kernel;
      && MarkChain(v) in l.fw && Count(l.fw, Jumps(v)[0]) > 0
      && PacketFate(l.net, Mangled(l.fw[MarkChain(v)], p)) == Leaves(v.dev)
  {
    ServeProper(v);
    UpConverges(k, ServePlan(v), broken);
    assert ServePlan(v).fills[0] == (MarkChain(v), MarkRules(v));
    assert Jumps(v)[0] in SpotsOf(ServePlan(v).adds) by { assert ServePlan(v).adds[0] == (Jumps(v)[0], true); }
    FlowMarked(v, q);
    FlowMarked(v, p);
    assert Mangled(MarkRules(v), p) == p.(mark := v.mark);
    RepliesReturn(k, v, broken, p.(mark := v.mark));
  }

  // ---- the builder ----

  lemma {:induction false} HeadsConcat(a: seq<Fill>, b: seq<Fill>)
    ensures Heads(a + b) == Heads(a) + Heads(b)
  {
    if a == [] {
      assert a + b == b;
    } else {
      assert (a + b)[0] == a[0] && (a + b)[1..] == a[1..] + b;
      HeadsConcat(a[1..], b);
    }
  }

  lemma ThreeAppends(v: Serve)
    ensures Appends(ServePlan(v).fills) ==
      AppendAll(MarkChain(v), MarkRules(v)) + AppendAll(NatChain(v), NatRules(v)) + AppendAll(ForwardChain(v), ForwardRules(v))
  {
    var fills := ServePlan(v).fills;
    assert fills[1..][1..] == [fills[2]] && fills[1..][0] == fills[1];
    OneFill(ForwardChain(v), ForwardRules(v));
  }

  /** The plan as it is built. */
  method BuildServeUp(v: Serve) returns (r: Result<seq<Step>, PlanError>)
    ensures r == ServeUp(v)
    ensures r.Ok? <==>
      && 0 < |v.dev| <= 15 && 0 < |v.uplink| <= 15 && v.keyFile != "" && v.peerKey != ""
      && v.port > 0 && v.table > 0 && v.mark > 0 && v.pref > 0
      && (v.endpoint.Some? ==> v.endpoint.value.Some? && 1 <= v.endpoint.value.value <= 65535)
      && v.addr.Some? && v.addr.value.bits <= 32 && v.peerAddr.Some? && v.peerAddr.value.bits <= 32
      && v.subnets != [] && forall i :: 0 <= i < |v.subnets| ==> v.subnets[i].bits <= 32
  {
    var e := ServeError(v);
    if e.Some? {
      return Err(e.value);
    }
    var heads := BuildHeads(v);
    var chains := BuildChains(v);
    var after := BuildAfter(v);
    var hooks := [Once(Jumps(v)[0], true), Once(Jumps(v)[1], true), Once(Jumps(v)[2], true),
                  Once(InputDrop(v), false), Once(InputEcho(v), true)];
    HooksAre(v);
    return Ok(ServePlan(v).before + (heads + (chains + (hooks + after))));
  }

  lemma HooksAre(v: Serve)
    ensures Onces(ServePlan(v).adds) ==
      [Once(Jumps(v)[0], true), Once(Jumps(v)[1], true), Once(Jumps(v)[2], true), Once(InputDrop(v), false),
        Once(InputEcho(v), true)]
  {
  }

  method BuildHeads(v: Serve) returns (s: seq<Step>)
    ensures s == Heads(ServePlan(v).fills)
  {
    ghost var fills := ServePlan(v).fills;
    var chains := [MarkChain(v), NatChain(v), ForwardChain(v)];
    s := [];
    var i := 0;
    while i < 3
      invariant 0 <= i <= 3 && s == Heads(fills[..i])
    {
      assert chains[i] == fills[i].0;
      s := s + [Quiet(ChainNew(chains[i])), Do(ChainFlush(chains[i]))];
      assert fills[..i + 1] == fills[..i] + [fills[i]];
      HeadsConcat(fills[..i], [fills[i]]);
      OneFill(fills[i].0, fills[i].1);
      i := i + 1;
    }
    assert fills[..3] == fills;
  }

  method BuildAfter(v: Serve) returns (s: seq<Step>)
    ensures s == ServePlan(v).after
  {
    s := [];
    var i := 0;
    while i < |v.subnets|
      invariant 0 <= i <= |v.subnets| && s == BackRoutes(v, i)
    {
      s := s + [Do(RouteReplace(v.subnets[i], v.dev, v.table))];
      i := i + 1;
    }
    s := s + [Quiet(RuleDel(v.pref)), Do(RuleAdd(v.pref, PolicyRule(FwMark(v.mark), Lookup(v.table))))];
  }

  method BuildChains(v: Serve) returns (s: seq<Step>)
    ensures s == Appends(ServePlan(v).fills)
  {
    s := AppendAll(MarkChain(v), MarkRules(v));
    var i := 0;
    while i < |v.subnets|
      invariant 0 <= i <= |v.subnets| && s == AppendAll(MarkChain(v), MarkRules(v)) + AppendAll(NatChain(v), NatRules(v)[..i])
    {
      s := s + [Do(RuleAppend(NatChain(v), FwRule([Src(v.subnets[i]), Out(v.uplink)], Masquerade)))];
      assert NatRules(v)[..i + 1] == NatRules(v)[..i] + [NatRules(v)[i]];
      AppendOneMore(NatChain(v), NatRules(v)[..i], NatRules(v)[i]);
      i := i + 1;
    }
    assert NatRules(v)[..i] == NatRules(v);
    ghost var done := s;
    s := s + [Do(RuleAppend(ForwardChain(v), FwRule([Out(v.dev), State(StEstablished)], Accept)))];
    var first := [FwRule([Out(v.dev), State(StEstablished)], Accept)];
    assert AppendAll(ForwardChain(v), first + Refusals(v, 0)) == [Do(RuleAppend(ForwardChain(v), first[0]))];
    i := 0;
    while i < |REFUSED|
      invariant 0 <= i <= |REFUSED| && s == done + AppendAll(ForwardChain(v), first + Refusals(v, i))
    {
      var refusal := FwRule([In(v.dev), Dst(REFUSED[i])], Deny);
      s := s + [Do(RuleAppend(ForwardChain(v), refusal))];
      AppendOneMore(ForwardChain(v), first + Refusals(v, i), refusal);
      assert first + Refusals(v, i + 1) == first + Refusals(v, i) + [refusal];
      i := i + 1;
    }
    var tail := [FwRule([In(v.dev), Out(v.uplink)], Accept), FwRule([In(v.dev)], Deny)];
    s := s + AppendAll(ForwardChain(v), tail);
    AppendAllConcat(ForwardChain(v), first + Refusals(v, |REFUSED|), tail);
    assert first + Refusals(v, |REFUSED|) + tail == ForwardRules(v);
    ThreeAppends(v);
  }
}
