/** What packets meet on the host's own chains, where fence and serve hook theirs in. */
module Hooks {
  import opened Outcomes
  import opened Peers
  import opened Kernel
  import opened Subjects
  import opened RuleLists
  import opened Links
  import opened LinkTraffic
  import opened Refill
  import opened Fence
  import opened Serve
  import opened Traffic

  lemma OnceAtHead(k: Kernel, sp: Spot, broken: set<Cmd>)
    requires RunStep(k, Once(sp, true), broken).ok
    ensures
      var fw := RunStep(k, Once(sp, true), broken).kernel.fw;
      sp.0 in k.fw && sp.0 in fw && fw[sp.0] == (if Lacks(k.fw, sp, broken) then [sp.1] else []) + k.fw[sp.0]
  {
    assert sp.0 in k.fw ==> [] + k.fw[sp.0] == k.fw[sp.0];
  }

  lemma OncesSplit(adds: seq<Addition>, i: nat)
    requires i < |adds|
    ensures Onces(adds) == Onces(adds[..i]) + ([Once(adds[i].0, adds[i].1)] + Onces(adds[i + 1..]))
  {
  }

  /** The only rule added to a chain goes to its head, if it is lacking. */
  lemma HookAtHead(k: Kernel, adds: seq<Addition>, i: nat, broken: set<Cmd>)
    requires i < |adds| && adds[i].1 && Apply(k, Onces(adds), broken).ok
    requires forall j :: 0 <= j < |adds| && j != i ==> adds[j].0.0 != adds[i].0.0
    ensures
      var key, r, fw := adds[i].0.0, adds[i].0.1, Apply(k, Onces(adds), broken).kernel.fw;
      && key in k.fw && key in fw
      && fw[key] == (if Lacks(k.fw, adds[i].0, broken) then [r] else []) + k.fw[key]
  {
    var sp, front, back := adds[i].0, adds[..i], adds[i + 1..];
    var hook := Once(sp, true);
    OncesSplit(adds, i);
    ApplyConcat(k, Onces(front), [hook] + Onces(back), broken);
    OncesElsewhere(k, front, sp.0, broken);
    var k1 := Apply(k, Onces(front), broken).kernel;
    ApplyConcat(k1, [hook], Onces(back), broken);
    ApplyOne(k1, hook, broken);
    OnceAtHead(k1, sp, broken);
    OncesElsewhere(RunStep(k1, hook, broken).kernel, back, sp.0, broken);
  }

  /** The same for a plan with chains of its own. */
  lemma PlanHook(k: Kernel, pl: Plan, i: nat, broken: set<Cmd>)
    requires Proper(pl) && Apply(k, PlanUp(pl), broken).ok
    requires i < |pl.adds| && pl.adds[i].1 && forall j :: 0 <= j < |pl.adds| && j != i ==>
      pl.adds[j].0.0 != pl.adds[i].0.0
    ensures
      var key, r, fw := pl.adds[i].0.0, pl.adds[i].0.1, Apply(k, PlanUp(pl), broken).kernel.fw;
      && key in k.fw && key in fw
      && fw[key] == (if Lacks(k.fw, pl.adds[i].0, broken) then [r] else []) + k.fw[key]
  {
    var m := UpEffect(k, pl, broken);
    assert pl.adds[i] in pl.adds;
    HookAtHead(m, pl.adds, i, broken);
  }

  /** A plan's hook over a host's chain, and the chain it jumps to. */
  lemma PlanHooked(k: Kernel, pl: Plan, i: nat, fill: nat, own: seq<FwRule>, broken: set<Cmd>)
    requires Proper(pl) && Apply(k, PlanUp(pl), broken).ok && fill < |pl.fills|
    requires i < |pl.adds| && pl.adds[i].1 && forall j :: 0 <= j < |pl.adds| && j != i ==>
      pl.adds[j].0.0 != pl.adds[i].0.0
    requires pl.adds[i].0.0 in k.fw
    requires k.fw[pl.adds[i].0.0] == (if Lacks(k.fw, pl.adds[i].0, broken) then [] else [pl.adds[i].0.1]) + own
    ensures
      var fw := Apply(k, PlanUp(pl), broken).kernel.fw;
      && pl.adds[i].0.0 in fw && fw[pl.adds[i].0.0] == [pl.adds[i].0.1] + own
      && pl.fills[fill].0 in fw && fw[pl.fills[fill].0] == pl.fills[fill].1
  {
    PlanHook(k, pl, i, broken);
    UpConverges(k, pl, broken);
    assert [] + ([pl.adds[i].0.1] + own) == [pl.adds[i].0.1] + own && [] + own == own;
  }

  /** A chain of the host, with a jump to one of ours at its head and its own rules behind. */
  predicate Behind(k: Kernel, key: Key, chain: string, own: seq<FwRule>, broken: set<Cmd>) {
    var jump := FwRule([], Jump(chain));
    key in k.fw && k.fw[key] == (if Lacks(k.fw, (key, jump), broken) then [] else [jump]) + own
  }

  // ---- the fence ----

  /** From DOCKER-USER on, after the first Up and after every later one: the fence comes first
      and drops exactly what it is to drop; the rest meets the host's own rules there. */
  lemma FencedFirst(k: Kernel, f: Fence, broken: set<Cmd>, own: seq<FwRule>, p: Packet, depth: nat)
    requires FenceError(f) == None && Apply(k, FenceUp(f).value, broken).ok && depth > 0
    requires Behind(k, (Filter, "DOCKER-USER"), "STACKR-FENCE", own, broken)
    ensures
      var fw := Apply(k, FenceUp(f).value, broken).kernel.fw;
      var user := (Filter, "DOCKER-USER");
      && user in fw && fw[user] == [FwRule([], Jump("STACKR-FENCE"))] + own
      && EndIn(fw, Filter, fw[user], p, depth) ==
           if StDnat !in p.states && InAny(f.sources, p.src) && !InAny(REFUSED, p.dst) && p.outDev == f.uplink
           then Some(Deny) else EndIn(fw, Filter, own, p, depth)
  {
    var fw := Apply(k, FenceUp(f).value, broken).kernel.fw;
    FenceHook(k, f, broken, own);
    FenceNoJumps(f, |f.sources|);
    FenceEnd(f, |f.sources|, p);
    NoJumpEnd(fw, Filter, FenceRules(f, |f.sources|), p, depth - 1);
    JumpFirst(fw, Filter, "STACKR-FENCE", own, p, depth);
  }

  lemma FenceHook(k: Kernel, f: Fence, broken: set<Cmd>, own: seq<FwRule>)
    requires FenceError(f) == None && Apply(k, FenceUp(f).value, broken).ok
    requires Behind(k, USER, "STACKR-FENCE", own, broken)
    ensures
      var fw := Apply(k, FenceUp(f).value, broken).kernel.fw;
      && USER in fw && fw[USER] == [HOOK.1] + own
      && FENCE in fw && fw[FENCE] == FenceRules(f, |f.sources|)
  {
    FenceProper(f);
    assert FencePlan(f).adds == [(HOOK, true)] && FencePlan(f).fills == [(FENCE, FenceRules(f, |f.sources|))];
    PlanHooked(k, FencePlan(f), 0, 0, own, broken);
  }

  // ---- the serve ----

  lemma ServeHook(k: Kernel, v: Serve, broken: set<Cmd>, i: nat, key: Key, own: seq<FwRule>)
    requires ServeError(v) == None && Apply(k, ServeUp(v).value, broken).ok && i < 3
    requires key == Jumps(v)[i].0 && Behind(k, key, Jumps(v)[i].1.target.chain, own, broken)
    ensures
      var fw := Apply(k, ServeUp(v).value, broken).kernel.fw;
      && key in fw && fw[key] == [Jumps(v)[i].1] + own
      && (key.0, Jumps(v)[i].1.target.chain) == ServePlan(v).fills[i].0 && ServePlan(v).fills[i].0 in fw
      && fw[ServePlan(v).fills[i].0] == ServePlan(v).fills[i].1
  {
    ServeProper(v);
    HooksDiffer(v, i);
    PlanHooked(k, ServePlan(v), i, i, own, broken);
  }

  lemma HooksDiffer(v: Serve, i: nat)
    requires i < 3
    ensures ServePlan(v).adds[i] == (Jumps(v)[i], true)
    ensures ServePlan(v).fills[i].0 == (Jumps(v)[i].0.0, Jumps(v)[i].1.target.chain)
    ensures Jumps(v)[i].1 == FwRule([], Jump(ServePlan(v).fills[i].0.1))
    ensures forall j :: 0 <= j < |ServePlan(v).adds| && j != i ==> ServePlan(v).adds[j].0.0 != ServePlan(v).adds[i].0.0
  {
    assert "DOCKER-USER"[0] == 'D' && "INPUT"[0] == 'I';
  }

  /** From DOCKER-USER on: the link's own chain comes first and accepts its clients' traffic to
      public destinations and their replies, drops all else from the link, and leaves the rest
      to the host's own rules. */
  lemma ServedFirst(k: Kernel, v: Serve, broken: set<Cmd>, own: seq<FwRule>, p: Packet, depth: nat)
    requires ServeError(v) == None && Apply(k, ServeUp(v).value, broken).ok && depth > 0
    requires Behind(k, (Filter, "DOCKER-USER"), "STACKR-XF-" + v.dev, own, broken)
    ensures
      var fw := Apply(k, ServeUp(v).value, broken).kernel.fw;
      var user := (Filter, "DOCKER-USER");
      && user in fw
      && EndIn(fw, Filter, fw[user], p, depth) ==
           if p.outDev == v.dev && StEstablished in p.states then Some(Accept)
           else if p.inDev != v.dev then EndIn(fw, Filter, own, p, depth)
           else if p.outDev == v.uplink && !InAny(REFUSED, p.dst) then Some(Accept)
           else Some(Deny)
  {
    ServeHook(k, v, broken, 2, USER, own);
    UserEnd(Apply(k, ServeUp(v).value, broken).kernel.fw, v, own, p, depth);
  }

  lemma UserEnd(fw: Firewall, v: Serve, own: seq<FwRule>, p: Packet, depth: nat)
    requires ForwardChain(v) in fw && fw[ForwardChain(v)] == ForwardRules(v) && depth > 0
    ensures
      EndIn(fw, Filter, [FwRule([], Jump(ForwardChain(v).1))] + own, p, depth) ==
        if p.outDev == v.dev && StEstablished in p.states then Some(Accept)
        else if p.inDev != v.dev then EndIn(fw, Filter, own, p, depth)
        else if p.outDev == v.uplink && !InAny(REFUSED, p.dst) then Some(Accept)
        else Some(Deny)
  {
    RulesDoNotJump(v);
    assert ServePlan(v).fills[2] == (ForwardChain(v), ForwardRules(v));
    ForwardEnd(v, p);
    NoJumpEnd(fw, Filter, ForwardRules(v), p, depth - 1);
    JumpFirst(fw, Filter, ForwardChain(v).1, own, p, depth);
  }

  lemma {:induction false} NatEnd(f: Firewall, v: Serve, n: nat, p: Packet, depth: nat)
    requires n <= |v.subnets|
    ensures EndIn(f, Nat, NatRules(v)[..n], p, depth) ==
      if InAny(v.subnets[..n], p.src) && p.outDev == v.uplink then Some(Masquerade) else None
  {
    if n > 0 {
      var last := NatRules(v)[n - 1];
      NatEnd(f, v, n - 1, p, depth);
      assert NatRules(v)[..n] == NatRules(v)[..n - 1] + [last] &&
        v.subnets[..n] == v.subnets[..n - 1] + [v.subnets[n - 1]];
      EndInConcat(f, Nat, NatRules(v)[..n - 1], [last], p, depth);
      HitsTwo(Src(v.subnets[n - 1]), Out(v.uplink), Masquerade, p);
      assert [last][1..] == [];
      InOneMore(v.subnets[..n - 1], v.subnets[n - 1], p.src);
    }
  }

  lemma InOneMore(ranges: seq<Prefix>, x: Prefix, a: Addr)
    ensures InAny(ranges + [x], a) <==> InAny(ranges, a) || Contains(x, a)
  {
    assert (ranges + [x])[|ranges|] == x;
    if i :| 0 <= i < |ranges| && Contains(ranges[i], a) {
      assert (ranges + [x])[i] == ranges[i];
    }
  }

  /** From POSTROUTING on: exactly the assigned subnets on their way out by the uplink are
      masqueraded by the link's chain, and the rest meets the host's own rules. */
  lemma MasqueradedFirst(k: Kernel, v: Serve, broken: set<Cmd>, own: seq<FwRule>, p: Packet, depth: nat)
    requires ServeError(v) == None && Apply(k, ServeUp(v).value, broken).ok && depth > 0
    requires Behind(k, (Nat, "POSTROUTING"), "STACKR-XT-" + v.dev, own, broken)
    ensures
      var fw := Apply(k, ServeUp(v).value, broken).kernel.fw;
      var post := (Nat, "POSTROUTING");
      && post in fw
      && EndIn(fw, Nat, fw[post], p, depth) ==
           if InAny(v.subnets, p.src) && p.outDev == v.uplink then Some(Masquerade) else EndIn(fw, Nat, own, p, depth)
  {
    ServeHook(k, v, broken, 1, (Nat, "POSTROUTING"), own);
    PostEnd(Apply(k, ServeUp(v).value, broken).kernel.fw, v, own, p, depth);
  }

  lemma PostEnd(fw: Firewall, v: Serve, own: seq<FwRule>, p: Packet, depth: nat)
    requires NatChain(v) in fw && fw[NatChain(v)] == NatRules(v) && depth > 0
    ensures
      EndIn(fw, Nat, [FwRule([], Jump(NatChain(v).1))] + own, p, depth) ==
        if InAny(v.subnets, p.src) && p.outDev == v.uplink then Some(Masquerade) else EndIn(fw, Nat, own, p, depth)
  {
    NatEnd(fw, v, |v.subnets|, p, depth - 1);
    assert NatRules(v)[..|v.subnets|] == NatRules(v) && v.subnets[..|v.subnets|] == v.subnets;
    JumpFirst(fw, Nat, NatChain(v).1, own, p, depth);
  }

  /** From PREROUTING on: new flows from the link and all packets of flows so marked carry the
      link's mark when they meet the host's own rules, and all others are as they came. */
  lemma MarkedFromTheStart(k: Kernel, v: Serve, broken: set<Cmd>, own: seq<FwRule>, p: Packet, depth: nat)
    requires ServeError(v) == None && Apply(k, ServeUp(v).value, broken).ok && depth > 0
    requires Behind(k, (Mangle, "PREROUTING"), "STACKR-XM-" + v.dev, own, broken)
    ensures
      var fw := Apply(k, ServeUp(v).value, broken).kernel.fw;
      var pre := (Mangle, "PREROUTING");
      var mine := (p.inDev == v.dev && StNew in p.states) || p.connMark == v.mark;
      && pre in fw
      && MarkedIn(fw, Mangle, fw[pre], p, depth) ==
           MarkedIn(fw, Mangle, own, if mine then p.(connMark := v.mark, mark := v.mark) else p, depth)
  {
    ServeHook(k, v, broken, 0, (Mangle, "PREROUTING"), own);
    PreMarks(Apply(k, ServeUp(v).value, broken).kernel.fw, v, own, p, depth);
  }

  lemma PreMarks(fw: Firewall, v: Serve, own: seq<FwRule>, p: Packet, depth: nat)
    requires MarkChain(v) in fw && fw[MarkChain(v)] == MarkRules(v) && depth > 0
    ensures
      var mine := (p.inDev == v.dev && StNew in p.states) || p.connMark == v.mark;
      MarkedIn(fw, Mangle, [FwRule([], Jump(MarkChain(v).1))] + own, p, depth) ==
        MarkedIn(fw, Mangle, own, if mine then p.(connMark := v.mark, mark := v.mark) else p, depth)
  {
    MarkedByRules(fw, Mangle, MarkRules(v), p, depth - 1);
    FlowMarked(v, p);
    MarkedFirst(fw, Mangle, MarkChain(v).1, own, p, depth);
  }

  /** A client's flow there and back over the whole mangle table: where the host's own rules
      leave the packet's marks alone, what comes back for the client goes into the link. */
  lemma FlowReturnsFromPrerouting(k: Kernel, v: Serve, broken: set<Cmd>, own: seq<FwRule>, p: Packet, depth: nat)
    requires ServeError(v) == None && Apply(k, ServeUp(v).value, broken).ok && OnlyBy(k.net, v.table, v.dev) &&
      depth > 0
    requires Behind(k, (Mangle, "PREROUTING"), "STACKR-XM-" + v.dev, own, broken)
    requires p.connMark == v.mark && v.pref <= LAST_PREF && InAny(v.subnets, p.dst)
    requires
      var l := Apply(k, ServeUp(v).value, broken).kernel;
      && MarkedIn(l.fw, Mangle, own, p.(mark := v.mark), depth).packet == p.(mark := v.mark)
      && Undecided(l.net, p.(mark := v.mark), 0, v.pref)
    ensures
      var l := Apply(k, ServeUp(v).value, broken).kernel;
      && (Mangle, "PREROUTING") in l.fw
      && PacketFate(l.net, MarkedIn(l.fw, Mangle, l.fw[(Mangle, "PREROUTING")], p, depth).packet) == Leaves(v.dev)
  {
    MarkedFromTheStart(k, v, broken, own, p, depth);
    assert p.(connMark := v.mark, mark := v.mark) == p.(mark := v.mark);
    RepliesReturn(k, v, broken, p.(mark := v.mark));
  }

  /** A serve fails where its link cannot be added or set up. */
  lemma ServeNeedsTheLink(k: Kernel, v: Serve, broken: set<Cmd>)
    requires ServeError(v) == None
    requires
      || LinkAdd(v.dev) in broken || LinkSet(v.dev, ["wg", v.peerKey]) in broken || LinkSet(v.dev, ["addr"]) in broken
      || LinkSet(v.dev, ["up"]) in broken
    ensures !Apply(k, ServeUp(v).value, broken).ok
  {
    var steps, net := ServeUp(v).value, ServePlan(v).before;
    assert net[1].cmd == LinkAdd(v.dev) && net[2].cmd == LinkSet(v.dev, ["wg", v.peerKey]);
    assert net[3].cmd == LinkSet(v.dev, ["addr"]) && net[4].cmd == LinkSet(v.dev, ["up"]);
    var i :| 1 <= i < 5 && net[i].cmd in broken;
    assert steps[i] == net[i];
    NeededStep(k, steps, broken, i);
  }

  // ---- taken down ----

  /** Down removes the interface with its routes, and what is left of its table. */
  lemma LinkIsGone(k: Kernel, l: Link, broken: set<Cmd>)
    requires RouteFlush(l.table) !in broken && LinkDel(l.dev) !in broken
    ensures
      var net := Apply(k, LinkDown(l), broken).kernel.net;
      && l.dev !in net.links && OfTable(net, l.table) == [] && net.rules == k.net.rules
      && (l.dev in k.net.links ==> forall t, r :: r in OfTable(net, t) ==> r.dev != l.dev)
      && (forall d :: d != l.dev ==> (d in net.links <==> d in k.net.links))
  {
    NetGone(k, l.table, l.dev, broken);
    var steps := NetDown(l);
    ApplyConcat(k, steps, Erasures(Spots(l)), broken);
    ErasuresEffect(Apply(k, steps, broken).kernel, Spots(l), (set sp | sp in Spots(l)), broken);
  }

  lemma {:induction false} NotByHasNone(rs: seq<Route>, dev: Iface)
    ensures forall r :: r in NotBy(rs, dev) ==> r.dev != dev
  {
    if rs != [] {
      NotByHasNone(rs[1..], dev);
    }
  }

  lemma NetGone(k: Kernel, table: nat, dev: Iface, broken: set<Cmd>)
    requires RouteFlush(table) !in broken && LinkDel(dev) !in broken
    ensures
      var a := Apply(k, [Quiet(RouteFlush(table)), Quiet(LinkDel(dev))], broken);
      var net := a.kernel.net;
      && a.ok && dev !in net.links && OfTable(net, table) == [] && net.rules == k.net.rules
      && (dev in k.net.links ==> forall t, r :: r in OfTable(net, t) ==> r.dev != dev)
      && (forall d :: d != dev ==> (d in net.links <==> d in k.net.links))
  {
    ApplyTwo(k, Quiet(RouteFlush(table)), Quiet(LinkDel(dev)), broken);
    assert NotBy([], dev) == [];
    forall rs: seq<Route>, r | r in NotBy(rs, dev) ensures r.dev != dev {
      NotByHasNone(rs, dev);
    }
  }

  /** Taking a serve down removes its mark rule too. */
  lemma ServeIsGone(k: Kernel, v: Serve, broken: set<Cmd>)
    requires RuleDel(v.pref) !in broken && RouteFlush(v.table) !in broken && LinkDel(v.dev) !in broken
    ensures
      var net := Apply(k, ServeDown(v), broken).kernel.net;
      && v.pref !in net.rules && v.dev !in net.links && OfTable(net, v.table) == []
      && (v.dev in k.net.links ==> forall t, r :: r in OfTable(net, t) ==> r.dev != v.dev)
      && (forall q :: q != v.pref ==> SameAt(k.net.rules, net.rules, q))
  {
    var del, rest := Quiet(RuleDel(v.pref)), [Quiet(RouteFlush(v.table)), Quiet(LinkDel(v.dev))] + FwDown(v);
    assert ServeDown(v) == [del] + rest;
    ApplyConcat(k, [del], rest, broken);
    RuleGone(k, v.pref, broken);
    NetGoneThen(Apply(k, [del], broken).kernel, v, broken);
  }

  function FwDown(v: Serve): seq<Step> { Erasures(ServePlan(v).unhook) + Tidies(ServePlan(v).fills) }

  lemma NetGoneThen(k: Kernel, v: Serve, broken: set<Cmd>)
    requires RouteFlush(v.table) !in broken && LinkDel(v.dev) !in broken
    ensures
      var net := Apply(k, [Quiet(RouteFlush(v.table)), Quiet(LinkDel(v.dev))] + FwDown(v), broken).kernel.net;
      && v.dev !in net.links && OfTable(net, v.table) == [] && net.rules == k.net.rules
      && (v.dev in k.net.links ==> forall t, r :: r in OfTable(net, t) ==> r.dev != v.dev)
  {
    var two := [Quiet(RouteFlush(v.table)), Quiet(LinkDel(v.dev))];
    ApplyConcat(k, two, FwDown(v), broken);
    NetGone(k, v.table, v.dev, broken);
    DownIsFw(v);
    FwStepsKeepNet(Apply(k, two, broken).kernel, FwDown(v), broken);
  }

  lemma RuleGone(k: Kernel, pref: nat, broken: set<Cmd>)
    requires RuleDel(pref) !in broken
    ensures
      var a := Apply(k, [Quiet(RuleDel(pref))], broken);
      && a.ok && a.kernel == k.(net := k.net.(rules := a.kernel.net.rules)) && pref !in a.kernel.net.rules
      && forall q :: q != pref ==> SameAt(k.net.rules, a.kernel.net.rules, q)
  {
    ApplyOne(k, Quiet(RuleDel(pref)), broken);
  }

  lemma DownIsFw(v: Serve)
    ensures forall i :: 0 <= i < |FwDown(v)| ==> IsFw(FwDown(v)[i].cmd)
  {
    var a, b := Erasures(ServePlan(v).unhook), Tidies(ServePlan(v).fills);
    TidiesAreFw(ServePlan(v).fills);
    forall i | 0 <= i < |FwDown(v)| ensures IsFw(FwDown(v)[i].cmd) {
      assert FwDown(v)[i] == if i < |a| then a[i] else b[i - |a|];
    }
  }

  lemma {:induction false} TidiesAreFw(fills: seq<Fill>)
    ensures forall i :: 0 <= i < |Tidies(fills)| ==> IsFw(Tidies(fills)[i].cmd)
  {
    if fills != [] {
      TidiesAreFw(fills[1..]);
    }
  }

  // ---- the refused ranges ----

  /** In numbers: 10/8, 172.16/12, 192.168/16, 100.64/10 and 169.254/16. */
  lemma RefusedRanges(a: Addr)
    ensures InAny(REFUSED, a) <==>
      (a / 0x100_0000 == 10 || a / 0x10_0000 == 172 * 16 + 1 || a / 0x1_0000 == 192 * 256 + 168
       || a / 0x40_0000 == 100 * 4 + 1 || a / 0x1_0000 == 169 * 256 + 254)
  {
    InFive(REFUSED[0], REFUSED[1], REFUSED[2], REFUSED[3], REFUSED[4], a);
    WideRanges(a);
    NarrowRanges(a);
  }

  lemma WideRanges(a: Addr)
    ensures Contains(REFUSED[0], a) <==> a / 0x100_0000 == 10
    ensures Contains(REFUSED[1], a) <==> a / 0x10_0000 == 172 * 16 + 1
    ensures Contains(REFUSED[3], a) <==> a / 0x40_0000 == 100 * 4 + 1
  {
    Powers();
  }

  lemma NarrowRanges(a: Addr)
    ensures Contains(REFUSED[2], a) <==> a / 0x1_0000 == 192 * 256 + 168
    ensures Contains(REFUSED[4], a) <==> a / 0x1_0000 == 169 * 256 + 254
  {
    Powers();
  }

  lemma InFive(p: Prefix, q: Prefix, r: Prefix, s: Prefix, t: Prefix, a: Addr)
    ensures InAny([p, q, r, s, t], a) <==>
      Contains(p, a) || Contains(q, a) || Contains(r, a) || Contains(s, a) || Contains(t, a)
  {
    var five := [p, q, r, s, t];
    assert five[0] == p && five[1] == q && five[2] == r && five[3] == s && five[4] == t;
  }

  lemma Powers()
    ensures Pow2(16) == 0x1_0000 && Pow2(20) == 0x10_0000 && Pow2(22) == 0x40_0000 && Pow2(24) == 0x100_0000
  {
    assert Pow2(4) == 16 && Pow2(8) == 256 && Pow2(12) == 4096;
    assert Pow2(16) == 0x1_0000;
    assert Pow2(20) == 0x10_0000;
  }
}
