/** What a client's packets meet at the exit host itself, with the host's own INPUT rules and
    the chains those jump to; and when a serve comes up at all. */
module HostInput {
  import opened Outcomes
  import opened Kernel
  import opened Subjects
  import opened RuleLists
  import opened Refill
  import opened Fence
  import opened Serve
  import opened Peers

  /** The verdict of a chain and all it jumps to. */
  function VerdictIn(f: Firewall, key: Key, p: Packet, depth: nat): Verdict
    requires key in f
  {
    match EndIn(f, key.0, f[key], p, depth)
    case Some(Accept) => Passed
    case Some(Deny) => Denied
    case _ => FellThrough
  }

  /** INPUT becomes its own rules with the drop behind them and the echo accept before them,
      each where it was lacking. */
  lemma InputAfter(k: Kernel, v: Serve, broken: set<Cmd>)
    requires ServeError(v) == None && Apply(k, ServeUp(v).value, broken).ok
    ensures
      var fw := Apply(k, ServeUp(v).value, broken).kernel.fw;
      && INPUT in fw && INPUT in k.fw
      && fw[INPUT] == (if Lacks(k.fw, InputEcho(v), broken) then [InputEcho(v).1] else [])
           + (k.fw[INPUT] + if Lacks(k.fw, InputDrop(v), broken) then [InputDrop(v).1] else [])
  {
    ServeProper(v);
    var m := UpEffect(k, ServePlan(v), broken);
    InputApart(v);
    HooksThenTwo(m, ServePlan(v).adds[..3], INPUT, InputDrop(v).1, InputEcho(v).1, broken);
  }

  lemma InputApart(v: Serve)
    ensures INPUT !in OwnKeys(v) && forall x :: x in ServePlan(v).adds[..3] ==> x.0.0 != INPUT
    ensures ServePlan(v).adds == ServePlan(v).adds[..3] + [((INPUT, InputDrop(v).1), false), ((INPUT, InputEcho(v).1), true)]
    ensures InputDrop(v).1 != InputEcho(v).1
  {
    HooksApart(v);
    assert ServePlan(v).adds[3] == (InputDrop(v), false);
    assert "DOCKER-USER"[0] == 'D' && "INPUT"[0] == 'I';
  }

  /** A rule that drops the packet leaves nothing undecided. */
  lemma {:induction false} DropDecides(f: Firewall, t: Tbl, rules: seq<FwRule>, r: FwRule, p: Packet, depth: nat)
    requires r in rules && Hits(r, p) && r.target == Deny
    ensures EndIn(f, t, rules, p, depth).Some?
    decreases |rules|
  {
    if rules[0] != r {
      assert rules == [rules[0]] + rules[1..];
      DropDecides(f, t, rules[1..], r, p, depth);
    }
  }

  lemma HookHits(v: Serve, p: Packet)
    requires p.inDev == v.dev
    ensures Hits(InputDrop(v).1, p) && (Hits(InputEcho(v).1, p) <==> p.echo)
  {
    HitsTwo(In(v.dev), EchoRequest, Accept, p);
    HitsOne(In(v.dev), Deny, p);
  }

  /** What the echo accept before some rules and the drop behind them come to. */
  lemma HookedEnd(f: Firewall, v: Serve, rules: seq<FwRule>, p: Packet, depth: nat, echo: bool, drop: bool)
    requires p.inDev == v.dev
    ensures
      var own := EndIn(f, Filter, rules, p, depth);
      EndIn(f, Filter, (if echo then [InputEcho(v).1] else []) + (rules + if drop then [InputDrop(v).1] else []), p, depth)
        == if echo && p.echo then Some(Accept) else if own == None && drop then Some(Deny) else own
  {
    var first, last := if echo then [InputEcho(v).1] else [], if drop then [InputDrop(v).1] else [];
    EndInConcat(f, Filter, first, rules + last, p, depth);
    EndInConcat(f, Filter, rules, last, p, depth);
    HookHits(v, p);
    assert [InputEcho(v).1][1..] == [] && [InputDrop(v).1][1..] == [];
  }

  /** What INPUT does with a client's packet on any host, however deep its own rules jump: an
      echo request passes when the accept for it was put in front, and otherwise the rules that
      stood there decide, with a drop where they decide nothing. */
  lemma HostReached(k: Kernel, v: Serve, broken: set<Cmd>, p: Packet, depth: nat)
    requires ServeError(v) == None && Apply(k, ServeUp(v).value, broken).ok && p.inDev == v.dev
    ensures
      var fw := Apply(k, ServeUp(v).value, broken).kernel.fw;
      && INPUT in fw && INPUT in k.fw
      && var echo, own := p.echo && Lacks(k.fw, InputEcho(v), broken), EndIn(fw, Filter, k.fw[INPUT], p, depth);
         && (VerdictIn(fw, INPUT, p, depth) == Passed <==> echo || own == Some(Accept))
         && (VerdictIn(fw, INPUT, p, depth) == FellThrough <==> !echo && own == Some(Return))
  {
    InputAfter(k, v, broken);
    var fw := Apply(k, ServeUp(v).value, broken).kernel.fw;
    HookedEnd(fw, v, k.fw[INPUT], p, depth, Lacks(k.fw, InputEcho(v), broken), Lacks(k.fw, InputDrop(v), broken));
    if !Lacks(k.fw, InputDrop(v), broken) {
      HookHits(v, p);
      DropDecides(fw, Filter, k.fw[INPUT], InputDrop(v).1, p, depth);
    }
  }

  /** A later Up of the same link, as for a changed subnet list, leaves INPUT as the first one
      did, and the host's own rules decide as they did then. */
  lemma HostReachedAgain(
      k: Kernel, v: Serve, broken: set<Cmd>, mid: Kernel, w: Serve, later: set<Cmd>, p: Packet, depth: nat)
    requires ServeError(v) == None && Apply(k, ServeUp(v).value, broken).ok
    requires Count(k.fw, InputDrop(v)) == 0 && Count(k.fw, InputEcho(v)) == 0
    requires INPUT in mid.fw && INPUT in Apply(k, ServeUp(v).value, broken).kernel.fw
    requires mid.fw[INPUT] == Apply(k, ServeUp(v).value, broken).kernel.fw[INPUT]
    requires w.dev == v.dev == p.inDev && ServeError(w) == None && Apply(mid, ServeUp(w).value, later).ok
    requires RuleCheck(INPUT, InputDrop(v).1) !in later && RuleCheck(INPUT, InputEcho(v).1) !in later
    ensures
      var fw := Apply(mid, ServeUp(w).value, later).kernel.fw;
      && INPUT in fw && INPUT in k.fw && fw[INPUT] == mid.fw[INPUT]
      && var own := EndIn(fw, Filter, k.fw[INPUT], p, depth);
         && (VerdictIn(fw, INPUT, p, depth) == Passed <==> p.echo || own == Some(Accept))
         && (VerdictIn(fw, INPUT, p, depth) == FellThrough <==> !p.echo && own == Some(Return))
  {
    InputAfter(k, v, broken);
    InputAfter(mid, w, later);
    var rules := mid.fw[INPUT];
    assert rules[0] == InputEcho(v).1 && rules[|rules| - 1] == InputDrop(v).1;
    assert [] + (rules + []) == rules;
    HookedEnd(Apply(mid, ServeUp(w).value, later).kernel.fw, v, k.fw[INPUT], p, depth, true, true);
  }

  /** The chains of a plan's hooks and its own are the only ones it touches. */
  lemma Untouched(k: Kernel, v: Serve, broken: set<Cmd>, c: string)
    requires ServeError(v) == None && Apply(k, ServeUp(v).value, broken).ok
    requires c != ForwardChain(v).1 && c != USER.1 && c != INPUT.1
    ensures
      var fw := Apply(k, ServeUp(v).value, broken).kernel.fw;
      ((Filter, c) in fw <==> (Filter, c) in k.fw) && ((Filter, c) in fw ==> fw[(Filter, c)] == k.fw[(Filter, c)])
  {
    ServeProper(v);
    UpConverges(k, ServePlan(v), broken);
    var fw, key, all := Apply(k, ServeUp(v).value, broken).kernel.fw, (Filter, c), SpotsOf(ServePlan(v).adds);
    NoHookAt(v, key);
    if key in k.fw {
      OthersAll(k.fw[key], key, all);
      OthersAll(fw[key], key, all);
    }
  }

  lemma NoHookAt(v: Serve, key: Key)
    requires key.0 == Filter && key != USER && key != INPUT
    ensures forall r :: (key, r) !in SpotsOf(ServePlan(v).adds)
  {
    HooksMatch(v);
  }

  /** Where the host's own rules jump to none of the chains the serve changes, they decide as
      they did before it. */
  lemma HostAsBefore(k: Kernel, v: Serve, broken: set<Cmd>, p: Packet, depth: nat, names: set<string>)
    requires ServeError(v) == None && Apply(k, ServeUp(v).value, broken).ok && INPUT in k.fw
    requires JumpsWithin(k.fw[INPUT], names) && SameWithin(k.fw, k.fw, Filter, names)
    requires names !! {ForwardChain(v).1, USER.1, INPUT.1}
    ensures EndIn(Apply(k, ServeUp(v).value, broken).kernel.fw, Filter, k.fw[INPUT], p, depth) ==
      EndIn(k.fw, Filter, k.fw[INPUT], p, depth)
  {
    var fw := Apply(k, ServeUp(v).value, broken).kernel.fw;
    forall c | c in names
      ensures ((Filter, c) in k.fw <==> (Filter, c) in fw) && ((Filter, c) in k.fw ==> k.fw[(Filter, c)] == fw[(Filter, c)])
    {
      Untouched(k, v, broken, c);
    }
    SameEnd(k.fw, fw, Filter, k.fw[INPUT], p, depth, names);
  }

  // ---- when a serve comes up ----

  /** The chains a serve hooks into. */
  predicate HasHooks(f: Firewall) {
    (Mangle, "PREROUTING") in f && (Nat, "POSTROUTING") in f && USER in f && INPUT in f
  }

  lemma {:induction false} HeadsOk(k: Kernel, fills: seq<Fill>)
    ensures Apply(k, Heads(fills), {}).ok
    decreases |fills|
  {
    if fills != [] {
      var two := [Quiet(ChainNew(fills[0].0)), Do(ChainFlush(fills[0].0))];
      ApplyConcat(k, two, Heads(fills[1..]), {});
      ApplyTwo(k, two[0], two[1], {});
      HeadsOk(Apply(k, two, {}).kernel, fills[1..]);
    }
  }

  lemma {:induction false} AppendAllOk(k: Kernel, key: Key, rules: seq<FwRule>)
    requires key in k.fw && forall i :: 0 <= i < |rules| ==> !rules[i].target.Jump?
    ensures Apply(k, AppendAll(key, rules), {}).ok
    decreases |rules|
  {
    if rules != [] {
      var s := AppendAll(key, rules);
      assert s[0] == Do(RuleAppend(key, rules[0])) && s[1..] == AppendAll(key, rules[1..]);
      assert JumpOk(k.fw, key, rules[0]);
      AppendAllOk(RunStep(k, s[0], {}).kernel, key, rules[1..]);
    }
  }

  lemma {:induction false} AppendsOk(k: Kernel, fills: seq<Fill>)
    requires forall i :: 0 <= i < |fills| ==> fills[i].0 in k.fw
    requires forall i, r :: 0 <= i < |fills| && r in fills[i].1 ==> !r.target.Jump?
    ensures Apply(k, Appends(fills), {}).ok
    decreases |fills|
  {
    if fills != [] {
      var key, rules := fills[0].0, fills[0].1;
      assert forall i :: 0 <= i < |fills[1..]| ==> fills[1..][i] == fills[i + 1];
      ApplyConcat(k, AppendAll(key, rules), Appends(fills[1..]), {});
      AppendAllOk(k, key, rules);
      AppendAllEffect(k, key, rules, {});
      AppendsOk(Apply(k, AppendAll(key, rules), {}).kernel, fills[1..]);
    }
  }

  lemma OnceOk(k: Kernel, sp: Spot, first: bool)
    requires sp.0 in k.fw && JumpOk(k.fw, sp.0, sp.1)
    ensures RunStep(k, Once(sp, first), {}).ok && RunStep(k, Once(sp, first), {}).kernel.fw.Keys == k.fw.Keys
  {
  }

  lemma {:induction false} OncesOk(k: Kernel, adds: seq<Addition>)
    requires forall i :: 0 <= i < |adds| ==> adds[i].0.0 in k.fw && JumpOk(k.fw, adds[i].0.0, adds[i].0.1)
    ensures Apply(k, Onces(adds), {}).ok
    decreases |adds|
  {
    if adds != [] {
      assert forall i :: 0 <= i < |adds[1..]| ==> adds[1..][i] == adds[i + 1];
      OnceOk(k, adds[0].0, adds[0].1);
      assert Onces(adds) == [Once(adds[0].0, adds[0].1)] + Onces(adds[1..]);
      OncesOk(RunStep(k, Once(adds[0].0, adds[0].1), {}).kernel, adds[1..]);
    }
  }

  lemma {:induction false} BackRoutesOk(k: Kernel, v: Serve, n: nat)
    requires n <= |v.subnets| && v.dev in k.net.links
    ensures Apply(k, BackRoutes(v, n), {}).ok
    ensures Apply(k, BackRoutes(v, n), {}).kernel.net.links == k.net.links
  {
    if n > 0 {
      var last := Do(RouteReplace(v.subnets[n - 1], v.dev, v.table));
      assert BackRoutes(v, n) == BackRoutes(v, n - 1) + [last];
      ApplyConcat(k, BackRoutes(v, n - 1), [last], {});
      BackRoutesOk(k, v, n - 1);
      ApplyOne(Apply(k, BackRoutes(v, n - 1), {}).kernel, last, {});
    }
  }

  lemma FreshLink(k: Kernel, dev: Iface)
    ensures
      var a := Apply(k, [Quiet(LinkDel(dev)), Do(LinkAdd(dev))], {});
      a.ok && dev in a.kernel.net.links && a.kernel.fw == k.fw
  {
    ApplyTwo(k, Quiet(LinkDel(dev)), Do(LinkAdd(dev)), {});
  }

  lemma {:induction false} SetsOk(k: Kernel, dev: Iface, steps: seq<Step>)
    requires dev in k.net.links && forall i :: 0 <= i < |steps| ==>
      steps[i].cmd.LinkSet? && steps[i].cmd.dev == dev && steps[i].check == None
    ensures Apply(k, steps, {}) == Applied(k, true)
    decreases |steps|
  {
    if steps != [] {
      SetsOk(k, dev, steps[1..]);
    }
  }

  lemma LinkOk(k: Kernel, v: Serve)
    ensures var a := Apply(k, ServePlan(v).before, {}); a.ok && v.dev in a.kernel.net.links && a.kernel.fw == k.fw
  {
    var sets := [Do(LinkSet(v.dev, ["wg", v.peerKey])), Do(LinkSet(v.dev, ["addr"])), Do(LinkSet(v.dev, ["up"]))];
    assert ServePlan(v).before == [Quiet(LinkDel(v.dev)), Do(LinkAdd(v.dev))] + sets;
    ApplyConcat(k, [Quiet(LinkDel(v.dev)), Do(LinkAdd(v.dev))], sets, {});
    FreshLink(k, v.dev);
    SetsOk(Apply(k, [Quiet(LinkDel(v.dev)), Do(LinkAdd(v.dev))], {}).kernel, v.dev, sets);
  }

  lemma FreshRule(k: Kernel, pref: nat, r: PolicyRule)
    ensures Apply(k, [Quiet(RuleDel(pref)), Do(RuleAdd(pref, r))], {}).ok
  {
    ApplyTwo(k, Quiet(RuleDel(pref)), Do(RuleAdd(pref, r)), {});
  }

  lemma AfterOk(k: Kernel, v: Serve)
    requires v.dev in k.net.links
    ensures Apply(k, ServePlan(v).after, {}).ok
  {
    var r := PolicyRule(FwMark(v.mark), Lookup(v.table));
    ApplyConcat(k, BackRoutes(v, |v.subnets|), [Quiet(RuleDel(v.pref)), Do(RuleAdd(v.pref, r))], {});
    BackRoutesOk(k, v, |v.subnets|);
    FreshRule(Apply(k, BackRoutes(v, |v.subnets|), {}).kernel, v.pref, r);
  }

  lemma ChainsOk(k: Kernel, v: Serve)
    requires HasHooks(k.fw)
    ensures Apply(k, Heads(ServePlan(v).fills) + (Appends(ServePlan(v).fills) + Onces(ServePlan(v).adds)), {}).ok
  {
    var fills, adds := ServePlan(v).fills, ServePlan(v).adds;
    ServeProper(v);
    HooksApart(v);
    ApplyConcat(k, Heads(fills), Appends(fills) + Onces(adds), {});
    HeadsOk(k, fills);
    HeadsEffect(k, fills, {});
    var k1 := Apply(k, Heads(fills), {}).kernel;
    assert forall i :: 0 <= i < |fills| ==> fills[i] in fills && fills[i].0 in KeysOf(fills);
    ApplyConcat(k1, Appends(fills), Onces(adds), {});
    AppendsOk(k1, fills);
    AppendsEffect(k1, fills, {});
    var k2 := Apply(k1, Appends(fills), {}).kernel;
    HooksReady(k, k1, k2, v);
    OncesOk(k2, adds);
  }

  lemma HooksReady(k: Kernel, k1: Kernel, k2: Kernel, v: Serve)
    requires HasHooks(k.fw) && Elsewhere(k.fw, k1.fw, OwnKeys(v)) && Elsewhere(k1.fw, k2.fw, OwnKeys(v)) &&
      Holds(k2.fw, ServePlan(v).fills)
    ensures forall i :: 0 <= i < |ServePlan(v).adds| ==>
      ServePlan(v).adds[i].0.0 in k2.fw && JumpOk(k2.fw, ServePlan(v).adds[i].0.0, ServePlan(v).adds[i].0.1)
  {
    HooksApart(v);
    var fills, adds := ServePlan(v).fills, ServePlan(v).adds;
    assert fills[0].0 == MarkChain(v) && fills[1].0 == NatChain(v) && fills[2].0 == ForwardChain(v);
    forall i | 0 <= i < |adds| ensures adds[i].0.0 in k2.fw && JumpOk(k2.fw, adds[i].0.0, adds[i].0.1) {
      assert adds[i] in adds && adds[i].0.0 !in OwnKeys(v);
    }
  }

  /** Where no command fails for a reason outside the tables, a sound serve comes up exactly on
      a host that has the built-in chains, whatever else stands there. */
  lemma ComesUpExactly(k: Kernel, v: Serve)
    requires ServeError(v) == None
    ensures Apply(k, ServeUp(v).value, {}).ok <==> HasHooks(k.fw)
  {
    var pl := ServePlan(v);
    if HasHooks(k.fw) {
      var fw := Heads(pl.fills) + (Appends(pl.fills) + Onces(pl.adds));
      assert PlanUp(pl) == pl.before + (fw + pl.after);
      ApplyConcat(k, pl.before, fw + pl.after, {});
      LinkOk(k, v);
      var k1 := Apply(k, pl.before, {}).kernel;
      ApplyConcat(k1, fw, pl.after, {});
      ChainsOk(k1, v);
      HeadsAreFw(pl.fills);
      FwStepsKeepNet(k1, fw, {});
      AfterOk(Apply(k1, fw, {}).kernel, v);
    }
    if Apply(k, ServeUp(v).value, {}).ok {
      HooksWereThere(k, v);
    }
  }

  lemma HooksWereThere(k: Kernel, v: Serve)
    requires ServeError(v) == None && Apply(k, ServeUp(v).value, {}).ok
    ensures HasHooks(k.fw)
  {
    ServeProper(v);
    HooksApart(v);
    UpConverges(k, ServePlan(v), {});
    var adds := ServePlan(v).adds;
    forall i | 0 <= i < |adds| ensures adds[i].0.0 in k.fw {
      assert adds[i] in adds && adds[i].0 in SpotsOf(adds);
    }
    assert adds[0].0.0 in k.fw && adds[1].0.0 in k.fw && adds[2].0.0 in k.fw && adds[3].0.0 in k.fw;
  }

  // ---- a host that lets more in ----

  const LET_IN := FwRule([], Jump("OPEN"))
  const OPEN_HOST := Kernel(Net({}, map[], map[]),
    map[(Mangle, "PREROUTING") := [], (Nat, "POSTROUTING") := [], USER := [],
        INPUT := [LET_IN], (Filter, "OPEN") := [FwRule([], Accept)]])
  const SERVED := Serve("sx0", "key", 51820, "peer", None, Some(Prefix(0, 31)), Some(Prefix(1, 31)),
    [Prefix(167772160, 24)], "eth0", 200, 7, 100)

  lemma OpenRulesAccept(p: Packet, depth: nat)
    requires depth > 0
    ensures EndIn(OPEN_HOST.fw, Filter, OPEN_HOST.fw[INPUT], p, depth) == Some(Accept)
  {
    var f := OPEN_HOST.fw;
    assert f[(Filter, "OPEN")] == [FwRule([], Accept)];
    assert EndIn(f, Filter, [FwRule([], Accept)], p, depth - 1) == Some(Accept);
    assert EndAt(f, Filter, LET_IN.target, p, depth) == Some(Accept);
    assert EndIn(f, Filter, [LET_IN], p, depth) == Some(Accept);
  }

  lemma OpenIsApart()
    ensures JumpsWithin(OPEN_HOST.fw[INPUT], {"OPEN"}) && SameWithin(OPEN_HOST.fw, OPEN_HOST.fw, Filter, {"OPEN"})
    ensures {"OPEN"} !! {ForwardChain(SERVED).1, USER.1, INPUT.1}
  {
    assert ForwardChain(SERVED).1[0] == 'S' && "OPEN"[0] == 'O' && USER.1[0] == 'D' && INPUT.1[0] == 'I';
  }

  lemma OpenComesUp()
    ensures ServeError(SERVED) == None && Apply(OPEN_HOST, ServeUp(SERVED).value, {}).ok
    ensures Count(OPEN_HOST.fw, InputDrop(SERVED)) == 0 && Count(OPEN_HOST.fw, InputEcho(SERVED)) == 0
  {
    ComesUpExactly(OPEN_HOST, SERVED);
    assert InputDrop(SERVED).1 != LET_IN && InputEcho(SERVED).1 != LET_IN;
  }

  /** A host whose INPUT jumps to a chain that accepts, as firewall managers write it: the serve
      comes up, and the client reaches the host with any packet at all. */
  lemma OpenHostIsReached(p: Packet, depth: nat)
    requires p.inDev == SERVED.dev && depth > 0
    ensures ServeError(SERVED) == None
    ensures
      var a := Apply(OPEN_HOST, ServeUp(SERVED).value, {});
      a.ok && INPUT in a.kernel.fw && VerdictIn(a.kernel.fw, INPUT, p, depth) == Passed
  {
    OpenComesUp();
    HostReached(OPEN_HOST, SERVED, {}, p, depth);
    OpenIsApart();
    HostAsBefore(OPEN_HOST, SERVED, {}, p, depth, {"OPEN"});
    OpenRulesAccept(p, depth);
  }
}
