/** What the links' rules beside the gate do: replies for a link's sources are accepted in the raw
    table, and what leaves by a link is left alone by the translation of addresses. */
module LinkTraffic {
  import opened Outcomes
  import opened Peers
  import opened Kernel
  import opened RuleLists
  import opened Links
  import opened Gate

  function RulesAt(k: Kernel, key: Key): seq<FwRule> { if key in k.fw then k.fw[key] else [] }

  predicate AcceptsOnly(rules: seq<FwRule>) { forall r :: r in rules ==> r.target == Accept }

  predicate AnyHits(rules: seq<FwRule>, p: Packet) { exists i :: 0 <= i < |rules| && Hits(rules[i], p) }

  lemma {:induction false} AcceptVerdict(rules: seq<FwRule>, p: Packet)
    requires AcceptsOnly(rules)
    ensures ChainVerdict(rules, p) == if AnyHits(rules, p) then Passed else FellThrough
  {
    if rules != [] {
      assert rules == [rules[0]] + rules[1..];
      AcceptVerdict(rules[1..], p);
      if AnyHits(rules[1..], p) {
        var i :| 0 <= i < |rules[1..]| && Hits(rules[1..][i], p);
        assert rules[i + 1] == rules[1..][i];
      }
      if i :| 0 <= i < |rules| && Hits(rules[i], p) {
        assert i > 0 ==> rules[1..][i - 1] == rules[i];
      }
    }
  }

  // ---- what operations do to one rule ----

  /** An operation leaves every rule that is none of its link's as often as it was. */
  lemma OpSpares(k: Kernel, op: LinkOp, sp: Spot)
    requires sp !in Spots(op.link)
    ensures Count(RunOp(k, op).kernel.fw, sp) == Count(k.fw, sp)
  {
    SpotsAdded(op.link);
    if op.Raise? {
      UpOnFirewall(k, op.link, op.broken);
    } else {
      DownOnFirewall(k, op.link, op.broken);
    }
  }

  /** A rule that is there was there before, or was just added with its link. */
  lemma OpBrings(k: Kernel, op: LinkOp, sp: Spot)
    requires Count(RunOp(k, op).kernel.fw, sp) > 0
    ensures Count(k.fw, sp) > 0 || (op.Raise? && sp in Spots(op.link))
  {
    SpotsAdded(op.link);
    if op.Raise? {
      UpOnFirewall(k, op.link, op.broken);
    } else {
      DownOnFirewall(k, op.link, op.broken);
    }
  }

  lemma {:induction false} RunBrings(k: Kernel, ops: seq<LinkOp>, sp: Spot)
    requires Count(RunOps(k, ops).fw, sp) > 0
    ensures Count(k.fw, sp) > 0 || exists i :: 0 <= i < |ops| && ops[i].Raise? && sp in Spots(ops[i].link)
  {
    if ops != [] {
      OpBrings(RunOps(k, ops[..|ops| - 1]), ops[|ops| - 1], sp);
      if Count(RunOps(k, ops[..|ops| - 1]).fw, sp) > 0 {
        RunBrings(k, ops[..|ops| - 1], sp);
      }
    }
  }

  /** The link of the last operation on interface d. */
  function LastOn(ops: seq<LinkOp>, d: Iface): Option<Link> {
    if ops == [] then None
    else if ops[|ops| - 1].link.dev == d then Some(ops[|ops| - 1].link)
    else LastOn(ops[..|ops| - 1], d)
  }

  /** The rule is for interface d. */
  predicate For(sp: Spot, d: Iface) { sp.1.matches != [] && (sp.1.matches[0] == In(d) || sp.1.matches[0] == Out(d)) }

  lemma SpotsAreFor(l: Link)
    ensures forall sp :: sp in Spots(l) ==> For(sp, l.dev)
  {
  }

  /** A live link has all its rules. */
  lemma {:induction false} LiveHasSpot(k: Kernel, ops: seq<LinkOp>, d: Iface, sp: Spot)
    requires Live(k, ops, d)
    ensures LastOn(ops, d).Some? && LastOn(ops, d).value.dev == d
    ensures sp in Spots(LastOn(ops, d).value) ==> Count(RunOps(k, ops).fw, sp) > 0
  {
    var before, op := RunOps(k, ops[..|ops| - 1]), ops[|ops| - 1];
    if op.link.dev != d {
      LiveHasSpot(k, ops[..|ops| - 1], d, sp);
      SpotsAreFor(op.link);
      SpotsAreFor(LastOn(ops, d).value);
      if sp in Spots(LastOn(ops, d).value) {
        OpSpares(before, op, sp);
      }
    } else {
      UpOnFirewall(before, op.link, op.broken);
    }
  }

  // ---- the raw table ----

  /** The link takes replies on this interface for this address. */
  predicate TakesReplies(l: Link, d: Iface, a: Addr) {
    l.dev == d && exists i :: 0 <= i < |l.sources| && Contains(l.sources[i], a)
  }

  /** Some link was raised that does. */
  predicate SomeTakes(ops: seq<LinkOp>, d: Iface, a: Addr) {
    exists i :: 0 <= i < |ops| && ops[i].Raise? && TakesReplies(ops[i].link, d, a)
  }

  lemma RawHits(l: Link, r: FwRule, p: Packet)
    requires (RAW_CHAIN, r) in Spots(l)
    ensures r.target == Accept && (Hits(r, p) ==> TakesReplies(l, p.inDev, p.dst))
  {
    var i :| 0 <= i < |Spots(l)| && Spots(l)[i] == (RAW_CHAIN, r);
    assert "STACKR-RAW" != "STACKR-NAT" && "STACKR-RAW" != "STACKR-XN";
    assert i >= 3 && (RAW_CHAIN, r) == RawSpot(l.dev, l.sources[i - 3]);
    HitsTwo(In(l.dev), Dst(l.sources[i - 3]), r.target, p);
  }

  lemma RawRule(l: Link, p: Packet) returns (r: FwRule)
    requires TakesReplies(l, p.inDev, p.dst)
    ensures (RAW_CHAIN, r) in Spots(l) && Hits(r, p)
  {
    var i :| 0 <= i < |l.sources| && Contains(l.sources[i], p.dst);
    r := RawSpot(l.dev, l.sources[i]).1;
    assert Spots(l)[3 + i] == RawSpot(l.dev, l.sources[i]);
    HitsTwo(In(l.dev), Dst(l.sources[i]), r.target, p);
  }

  lemma RawStaysAccepting(k: Kernel, ops: seq<LinkOp>, p: Packet)
    requires AcceptsOnly(RulesAt(k, RAW_CHAIN))
    ensures AcceptsOnly(RulesAt(RunOps(k, ops), RAW_CHAIN))
    ensures AnyHits(RulesAt(RunOps(k, ops), RAW_CHAIN), p) ==>
      AnyHits(RulesAt(k, RAW_CHAIN), p) || SomeTakes(ops, p.inDev, p.dst)
  {
    var was, now := RulesAt(k, RAW_CHAIN), RulesAt(RunOps(k, ops), RAW_CHAIN);
    forall r | r in now
      ensures r.target == Accept
      ensures Hits(r, p) ==>
        AnyHits(was, p) || SomeTakes(ops, p.inDev, p.dst)
    {
      RunBrings(k, ops, (RAW_CHAIN, r));
      if Count(k.fw, (RAW_CHAIN, r)) > 0 {
        var j :| 0 <= j < |was| && was[j] == r;
      } else {
        var i :| 0 <= i < |ops| && ops[i].Raise? && (RAW_CHAIN, r) in Spots(ops[i].link);
        RawHits(ops[i].link, r, p);
      }
    }
    if j :| 0 <= j < |now| && Hits(now[j], p) {
      assert now[j] in now;
    }
  }

  /** After any sequence of links coming up and going down, finished or cut short: a reply that
      comes in by a live link for one of its sources is accepted in the raw table. */
  lemma RepliesAccepted(k: Kernel, ops: seq<LinkOp>, p: Packet)
    requires AcceptsOnly(RulesAt(k, RAW_CHAIN)) && Live(k, ops, p.inDev)
    requires LastOn(ops, p.inDev).Some? && TakesReplies(LastOn(ops, p.inDev).value, p.inDev, p.dst)
    ensures ChainVerdict(RulesAt(RunOps(k, ops), RAW_CHAIN), p) == Passed
  {
    var r := RawRule(LastOn(ops, p.inDev).value, p);
    var now := RulesAt(RunOps(k, ops), RAW_CHAIN);
    LiveHasSpot(k, ops, p.inDev, (RAW_CHAIN, r));
    RawStaysAccepting(k, ops, p);
    var i :| 0 <= i < |now| && now[i] == r;
    AcceptVerdict(now, p);
  }

  /** And nothing else is: a packet that no rule took before, and no raised link takes, is left
      to the rules that follow. */
  lemma OthersLeftAlone(k: Kernel, ops: seq<LinkOp>, p: Packet)
    requires AcceptsOnly(RulesAt(k, RAW_CHAIN)) && !AnyHits(RulesAt(k, RAW_CHAIN), p)
    requires !SomeTakes(ops, p.inDev, p.dst)
    ensures ChainVerdict(RulesAt(RunOps(k, ops), RAW_CHAIN), p) == FellThrough
  {
    RawStaysAccepting(k, ops, p);
    AcceptVerdict(RulesAt(RunOps(k, ops), RAW_CHAIN), p);
  }

  // ---- the nat table ----

  /** A link was raised on this interface. */
  predicate RaisedOn(ops: seq<LinkOp>, d: Iface) {
    exists i :: 0 <= i < |ops| && ops[i].Raise? && ops[i].link.dev == d
  }

  lemma NatHits(l: Link, r: FwRule, p: Packet)
    requires (NAT_CHAIN, r) in Spots(l)
    ensures r.target == Accept && (Hits(r, p) <==> p.outDev == l.dev)
  {
    var i :| 0 <= i < |Spots(l)| && Spots(l)[i] == (NAT_CHAIN, r);
    assert "STACKR-RAW" != "STACKR-NAT" && "STACKR-NAT" != "STACKR-XN";
    assert i == 0;
    HitsOne(Out(l.dev), Accept, p);
  }

  lemma NatStaysAccepting(k: Kernel, ops: seq<LinkOp>, p: Packet)
    requires AcceptsOnly(RulesAt(k, NAT_CHAIN))
    ensures AcceptsOnly(RulesAt(RunOps(k, ops), NAT_CHAIN))
    ensures AnyHits(RulesAt(RunOps(k, ops), NAT_CHAIN), p) ==>
      AnyHits(RulesAt(k, NAT_CHAIN), p) || RaisedOn(ops, p.outDev)
  {
    var was, now := RulesAt(k, NAT_CHAIN), RulesAt(RunOps(k, ops), NAT_CHAIN);
    forall r | r in now
      ensures r.target == Accept
      ensures Hits(r, p) ==> AnyHits(was, p) || RaisedOn(ops, p.outDev)
    {
      RunBrings(k, ops, (NAT_CHAIN, r));
      if Count(k.fw, (NAT_CHAIN, r)) > 0 {
        var j :| 0 <= j < |was| && was[j] == r;
      } else {
        var i :| 0 <= i < |ops| && ops[i].Raise? && (NAT_CHAIN, r) in Spots(ops[i].link);
        NatHits(ops[i].link, r, p);
      }
    }
    if j :| 0 <= j < |now| && Hits(now[j], p) {
      assert now[j] in now;
    }
  }

  /** What leaves by a live link keeps its source address; what leaves by an interface that no
      link was raised on is left to the rules that follow. */
  lemma NotTranslated(k: Kernel, ops: seq<LinkOp>, p: Packet)
    requires AcceptsOnly(RulesAt(k, NAT_CHAIN))
    ensures Live(k, ops, p.outDev) ==> ChainVerdict(RulesAt(RunOps(k, ops), NAT_CHAIN), p) == Passed
    ensures !AnyHits(RulesAt(k, NAT_CHAIN), p) && !RaisedOn(ops, p.outDev) ==>
      ChainVerdict(RulesAt(RunOps(k, ops), NAT_CHAIN), p) == FellThrough
  {
    var now := RulesAt(RunOps(k, ops), NAT_CHAIN);
    NatStaysAccepting(k, ops, p);
    AcceptVerdict(now, p);
    if Live(k, ops, p.outDev) {
      var r := FwRule([Out(p.outDev)], Accept);
      LiveHasSpot(k, ops, p.outDev, (NAT_CHAIN, r));
      assert Spots(LastOn(ops, p.outDev).value)[0] == (NAT_CHAIN, r);
      var i :| 0 <= i < |now| && now[i] == r;
      HitsOne(Out(p.outDev), Accept, p);
    }
  }

  /** All a live link does for a packet, by the names of the chains: replies it brings for its
      sources skip the raw table's drops, of what it brings in the gate passes what is established
      and drops the rest, and what leaves by it keeps its source address. */
  lemma LiveLinkTraffic(k: Kernel, ops: seq<LinkOp>, d: Iface, p: Packet)
    requires AcceptsOnly(RulesAt(k, (Raw, "STACKR-RAW"))) && AcceptsOnly(RulesAt(k, (Nat, "STACKR-NAT")))
    requires Ordered(RulesAt(k, (Filter, "STACKR-XN"))) && Live(k, ops, d)
    ensures
      var l := RunOps(k, ops);
      && LastOn(ops, d).Some?
      && (p.inDev == d && TakesReplies(LastOn(ops, d).value, d, p.dst) ==>
            ChainVerdict(RulesAt(l, (Raw, "STACKR-RAW")), p) == Passed)
      && (p.inDev == d ==>
            ChainVerdict(RulesAt(l, (Filter, "STACKR-XN")), p) == if StEstablished in p.states then Passed else Denied)
      && (p.outDev == d ==> ChainVerdict(RulesAt(l, (Nat, "STACKR-NAT")), p) == Passed)
  {
    LiveHasSpot(k, ops, d, (GATE, Bar(d)));
    if p.inDev == d {
      LiveExitGuarded(k, ops, p);
      if TakesReplies(LastOn(ops, d).value, d, p.dst) {
        RepliesAccepted(k, ops, p);
      }
    }
    if p.outDev == d {
      NotTranslated(k, ops, p);
    }
  }

  // ---- no step of a plan is optional ----

  /** A step that must work, and does not, fails its plan. */
  lemma {:induction false} NeededStep(k: Kernel, steps: seq<Step>, broken: set<Cmd>, i: nat)
    requires i < |steps| && steps[i].check == None && !steps[i].ignoreErr && steps[i].cmd in broken
    ensures !Apply(k, steps, broken).ok
    decreases |steps|
  {
    if i > 0 {
      NeededStep(RunStep(k, steps[0], broken).kernel, steps[1..], broken, i - 1);
    }
  }

  /** Up fails where the link cannot be added, set up or given its default route. */
  lemma UpNeedsTheLink(k: Kernel, l: Link, broken: set<Cmd>)
    requires LinkError(l) == None
    requires
      || LinkAdd(l.dev) in broken || LinkSet(l.dev, ["wg", l.peerKey]) in broken || LinkSet(l.dev, ["addr"]) in broken
      || LinkSet(l.dev, ["up"]) in broken || RouteReplace(DEFAULT, l.dev, l.table) in broken
    ensures !Apply(k, LinkUp(l).value, broken).ok
  {
    var steps := LinkUp(l).value;
    var net := NetUp(l);
    assert net[1].cmd == LinkAdd(l.dev) && net[2].cmd == LinkSet(l.dev, ["wg", l.peerKey]);
    assert net[3].cmd == LinkSet(l.dev, ["addr"]) && net[4].cmd == LinkSet(l.dev, ["up"]);
    assert net[5].cmd == RouteReplace(DEFAULT, l.dev, l.table);
    var i :| 1 <= i < 6 && net[i].cmd in broken;
    assert steps[i] == NetUp(l)[i];
    NeededStep(k, steps, broken, i);
  }

  // ---- at the head of their chains ----

  /** A packet some rules accept first. */
  predicate Accepted(k: Kernel, key: Key, p: Packet) { key in k.fw && FirstEnd(k.fw[key], p) == Some(Accept) }

  /** Everything these add to the chain is an accept, and goes to its head. */
  predicate AcceptsAtHead(adds: seq<Addition>, key: Key) {
    forall i :: 0 <= i < |adds| && adds[i].0.0 == key ==> adds[i].1 && adds[i].0.1.target == Accept
  }

  lemma AcceptStays(k: Kernel, add: Addition, key: Key, p: Packet, broken: set<Cmd>)
    requires AcceptsAtHead([add], key) && Accepted(k, key, p)
    ensures Accepted(RunStep(k, Once(add.0, add.1), broken).kernel, key, p)
  {
    assert [add][0] == add;
    if add.0.0 == key {
      assert ([add.0.1] + k.fw[key])[0] == add.0.1 && ([add.0.1] + k.fw[key])[1..] == k.fw[key];
    }
  }

  lemma {:induction false} AcceptsStay(k: Kernel, adds: seq<Addition>, key: Key, p: Packet, broken: set<Cmd>)
    requires AcceptsAtHead(adds, key) && Accepted(k, key, p)
    ensures Accepted(Apply(k, Onces(adds), broken).kernel, key, p)
    decreases |adds|
  {
    if adds != [] {
      assert Onces(adds)[0] == Once(adds[0].0, adds[0].1) && Onces(adds)[1..] == Onces(adds[1..]);
      AcceptStays(k, adds[0], key, p, broken);
      AcceptsStay(RunStep(k, Once(adds[0].0, adds[0].1), broken).kernel, adds[1..], key, p, broken);
    }
  }

  /** An accept that takes the packet, just put at the head, stays first. */
  lemma AddedIsFirst(k: Kernel, adds: seq<Addition>, key: Key, p: Packet, broken: set<Cmd>)
    requires AcceptsAtHead(adds, key) && adds != [] && adds[0].0.0 == key && Hits(adds[0].0.1, p)
    requires Lacks(k.fw, adds[0].0, broken) && Apply(k, Onces(adds), broken).ok
    ensures Accepted(Apply(k, Onces(adds), broken).kernel, key, p)
  {
    var one := RunStep(k, Once(adds[0].0, adds[0].1), broken);
    assert Onces(adds)[0] == Once(adds[0].0, adds[0].1) && Onces(adds)[1..] == Onces(adds[1..]);
    var r := adds[0].0.1;
    assert one.kernel.fw[key] == [r] + k.fw[key] && ([r] + k.fw[key])[0] == r;
    AcceptsStay(one.kernel, adds[1..], key, p, broken);
  }

  /** One of them is new and takes the packet: it is accepted first, whatever stood there. */
  lemma {:induction false} NewAcceptIsFirst(
      k: Kernel, adds: seq<Addition>, i: nat, key: Key, p: Packet, broken: set<Cmd>)
    requires AcceptsAtHead(adds, key) && i < |adds| && adds[i].0.0 == key && Hits(adds[i].0.1, p)
    requires Lacks(k.fw, adds[i].0, broken) && Apply(k, Onces(adds), broken).ok
    ensures Accepted(Apply(k, Onces(adds), broken).kernel, key, p)
    decreases |adds|
  {
    if adds[0].0 == adds[i].0 {
      AddedIsFirst(k, adds, key, p, broken);
    } else {
      var one := RunStep(k, Once(adds[0].0, adds[0].1), broken);
      assert Onces(adds)[0] == Once(adds[0].0, adds[0].1) && Onces(adds)[1..] == Onces(adds[1..]);
      OnceStep(k, adds[0].0, true, {adds[0].0}, broken);
      OnceStep(k, adds[0].0, false, {adds[0].0}, broken);
      NewAcceptIsFirst(one.kernel, adds[1..], i - 1, key, p, broken);
    }
  }

  lemma LinkAcceptsAtHead(l: Link)
    ensures AcceptsAtHead(Adds(l), RAW_CHAIN) && AcceptsAtHead(Adds(l), NAT_CHAIN)
  {
    assert "STACKR-RAW" != "STACKR-NAT" && "STACKR-RAW" != "STACKR-XN" && "STACKR-NAT" != "STACKR-XN";
  }

  /** Whatever rules stand there, a new link's rule for the packet accepts it first. */
  lemma NewSpotIsFirst(k: Kernel, l: Link, i: nat, broken: set<Cmd>, p: Packet)
    requires LinkError(l) == None && Apply(k, LinkUp(l).value, broken).ok
    requires i < |Adds(l)| && (Adds(l)[i].0.0 == RAW_CHAIN || Adds(l)[i].0.0 == NAT_CHAIN)
    requires Lacks(k.fw, Adds(l)[i].0, broken) && Hits(Adds(l)[i].0.1, p)
    ensures Accepted(Apply(k, LinkUp(l).value, broken).kernel, Adds(l)[i].0.0, p)
  {
    var m := Apply(k, NetUp(l), broken).kernel;
    NetOnly(k, NetUp(l), broken);
    ApplyConcat(k, NetUp(l), Onces(Adds(l)), broken);
    LinkAcceptsAtHead(l);
    NewAcceptIsFirst(m, Adds(l), i, Adds(l)[i].0.0, p, broken);
  }

  /** A link that comes up new is accepted first in both chains, over whatever rules of the
      host's own stand there: the replies it brings for its sources, and all that leaves by it. */
  lemma NewLinkIsFirst(k: Kernel, l: Link, broken: set<Cmd>, p: Packet)
    requires LinkError(l) == None && Apply(k, LinkUp(l).value, broken).ok
    requires forall sp :: sp in Spots(l) ==> Lacks(k.fw, sp, broken)
    ensures
      var m := Apply(k, LinkUp(l).value, broken).kernel;
      && (TakesReplies(l, p.inDev, p.dst) ==> ChainVerdict(RulesAt(m, (Raw, "STACKR-RAW")), p) == Passed)
      && (p.outDev == l.dev ==> ChainVerdict(RulesAt(m, (Nat, "STACKR-NAT")), p) == Passed)
  {
    if TakesReplies(l, p.inDev, p.dst) {
      var i :| 0 <= i < |l.sources| && Contains(l.sources[i], p.dst);
      assert Adds(l)[3 + i] == (RawSpot(l.dev, l.sources[i]), true) && Spots(l)[3 + i] == RawSpot(l.dev, l.sources[i]);
      HitsTwo(In(l.dev), Dst(l.sources[i]), Accept, p);
      NewSpotIsFirst(k, l, 3 + i, broken, p);
    }
    if p.outDev == l.dev {
      assert Adds(l)[0] == ((NAT_CHAIN, FwRule([Out(l.dev)], Accept)), true);
      assert Spots(l)[0] == (NAT_CHAIN, FwRule([Out(l.dev)], Accept));
      HitsOne(Out(l.dev), Accept, p);
      NewSpotIsFirst(k, l, 0, broken, p);
    }
  }
}
