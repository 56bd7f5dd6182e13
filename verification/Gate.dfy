/** The gate all links share: whatever order links come up and go down in, established
    traffic from a live exit passes and everything else from it is dropped. */
module Gate {
  import opened Outcomes
  import opened Chains
  import opened Kernel
  import opened RuleLists
  import opened Links

  datatype LinkOp = Raise(link: Link, broken: set<Cmd>) | Lower(link: Link, broken: set<Cmd>)

  function OpSteps(op: LinkOp): seq<Step> {
    match op
    case Raise(l, _) => if LinkError(l) == None then LinkUp(l).value else []
    case Lower(l, _) => LinkDown(l)
  }

  function RunOp(k: Kernel, op: LinkOp): Applied { Apply(k, OpSteps(op), op.broken) }

  /** The kernel after the operations in order, each finished or cut short. */
  function RunOps(k: Kernel, ops: seq<LinkOp>): Kernel {
    if ops == [] then k else RunOp(RunOps(k, ops[..|ops| - 1]), ops[|ops| - 1]).kernel
  }

  function GateOf(k: Kernel): seq<FwRule> { if GATE in k.fw then k.fw[GATE] else [] }

  predicate IsLinkRule(r: FwRule) {
    && r.matches != [] && r.matches[0].In?
    && (r == Est(r.matches[0].dev) || r == Bar(r.matches[0].dev))
  }

  /** No accept comes after its interface's drop. */
  predicate Ordered(s: seq<FwRule>) {
    s != [] ==>
      && IsLinkRule(s[0]) && Ordered(s[1..])
      && (s[0] == Bar(s[0].matches[0].dev) ==> Est(s[0].matches[0].dev) !in s[1..])
  }

  lemma {:induction false} OrderedAppend(s: seq<FwRule>, d: Iface)
    requires Ordered(s)
    ensures Ordered(s + [Bar(d)])
  {
    if s == [] {
      assert s + [Bar(d)] == [Bar(d)] && [Bar(d)][1..] == [];
    } else {
      assert (s + [Bar(d)])[0] == s[0] && (s + [Bar(d)])[1..] == s[1..] + [Bar(d)];
      OrderedAppend(s[1..], d);
    }
  }

  lemma {:induction false} OrderedRemove(s: seq<FwRule>, r: FwRule)
    requires Ordered(s) && r in s
    ensures Ordered(RemoveFirst(s, r)) && forall x :: x in RemoveFirst(s, r) ==> x in s
  {
    if s[0] != r {
      OrderedRemove(s[1..], r);
      var t := RemoveFirst(s, r);
      assert t[0] == s[0] && t[1..] == RemoveFirst(s[1..], r);
    }
  }

  /** What a gate in order does to a packet. */
  lemma {:induction false} OrderedVerdict(s: seq<FwRule>, p: Packet)
    requires Ordered(s)
    ensures ChainVerdict(s, p) ==
      if StEstablished in p.states && Est(p.inDev) in s then Passed
      else if Bar(p.inDev) in s then Denied
      else FellThrough
  {
    if s != [] {
      OrderedVerdict(s[1..], p);
      var d := s[0].matches[0].dev;
      assert s == [s[0]] + s[1..];
      HitsTwo(In(d), State(StEstablished), Accept, p);
      HitsOne(In(d), Deny, p);
      assert Est(p.inDev) != Bar(p.inDev);
    }
  }

  /** A step of some link's plans. */
  ghost predicate LinkStep(st: Step) {
    || (!IsFw(st.cmd) && st.check == None)
    || (exists sp, first :: st == Once(sp, first) && sp.0 != GATE)
    || (exists d :: st == Once((GATE, Est(d)), true) || st == Once((GATE, Bar(d)), false))
    || (exists sp :: st == Erase(sp))
  }

  lemma StepKeepsOrder(k: Kernel, st: Step, broken: set<Cmd>)
    requires LinkStep(st) && Ordered(GateOf(k))
    ensures Ordered(GateOf(RunStep(k, st, broken).kernel))
  {
    var l := RunStep(k, st, broken).kernel;
    if sp :| st == Erase(sp) {
      if GateOf(l) != GateOf(k) {
        OrderedRemove(GateOf(k), sp.1);
      }
    } else if d :| st == Once((GATE, Bar(d)), false) {
      OrderedAppend(GateOf(k), d);
    } else if d :| st == Once((GATE, Est(d)), true) {
      var s := GateOf(k);
      assert ([Est(d)] + s)[0] == Est(d) && ([Est(d)] + s)[1..] == s;
    }
  }

  lemma {:induction false} StepsKeepOrder(k: Kernel, steps: seq<Step>, broken: set<Cmd>)
    requires Ordered(GateOf(k)) && forall i :: 0 <= i < |steps| ==> LinkStep(steps[i])
    ensures Ordered(GateOf(Apply(k, steps, broken).kernel))
    decreases |steps|
  {
    if steps != [] {
      assert LinkStep(steps[0]);
      StepKeepsOrder(k, steps[0], broken);
      StepsKeepOrder(RunStep(k, steps[0], broken).kernel, steps[1..], broken);
    }
  }

  lemma OpIsLinkSteps(op: LinkOp)
    ensures forall i :: 0 <= i < |OpSteps(op)| ==> LinkStep(OpSteps(op)[i])
  {
    var l, steps := op.link, OpSteps(op);
    forall i | 0 <= i < |steps| ensures LinkStep(steps[i]) {
      if op.Raise? {
        if i >= |NetUp(l)| {
          var a := Adds(l)[i - |NetUp(l)|];
          assert steps[i] == Once(a.0, a.1);
        }
      } else if i >= |NetDown(l)| {
        assert steps[i] == Erase(Spots(l)[i - |NetDown(l)|]);
      }
    }
  }

  lemma {:induction false} GateStaysOrdered(k: Kernel, ops: seq<LinkOp>)
    requires Ordered(GateOf(k))
    ensures Ordered(GateOf(RunOps(k, ops)))
  {
    if ops != [] {
      var before := RunOps(k, ops[..|ops| - 1]);
      GateStaysOrdered(k, ops[..|ops| - 1]);
      OpIsLinkSteps(ops[|ops| - 1]);
      StepsKeepOrder(before, OpSteps(ops[|ops| - 1]), ops[|ops| - 1].broken);
    }
  }

  /** The last operation on interface d brought its link up. */
  predicate Live(k: Kernel, ops: seq<LinkOp>, d: Iface) {
    ops != [] &&
    var op := ops[|ops| - 1];
    if op.link.dev != d then Live(k, ops[..|ops| - 1], d)
    else op.Raise? && LinkError(op.link) == None && RunOp(RunOps(k, ops[..|ops| - 1]), op).ok
  }

  /** An operation on another link leaves this one's two gate rules alone. */
  lemma OthersSpared(k: Kernel, op: LinkOp, d: Iface)
    requires op.link.dev != d
    ensures Count(RunOp(k, op).kernel.fw, (GATE, Est(d))) == Count(k.fw, (GATE, Est(d)))
    ensures Count(RunOp(k, op).kernel.fw, (GATE, Bar(d))) == Count(k.fw, (GATE, Bar(d)))
  {
    var l := op.link;
    SpotsAdded(l);
    assert Est(d).matches[0] == In(d) && Bar(d).matches[0] == In(d);
    forall sp | sp in Spots(l) ensures sp != (GATE, Est(d)) && sp != (GATE, Bar(d)) {
    }
    if op.Raise? {
      UpOnFirewall(k, l, op.broken);
    } else {
      DownOnFirewall(k, l, op.broken);
    }
  }

  lemma {:induction false} LiveHasRules(k: Kernel, ops: seq<LinkOp>, d: Iface)
    requires Live(k, ops, d)
    ensures Est(d) in GateOf(RunOps(k, ops)) && Bar(d) in GateOf(RunOps(k, ops))
  {
    var before, op := RunOps(k, ops[..|ops| - 1]), ops[|ops| - 1];
    var after := RunOps(k, ops);
    if op.link.dev != d {
      LiveHasRules(k, ops[..|ops| - 1], d);
      OthersSpared(before, op, d);
    } else {
      UpOnFirewall(before, op.link, op.broken);
      assert Spots(op.link)[1] == (GATE, Est(d)) && Spots(op.link)[2] == (GATE, Bar(d));
    }
    assert Count(after.fw, (GATE, Est(d))) > 0 && Count(after.fw, (GATE, Bar(d))) > 0;
  }

  /** After any sequence of links coming up and going down, each step of each finished, failed
      or cut short, from a gate that held only link rules: a live exit's established traffic
      passes and everything else from it is dropped. */
  lemma LiveExitGuarded(k: Kernel, ops: seq<LinkOp>, p: Packet)
    requires Ordered(GateOf(k)) && Live(k, ops, p.inDev)
    ensures ChainVerdict(GateOf(RunOps(k, ops)), p) == if StEstablished in p.states then Passed else Denied
  {
    GateStaysOrdered(k, ops);
    LiveHasRules(k, ops, p.inDev);
    OrderedVerdict(GateOf(RunOps(k, ops)), p);
  }

  // ---- links that are gone ----

  /** No check and no delete of a gate rule failed for an outside reason. */
  predicate Clean(op: LinkOp) { ChecksHold(Adds(op.link), op.broken) && NoneLost(Spots(op.link), op.broken) }

  /** The interface was never raised, or lowered since. */
  predicate Gone(ops: seq<LinkOp>, d: Iface) {
    ops == [] || (var op := ops[|ops| - 1]; if op.link.dev != d then Gone(ops[..|ops| - 1], d) else op.Lower?)
  }

  predicate AtMostOnce(k: Kernel, d: Iface) {
    Count(k.fw, (GATE, Est(d))) <= 1 && Count(k.fw, (GATE, Bar(d))) <= 1
  }

  predicate NoRules(k: Kernel, d: Iface) {
    Count(k.fw, (GATE, Est(d))) == 0 && Count(k.fw, (GATE, Bar(d))) == 0
  }

  lemma CleanOp(k: Kernel, op: LinkOp, d: Iface)
    requires Clean(op) && AtMostOnce(k, d)
    ensures AtMostOnce(RunOp(k, op).kernel, d)
    ensures op.Lower? && op.link.dev == d ==> NoRules(RunOp(k, op).kernel, d)
  {
    if op.link.dev != d {
      OthersSpared(k, op, d);
    } else {
      assert Spots(op.link)[1] == (GATE, Est(d)) && Spots(op.link)[2] == (GATE, Bar(d));
      if op.Raise? {
        UpOnFirewall(k, op.link, op.broken);
      } else {
        DownOnFirewall(k, op.link, op.broken);
      }
    }
  }

  lemma {:induction false} GoneHasNoRules(k: Kernel, ops: seq<LinkOp>, d: Iface)
    requires NoRules(k, d) && forall i :: 0 <= i < |ops| ==> Clean(ops[i])
    ensures AtMostOnce(RunOps(k, ops), d) && (Gone(ops, d) ==> NoRules(RunOps(k, ops), d))
  {
    if ops != [] {
      var before, op := RunOps(k, ops[..|ops| - 1]), ops[|ops| - 1];
      GoneHasNoRules(k, ops[..|ops| - 1], d);
      CleanOp(before, op, d);
      if op.link.dev != d {
        OthersSpared(before, op, d);
      }
    }
  }

  /** And an interface whose link is gone is not the gate's business any more. */
  lemma GoneExitUntouched(k: Kernel, ops: seq<LinkOp>, p: Packet)
    requires Ordered(GateOf(k)) && NoRules(k, p.inDev) && Gone(ops, p.inDev)
    requires forall i :: 0 <= i < |ops| ==> Clean(ops[i])
    ensures ChainVerdict(GateOf(RunOps(k, ops)), p) == FellThrough
  {
    GateStaysOrdered(k, ops);
    GoneHasNoRules(k, ops, p.inDev);
    var after := RunOps(k, ops);
    assert Count(after.fw, (GATE, Est(p.inDev))) == 0 && Count(after.fw, (GATE, Bar(p.inDev))) == 0;
    OrderedVerdict(GateOf(after), p);
  }
}
