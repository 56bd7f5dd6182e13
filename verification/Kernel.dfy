/** The host tables a plan's commands change: links, policy rules, routes and firewall
    chains, with what each command does, when it fails, and what a packet meets. */
module Kernel {
  import opened Outcomes
  import opened Chains
  import opened Peers

  type Iface = string

  datatype Tbl = Filter | Nat | Mangle | Raw

  datatype CtState = StNew | StEstablished | StDnat

  datatype Match =
    | In(dev: Iface) | Out(dev: Iface) | Src(range: Prefix) | Dst(range: Prefix)
    | State(st: CtState) | HasConnMark(mark: nat) | EchoRequest

  datatype Target = Accept | Deny | Return | Jump(chain: string) | Masquerade | SetConnMark(mark: nat) | RestoreMark

  datatype FwRule = FwRule(matches: seq<Match>, target: Target)

  type Key = (Tbl, string)
  type Firewall = map<Key, seq<FwRule>>

  const MAIN: nat := 254
  const LAST_PREF: nat := 32767
  const DEFAULT: Prefix := Prefix(0, 0)

  datatype Action = MainNoDefault | Lookup(table: nat) | Blackhole

  datatype Selector = From(range: Prefix) | FwMark(mark: nat)

  datatype PolicyRule = PolicyRule(sel: Selector, act: Action)

  datatype Route = Route(dest: Prefix, dev: Iface)

  datatype Net = Net(links: set<Iface>, rules: map<nat, PolicyRule>, routes: map<nat, seq<Route>>)

  datatype Kernel = Kernel(net: Net, fw: Firewall)

  datatype Cmd =
    | LinkDel(dev: Iface)
    | LinkAdd(dev: Iface)
    | LinkSet(dev: Iface, what: seq<string>)
    | RouteReplace(dest: Prefix, dev: Iface, table: nat)
    | RouteFlush(table: nat)
    | RuleAdd(pref: nat, rule: PolicyRule)
    | RuleDel(pref: nat)
    | ChainNew(key: Key)
    | ChainFlush(key: Key)
    | ChainDrop(key: Key)
    | RuleAppend(key: Key, fw: FwRule)
    | RuleInsert(key: Key, fw: FwRule)
    | RuleDelete(key: Key, fw: FwRule)
    | RuleCheck(key: Key, fw: FwRule)

  /** One command; a check that succeeds means it is done already. */
  datatype Step = Step(cmd: Cmd, check: Option<Cmd>, ignoreErr: bool)

  predicate JumpsTo(key: Key, from: Key, r: FwRule) {
    from.0 == key.0 && r.target == Jump(key.1)
  }

  function OfTable(net: Net, t: nat): seq<Route> {
    if t in net.routes then net.routes[t] else []
  }

  /** The table's routes with the one to `dest` replaced. */
  function Replaced(rs: seq<Route>, r: Route): seq<Route> {
    if rs == [] then [r]
    else if rs[0].dest == r.dest then [r] + rs[1..]
    else [rs[0]] + Replaced(rs[1..], r)
  }

  function NotBy(rs: seq<Route>, dev: Iface): seq<Route> {
    if rs == [] then []
    else (if rs[0].dev == dev then [] else [rs[0]]) + NotBy(rs[1..], dev)
  }

  /** What ip and wg commands do; None is a failed command. */
  function ExecNet(n: Net, c: Cmd): Option<Net> {
    match c
    case LinkDel(dev) =>
      if dev in n.links then
        Some(n.(links := n.links - {dev}, routes := map t | t in n.routes :: NotBy(n.routes[t], dev)))
      else None
    case LinkAdd(dev) => if dev in n.links then None else Some(n.(links := n.links + {dev}))
    case LinkSet(dev, _) => if dev in n.links then Some(n) else None
    case RouteReplace(dest, dev, t) =>
      if dev in n.links then Some(n.(routes := n.routes[t := Replaced(OfTable(n, t), Route(dest, dev))])) else None
    case RouteFlush(t) => Some(n.(routes := n.routes[t := []]))
    case RuleAdd(pref, r) => if pref in n.rules then None else Some(n.(rules := n.rules[pref := r]))
    case RuleDel(pref) => if pref in n.rules then Some(n.(rules := n.rules - {pref})) else None
    case _ => None
  }

  /** What iptables commands do. A jump needs its chain. */
  function ExecFw(f: Firewall, c: Cmd): Option<Firewall> {
    match c
    case ChainNew(key) => New(f, key)
    case ChainFlush(key) => Flush(f, key)
    case ChainDrop(key) => Drop(f, key, (from: Key, r: FwRule) => JumpsTo(key, from, r))
    case RuleAppend(key, r) => if JumpOk(f, key, r) then Append(f, key, r) else None
    case RuleInsert(key, r) => if JumpOk(f, key, r) then Insert(f, key, r) else None
    case RuleDelete(key, r) => Delete(f, key, r)
    case RuleCheck(key, r) => if Has(f, key, r) then Some(f) else None
    case _ => None
  }

  predicate JumpOk(f: Firewall, key: Key, r: FwRule) {
    r.target.Jump? ==> (key.0, r.target.chain) in f
  }

  predicate IsFw(c: Cmd) {
    c.ChainNew? || c.ChainFlush? || c.ChainDrop? || c.RuleAppend? || c.RuleInsert? || c.RuleDelete? || c.RuleCheck?
  }

  function Exec(k: Kernel, c: Cmd): Option<Kernel> {
    if IsFw(c) then
      match ExecFw(k.fw, c)
      case Some(f) => Some(k.(fw := f))
      case None => None
    else
      match ExecNet(k.net, c)
      case Some(n) => Some(k.(net := n))
      case None => None
  }

  datatype Applied = Applied(kernel: Kernel, ok: bool)

  /** One step: skipped when its check succeeds, else run. `broken` are commands, checks
      among them, that fail for a reason outside the tables. */
  function RunStep(k: Kernel, s: Step, broken: set<Cmd>): Applied {
    if s.check.Some? && s.check.value !in broken && Exec(k, s.check.value).Some? then Applied(k, true)
    else if s.cmd !in broken && Exec(k, s.cmd).Some? then Applied(Exec(k, s.cmd).value, true)
    else Applied(k, s.ignoreErr)
  }

  /** The steps in order up to the first real failure. */
  function Apply(k: Kernel, steps: seq<Step>, broken: set<Cmd>): Applied
    decreases |steps|
  {
    if steps == [] then Applied(k, true)
    else
      var r := RunStep(k, steps[0], broken);
      if r.ok then Apply(r.kernel, steps[1..], broken) else r
  }

  lemma {:induction false} ApplyConcat(k: Kernel, a: seq<Step>, b: seq<Step>, broken: set<Cmd>)
    ensures
      var first := Apply(k, a, broken);
      Apply(k, a + b, broken) == if first.ok then Apply(first.kernel, b, broken) else first
    decreases |a|
  {
    if a == [] {
      assert a + b == b;
    } else {
      assert (a + b)[1..] == a[1..] + b && (a + b)[0] == a[0];
      ApplyConcat(RunStep(k, a[0], broken).kernel, a[1..], b, broken);
    }
  }

  lemma ApplyOne(k: Kernel, s: Step, broken: set<Cmd>)
    ensures Apply(k, [s], broken) == RunStep(k, s, broken)
  {
    assert [s][1..] == [];
  }

  lemma ApplyTwo(k: Kernel, s: Step, t: Step, broken: set<Cmd>)
    ensures
      var first := RunStep(k, s, broken);
      Apply(k, [s, t], broken) == if first.ok then RunStep(first.kernel, t, broken) else first
  {
    assert [s, t][1..] == [t];
    ApplyOne(RunStep(k, s, broken).kernel, t, broken);
  }

  /** The host as the runner changes it, one command at a time. */
  class Host {
    var kernel: Kernel

    constructor (k: Kernel)
      ensures kernel == k
    {
      kernel := k;
    }

    method Run(c: Cmd, broken: set<Cmd>) returns (ok: bool)
      modifies this
      ensures ok <==> c !in broken && Exec(old(kernel), c).Some?
      ensures kernel == if ok then Exec(old(kernel), c).value else old(kernel)
    {
      var r := if c in broken then None else Exec(kernel, c);
      ok := r.Some?;
      if ok {
        kernel := r.value;
      }
    }

    /** A check only looks. */
    method Probe(c: Cmd, broken: set<Cmd>) returns (ok: bool)
      ensures ok <==> c !in broken && Exec(kernel, c).Some?
    {
      ok := c !in broken && Exec(kernel, c).Some?;
    }

    method ApplySteps(steps: seq<Step>, broken: set<Cmd>) returns (ok: bool)
      modifies this
      ensures Applied(kernel, ok) == Apply(old(kernel), steps, broken)
    {
      var i := 0;
      while i < |steps|
        invariant 0 <= i <= |steps|
        invariant Apply(kernel, steps[i..], broken) == Apply(old(kernel), steps, broken)
      {
        var s := steps[i];
        assert steps[i..][0] == s && steps[i..][1..] == steps[i + 1..];
        var done := false;
        if s.check.Some? {
          done := Probe(s.check.value, broken);
        }
        if !done {
          var ran := Run(s.cmd, broken);
          if !ran && !s.ignoreErr {
            return false;
          }
        }
        i := i + 1;
      }
      return true;
    }
  }

  // ---- packets ----

  datatype Packet = Packet(
    src: Addr, dst: Addr, inDev: Iface, outDev: Iface, states: set<CtState>, mark: nat, connMark: nat, echo: bool)

  /** The longest matching route, the first of equals. */
  function Best(rs: seq<Route>, dst: Addr): (r: Option<Route>)
    ensures r.Some? ==> r.value in rs && Contains(r.value.dest, dst)
    ensures forall x :: x in rs && Contains(x.dest, dst) ==> r.Some? && x.dest.bits <= r.value.dest.bits
  {
    if rs == [] then None
    else
      var rest := Best(rs[1..], dst);
      if Contains(rs[0].dest, dst) && (rest == None || rs[0].dest.bits >= rest.value.dest.bits) then Some(rs[0]) else rest
  }

  datatype Fate = Leaves(dev: Iface) | Dropped | Unroutable

  /** What one policy rule decides for a packet, if anything. */
  function RuleFate(n: Net, r: PolicyRule, p: Packet): Option<Fate> {
    var hit := match r.sel
      case From(range) => Contains(range, p.src)
      case FwMark(m) => p.mark == m;
    if !hit then None
    else match r.act
      case Blackhole => Some(Dropped)
      case Lookup(t) =>
        (match Best(OfTable(n, t), p.dst)
         case Some(x) => Some(Leaves(x.dev))
         case None => None)
      case MainNoDefault =>
        match Best(OfTable(n, MAIN), p.dst)
        case Some(x) => if x.dest.bits == 0 then None else Some(Leaves(x.dev))
        case None => None
  }

  /** Priorities are tried upward from `from`; the first rule that decides is final. */
  function FateFrom(n: Net, p: Packet, from: nat): Fate
    decreases LAST_PREF + 1 - from
  {
    if from > LAST_PREF then Unroutable
    else if from in n.rules && RuleFate(n, n.rules[from], p).Some? then RuleFate(n, n.rules[from], p).value
    else FateFrom(n, p, from + 1)
  }

  function PacketFate(n: Net, p: Packet): Fate { FateFrom(n, p, 0) }

  predicate Meets(m: Match, p: Packet) {
    match m
    case In(d) => p.inDev == d
    case Out(d) => p.outDev == d
    case Src(r) => Contains(r, p.src)
    case Dst(r) => Contains(r, p.dst)
    case State(s) => s in p.states
    case HasConnMark(x) => p.connMark == x
    case EchoRequest => p.echo
  }

  predicate Hits(r: FwRule, p: Packet) {
    forall i :: 0 <= i < |r.matches| ==> Meets(r.matches[i], p)
  }

  lemma HitsOne(m: Match, t: Target, p: Packet)
    ensures Hits(FwRule([m], t), p) <==> Meets(m, p)
  {
    assert [m][0] == m;
  }

  lemma HitsTwo(m: Match, n: Match, t: Target, p: Packet)
    ensures Hits(FwRule([m, n], t), p) <==> Meets(m, p) && Meets(n, p)
  {
    assert [m, n][0] == m && [m, n][1] == n;
  }

  datatype Verdict = Passed | Denied | FellThrough

  /** The target of the first hit that ends the walk of a chain without jumps. */
  function FirstEnd(rules: seq<FwRule>, p: Packet): Option<Target> {
    if rules == [] then None
    else if Hits(rules[0], p) && (rules[0].target == Accept || rules[0].target == Deny || rules[0].target == Return) then
      Some(rules[0].target)
    else FirstEnd(rules[1..], p)
  }

  function ChainVerdict(rules: seq<FwRule>, p: Packet): Verdict {
    match FirstEnd(rules, p)
    case Some(Accept) => Passed
    case Some(Deny) => Denied
    case _ => FellThrough
  }

  lemma {:induction false} FirstEndConcat(a: seq<FwRule>, b: seq<FwRule>, p: Packet)
    ensures FirstEnd(a + b, p) == if FirstEnd(a, p).Some? then FirstEnd(a, p) else FirstEnd(b, p)
  {
    if a == [] {
      assert a + b == b;
    } else {
      assert (a + b)[0] == a[0] && (a + b)[1..] == a[1..] + b;
      FirstEndConcat(a[1..], b, p);
    }
  }

  /** The target that ends the walk of some rules of a table, jumps followed at most `depth`
      deep: an accept or a drop in the chain jumped to is final, and a return from it, or its
      end, goes on behind the jump. In the nat table masquerading is final too. */
  function EndIn(f: Firewall, t: Tbl, rules: seq<FwRule>, p: Packet, depth: nat): (r: Option<Target>)
    ensures r.Some? ==> r.value == Accept || r.value == Deny || r.value == Return || (r.value == Masquerade && t == Nat)
    decreases depth, |rules|
  {
    if rules == [] then None
    else
      var head := if Hits(rules[0], p) then EndAt(f, t, rules[0].target, p, depth) else None;
      if head.Some? then head else EndIn(f, t, rules[1..], p, depth)
  }

  function EndAt(f: Firewall, t: Tbl, target: Target, p: Packet, depth: nat): (r: Option<Target>)
    ensures r.Some? ==> r.value == Accept || r.value == Deny || r.value == Return || (r.value == Masquerade && t == Nat)
    decreases depth, 0
  {
    match target
    case Accept => Some(Accept)
    case Deny => Some(Deny)
    case Return => Some(Return)
    case Jump(c) =>
      if depth > 0 && (t, c) in f then
        var inner := EndIn(f, t, f[(t, c)], p, depth - 1);
        if inner == Some(Return) then None else inner
      else None
    case Masquerade => if t == Nat then Some(Masquerade) else None
    case _ => None
  }

  lemma {:induction false} EndInConcat(f: Firewall, t: Tbl, a: seq<FwRule>, b: seq<FwRule>, p: Packet, depth: nat)
    ensures EndIn(f, t, a + b, p, depth) ==
      if EndIn(f, t, a, p, depth).Some? then EndIn(f, t, a, p, depth) else EndIn(f, t, b, p, depth)
    decreases |a|
  {
    if a == [] {
      assert a + b == b;
    } else {
      assert (a + b)[0] == a[0] && (a + b)[1..] == a[1..] + b;
      EndInConcat(f, t, a[1..], b, p, depth);
    }
  }

  /** The jumps of some rules lead only to the chains named. */
  ghost predicate JumpsWithin(rules: seq<FwRule>, names: set<string>) {
    forall i :: 0 <= i < |rules| && rules[i].target.Jump? ==> rules[i].target.chain in names
  }

  /** A set of chains that no jump leaves, and that reads the same in both. */
  ghost predicate SameWithin(f: Firewall, g: Firewall, t: Tbl, names: set<string>) {
    forall c :: c in names ==>
      ((t, c) in f <==> (t, c) in g) && ((t, c) in f ==> f[(t, c)] == g[(t, c)] && JumpsWithin(f[(t, c)], names))
  }

  lemma {:induction false} SameEnd(
      f: Firewall, g: Firewall, t: Tbl, rules: seq<FwRule>, p: Packet, depth: nat, names: set<string>)
    requires JumpsWithin(rules, names) && SameWithin(f, g, t, names)
    ensures EndIn(f, t, rules, p, depth) == EndIn(g, t, rules, p, depth)
    decreases depth, |rules|
  {
    if rules != [] {
      var target := rules[0].target;
      if target.Jump? && depth > 0 && (t, target.chain) in f {
        SameEnd(f, g, t, f[(t, target.chain)], p, depth - 1, names);
      }
      assert EndAt(f, t, target, p, depth) == EndAt(g, t, target, p, depth);
      assert forall i :: 0 <= i < |rules[1..]| ==> rules[1..][i] == rules[i + 1];
      SameEnd(f, g, t, rules[1..], p, depth, names);
    }
  }

  /** The packet as the marking rules of a chain without jumps leave it. Marking does not end
      the walk; the connection's mark stays with the connection. */
  function Mangled(rules: seq<FwRule>, p: Packet): Packet {
    if rules == [] then p
    else if !Hits(rules[0], p) then Mangled(rules[1..], p)
    else match rules[0].target
      case SetConnMark(m) => Mangled(rules[1..], p.(connMark := m))
      case RestoreMark => Mangled(rules[1..], p.(mark := p.connMark))
      case Accept => p
      case Deny => p
      case Return => p
      case _ => Mangled(rules[1..], p)
  }

  /** A jump at the head: the chain jumped to decides, or else the rules behind the jump. */
  lemma JumpFirst(f: Firewall, t: Tbl, c: string, rest: seq<FwRule>, p: Packet, depth: nat)
    requires (t, c) in f && depth > 0
    ensures
      var inner := EndIn(f, t, f[(t, c)], p, depth - 1);
      EndIn(f, t, [FwRule([], Jump(c))] + rest, p, depth) ==
        if inner.Some? && inner != Some(Return) then inner else EndIn(f, t, rest, p, depth)
  {
    var jump := FwRule([], Jump(c));
    assert ([jump] + rest)[0] == jump && ([jump] + rest)[1..] == rest && Hits(jump, p);
  }

  lemma {:induction false} NoJumpEnd(f: Firewall, t: Tbl, rules: seq<FwRule>, p: Packet, depth: nat)
    requires t != Nat && forall i :: 0 <= i < |rules| ==> !rules[i].target.Jump?
    ensures EndIn(f, t, rules, p, depth) == FirstEnd(rules, p)
    decreases |rules|
  {
    if rules != [] {
      NoJumpEnd(f, t, rules[1..], p, depth);
    }
  }

  /** A packet after some marking rules, and whether one of them was final for it. */
  datatype Marking = Marking(packet: Packet, final: bool)

  /** The same with jumps followed. */
  function MarkedIn(f: Firewall, t: Tbl, rules: seq<FwRule>, p: Packet, depth: nat): Marking
    decreases depth, |rules|
  {
    if rules == [] then Marking(p, false)
    else if !Hits(rules[0], p) then MarkedIn(f, t, rules[1..], p, depth)
    else match rules[0].target
      case SetConnMark(m) => MarkedIn(f, t, rules[1..], p.(connMark := m), depth)
      case RestoreMark => MarkedIn(f, t, rules[1..], p.(mark := p.connMark), depth)
      case Accept => Marking(p, true)
      case Deny => Marking(p, true)
      case Return => Marking(p, false)
      case Jump(c) =>
        if depth > 0 && (t, c) in f then
          var inner := MarkedIn(f, t, f[(t, c)], p, depth - 1);
          if inner.final then inner else MarkedIn(f, t, rules[1..], inner.packet, depth)
        else MarkedIn(f, t, rules[1..], p, depth)
      case Masquerade => MarkedIn(f, t, rules[1..], p, depth)
  }

  lemma {:induction false} MarkedByRules(f: Firewall, t: Tbl, rules: seq<FwRule>, p: Packet, depth: nat)
    requires forall i :: 0 <= i < |rules| ==> rules[i].target.SetConnMark? || rules[i].target == RestoreMark
    ensures MarkedIn(f, t, rules, p, depth) == Marking(Mangled(rules, p), false)
    decreases |rules|
  {
    if rules != [] {
      var q := if !Hits(rules[0], p) then p
        else if rules[0].target == RestoreMark then p.(mark := p.connMark) else p.(connMark := rules[0].target.mark);
      MarkedByRules(f, t, rules[1..], q, depth);
    }
  }

  lemma MarkedFirst(f: Firewall, t: Tbl, c: string, rest: seq<FwRule>, p: Packet, depth: nat)
    requires (t, c) in f && depth > 0 && !MarkedIn(f, t, f[(t, c)], p, depth - 1).final
    ensures MarkedIn(f, t, [FwRule([], Jump(c))] + rest, p, depth) ==
      MarkedIn(f, t, rest, MarkedIn(f, t, f[(t, c)], p, depth - 1).packet, depth)
  {
    var jump := FwRule([], Jump(c));
    assert ([jump] + rest)[0] == jump && ([jump] + rest)[1..] == rest && Hits(jump, p);
  }
}
