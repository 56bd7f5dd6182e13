/** What a subject's rules do to its packets, and to everybody else's. */
module Traffic {
  import opened Outcomes
  import opened Peers
  import opened Kernel
  import opened Subjects

  /** No rule with a priority in [lo, hi) decides the packet. */
  predicate Undecided(n: Net, p: Packet, lo: nat, hi: nat) {
    forall q :: lo <= q < hi && q in n.rules ==> RuleFate(n, n.rules[q], p) == None
  }

  lemma {:induction false} FateSkips(n: Net, p: Packet, lo: nat, hi: nat)
    requires lo <= hi <= LAST_PREF + 1 && Undecided(n, p, lo, hi)
    ensures FateFrom(n, p, lo) == FateFrom(n, p, hi)
    decreases hi - lo
  {
    if lo < hi {
      FateSkips(n, p, lo + 1, hi);
    }
  }

  /** The packet is from source i of the subject and from none before it. */
  predicate FromSource(s: Subject, p: Packet, i: nat) {
    i < |s.sources| && Contains(s.sources[i], p.src) && forall j :: 0 <= j < i ==> !Contains(s.sources[j], p.src)
  }

  predicate FitsBelowMain(s: Subject) { s.base + 2 * |s.sources| <= LAST_PREF }

  lemma UndecidedBefore(n: Net, s: Subject, act: Action, p: Packet, i: nat)
    requires Installed(s, act, n.rules) && FromSource(s, p, i) && Undecided(n, p, 0, s.base)
    ensures Undecided(n, p, 0, Pref(s, i, 0))
  {
    forall q | 0 <= q < Pref(s, i, 0) && q in n.rules ensures RuleFate(n, n.rules[q], p) == None {
      if InBlock(s, |s.sources|, q) {
        assert n.rules[q] == RuleOf(s, act, q);
        assert (q - s.base) / 2 < i;
      }
    }
  }

  lemma ReachesOwnRules(n: Net, s: Subject, act: Action, p: Packet, i: nat)
    requires Installed(s, act, n.rules) && FitsBelowMain(s) && FromSource(s, p, i) && Undecided(n, p, 0, s.base)
    ensures
      var second := Pref(s, i, 1);
      && PacketFate(n, p) == FateFrom(n, p, Pref(s, i, 0))
      && n.rules[Pref(s, i, 0)] == PolicyRule(From(s.sources[i]), MainNoDefault)
      && n.rules[second] == PolicyRule(From(s.sources[i]), act)
      && FateFrom(n, p, second) ==
           if RuleFate(n, n.rules[second], p).Some? then RuleFate(n, n.rules[second], p).value
           else FateFrom(n, p, second + 1)
  {
    var first := Pref(s, i, 0);
    UndecidedBefore(n, s, act, p, i);
    FateSkips(n, p, 0, first);
    assert InBlock(s, |s.sources|, first) && InBlock(s, |s.sources|, first + 1);
    assert RuleOf(s, act, first) == n.rules[first] && RuleOf(s, act, first + 1) == n.rules[first + 1];
  }

  /** main has more for the packet than its default. */
  predicate MainDecides(n: Net, p: Packet) {
    var main := Best(OfTable(n, MAIN), p.dst);
    main.Some? && main.value.dest.bits > 0
  }

  /** A subject's packet: what main routes by more than its default still goes there; of the
      rest everything leaves by the exit table's route, or is dropped by a blackhole; where the
      exit's table has no route the host's own rules decide. */
  lemma SubjectTraffic(n: Net, s: Subject, act: Action, p: Packet, i: nat)
    requires Installed(s, act, n.rules) && FitsBelowMain(s) && FromSource(s, p, i) && Undecided(n, p, 0, s.base)
    ensures
      var main := Best(OfTable(n, MAIN), p.dst);
      if MainDecides(n, p) then PacketFate(n, p) == Leaves(main.value.dev)
      else match act
        case Blackhole => PacketFate(n, p) == Dropped
        case Lookup(t) =>
          var exit := Best(OfTable(n, t), p.dst);
          PacketFate(n, p) == if exit.Some? then Leaves(exit.value.dev) else FateFrom(n, p, s.base + 2 * |s.sources|)
        case MainNoDefault => PacketFate(n, p) == FateFrom(n, p, s.base + 2 * |s.sources|)
  {
    ReachesOwnRules(n, s, act, p, i);
    assert FateFrom(n, p, Pref(s, i, 0)) ==
      if RuleFate(n, n.rules[Pref(s, i, 0)], p).Some? then RuleFate(n, n.rules[Pref(s, i, 0)], p).value
      else FateFrom(n, p, Pref(s, i, 1));
    if !MainDecides(n, p) && (act == MainNoDefault || (act.Lookup? && Best(OfTable(n, act.table), p.dst) == None)) {
      BlockSkipped(n, s, act, p);
    }
  }

  /** No rule of the block decides what neither main nor the exit's table has a route for. */
  lemma BlockSkipped(n: Net, s: Subject, act: Action, p: Packet)
    requires Installed(s, act, n.rules) && FitsBelowMain(s) && Undecided(n, p, 0, s.base) && !MainDecides(n, p)
    requires act == MainNoDefault || (act.Lookup? && Best(OfTable(n, act.table), p.dst) == None)
    ensures Undecided(n, p, 0, s.base + 2 * |s.sources|)
    ensures PacketFate(n, p) == FateFrom(n, p, s.base + 2 * |s.sources|)
  {
    forall q: nat | q < s.base + 2 * |s.sources| && q in n.rules ensures RuleFate(n, n.rules[q], p) == None {
      if q >= s.base {
        assert n.rules[q] == RuleOf(s, act, q);
      }
    }
    FateSkips(n, p, 0, s.base + 2 * |s.sources|);
  }

  /** With the block empty the packet meets only the other rules: the host's own routing. */
  lemma ClearedTraffic(n: Net, s: Subject, p: Packet)
    requires Cleared(s, n.rules) && FitsBelowMain(s) && Undecided(n, p, 0, s.base)
    ensures PacketFate(n, p) == FateFrom(n, p, s.base + 2 * |s.sources|)
  {
    forall q | 0 <= q < s.base + 2 * |s.sources| && q in n.rules ensures RuleFate(n, n.rules[q], p) == None {
      assert !InBlock(s, |s.sources|, q);
    }
    FateSkips(n, p, 0, s.base + 2 * |s.sources|);
  }

  predicate Foreign(s: Subject, p: Packet) {
    forall i :: 0 <= i < |s.sources| ==> !Contains(s.sources[i], p.src)
  }

  /** Every rule in the block selects by one of this subject's sources. */
  ghost predicate OwnRulesOnly(s: Subject, rules: map<nat, PolicyRule>) {
    forall q: nat :: InBlock(s, |s.sources|, q) && q in rules ==>
      exists i :: 0 <= i < |s.sources| && rules[q].sel == From(s.sources[i])
  }

  /** Steps that delete, or add rules for one of the subject's sources. */
  predicate OwnStep(s: Subject, st: Step) {
    && st.check == None
    && (st.cmd.RuleDel? || (st.cmd.RuleAdd? && exists i :: 0 <= i < |s.sources| && st.cmd.rule.sel == From(s.sources[i])))
  }

  lemma {:induction false} OwnStepsKeepOwn(k: Kernel, s: Subject, steps: seq<Step>, broken: set<Cmd>)
    requires OwnRulesOnly(s, k.net.rules) && forall i :: 0 <= i < |steps| ==> OwnStep(s, steps[i])
    ensures OwnRulesOnly(s, Apply(k, steps, broken).kernel.net.rules)
    decreases |steps|
  {
    if steps != [] {
      assert OwnStep(s, steps[0]);
      OwnStepsKeepOwn(RunStep(k, steps[0], broken).kernel, s, steps[1..], broken);
    }
  }

  lemma {:induction false} ClearIsOwn(s: Subject, n: nat)
    ensures forall i :: 0 <= i < |ClearSteps(s, n)| ==> OwnStep(s, ClearSteps(s, n)[i])
  {
    if n > 0 {
      ClearIsOwn(s, n - 1);
    }
  }

  lemma {:induction false} AddIsOwn(s: Subject, n: nat, act: Action)
    requires n <= |s.sources|
    ensures forall i :: 0 <= i < |AddSteps(s, n, act)| ==> OwnStep(s, AddSteps(s, n, act)[i])
  {
    if n > 0 {
      AddIsOwn(s, n - 1, act);
    }
  }

  /** Installing or clearing, finished or cut short, leaves only the subject's own rules
      in a block that held no others. */
  lemma KeepsOwn(k: Kernel, s: Subject, act: Action, broken: set<Cmd>)
    requires OwnRulesOnly(s, k.net.rules)
    ensures OwnRulesOnly(s, Apply(k, Install(s, act), broken).kernel.net.rules)
    ensures OwnRulesOnly(s, Apply(k, Clear(s), broken).kernel.net.rules)
  {
    ClearIsOwn(s, |s.sources|);
    AddIsOwn(s, |s.sources|, act);
    OwnStepsKeepOwn(k, s, Install(s, act), broken);
    OwnStepsKeepOwn(k, s, Clear(s), broken);
  }

  /** Whatever this subject installs or clears, a packet from none of its sources fares as before. */
  lemma {:induction false} OthersUnaffected(k: Kernel, l: Kernel, s: Subject, p: Packet, from: nat)
    requires OnlyBlock(s, |s.sources|, k, l) && OwnRulesOnly(s, k.net.rules) && OwnRulesOnly(s, l.net.rules) && Foreign(s, p)
    ensures FateFrom(k.net, p, from) == FateFrom(l.net, p, from)
    decreases LAST_PREF + 1 - from
  {
    if from <= LAST_PREF {
      OthersUnaffected(k, l, s, p, from + 1);
      assert !InBlock(s, |s.sources|, from) ==> SameAt(k.net.rules, l.net.rules, from);
    }
  }
}
