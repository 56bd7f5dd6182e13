/** The ladder's report and the kernel's rules: when they agree, and when they do not. */
module LadderRules {
  import opened Outcomes
  import opened Peers
  import opened Kernel
  import opened Subjects
  import opened BlockFaults
  import opened Traffic
  import opened Ladder
  import opened LadderRuns

  ghost predicate BlockSame(s: Subject, a: Kernel, b: Kernel) {
    forall p :: InBlock(s, |s.sources|, p) ==> SameAt(a.net.rules, b.net.rules, p)
  }

  /** Between passes nobody else touches the subject's block. */
  ghost predicate Steady(h: History)
    requires IsHistory(h)
  {
    forall i :: 0 < i < |h.beats| ==> BlockSame(h.c.subject, h.outs[i - 1].kernel, h.beats[i].before)
  }

  function KernelAt(h: History, n: nat): Kernel
    requires IsHistory(h) && 0 < n <= |h.beats|
  {
    h.outs[n - 1].kernel
  }

  /** Pass i set out to change rules. */
  predicate Tries(h: History, i: nat)
    requires IsHistory(h) && i < |h.beats|
  {
    var next := h.picks[i].next;
    !Stays(h.lads[i], next) && StepsFor(h.c, next).Ok?
  }

  /** The last of the first n passes that set out to change rules, -1 if none did. */
  function LastTry(h: History, n: nat): (j: int)
    requires IsHistory(h) && n <= |h.beats|
    ensures -1 <= j < n && (j >= 0 ==> Tries(h, j))
  {
    if n == 0 then -1 else if Tries(h, n - 1) then n - 1 else LastTry(h, n - 1)
  }

  predicate OwnLive(c: Config, l: Lad)
    requires Fits(c, l)
  {
    l.st.active >= 0 && c.rungs[l.st.active].own
  }

  /** The block is what the report says is in use. */
  ghost predicate Agrees(c: Config, l: Lad, k: Kernel)
    requires Fits(c, l)
  {
    if l.st.active < 0 then Installed(c.subject, Blackhole, k.net.rules)
    else if OwnLive(c, l) then Cleared(c.subject, k.net.rules)
    else Installed(c.subject, Lookup(c.rungs[l.st.active].table), k.net.rules)
  }

  /** Passes that set out to change nothing keep the report and the block. */
  lemma {:induction false} SinceLastTry(h: History, n: nat)
    requires IsHistory(h) && Steady(h) && n <= |h.beats| && LastTry(h, n) >= 0
    ensures
      var j := LastTry(h, n);
      && BlockSame(h.c.subject, h.outs[j].kernel, KernelAt(h, n))
      && h.lads[n].st == h.lads[j + 1].st && h.lads[n].init == h.lads[j + 1].init
  {
    if !Tries(h, n - 1) {
      SinceLastTry(h, n - 1);
      IdlePass(h, n - 1);
      BlockSameThen(h.c.subject, h.outs[LastTry(h, n - 1)].kernel, KernelAt(h, n - 1), h.beats[n - 1].before);
    }
  }

  lemma IdlePass(h: History, i: nat)
    requires IsHistory(h) && i < |h.beats| && !Tries(h, i)
    ensures h.outs[i].kernel == h.beats[i].before
    ensures h.lads[i + 1].st == h.lads[i].st && h.lads[i + 1].init == h.lads[i].init
  {
    assert Ticked(h, i);
  }

  lemma BlockSameThen(s: Subject, a: Kernel, b: Kernel, d: Kernel)
    requires BlockSame(s, a, b) && BlockSame(s, b, d)
    ensures BlockSame(s, a, d)
  {
    forall p | InBlock(s, |s.sources|, p) ensures SameAt(a.net.rules, d.net.rules, p) {
      assert SameAt(a.net.rules, b.net.rules, p) && SameAt(b.net.rules, d.net.rules, p);
    }
  }

  /** What the second rule of each pair asks for with this rung live. */
  function ActOf(c: Config, next: int): Action
    requires next < |c.rungs|
  {
    if next < 0 then Blackhole else Lookup(c.rungs[next].table)
  }

  /** A pass that set out to change rules, in the words of the plan it ran. */
  lemma TryIs(h: History, j: nat)
    requires IsHistory(h) && j < |h.beats| && Tries(h, j)
    ensures h.lads[j + 1] == h.outs[j].lad
    ensures
      var next, b, r := h.picks[j].next, h.beats[j], h.outs[j];
      var steps := if next >= 0 && h.c.rungs[next].own then Clear(h.c.subject)
                   else Install(h.c.subject, ActOf(h.c, next));
      && Applied(r.kernel, r.ok) == Apply(b.before, steps, b.broken)
      && (r.ok ==> r.lad.st.active == next && r.lad.init)
      && (!r.ok ==> r.lad.st == h.lads[j].st && r.lad.init == h.lads[j].init)
  {
    assert Ticked(h, j);
  }

  lemma AgreesByBlock(c: Config, l: Lad, m: Lad, a: Kernel, b: Kernel)
    requires Fits(c, l) && Fits(c, m) && l.st == m.st && BlockSame(c.subject, a, b)
    ensures (Agrees(c, l, a) <==> Agrees(c, m, b)) && (OwnLive(c, l) <==> OwnLive(c, m))
  {
    forall p | InBlock(c.subject, |c.subject.sources|, p) ensures SameAt(a.net.rules, b.net.rules, p) {
    }
  }

  /** A rule change that went through. */
  lemma TryWorked(h: History, j: nat)
    requires IsHistory(h) && j < |h.beats| && Tries(h, j) && h.outs[j].ok
    ensures
      var b, l, k := h.beats[j], h.lads[j + 1], h.outs[j].kernel;
      && l.init
      && (!OwnLive(h.c, l) ==> Agrees(h.c, l, k))
      && (OwnLive(h.c, l) ==> (Agrees(h.c, l, k) <==> NoDeleteLost(h.c.subject, b.before.net.rules, b.broken)))
  {
    var next, b := h.picks[j].next, h.beats[j];
    TryIs(h, j);
    if next >= 0 && h.c.rungs[next].own {
      ClearMeans(b.before, h.c.subject, b.broken);
    } else {
      InstallEffect(b.before, h.c.subject, ActOf(h.c, next), b.broken);
    }
  }

  /** A rule change that failed: the report is the old one. */
  lemma TryFailed(h: History, j: nat)
    requires IsHistory(h) && j < |h.beats| && Tries(h, j) && !h.outs[j].ok
    ensures h.lads[j + 1].st == h.lads[j].st
    ensures
      var l, s, rules, broken := h.lads[j + 1], h.c.subject, h.beats[j].before.net.rules, h.beats[j].broken;
      Agrees(h.c, l, h.outs[j].kernel) <==>
        if OwnLive(h.c, l) then NoDeleteLost(s, rules, broken) && s.sources != [] && FirstAdd(s) in broken
        else StaysWhole(s, ActOf(h.c, h.picks[j].next), ActOf(h.c, l.st.active), rules, broken)
  {
    var next, b := h.picks[j].next, h.beats[j];
    TryIs(h, j);
    if next >= 0 && h.c.rungs[next].own {
      ClearMeans(b.before, h.c.subject, b.broken);
    } else {
      FailedInstall(b.before, h.c.subject, ActOf(h.c, next), b.broken);
      FailedInstallWhole(b.before, h.c.subject, ActOf(h.c, next), ActOf(h.c, h.lads[j].st.active), b.broken);
    }
  }

  /** What report and rules come to after j passes, as after n. */
  ghost predicate AgreesAsAfter(h: History, j: nat, n: nat)
    requires IsHistory(h) && j < n <= |h.beats|
  {
    && h.lads[n].init == h.lads[j + 1].init && (OwnLive(h.c, h.lads[n]) <==> OwnLive(h.c, h.lads[j + 1]))
    && (Agrees(h.c, h.lads[n], KernelAt(h, n)) <==> Agrees(h.c, h.lads[j + 1], h.outs[j].kernel))
  }

  /** Since the last change report and rules agree as they did after it. */
  lemma AgreesAsAfterTry(h: History, n: nat)
    requires IsHistory(h) && Steady(h) && n <= |h.beats| && LastTry(h, n) >= 0
    ensures AgreesAsAfter(h, LastTry(h, n), n)
  {
    var j := LastTry(h, n);
    SinceLastTry(h, n);
    AgreesByBlock(h.c, h.lads[j + 1], h.lads[n], h.outs[j].kernel, KernelAt(h, n));
  }

  /** If the last rule change went through, the rules of an exit, or of Down, are in place,
      whatever else went wrong before or in it; the own uplink's are gone exactly when that
      change lost no delete. */
  lemma RulesAgree(h: History, n: nat)
    requires IsHistory(h) && Steady(h) && n <= |h.beats|
    requires LastTry(h, n) >= 0 && h.outs[LastTry(h, n)].ok
    ensures
      var b, l, k := h.beats[LastTry(h, n)], h.lads[n], KernelAt(h, n);
      && l.init
      && (!OwnLive(h.c, l) ==> Agrees(h.c, l, k))
      && (OwnLive(h.c, l) ==> (Agrees(h.c, l, k) <==> NoDeleteLost(h.c.subject, b.before.net.rules, b.broken)))
  {
    AgreesAsAfterTry(h, n);
    WorkedSince(h, n, LastTry(h, n));
  }

  lemma WorkedSince(h: History, n: nat, j: nat)
    requires IsHistory(h) && j < n <= |h.beats| && Tries(h, j) && h.outs[j].ok
    requires AgreesAsAfter(h, j, n)
    ensures
      var b, l, k := h.beats[j], h.lads[n], KernelAt(h, n);
      && l.init
      && (!OwnLive(h.c, l) ==> Agrees(h.c, l, k))
      && (OwnLive(h.c, l) ==> (Agrees(h.c, l, k) <==> NoDeleteLost(h.c.subject, b.before.net.rules, b.broken)))
  {
    TryWorked(h, j);
  }

  /** Exactly when report and rules agree, from what the last change found and what went wrong
      in it. One that went through agrees unless it was to the own uplink and lost a delete. One
      that failed agrees with the own uplink when it lost no delete and failed at its first add,
      and with any other report when it left the old block whole. */
  lemma RulesAgreeExactly(h: History, n: nat)
    requires IsHistory(h) && Steady(h) && n <= |h.beats| && LastTry(h, n) >= 0
    ensures
      var j, l, s := LastTry(h, n), h.lads[n], h.c.subject;
      var rules, broken := h.beats[j].before.net.rules, h.beats[j].broken;
      Agrees(h.c, l, KernelAt(h, n)) <==>
        if h.outs[j].ok then OwnLive(h.c, l) ==> NoDeleteLost(s, rules, broken)
        else if OwnLive(h.c, l) then NoDeleteLost(s, rules, broken) && s.sources != [] && FirstAdd(s) in broken
        else StaysWhole(s, ActOf(h.c, h.picks[j].next), ActOf(h.c, l.st.active), rules, broken)
  {
    var j := LastTry(h, n);
    if h.outs[j].ok {
      RulesAgree(h, n);
    } else {
      AgreesAsAfterTry(h, n);
      SinceLastTry(h, n);
      TryFailed(h, j);
    }
  }

  /** What a source's packets meet while report and rules agree: what main routes by more
      than its default goes there; the rest leaves by the live exit's table, is dropped when
      Down, or meets the host's own rules on the own uplink and where that table has no route. */
  lemma AgreedTraffic(c: Config, l: Lad, k: Kernel, p: Packet, i: nat)
    requires Fits(c, l) && Agrees(c, l, k)
    requires FitsBelowMain(c.subject) && FromSource(c.subject, p, i) && Undecided(k.net, p, 0, c.subject.base)
    ensures
      var main := Best(OfTable(k.net, MAIN), p.dst);
      if OwnLive(c, l) then PacketFate(k.net, p) == FateFrom(k.net, p, c.subject.base + 2 * |c.subject.sources|)
      else if main.Some? && main.value.dest.bits > 0 then PacketFate(k.net, p) == Leaves(main.value.dev)
      else if l.st.active < 0 then PacketFate(k.net, p) == Dropped
      else
        var exit := Best(OfTable(k.net, c.rungs[l.st.active].table), p.dst);
        PacketFate(k.net, p) ==
          if exit.Some? then Leaves(exit.value.dev)
          else FateFrom(k.net, p, c.subject.base + 2 * |c.subject.sources|)
  {
    if OwnLive(c, l) {
      ClearedTraffic(k.net, c.subject, p);
    } else if l.st.active < 0 {
      SubjectTraffic(k.net, c.subject, Blackhole, p, i);
    } else {
      SubjectTraffic(k.net, c.subject, Lookup(c.rungs[l.st.active].table), p, i);
    }
  }

  /** The live rung gives the packet no way out of its own: it is the own uplink, or its table
      has no route. */
  predicate NoExit(c: Config, l: Lad, n: Net, p: Packet)
    requires Fits(c, l)
  {
    OwnLive(c, l) || (l.st.active >= 0 && Best(OfTable(n, c.rungs[l.st.active].table), p.dst) == None)
  }

  /** So a source's packet that main would send by its default gets past the block to the
      host's own rules exactly when the live rung is the own uplink or its table has no route. */
  lemma OwnUplinkOnly(c: Config, l: Lad, k: Kernel, p: Packet, i: nat)
    requires Fits(c, l) && Agrees(c, l, k) && !MainDecides(k.net, p)
    requires FitsBelowMain(c.subject) && FromSource(c.subject, p, i) && Undecided(k.net, p, 0, c.subject.base)
    ensures Undecided(k.net, p, 0, c.subject.base + 2 * |c.subject.sources|) <==> NoExit(c, l, k.net, p)
  {
    var s := c.subject;
    if OwnLive(c, l) {
      assert forall q :: InBlock(s, |s.sources|, q) ==> q !in k.net.rules;
    } else if NoExit(c, l, k.net, p) {
      BlockSkipped(k.net, s, Lookup(c.rungs[l.st.active].table), p);
    } else {
      ReachesOwnRules(k.net, s, ActOf(c, l.st.active), p, i);
      assert RuleFate(k.net, k.net.rules[Pref(s, i, 1)], p).Some?;
    }
  }

  /** A pass, whatever it does and wherever it fails, changes nothing for packets from none
      of the subject's sources, provided its block held only its own rules, as it does after. */
  lemma PassSparesOthers(h: History, t: nat, p: Packet)
    requires IsHistory(h) && t < |h.beats| && Foreign(h.c.subject, p)
    requires OwnRulesOnly(h.c.subject, h.beats[t].before.net.rules)
    ensures PacketFate(h.outs[t].kernel.net, p) == PacketFate(h.beats[t].before.net, p)
    ensures OwnRulesOnly(h.c.subject, h.outs[t].kernel.net.rules)
  {
    assert Ticked(h, t);
    if Tries(h, t) {
      var k, l, s, broken := h.beats[t].before, h.outs[t].kernel, h.c.subject, h.beats[t].broken;
      var next := h.picks[t].next;
      var act := ActOf(h.c, next);
      TryIs(h, t);
      ClearEffect(k, s, |s.sources|, broken);
      InstallEffect(k, s, act, broken);
      KeepsOwn(k, s, act, broken);
      OthersUnaffected(k, l, s, p, 0);
    }
  }

  // ---- a rule change that failed halfway is not made good while the same rung answers ----

  const SOURCE := Prefix(0x0A00_0000, 8)

  /** One exit, given up on one failed probe. */
  const ONE_EXIT := Config(Subject([SOURCE], 1000), [Rung("exit", false, 100)], 1, 1)

  const SUPPRESS := PolicyRule(From(SOURCE), MainNoDefault)
  const BARE := Kernel(Net({}, map[], map[]), map[])
  const WHOLE := BARE.(net := BARE.net.(rules := map[1000 := SUPPRESS, 1001 := PolicyRule(From(SOURCE), Lookup(100))]))
  const HALF := BARE.(net := BARE.net.(rules := map[1000 := SUPPRESS]))
  const LOST: set<Cmd> := {RuleAdd(1001, PolicyRule(From(SOURCE), Blackhole))}

  const IN_USE := Report(0, "exit", false, [], 1)

  /** The exit answers; it fails, and the blackhole's second rule cannot be added; it answers
      again. Each pass finds what the one before left. */
  const MISHAP := History(
    ONE_EXIT,
    [Beat([None], 1, {}, BARE), Beat([Some("timeout")], 2, LOST, WHOLE), Beat([None], 3, {}, HALF)],
    [Start(ONE_EXIT), Lad(IN_USE, true, [1], [0], [""]), Lad(IN_USE, true, [0], [1], ["timeout"]),
     Lad(IN_USE, true, [1], [0], [""])],
    [Choice(0, 1), Choice(-1, 1), Choice(0, 1)],
    [PassResult(Lad(IN_USE, true, [1], [0], [""]), WHOLE, true),
     PassResult(Lad(IN_USE, true, [0], [1], ["timeout"]), HALF, false),
     PassResult(Lad(IN_USE, true, [1], [0], [""]), HALF, true)])

  /** An install for one source: two deletes that may miss, then two adds. */
  lemma InstallOne(k: Kernel, s: Subject, act: Action, broken: set<Cmd>)
    requires |s.sources| == 1
    ensures
      var p, range := s.base, s.sources[0];
      var mid := Apply(k, [Quiet(RuleDel(p)), Quiet(RuleDel(p + 1))], broken).kernel;
      && Apply(k, Install(s, act), broken)
           == Apply(mid, [Do(RuleAdd(p, PolicyRule(From(range), MainNoDefault))),
                          Do(RuleAdd(p + 1, PolicyRule(From(range), act)))], broken)
  {
    var p, range := s.base, s.sources[0];
    assert ClearSteps(s, 0) == [] && AddSteps(s, 0, act) == [];
    assert Clear(s) == [Quiet(RuleDel(p)), Quiet(RuleDel(p + 1))];
    assert AddSteps(s, 1, act) == [Do(RuleAdd(p, PolicyRule(From(range), MainNoDefault))),
      Do(RuleAdd(p + 1, PolicyRule(From(range), act)))];
    TwoDeletes(k, p, broken);
    ApplyConcat(k, Clear(s), AddSteps(s, 1, act), broken);
  }

  /** With no rules there, only the adds matter. */
  lemma InstallOnBare(s: Subject, act: Action, broken: set<Cmd>)
    requires s == Subject([SOURCE], 1000)
    ensures Apply(BARE, Install(s, act), broken)
      == Apply(BARE, [Do(RuleAdd(1000, SUPPRESS)), Do(RuleAdd(1001, PolicyRule(From(SOURCE), act)))], broken)
  {
    InstallOne(BARE, s, act, broken);
    ApplyTwo(BARE, Quiet(RuleDel(1000)), Quiet(RuleDel(1001)), broken);
  }

  lemma AddsOnBare(act: Action)
    ensures
      var r := PolicyRule(From(SOURCE), act);
      Apply(BARE, [Do(RuleAdd(1000, SUPPRESS)), Do(RuleAdd(1001, r))], {})
        == Applied(BARE.(net := BARE.net.(rules := map[1000 := SUPPRESS, 1001 := r])), true)
  {
    ApplyTwo(BARE, Do(RuleAdd(1000, SUPPRESS)), Do(RuleAdd(1001, PolicyRule(From(SOURCE), act))), {});
  }

  lemma FirstInstall()
    ensures Apply(BARE, Install(ONE_EXIT.subject, Lookup(100)), {}) == Applied(WHOLE, true)
  {
    InstallOnBare(ONE_EXIT.subject, Lookup(100), {});
    AddsOnBare(Lookup(100));
  }

  lemma HalfInstall()
    ensures Apply(WHOLE, Install(ONE_EXIT.subject, Blackhole), LOST) == Applied(HALF, false)
  {
    var k, s, m, broken := WHOLE, ONE_EXIT.subject, PolicyRule(From(SOURCE), MainNoDefault), LOST;
    InstallOne(k, s, Blackhole, broken);
    ApplyTwo(k, Quiet(RuleDel(1000)), Quiet(RuleDel(1001)), broken);
    var mid := k.(net := k.net.(rules := (k.net.rules - {1000}) - {1001}));
    assert mid == BARE;
    ApplyTwo(BARE, Do(RuleAdd(1000, m)), Do(RuleAdd(1001, PolicyRule(From(SOURCE), Blackhole))), broken);
  }

  lemma FirstTick()
    ensures Ticked(MISHAP, 0)
  {
    var l := MISHAP.lads[0];
    FirstInstall();
    assert Choose(ONE_EXIT, l, [None]) == Choice(0, 1);
    var p := Probed(l, 1, [None]);
    assert p.good == [1] && p.bad == [0] && p.errs == [""];
  }

  lemma SecondTick()
    ensures Ticked(MISHAP, 1)
  {
    var l := MISHAP.lads[1];
    HalfInstall();
    assert FirstAnswer([Some("timeout")], 1, 1) == 1;
    assert Choose(ONE_EXIT, l, [Some("timeout")]) == Choice(-1, 1);
    var p := Probed(l, 1, [Some("timeout")]);
    assert p.good == [0] && p.bad == [1] && p.errs == ["timeout"];
  }

  lemma ThirdTick()
    ensures Ticked(MISHAP, 2)
  {
    var l := MISHAP.lads[2];
    assert Choose(ONE_EXIT, l, [None]) == Choice(0, 1);
    var p := Probed(l, 1, [None]);
    assert p.good == [1] && p.bad == [0] && p.errs == [""];
  }

  lemma MishapIsHistory()
    ensures IsHistory(MISHAP)
  {
    FirstTick();
    SecondTick();
    ThirdTick();
  }

  /** The report says the exit is in use and the pass reports no error, yet the rule that
      would send traffic there is missing. */
  lemma StaleAfterFailure()
    ensures
      && IsHistory(MISHAP) && Steady(MISHAP) && MISHAP.outs[2].ok
      && MISHAP.lads[3].st.active == 0 && !MISHAP.lads[3].st.down
      && !Agrees(ONE_EXIT, MISHAP.lads[3], KernelAt(MISHAP, 3))
      && 1001 !in KernelAt(MISHAP, 3).net.rules
  {
    MishapIsHistory();
    assert InBlock(ONE_EXIT.subject, 1, 1001);
  }
}
