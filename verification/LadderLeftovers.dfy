/** Rule changes that lose a delete: one that fails and leaves report and rules in agreement, and
    one that goes through and does not. */
module LadderLeftovers {
  import opened Outcomes
  import opened Kernel
  import opened Subjects
  import opened Ladder
  import opened LadderRuns
  import opened LadderRules

  const ON_A := Report(0, "a", false, [], 1)
  const FIRST_LAD := Lad(ON_A, true, [1, 0], [0, 0], ["", ""])

  // ---- failed, and in agreement ----

  const TWO := Config(Subject([SOURCE], 1000), [Rung("a", false, 100), Rung("b", false, 101)], 1, 1)
  const NO_DELETE: set<Cmd> := {RuleDel(1000), RuleDel(1001)}

  /** a answers; a fails and b answers, but no rule can be deleted. */
  const KEPT := History(
    TWO,
    [Beat([None, None], 1, {}, BARE), Beat([Some("timeout"), None], 2, NO_DELETE, WHOLE)],
    [Start(TWO), FIRST_LAD, Lad(ON_A, true, [0, 1], [1, 0], ["timeout", ""])],
    [Choice(0, 1), Choice(1, 2)],
    [PassResult(FIRST_LAD, WHOLE, true), PassResult(Lad(ON_A, true, [0, 1], [1, 0], ["timeout", ""]), WHOLE, false)])

  lemma InstallRefused()
    ensures Apply(WHOLE, Install(TWO.subject, Lookup(101)), NO_DELETE) == Applied(WHOLE, false)
  {
    InstallOne(WHOLE, TWO.subject, Lookup(101), NO_DELETE);
    ApplyTwo(WHOLE, Quiet(RuleDel(1000)), Quiet(RuleDel(1001)), NO_DELETE);
    ApplyTwo(WHOLE, Do(RuleAdd(1000, SUPPRESS)), Do(RuleAdd(1001, PolicyRule(From(SOURCE), Lookup(101)))), NO_DELETE);
  }

  /** The first pass of either history. */
  lemma AIsTaken(c: Config)
    requires c == TWO || c == WITH_OWN
    ensures Pass(c, Start(c), BARE, [None, None], 1, {}) == PassResult(FIRST_LAD, WHOLE, true)
    ensures Choose(c, Start(c), [None, None]) == Choice(0, 1)
  {
    AAnswers(c);
    InstallOnBare(c.subject, Lookup(100), {});
    AddsOnBare(Lookup(100));
  }

  lemma AAnswers(c: Config)
    requires c == TWO || c == WITH_OWN
    ensures Choose(c, Start(c), [None, None]) == Choice(0, 1)
    ensures Probed(Start(c), 1, [None, None]) == FIRST_LAD.(st := FRESH, init := false)
  {
    var p := Probed(Start(c), 1, [None, None]);
    assert p.good == [1, 0] && p.bad == [0, 0] && p.errs == ["", ""];
  }

  /** a has failed once, which is enough, and the next rung answers. */
  lemma AIsGivenUp(c: Config)
    requires c == TWO || c == WITH_OWN
    ensures Choose(c, FIRST_LAD, [Some("timeout"), None]) == Choice(1, 2)
    ensures Probed(FIRST_LAD, 2, [Some("timeout"), None]) == Lad(ON_A, true, [0, 1], [1, 0], ["timeout", ""])
  {
    assert FirstAnswer([Some("timeout"), None], 1, 2) == 1;
    var p := Probed(FIRST_LAD, 2, [Some("timeout"), None]);
    assert p.good == [0, 1] && p.bad == [1, 0] && p.errs == ["timeout", ""];
  }

  lemma BIsRefused()
    ensures Ticked(KEPT, 0) && Ticked(KEPT, 1)
  {
    AIsTaken(TWO);
    AIsGivenUp(TWO);
    InstallRefused();
  }

  lemma KeptIsHistory()
    ensures IsHistory(KEPT)
  {
    BIsRefused();
  }

  /** The change fails with an exit live, and the block is still that exit's, whole. */
  lemma FailedYetAgrees()
    ensures IsHistory(KEPT) && Steady(KEPT) && Tries(KEPT, 1) && !KEPT.outs[1].ok
    ensures KEPT.lads[2].st.active == 0 && !OwnLive(TWO, KEPT.lads[2])
    ensures Agrees(TWO, KEPT.lads[2], KernelAt(KEPT, 2))
  {
    KeptIsHistory();
    forall p | InBlock(TWO.subject, 1, p)
      ensures p in WHOLE.net.rules && WHOLE.net.rules[p] == RuleOf(TWO.subject, Lookup(100), p)
    {
      assert p == 1000 || p == 1001;
    }
  }

  // ---- gone through, and not in agreement ----

  const WITH_OWN := Config(Subject([SOURCE], 1000), [Rung("a", false, 100), Rung("own", true, 0)], 1, 1)
  const ON_UPLINK := Report(1, "own", false, [], 2)
  const BY_A := PolicyRule(From(SOURCE), Lookup(100))
  const LEFT := BARE.(net := BARE.net.(rules := map[1001 := BY_A]))

  /** a answers; a fails and the own uplink is taken, with one delete lost; it stays taken. */
  const STRAY := History(
    WITH_OWN,
    [Beat([None, None], 1, {}, BARE), Beat([Some("timeout"), None], 2, {RuleDel(1001)}, WHOLE),
     Beat([Some("timeout"), None], 3, {}, LEFT)],
    [Start(WITH_OWN), FIRST_LAD, Lad(ON_UPLINK, true, [0, 1], [1, 0], ["timeout", ""]),
     Lad(ON_UPLINK, true, [0, 2], [2, 0], ["timeout", ""])],
    [Choice(0, 1), Choice(1, 2), Choice(1, 2)],
    [PassResult(FIRST_LAD, WHOLE, true), PassResult(Lad(ON_UPLINK, true, [0, 1], [1, 0], ["timeout", ""]), LEFT, true),
     PassResult(Lad(ON_UPLINK, true, [0, 2], [2, 0], ["timeout", ""]), LEFT, true)])

  lemma ClearLeavesOne()
    ensures Apply(WHOLE, Clear(WITH_OWN.subject), {RuleDel(1001)}) == Applied(LEFT, true)
  {
    assert ClearSteps(WITH_OWN.subject, 0) == [];
    assert Clear(WITH_OWN.subject) == [Quiet(RuleDel(1000)), Quiet(RuleDel(1001))];
    ApplyTwo(WHOLE, Quiet(RuleDel(1000)), Quiet(RuleDel(1001)), {RuleDel(1001)});
    assert WHOLE.net.rules - {1000} == LEFT.net.rules;
  }

  lemma OwnStays()
    ensures Ticked(STRAY, 2)
  {
    var l, ans := STRAY.lads[2], STRAY.beats[2].ans;
    assert FirstRecovered(l.good, ans, 1, 0, 1) == 1;
    assert Choose(WITH_OWN, l, ans) == Choice(1, 2);
    var p := Probed(l, 2, ans);
    assert p.good == [0, 2] && p.bad == [2, 0] && p.errs == ["timeout", ""];
  }

  lemma OwnIsTaken()
    ensures Ticked(STRAY, 0) && Ticked(STRAY, 1)
  {
    AIsTaken(WITH_OWN);
    AIsGivenUp(WITH_OWN);
    ClearLeavesOne();
  }

  lemma StrayIsHistory()
    ensures IsHistory(STRAY)
  {
    OwnIsTaken();
    OwnStays();
  }

  /** The own uplink is reported without an error, then and in the next pass, and the rule that
      sends the source to the exit given up is still there. */
  lemma LeftoverOnOwnUplink()
    ensures IsHistory(STRAY) && Steady(STRAY) && STRAY.outs[1].ok && STRAY.outs[2].ok
    ensures OwnLive(WITH_OWN, STRAY.lads[3]) && !Agrees(WITH_OWN, STRAY.lads[3], KernelAt(STRAY, 3))
    ensures KernelAt(STRAY, 3).net.rules == map[1001 := BY_A]
  {
    StrayIsHistory();
    assert InBlock(WITH_OWN.subject, 1, 1001);
  }
}
