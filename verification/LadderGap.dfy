/** A rung that recovers on answers of passes that were not consecutive. */
module LadderGap {
  import opened Outcomes
  import opened Kernel
  import opened Subjects
  import opened Ladder
  import opened LadderRuns
  import opened LadderRules

  const THREE := Config(Subject([SOURCE], 1000), [Rung("a", false, 100), Rung("b", false, 101), Rung("own", true, 0)], 3, 2)

  const NO_ADD: set<Cmd> := {RuleAdd(1000, SUPPRESS)}
  const BY_B := BARE.(net := BARE.net.(rules := map[1000 := SUPPRESS, 1001 := PolicyRule(From(SOURCE), Lookup(101))]))
  const ON_OWN := Report(2, "own", false, [], 1)

  const LADS: seq<Lad> :=
    [Start(THREE),
     Lad(ON_OWN, true, [0, 0, 1], [1, 1, 0], ["timeout", "timeout", ""]),
     Lad(ON_OWN, true, [1, 1, 2], [0, 0, 0], ["", "", ""]),
     Lad(ON_OWN, true, [2, 1, 2], [0, 0, 0], ["", "", ""]),
     Lad(Report(1, "b", false, [], 4), true, [0, 2, 2], [1, 0, 0], ["timeout", "", ""])]

  /** Both exits fail and the own uplink is taken; all answer; a has recovered, but its first
      rule cannot be added and b goes unasked; a fails again and b answers. */
  const GAP := History(
    THREE,
    [Beat([Some("timeout"), Some("timeout"), None], 1, {}, BARE), Beat([None, None, None], 2, {}, BARE),
     Beat([None, None, None], 3, NO_ADD, BARE), Beat([Some("timeout"), None, None], 4, {}, BARE)],
    LADS,
    [Choice(2, 3), Choice(2, 3), Choice(0, 1), Choice(1, 2)],
    [PassResult(LADS[1], BARE, true), PassResult(LADS[2], BARE, true),
     PassResult(LADS[3], BARE, false), PassResult(LADS[4], BY_B, true)])

  lemma ClearBare()
    ensures Apply(BARE, Clear(THREE.subject), {}) == Applied(BARE, true)
  {
    assert ClearSteps(THREE.subject, 0) == [];
    assert Clear(THREE.subject) == [Quiet(RuleDel(1000)), Quiet(RuleDel(1001))];
    ApplyTwo(BARE, Quiet(RuleDel(1000)), Quiet(RuleDel(1001)), {});
  }

  lemma InstallFails()
    ensures Apply(BARE, Install(THREE.subject, Lookup(100)), NO_ADD) == Applied(BARE, false)
  {
    InstallOnBare(THREE.subject, Lookup(100), NO_ADD);
    ApplyTwo(BARE, Do(RuleAdd(1000, SUPPRESS)), Do(RuleAdd(1001, PolicyRule(From(SOURCE), Lookup(100)))), NO_ADD);
  }

  lemma InstallWorks()
    ensures Apply(BARE, Install(THREE.subject, Lookup(101)), {}) == Applied(BY_B, true)
  {
    InstallOnBare(THREE.subject, Lookup(101), {});
    AddsOnBare(Lookup(101));
  }

  lemma OwnIsTaken()
    ensures Ticked(GAP, 0)
  {
    var l, ans := LADS[0], GAP.beats[0].ans;
    ClearBare();
    assert FirstAnswer(ans, 2, 3) == 2;
    assert Choose(THREE, l, ans) == Choice(2, 3);
    var p := Probed(l, 3, ans);
    assert p.good == [0, 0, 1] && p.bad == [1, 1, 0] && p.errs == ["timeout", "timeout", ""];
  }

  lemma AllAnswer()
    ensures Ticked(GAP, 1)
  {
    var l, ans := LADS[1], GAP.beats[1].ans;
    assert FirstRecovered(l.good, ans, 2, 0, 2) == 2;
    assert Choose(THREE, l, ans) == Choice(2, 3);
    var p := Probed(l, 3, ans);
    assert p.good == [1, 1, 2] && p.bad == [0, 0, 0] && p.errs == ["", "", ""];
  }

  lemma FirstCannotBeAdded()
    ensures Ticked(GAP, 2)
  {
    var l, ans := LADS[2], GAP.beats[2].ans;
    InstallFails();
    assert FirstRecovered(l.good, ans, 2, 0, 2) == 0;
    assert Choose(THREE, l, ans) == Choice(0, 1);
    var p := Probed(l, 1, ans);
    assert p.good == [2, 1, 2] && p.bad == [0, 0, 0] && p.errs == ["", "", ""];
  }

  lemma SecondIsTaken()
    ensures Ticked(GAP, 3)
  {
    var l, ans := LADS[3], GAP.beats[3].ans;
    InstallWorks();
    assert FirstRecovered(l.good, ans, 2, 0, 2) == 1;
    assert Choose(THREE, l, ans) == Choice(1, 2);
    var p := Probed(l, 2, ans);
    assert p.good == [0, 2, 2] && p.bad == [1, 0, 0] && p.errs == ["timeout", "", ""];
  }

  lemma GapIsShapely()
    ensures Shapely(GAP)
  {
    assert forall i :: 0 <= i < |LADS| ==> Fits(THREE, LADS[i]);
  }

  lemma GapIsHistory()
    ensures IsHistory(GAP)
  {
    GapIsShapely();
    OwnIsTaken();
    AllAnswer();
    FirstCannotBeAdded();
    SecondIsTaken();
  }

  /** Rung b is taken back on its answers of passes 1 and 3, with pass 2 not asking it. */
  lemma RecoversAcrossGap()
    ensures IsHistory(GAP) && LiveAt(GAP, 3) == 2 && LiveAt(GAP, 4) == 1
    ensures Recovered(GAP, 3, 1) && Heard(GAP, 1, 1, true) && Skipped(GAP, 2, 1) && Heard(GAP, 3, 1, true)
  {
    GapIsHistory();
    RecoveredByCount(GAP, 3, 1);
  }
}
