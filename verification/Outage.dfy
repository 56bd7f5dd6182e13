/** Why an ask must be answered to count: a worker that asks every hour is stranded when
    the controller is down for a settle window after the one answer that got lost. */
module Outage {
  import opened Outcomes
  import opened ClusterCA
  import opened Rollover
  import opened Cluster
  import opened Runs
  import opened Settle

  const A: Root := Root(1, 0, 100_000 * HOUR)
  const B: Root := Root(2, 0, 100_000 * HOUR)
  const W: Id := "w"
  const W_NODE: Node := Node(W, WorkerRole, Joined, true)
  const OLD_CERT: CertRow := CertRow(W, 1, Some(1), 0, NODE_LIFETIME, false)
  const NEW_CERT: CertRow := CertRow(W, 2, Some(2), 2 * HOUR, 2 * HOUR + NODE_LIFETIME, false)
  const NO_ROW: Row := Row(None, None, None, None, None)
  const ROLLING: Row := Row(Some(2), Some(1), Some(HOUR), None, None)

  const BEFORE: Ctl := Ctl(Disk(A, None, None), NO_ROW, A, [A], [W_NODE], [OLD_CERT])
  const BOTH: Disk := Disk(B, Some(A), Some(Cross(1, 2)))
  const STARTED: Ctl := Ctl(BOTH, ROLLING, B, [B, A], [W_NODE], [OLD_CERT])
  const ANSWERED: Ctl := STARTED.(certs := [OLD_CERT, NEW_CERT])
  const FINISHED: Ctl :=
    ANSWERED.(disk := Disk(B, None, None), row := ROLLING.(previousFP := None, finishedAt := Some(10 * HOUR)), trust := [B])

  const HOLDS: map<Id, nat> := map[W := 0]

  const ROTATE: Event := Rotate(B, NO_FAULTS, NO_FAULTS)
  const ASK: Event := Asking(W, true)
  const TICK: Event := Ticking(Root(3, 0, 1), NO_FAULTS, NO_FAULTS, NO_FAULTS)

  /** Start, an answer lost, a crash, six hourly asks in vain, a boot and the daily check. */
  function OutageRun(): Run {
    Run([Sys(BEFORE, true, HOLDS, map[], 0),
         Sys(STARTED, true, HOLDS, map[], HOUR),
         Sys(ANSWERED, true, HOLDS, map[W := 1], 2 * HOUR),
         Sys(ANSWERED, true, HOLDS, map[], 2 * HOUR + 1),
         Sys(ANSWERED, false, HOLDS, map[], 2 * HOUR + 2),
         Sys(ANSWERED, false, HOLDS, map[], 3 * HOUR),
         Sys(ANSWERED, false, HOLDS, map[], 4 * HOUR),
         Sys(ANSWERED, false, HOLDS, map[], 5 * HOUR),
         Sys(ANSWERED, false, HOLDS, map[], 6 * HOUR),
         Sys(ANSWERED, false, HOLDS, map[], 7 * HOUR),
         Sys(ANSWERED, false, HOLDS, map[], 9 * HOUR),
         Sys(ANSWERED, true, HOLDS, map[], 9 * HOUR + 1),
         Sys(FINISHED, true, HOLDS, map[], 10 * HOUR)],
        [ROTATE, ASK, Losing(W), Dying, ASK, ASK, ASK, ASK, ASK, ASK, Booting, TICK],
        [HOUR, 2 * HOUR, 2 * HOUR + 1, 2 * HOUR + 2, 3 * HOUR, 4 * HOUR, 5 * HOUR, 6 * HOUR,
         7 * HOUR, 9 * HOUR, 9 * HOUR + 1, 10 * HOUR])
  }

  lemma StartStep()
    ensures StepAt(OutageRun(), 0)
  {
    assert FindNode([W_NODE], W) == Some(W_NODE);
  }

  lemma AskStep()
    ensures StepAt(OutageRun(), 1)
  {
    assert Roots(STARTED)[1] == A;
    assert Vouched(Roots(STARTED), 1, 2 * HOUR);
    assert FindNode([W_NODE], W) == Some(W_NODE);
  }

  lemma FinishStep()
    ensures StepAt(OutageRun(), 11)
  {
    assert [OLD_CERT, NEW_CERT][1] == NEW_CERT;
    assert Newest([OLD_CERT, NEW_CERT], W) == Some(1);
    assert [W_NODE][..0] == [];
    assert Stragglers([W_NODE], [OLD_CERT, NEW_CERT], Some(2), SETTLE, 10 * HOUR) == [];
  }

  lemma QuietSteps()
    ensures StepAt(OutageRun(), 2) && StepAt(OutageRun(), 3) && StepAt(OutageRun(), 10)
  {
    assert map[W := 1] - {W} == map[];
  }

  lemma VainSteps(i: nat)
    requires 4 <= i <= 9
    ensures StepAt(OutageRun(), i)
  {
  }

  lemma StepsMakeRun(r: Run)
    requires |r.states| == 13 && |r.events| == 12 && |r.times| == 12 && Init(r.states[0])
    requires forall i :: 0 <= i < 12 ==> StepAt(r, i)
    ensures IsRun(r)
  {
  }

  lemma EveryStep(i: nat)
    requires i < 12
    ensures StepAt(OutageRun(), i)
  {
    if i == 0 {
      StartStep();
    } else if i == 1 {
      AskStep();
    } else if 4 <= i <= 9 {
      VainSteps(i);
    } else if i == 11 {
      FinishStep();
    } else {
      QuietSteps();
    }
  }

  lemma OutageIsRun()
    ensures IsRun(OutageRun())
  {
    forall i | 0 <= i < 12 ensures StepAt(OutageRun(), i) {
      EveryStep(i);
    }
    StepsMakeRun(OutageRun());
  }

  /** The counterexample: asking within every settle window is not enough, the asks must be answered. */
  lemma AskingIsNotEnough(i: nat)
    ensures var r := OutageRun();
      && IsRun(r) && DropsOldRoot(r, 11) && OffRoot(r.states[12], W, r.times[11])
      && (1 < i <= 11 ==> exists k :: 0 < k < i && r.events[k] == ASK && r.times[i] - r.times[k] < SETTLE)
  {
    OutageIsRun();
    var r := OutageRun();
    assert r.states[12].ctl.nodes[0] == W_NODE;
    if 1 < i <= 11 {
      var k := if i < 5 then 1 else if i < 10 then i - 1 else 9;
      assert r.events[k] == ASK;
    }
  }
}
