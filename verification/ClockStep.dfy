/** What a clock that steps back does to a mend: the rollover it records does not count as
    running, and the next start throws away the root workers still hold certs from. */
module ClockStep {
  import opened Outcomes
  import opened ClusterCA
  import opened Rollover
  import opened Cluster
  import opened Runs

  /** A start after the row was left behind the files, exactly: it is refused when the mend has
      made the rollover on disk count as running, and that takes a clock past the last finish.
      Otherwise it launches, and of the two roots that were on disk the previous one is gone. */
  lemma StartAfterMend(c: Ctl, now: int, next: Root)
    requires Rotated(c.disk) && c.ca == c.disk.cur && !RollingOver(c.row)
    ensures
      var m, r := Reconcile(c, now, NO_FAULTS).ctl, Start(c, now, next, NO_FAULTS, NO_FAULTS);
      && m.row.previousFP == Some(c.disk.prev.value.fp)
      && (RollingOver(m.row) <==> c.row.finishedAt == None || c.row.finishedAt.value < now)
      && (r.out == Refused <==> RollingOver(m.row))
      && (r.out == Refused ==> r.ctl == m && Roots(r.ctl) == TrustRoots(c.disk))
      && (r.out != Refused ==>
            r.out == Done && Roots(r.ctl) == [next, c.disk.cur] && r.ctl.disk.prev == Some(c.disk.cur)
            && r.ctl.nodes == c.nodes && r.ctl.certs == c.certs)
  {
  }

  /** So a cert from the previous root stays trusted through the start exactly when the clock
      has passed the last finish. */
  lemma OldCertsSurvive(c: Ctl, now: int, next: Root)
    requires Rotated(c.disk) && c.ca == c.disk.cur && !RollingOver(c.row) && next.fp != c.disk.prev.value.fp
    ensures
      var r := Start(c, now, next, NO_FAULTS, NO_FAULTS);
      Trusted(r.ctl, c.disk.prev.value.fp) <==> c.row.finishedAt == None || c.row.finishedAt.value < now
  {
    var r := Start(c, now, next, NO_FAULTS, NO_FAULTS);
    StartAfterMend(c, now, next);
    if r.out == Refused {
      assert Roots(r.ctl)[1] == c.disk.prev.value;
    }
  }

  // ---- an input ----

  const A: Root := Root(1, 0, 100_000 * HOUR)
  const B: Root := Root(2, 0, 100_000 * HOUR)
  const C: Root := Root(3, 0, 100_000 * HOUR)
  const W_NODE: Node := Node("w", WorkerRole, Joined, true)
  const OLD_CERT: CertRow := CertRow("w", 1, Some(1), 0, NODE_LIFETIME, false)

  /** A rollover to A ended at hour 10. Then one to B got as far as the key files. */
  const BEHIND: Ctl :=
    Ctl(Disk(B, Some(A), Some(Cross(1, 2))), Row(Some(1), None, Some(5 * HOUR), Some(10 * HOUR), None), B, [B, A],
        [W_NODE], [OLD_CERT])

  /** A state the invariant of all runs admits. At hour 9 by a clock set back, a start goes
      through, and the one confirmed worker's live cert is from a root nobody trusts. */
  lemma SetBackClockCutsOff()
    ensures CtlOk(BEHIND, true, 11 * HOUR)
    ensures
      var r := Start(BEHIND, 9 * HOUR, C, NO_FAULTS, NO_FAULTS);
      && r.out == Done && Roots(r.ctl) == [C, B]
      && Confirmed(r.ctl.nodes[0]) && Newest(r.ctl.certs, r.ctl.nodes[0].id) == Some(0)
      && !Expired(r.ctl.certs[0], 9 * HOUR) && !Trusted(r.ctl, r.ctl.certs[0].signer)
  {
    var r := Start(BEHIND, 9 * HOUR, C, NO_FAULTS, NO_FAULTS);
    StartAfterMend(BEHIND, 9 * HOUR, C);
    assert Newest([OLD_CERT], "w") == Some(0);
    assert Roots(r.ctl) == [C, B];
    assert r.ctl.certs[0] == OLD_CERT;
  }
}
