/** Whole runs of the cluster: what no crash, lost answer or forced step can break. */
module Runs {
  import opened Outcomes
  import opened ClusterCA
  import opened Rollover
  import opened Cluster

  datatype Run = Run(states: seq<Sys>, events: seq<Event>, times: seq<int>)

  /** Of one worker's certs a revoked one has no older live one. */
  predicate RevokedFirst(certs: seq<CertRow>) {
    forall a, b ::
      (0 <= a < b < |certs| && certs[b].node != "" && certs[a].node == certs[b].node && certs[b].revoked) ==> certs[a].revoked
  }

  /** A controller that never rolled over: one root, which signed every cert there is. */
  predicate Init(s: Sys) {
    && s.up
    && s.ctl.disk == Disk(s.ctl.ca, None, None)
    && s.ctl.trust == [s.ctl.ca]
    && s.ctl.row == Row(None, None, None, None, None)
    && CertsOk(s.ctl.certs, s.clock) && RevokedFirst(s.ctl.certs) && Distinct(s.ctl.nodes) && HoldingsOk(s)
    && forall i :: 0 <= i < |s.ctl.certs| ==> s.ctl.certs[i].signer == s.ctl.ca.fp
  }

  predicate StepAt(r: Run, i: nat)
    requires |r.states| == |r.events| + 1 == |r.times| + 1 && i < |r.events|
  {
    Enabled(r.states[i], r.events[i], r.times[i]) && r.states[i + 1] == Next(r.states[i], r.events[i], r.times[i])
  }

  predicate IsRun(r: Run) {
    && |r.states| == |r.events| + 1 == |r.times| + 1
    && Init(r.states[0])
    && forall i :: 0 <= i < |r.events| ==> StepAt(r, i)
  }

  lemma InitInv(s: Sys)
    requires Init(s)
    ensures Inv(s)
  {
  }

  // ---- cert rows ----

  lemma {:induction false} CutOffGrows(c: Ctl, ids: seq<Id>, f: Faults)
    ensures SameRows(c.certs, CutOff(c, ids, f).ctl.certs)
  {
    if ids != [] {
      CutOffGrows(c, ids[..|ids| - 1], f);
    }
  }

  lemma RollingLeavesCerts(c: Ctl, now: int, next: Root, mend: Faults, again: Faults, f: Faults, first: bool)
    ensures Reconcile(c, now, mend).ctl.certs == c.certs
    ensures Start(c, now, next, mend, f).ctl.certs == c.certs
    ensures Advance(c, now, first, f).ctl.certs == c.certs
  {
  }

  lemma TickLeavesCerts(c: Ctl, now: int, next: Root, mend: Faults, again: Faults, f: Faults)
    ensures Tick(c, now, next, mend, again, f).ctl.certs == c.certs
  {
    var m := Reconcile(c, now, mend).ctl;
    RollingLeavesCerts(c, now, next, mend, again, f, false);
    RollingLeavesCerts(m, now, next, again, again, f, false);
    RollingLeavesCerts(Start(m, now, next, again, f).ctl, now, next, again, again, f, true);
  }

  lemma ForceGrows(c: Ctl, now: int, mend: Faults, f: Faults)
    ensures SameRows(c.certs, Force(c, now, mend, f).ctl.certs)
  {
    RollingLeavesCerts(c, now, c.ca, mend, mend, f, false);
    var m := Reconcile(c, now, mend).ctl;
    CutOffGrows(m, Stragglers(m.nodes, m.certs, m.row.currentFP, 0, now), f);
  }

  lemma SameRowsGrown(a: seq<CertRow>, b: seq<CertRow>, more: seq<CertRow>)
    requires SameRows(a, b)
    ensures Grown(a, b + more)
  {
    assert (b + more)[..|a|] == b;
  }

  /** No event rewrites a cert row: rows are revoked for good, and one row is appended
      exactly when a renewal is answered or a join confirmed. */
  lemma StepGrows(s: Sys, e: Event, now: int)
    requires Enabled(s, e, now)
    ensures var t := Next(s, e, now).ctl.certs;
      && Grown(s.ctl.certs, t)
      && |t| == |s.ctl.certs| + if e.Confirming? || (e.Asking? && Answered(s, e.id, e.saved, now)) then 1 else 0
  {
    var c := s.ctl;
    var t := Next(s, e, now).ctl.certs;
    assert SameRows(c.certs, c.certs);
    SameRowsGrown(c.certs, c.certs, []);
    assert c.certs + [] == c.certs;
    match e
    case Rotate(next, mend, f) => RollingLeavesCerts(c, now, next, mend, mend, f, false);
    case Advancing(first, f) => RollingLeavesCerts(c, now, c.ca, f, f, f, first);
    case Ticking(next, mend, again, f) => TickLeavesCerts(c, now, next, mend, again, f);
    case Forcing(mend, f) =>
      ForceGrows(c, now, mend, f);
      SameRowsGrown(c.certs, t, []);
      assert t + [] == t;
    case BreakingGlass(next) =>
      assert SameRows(c.certs, t);
      SameRowsGrown(c.certs, t, []);
      assert t + [] == t;
    case Mending(mend) => RollingLeavesCerts(c, now, c.ca, mend, mend, mend, false);
    case Asking(id, saved) => SameRowsGrown(c.certs, c.certs, [Issue(id, c.ca, now)]);
    case Confirming(id) =>
      assert SameRows(c.certs, RevokeNode(c.certs, id));
      SameRowsGrown(c.certs, RevokeNode(c.certs, id), [Issue(id, c.disk.cur, now)]);
    case Forgetting(id) =>
      assert SameRows(c.certs, t);
      SameRowsGrown(c.certs, t, []);
      assert t + [] == t;
    case _ =>
  }

  /** A serial names the same node's cert from then on. */
  lemma SerialsLast(a: seq<CertRow>, b: seq<CertRow>, k: nat)
    requires Grown(a, b) && k < |a|
    ensures b[k] == a[k].(revoked := b[k].revoked) && (a[k].revoked ==> b[k].revoked)
  {
    assert b[..|a|][k] == b[k];
  }

  lemma InvKeeps(s: Sys, e: Event, now: int)
    requires Inv(s) && Enabled(s, e, now)
    ensures Inv(Next(s, e, now))
  {
    CtlKeeps(s, e, now);
    StepGrows(s, e, now);
    var t := Next(s, e, now);
    forall k | 0 <= k < |s.ctl.certs| ensures t.ctl.certs[k].node == s.ctl.certs[k].node {
      SerialsLast(s.ctl.certs, t.ctl.certs, k);
    }
    forall id
      ensures id in t.held ==> t.held[id] < |t.ctl.certs| && t.ctl.certs[t.held[id]].node == id
      ensures id in t.answer ==> t.answer[id] < |t.ctl.certs| && t.ctl.certs[t.answer[id]].node == id
    {
      HoldingsStep(s, e, now, id);
    }
  }

  /** What a worker holds it held before or was just handed; what is on its way to it
      was on its way before or was just issued to it. */
  lemma HoldingsStep(s: Sys, e: Event, now: int, id: Id)
    requires Enabled(s, e, now)
    ensures var t := Next(s, e, now);
      && (id in t.held ==> (id in s.held && t.held[id] == s.held[id]) || (id in s.answer && t.held[id] == s.answer[id]))
      && (id in t.answer ==>
            (id in s.answer && t.answer[id] == s.answer[id])
            || (t.answer[id] == |s.ctl.certs| < |t.ctl.certs| && t.ctl.certs[|s.ctl.certs|].node == id))
  {
    match e
    case Asking(_, _) =>
    case Confirming(_) =>
    case _ =>
  }

  lemma {:induction false} RunInv(r: Run, i: nat)
    requires IsRun(r) && i < |r.states|
    ensures Inv(r.states[i])
  {
    if i == 0 {
      InitInv(r.states[0]);
    } else {
      RunInv(r, i - 1);
      assert StepAt(r, i - 1);
      InvKeeps(r.states[i - 1], r.events[i - 1], r.times[i - 1]);
    }
  }

  // ---- trust safety ----

  predicate Trusted(c: Ctl, signer: Fp) {
    exists k :: 0 <= k < |Roots(c)| && Roots(c)[k].fp == signer
  }

  /** At every moment of every run the newest live cert of every confirmed worker is from
      a root the controller trusts, unless it has run out; at most two roots are trusted. */
  lemma TrustSafety(r: Run, i: nat, n: nat, now: int)
    requires IsRun(r) && i < |r.states| && r.states[i].up && r.states[i].clock <= now
    requires n < |r.states[i].ctl.nodes|
    ensures
      var c := r.states[i].ctl;
      && |Roots(c)| <= 2
      && Roots(c)[0] == c.ca
      && (Confirmed(c.nodes[n]) && Newest(c.certs, c.nodes[n].id).Some? ==>
            var cert := c.certs[Newest(c.certs, c.nodes[n].id).value];
            Expired(cert, now) || Trusted(c, cert.signer))
  {
    RunInv(r, i);
    var c := r.states[i].ctl;
    assert Served(c.nodes[n], c.certs, c.disk, r.states[i].clock);
    if Confirmed(c.nodes[n]) && Newest(c.certs, c.nodes[n].id).Some? {
      var cert := c.certs[Newest(c.certs, c.nodes[n].id).value];
      if !Expired(cert, now) {
        assert OnDisk(c.disk, cert.signer);
        if cert.signer == c.disk.cur.fp {
          assert Roots(c)[0].fp == cert.signer;
        } else {
          assert Roots(c)[1].fp == cert.signer;
        }
      }
    }
  }

  // ---- crash recovery ----

  const NO_FAULTS: Faults := map[]

  /** Whatever died or failed before: after a restart and one undisturbed mend a rollover
      is recorded exactly when another previous root is on disk, the recorded fingerprints
      are those of the files, memory trusts exactly the roots on disk, and no root a worker
      may depend on was lost. The mend alone, without the restart, does the same. */
  lemma CrashRecovery(r: Run, i: nat, now: int, restart: bool)
    requires IsRun(r) && i < |r.states| && r.states[i].clock < now && (restart || r.states[i].up)
    ensures
      var c := r.states[i].ctl;
      var m := Reconcile(if restart then Boot(c) else c, now, NO_FAULTS);
      && m.out == Done
      && (RollingOver(m.ctl.row) <==> Rotated(c.disk))
      && (RollingOver(m.ctl.row) ==>
            m.ctl.row.currentFP == Some(c.disk.cur.fp) && m.ctl.row.previousFP == Some(c.disk.prev.value.fp) &&
              m.ctl.disk == c.disk)
      && (!RollingOver(m.ctl.row) ==>
            m.ctl.row.previousFP == None && m.ctl.disk.prev == None && m.ctl.disk.cur == c.disk.cur)
      && m.ctl.trust == TrustRoots(m.ctl.disk)
      && m.ctl.ca == c.disk.cur
      && m.ctl.nodes == c.nodes && m.ctl.certs == c.certs
  {
    RunInv(r, i);
    var c := if restart then Boot(r.states[i].ctl) else r.states[i].ctl;
    ReconcilePaper(c, r.states[i].clock, now, NO_FAULTS);
  }

  /** No run records a rollover from a root to itself, and while two different roots are
      on disk the cross cert that links exactly them is there too. */
  lemma NeverToItself(r: Run, i: nat)
    requires IsRun(r) && i < |r.states|
    ensures
      var c := r.states[i].ctl;
      && (RollingOver(c.row) <==> c.row.previousFP.Some?)
      && (RollingOver(c.row) ==> c.row.currentFP.Some? && c.row.currentFP != c.row.previousFP)
      && (Rotated(c.disk) ==> c.disk.cross == Some(Cross(c.disk.prev.value.fp, c.disk.cur.fp)))
  {
    RunInv(r, i);
  }
}
