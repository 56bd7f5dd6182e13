/** The settle window: whom a rollover that finishes by itself can leave behind. */
module Settle {
  import opened Outcomes
  import opened ClusterCA
  import opened Rollover
  import opened Cluster
  import opened Runs

  // ---- history of a cert row ----

  /** Event k is an ask of this worker that a running controller answered. */
  predicate AnsweredAt(r: Run, k: nat, id: Id)
    requires |r.states| == |r.events| + 1 == |r.times| + 1
  {
    k < |r.events| && r.events[k].Asking? && r.events[k].id == id
    && Answered(r.states[k], id, r.events[k].saved, r.times[k])
  }

  lemma {:induction false} TimesRise(r: Run, j: nat, i: nat)
    requires IsRun(r) && j < i < |r.states|
    ensures r.times[j] <= r.states[i].clock
    ensures i < |r.events| ==> r.times[j] < r.times[i]
  {
    StepTime(r, i - 1);
    if i < |r.events| { StepTime(r, i); }
    if j < i - 1 { TimesRise(r, j, i - 1); }
  }

  lemma StepTime(r: Run, i: nat)
    requires IsRun(r) && i < |r.events|
    ensures r.states[i].clock < r.times[i] == r.states[i + 1].clock
  {
    assert StepAt(r, i);
  }

  lemma {:induction false} RunGrows(r: Run, j: nat, i: nat)
    requires IsRun(r) && j <= i < |r.states|
    ensures Grown(r.states[j].ctl.certs, r.states[i].ctl.certs)
  {
    if j == i {
      assert r.states[i].ctl.certs[..|r.states[i].ctl.certs|] == r.states[i].ctl.certs;
    } else {
      RunGrows(r, j, i - 1);
      assert StepAt(r, i - 1);
      StepGrows(r.states[i - 1], r.events[i - 1], r.times[i - 1]);
      var a, b, c := r.states[j].ctl.certs, r.states[i - 1].ctl.certs, r.states[i].ctl.certs;
      forall k | 0 <= k < |a| ensures c[..|a|][k] == a[k].(revoked := c[..|a|][k].revoked) {
        assert b[..|a|][k] == b[k] && c[..|b|][k] == c[k] && c[..|a|][k] == c[k];
      }
    }
  }

  lemma {:induction false} CutOffRevokesFirst(c: Ctl, ids: seq<Id>, f: Faults)
    requires RevokedFirst(c.certs)
    ensures RevokedFirst(CutOff(c, ids, f).ctl.certs)
  {
    if ids != [] {
      CutOffRevokesFirst(c, ids[..|ids| - 1], f);
    }
  }

  /** A node's certs are only ever revoked all at once, so a revoked one has no older live one. */
  lemma StepRevokesFirst(s: Sys, e: Event, now: int)
    requires Enabled(s, e, now) && RevokedFirst(s.ctl.certs)
    ensures RevokedFirst(Next(s, e, now).ctl.certs)
  {
    match e
    case Rotate(next, mend, f) => RollingLeavesCerts(s.ctl, now, next, mend, mend, f, false);
    case Advancing(first, f) => RollingLeavesCerts(s.ctl, now, s.ctl.ca, f, f, f, first);
    case Ticking(next, mend, again, f) => TickLeavesCerts(s.ctl, now, next, mend, again, f);
    case Mending(mend) => RollingLeavesCerts(s.ctl, now, s.ctl.ca, mend, mend, mend, false);
    case Forcing(mend, f) =>
      RollingLeavesCerts(s.ctl, now, s.ctl.ca, mend, mend, f, false);
      var m := Reconcile(s.ctl, now, mend).ctl;
      CutOffRevokesFirst(m, Stragglers(m.nodes, m.certs, m.row.currentFP, 0, now), f);
    case _ => PlainRevokesFirst(s, e, now);
  }

  lemma PlainRevokesFirst(s: Sys, e: Event, now: int)
    requires Enabled(s, e, now) && RevokedFirst(s.ctl.certs)
    requires !(e.Rotate? || e.Advancing? || e.Ticking? || e.Mending? || e.Forcing?)
    ensures RevokedFirst(Next(s, e, now).ctl.certs)
  {
  }

  lemma {:induction false} RunRevokesFirst(r: Run, i: nat)
    requires IsRun(r) && i < |r.states|
    ensures RevokedFirst(r.states[i].ctl.certs)
  {
    if i > 0 {
      RunRevokesFirst(r, i - 1);
      assert StepAt(r, i - 1);
      StepRevokesFirst(r.states[i - 1], r.events[i - 1], r.times[i - 1]);
    }
  }

  /** Where a cert row comes from: the start of the run, an answered ask or a confirmed join. */
  lemma {:induction false} RowOrigin(r: Run, i: nat, k: nat) returns (j: nat)
    requires IsRun(r) && i < |r.states| && |r.states[0].ctl.certs| <= k < |r.states[i].ctl.certs|
    ensures j < i && |r.states[j].ctl.certs| == k && |r.states[j + 1].ctl.certs| == k + 1
    ensures r.events[j].Confirming? || (r.events[j].Asking? && AnsweredAt(r, j, r.events[j].id))
  {
    assert StepAt(r, i - 1);
    StepGrows(r.states[i - 1], r.events[i - 1], r.times[i - 1]);
    if k < |r.states[i - 1].ctl.certs| {
      j := RowOrigin(r, i - 1, k);
    } else {
      j := i - 1;
    }
  }

  // ---- which root signs ----

  /** The current root stays and no rotation appears, or `next` is current. */
  predicate DiskMoved(d: Disk, e: Disk, next: Root) {
    e.cur == next || (e.cur == d.cur && (Rotated(e) ==> Rotated(d)))
  }

  lemma ReconcileDisk(c: Ctl, now: int, mend: Faults)
    ensures
      var m := Reconcile(c, now, mend).ctl;
      m.disk.cur == c.disk.cur && m.ca == c.ca && (Rotated(m.disk) ==> Rotated(c.disk))
  {
  }

  lemma LaunchDisk(c: Ctl, now: int, next: Root, f: Faults)
    ensures DiskMoved(c.disk, Launch(c, now, next, f).ctl.disk, next)
  {
  }

  lemma StartDisk(c: Ctl, now: int, next: Root, mend: Faults, f: Faults)
    ensures DiskMoved(c.disk, Start(c, now, next, mend, f).ctl.disk, next)
  {
    ReconcileDisk(c, now, mend);
    LaunchDisk(Reconcile(c, now, mend).ctl, now, next, f);
  }

  lemma AdvanceDisk(c: Ctl, now: int, first: bool, f: Faults)
    ensures var d := Advance(c, now, first, f).ctl.disk; d.cur == c.disk.cur && (Rotated(d) ==> Rotated(c.disk))
  {
  }

  lemma TickDisk(c: Ctl, now: int, next: Root, mend: Faults, again: Faults, f: Faults)
    ensures DiskMoved(c.disk, Tick(c, now, next, mend, again, f).ctl.disk, next)
  {
    ReconcileDisk(c, now, mend);
    var m := Reconcile(c, now, mend).ctl;
    AdvanceDisk(m, now, false, f);
    StartDisk(m, now, next, again, f);
    AdvanceDisk(Start(m, now, next, again, f).ctl, now, true, f);
  }

  lemma FinishDisk(c: Ctl, now: int, f: Faults)
    ensures var d := Finish(c, now, f).ctl.disk; d.cur == c.disk.cur && (Rotated(d) ==> Rotated(c.disk))
  {
  }

  lemma ForceDisk(c: Ctl, now: int, mend: Faults, f: Faults)
    requires Distinct(c.nodes)
    ensures var d := Force(c, now, mend, f).ctl.disk; d.cur == c.disk.cur && (Rotated(d) ==> Rotated(c.disk))
  {
    ReconcileDisk(c, now, mend);
    var m := Reconcile(c, now, mend).ctl;
    RollingLeavesCerts(c, now, c.ca, mend, mend, f, false);
    var ids := Stragglers(m.nodes, m.certs, m.row.currentFP, 0, now);
    CutOffEffect(m, ids, f);
    FinishDisk(CutOff(m, ids, f).ctl, now, f);
  }

  /** Only a fresh root ever takes the current one's place. */
  lemma DiskStep(s: Sys, e: Event, now: int)
    requires Distinct(s.ctl.nodes) && Enabled(s, e, now)
    ensures var t := Next(s, e, now).ctl.disk;
      && (t.cur == s.ctl.disk.cur && Rotated(t) ==> Rotated(s.ctl.disk))
      && (t.cur != s.ctl.disk.cur ==> FreshRoot(s.ctl, t.cur))
  {
    match e
    case Rotate(next, mend, f) => StartDisk(s.ctl, now, next, mend, f);
    case Advancing(first, f) => AdvanceDisk(s.ctl, now, first, f);
    case Ticking(next, mend, again, f) => TickDisk(s.ctl, now, next, mend, again, f);
    case Forcing(mend, f) => ForceDisk(s.ctl, now, mend, f);
    case Mending(mend) => ReconcileDisk(s.ctl, now, mend);
    case _ =>
  }

  /** While two roots are on disk the signing one came in at one event, fresh, and has been
      current ever since. */
  lemma {:induction false} CurrentSince(r: Run, i: nat) returns (j: nat)
    requires IsRun(r) && i < |r.states| && Rotated(r.states[i].ctl.disk)
    ensures j < i && FreshRoot(r.states[j].ctl, r.states[i].ctl.disk.cur)
    ensures forall m :: j < m <= i ==> r.states[m].ctl.disk.cur == r.states[i].ctl.disk.cur
  {
    assert i > 0;
    var s := r.states[i - 1];
    RunInv(r, i - 1);
    assert StepAt(r, i - 1);
    DiskStep(s, r.events[i - 1], r.times[i - 1]);
    if r.states[i].ctl.disk.cur == s.ctl.disk.cur {
      j := CurrentSince(r, i - 1);
    } else {
      j := i - 1;
    }
  }

  /** A row added in the run: by whom, when, and from the root on disk then. */
  lemma RowBorn(r: Run, i: nat, k: nat) returns (j: nat)
    requires IsRun(r) && i < |r.states| && |r.states[0].ctl.certs| <= k < |r.states[i].ctl.certs|
    ensures j < i && |r.states[j].ctl.certs| == k
    ensures
      var e, row := r.events[j], r.states[i].ctl.certs[k];
      && (e.Confirming? || (e.Asking? && AnsweredAt(r, j, e.id)))
      && row == Issue(e.id, r.states[j].ctl.disk.cur, r.times[j]).(revoked := row.revoked)
  {
    j := RowOrigin(r, i, k);
    RunInv(r, j);
    assert StepAt(r, j);
    RunGrows(r, j + 1, i);
    SerialsLast(r.states[j + 1].ctl.certs, r.states[i].ctl.certs, k);
  }

  /** Rows known before a fresh root came in are not from it. */
  lemma NotFromFresh(r: Run, j: nat, i: nat, k: nat, root: Root)
    requires IsRun(r) && j <= i < |r.states| && FreshRoot(r.states[j].ctl, root)
    requires k < |r.states[i].ctl.certs| && r.states[i].ctl.certs[k].signer == root.fp
    ensures k >= |r.states[j].ctl.certs|
  {
    RunGrows(r, j, i);
    if k < |r.states[j].ctl.certs| {
      SerialsLast(r.states[j].ctl.certs, r.states[i].ctl.certs, k);
      assert false;
    }
  }

  /** Rows are numbered in the order of the events that add them. */
  lemma BornAfter(r: Run, j: nat, m: nat)
    requires IsRun(r) && j < |r.states| && m < |r.events| && |r.states[m].ctl.certs| >= |r.states[j].ctl.certs|
    requires |r.states[m + 1].ctl.certs| > |r.states[m].ctl.certs|
    ensures j <= m
  {
    if m < j {
      RunGrows(r, m + 1, j);
      assert false;
    }
  }

  lemma IssuingGrows(r: Run, m: nat)
    requires IsRun(r) && m < |r.events|
    requires r.events[m].Confirming? || (r.events[m].Asking? && AnsweredAt(r, m, r.events[m].id))
    ensures |r.states[m + 1].ctl.certs| == |r.states[m].ctl.certs| + 1
  {
    assert StepAt(r, m);
    StepGrows(r.states[m], r.events[m], r.times[m]);
  }

  /** During a rollover every cert of the new root is younger than the rollover: the event
      that brought the root in comes before it. */
  lemma RotatedIsYounger(r: Run, i: nat, k: nat) returns (j: nat)
    requires IsRun(r) && i < |r.states| && Rotated(r.states[i].ctl.disk)
    requires k < |r.states[i].ctl.certs| && r.states[i].ctl.certs[k].signer == r.states[i].ctl.disk.cur.fp
    ensures
      var cur := r.states[i].ctl.disk.cur;
      && j < i && r.states[j].ctl.disk.cur.fp != cur.fp && r.states[j + 1].ctl.disk.cur == cur
      && k >= |r.states[j].ctl.certs|
      && r.times[j] <= r.states[i].ctl.certs[k].created
  {
    j := CurrentSince(r, i);
    NotFromFresh(r, j, i, k, r.states[i].ctl.disk.cur);
    RunGrows(r, 0, j);
    var m := RowBorn(r, i, k);
    IssuingGrows(r, m);
    BornAfter(r, j, m);
    if j < m {
      TimesRise(r, j, m);
    }
  }

  // ---- the finish ----

  /** Event i ends the rollover by itself: two roots were on disk and now one is. */
  predicate DropsOldRoot(r: Run, i: nat)
    requires IsRun(r)
  {
    && i < |r.events| && (r.events[i].Advancing? || r.events[i].Ticking?)
    && Rotated(r.states[i].ctl.disk) && !Rotated(r.states[i + 1].ctl.disk)
  }

  /** A confirmed worker presents a live cert that is not from the current root. */
  predicate OffRoot(s: Sys, id: Id, now: int) {
    && id in s.held && s.held[id] < |s.ctl.certs|
    && (exists n :: 0 <= n < |s.ctl.nodes| && s.ctl.nodes[n].id == id && Confirmed(s.ctl.nodes[n]))
    && var cert := s.ctl.certs[s.held[id]];
       !cert.revoked && !Expired(cert, now) && cert.signer != s.ctl.disk.cur.fp
  }

  lemma StragglerListed(c: Ctl, now: int, n: nat)
    requires n < |c.nodes|
    ensures Straggles(c.nodes[n], c.certs, c.row.currentFP, SETTLE, now)
            ==> Stragglers(c.nodes, c.certs, c.row.currentFP, SETTLE, now) != []
  {
  }

  lemma AdvanceEnds(c: Ctl, now: int, first: bool, f: Faults)
    ensures
      var r := Advance(c, now, first, f);
      && (r.ctl.disk == c.disk || Stragglers(c.nodes, c.certs, c.row.currentFP, SETTLE, now) == [])
      && r.ctl.nodes == c.nodes && r.ctl.certs == c.certs && r.ctl.disk.cur == c.disk.cur
  {
  }

  lemma ReconcileLeavesNodes(c: Ctl, now: int, mend: Faults)
    ensures Reconcile(c, now, mend).ctl.nodes == c.nodes
  {
  }

  lemma DropLeaves(r: Run, i: nat)
    requires IsRun(r) && DropsOldRoot(r, i)
    ensures
      var c, d := r.states[i].ctl, r.states[i + 1].ctl;
      d.nodes == c.nodes && d.certs == c.certs && d.disk.cur == c.disk.cur && r.states[i + 1].held == r.states[i].held
  {
    var s, e, now := r.states[i], r.events[i], r.times[i];
    RunInv(r, i);
    assert StepAt(r, i);
    if e.Ticking? {
      var m := Reconcile(s.ctl, now, e.mend);
      ReconcilePaper(s.ctl, s.clock, now, e.mend);
      ReconcileLeavesNodes(s.ctl, now, e.mend);
      ReconcileDisk(s.ctl, now, e.mend);
      RollingLeavesCerts(s.ctl, now, e.next, e.mend, e.again, e.f, false);
      AdvanceEnds(m.ctl, now, false, e.f);
      assert m.out == Done ==> RollingOver(m.ctl.row);
    } else {
      AdvanceEnds(s.ctl, now, e.first, e.f);
    }
  }

  /** What a finish by itself has checked. */
  lemma FinishChecked(r: Run, i: nat, n: nat)
    requires IsRun(r) && DropsOldRoot(r, i) && n < |r.states[i].ctl.nodes|
    ensures
      var c := r.states[i].ctl;
      !Straggles(c.nodes[n], c.certs, Some(c.disk.cur.fp), SETTLE, r.times[i])
  {
    var s, e, now := r.states[i], r.events[i], r.times[i];
    RunInv(r, i);
    assert StepAt(r, i);
    var m := s.ctl;
    if e.Ticking? {
      ReconcilePaper(s.ctl, s.clock, now, e.mend);
      m := Reconcile(s.ctl, now, e.mend).ctl;
    }
    StragglerListed(m, now, n);
  }

  /** The row an answered ask leaves: the worker's, stamped then, from the root signing then. */
  lemma AnswerRow(r: Run, k: nat, i: nat, id: Id)
    requires IsRun(r) && k < i < |r.states| && AnsweredAt(r, k, id)
    ensures
      var q := |r.states[k].ctl.certs|;
      && q < |r.states[i].ctl.certs|
      && r.states[i].ctl.certs[q] == Issue(id, r.states[k].ctl.ca, r.times[k]).(revoked := r.states[i].ctl.certs[q].revoked)
  {
    assert StepAt(r, k);
    RunGrows(r, k + 1, i);
    SerialsLast(r.states[k + 1].ctl.certs, r.states[i].ctl.certs, |r.states[k].ctl.certs|);
  }

  /** A confirmed join revokes every older cert of its node, for good. */
  lemma ConfirmRevokes(r: Run, j: nat, i: nat, h: nat)
    requires IsRun(r) && j < i < |r.states| && r.events[j].Confirming?
    requires h < |r.states[j].ctl.certs| && r.states[j].ctl.certs[h].node == r.events[j].id
    ensures h < |r.states[i].ctl.certs| && r.states[i].ctl.certs[h].revoked
  {
    assert StepAt(r, j);
    RunGrows(r, j + 1, i);
    assert r.states[j + 1].ctl.certs[h].revoked;
    SerialsLast(r.states[j + 1].ctl.certs, r.states[i].ctl.certs, h);
  }

  /** The id is that of a node a finish looks at. */
  predicate IsNode(s: Sys, n: nat, id: Id) {
    n < |s.ctl.nodes| && s.ctl.nodes[n].id == id && Confirmed(s.ctl.nodes[n])
  }

  /** Worker n holds up no finish at event i. */
  predicate PassedOver(r: Run, i: nat, n: nat)
    requires IsRun(r) && i < |r.events| && n < |r.states[i].ctl.nodes|
  {
    var c := r.states[i].ctl;
    !Straggles(c.nodes[n], c.certs, Some(c.disk.cur.fp), SETTLE, r.times[i])
  }

  /** A worker on another root that holds up no finish has a newer, settled row from the
      current one. */
  lemma SettledRow(r: Run, i: nat, n: nat, id: Id) returns (q: nat)
    requires IsRun(r) && i < |r.events| && IsNode(r.states[i], n, id)
    requires OffRoot(r.states[i], id, r.times[i]) && PassedOver(r, i, n)
    ensures
      var s := r.states[i];
      && id != ""
      && Newest(s.ctl.certs, id) == Some(q) && s.held[id] < q < |s.ctl.certs|
      && s.ctl.certs[s.held[id]].node == id == s.ctl.certs[q].node
      && s.ctl.certs[q].signer == s.ctl.disk.cur.fp
      && r.times[i] - s.ctl.certs[q].created >= SETTLE
  {
    var s := r.states[i];
    var certs, h := s.ctl.certs, s.held[id];
    RunInv(r, i);
    q := Newest(certs, id).value;
    assert certs[h].created <= certs[q].created;
  }

  /** A newer row came from an answered ask: a confirmed join would have revoked the held cert. */
  lemma RowWasAnswer(r: Run, i: nat, id: Id, h: nat, q: nat) returns (j: nat)
    requires IsRun(r) && i < |r.states| && |r.states[0].ctl.certs| <= q < |r.states[i].ctl.certs| && h < q
    requires var certs := r.states[i].ctl.certs; certs[h].node == id == certs[q].node && !certs[h].revoked
    ensures j < i && |r.states[j].ctl.certs| == q && AnsweredAt(r, j, id)
    ensures r.states[i].ctl.certs[q].signer == r.states[j].ctl.ca.fp && r.states[i].ctl.certs[q].created == r.times[j]
    ensures r.states[i].ctl.certs[q].recorded == Some(r.states[i].ctl.certs[q].signer)
  {
    j := RowBorn(r, i, q);
    RunInv(r, j);
    RunGrows(r, j, i);
    SerialsLast(r.states[j].ctl.certs, r.states[i].ctl.certs, h);
    if r.events[j].Confirming? {
      ConfirmRevokes(r, j, i, h);
    }
  }

  /** Event k is an ask of this worker that the root signing at event i answered. */
  predicate AnsweredByCurrent(r: Run, k: nat, i: nat, id: Id)
    requires IsRun(r) && i < |r.states|
  {
    AnsweredAt(r, k, id) && r.states[k].ctl.ca.fp == r.states[i].ctl.disk.cur.fp
  }

  lemma AnswerIsOld(r: Run, i: nat, id: Id, q: nat, k: nat)
    requires IsRun(r) && k < i < |r.states| && AnsweredAt(r, k, id) && id != ""
    requires Newest(r.states[i].ctl.certs, id) == Some(q)
    ensures r.times[k] <= r.states[i].ctl.certs[q].created
  {
    var certs, a := r.states[i].ctl.certs, |r.states[k].ctl.certs|;
    RunInv(r, i);
    RunRevokesFirst(r, i);
    AnswerRow(r, k, i, id);
    assert certs[a].created == r.times[k] && certs[a].node == id == certs[q].node;
  }

  /** A worker on another root that holds up no finish was answered once by the current one,
      never took that answer, and has had none answered for a whole window. */
  lemma PassedOverWasSilent(r: Run, i: nat, n: nat, id: Id) returns (j: nat)
    requires IsRun(r) && i < |r.events| && IsNode(r.states[i], n, id) && Rotated(r.states[i].ctl.disk)
    requires OffRoot(r.states[i], id, r.times[i]) && PassedOver(r, i, n)
    ensures j < i && AnsweredByCurrent(r, j, i, id)
    ensures forall k: nat :: k < i && AnsweredAt(r, k, id) ==> r.times[i] - r.times[k] >= SETTLE
  {
    var q := SettledRow(r, i, n, id);
    var born := RotatedIsYounger(r, i, q);
    RunGrows(r, 0, born);
    j := RowWasAnswer(r, i, id, r.states[i].held[id], q);
    forall k: nat | k < i && AnsweredAt(r, k, id) ensures r.times[i] - r.times[k] >= SETTLE {
      AnswerIsOld(r, i, id, q, k);
    }
  }

  /** Once a root has answered it stays the current one as long as it is: every row from that
      answer on is from it. */
  lemma RowsSinceAnswer(r: Run, j: nat, i: nat, id: Id, k: nat)
    requires IsRun(r) && j < i < |r.states| && Rotated(r.states[i].ctl.disk) && AnsweredByCurrent(r, j, i, id)
    requires |r.states[j].ctl.certs| <= k < |r.states[i].ctl.certs|
    ensures r.states[i].ctl.certs[k].signer == r.states[i].ctl.disk.cur.fp
  {
    var cur, a := r.states[i].ctl.disk.cur, |r.states[j].ctl.certs|;
    var since := CurrentSince(r, i);
    AnswerRow(r, j, i, id);
    NotFromFresh(r, since, i, a, cur);
    IssuingGrows(r, j);
    BornAfter(r, since, j);
    RunGrows(r, 0, j);
    var m := RowBorn(r, i, k);
    IssuingGrows(r, m);
    BornAfter(r, j, m);
    RunInv(r, j);
    assert since != j;
  }

  /** Where the newest row of such a worker stands: at that answer or after it. */
  lemma NewestSinceAnswer(r: Run, j: nat, i: nat, id: Id) returns (q: nat)
    requires IsRun(r) && j < i < |r.events| && Rotated(r.states[i].ctl.disk) && AnsweredByCurrent(r, j, i, id)
    requires OffRoot(r.states[i], id, r.times[i]) && id != ""
    ensures
      var s := r.states[i];
      && Newest(s.ctl.certs, id) == Some(q) && s.held[id] < |r.states[j].ctl.certs| <= q
      && s.ctl.certs[s.held[id]].node == id && !s.ctl.certs[s.held[id]].revoked
  {
    var s, a := r.states[i], |r.states[j].ctl.certs|;
    var certs, h := s.ctl.certs, s.held[id];
    RunInv(r, i);
    RunRevokesFirst(r, i);
    AnswerRow(r, j, i, id);
    if h >= a {
      RowsSinceAnswer(r, j, i, id, h);
    }
    assert certs[h].node == id == certs[a].node && !certs[a].revoked;
    q := Newest(certs, id).value;
  }

  /** And conversely such a worker holds up no finish. */
  lemma SilentIsPassedOver(r: Run, j: nat, i: nat, n: nat, id: Id)
    requires IsRun(r) && j < i < |r.events| && IsNode(r.states[i], n, id) && Rotated(r.states[i].ctl.disk)
    requires OffRoot(r.states[i], id, r.times[i]) && AnsweredByCurrent(r, j, i, id) && id != ""
    requires forall k: nat :: k < i && AnsweredAt(r, k, id) ==> r.times[i] - r.times[k] >= SETTLE
    ensures PassedOver(r, i, n)
  {
    var q := NewestSinceAnswer(r, j, i, id);
    RunGrows(r, 0, j);
    RowsSinceAnswer(r, j, i, id, q);
    var m := RowWasAnswer(r, i, id, r.states[i].held[id], q);
    assert r.times[i] - r.times[m] >= SETTLE;
  }

  /** Exactly whom a finish by itself passes over on another root: the worker that the current
      root answered once, in vain, and that has had no ask answered for a settle window. */
  lemma PassedOverExactly(r: Run, i: nat, n: nat, id: Id)
    requires IsRun(r) && i < |r.events| && IsNode(r.states[i], n, id) && Rotated(r.states[i].ctl.disk)
    requires OffRoot(r.states[i], id, r.times[i])
    ensures PassedOver(r, i, n) <==>
      && (exists j: nat :: j < i && AnsweredByCurrent(r, j, i, id))
      && (forall k: nat :: k < i && AnsweredAt(r, k, id) ==> r.times[i] - r.times[k] >= SETTLE)
  {
    RunInv(r, i);
    assert id != "";
    if PassedOver(r, i, n) {
      var j := PassedOverWasSilent(r, i, n, id);
    } else if j: nat :| j < i && AnsweredByCurrent(r, j, i, id) {
      if forall k: nat :: k < i && AnsweredAt(r, k, id) ==> r.times[i] - r.times[k] >= SETTLE {
        SilentIsPassedOver(r, j, i, n, id);
      }
    }
  }

  // ---- whom a finish strands ----

  /** A worker that a finish by itself leaves on another root was silent for a whole window. */
  lemma StrandedWasSilent(r: Run, i: nat, id: Id) returns (j: nat)
    requires IsRun(r) && DropsOldRoot(r, i) && OffRoot(r.states[i], id, r.times[i])
    ensures j < i && AnsweredByCurrent(r, j, i, id)
    ensures forall k: nat :: k < i && AnsweredAt(r, k, id) ==> r.times[i] - r.times[k] >= SETTLE
  {
    var s := r.states[i];
    var n :| 0 <= n < |s.ctl.nodes| && s.ctl.nodes[n].id == id && Confirmed(s.ctl.nodes[n]);
    FinishChecked(r, i, n);
    j := PassedOverWasSilent(r, i, n, id);
  }

  /** A tick that starts a rollover and ends it at once. */
  predicate StartsAndEnds(r: Run, i: nat)
    requires IsRun(r)
  {
    && i < |r.events| && r.events[i].Ticking?
    && r.states[i + 1].ctl.disk.cur != r.states[i].ctl.disk.cur && !Rotated(r.states[i + 1].ctl.disk)
  }

  /** It found no worker with a live cert at all: none of the certs can be from the new root. */
  lemma AtOnceStrandsNobody(r: Run, i: nat, id: Id)
    requires IsRun(r) && StartsAndEnds(r, i)
    ensures !OffRoot(r.states[i + 1], id, r.times[i])
  {
    var s, e, now := r.states[i], r.events[i], r.times[i];
    RunInv(r, i);
    RunInv(r, i + 1);
    assert StepAt(r, i);
    var m := Reconcile(s.ctl, now, e.mend).ctl;
    ReconcilePaper(s.ctl, s.clock, now, e.mend);
    var t := Start(m, now, e.next, e.again, e.f).ctl;
    TickAtOnce(s.ctl, now, e.next, e.mend, e.again, e.f);
    if OffRoot(r.states[i + 1], id, now) {
      var n: nat :| n < |t.nodes| && t.nodes[n].id == id && Confirmed(t.nodes[n]);
      StragglerListed(t, now, n);
      FreshStraggles(t.nodes[n], t.certs, e.next.fp, r.states[i + 1].held[id], now, now);
    }
  }

  /** A launch names the new root in the row, or stops with the old one current or both on disk. */
  lemma LaunchEnds(c: Ctl, now: int, next: Root, f: Faults)
    requires c.ca == c.disk.cur && next.fp != c.ca.fp
    ensures
      var r := Launch(c, now, next, f);
      && (r.out == Done ==> r.ctl.row.currentFP == Some(next.fp) && r.ctl.disk.cur == next && Rotated(r.ctl.disk))
      && (r.ctl.disk.cur == c.disk.cur || Rotated(r.ctl.disk))
      && r.ctl.nodes == c.nodes && r.ctl.certs == c.certs
  {
  }

  /** What a tick that changed the root and left one alone on disk has checked. */
  lemma TickAtOnce(c: Ctl, now: int, next: Root, mend: Faults, again: Faults, f: Faults)
    requires
      var d := Tick(c, now, next, mend, again, f).ctl.disk;
      d.cur != c.disk.cur && !Rotated(d) && next.fp != c.ca.fp && c.ca == c.disk.cur
    ensures
      var t := Start(Reconcile(c, now, mend).ctl, now, next, again, f).ctl;
      var u := Tick(c, now, next, mend, again, f).ctl;
      && t.row.currentFP == Some(next.fp) && Stragglers(t.nodes, t.certs, t.row.currentFP, SETTLE, now) == []
      && t.nodes == c.nodes && t.certs == c.certs && u.nodes == c.nodes && u.certs == c.certs && u.disk.cur == next
  {
    var m := Reconcile(c, now, mend).ctl;
    ReconcileDisk(c, now, mend);
    RollingLeavesCerts(c, now, next, mend, again, f, false);
    ReconcileLeavesNodes(c, now, mend);
    AdvanceEnds(m, now, false, f);
    StartEnds(m, now, next, again, f);
    AdvanceEnds(Start(m, now, next, again, f).ctl, now, true, f);
  }

  lemma StartEnds(c: Ctl, now: int, next: Root, mend: Faults, f: Faults)
    requires c.ca == c.disk.cur && next.fp != c.ca.fp
    ensures
      var r := Start(c, now, next, mend, f);
      && (r.out == Done ==> r.ctl.row.currentFP == Some(next.fp) && r.ctl.disk.cur == next && Rotated(r.ctl.disk))
      && (r.ctl.disk.cur == c.disk.cur || Rotated(r.ctl.disk))
      && r.ctl.nodes == c.nodes && r.ctl.certs == c.certs
  {
    var m := Reconcile(c, now, mend).ctl;
    ReconcileDisk(c, now, mend);
    RollingLeavesCerts(c, now, next, mend, mend, f, false);
    ReconcileLeavesNodes(c, now, mend);
    LaunchEnds(m, now, next, f);
  }

  /** With a live cert and none from the new root a confirmed worker straggles. */
  lemma FreshStraggles(n: Node, certs: seq<CertRow>, fp: Fp, h: nat, clock: int, now: int)
    requires CertsOk(certs, clock) && Confirmed(n) && n.id != "" && h < |certs|
    requires certs[h].node == n.id && !certs[h].revoked && !Expired(certs[h], now)
    requires forall k :: 0 <= k < |certs| ==> certs[k].signer != fp
    ensures Straggles(n, certs, Some(fp), SETTLE, now)
  {
    var q := Newest(certs, n.id).value;
    assert certs[h].created <= certs[q].created;
  }

  /** Event i ends a rollover by itself. */
  predicate EndsByItself(r: Run, i: nat)
    requires IsRun(r)
  {
    DropsOldRoot(r, i) || StartsAndEnds(r, i)
  }

  /** An ask a caller can see to be a good one: during the rollover, of a running controller
      that saves its answer, by a confirmed worker with a live cert from the old root while
      that root is in time. */
  predicate GoodAsk(r: Run, k: nat, id: Id)
    requires IsRun(r)
  {
    && k < |r.events| && r.events[k] == Asking(id, true)
    && var s := r.states[k];
       && s.up && Rotated(s.ctl.disk) && OffRoot(s, id, r.times[k])
       && s.ctl.certs[s.held[id]].signer == s.ctl.disk.prev.value.fp
       && InTime(s.ctl.disk.prev.value.notBefore, s.ctl.disk.prev.value.notAfter, r.times[k])
  }

  /** A worker that is still on the old root at event i asked within the settle window. */
  predicate KeepsAsking(r: Run, i: nat, id: Id)
    requires IsRun(r) && i < |r.events|
  {
    OffRoot(r.states[i], id, r.times[i]) ==> exists k: nat :: k < i && GoodAsk(r, k, id) && r.times[i] - r.times[k] < SETTLE
  }

  /** Such an ask cannot be refused: while two roots are on disk a running controller
      answers every confirmed worker that presents a live cert from the old one. */
  lemma OldRootAsksAreAnswered(r: Run, i: nat, id: Id, now: int)
    requires IsRun(r) && i < |r.states| && r.states[i].up && r.states[i].clock < now
    requires var s := r.states[i];
      && Rotated(s.ctl.disk) && OffRoot(s, id, now)
      && s.ctl.certs[s.held[id]].signer == s.ctl.disk.prev.value.fp
      && InTime(s.ctl.disk.prev.value.notBefore, s.ctl.disk.prev.value.notAfter, now)
    ensures
      var t := Next(r.states[i], Asking(id, true), now);
      && Answered(r.states[i], id, true, now)
      && t.answer[id] == |r.states[i].ctl.certs| < |t.ctl.certs|
      && t.ctl.certs[t.answer[id]] == Issue(id, r.states[i].ctl.disk.cur, now)
  {
    RunInv(r, i);
    var c, serial := r.states[i].ctl, r.states[i].held[id];
    assert Roots(c)[1] == c.disk.prev.value;
    assert Vouched(Roots(c), LeafOf(c, serial).issuer, now);
    var n :| 0 <= n < |c.nodes| && c.nodes[n].id == id && Confirmed(c.nodes[n]);
    var found := FindNode(c.nodes, id);
    assert found.Some?;
    var m :| 0 <= m < |c.nodes| && c.nodes[m] == found.value;
    assert m == n;
  }

  lemma GoodAskIsAnswered(r: Run, k: nat, id: Id)
    requires IsRun(r) && GoodAsk(r, k, id)
    ensures AnsweredAt(r, k, id)
  {
    assert StepAt(r, k);
    OldRootAsksAreAnswered(r, k, id, r.times[k]);
  }

  /** A rollover that finishes by itself strands nobody who keeps asking: after it no confirmed
      worker holds a live cert from another root than the one left, however many answers
      were lost. */
  lemma NobodyStranded(r: Run, i: nat, id: Id)
    requires IsRun(r) && EndsByItself(r, i) && KeepsAsking(r, i, id)
    ensures !OffRoot(r.states[i + 1], id, r.times[i])
  {
    if StartsAndEnds(r, i) {
      AtOnceStrandsNobody(r, i, id);
    } else {
      DropLeaves(r, i);
      if OffRoot(r.states[i + 1], id, r.times[i]) {
        assert OffRoot(r.states[i], id, r.times[i]);
        var j := StrandedWasSilent(r, i, id);
        var k: nat :| k < i && GoodAsk(r, k, id) && r.times[i] - r.times[k] < SETTLE;
        GoodAskIsAnswered(r, k, id);
      }
    }
  }

  /** Nor one whose asks are answered, by whatever root and for whatever reason. */
  lemma AnsweredIsNotStranded(r: Run, i: nat, id: Id, k: nat)
    requires IsRun(r) && EndsByItself(r, i) && k < i && AnsweredAt(r, k, id) && r.times[i] - r.times[k] < SETTLE
    ensures !OffRoot(r.states[i + 1], id, r.times[i])
  {
    if StartsAndEnds(r, i) {
      AtOnceStrandsNobody(r, i, id);
    } else {
      DropLeaves(r, i);
      if OffRoot(r.states[i + 1], id, r.times[i]) {
        assert OffRoot(r.states[i], id, r.times[i]);
        var j := StrandedWasSilent(r, i, id);
      }
    }
  }
}
