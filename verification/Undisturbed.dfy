/** What the operations of a rollover do when nothing goes wrong, in days, hours and cert rows, and
    what they hold back when something does. */
module Undisturbed {
  import opened Outcomes
  import opened ClusterCA
  import opened Rollover
  import opened Cluster
  import opened Runs

  const DAY: int := 24 * HOUR

  /** Row k is the node's newest live cert and has not run out. */
  predicate HoldsCert(c: Ctl, n: nat, k: nat, now: int) {
    && n < |c.nodes| && k < |c.certs|
    && c.certs[k].node == c.nodes[n].id && !c.certs[k].revoked
    && (forall j :: k < j < |c.certs| && c.certs[j].node == c.nodes[n].id ==> c.certs[j].revoked)
    && now - HOUR <= c.certs[k].notAfter
  }

  /** A confirmed worker whose cert is not from this root, or is younger than `age`. */
  ghost predicate KeepsOldRoot(c: Ctl, n: nat, fp: Fp, age: int, now: int) {
    && n < |c.nodes| && c.nodes[n].role == WorkerRole && c.nodes[n].status == Joined
    && exists k: nat :: HoldsCert(c, n, k, now) && (c.certs[k].recorded != Some(fp) || now - c.certs[k].created < age)
  }

  lemma KeepsMeansStraggles(c: Ctl, n: nat, fp: Fp, age: int, now: int)
    requires Distinct(c.nodes) && n < |c.nodes|
    ensures KeepsOldRoot(c, n, fp, age, now) <==> Straggles(c.nodes[n], c.certs, Some(fp), age, now)
  {
    var k := Newest(c.certs, c.nodes[n].id);
    if k.Some? {
      assert HoldsCert(c, n, k.value, now) <==> !Expired(c.certs[k.value], now);
      forall j: nat | HoldsCert(c, n, j, now) ensures j == k.value {
      }
    }
  }

  lemma NobodyStraggles(c: Ctl, fp: Fp, age: int, now: int)
    requires Distinct(c.nodes)
    ensures Stragglers(c.nodes, c.certs, Some(fp), age, now) == [] <==>
      forall n: nat :: !KeepsOldRoot(c, n, fp, age, now)
  {
    var ids := Stragglers(c.nodes, c.certs, Some(fp), age, now);
    forall n: nat | n < |c.nodes|
      ensures KeepsOldRoot(c, n, fp, age, now) <==> Straggles(c.nodes[n], c.certs, Some(fp), age, now)
    {
      KeepsMeansStraggles(c, n, fp, age, now);
    }
    if ids != [] {
      assert ids[0] in ids;
      var n :| 0 <= n < |c.nodes| && c.nodes[n].id == ids[0] && Straggles(c.nodes[n], c.certs, Some(fp), age, now);
      assert KeepsOldRoot(c, n, fp, age, now);
    }
  }

  // ---- the daily check ----

  /** Event i of a run is a daily check that nothing disturbs. */
  predicate QuietTick(r: Run, i: nat)
    requires IsRun(r)
  {
    && i < |r.events| && r.events[i].Ticking?
    && r.events[i].mend == NO_FAULTS && r.events[i].again == NO_FAULTS && r.events[i].f == NO_FAULTS
  }

  /** The old root is gone everywhere. */
  predicate OneRoot(c: Ctl, root: Root) {
    && c.disk == Disk(root, None, None) && c.ca == root && c.trust == [root]
    && !RollingOver(c.row) && c.row.previousFP == None
  }

  /** Both roots are on disk and trusted, and the row records them. */
  predicate TwoRoots(c: Ctl, root: Root, former: Root) {
    && c.disk == Disk(root, Some(former), Some(Cross(former.fp, root.fp))) && c.ca == root && c.trust == [root, former]
    && RollingOver(c.row) && c.row.currentFP == Some(root.fp) && c.row.previousFP == Some(former.fp)
  }

  lemma MendEnds(r: Run, i: nat, now: int) returns (m: Ctl)
    requires IsRun(r) && i < |r.states| && r.states[i].up && r.states[i].clock < now
    ensures
      var c := r.states[i].ctl;
      && Reconcile(c, now, NO_FAULTS) == Reply(m, Done) && CtlOk(m, true, now) && Clean(m)
      && m.nodes == c.nodes && m.certs == c.certs && m.ca == m.disk.cur == c.disk.cur
      && (Rotated(m.disk) <==> Rotated(c.disk)) && (Rotated(c.disk) ==> TwoRoots(m, c.disk.cur, c.disk.prev.value))
  {
    RunInv(r, i);
    var c := r.states[i].ctl;
    m := Reconcile(c, now, NO_FAULTS).ctl;
    ReconcileKeeps(c, r.states[i].clock, now, c.disk.cur, NO_FAULTS);
    ReconcilePaper(c, r.states[i].clock, now, NO_FAULTS);
  }

  /** An undisturbed advance drops the old root exactly when no worker keeps it. */
  lemma AdvanceExactly(c: Ctl, now: int, first: bool, former: Root)
    requires Distinct(c.nodes) && TwoRoots(c, c.disk.cur, former)
    requires c.row.startedAt.value <= now
    ensures
      var d := Advance(c, now, first, NO_FAULTS);
      && d.out == Done && d.ctl.nodes == c.nodes && d.ctl.certs == c.certs
      && (if exists n: nat :: KeepsOldRoot(c, n, c.disk.cur.fp, 6 * HOUR, now) then d.ctl == c
        else OneRoot(d.ctl, c.disk.cur))
  {
    NobodyStraggles(c, c.disk.cur.fp, 6 * HOUR, now);
  }

  /** With two roots on disk an undisturbed check drops the old one exactly when no worker
      keeps it; the root in use stays. */
  lemma TickEndsRollover(r: Run, i: nat)
    requires IsRun(r) && QuietTick(r, i) && Rotated(r.states[i].ctl.disk)
    ensures
      var c, t, now := r.states[i].ctl, r.states[i + 1], r.times[i];
      && t.up && t.ctl.nodes == c.nodes && t.ctl.certs == c.certs
      && (if exists n: nat :: KeepsOldRoot(c, n, c.disk.cur.fp, 6 * HOUR, now)
          then TwoRoots(t.ctl, c.disk.cur, c.disk.prev.value) else OneRoot(t.ctl, c.disk.cur))
  {
    var c, now := r.states[i].ctl, r.times[i];
    assert StepAt(r, i);
    var m := MendEnds(r, i, now);
    AdvanceExactly(m, now, false, c.disk.prev.value);
    forall n: nat ensures KeepsOldRoot(m, n, c.disk.cur.fp, 6 * HOUR, now) <==>
      KeepsOldRoot(c, n, c.disk.cur.fp, 6 * HOUR, now)
    {
      assert forall k: nat :: HoldsCert(m, n, k, now) <==> HoldsCert(c, n, k, now);
    }
  }

  lemma LaunchExactly(c: Ctl, now: int, next: Root)
    requires MemoryOk(c) && !RollingOver(c.row)
    ensures
      var l := Launch(c, now, next, NO_FAULTS);
      && l.out == Done && TwoRoots(l.ctl, next, c.disk.cur)
      && l.ctl.nodes == c.nodes && l.ctl.certs == c.certs && l.ctl.row.startedAt == Some(now)
  {
  }

  /** A mend of what a mend just left changes nothing. */
  lemma MendedStays(c: Ctl, now: int)
    requires Clean(c) && MemoryOk(c) && !RollingOver(c.row)
    ensures Reconcile(c, now, NO_FAULTS) == Reply(c, Done)
  {
  }

  /** With one root on disk an undisturbed check brings in the next one exactly when under a
      year is left. In its last year the old root stays as long as a worker has any live
      cert; otherwise the check does no more than a mend. */
  lemma TickStartsRollover(r: Run, i: nat)
    requires IsRun(r) && QuietTick(r, i) && !Rotated(r.states[i].ctl.disk)
    ensures
      var c, t, now, next := r.states[i].ctl, r.states[i + 1], r.times[i], r.events[i].next;
      && t.up && t.ctl.nodes == c.nodes && t.ctl.certs == c.certs
      && (t.ctl.disk.cur == next <==> c.disk.cur.notAfter - now < 365 * DAY)
      && (c.disk.cur.notAfter - now < 365 * DAY ==>
            if exists n: nat :: KeepsOldRoot(c, n, next.fp, 6 * HOUR, now) then TwoRoots(t.ctl, next, c.disk.cur)
            else OneRoot(t.ctl, next))
      && (c.disk.cur.notAfter - now >= 365 * DAY ==> t.ctl == Reconcile(c, now, NO_FAULTS).ctl)
  {
    var c, now, next := r.states[i].ctl, r.times[i], r.events[i].next;
    assert StepAt(r, i);
    var m := MendEnds(r, i, now);
    if m.ca.notAfter - now < ROLLOVER_LEAD {
      StartAndAdvance(m, c, now, next);
    }
  }

  lemma StartAndAdvance(m: Ctl, c: Ctl, now: int, next: Root)
    requires Clean(m) && MemoryOk(m) && !RollingOver(m.row) && Distinct(m.nodes)
    requires m.nodes == c.nodes && m.certs == c.certs && m.disk.cur == c.disk.cur
    ensures
      var s := Start(m, now, next, NO_FAULTS, NO_FAULTS);
      var d := Advance(s.ctl, now, true, NO_FAULTS);
      && s.out == Done && d.out == Done && d.ctl.nodes == c.nodes && d.ctl.certs == c.certs
      && (if exists n: nat :: KeepsOldRoot(c, n, next.fp, 6 * HOUR, now) then TwoRoots(d.ctl, next, c.disk.cur)
          else OneRoot(d.ctl, next))
  {
    MendedStays(m, now);
    LaunchExactly(m, now, next);
    var l := Launch(m, now, next, NO_FAULTS).ctl;
    AdvanceExactly(l, now, true, c.disk.cur);
    forall n: nat ensures KeepsOldRoot(l, n, next.fp, 6 * HOUR, now) <==> KeepsOldRoot(c, n, next.fp, 6 * HOUR, now) {
      assert forall k: nat :: HoldsCert(l, n, k, now) <==> HoldsCert(c, n, k, now);
    }
  }

  // ---- the forced finish ----

  /** These nodes marked and their certs revoked, and nothing else. */
  ghost predicate CutExactly(c: Ctl, d: Ctl, ids: seq<Id>) {
    && d == c.(nodes := d.nodes, certs := d.certs) && |d.nodes| == |c.nodes| && |d.certs| == |c.certs|
    && (forall n :: 0 <= n < |c.nodes| ==>
          d.nodes[n] == if c.nodes[n].id in ids then c.nodes[n].(status := NeedsRejoin) else c.nodes[n])
    && (forall k :: 0 <= k < |c.certs| ==>
          d.certs[k] == if c.certs[k].node in ids then c.certs[k].(revoked := true) else c.certs[k])
  }

  lemma {:induction false} CutOffExactly(c: Ctl, ids: seq<Id>)
    ensures var r := CutOff(c, ids, NO_FAULTS); r.out == Done && CutExactly(c, r.ctl, ids)
  {
    if ids != [] {
      var most, id := ids[..|ids| - 1], ids[|ids| - 1];
      CutOffExactly(c, most);
      assert ids == most + [id];
    }
  }

  /** A worker with a live cert that is not from this root. */
  ghost predicate LeftBehind(c: Ctl, id: Id, fp: Fp, now: int) {
    exists n: nat :: n < |c.nodes| && c.nodes[n].id == id && KeepsOldRoot(c, n, fp, 0, now)
  }

  lemma StragglersAreLeftBehind(c: Ctl, fp: Fp, now: int, id: Id)
    requires Distinct(c.nodes)
    ensures id in Stragglers(c.nodes, c.certs, Some(fp), 0, now) <==> LeftBehind(c, id, fp, now)
  {
    forall n: nat | n < |c.nodes|
      ensures KeepsOldRoot(c, n, fp, 0, now) <==> Straggles(c.nodes[n], c.certs, Some(fp), 0, now)
    {
      KeepsMeansStraggles(c, n, fp, 0, now);
    }
  }

  predicate QuietForce(r: Run, i: nat)
    requires IsRun(r)
  {
    i < |r.events| && r.events[i].Forcing? && r.events[i].mend == NO_FAULTS && r.events[i].f == NO_FAULTS
  }

  /** An undisturbed forced finish leaves one root, on disk, in memory and in the row. Exactly
      the workers whose live cert is from another root need a rejoin, and exactly their certs
      are revoked. */
  lemma ForceEndsRollover(r: Run, i: nat)
    requires IsRun(r) && QuietForce(r, i) && Rotated(r.states[i].ctl.disk)
    ensures
      var c, t, now := r.states[i].ctl, r.states[i + 1], r.times[i];
      var fp := c.disk.cur.fp;
      && t.up && OneRoot(t.ctl, c.disk.cur) && |t.ctl.nodes| == |c.nodes| && |t.ctl.certs| == |c.certs|
      && (forall n :: 0 <= n < |c.nodes| ==>
            t.ctl.nodes[n] ==
              if LeftBehind(c, c.nodes[n].id, fp, now) then c.nodes[n].(status := NeedsRejoin) else c.nodes[n])
      && (forall k :: 0 <= k < |c.certs| ==>
            t.ctl.certs[k] ==
              if LeftBehind(c, c.certs[k].node, fp, now) then c.certs[k].(revoked := true) else c.certs[k])
  {
    var c, now, fp := r.states[i].ctl, r.times[i], r.states[i].ctl.disk.cur.fp;
    assert StepAt(r, i);
    var m := MendEnds(r, i, now);
    var ids := Stragglers(m.nodes, m.certs, Some(fp), 0, now);
    CutOffExactly(m, ids);
    forall id ensures id in ids <==> LeftBehind(c, id, fp, now) {
      StragglersAreLeftBehind(m, fp, now, id);
      SameLeftBehind(m, c, id, fp, now);
    }
    FinishExactly(CutOff(m, ids, NO_FAULTS).ctl, now, c.disk.prev.value);
  }

  lemma FinishExactly(c: Ctl, now: int, former: Root)
    requires TwoRoots(c, c.disk.cur, former) && c.row.startedAt.value <= now
    ensures
      var d := Finish(c, now, NO_FAULTS);
      d.out == Done && OneRoot(d.ctl, c.disk.cur) && d.ctl.nodes == c.nodes && d.ctl.certs == c.certs
  {
  }

  lemma SameLeftBehind(c: Ctl, d: Ctl, id: Id, fp: Fp, now: int)
    requires c.nodes == d.nodes && c.certs == d.certs
    ensures LeftBehind(c, id, fp, now) <==> LeftBehind(d, id, fp, now)
  {
    forall n: nat ensures KeepsOldRoot(c, n, fp, 0, now) <==> KeepsOldRoot(d, n, fp, 0, now) {
      assert forall k: nat :: HoldsCert(c, n, k, now) <==> HoldsCert(d, n, k, now);
    }
  }

  /** With one root on disk there is nothing to finish. */
  lemma ForceRefused(r: Run, i: nat)
    requires IsRun(r) && QuietForce(r, i) && !Rotated(r.states[i].ctl.disk)
    ensures r.states[i + 1].ctl == Reconcile(r.states[i].ctl, r.times[i], NO_FAULTS).ctl
  {
    assert StepAt(r, i);
    var m := MendEnds(r, i, r.times[i]);
  }

  // ---- a start that fails ----

  /** A start that fails without dying, and can sweep up, leaves the root in use and no cross
      cert but the one it found, or it got as far as the new root, linked to the old one. */
  lemma FailedStart(c: Ctl, now: int, next: Root, f: Faults)
    requires Launch(c, now, next, f).out == Failed && c.ca == c.disk.cur && DropCross !in f
    ensures
      var l := Launch(c, now, next, f).ctl;
      && l.row == c.row
      && (|| (l.disk == c.disk && l.ca == c.ca)
          || (l.disk.cur == c.disk.cur && l.disk.cross == None && l.ca == c.ca
              && (l.disk.prev == c.disk.prev || l.disk.prev == Some(c.disk.cur)))
          || (l.disk == Disk(next, Some(c.disk.cur), Some(Cross(c.disk.cur.fp, next.fp)))
              && l.ca == next && l.trust == [next, c.ca]))
  {
  }

  /** A start goes through exactly when none of its steps fails, and dies only where one dies. */
  lemma LaunchFailsExactly(c: Ctl, now: int, next: Root, f: Faults)
    ensures
      var out := Launch(c, now, next, f).out;
      && (out == Done <==> NewKey !in f && WriteCross !in f && WritePrev !in f && SaveKeys !in f && SaveRow !in f)
      && ((forall op :: op in f ==> f[op].Fail?) ==> out != Crashed)
      && ((forall op :: op in f ==> f[op].Crash?) ==> out != Failed)
      && out != Refused
  {
  }

  // ---- what holds a step back ----

  /** An advance that cannot announce the new root, write its audit or read the nodes drops
      nothing. */
  lemma AdvanceHeldBack(c: Ctl, now: int, first: bool, f: Faults)
    requires Announce in f || (first && AuditPush in f) || ReadNodes in f
    ensures Advance(c, now, first, f).ctl == c && Advance(c, now, first, f).out != Done
  {
  }

  /** Nothing is started, advanced or finished over a mend that failed. */
  lemma NothingWithoutMend(c: Ctl, now: int, next: Root, mend: Faults, again: Faults, f: Faults)
    requires Reconcile(c, now, mend).out != Done
    ensures Start(c, now, next, mend, f) == Reconcile(c, now, mend)
    ensures Tick(c, now, next, mend, again, f) == Reconcile(c, now, mend)
    ensures Force(c, now, mend, f) == Reconcile(c, now, mend)
  {
  }

  /** A forced finish that cannot mark some worker left behind keeps both roots. */
  lemma ForceHeldBack(c: Ctl, now: int, f: Faults, id: Id)
    requires Distinct(c.nodes) && Reconcile(c, now, NO_FAULTS) == Reply(c, Done) && RollingOver(c.row)
    requires c.row.currentFP == Some(c.disk.cur.fp) && LeftBehind(c, id, c.disk.cur.fp, now) && MarkNode(id) in f
    ensures
      var r := Force(c, now, NO_FAULTS, f);
      r.out != Done && r.ctl.disk == c.disk && r.ctl.trust == c.trust && r.ctl.row == c.row
  {
    var ids := Stragglers(c.nodes, c.certs, c.row.currentFP, 0, now);
    StragglersAreLeftBehind(c, c.disk.cur.fp, now, id);
    CutOffStopsAt(c, ids, f, id);
    CutOffEffect(c, ids, f);
  }

  lemma {:induction false} CutOffStopsAt(c: Ctl, ids: seq<Id>, f: Faults, id: Id)
    requires id in ids && MarkNode(id) in f
    ensures CutOff(c, ids, f).out != Done
  {
    var most, last := ids[..|ids| - 1], ids[|ids| - 1];
    assert ids == most + [last];
    if id in most {
      CutOffStopsAt(c, most, f, id);
    }
  }

  lemma StampStays(c: Ctl, now: int, next: Root, mend: Faults, f: Faults, first: bool)
    ensures Reconcile(c, now, mend).ctl.row.brokeGlassAt == c.row.brokeGlassAt
    ensures Start(c, now, next, mend, f).ctl.row.brokeGlassAt == c.row.brokeGlassAt
    ensures Advance(c, now, first, f).ctl.row.brokeGlassAt == c.row.brokeGlassAt
    ensures Finish(c, now, f).ctl.row.brokeGlassAt == c.row.brokeGlassAt
  {
  }

  lemma TickKeepsStamp(c: Ctl, now: int, next: Root, mend: Faults, again: Faults, f: Faults)
    ensures Tick(c, now, next, mend, again, f).ctl.row.brokeGlassAt == c.row.brokeGlassAt
  {
    var m := Reconcile(c, now, mend).ctl;
    StampStays(c, now, next, mend, f, false);
    StampStays(m, now, next, again, f, false);
    StampStays(Start(m, now, next, again, f).ctl, now, next, again, f, true);
  }

  lemma {:induction false} CutOffKeepsRow(c: Ctl, ids: seq<Id>, f: Faults)
    ensures CutOff(c, ids, f).ctl.row == c.row
  {
    if ids != [] {
      CutOffKeepsRow(c, ids[..|ids| - 1], f);
    }
  }

  lemma ForceKeepsStamp(c: Ctl, now: int, mend: Faults, f: Faults)
    ensures Force(c, now, mend, f).ctl.row.brokeGlassAt == c.row.brokeGlassAt
  {
    StampStays(c, now, c.ca, mend, f, false);
    var m := Reconcile(c, now, mend).ctl;
    var ids := Stragglers(m.nodes, m.certs, m.row.currentFP, 0, now);
    CutOffKeepsRow(m, ids, f);
    StampStays(CutOff(m, ids, f).ctl, now, c.ca, mend, f, false);
  }

  /** When break glass last ran is forgotten by nothing but break glass. */
  lemma StampKept(s: Sys, e: Event, now: int)
    requires Enabled(s, e, now) && !e.BreakingGlass?
    ensures Next(s, e, now).ctl.row.brokeGlassAt == s.ctl.row.brokeGlassAt
  {
    match e
    case Rotate(next, mend, f) => StampStays(s.ctl, now, next, mend, f, false);
    case Advancing(first, f) => StampStays(s.ctl, now, s.ctl.ca, f, f, first);
    case Ticking(next, mend, again, f) => TickKeepsStamp(s.ctl, now, next, mend, again, f);
    case Forcing(mend, f) => ForceKeepsStamp(s.ctl, now, mend, f);
    case Mending(mend) => StampStays(s.ctl, now, s.ctl.ca, mend, mend, false);
    case _ =>
  }

  // ---- break glass ----

  /** What break glass makes of one node: a worker that never joined goes, every other worker
      needs a rejoin, and the rest stay. */
  predicate CutTo(m: Node, n: Node) {
    if m.role != WorkerRole then n == m else !(m.status == Pending && !m.placed) && n == m.(status := NeedsRejoin)
  }

  lemma {:induction false} CutWorkersExactly(nodes: seq<Node>, n: Node)
    ensures n in CutWorkers(nodes) <==> exists m :: m in nodes && CutTo(m, n)
  {
    if nodes != [] {
      var front, last := nodes[..|nodes| - 1], nodes[|nodes| - 1];
      CutWorkersExactly(front, n);
      assert nodes == front + [last];
      LastCut(nodes, n);
      SomeCut(front, last, n);
    }
  }

  lemma SomeCut(front: seq<Node>, last: Node, n: Node)
    ensures (exists m :: m in front + [last] && CutTo(m, n)) <==>
      (exists m :: m in front && CutTo(m, n)) || CutTo(last, n)
  {
    assert last in front + [last];
    if m :| m in front && CutTo(m, n) {
      assert m in front + [last];
    }
  }

  lemma LastCut(nodes: seq<Node>, n: Node)
    requires nodes != []
    ensures n in CutWorkers(nodes) <==> n in CutWorkers(nodes[..|nodes| - 1]) || CutTo(nodes[|nodes| - 1], n)
  {
  }

  /** The node with this id is a worker that joined, now or before. */
  predicate WasWorker(c: Ctl, id: Id) {
    exists m :: m in c.nodes && m.role == WorkerRole && m.id == id && (m.status != Pending || m.placed)
  }

  /** Break glass leaves one new root and nobody on the old one, unless it ran within the last
      ten minutes. */
  lemma BreakGlassEnds(c: Ctl, now: int, next: Root)
    ensures
      var r := BreakGlass(c, now, next);
      if c.row.brokeGlassAt.Some? && now - c.row.brokeGlassAt.value < 600_000_000_000 then r == Reply(c, Refused)
      else
        && r.out == Done && OneRoot(r.ctl, next)
        && r.ctl.row.brokeGlassAt == Some(now) && r.ctl.row.currentFP == Some(next.fp) && |r.ctl.certs| == |c.certs|
        && (forall n :: n in r.ctl.nodes <==> exists m :: m in c.nodes && CutTo(m, n))
        && (forall k :: 0 <= k < |c.certs| ==>
              r.ctl.certs[k] == if WasWorker(c, c.certs[k].node) then c.certs[k].(revoked := true) else c.certs[k])
  {
    forall n ensures n in CutWorkers(c.nodes) <==> exists m :: m in c.nodes && CutTo(m, n) {
      CutWorkersExactly(c.nodes, n);
    }
    forall id ensures IsCutWorker(c.nodes, id) <==> WasWorker(c, id) {
      if m :| m in c.nodes && m.role == WorkerRole && m.id == id && (m.status != Pending || m.placed) {
        var i :| 0 <= i < |c.nodes| && c.nodes[i] == m;
      }
    }
  }

  /** The same step by step: undisturbed it is that, and it is refused for no other reason. */
  lemma BreakGlassStepByStep(c: Ctl, now: int, next: Root, f: Faults)
    ensures BreakGlassSteps(c, now, next, NO_FAULTS) == BreakGlass(c, now, next)
    ensures BreakGlassSteps(c, now, next, f).out == Refused <==>
      ReadRow !in f && c.row.brokeGlassAt.Some? && now - c.row.brokeGlassAt.value < 600_000_000_000
    ensures BreakGlassSteps(c, now, next, f).out == Done ==>
      BreakGlassSteps(c, now, next, f) == BreakGlass(c, now, next)
  {
  }

  // ---- a join ----

  /** A confirmed join: the worker is in and keeps its place, its old certs are dead, and a cert
      from the root on disk is on its way. Nobody else is touched. */
  lemma JoinConfirmed(s: Sys, id: Id, now: int)
    requires Enabled(s, Confirming(id), now)
    ensures
      var c, t := s.ctl, Next(s, Confirming(id), now);
      && |t.ctl.nodes| == |c.nodes| && |t.ctl.certs| == |c.certs| + 1
      && (forall n :: 0 <= n < |c.nodes| ==>
            t.ctl.nodes[n] == if c.nodes[n].id == id then c.nodes[n].(status := Joined, placed := true) else c.nodes[n])
      && (forall k :: 0 <= k < |c.certs| ==>
            t.ctl.certs[k] == if c.certs[k].node == id then c.certs[k].(revoked := true) else c.certs[k])
      && t.ctl.certs[|c.certs|] == CertRow(id, c.disk.cur.fp, Some(c.disk.cur.fp), now, now + 90 * DAY, false)
      && t.answer == s.answer[id := |c.certs|] && t.held == s.held && t.ctl.disk == c.disk && t.ctl.row == c.row
  {
  }

  // ---- renewal outside a rollover ----

  /** A confirmed worker has this id. */
  predicate HasWorker(c: Ctl, id: Id) {
    exists n :: 0 <= n < |c.nodes| && c.nodes[n].id == id && c.nodes[n].role == WorkerRole && c.nodes[n].status == Joined
  }

  /** The worker's own cert row: live, from the one root there is, and that root in time. */
  predicate GoodCert(c: Ctl, id: Id, k: nat, now: int) {
    && k < |c.certs| && c.certs[k].node == id && !c.certs[k].revoked && c.certs[k].signer == c.disk.cur.fp
    && now <= c.certs[k].notAfter
    && c.disk.cur.notBefore <= now <= c.disk.cur.notAfter
    && HasWorker(c, id)
  }

  /** While one root is trusted a running controller answers a confirmed worker's ask exactly
      in the last third of its cert's 90 days and one hour, with a cert for 90 days more. */
  lemma RenewedInLastThird(r: Run, i: nat, id: Id, k: nat)
    requires IsRun(r) && i < |r.events| && r.events[i] == Asking(id, true) && r.states[i].up
    requires id in r.states[i].held && r.states[i].held[id] == k && GoodCert(r.states[i].ctl, id, k, r.times[i])
    requires |r.states[i].ctl.trust| == 1
    ensures
      var c, t, now := r.states[i].ctl, r.states[i + 1].ctl, r.times[i];
      if 3 * (c.certs[k].notAfter - now) <= 90 * DAY + HOUR then
        && t.certs == c.certs + [CertRow(id, c.disk.cur.fp, Some(c.disk.cur.fp), now, now + 90 * DAY, false)]
        && id in r.states[i + 1].answer && r.states[i + 1].answer[id] == |c.certs|
      else t.certs == c.certs
  {
    var c, now := r.states[i].ctl, r.times[i];
    assert StepAt(r, i);
    RunInv(r, i);
    FoundWorker(c, id);
    assert Roots(c)[0] == c.disk.cur;
    assert Vouched(Roots(c), c.disk.cur.fp, now);
  }

  lemma FoundWorker(c: Ctl, id: Id)
    requires Distinct(c.nodes)
    requires HasWorker(c, id)
    ensures var found := FindNode(c.nodes, id); found.Some? && Confirmed(found.value)
  {
    var n :| 0 <= n < |c.nodes| && c.nodes[n].id == id && c.nodes[n].role == WorkerRole && c.nodes[n].status == Joined;
    var found := FindNode(c.nodes, id);
    var m :| 0 <= m < |c.nodes| && c.nodes[m] == found.value;
    assert m == n;
  }

  /** Exactly which asks are answered, whatever the cert: one a trusted root in time signed,
      itself sound and not revoked, in its last third or, in a rollover, from another root than
      the one signing now, and of a worker that is confirmed. */
  lemma AnsweredExactly(c: Ctl, leaf: Leaf, now: int)
    requires Distinct(c.nodes) && c.trust != [] && leaf.notBefore <= leaf.notAfter
    ensures
      AnswersLeaf(c, leaf, now) <==>
        && (exists i :: 0 <= i < |c.trust| && c.trust[i].fp == leaf.issuer
              && c.trust[i].notBefore <= now + HOUR && now - HOUR <= c.trust[i].notAfter)
        && !leaf.isCA && leaf.units == [WorkerRole] && leaf.clientAuth && leaf.serverAuth
        && leaf.notBefore <= now + HOUR && now - HOUR <= leaf.notAfter
        && !(leaf.serial < |c.certs| && c.certs[leaf.serial].revoked)
        && (3 * (leaf.notAfter - now) <= leaf.notAfter - leaf.notBefore || (|c.trust| > 1 && leaf.issuer != c.ca.fp))
        && HasWorker(c, leaf.commonName)
  {
    if HasWorker(c, leaf.commonName) {
      FoundWorker(c, leaf.commonName);
    }
    var found := FindNode(c.nodes, leaf.commonName);
    if found.Some? && Confirmed(found.value) {
      var n :| 0 <= n < |c.nodes| && c.nodes[n] == found.value;
    }
  }
}
