/** The controller with its workers as a transition system: any operation may fail or
    the controller may die at any effect, answers to renewals get lost, and time moves
    with every event. The invariant proved here is what keeps every worker reachable. */
module Cluster {
  import opened Outcomes
  import opened ClusterCA
  import opened Rollover

  /** `held` is the cert a worker presents, `answer` the one on its way to it. */
  datatype Sys = Sys(ctl: Ctl, up: bool, held: map<Id, nat>, answer: map<Id, nat>, clock: int)

  datatype Event =
    | Rotate(next: Root, mend: Faults, f: Faults)
    | Advancing(first: bool, f: Faults)
    | Ticking(next: Root, mend: Faults, again: Faults, f: Faults)
    | Forcing(mend: Faults, f: Faults)
    | BreakingGlass(next: Root)
    | Mending(mend: Faults)
    | Dying
    | Booting
    | Asking(id: Id, saved: bool)
    | Delivering(id: Id)
    | Losing(id: Id)
    | Joining(id: Id)
    | Rejoining(id: Id)
    | Requesting(id: Id)
    | Rejecting(id: Id)
    | Confirming(id: Id)
    | Forgetting(id: Id)

  /** A new root's fingerprint names no root in use and no cert's signer. */
  predicate FreshRoot(c: Ctl, r: Root) {
    && r.fp != c.disk.cur.fp
    && (c.disk.prev.Some? ==> r.fp != c.disk.prev.value.fp)
    && forall i :: 0 <= i < |c.certs| ==> c.certs[i].signer != r.fp
  }

  predicate Enabled(s: Sys, e: Event, now: int) {
    && now > s.clock
    && match e
       case Rotate(next, _, _) => s.up && FreshRoot(s.ctl, next)
       case Ticking(next, _, _, _) => s.up && FreshRoot(s.ctl, next)
       case BreakingGlass(next) => s.up && FreshRoot(s.ctl, next)
       case Advancing(_, _) => s.up && RollingOver(s.ctl.row) && Rotated(s.ctl.disk)
       case Forcing(_, _) => s.up
       case Mending(_) => s.up
       case Dying => s.up
       case Booting => !s.up
       case Asking(id, _) => id in s.held
       case Delivering(id) => id in s.answer
       case Losing(id) => id in s.answer
       case Joining(id) => s.up && id != "" && FindNode(s.ctl.nodes, id) == None
       case Rejoining(id) => s.up && HasStatus(s.ctl, id, Joined)
       case Requesting(id) => s.up && HasStatus(s.ctl, id, NeedsRejoin)
       case Rejecting(id) => s.up && HasStatus(s.ctl, id, Pending)
       case Confirming(id) => s.up && HasStatus(s.ctl, id, Pending)
       case Forgetting(id) => s.up && FindNode(s.ctl.nodes, id).Some? && FindNode(s.ctl.nodes, id).value.role == WorkerRole
  }

  predicate HasStatus(c: Ctl, id: Id, st: Status) {
    var n := FindNode(c.nodes, id);
    n.Some? && n.value.role == WorkerRole && n.value.status == st
  }

  function WithoutNode(nodes: seq<Node>, id: Id): seq<Node> {
    if nodes == [] then []
    else
      var n := nodes[|nodes| - 1];
      WithoutNode(nodes[..|nodes| - 1], id) + if n.id == id then [] else [n]
  }

  function Took(s: Sys, r: Reply, now: int): Sys {
    s.(ctl := r.ctl, up := r.out != Crashed, clock := now)
  }

  /** Whether an ask reaches a running controller and is answered. */
  predicate Answered(s: Sys, id: Id, saved: bool, now: int) {
    s.up && saved && id in s.held && Answers(s.ctl, id, s.held[id], now)
  }

  function Next(s: Sys, e: Event, now: int): Sys
    requires Enabled(s, e, now)
  {
    match e
    case Rotate(next, mend, f) => Took(s, Start(s.ctl, now, next, mend, f), now)
    case Advancing(first, f) => Took(s, Advance(s.ctl, now, first, f), now)
    case Ticking(next, mend, again, f) => Took(s, Tick(s.ctl, now, next, mend, again, f), now)
    case Forcing(mend, f) => Took(s, Force(s.ctl, now, mend, f), now)
    case BreakingGlass(next) => Took(s, BreakGlass(s.ctl, now, next), now)
    case Mending(mend) => Took(s, Reconcile(s.ctl, now, mend), now)
    case Dying => s.(up := false, clock := now)
    case Booting => s.(ctl := Boot(s.ctl), up := true, clock := now)
    case Asking(id, saved) =>
      if Answered(s, id, saved, now) then
        s.(ctl := Renew(s.ctl, id, now), answer := s.answer[id := |s.ctl.certs|], clock := now)
      else s.(clock := now)
    case Delivering(id) => s.(held := s.held[id := s.answer[id]], answer := s.answer - {id}, clock := now)
    case Losing(id) => s.(answer := s.answer - {id}, clock := now)
    case Joining(id) => s.(ctl := s.ctl.(nodes := s.ctl.nodes + [Node(id, WorkerRole, Pending, false)]), clock := now)
    case Rejoining(id) => s.(ctl := s.ctl.(nodes := SetStatus(s.ctl.nodes, id, NeedsRejoin)), clock := now)
    case Requesting(id) => s.(ctl := s.ctl.(nodes := SetStatus(s.ctl.nodes, id, Pending)), clock := now)
    case Rejecting(id) =>
      if FindNode(s.ctl.nodes, id).value.placed
      then s.(ctl := s.ctl.(nodes := SetStatus(s.ctl.nodes, id, NeedsRejoin)), clock := now)
      else s.(ctl := s.ctl.(nodes := WithoutNode(s.ctl.nodes, id)), clock := now)
    case Confirming(id) =>
      s.(ctl := ConfirmJoin(s.ctl, id, now), answer := s.answer[id := |s.ctl.certs|], clock := now)
    case Forgetting(id) =>
      s.(ctl := s.ctl.(nodes := WithoutNode(s.ctl.nodes, id), certs := RevokeNode(s.ctl.certs, id)), clock := now)
  }

  // ---- what holds in every reachable state ----

  predicate FilesOk(d: Disk) {
    && (d.prev.Some? && d.prev.value.fp == d.cur.fp ==> d.prev.value == d.cur)
    && (Rotated(d) ==> d.cross == Some(Cross(d.prev.value.fp, d.cur.fp)))
  }

  predicate StampsOk(r: Row, clock: int) {
    && (r.startedAt.Some? ==> r.startedAt.value <= clock)
    && (r.finishedAt.Some? ==> r.finishedAt.value <= clock)
  }

  /** A rollover is recorded exactly while a previous fingerprint is, and where both the
      row and the files name a previous root they name the same two roots. */
  predicate RowOk(r: Row, d: Disk) {
    && (RollingOver(r) <==> r.previousFP.Some?)
    && (RollingOver(r) ==> r.currentFP == Some(d.cur.fp) && r.previousFP != r.currentFP)
    && (RollingOver(r) && d.prev.Some? ==> r.previousFP == Some(d.prev.value.fp))
    && (!RollingOver(r) && r.currentFP.Some? ==>
          r.currentFP.value == if Rotated(d) then d.prev.value.fp else d.cur.fp)
  }

  predicate MemoryOk(c: Ctl) {
    && c.ca == c.disk.cur
    && 1 <= |c.trust| <= 2 && c.trust[0] == c.disk.cur
    && (Rotated(c.disk) ==> c.trust == TrustRoots(c.disk))
    && (c.disk.prev == None && !RollingOver(c.row) ==> c.trust == [c.disk.cur])
  }

  predicate CertsOk(certs: seq<CertRow>, clock: int) {
    && (forall i :: 0 <= i < |certs| ==> certs[i].created <= clock)
    && (forall i :: 0 <= i < |certs| ==> certs[i].notAfter == certs[i].created + NODE_LIFETIME)
    && (forall i :: 0 <= i < |certs| ==> certs[i].recorded.Some? ==> certs[i].recorded.value == certs[i].signer)
    && (forall i, j :: 0 <= i < j < |certs| ==> certs[i].created <= certs[j].created)
  }

  predicate Distinct(nodes: seq<Node>) {
    && (forall i, j :: 0 <= i < j < |nodes| ==> nodes[i].id != nodes[j].id)
    && (forall i :: 0 <= i < |nodes| ==> nodes[i].role == WorkerRole ==> nodes[i].id != "")
  }

  /** The cert was signed by a root that is still on disk. */
  predicate OnDisk(d: Disk, signer: Fp) {
    signer == d.cur.fp || (d.prev.Some? && signer == d.prev.value.fp)
  }

  predicate Served(n: Node, certs: seq<CertRow>, d: Disk, clock: int) {
    Confirmed(n) ==>
    match Newest(certs, n.id)
    case None => true
    case Some(i) => Expired(certs[i], clock) || OnDisk(d, certs[i].signer)
  }

  predicate AllServed(nodes: seq<Node>, certs: seq<CertRow>, d: Disk, clock: int) {
    forall i :: 0 <= i < |nodes| ==> Served(nodes[i], certs, d, clock)
  }

  predicate PaperOk(d: Disk, r: Row, clock: int) {
    FilesOk(d) && StampsOk(r, clock) && RowOk(r, d)
  }

  predicate PeopleOk(nodes: seq<Node>, certs: seq<CertRow>, d: Disk, clock: int) {
    CertsOk(certs, clock) && Distinct(nodes) && AllServed(nodes, certs, d, clock)
  }

  predicate HoldingsOk(s: Sys) {
    && (forall id :: id in s.held ==> s.held[id] < |s.ctl.certs| && s.ctl.certs[s.held[id]].node == id)
    && (forall id :: id in s.answer ==> s.answer[id] < |s.ctl.certs| && s.ctl.certs[s.answer[id]].node == id)
  }

  predicate CtlOk(c: Ctl, up: bool, clock: int) {
    && PaperOk(c.disk, c.row, clock)
    && PeopleOk(c.nodes, c.certs, c.disk, clock)
    && (up ==> MemoryOk(c))
  }

  predicate Inv(s: Sys) {
    CtlOk(s.ctl, s.up, s.clock) && HoldingsOk(s)
  }

  // ---- operation by operation: files, row and memory ----

  /** The row and the files agree, and memory trusts exactly the roots on disk. */
  predicate Clean(c: Ctl) {
    && (RollingOver(c.row) <==> Rotated(c.disk))
    && (c.disk.prev.Some? ==> Rotated(c.disk))
    && (RollingOver(c.row) ==> c.row.currentFP == Some(c.disk.cur.fp) && c.row.previousFP == Some(c.disk.prev.value.fp))
    && (!RollingOver(c.row) ==> c.row.previousFP == None && (c.row.currentFP.Some? ==> c.row.currentFP.value == c.disk.cur.fp))
    && c.trust == TrustRoots(c.disk)
  }

  predicate Alive(r: Reply) { r.out != Crashed }

  predicate PaperKept(c: Ctl, r: Reply, now: int) {
    && PaperOk(r.ctl.disk, r.ctl.row, now)
    && (Alive(r) ==> MemoryOk(r.ctl))
    && r.ctl.nodes == c.nodes && r.ctl.certs == c.certs
  }

  lemma ReconcilePaper(c: Ctl, clock: int, now: int, f: Faults)
    requires PaperOk(c.disk, c.row, clock) && MemoryOk(c) && (clock < now || (clock == now && Clean(c)))
    ensures var r := Reconcile(c, now, f);
      && PaperKept(c, r, now)
      && (r.out == Done ==> Clean(r.ctl))
      && r.ctl.disk.cur == c.disk.cur
      && (Rotated(c.disk) ==> r.ctl.disk == c.disk)
      && (r.ctl.disk.prev.Some? ==> r.ctl.disk.prev == c.disk.prev)
  {
  }

  lemma LaunchPaper(c: Ctl, now: int, next: Root, f: Faults)
    requires PaperOk(c.disk, c.row, now) && MemoryOk(c) && Clean(c) && !RollingOver(c.row) && FreshRoot(c, next)
    ensures var r := Launch(c, now, next, f);
      && PaperKept(c, r, now)
      && (r.out == Done ==> Clean(r.ctl) && Rotated(r.ctl.disk))
      && OnDisk(r.ctl.disk, c.disk.cur.fp)
  {
  }

  lemma FinishPaper(c: Ctl, now: int, f: Faults)
    requires PaperOk(c.disk, c.row, now) && MemoryOk(c) && RollingOver(c.row)
    ensures var r := Finish(c, now, f);
      && PaperKept(c, r, now)
      && r.ctl.disk.cur == c.disk.cur
      && (r.out == Done ==> Clean(r.ctl) && r.ctl.disk.prev == None)
      && (r.ctl.disk.prev.Some? ==> r.ctl.disk == c.disk)
  {
  }

  // ---- operation by operation: the workers ----

  /** Nobody's newest cert loses its root when every root that was on disk stays there. */
  lemma PeopleCarry(nodes: seq<Node>, certs: seq<CertRow>, d: Disk, e: Disk, clock: int, now: int)
    requires PeopleOk(nodes, certs, d, clock) && clock <= now
    requires OnDisk(e, d.cur.fp) && (d.prev.Some? ==> OnDisk(e, d.prev.value.fp))
    ensures PeopleOk(nodes, certs, e, now)
  {
    forall i | 0 <= i < |nodes| ensures Served(nodes[i], certs, e, now) {
      assert Served(nodes[i], certs, d, clock);
    }
  }

  /** No confirmed worker's newest live cert is from another root than the current one. */
  predicate Moved(n: Node, certs: seq<CertRow>, cur: Fp, now: int) {
    Confirmed(n) ==>
    match Newest(certs, n.id)
    case None => true
    case Some(k) => Expired(certs[k], now) || certs[k].signer == cur
  }

  lemma NonStragglerMoved(c: Ctl, settle: int, now: int, i: nat)
    requires CertsOk(c.certs, now) && Distinct(c.nodes) && c.row.currentFP == Some(c.disk.cur.fp)
    requires i < |c.nodes| && !Straggles(c.nodes[i], c.certs, c.row.currentFP, settle, now)
    ensures Moved(c.nodes[i], c.certs, c.disk.cur.fp, now)
  {
    var k := Newest(c.certs, c.nodes[i].id);
    if k.Some? {
      var row := c.certs[k.value];
      assert row.recorded.Some? ==> row.recorded.value == row.signer;
    }
  }

  lemma AllMovedServed(nodes: seq<Node>, certs: seq<CertRow>, d: Disk, now: int)
    requires CertsOk(certs, now) && Distinct(nodes)
    requires forall i :: 0 <= i < |nodes| ==> Moved(nodes[i], certs, d.cur.fp, now)
    ensures PeopleOk(nodes, certs, d, now)
  {
    forall i | 0 <= i < |nodes| ensures Served(nodes[i], certs, d, now) {
      assert Moved(nodes[i], certs, d.cur.fp, now);
    }
  }

  lemma AdvanceKeeps(c: Ctl, now: int, first: bool, f: Faults)
    requires CtlOk(c, true, now) && RollingOver(c.row)
    ensures var r := Advance(c, now, first, f); CtlOk(r.ctl, Alive(r), now)
  {
    FinishPaper(c, now, f);
    if Stragglers(c.nodes, c.certs, c.row.currentFP, SETTLE, now) == [] {
      forall i | 0 <= i < |c.nodes| ensures Moved(c.nodes[i], c.certs, c.disk.cur.fp, now) {
        NonStragglerMoved(c, SETTLE, now, i);
      }
      AllMovedServed(c.nodes, c.certs, Finish(c, now, f).ctl.disk, now);
    }
  }

  lemma StartKeeps(c: Ctl, clock: int, now: int, next: Root, mend: Faults, f: Faults)
    requires CtlOk(c, true, clock) && (clock < now || (clock == now && Clean(c))) && FreshRoot(c, next)
    ensures var r := Start(c, now, next, mend, f);
      && CtlOk(r.ctl, Alive(r), now)
      && (r.out == Done ==> RollingOver(r.ctl.row))
  {
    ReconcileKeeps(c, clock, now, next, mend);
    var m := Reconcile(c, now, mend);
    if m.out == Done && !RollingOver(m.ctl.row) {
      LaunchPaper(m.ctl, now, next, f);
      PeopleCarry(m.ctl.nodes, m.ctl.certs, m.ctl.disk, Launch(m.ctl, now, next, f).ctl.disk, now, now);
    }
  }

  lemma ReconcileKeeps(c: Ctl, clock: int, now: int, next: Root, f: Faults)
    requires CtlOk(c, true, clock) && (clock < now || (clock == now && Clean(c)))
    ensures var r := Reconcile(c, now, f);
      && CtlOk(r.ctl, Alive(r), now)
      && (r.out == Done ==> Clean(r.ctl))
      && (FreshRoot(c, next) ==> FreshRoot(r.ctl, next))
  {
    ReconcilePaper(c, clock, now, f);
    PeopleCarry(c.nodes, c.certs, c.disk, Reconcile(c, now, f).ctl.disk, clock, now);
  }

  lemma TickKeeps(c: Ctl, clock: int, now: int, next: Root, mend: Faults, again: Faults, f: Faults)
    requires CtlOk(c, true, clock) && clock < now && FreshRoot(c, next)
    ensures var r := Tick(c, now, next, mend, again, f); CtlOk(r.ctl, Alive(r), now)
  {
    ReconcileKeeps(c, clock, now, next, mend);
    var m := Reconcile(c, now, mend);
    if m.out == Done {
      if RollingOver(m.ctl.row) {
        AdvanceKeeps(m.ctl, now, false, f);
      } else if m.ctl.ca.notAfter - now < ROLLOVER_LEAD {
        StartKeeps(m.ctl, now, now, next, again, f);
        var s := Start(m.ctl, now, next, again, f);
        if s.out == Done {
          AdvanceKeeps(s.ctl, now, true, f);
        }
      }
    }
  }

  // ---- the forced finish ----

  /** The same rows, some of them revoked since. */
  predicate SameRows(a: seq<CertRow>, b: seq<CertRow>) {
    |a| == |b| && forall k :: 0 <= k < |a| ==> b[k] == a[k].(revoked := b[k].revoked) && (a[k].revoked ==> b[k].revoked)
  }

  /** A node is cut off, or neither it nor its newest cert has changed. */
  predicate CutOrKept(n: Node, m: Node, a: seq<CertRow>, b: seq<CertRow>) {
    && m == n.(status := m.status)
    && (m.status == NeedsRejoin || (m == n && Newest(b, n.id) == Newest(a, n.id)))
  }

  predicate CutFrom(c: Ctl, d: Ctl) {
    && d == c.(nodes := d.nodes, certs := d.certs)
    && SameRows(c.certs, d.certs)
    && |d.nodes| == |c.nodes|
    && forall i :: 0 <= i < |c.nodes| ==> CutOrKept(c.nodes[i], d.nodes[i], c.certs, d.certs)
  }

  lemma RevokedNewest(certs: seq<CertRow>, id: Id, other: Id)
    requires other != id
    ensures Newest(RevokeNode(certs, id), other) == Newest(certs, other)
  {
    var a, b := Newest(certs, other), Newest(RevokeNode(certs, id), other);
    assert a.Some? ==> !RevokeNode(certs, id)[a.value].revoked;
    assert b.Some? ==> !certs[b.value].revoked;
  }

  lemma {:induction false} CutOffEffect(c: Ctl, ids: seq<Id>, f: Faults)
    requires Distinct(c.nodes)
    ensures var r := CutOff(c, ids, f);
      && CutFrom(c, r.ctl)
      && (r.out == Done ==> forall i :: 0 <= i < |c.nodes| && c.nodes[i].id in ids ==> r.ctl.nodes[i].status == NeedsRejoin)
  {
    if ids != [] {
      var most, id := ids[..|ids| - 1], ids[|ids| - 1];
      CutOffEffect(c, most, f);
      var r, all := CutOff(c, most, f), CutOff(c, ids, f);
      assert ids == most + [id];
      if r.out == Done && MarkNode(id) !in f {
        forall i | 0 <= i < |c.nodes| ensures CutOrKept(c.nodes[i], all.ctl.nodes[i], c.certs, all.ctl.certs) {
          assert CutOrKept(c.nodes[i], r.ctl.nodes[i], c.certs, r.ctl.certs);
          if c.nodes[i].id != id {
            RevokedNewest(r.ctl.certs, id, c.nodes[i].id);
          }
        }
      }
    }
  }

  lemma CutFromOk(c: Ctl, d: Ctl, now: int)
    requires CtlOk(c, true, now) && CutFrom(c, d)
    ensures CtlOk(d, true, now)
  {
    forall i, j | 0 <= i < j < |d.nodes| ensures d.nodes[i].id != d.nodes[j].id {
      assert CutOrKept(c.nodes[i], d.nodes[i], c.certs, d.certs) && CutOrKept(c.nodes[j], d.nodes[j], c.certs, d.certs);
    }
    forall i | 0 <= i < |d.nodes|
      ensures Served(d.nodes[i], d.certs, d.disk, now) && (d.nodes[i].role == WorkerRole ==> d.nodes[i].id != "")
    {
      assert CutOrKept(c.nodes[i], d.nodes[i], c.certs, d.certs);
      assert Served(c.nodes[i], c.certs, c.disk, now);
    }
    RowsOk(c.certs, d.certs, now);
  }

  lemma RowsOk(a: seq<CertRow>, b: seq<CertRow>, now: int)
    requires CertsOk(a, now) && SameRows(a, b)
    ensures CertsOk(b, now)
  {
  }

  /** After the forced finish's loop nobody is left on the old root. */
  lemma CutOffMoves(c: Ctl, now: int, f: Faults, i: nat)
    requires CtlOk(c, true, now) && RollingOver(c.row) && i < |c.nodes|
    requires CutOff(c, Stragglers(c.nodes, c.certs, c.row.currentFP, 0, now), f).out == Done
    ensures
      var d := CutOff(c, Stragglers(c.nodes, c.certs, c.row.currentFP, 0, now), f).ctl;
      |d.nodes| == |c.nodes| && Moved(d.nodes[i], d.certs, d.disk.cur.fp, now)
  {
    var ids := Stragglers(c.nodes, c.certs, c.row.currentFP, 0, now);
    CutOffEffect(c, ids, f);
    var d := CutOff(c, ids, f).ctl;
    assert CutOrKept(c.nodes[i], d.nodes[i], c.certs, d.certs);
    if c.nodes[i].id !in ids {
      NonStragglerMoved(c, 0, now, i);
    }
  }

  lemma ForceKeeps(c: Ctl, clock: int, now: int, mend: Faults, f: Faults)
    requires CtlOk(c, true, clock) && clock < now
    ensures var r := Force(c, now, mend, f); CtlOk(r.ctl, Alive(r), now)
  {
    ReconcileKeeps(c, clock, now, c.ca, mend);
    var m := Reconcile(c, now, mend);
    if m.out == Done && RollingOver(m.ctl.row) && ReadNodes !in f {
      var ids := Stragglers(m.ctl.nodes, m.ctl.certs, m.ctl.row.currentFP, 0, now);
      CutOffEffect(m.ctl, ids, f);
      var cut := CutOff(m.ctl, ids, f);
      CutFromOk(m.ctl, cut.ctl, now);
      if cut.out == Done {
        FinishPaper(cut.ctl, now, f);
        forall i | 0 <= i < |cut.ctl.nodes| ensures Moved(cut.ctl.nodes[i], cut.ctl.certs, cut.ctl.disk.cur.fp, now) {
          CutOffMoves(m.ctl, now, f, i);
        }
        AllMovedServed(cut.ctl.nodes, cut.ctl.certs, Finish(cut.ctl, now, f).ctl.disk, now);
      }
    }
  }

  // ---- break glass, joins and renewals ----

  lemma CutWorkersDistinct(nodes: seq<Node>)
    requires Distinct(nodes)
    ensures Distinct(CutWorkers(nodes))
  {
    if nodes != [] {
      var most := nodes[..|nodes| - 1];
      CutWorkersDistinct(most);
      assert forall m :: m in most ==> m.id != nodes[|nodes| - 1].id;
    }
  }

  lemma BreakGlassKeeps(c: Ctl, clock: int, now: int, next: Root)
    requires CtlOk(c, true, clock) && clock < now
    ensures CtlOk(BreakGlass(c, now, next).ctl, true, now)
  {
    var r := BreakGlass(c, now, next);
    if r.out == Done {
      CutWorkersDistinct(c.nodes);
      RowsOk(c.certs, r.ctl.certs, now);
      forall i | 0 <= i < |r.ctl.nodes| ensures Served(r.ctl.nodes[i], r.ctl.certs, r.ctl.disk, now) {
        assert r.ctl.nodes[i] in r.ctl.nodes;
      }
    } else {
      PeopleCarry(c.nodes, c.certs, c.disk, c.disk, clock, now);
    }
  }

  /** Break glass that stops halfway leaves row, nodes and certs alone, and the files as they
      were or with the new root current. Run again, after a restart or not, it gives what it
      would have given had it never been tried, and with that a state that is sound. */
  lemma RunAgainFinishes(c: Ctl, clock: int, now: int, next: Root, f: Faults, later: int, again: Root)
    requires CtlOk(c, true, clock) && clock < now < later
    ensures
      var half := BreakGlassSteps(c, now, next, f);
      var r := half.ctl;
      half.out == Failed || half.out == Crashed ==>
        && r.row == c.row && r.nodes == c.nodes && r.certs == c.certs && (r.disk == c.disk || r.disk.cur == next)
        && (r.ca != c.ca || r.trust != c.trust ==> r.disk == Disk(next, None, None) && r.ca == next && r.trust == [next])
        && (TooSoon(c.row, later) ==> BreakGlass(r, later, again).out == Refused)
        && (!TooSoon(c.row, later) ==>
              && BreakGlass(r, later, again) == BreakGlass(Boot(r), later, again) == BreakGlass(c, later, again)
              && CtlOk(BreakGlass(r, later, again).ctl, true, later))
  {
    BreakGlassKeeps(c, clock, later, again);
  }

  lemma AppendNewest(certs: seq<CertRow>, row: CertRow, id: Id)
    requires !row.revoked
    ensures Newest(certs + [row], id) == if row.node == id then Some(|certs|) else Newest(certs, id)
  {
    assert (certs + [row])[..|certs|] == certs;
  }

  lemma RenewKeeps(c: Ctl, up: bool, clock: int, now: int, id: Id)
    requires CtlOk(c, up, clock) && clock < now && c.ca == c.disk.cur
    ensures CtlOk(Renew(c, id, now), up, now)
  {
    var d := Renew(c, id, now);
    forall i | 0 <= i < |d.nodes| ensures Served(d.nodes[i], d.certs, d.disk, now) {
      AppendNewest(c.certs, Issue(id, c.ca, now), d.nodes[i].id);
      assert Served(c.nodes[i], c.certs, c.disk, clock);
    }
  }

  lemma ConfirmKeeps(c: Ctl, up: bool, clock: int, now: int, id: Id)
    requires CtlOk(c, up, clock) && clock < now
    ensures CtlOk(ConfirmJoin(c, id, now), up, now)
  {
    var d := ConfirmJoin(c, id, now);
    var cut := RevokeNode(c.certs, id);
    RowsOk(c.certs, cut, clock);
    forall i | 0 <= i < |d.nodes| ensures Served(d.nodes[i], d.certs, d.disk, now) {
      AppendNewest(cut, Issue(id, c.disk.cur, now), d.nodes[i].id);
      assert Served(c.nodes[i], c.certs, c.disk, clock);
      if d.nodes[i].id != id {
        RevokedNewest(c.certs, id, d.nodes[i].id);
      }
    }
  }

  /** A node leaves confirmed standing, or keeps its status. */
  lemma StatusKeeps(c: Ctl, up: bool, clock: int, now: int, id: Id, st: Status)
    requires CtlOk(c, up, clock) && clock < now && st != Joined
    ensures CtlOk(c.(nodes := SetStatus(c.nodes, id, st)), up, now)
  {
    PeopleCarry(c.nodes, c.certs, c.disk, c.disk, clock, now);
    var ns := SetStatus(c.nodes, id, st);
    forall i | 0 <= i < |ns| ensures Served(ns[i], c.certs, c.disk, now) {
      assert Served(c.nodes[i], c.certs, c.disk, now);
    }
  }

  lemma {:induction false} WithoutNodeHas(nodes: seq<Node>, id: Id)
    ensures forall n :: n in WithoutNode(nodes, id) <==> n in nodes && n.id != id
  {
    if nodes != [] {
      var front, n := nodes[..|nodes| - 1], nodes[|nodes| - 1];
      WithoutNodeHas(front, id);
      assert nodes == front + [n];
    }
  }

  lemma {:induction false} WithoutNodeOk(nodes: seq<Node>, id: Id)
    requires Distinct(nodes)
    ensures Distinct(WithoutNode(nodes, id))
    ensures forall n :: n in WithoutNode(nodes, id) <==> n in nodes && n.id != id
  {
    WithoutNodeHas(nodes, id);
    if nodes != [] {
      var front, n := nodes[..|nodes| - 1], nodes[|nodes| - 1];
      DistinctFront(nodes);
      WithoutNodeOk(front, id);
      if n.id != id {
        DistinctMore(WithoutNode(front, id), n);
      }
    }
  }

  lemma DistinctFront(nodes: seq<Node>)
    requires nodes != [] && Distinct(nodes)
    ensures
      var front, last := nodes[..|nodes| - 1], nodes[|nodes| - 1];
      Distinct(front) && forall m :: m in front ==> m.id != last.id
  {
  }

  lemma DistinctMore(nodes: seq<Node>, n: Node)
    requires Distinct(nodes) && (n.role == WorkerRole ==> n.id != "") && forall m :: m in nodes ==> m.id != n.id
    ensures Distinct(nodes + [n])
  {
    forall i | 0 <= i < |nodes| ensures nodes[i].id != n.id {
      assert nodes[i] in nodes;
    }
  }

  lemma ForgetKeeps(c: Ctl, up: bool, clock: int, now: int, id: Id, revoke: bool)
    requires CtlOk(c, up, clock) && clock < now
    ensures CtlOk(c.(nodes := WithoutNode(c.nodes, id), certs := if revoke then RevokeNode(c.certs, id) else c.certs), up, now)
  {
    PeopleCarry(c.nodes, c.certs, c.disk, c.disk, clock, now);
    WithoutNodeOk(c.nodes, id);
    var ns, cs := WithoutNode(c.nodes, id), if revoke then RevokeNode(c.certs, id) else c.certs;
    RowsOk(c.certs, cs, now);
    forall i | 0 <= i < |ns| ensures Served(ns[i], cs, c.disk, now) {
      assert ns[i] in c.nodes && ns[i] in ns;
      var k :| 0 <= k < |c.nodes| && c.nodes[k] == ns[i];
      assert Served(c.nodes[k], c.certs, c.disk, now);
      RevokedNewest(c.certs, id, ns[i].id);
    }
  }

  lemma JoinKeeps(c: Ctl, up: bool, clock: int, now: int, id: Id)
    requires CtlOk(c, up, clock) && clock < now && id != "" && FindNode(c.nodes, id) == None
    ensures CtlOk(c.(nodes := c.nodes + [Node(id, WorkerRole, Pending, false)]), up, now)
  {
    PeopleCarry(c.nodes, c.certs, c.disk, c.disk, clock, now);
    var ns := c.nodes + [Node(id, WorkerRole, Pending, false)];
    forall i | 0 <= i < |ns| ensures Served(ns[i], c.certs, c.disk, now) {
      if i < |c.nodes| {
        assert Served(c.nodes[i], c.certs, c.disk, now);
      }
    }
  }

  lemma RestKeeps(c: Ctl, up: bool, clock: int, now: int)
    requires CtlOk(c, up, clock) && clock < now
    ensures CtlOk(c, up, now) && CtlOk(c, false, now) && CtlOk(Boot(c), true, now)
  {
    PeopleCarry(c.nodes, c.certs, c.disk, c.disk, clock, now);
  }

  /** Cert rows are only ever appended or revoked. */
  predicate Grown(a: seq<CertRow>, b: seq<CertRow>) {
    |a| <= |b| && SameRows(a, b[..|a|])
  }

  lemma CtlKeeps(s: Sys, e: Event, now: int)
    requires Inv(s) && Enabled(s, e, now)
    ensures var t := Next(s, e, now); CtlOk(t.ctl, t.up, t.clock)
  {
    RestKeeps(s.ctl, s.up, s.clock, now);
    match e
    case Rotate(next, mend, f) => StartKeeps(s.ctl, s.clock, now, next, mend, f);
    case Advancing(first, f) => AdvanceKeeps(s.ctl, now, first, f);
    case Ticking(next, mend, again, f) => TickKeeps(s.ctl, s.clock, now, next, mend, again, f);
    case Forcing(mend, f) => ForceKeeps(s.ctl, s.clock, now, mend, f);
    case BreakingGlass(next) => BreakGlassKeeps(s.ctl, s.clock, now, next);
    case Mending(mend) => ReconcileKeeps(s.ctl, s.clock, now, s.ctl.ca, mend);
    case Dying =>
    case Booting =>
    case Asking(id, saved) =>
      if Answered(s, id, saved, now) {
        RenewKeeps(s.ctl, s.up, s.clock, now, id);
      }
    case Delivering(id) =>
    case Losing(id) =>
    case Joining(id) => JoinKeeps(s.ctl, s.up, s.clock, now, id);
    case Rejoining(id) => StatusKeeps(s.ctl, s.up, s.clock, now, id, NeedsRejoin);
    case Requesting(id) => StatusKeeps(s.ctl, s.up, s.clock, now, id, Pending);
    case Rejecting(id) =>
      StatusKeeps(s.ctl, s.up, s.clock, now, id, NeedsRejoin);
      ForgetKeeps(s.ctl, s.up, s.clock, now, id, false);
    case Confirming(id) => ConfirmKeeps(s.ctl, s.up, s.clock, now, id);
    case Forgetting(id) => ForgetKeeps(s.ctl, s.up, s.clock, now, id, true);
  }
}
