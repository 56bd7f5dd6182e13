/** The controller as it runs: key files, row, signing root, trust list and tables are
    fields that its methods change one effect at a time. Every method is proved to do
    exactly what `Rollover` says, fault by fault. */
module Controller {
  import opened Outcomes
  import opened ClusterCA
  import opened Rollover

  class Orchestrator {
    var disk: Disk
    var row: Row
    var ca: Root
    var trust: seq<Root>
    var nodes: seq<Node>
    var certs: seq<CertRow>

    ghost function View(): Ctl
      reads this
    {
      Ctl(disk, row, ca, trust, nodes, certs)
    }

    constructor (c: Ctl)
      ensures View() == c
    {
      disk, row, ca, trust, nodes, certs := c.disk, c.row, c.ca, c.trust, c.nodes, c.certs;
    }

    /** Drops the cross cert and ignores a failure; only a crash stops the caller. */
    method DropCrossQuietly(f: Faults)
      modifies this`disk
      ensures View() == WithoutCross(old(View()), f)
    {
      if DropCross !in f {
        disk := disk.(cross := None);
      }
    }

    method SaveRowTx(st: Row, f: Faults) returns (out: Outcome)
      modifies this`row
      ensures Reply(View(), out) == Saved(old(View()), st, f)
    {
      if SaveRow in f {
        return Stopped(f, SaveRow);
      }
      row := st;
      return Done;
    }

    method ReconcileRollover(now: int, f: Faults) returns (out: Outcome)
      modifies this
      ensures Reply(View(), out) == Reconcile(old(View()), now, f)
    {
      if ReadRow in f {
        return Stopped(f, ReadRow);
      }
      var st := row;
      if ReadPrev in f {
        return Stopped(f, ReadPrev);
      }
      var prev := disk.prev;
      if prev.Some? && prev.value.fp == ca.fp {
        if DropPrev in f {
          return Stopped(f, DropPrev);
        }
        disk := disk.(prev := None);
        if CrashAt(f, DropCross) {
          return Crashed;
        }
        DropCrossQuietly(f);
        trust := [ca];
        return Done;
      } else if prev.Some? && !RollingOver(st) {
        st := st.(currentFP := Some(ca.fp), previousFP := Some(prev.value.fp), startedAt := Some(now));
        trust := [ca, prev.value];
      } else if prev == None && RollingOver(st) {
        st := st.(previousFP := None, finishedAt := Some(now));
        if CrashAt(f, DropCross) {
          return Crashed;
        }
        DropCrossQuietly(f);
        if CrashAt(f, ForgetPrev) {
          return Crashed;
        }
        trust := [ca];
      } else {
        return Done;
      }
      out := SaveRowTx(st, f);
    }

    /** The files of a rotation: the previous cert first, then the new pair. */
    method RotateCA(next: Root, f: Faults) returns (failed: Option<Op>)
      modifies this`disk
      ensures failed.Some? ==> failed.value in f
      ensures disk ==
        if failed == Some(WritePrev) then old(disk)
        else if failed == Some(SaveKeys) then old(disk).(prev := Some(old(disk).cur))
        else old(disk).(prev := Some(old(disk).cur), cur := next)
      ensures failed == if WritePrev in f then Some(WritePrev) else if SaveKeys in f then Some(SaveKeys) else None
    {
      var cur := disk.cur;
      if WritePrev in f {
        return Some(WritePrev);
      }
      disk := disk.(prev := Some(cur));
      if SaveKeys in f {
        return Some(SaveKeys);
      }
      disk := disk.(cur := next);
      return None;
    }

    method StartRollover(now: int, next: Root, mend: Faults, f: Faults) returns (out: Outcome)
      modifies this
      ensures Reply(View(), out) == Start(old(View()), now, next, mend, f)
    {
      out := ReconcileRollover(now, mend);
      if out != Done {
        return;
      }
      if RollingOver(row) {
        return Refused;
      }
      if NewKey in f {
        return Stopped(f, NewKey);
      }
      var was := ca;
      if WriteCross in f {
        return Stopped(f, WriteCross);
      }
      disk := disk.(cross := Some(Cross(was.fp, next.fp)));
      var failed := RotateCA(next, f);
      if failed.Some? {
        if f[failed.value].Crash? || CrashAt(f, DropCross) {
          return Crashed;
        }
        DropCrossQuietly(f);
        return Failed;
      }
      ca, trust := next, [next, was];
      out := SaveRowTx(Row(Some(next.fp), Some(was.fp), Some(now), None, row.brokeGlassAt), f);
    }

    /** The confirmed workers still on another root, in list order. */
    method RootStragglers(cur: Option<Fp>, settle: int, now: int) returns (left: seq<Id>)
      ensures left == Stragglers(nodes, certs, cur, settle, now)
    {
      var newest := NewestByNode();
      left := [];
      var i := 0;
      while i < |nodes|
        invariant 0 <= i <= |nodes|
        invariant left == Stragglers(nodes[..i], certs, cur, settle, now)
      {
        assert nodes[..i + 1][..i] == nodes[..i];
        var n := nodes[i];
        assert Stragglers(nodes[..i + 1], certs, cur, settle, now)
          == left + if Straggles(n, certs, cur, settle, now) then [n.id] else [];
        if n.role == WorkerRole && n.status == Joined && n.id in newest && !Expired(certs[newest[n.id]], now) {
          var c := certs[newest[n.id]];
          if c.recorded != cur || now - c.created < settle {
            left := left + [n.id];
          }
        }
        i := i + 1;
      }
      assert nodes[..i] == nodes;
    }

    /** The newest live cert of every node, by its place in the list. */
    method NewestByNode() returns (newest: map<Id, nat>)
      ensures forall id :: id in newest <==> id != "" && Newest(certs, id).Some?
      ensures forall id :: id in newest ==> newest[id] < |certs| && Newest(certs, id) == Some(newest[id])
    {
      newest := map[];
      var i := 0;
      while i < |certs|
        invariant 0 <= i <= |certs|
        invariant forall id :: id in newest <==> id != "" && Newest(certs[..i], id).Some?
        invariant forall id :: id in newest ==> Newest(certs[..i], id) == Some(newest[id])
      {
        assert certs[..i + 1][..i] == certs[..i];
        if !certs[i].revoked && certs[i].node != "" {
          newest := newest[certs[i].node := i];
        }
        i := i + 1;
      }
      assert certs[..i] == certs;
    }

    method AdvanceRollover(now: int, first: bool, f: Faults) returns (out: Outcome)
      modifies this
      ensures Reply(View(), out) == Advance(old(View()), now, first, f)
    {
      if Announce in f {
        return Stopped(f, Announce);
      }
      if first && AuditPush in f {
        return Stopped(f, AuditPush);
      }
      if ReadNodes in f {
        return Stopped(f, ReadNodes);
      }
      var left := RootStragglers(row.currentFP, SETTLE, now);
      if |left| > 0 {
        return Done;
      }
      out := DropOldRoot(now, f);
    }

    /** finishRollover: disk first, then memory, then the row. */
    method DropOldRoot(now: int, f: Faults) returns (out: Outcome)
      modifies this
      ensures Reply(View(), out) == Finish(old(View()), now, f)
    {
      if DropPrev in f {
        return Stopped(f, DropPrev);
      }
      disk := disk.(prev := None);
      if DropCross in f {
        return Stopped(f, DropCross);
      }
      disk := disk.(cross := None);
      if ForgetPrev in f {
        return Stopped(f, ForgetPrev);
      }
      trust := [ca];
      out := SaveRowTx(row.(previousFP := None, finishedAt := Some(now)), f);
    }

    /** FinishRollover: stragglers are cut off, then the old root goes. */
    method FinishRollover(now: int, mend: Faults, f: Faults) returns (out: Outcome)
      modifies this
      ensures Reply(View(), out) == Force(old(View()), now, mend, f)
    {
      out := ReconcileRollover(now, mend);
      if out != Done {
        return;
      }
      if !RollingOver(row) {
        return Refused;
      }
      if ReadNodes in f {
        return Stopped(f, ReadNodes);
      }
      var left := RootStragglers(row.currentFP, 0, now);
      out := CutOffAll(left, f);
      if out == Done {
        out := DropOldRoot(now, f);
      }
    }

    /** Each worker left behind is marked and its certs revoked, up to the first failure. */
    method CutOffAll(left: seq<Id>, f: Faults) returns (out: Outcome)
      modifies this
      ensures Reply(View(), out) == CutOff(old(View()), left, f)
    {
      ghost var before := View();
      var i := 0;
      while i < |left|
        invariant 0 <= i <= |left|
        invariant CutOff(before, left[..i], f) == Reply(View(), Done)
      {
        assert left[..i + 1][..i] == left[..i];
        if MarkNode(left[i]) in f {
          CutOffStops(before, left, i + 1, f);
          return Stopped(f, MarkNode(left[i]));
        }
        nodes := SetStatus(nodes, left[i], NeedsRejoin);
        certs := RevokeNode(certs, left[i]);
        i := i + 1;
      }
      assert left[..i] == left;
      return Done;
    }

    method RootRolloverTick(now: int, next: Root, mend: Faults, again: Faults, f: Faults) returns (out: Outcome)
      modifies this
      ensures Reply(View(), out) == Tick(old(View()), now, next, mend, again, f)
    {
      out := ReconcileRollover(now, mend);
      if out != Done {
        return;
      }
      if RollingOver(row) {
        out := AdvanceRollover(now, false, f);
        return;
      }
      if ca.notAfter - now < ROLLOVER_LEAD {
        out := StartRollover(now, next, again, f);
        if out != Done {
          return;
        }
        out := AdvanceRollover(now, true, f);
        return;
      }
      return Done;
    }

    method BreakGlassNow(now: int, next: Root, f: Faults) returns (out: Outcome)
      modifies this
      ensures Reply(View(), out) == BreakGlassSteps(old(View()), now, next, f)
    {
      if ReadRow in f {
        return Stopped(f, ReadRow);
      }
      if row.brokeGlassAt.Some? && now - row.brokeGlassAt.value < BREAK_GLASS_GAP {
        return Refused;
      }
      if NewKey in f {
        return Stopped(f, NewKey);
      }
      if SaveKeys in f {
        return Stopped(f, SaveKeys);
      }
      disk := disk.(cur := next);
      if DropPrev in f {
        return Stopped(f, DropPrev);
      }
      disk := disk.(prev := None);
      if DropCross in f {
        return Stopped(f, DropCross);
      }
      disk := disk.(cross := None);
      if ForgetPrev in f {
        return Stopped(f, ForgetPrev);
      }
      if OwnCert in f {
        return Stopped(f, OwnCert);
      }
      ca, trust := next, [next];
      if SaveRow in f {
        return Stopped(f, SaveRow);
      }
      CutOffWorkers();
      row := Row(Some(next.fp), None, None, None, Some(now));
      return Done;
    }

    /** Break glass's transaction: every worker that ever joined is marked and its certs die. */
    method CutOffWorkers()
      modifies this
      ensures View() == old(View()).(nodes := CutWorkers(old(nodes)), certs := RevokeWorkers(old(certs), old(nodes)))
    {
      var kept: seq<Node> := [];
      var i := 0;
      RevokeNone(certs);
      while i < |nodes|
        invariant 0 <= i <= |nodes|
        invariant kept == CutWorkers(nodes[..i])
        invariant View() == old(View()).(certs := certs)
        invariant certs == RevokeWorkers(old(certs), nodes[..i])
      {
        assert nodes[..i + 1][..i] == nodes[..i];
        var n := nodes[i];
        RevokeOneMore(old(certs), nodes, i);
        if n.role != WorkerRole {
          kept := kept + [n];
        } else if !FirstJoin(n) {
          certs := RevokeNode(certs, n.id);
          kept := kept + [n.(status := NeedsRejoin)];
        }
        i := i + 1;
      }
      assert nodes[..i] == nodes;
      nodes := kept;
    }

    /** A renewal as the listener takes it: the presented cert is checked against the live
        trust list, must not be revoked and must be due; the answer is from the signing root,
        if its transaction is saved. */
    method RenewTunnel(chain: seq<Leaf>, now: int, saved: bool) returns (issued: Option<nat>)
      modifies this
      ensures issued.Some? <==> saved && chain != [] && AnswersLeaf(old(View()), chain[0], now)
      ensures issued.Some? ==> issued.value == old(|certs|) && View() == Renew(old(View()), chain[0].commonName, now)
      ensures issued == None ==> View() == old(View())
    {
      var roots := if trust == [] then [ca] else trust;
      var verified := Verify(roots, chain, WorkerRole, "", now);
      if verified.Err? {
        return None;
      }
      var peer := verified.value;
      if peer.serial < |certs| && certs[peer.serial].revoked {
        return None;
      }
      if !(peer.due || (|roots| > 1 && peer.issuer != ca.fp)) {
        return None;
      }
      var n := FindNode(nodes, peer.node);
      if n == None || n.value.role != WorkerRole || n.value.status != Joined {
        return None;
      }
      if !saved {
        return None;
      }
      issued := Some(|certs|);
      certs := certs + [Issue(peer.node, ca, now)];
    }

    method Restart()
      modifies this
      ensures View() == Boot(old(View()))
    {
      ca := disk.cur;
      trust := [disk.cur];
      if disk.prev.Some? {
        trust := trust + [disk.prev.value];
      }
    }
  }

  lemma RevokeNone(certs: seq<CertRow>)
    ensures RevokeWorkers(certs, []) == certs
  {
  }

  lemma RevokeOneMore(certs: seq<CertRow>, nodes: seq<Node>, i: nat)
    requires i < |nodes|
    ensures
      var most := RevokeWorkers(certs, nodes[..i]);
      RevokeWorkers(certs, nodes[..i + 1])
      == if nodes[i].role == WorkerRole && !FirstJoin(nodes[i]) then RevokeNode(most, nodes[i].id) else most
  {
    forall k | 0 <= k < |certs|
      ensures IsCutWorker(nodes[..i + 1], certs[k].node)
              <==> IsCutWorker(nodes[..i], certs[k].node)
                   || (nodes[i].id == certs[k].node && nodes[i].role == WorkerRole && !FirstJoin(nodes[i]))
    {
      assert forall j :: 0 <= j < i ==> nodes[..i][j] == nodes[..i + 1][j];
      assert nodes[..i + 1][i] == nodes[i];
    }
  }

  lemma {:induction false} CutOffStops(c: Ctl, ids: seq<Id>, k: nat, f: Faults)
    requires k <= |ids| && CutOff(c, ids[..k], f).out != Done
    ensures CutOff(c, ids, f) == CutOff(c, ids[..k], f)
  {
    if k < |ids| {
      assert ids[..|ids| - 1][..k] == ids[..k];
      CutOffStops(c, ids[..|ids| - 1], k, f);
    } else {
      assert ids[..k] == ids;
    }
  }
}
