/** What each rollover operation does to the controller: key files, the cluster_ca row,
    the signing root and trust list in memory, the node rows and the cert rows. Any
    effect on disk or in the database may fail, or the controller may die just before
    it; `Faults` says which. */
module Rollover {
  import opened Outcomes
  import opened ClusterCA

  const SETTLE: int := 6 * HOUR
  const ROLLOVER_LEAD: int := 365 * 24 * HOUR
  const BREAK_GLASS_GAP: int := HOUR / 6

  datatype Status = Pending | NeedsRejoin | Joined

  /** `placed`: the node was confirmed before and keeps its transit address. */
  datatype Node = Node(id: Id, role: Role, status: Status, placed: bool)

  /** A row of node_certs; its index is the serial. `signer` is the root that signed the
      cert, `recorded` the issuer column (empty for certs from before rollovers). */
  datatype CertRow = CertRow(
    node: Id, signer: Fp, recorded: Option<Fp>, created: int, notAfter: int, revoked: bool)

  /** The one row of cluster_ca. */
  datatype Row = Row(
    currentFP: Option<Fp>, previousFP: Option<Fp>, startedAt: Option<int>, finishedAt: Option<int>, brokeGlassAt: Option<int>)

  predicate RollingOver(r: Row) {
    r.startedAt.Some? && (r.finishedAt == None || r.finishedAt.value < r.startedAt.value)
  }

  datatype Ctl = Ctl(disk: Disk, row: Row, ca: Root, trust: seq<Root>, nodes: seq<Node>, certs: seq<CertRow>)

  datatype Op =
    | ReadRow | ReadPrev | NewKey | WriteCross | WritePrev | SaveKeys | DropPrev | DropCross | ForgetPrev | OwnCert
    | SaveRow | Announce | AuditPush | ReadNodes | MarkNode(id: Id)

  datatype Trouble = Fail | Crash

  type Faults = map<Op, Trouble>

  datatype Outcome = Done | Refused | Failed | Crashed

  datatype Reply = Reply(ctl: Ctl, out: Outcome)

  function Stopped(f: Faults, op: Op): Outcome
    requires op in f
  {
    if f[op].Crash? then Crashed else Failed
  }

  predicate CrashAt(f: Faults, op: Op) { op in f && f[op].Crash? }

  // ---- nodes and certs ----

  predicate Confirmed(n: Node) { n.role == WorkerRole && n.status == Joined }

  /** The node's last unrevoked cert row. */
  function Newest(certs: seq<CertRow>, id: Id): (r: Option<nat>)
    ensures r.Some? ==> r.value < |certs| && certs[r.value].node == id && !certs[r.value].revoked
    ensures forall j :: (if r.Some? then r.value + 1 else 0) <= j < |certs| ==> certs[j].node != id || certs[j].revoked
  {
    if certs == [] then None
    else
      var last := |certs| - 1;
      if certs[last].node == id && !certs[last].revoked then Some(last) else Newest(certs[..last], id)
  }

  predicate Expired(c: CertRow, now: int) { c.notAfter < now - CLOCK_SLACK }

  /** A confirmed worker that holds the old root up: its newest live cert has not run out
      and is not from `cur`, or is younger than `settle`. */
  predicate Straggles(n: Node, certs: seq<CertRow>, cur: Option<Fp>, settle: int, now: int) {
    Confirmed(n) && n.id != "" &&
    match Newest(certs, n.id)
    case None => false
    case Some(i) =>
      !Expired(certs[i], now) && (certs[i].recorded != cur || now - certs[i].created < settle)
  }

  function Stragglers(nodes: seq<Node>, certs: seq<CertRow>, cur: Option<Fp>, settle: int, now: int): (r: seq<Id>)
    ensures forall i :: 0 <= i < |nodes| && Straggles(nodes[i], certs, cur, settle, now) ==> nodes[i].id in r
    ensures forall id :: id in r ==>
      exists i :: 0 <= i < |nodes| && nodes[i].id == id && Straggles(nodes[i], certs, cur, settle, now)
  {
    if nodes == [] then []
    else
      var n := nodes[|nodes| - 1];
      Stragglers(nodes[..|nodes| - 1], certs, cur, settle, now)
      + if Straggles(n, certs, cur, settle, now) then [n.id] else []
  }

  function SetStatus(nodes: seq<Node>, id: Id, st: Status): (r: seq<Node>)
    ensures |r| == |nodes|
    ensures forall i :: 0 <= i < |r| ==> r[i] == if nodes[i].id == id then nodes[i].(status := st) else nodes[i]
  {
    seq(|nodes|, i requires 0 <= i < |nodes| => if nodes[i].id == id then nodes[i].(status := st) else nodes[i])
  }

  function RevokeNode(certs: seq<CertRow>, id: Id): (r: seq<CertRow>)
    ensures |r| == |certs|
    ensures forall i :: 0 <= i < |r| ==> r[i] == if certs[i].node == id then certs[i].(revoked := true) else certs[i]
  {
    seq(|certs|, i requires 0 <= i < |certs| => if certs[i].node == id then certs[i].(revoked := true) else certs[i])
  }

  function Issue(id: Id, root: Root, now: int): CertRow {
    CertRow(id, root.fp, Some(root.fp), now, now + NODE_LIFETIME, false)
  }

  // ---- the operations ----

  /** The row mended against the key files, which are the truth. */
  function Reconcile(c: Ctl, now: int, f: Faults): Reply {
    if ReadRow in f then Reply(c, Stopped(f, ReadRow))
    else if ReadPrev in f then Reply(c, Stopped(f, ReadPrev))
    else match c.disk.prev
      case Some(p) =>
        if p.fp == c.ca.fp then
          if DropPrev in f then Reply(c, Stopped(f, DropPrev))
          else
            var c1 := c.(disk := c.disk.(prev := None));
            if CrashAt(f, DropCross) then Reply(c1, Crashed)
            else Reply(WithoutCross(c1, f).(trust := [c.ca]), Done)
        else if !RollingOver(c.row) then
          Saved(c.(trust := [c.ca, p]),
                c.row.(currentFP := Some(c.ca.fp), previousFP := Some(p.fp), startedAt := Some(now)), f)
        else Reply(c, Done)
      case None =>
        if RollingOver(c.row) then
          if CrashAt(f, DropCross) then Reply(c, Crashed)
          else if CrashAt(f, ForgetPrev) then Reply(WithoutCross(c, f), Crashed)
          else Saved(WithoutCross(c, f).(trust := [c.ca]), c.row.(previousFP := None, finishedAt := Some(now)), f)
        else Reply(c, Done)
  }

  /** A cross cert removal whose failure nobody looks at. */
  function WithoutCross(c: Ctl, f: Faults): Ctl {
    if DropCross in f then c else c.(disk := c.disk.(cross := None))
  }

  function Saved(c: Ctl, row: Row, f: Faults): Reply {
    if SaveRow in f then Reply(c, Stopped(f, SaveRow)) else Reply(c.(row := row), Done)
  }

  /** A planned rollover begins: the row is mended, a running one refuses another. */
  function Start(c: Ctl, now: int, next: Root, mend: Faults, f: Faults): Reply {
    var r := Reconcile(c, now, mend);
    if r.out != Done then r
    else if RollingOver(r.ctl.row) then Reply(r.ctl, Refused)
    else Launch(r.ctl, now, next, f)
  }

  /** Cross cert, previous root, new root, memory, row: in that order. */
  function Launch(c: Ctl, now: int, next: Root, f: Faults): Reply {
    if NewKey in f then Reply(c, Stopped(f, NewKey))
    else if WriteCross in f then Reply(c, Stopped(f, WriteCross))
    else
      var c1 := c.(disk := c.disk.(cross := Some(Cross(c.ca.fp, next.fp))));
      if WritePrev in f then Abandon(c1, f, WritePrev)
      else
        var c2 := c1.(disk := c1.disk.(prev := Some(c1.disk.cur)));
        if SaveKeys in f then Abandon(c2, f, SaveKeys)
        else
          var c3 := c2.(disk := c2.disk.(cur := next), ca := next, trust := [next, c.ca]);
          Saved(c3, Row(Some(next.fp), Some(c.ca.fp), Some(now), None, c.row.brokeGlassAt), f)
  }

  /** A rotation of the key files that stopped: on an error the cross cert goes again. */
  function Abandon(c: Ctl, f: Faults, op: Op): Reply
    requires op in f
  {
    if f[op].Crash? || CrashAt(f, DropCross) then Reply(c, Crashed) else Reply(WithoutCross(c, f), Failed)
  }

  /** The steps that are safe to repeat, then the finish once no straggler is left. */
  function Advance(c: Ctl, now: int, first: bool, f: Faults): Reply {
    if Announce in f then Reply(c, Stopped(f, Announce))
    else if first && AuditPush in f then Reply(c, Stopped(f, AuditPush))
    else if ReadNodes in f then Reply(c, Stopped(f, ReadNodes))
    else if Stragglers(c.nodes, c.certs, c.row.currentFP, SETTLE, now) != [] then Reply(c, Done)
    else Finish(c, now, f)
  }

  /** The old root goes: from disk first, then from the trust list, then from the row. */
  function Finish(c: Ctl, now: int, f: Faults): Reply {
    if DropPrev in f then Reply(c, Stopped(f, DropPrev))
    else
      var c1 := c.(disk := c.disk.(prev := None));
      if DropCross in f then Reply(c1, Stopped(f, DropCross))
      else
        var c2 := c1.(disk := c1.disk.(cross := None));
        if ForgetPrev in f then Reply(c2, Stopped(f, ForgetPrev))
        else Saved(c2.(trust := [c.ca]), c.row.(previousFP := None, finishedAt := Some(now)), f)
  }

  /** Stragglers cut off one transaction each, in order, until one fails. */
  function CutOff(c: Ctl, ids: seq<Id>, f: Faults): Reply {
    if ids == [] then Reply(c, Done)
    else
      var r := CutOff(c, ids[..|ids| - 1], f);
      var id := ids[|ids| - 1];
      if r.out != Done then r
      else if MarkNode(id) in f then Reply(r.ctl, Stopped(f, MarkNode(id)))
      else Reply(r.ctl.(nodes := SetStatus(r.ctl.nodes, id, NeedsRejoin), certs := RevokeNode(r.ctl.certs, id)), Done)
  }

  /** An admin drops the old root now; workers still on it are cut off first. */
  function Force(c: Ctl, now: int, mend: Faults, f: Faults): Reply {
    var r := Reconcile(c, now, mend);
    if r.out != Done then r
    else if !RollingOver(r.ctl.row) then Reply(r.ctl, Refused)
    else if ReadNodes in f then Reply(r.ctl, Stopped(f, ReadNodes))
    else
      var cut := CutOff(r.ctl, Stragglers(r.ctl.nodes, r.ctl.certs, r.ctl.row.currentFP, 0, now), f);
      if cut.out != Done then cut else Finish(cut.ctl, now, f)
  }

  /** The daily check: a running rollover is advanced, else one starts when the root
      has under a year left. */
  function Tick(c: Ctl, now: int, next: Root, mend: Faults, again: Faults, f: Faults): Reply {
    var r := Reconcile(c, now, mend);
    if r.out != Done then r
    else if RollingOver(r.ctl.row) then Advance(r.ctl, now, false, f)
    else if r.ctl.ca.notAfter - now < ROLLOVER_LEAD then
      var s := Start(r.ctl, now, next, again, f);
      if s.out != Done then s else Advance(s.ctl, now, true, f)
    else r
  }

  predicate TooSoon(row: Row, now: int) {
    row.brokeGlassAt.Some? && now - row.brokeGlassAt.value < BREAK_GLASS_GAP
  }

  /** The same with its steps failing: files first, then memory, and one transaction at last. */
  function BreakGlassSteps(c: Ctl, now: int, next: Root, f: Faults): Reply {
    if ReadRow in f then Reply(c, Stopped(f, ReadRow))
    else if TooSoon(c.row, now) then Reply(c, Refused)
    else if NewKey in f then Reply(c, Stopped(f, NewKey))
    else if SaveKeys in f then Reply(c, Stopped(f, SaveKeys))
    else
      var c1 := c.(disk := c.disk.(cur := next));
      if DropPrev in f then Reply(c1, Stopped(f, DropPrev))
      else
        var c2 := c1.(disk := c1.disk.(prev := None));
        if DropCross in f then Reply(c2, Stopped(f, DropCross))
        else
          var c3 := c2.(disk := c2.disk.(cross := None));
          if ForgetPrev in f then Reply(c3, Stopped(f, ForgetPrev))
          else if OwnCert in f then Reply(c3, Stopped(f, OwnCert))
          else if SaveRow in f then Reply(c3.(ca := next, trust := [next]), Stopped(f, SaveRow))
          else BreakGlass(c, now, next)
  }

  /** A new root with no overlap, every worker cut off. */
  function BreakGlass(c: Ctl, now: int, next: Root): Reply {
    if TooSoon(c.row, now) then Reply(c, Refused)
    else
      Reply(Ctl(Disk(next, None, None), Row(Some(next.fp), None, None, None, Some(now)), next, [next],
                CutWorkers(c.nodes), RevokeWorkers(c.certs, c.nodes)), Done)
  }

  /** Rejoins that wait are sent back, first-time joins deleted, every other worker is cut. */
  function CutWorkers(nodes: seq<Node>): (r: seq<Node>)
    ensures forall n :: n in r ==> !Confirmed(n)
    ensures forall n :: n in r ==> exists m :: m in nodes && m.id == n.id && m.role == n.role
  {
    if nodes == [] then []
    else
      var n := nodes[|nodes| - 1];
      CutWorkers(nodes[..|nodes| - 1]) +
      if n.role != WorkerRole then [n]
      else if FirstJoin(n) then []
      else [n.(status := NeedsRejoin)]
  }

  /** A worker that asked to join and was never confirmed. */
  predicate FirstJoin(n: Node) { n.status == Pending && !n.placed }

  function RevokeWorkers(certs: seq<CertRow>, nodes: seq<Node>): (r: seq<CertRow>)
    ensures |r| == |certs|
    ensures forall i :: 0 <= i < |r| ==>
      r[i] == if IsCutWorker(nodes, certs[i].node) then certs[i].(revoked := true) else certs[i]
  {
    seq(|certs|, i requires 0 <= i < |certs| =>
      if IsCutWorker(nodes, certs[i].node) then certs[i].(revoked := true) else certs[i])
  }

  predicate IsCutWorker(nodes: seq<Node>, id: Id) {
    exists i :: 0 <= i < |nodes| && nodes[i].id == id && nodes[i].role == WorkerRole && !FirstJoin(nodes[i])
  }

  /** The controller's live trust list. */
  function Roots(c: Ctl): seq<Root> {
    if c.trust == [] then [c.ca] else c.trust
  }

  function FindNode(nodes: seq<Node>, id: Id): (r: Option<Node>)
    ensures r.Some? ==> r.value in nodes && r.value.id == id
    ensures r == None ==> forall i :: 0 <= i < |nodes| ==> nodes[i].id != id
  {
    if nodes == [] then None
    else if nodes[0].id == id then Some(nodes[0])
    else FindNode(nodes[1..], id)
  }

  function LeafOf(c: Ctl, serial: nat): Leaf
    requires serial < |c.certs|
  {
    var r := c.certs[serial];
    Leaf(serial, r.node, [WorkerRole], r.signer, r.created - CLOCK_SLACK, r.notAfter, false, true, true)
  }

  /** A peer may ask when its cert is in its last third or, with two roots trusted, was
      issued by another root than the one signing now. */
  predicate RenewDue(c: Ctl, leaf: Leaf, now: int) {
    NeedsRenewal(leaf, now) || (|Roots(c)| > 1 && leaf.issuer != c.ca.fp)
  }

  /** A cert without a row was never revoked. */
  predicate Revoked(c: Ctl, serial: nat) { serial < |c.certs| && c.certs[serial].revoked }

  /** Whether a renewal ask with this cert is answered at all. */
  predicate AnswersLeaf(c: Ctl, leaf: Leaf, now: int) {
    && Accepted(Roots(c), leaf, WorkerRole, "", now)
    && !Revoked(c, leaf.serial)
    && RenewDue(c, leaf, now)
    && var n := FindNode(c.nodes, leaf.commonName);
       n.Some? && Confirmed(n.value)
  }

  /** The same with a worker's cert that has a row. */
  predicate Answers(c: Ctl, id: Id, serial: nat, now: int) {
    serial < |c.certs| && c.certs[serial].node == id && AnswersLeaf(c, LeafOf(c, serial), now)
  }

  /** The renewal's transaction: one cert row from the signing root. */
  function Renew(c: Ctl, id: Id, now: int): Ctl {
    c.(certs := c.certs + [Issue(id, c.ca, now)])
  }

  /** A confirmed join: the node's old certs are revoked and one from the root on disk issued. */
  function ConfirmJoin(c: Ctl, id: Id, now: int): Ctl {
    c.(nodes := Place(SetStatus(c.nodes, id, Joined), id), certs := RevokeNode(c.certs, id) + [Issue(id, c.disk.cur, now)])
  }

  function Place(nodes: seq<Node>, id: Id): (r: seq<Node>)
    ensures |r| == |nodes|
    ensures forall i :: 0 <= i < |r| ==> r[i] == if nodes[i].id == id then nodes[i].(placed := true) else nodes[i]
  {
    seq(|nodes|, i requires 0 <= i < |nodes| => if nodes[i].id == id then nodes[i].(placed := true) else nodes[i])
  }

  /** A restart: the signing root and the trust list are read back from disk. */
  function Boot(c: Ctl): Ctl {
    c.(ca := c.disk.cur, trust := TrustRoots(c.disk))
  }
}
