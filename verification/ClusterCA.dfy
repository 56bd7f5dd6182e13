/** The cluster's private CA: roots and node certs as records, the trust check,
    and the three key files a rollover moves. A fingerprint names one root; times
    are nanoseconds. */
module ClusterCA {
  import opened Outcomes

  type Fp = nat
  type Id = string

  const HOUR: int := 3_600_000_000_000
  const CLOCK_SLACK: int := HOUR
  const NODE_LIFETIME: int := 90 * 24 * HOUR

  datatype Role = ControllerRole | WorkerRole

  datatype Root = Root(fp: Fp, notBefore: int, notAfter: int)

  /** What the trust check reads of a leaf cert. */
  datatype Leaf = Leaf(
    serial: nat, commonName: Id, units: seq<Role>, issuer: Fp, notBefore: int, notAfter: int,
    isCA: bool, clientAuth: bool, serverAuth: bool)

  datatype Peer = Peer(role: Role, node: Id, serial: nat, issuer: Fp, due: bool)

  datatype VerifyError =
    | NoCertificate | NotSigned | RootOutOfTime | LeafIsCA | LeafOutOfTime | NotForTls
    | NoSingleRole | WrongRole | WrongNode

  /** Inside the validity window, with CLOCK_SLACK either side. */
  predicate InTime(notBefore: int, notAfter: int, now: int) {
    notBefore <= now + CLOCK_SLACK && now - CLOCK_SLACK <= notAfter
  }

  /** A third, rounded toward zero as Go's division does. */
  function Third(d: int): int {
    if d >= 0 then d / 3 else -(-d / 3)
  }

  predicate NeedsRenewal(leaf: Leaf, now: int) {
    leaf.notAfter - now <= Third(leaf.notAfter - leaf.notBefore)
  }

  /** One of the roots signed the leaf and is itself in time. */
  predicate Vouched(roots: seq<Root>, issuer: Fp, now: int) {
    exists i :: 0 <= i < |roots| && roots[i].fp == issuer && InTime(roots[i].notBefore, roots[i].notAfter, now)
  }

  predicate Accepted(roots: seq<Root>, leaf: Leaf, role: Role, node: Id, now: int) {
    && Vouched(roots, leaf.issuer, now)
    && !leaf.isCA
    && InTime(leaf.notBefore, leaf.notAfter, now)
    && leaf.clientAuth && leaf.serverAuth
    && leaf.units == [role]
    && (node == "" || (role == WorkerRole && leaf.commonName == node) )
  }

  /** The trust check: the leaf is accepted exactly when a listed root in time signed it
      and the leaf itself is sound; the peer is then who the cert names, and is due in the last
      third of the cert's window. Times may be off by an hour. */
  method Verify(roots: seq<Root>, chain: seq<Leaf>, role: Role, node: Id, now: int)
    returns (r: Result<Peer, VerifyError>)
    ensures r.Ok? <==> chain != [] && Accepted(roots, chain[0], role, node, now)
    ensures r.Ok? <==>
      && chain != []
      && (exists i :: 0 <= i < |roots| && roots[i].fp == chain[0].issuer
            && roots[i].notBefore <= now + HOUR && now - HOUR <= roots[i].notAfter)
      && !chain[0].isCA && chain[0].notBefore <= now + HOUR && now - HOUR <= chain[0].notAfter
      && chain[0].clientAuth && chain[0].serverAuth && |chain[0].units| == 1 && chain[0].units[0] == role
      && (node == "" || (role == WorkerRole && chain[0].commonName == node))
    ensures r.Ok? && chain[0].notBefore <= chain[0].notAfter ==>
      (r.value.due <==> 3 * (chain[0].notAfter - now) <= chain[0].notAfter - chain[0].notBefore)
    ensures r.Ok? ==>
      var leaf := chain[0];
      var name := if role == WorkerRole then leaf.commonName else "";
      r.value == Peer(role, name, leaf.serial, leaf.issuer, NeedsRenewal(leaf, now))
    ensures chain != [] && r == Err(RootOutOfTime) ==>
      exists i :: 0 <= i < |roots| && roots[i].fp == chain[0].issuer && !InTime(roots[i].notBefore, roots[i].notAfter, now)
    ensures chain != [] && r == Err(NotSigned) ==> forall i :: 0 <= i < |roots| ==> roots[i].fp != chain[0].issuer
  {
    if chain == [] {
      return Err(NoCertificate);
    }
    var leaf := chain[0];
    var ca: Option<Root> := None;
    var late := false;
    var i := 0;
    while i < |roots| && ca == None
      invariant 0 <= i <= |roots|
      invariant ca == None ==> forall j :: 0 <= j < i && roots[j].fp == leaf.issuer ==>
        !InTime(roots[j].notBefore, roots[j].notAfter, now)
      invariant ca == None ==> (late <==> exists j :: 0 <= j < i && roots[j].fp == leaf.issuer)
      invariant ca.Some? ==> ca.value.fp == leaf.issuer && Vouched(roots, leaf.issuer, now)
      decreases |roots| - i, if ca == None then 1 else 0
    {
      if roots[i].fp == leaf.issuer {
        if InTime(roots[i].notBefore, roots[i].notAfter, now) {
          ca := Some(roots[i]);
        } else {
          late := true;
        }
      }
      i := i + 1;
    }
    if ca == None {
      return Err(if late then RootOutOfTime else NotSigned);
    }
    if leaf.isCA {
      return Err(LeafIsCA);
    }
    if !InTime(leaf.notBefore, leaf.notAfter, now) {
      return Err(LeafOutOfTime);
    }
    if !leaf.clientAuth || !leaf.serverAuth {
      return Err(NotForTls);
    }
    if |leaf.units| != 1 {
      return Err(NoSingleRole);
    }
    if leaf.units[0] != role {
      return Err(WrongRole);
    }
    var id := if role == WorkerRole then leaf.commonName else "";
    if node != "" && id != node {
      return Err(WrongNode);
    }
    return Ok(Peer(role, id, leaf.serial, ca.value.fp, NeedsRenewal(leaf, now)));
  }

  /** The new root signed by the old one, kept for the length of a rollover. */
  datatype Cross = Cross(signer: Fp, subject: Fp)

  /** The key files: the current root, the previous one (cert only) and the cross cert. */
  datatype Disk = Disk(cur: Root, prev: Option<Root>, cross: Option<Cross>)

  /** The trust list a boot reads: the current root, then the previous one. */
  function TrustRoots(d: Disk): seq<Root> {
    match d.prev
    case Some(p) => [d.cur, p]
    case None => [d.cur]
  }

  /** A previous root that is not the current one: the mark of a rollover on disk. */
  predicate Rotated(d: Disk) {
    d.prev.Some? && d.prev.value.fp != d.cur.fp
  }
}
