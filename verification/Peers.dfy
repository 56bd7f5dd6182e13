/** Peer lists for WireGuard and what the lists of all nodes together do to a packet. */
module Peers {
  import opened Mesh

  type Addr = nat

  function Pow2(n: nat): (r: nat)
    ensures r > 0
  {
    if n == 0 then 1 else 2 * Pow2(n - 1)
  }

  datatype Prefix = Prefix(addr: Addr, bits: nat)

  /** IPv4 containment: the leading bits agree. */
  predicate Contains(p: Prefix, a: Addr) {
    p.bits <= 32 && a / Pow2(32 - p.bits) == p.addr / Pow2(32 - p.bits)
  }

  /** 10.207.255.0/24, the wg interface addresses. */
  const TRANSIT: Prefix := Prefix(((10 * 256 + 207) * 256 + 255) * 256, 24)

  datatype Node = Node(id: Id, publicKey: string, transit: Addr, subnets: seq<Prefix>)

  datatype Peer = Peer(node: Id, publicKey: string, allowed: seq<Prefix>)

  predicate DistinctIds(all: seq<Node>) {
    forall i, j :: 0 <= i < j < |all| ==> all[i].id != all[j].id
  }

  /** A node that takes part in the mesh: it has a key and a transit address. */
  predicate Usable(o: Node) { o.publicKey != "" && Contains(TRANSIT, o.transit) }

  predicate Eligible(self: Node, o: Node) { o.id != self.id && Usable(o) }

  function Own(o: Node): seq<Prefix> { o.subnets + [Prefix(o.transit, 32)] }

  /** Traffic for o leaves by another node's entry. */
  predicate Moved(self: Node, o: Node, next: (Id, Id) -> Id) {
    next(self.id, o.id) != "" && next(self.id, o.id) != o.id
  }

  /** What hop's entry carries for others: the prefixes of every node moved onto it, in list order. */
  function Carried(self: Node, all: seq<Node>, next: (Id, Id) -> Id, hop: Id): seq<Prefix> {
    if all == [] then []
    else
      var o := all[|all| - 1];
      Carried(self, all[..|all| - 1], next, hop)
      + if Eligible(self, o) && Moved(self, o, next) && next(self.id, o.id) == hop then Own(o) else []
  }

  function BaseEntry(self: Node, o: Node, next: (Id, Id) -> Id): Peer {
    Peer(o.id, o.publicKey, if Moved(self, o, next) then [] else Own(o))
  }

  /** The entries before anything moves: one per eligible node, in input order. */
  function Entries(self: Node, all: seq<Node>, next: (Id, Id) -> Id): (r: seq<Peer>)
    ensures |r| <= |all|
    ensures forall p :: p in r ==> exists o :: o in all && o.id == p.node && Eligible(self, o)
  {
    if all == [] then []
    else
      var o := all[|all| - 1];
      Entries(self, all[..|all| - 1], next) + if Eligible(self, o) then [BaseEntry(self, o, next)] else []
  }

  /** The finished list: each entry with what it carries for others appended. */
  function PeerList(self: Node, all: seq<Node>, next: (Id, Id) -> Id): (r: seq<Peer>)
    ensures |r| == |Entries(self, all, next)|
    ensures forall i :: 0 <= i < |r| ==> r[i] == WithCarried(self, all, next, Entries(self, all, next)[i])
  {
    var es := Entries(self, all, next);
    seq(|es|, i requires 0 <= i < |es| => WithCarried(self, all, next, es[i]))
  }

  function WithCarried(self: Node, all: seq<Node>, next: (Id, Id) -> Id, p: Peer): Peer {
    p.(allowed := p.allowed + Carried(self, all, next, p.node))
  }

  datatype Move = Move(hop: Id, prefixes: seq<Prefix>)

  /** The moves in the order they are noted. */
  function Moves(self: Node, all: seq<Node>, next: (Id, Id) -> Id): seq<Move> {
    if all == [] then []
    else
      var o := all[|all| - 1];
      Moves(self, all[..|all| - 1], next)
      + if Eligible(self, o) && Moved(self, o, next) then [Move(next(self.id, o.id), Own(o))] else []
  }

  function MovedTo(ms: seq<Move>, hop: Id): seq<Prefix> {
    if ms == [] then []
    else MovedTo(ms[..|ms| - 1], hop) + if ms[|ms| - 1].hop == hop then ms[|ms| - 1].prefixes else []
  }

  lemma {:induction false} MovesCarry(self: Node, all: seq<Node>, next: (Id, Id) -> Id, hop: Id)
    ensures MovedTo(Moves(self, all, next), hop) == Carried(self, all, next, hop)
  {
    if all != [] {
      var last := |all| - 1;
      MovesCarry(self, all[..last], next, hop);
      var ms := Moves(self, all[..last], next);
      if Eligible(self, all[last]) && Moved(self, all[last], next) {
        assert (ms + [Move(next(self.id, all[last].id), Own(all[last]))])[..|ms|] == ms;
      } else {
        assert ms + [] == ms;
      }
    }
  }

  predicate IndexOk(out: seq<Peer>, idx: map<Id, nat>) {
    && (forall id :: id in idx ==> idx[id] < |out| && out[idx[id]].node == id)
    && (forall i :: 0 <= i < |out| ==> out[i].node in idx && idx[out[i].node] == i)
  }

  /** The entries, their places by id, and the moves, in one pass over the nodes. */
  method Collect(self: Node, all: seq<Node>, next: (Id, Id) -> Id) returns (out: seq<Peer>, idx: map<Id, nat>, moves: seq<Move>)
    requires DistinctIds(all)
    ensures out == Entries(self, all, next) && moves == Moves(self, all, next) && IndexOk(out, idx)
  {
    out, idx, moves := [], map[], [];
    var i := 0;
    while i < |all|
      invariant 0 <= i <= |all|
      invariant out == Entries(self, all[..i], next) && moves == Moves(self, all[..i], next)
      invariant IndexOk(out, idx)
    {
      assert all[..i + 1][..i] == all[..i];
      var o := all[i];
      if Eligible(self, o) {
        NotEntered(self, all, next, i);
        var own, hop := Own(o), next(self.id, o.id);
        var p := Peer(o.id, o.publicKey, []);
        if hop != "" && hop != o.id {
          moves := moves + [Move(hop, own)];
        } else {
          p := p.(allowed := own);
        }
        IndexOne(out, idx, p);
        idx := idx[o.id := |out|];
        out := out + [p];
      }
      i := i + 1;
    }
    assert all[..i] == all;
  }

  lemma NotEntered(self: Node, all: seq<Node>, next: (Id, Id) -> Id, i: nat)
    requires DistinctIds(all) && i < |all|
    ensures forall k :: 0 <= k < |Entries(self, all[..i], next)| ==> Entries(self, all[..i], next)[k].node != all[i].id
  {
    forall k | 0 <= k < |Entries(self, all[..i], next)| ensures Entries(self, all[..i], next)[k].node != all[i].id {
      assert Entries(self, all[..i], next)[k] in Entries(self, all[..i], next);
    }
  }

  lemma IndexOne(out: seq<Peer>, idx: map<Id, nat>, p: Peer)
    requires IndexOk(out, idx) && forall k :: 0 <= k < |out| ==> out[k].node != p.node
    ensures IndexOk(out + [p], idx[p.node := |out|])
  {
  }

  /** out is es with what the moves ms put on each entry. */
  predicate Loaded(es: seq<Peer>, out: seq<Peer>, ms: seq<Move>) {
    |out| == |es| && forall k :: 0 <= k < |out| ==> out[k] == es[k].(allowed := es[k].allowed + MovedTo(ms, es[k].node))
  }

  function LoadOne(out: seq<Peer>, idx: map<Id, nat>, m: Move): seq<Peer>
    requires IndexOk(out, idx)
  {
    if m.hop in idx then
      var p := out[idx[m.hop]];
      out[idx[m.hop] := p.(allowed := p.allowed + m.prefixes)]
    else out
  }

  lemma LoadOneMore(es: seq<Peer>, out: seq<Peer>, idx: map<Id, nat>, ms: seq<Move>, m: Move)
    requires IndexOk(out, idx) && Loaded(es, out, ms)
    ensures var after := LoadOne(out, idx, m); IndexOk(after, idx) && Loaded(es, after, ms + [m])
  {
    var after := LoadOne(out, idx, m);
    assert (ms + [m])[..|ms|] == ms;
    forall k | 0 <= k < |out| ensures after[k] == es[k].(allowed := es[k].allowed + MovedTo(ms + [m], es[k].node)) {
      assert out[k].node == es[k].node;
      if es[k].node != m.hop {
        assert MovedTo(ms, es[k].node) + [] == MovedTo(ms, es[k].node);
      }
    }
  }

  /** Builds self's peer list: own prefixes stay on a node's entry or move onto its hop's. */
  method BuildPeers(self: Node, all: seq<Node>, next: (Id, Id) -> Id) returns (out: seq<Peer>)
    requires DistinctIds(all)
    ensures out == PeerList(self, all, next)
  {
    var idx, moves;
    out, idx, moves := Collect(self, all, next);
    ghost var es := out;
    out := Load(out, idx, moves);
    forall k | 0 <= k < |out| ensures out[k] == WithCarried(self, all, next, es[k]) {
      MovesCarry(self, all, next, es[k].node);
    }
  }

  /** Every move put on its hop's entry. */
  method Load(es: seq<Peer>, idx: map<Id, nat>, moves: seq<Move>) returns (out: seq<Peer>)
    requires IndexOk(es, idx)
    ensures Loaded(es, out, moves)
  {
    out := es;
    var m := 0;
    while m < |moves|
      invariant 0 <= m <= |moves|
      invariant IndexOk(out, idx) && Loaded(es, out, moves[..m])
    {
      assert moves[..m + 1] == moves[..m] + [moves[m]];
      LoadOneMore(es, out, idx, moves[..m], moves[m]);
      if moves[m].hop in idx {
        var at := idx[moves[m].hop];
        out := out[at := out[at].(allowed := out[at].allowed + moves[m].prefixes)];
      }
      m := m + 1;
    }
    assert moves[..m] == moves;
  }
}
