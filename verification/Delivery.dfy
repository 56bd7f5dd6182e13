/** The peer lists of all nodes, built from one table of routes, deliver every packet. */
module Delivery {
  import opened Mesh
  import opened Peers

  /** The entry that carries o's prefixes on self: its hop's when moved, else its own. */
  function Home(self: Node, o: Node, next: (Id, Id) -> Id): Id {
    if Moved(self, o, next) then next(self.id, o.id) else o.id
  }

  lemma {:induction false} CarriedMeans(self: Node, all: seq<Node>, next: (Id, Id) -> Id, hop: Id, q: Prefix)
    ensures q in Carried(self, all, next, hop)
      <==> exists o :: o in all && Eligible(self, o) && Moved(self, o, next) && next(self.id, o.id) == hop && q in Own(o)
  {
    if all != [] {
      var last := |all| - 1;
      CarriedMeans(self, all[..last], next, hop, q);
      assert all == all[..last] + [all[last]];
    }
  }

  predicate EntryOf(self: Node, o: Node, next: (Id, Id) -> Id, p: Peer) {
    Eligible(self, o) && p == BaseEntry(self, o, next)
  }

  lemma LastEntry(self: Node, all: seq<Node>, next: (Id, Id) -> Id, p: Peer)
    requires all != []
    ensures p in Entries(self, all, next) <==>
      p in Entries(self, all[..|all| - 1], next) || EntryOf(self, all[|all| - 1], next, p)
  {
  }

  lemma SomeEntry(self: Node, front: seq<Node>, last: Node, next: (Id, Id) -> Id, p: Peer)
    ensures (exists o :: o in front + [last] && EntryOf(self, o, next, p)) <==>
      (exists o :: o in front && EntryOf(self, o, next, p)) || EntryOf(self, last, next, p)
  {
    assert last in front + [last];
    if o :| o in front && EntryOf(self, o, next, p) {
      assert o in front + [last];
    }
  }

  lemma {:induction false} EntriesMean(self: Node, all: seq<Node>, next: (Id, Id) -> Id, p: Peer)
    ensures p in Entries(self, all, next) <==> exists o :: o in all && EntryOf(self, o, next, p)
  {
    if all != [] {
      var front, o := all[..|all| - 1], all[|all| - 1];
      EntriesMean(self, front, next, p);
      assert all == front + [o];
      LastEntry(self, all, next, p);
      SomeEntry(self, front, o, next, p);
    }
  }

  /** One entry per eligible node, in input order. */
  function EligibleIds(self: Node, all: seq<Node>): seq<Id> {
    if all == [] then []
    else EligibleIds(self, all[..|all| - 1]) + if Eligible(self, all[|all| - 1]) then [all[|all| - 1].id] else []
  }

  lemma {:induction false} EntriesInOrder(self: Node, all: seq<Node>, next: (Id, Id) -> Id)
    ensures |Entries(self, all, next)| == |EligibleIds(self, all)|
    ensures forall k :: 0 <= k < |EligibleIds(self, all)| ==> Entries(self, all, next)[k].node == EligibleIds(self, all)[k]
  {
    if all != [] {
      EntriesInOrder(self, all[..|all| - 1], next);
    }
  }

  lemma {:induction false} EntriesDistinct(self: Node, all: seq<Node>, next: (Id, Id) -> Id)
    requires DistinctIds(all)
    ensures forall j, k :: 0 <= j < k < |Entries(self, all, next)| ==>
      Entries(self, all, next)[j].node != Entries(self, all, next)[k].node
  {
    if all != [] {
      var last := |all| - 1;
      EntriesDistinct(self, all[..last], next);
      NotEntered(self, all, next, last);
    }
  }

  /** Nothing lost, nothing doubled: the list has one entry per eligible node in input
      order, no two for one node, and an entry holds a prefix exactly when it is the home
      of an eligible node that owns the prefix. */
  lemma PeersKeepPrefixes(self: Node, all: seq<Node>, next: (Id, Id) -> Id, k: nat, q: Prefix)
    requires DistinctIds(all) && k < |PeerList(self, all, next)|
    ensures
      var list := PeerList(self, all, next);
      && |list| == |EligibleIds(self, all)| && list[k].node == EligibleIds(self, all)[k]
      && (forall j :: 0 <= j < |list| && j != k ==> list[j].node != list[k].node)
      && (q in list[k].allowed <==>
            exists o :: o in all && Eligible(self, o) && Home(self, o, next) == list[k].node
              && (q in o.subnets || q == Prefix(o.transit, 32)))
  {
    var es, list := Entries(self, all, next), PeerList(self, all, next);
    EntriesInOrder(self, all, next);
    EntriesDistinct(self, all, next);
    CarriedMeans(self, all, next, es[k].node, q);
    EntriesMean(self, all, next, es[k]);
    var mine :| mine in all && EntryOf(self, mine, next, es[k]);
    assert list[k] == WithCarried(self, all, next, es[k]);
    if q in list[k].allowed {
      if q in es[k].allowed {
        assert Home(self, mine, next) == list[k].node && q in Own(mine);
      }
    }
    if o :| o in all && Eligible(self, o) && Home(self, o, next) == list[k].node && q in Own(o) {
      if !Moved(self, o, next) {
        SameNode(all, o, mine);
      }
    }
  }

  /** Another node, with a key and an address in 10.207.255.0/24. */
  predicate TakesPart(self: Node, o: Node) {
    o.id != self.id && o.publicKey != "" && o.transit / 256 == (10 * 256 + 207) * 256 + 255
  }

  lemma TakesPartMeans(self: Node, o: Node)
    ensures TakesPart(self, o) <==> Eligible(self, o)
  {
    assert Pow2(1) == 2 && Pow2(2) == 4 && Pow2(4) == 16 && Pow2(8) == 256;
  }

  /** Exactly the nodes that take part have an entry, and it carries the node's key. */
  lemma PeersHaveKeys(self: Node, all: seq<Node>, next: (Id, Id) -> Id, o: Node)
    requires DistinctIds(all) && o in all
    ensures
      var list := PeerList(self, all, next);
      && (TakesPart(self, o) <==> exists k :: 0 <= k < |list| && list[k].node == o.id)
      && (forall k :: 0 <= k < |list| && list[k].node == o.id ==> list[k].publicKey == o.publicKey)
  {
    var es, list := Entries(self, all, next), PeerList(self, all, next);
    TakesPartMeans(self, o);
    if Eligible(self, o) {
      var k := HasEntry(self, all, next, o);
    }
    forall k | 0 <= k < |list| && list[k].node == o.id ensures Eligible(self, o) && list[k].publicKey == o.publicKey {
      EntriesMean(self, all, next, es[k]);
      var mine :| mine in all && EntryOf(self, mine, next, es[k]);
      SameNode(all, mine, o);
    }
  }

  /** What a node is reached by, its networks and its address, is in its home entry. */
  lemma PeersHaveNetworks(self: Node, all: seq<Node>, next: (Id, Id) -> Id, o: Node, k: nat)
    requires DistinctIds(all) && o in all && TakesPart(self, o)
    requires k < |PeerList(self, all, next)| && PeerList(self, all, next)[k].node == Home(self, o, next)
    ensures Prefix(o.transit, 32) in PeerList(self, all, next)[k].allowed
    ensures forall q :: q in o.subnets ==> q in PeerList(self, all, next)[k].allowed
  {
    TakesPartMeans(self, o);
    PeersKeepPrefixes(self, all, next, k, Prefix(o.transit, 32));
    forall q | q in o.subnets ensures q in PeerList(self, all, next)[k].allowed {
      PeersKeepPrefixes(self, all, next, k, q);
    }
  }

  lemma SameNode(all: seq<Node>, a: Node, b: Node)
    requires DistinctIds(all) && a in all && b in all && a.id == b.id
    ensures a == b
  {
  }

  /** No address belongs to two nodes. */
  ghost predicate Apart(all: seq<Node>) {
    forall o, e, a: Addr :: o in all && e in all && Owns(o, a) && Owns(e, a) ==> o == e
  }

  /** The address is the node's own, or in one of its networks. */
  predicate Owns(o: Node, a: Addr) {
    a == o.transit || exists q :: q in o.subnets && Contains(q, a)
  }

  lemma OwnsByPrefix(o: Node, a: Addr)
    ensures Owns(o, a) <==> exists q :: q in Own(o) && Contains(q, a)
  {
    assert Pow2(0) == 1;
    assert Prefix(o.transit, 32) in Own(o) && (Contains(Prefix(o.transit, 32), a) <==> a == o.transit);
    assert forall q :: q in Own(o) <==> q in o.subnets || q == Prefix(o.transit, 32);
  }

  lemma OwnHolds(o: Node, q: Prefix, a: Addr)
    requires (q in o.subnets || q == Prefix(o.transit, 32)) && Contains(q, a)
    ensures Owns(o, a)
  {
    OwnsByPrefix(o, a);
    assert q in Own(o);
  }

  predicate Holds(p: Peer, a: Addr) {
    exists q :: q in p.allowed && Contains(q, a)
  }

  /** WireGuard's rule: the AllowedIPs of one interface never overlap. */
  lemma PeersNeverOverlap(self: Node, all: seq<Node>, next: (Id, Id) -> Id, j: nat, k: nat, a: Addr)
    requires DistinctIds(all) && Apart(all)
    requires j < |PeerList(self, all, next)| && k < |PeerList(self, all, next)|
    requires Holds(PeerList(self, all, next)[j], a) && Holds(PeerList(self, all, next)[k], a)
    ensures j == k
  {
    var p, q := PeerList(self, all, next)[j], PeerList(self, all, next)[k];
    var x :| x in p.allowed && Contains(x, a);
    var y :| y in q.allowed && Contains(y, a);
    PeersKeepPrefixes(self, all, next, j, x);
    PeersKeepPrefixes(self, all, next, k, y);
    var o :| o in all && Eligible(self, o) && Home(self, o, next) == p.node
      && (x in o.subnets || x == Prefix(o.transit, 32));
    var e :| e in all && Eligible(self, e) && Home(self, e, next) == q.node
      && (y in e.subnets || y == Prefix(e.transit, 32));
    OwnHolds(o, x, a);
    OwnHolds(e, y, a);
  }

  /** The ids the routes are computed over: every usable node's. */
  function UsableIds(all: seq<Node>): (r: seq<Id>)
    ensures forall x :: x in r <==> exists o :: o in all && Usable(o) && o.id == x
  {
    if all == [] then []
    else
      assert all == [all[0]] + all[1..];
      (if Usable(all[0]) then [all[0].id] else []) + UsableIds(all[1..])
  }

  function NextFrom(table: map<(Id, Id), Id>): (Id, Id) -> Id {
    (s: Id, d: Id) => if (s, d) in table then table[(s, d)] else ""
  }

  /** A mesh whose nodes all read one table. */
  ghost predicate OneTable(all: seq<Node>, up: (Id, Id) -> bool, pub: Id -> bool, table: map<(Id, Id), Id>) {
    && DistinctIds(all) && Apart(all) && Symmetric(up)
    && "" !in UsableIds(all)
    && forall s, d :: RoutesTo(UsableIds(all), up, pub, table, s, d)
  }

  /** On s, exactly one entry holds an address of d, and it is the next stop's. */
  lemma OneEntryHolds(all: seq<Node>, up: (Id, Id) -> bool, pub: Id -> bool, table: map<(Id, Id), Id>, s: Node,
      d: Node, a: Addr)
    returns (k: nat)
    requires OneTable(all, up, pub, table)
    requires s in all && d in all && Usable(s) && Usable(d) && s.id != d.id && Owns(d, a)
    requires Connected(UsableIds(all), up, s.id, d.id)
    ensures
      var list := PeerList(s, all, NextFrom(table));
      && k < |list| && list[k].node == NextStop(table, s.id, d.id)
      && forall j :: 0 <= j < |list| ==> (Holds(list[j], a) <==> j == k)
  {
    var next := NextFrom(table);
    k := StopEntryHolds(all, up, pub, table, s, d, a);
    var list := PeerList(s, all, next);
    forall j | 0 <= j < |list| && Holds(list[j], a) ensures j == k {
      PeersNeverOverlap(s, all, next, j, k, a);
    }
  }

  /** The next stop is another usable node, the home of d's prefixes. */
  lemma StopIsNode(all: seq<Node>, up: (Id, Id) -> bool, pub: Id -> bool, table: map<(Id, Id), Id>, s: Node, d: Node)
    returns (hop: Node)
    requires OneTable(all, up, pub, table)
    requires s in all && d in all && Usable(s) && Usable(d) && s.id != d.id && Connected(UsableIds(all), up, s.id, d.id)
    ensures hop in all && Eligible(s, hop) && hop.id == NextStop(table, s.id, d.id) == Home(s, d, NextFrom(table))
  {
    var ids := UsableIds(all);
    assert RoutesTo(ids, up, pub, table, s.id, d.id);
    NextStopCloser(ids, up, pub, table, s.id, d.id);
    NotBack(ids, up, s.id, d.id, NextStop(table, s.id, d.id));
    hop :| hop in all && Usable(hop) && hop.id == NextStop(table, s.id, d.id);
  }

  lemma HasEntry(self: Node, all: seq<Node>, next: (Id, Id) -> Id, o: Node) returns (k: nat)
    requires o in all && Eligible(self, o)
    ensures k < |PeerList(self, all, next)| && PeerList(self, all, next)[k].node == o.id
  {
    EntriesMean(self, all, next, BaseEntry(self, o, next));
    assert EntryOf(self, o, next, BaseEntry(self, o, next));
    k :| 0 <= k < |PeerList(self, all, next)| && Entries(self, all, next)[k] == BaseEntry(self, o, next);
  }

  lemma HomeHolds(self: Node, all: seq<Node>, next: (Id, Id) -> Id, k: nat, d: Node, a: Addr)
    requires DistinctIds(all) && k < |PeerList(self, all, next)|
    requires d in all && Eligible(self, d) && Owns(d, a) && PeerList(self, all, next)[k].node == Home(self, d, next)
    ensures Holds(PeerList(self, all, next)[k], a)
  {
    OwnsByPrefix(d, a);
    var q :| q in Own(d) && Contains(q, a);
    PeersKeepPrefixes(self, all, next, k, q);
  }

  /** The next stop's entry holds every address of d. */
  lemma StopEntryHolds(all: seq<Node>, up: (Id, Id) -> bool, pub: Id -> bool, table: map<(Id, Id), Id>, s: Node,
      d: Node, a: Addr)
    returns (k: nat)
    requires OneTable(all, up, pub, table)
    requires s in all && d in all && Usable(s) && Usable(d) && s.id != d.id && Owns(d, a)
    requires Connected(UsableIds(all), up, s.id, d.id)
    ensures var list := PeerList(s, all, NextFrom(table));
      k < |list| && list[k].node == NextStop(table, s.id, d.id) && Holds(list[k], a)
  {
    var hop := StopIsNode(all, up, pub, table, s, d);
    k := HasEntry(s, all, NextFrom(table), hop);
    HomeHolds(s, all, NextFrom(table), k, d, a);
  }

  lemma NotBack(ids: seq<Id>, up: (Id, Id) -> bool, s: Id, d: Id, n: Id)
    requires Closer(ids, up, s, d, n)
    ensures n != s
  {
  }

  /** The one entry on s that holds a is n's. */
  predicate Forwards(all: seq<Node>, table: map<(Id, Id), Id>, s: Node, n: Id, a: Addr) {
    var list := PeerList(s, all, NextFrom(table));
    exists k :: 0 <= k < |list| && list[k].node == n && OnlyHolder(list, k, a)
  }

  predicate OnlyHolder(list: seq<Peer>, k: nat, a: Addr) {
    k < |list| && forall j :: 0 <= j < |list| ==> (Holds(list[j], a) <==> j == k)
  }

  /** The i-th stop is as many hops from d as stops are left. */
  ghost predicate OnTheWay(all: seq<Node>, up: (Id, Id) -> bool, d: Node, n: Node, left: nat) {
    n in all && Connected(UsableIds(all), up, n.id, d.id) && Dist(UsableIds(all), up, n.id, d.id) == left
  }

  /** A packet's path: every stop one hop closer, every step the forwarding rule's, over a working tunnel. */
  ghost predicate Path(all: seq<Node>, up: (Id, Id) -> bool, table: map<(Id, Id), Id>, d: Node, a: Addr, path: seq<Node>) {
    && path != [] && path[|path| - 1] == d
    && (forall i :: 0 <= i < |path| ==> OnTheWay(all, up, d, path[i], |path| - 1 - i))
    && (forall i :: 0 <= i < |path| - 1 ==> Forwards(all, table, path[i], path[i + 1].id, a) && up(path[i].id, path[i + 1].id))
  }

  lemma PathExtends(all: seq<Node>, up: (Id, Id) -> bool, table: map<(Id, Id), Id>, d: Node, a: Addr, s: Node, rest: seq<Node>)
    requires Path(all, up, table, d, a, rest) && OnTheWay(all, up, d, s, |rest|)
    requires Forwards(all, table, s, rest[0].id, a) && up(s.id, rest[0].id)
    ensures Path(all, up, table, d, a, [s] + rest)
  {
    var path := [s] + rest;
    forall i | 0 <= i < |path| ensures OnTheWay(all, up, d, path[i], |path| - 1 - i) {
      if i > 0 { assert path[i] == rest[i - 1]; }
    }
    forall i | 0 <= i < |path| - 1 ensures Forwards(all, table, path[i], path[i + 1].id, a) && up(path[i].id, path[i + 1].id) {
      if i > 0 { assert path[i] == rest[i - 1] && path[i + 1] == rest[i]; }
    }
  }

  lemma NoNodeTwice(all: seq<Node>, up: (Id, Id) -> bool, table: map<(Id, Id), Id>, d: Node, a: Addr, path: seq<Node>,
      i: nat, j: nat)
    requires Path(all, up, table, d, a, path) && i < j < |path|
    ensures path[i].id != path[j].id
  {
    assert OnTheWay(all, up, d, path[i], |path| - 1 - i) && OnTheWay(all, up, d, path[j], |path| - 1 - j);
  }

  lemma FirstStep(all: seq<Node>, up: (Id, Id) -> bool, pub: Id -> bool, table: map<(Id, Id), Id>, s: Node, d: Node, a: Addr)
    returns (hop: Node)
    requires OneTable(all, up, pub, table)
    requires s in all && d in all && Usable(s) && Usable(d) && s.id != d.id && Owns(d, a)
    requires Connected(UsableIds(all), up, s.id, d.id)
    ensures hop in all && Usable(hop) && Forwards(all, table, s, hop.id, a) && up(s.id, hop.id)
    ensures Connected(UsableIds(all), up, hop.id, d.id)
    ensures Dist(UsableIds(all), up, hop.id, d.id) + 1 == Dist(UsableIds(all), up, s.id, d.id)
  {
    var k := OneEntryHolds(all, up, pub, table, s, d, a);
    hop := StopIsNode(all, up, pub, table, s, d);
    NextStopCloser(UsableIds(all), up, pub, table, s.id, d.id);
    assert OnlyHolder(PeerList(s, all, NextFrom(table)), k, a);
  }

  /** End to end: forwarded at each node to the one peer whose AllowedIPs hold the address,
      a packet reaches its node in exactly the shortest-path number of hops, each over a
      working tunnel and one hop closer, so no node is met twice. */
  lemma {:induction false} Delivered(all: seq<Node>, up: (Id, Id) -> bool, pub: Id -> bool, table: map<(Id, Id), Id>,
                                         s: Node, d: Node, a: Addr)
    returns (path: seq<Node>)
    requires OneTable(all, up, pub, table)
    requires s in all && d in all && Usable(s) && Usable(d) && Owns(d, a)
    requires Connected(UsableIds(all), up, s.id, d.id)
    ensures Path(all, up, table, d, a, path) && path[0] == s && |path| == Dist(UsableIds(all), up, s.id, d.id) + 1
    decreases Dist(UsableIds(all), up, s.id, d.id)
  {
    var ids := UsableIds(all);
    if s.id == d.id {
      SameNode(all, s, d);
      assert Walk(ids, up, [s.id]);
      assert Reaches(ids, up, s.id, s.id, 0);
      path := [s];
    } else {
      var hop := FirstStep(all, up, pub, table, s, d, a);
      var rest := Delivered(all, up, pub, table, hop, d, a);
      PathExtends(all, up, table, d, a, s, rest);
      path := [s] + rest;
    }
  }

  /** A node forwards an address to one peer only. */
  lemma OneForward(all: seq<Node>, table: map<(Id, Id), Id>, s: Node, m: Node, n: Node, a: Addr)
    requires DistinctIds(all) && m in all && n in all && Forwards(all, table, s, m.id, a) && Forwards(all, table, s, n.id, a)
    ensures m == n
  {
    var list := PeerList(s, all, NextFrom(table));
    var j :| 0 <= j < |list| && list[j].node == m.id && OnlyHolder(list, j, a);
    var k :| 0 <= k < |list| && list[k].node == n.id && OnlyHolder(list, k, a);
    assert Holds(list[j], a);
    SameNode(all, m, n);
  }

  /** Step i of a walk goes where the forwarding rule says. */
  predicate StepsOn(all: seq<Node>, table: map<(Id, Id), Id>, a: Addr, walk: seq<Node>, i: nat) {
    i + 1 < |walk| && walk[i + 1] in all && Forwards(all, table, walk[i], walk[i + 1].id, a)
  }

  lemma PathSteps(all: seq<Node>, up: (Id, Id) -> bool, table: map<(Id, Id), Id>, d: Node, a: Addr, path: seq<Node>, i: nat)
    requires Path(all, up, table, d, a, path) && i + 1 < |path|
    ensures StepsOn(all, table, a, path, i)
  {
    assert OnTheWay(all, up, d, path[i + 1], |path| - 1 - (i + 1));
  }

  /** So the packet has no other way: whatever walk the forwarding rule makes, it is that path. */
  lemma {:induction false} NoOtherWay(
      all: seq<Node>, up: (Id, Id) -> bool, table: map<(Id, Id), Id>, d: Node, a: Addr, path: seq<Node>,
      walk: seq<Node>, i: nat)
    requires DistinctIds(all) && Path(all, up, table, d, a, path)
    requires i < |walk| <= |path| && walk[0] == path[0]
    requires forall j: nat :: j < |walk| - 1 ==> StepsOn(all, table, a, walk, j)
    ensures walk[i] == path[i]
  {
    if i > 0 {
      NoOtherWay(all, up, table, d, a, path, walk, i - 1);
      PathSteps(all, up, table, d, a, path, i - 1);
      assert StepsOn(all, table, a, walk, i - 1);
      OneForward(all, table, path[i - 1], path[i], walk[i], a);
    }
  }
}
