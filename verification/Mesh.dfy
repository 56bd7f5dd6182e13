/** Next hops over the graph of working tunnels. */
module Mesh {
  type Id = string

  // ---- ids in order ----

  /** Byte-wise string order. */
  predicate Less(a: Id, b: Id) {
    if b == [] then false
    else if a == [] then true
    else a[0] < b[0] || (a[0] == b[0] && Less(a[1..], b[1..]))
  }

  lemma {:induction false} LessTotal(a: Id, b: Id)
    ensures a == b || Less(a, b) || Less(b, a)
    ensures !(Less(a, b) && Less(b, a)) && !Less(a, a)
  {
    if a != [] && b != [] && a[0] == b[0] {
      LessTotal(a[1..], b[1..]);
      assert a == [a[0]] + a[1..] && b == [b[0]] + b[1..];
    }
    if a != [] {
      LessTotal(a[1..], a[1..]);
    }
  }

  lemma {:induction false} LessTransitive(a: Id, b: Id, c: Id)
    requires Less(a, b) && Less(b, c)
    ensures Less(a, c)
  {
    if a != [] && a[0] == b[0] && b[0] == c[0] {
      LessTransitive(a[1..], b[1..], c[1..]);
    }
  }

  /** The first character that differs decides, and a text comes before what it begins. */
  lemma {:induction false} LessAtFirstDifference(p: Id, x: char, s: Id, y: char, t: Id)
    requires x < y
    ensures Less(p + [x] + s, p + [y] + t) && Less(p, p + [x] + s)
  {
    var a, b := p + [x] + s, p + [y] + t;
    if p != [] {
      assert a[0] == b[0] == p[0] && a[1..] == p[1..] + [x] + s && b[1..] == p[1..] + [y] + t;
      LessAtFirstDifference(p[1..], x, s, y, t);
    }
  }

  /** a and b in a fixed order, for maps keyed by pair. */
  function PairKey(a: Id, b: Id): (Id, Id) {
    if Less(b, a) then (b, a) else (a, b)
  }

  /** A pair-keyed map reads the same from both ends, and apart for different pairs. */
  lemma PairKeySymmetric(a: Id, b: Id, c: Id, d: Id)
    ensures PairKey(a, b) == PairKey(b, a)
    ensures PairKey(a, b) == PairKey(c, d) ==> {a, b} == {c, d}
    ensures PairKey(a, b) == (a, b) || PairKey(a, b) == (b, a)
    ensures !Less(PairKey(a, b).1, PairKey(a, b).0)
  {
    LessTotal(a, b);
    LessTotal(c, d);
  }

  /** Public nodes first, then the lower id. */
  predicate Prefers(pub: Id -> bool, a: Id, b: Id) {
    a == b || if pub(a) != pub(b) then pub(a) else Less(a, b)
  }

  function Insert(pub: Id -> bool, x: Id, s: seq<Id>): seq<Id> {
    if s == [] || Prefers(pub, x, s[0]) then [x] + s else [s[0]] + Insert(pub, x, s[1..])
  }

  /** The ids sorted for hop choice. */
  function Ordered(pub: Id -> bool, ids: seq<Id>): seq<Id> {
    if ids == [] then [] else Insert(pub, ids[0], Ordered(pub, ids[1..]))
  }

  predicate Sorted(pub: Id -> bool, s: seq<Id>) {
    forall i, j :: 0 <= i < j < |s| ==> Prefers(pub, s[i], s[j])
  }

  lemma PrefersTransitive(pub: Id -> bool, a: Id, b: Id, c: Id)
    requires Prefers(pub, a, b) && Prefers(pub, b, c)
    ensures Prefers(pub, a, c)
  {
    if a != b && b != c && pub(a) == pub(b) == pub(c) {
      LessTransitive(a, b, c);
    }
  }

  lemma {:induction false} InsertSorted(pub: Id -> bool, x: Id, s: seq<Id>)
    requires Sorted(pub, s)
    ensures Sorted(pub, Insert(pub, x, s)) && multiset(Insert(pub, x, s)) == multiset([x] + s)
  {
    if s == [] {
    } else if Prefers(pub, x, s[0]) {
      forall j | 0 <= j < |s| ensures Prefers(pub, x, s[j]) {
        PrefersTransitive(pub, x, s[0], s[j]);
      }
    } else {
      var rest := Insert(pub, x, s[1..]);
      InsertSorted(pub, x, s[1..]);
      LessTotal(x, s[0]);
      assert s == [s[0]] + s[1..];
      forall j | 0 <= j < |rest| ensures Prefers(pub, s[0], rest[j]) {
        assert rest[j] in multiset(rest);
        assert rest[j] in [x] + s[1..];
      }
    }
  }

  lemma {:induction false} OrderedSorted(pub: Id -> bool, ids: seq<Id>)
    ensures Sorted(pub, Ordered(pub, ids)) && multiset(Ordered(pub, ids)) == multiset(ids)
    ensures forall x :: x in Ordered(pub, ids) <==> x in ids
  {
    if ids != [] {
      OrderedSorted(pub, ids[1..]);
      InsertSorted(pub, ids[0], Ordered(pub, ids[1..]));
      assert ids == [ids[0]] + ids[1..];
    }
    forall x ensures x in Ordered(pub, ids) <==> x in ids {
      assert x in multiset(ids) <==> x in ids;
    }
  }

  // ---- walks and distance ----

  predicate Walk(ids: seq<Id>, up: (Id, Id) -> bool, p: seq<Id>) {
    && p != []
    && (forall i :: 0 <= i < |p| ==> p[i] in ids)
    && (forall i :: 0 <= i < |p| - 1 ==> up(p[i], p[i + 1]))
  }

  /** A walk of exactly k tunnels leads from a to b. */
  ghost predicate Reaches(ids: seq<Id>, up: (Id, Id) -> bool, a: Id, b: Id, k: nat) {
    exists p :: Walk(ids, up, p) && |p| == k + 1 && p[0] == a && p[k] == b
  }

  ghost predicate Connected(ids: seq<Id>, up: (Id, Id) -> bool, a: Id, b: Id) {
    exists k :: Reaches(ids, up, a, b, k)
  }

  /** The length of a shortest walk. */
  ghost function Dist(ids: seq<Id>, up: (Id, Id) -> bool, a: Id, b: Id): (d: nat)
    requires Connected(ids, up, a, b)
    ensures Reaches(ids, up, a, b, d)
    ensures forall k: nat :: Reaches(ids, up, a, b, k) ==> d <= k
  {
    var k :| Reaches(ids, up, a, b, k);
    LeastExists(ids, up, a, b, k);
    var d: nat :| Reaches(ids, up, a, b, d) && forall k: nat :: Reaches(ids, up, a, b, k) ==> d <= k;
    d
  }

  lemma {:induction false} LeastExists(ids: seq<Id>, up: (Id, Id) -> bool, a: Id, b: Id, k: nat)
    requires Reaches(ids, up, a, b, k)
    ensures exists d: nat :: Reaches(ids, up, a, b, d) && forall j: nat :: Reaches(ids, up, a, b, j) ==> d <= j
  {
    if exists j: nat :: j < k && Reaches(ids, up, a, b, j) {
      var j: nat :| j < k && Reaches(ids, up, a, b, j);
      LeastExists(ids, up, a, b, j);
    }
  }

  ghost predicate Symmetric(up: (Id, Id) -> bool) {
    forall a, b :: up(a, b) <==> up(b, a)
  }

  function Reverse(p: seq<Id>): (r: seq<Id>)
    ensures |r| == |p|
    ensures forall i :: 0 <= i < |p| ==> r[i] == p[|p| - 1 - i]
  {
    seq(|p|, i requires 0 <= i < |p| => p[|p| - 1 - i])
  }

  lemma ReachesBack(ids: seq<Id>, up: (Id, Id) -> bool, a: Id, b: Id, k: nat)
    requires Symmetric(up) && Reaches(ids, up, a, b, k)
    ensures Reaches(ids, up, b, a, k)
  {
    var p :| Walk(ids, up, p) && |p| == k + 1 && p[0] == a && p[k] == b;
    assert Walk(ids, up, Reverse(p));
  }

  lemma DistSymmetric(ids: seq<Id>, up: (Id, Id) -> bool, a: Id, b: Id)
    requires Symmetric(up) && Connected(ids, up, a, b)
    ensures Connected(ids, up, b, a) && Dist(ids, up, a, b) == Dist(ids, up, b, a)
  {
    ReachesBack(ids, up, a, b, Dist(ids, up, a, b));
    ReachesBack(ids, up, b, a, Dist(ids, up, b, a));
  }

  lemma ReachesMore(ids: seq<Id>, up: (Id, Id) -> bool, a: Id, b: Id, k: nat, c: Id)
    requires Reaches(ids, up, a, b, k) && up(b, c) && c in ids
    ensures Reaches(ids, up, a, c, k + 1)
  {
    var p :| Walk(ids, up, p) && |p| == k + 1 && p[0] == a && p[k] == b;
    assert Walk(ids, up, p + [c]);
  }

  /** The last tunnel of a walk taken off. */
  lemma ReachesLess(ids: seq<Id>, up: (Id, Id) -> bool, a: Id, c: Id, k: nat) returns (b: Id)
    requires Reaches(ids, up, a, c, k + 1)
    ensures Reaches(ids, up, a, b, k) && up(b, c) && b in ids && c in ids
  {
    var p :| Walk(ids, up, p) && |p| == k + 2 && p[0] == a && p[k + 1] == c;
    b := p[k];
    assert Walk(ids, up, p[..k + 1]);
  }

  // ---- breadth-first search ----

  /** dist holds every id a walk leads to from dst, with the length of a shortest one. */
  ghost predicate IsDistMap(ids: seq<Id>, up: (Id, Id) -> bool, dst: Id, dist: map<Id, nat>) {
    && (forall y :: y in dist ==> Reaches(ids, up, dst, y, dist[y]))
    && (forall y, k: nat :: Reaches(ids, up, dst, y, k) ==> y in dist && dist[y] <= k)
  }

  /** Every tunnel from x leads to a node at most one further from dst. */
  predicate Settled(ids: seq<Id>, up: (Id, Id) -> bool, dist: map<Id, nat>, x: Id)
    requires x in dist
  {
    forall y :: y in ids && up(x, y) ==> y in dist && dist[y] <= dist[x] + 1
  }

  lemma {:induction false} AllSettled(ids: seq<Id>, up: (Id, Id) -> bool, dst: Id, dist: map<Id, nat>, y: Id, k: nat)
    requires dst in dist && dist[dst] == 0
    requires forall x :: x in dist ==> Settled(ids, up, dist, x)
    requires Reaches(ids, up, dst, y, k)
    ensures y in dist && dist[y] <= k
    decreases k
  {
    if k > 0 {
      var x := ReachesLess(ids, up, dst, y, k - 1);
      AllSettled(ids, up, dst, dist, x, k - 1);
    }
  }

  /** Every id found so far has a walk of the noted length. */
  ghost predicate Found(ids: seq<Id>, up: (Id, Id) -> bool, dst: Id, dist: map<Id, nat>) {
    && dst in dist && dist[dst] == 0
    && forall y :: y in dist ==> y in ids && Reaches(ids, up, dst, y, dist[y])
  }

  /** The queue is ordered by distance, starts no earlier than lo, and nothing is two further. */
  predicate Queued(dist: map<Id, nat>, queue: seq<Id>, lo: nat) {
    && (forall i :: 0 <= i < |queue| ==> queue[i] in dist && lo <= dist[queue[i]])
    && (forall i, j :: 0 <= i < j < |queue| ==> dist[queue[i]] <= dist[queue[j]])
    && (forall y :: y in dist ==> dist[y] <= lo + 1)
  }

  predicate Extends(was: map<Id, nat>, dist: map<Id, nat>) {
    forall y :: y in was ==> y in dist && dist[y] == was[y]
  }

  lemma FoundOne(ids: seq<Id>, up: (Id, Id) -> bool, dst: Id, dist: map<Id, nat>, x: Id, y: Id)
    requires Found(ids, up, dst, dist) && x in dist && y !in dist && y in ids && up(x, y)
    ensures Found(ids, up, dst, dist[y := dist[x] + 1])
  {
    ReachesMore(ids, up, dst, x, dist[x], y);
  }

  lemma QueueOne(dist: map<Id, nat>, queue: seq<Id>, lo: nat, y: Id)
    requires Queued(dist, queue, lo) && y !in dist
    ensures Queued(dist[y := lo + 1], queue + [y], lo)
  {
  }

  /** Midway through a node's neighbours: what was found stays, and what is new is queued. */
  ghost predicate Visiting(
    ids: seq<Id>, up: (Id, Id) -> bool, dst: Id, was: map<Id, nat>, waiting: seq<Id>, lo: nat, dist: map<Id, nat>,
      queue: seq<Id>)
  {
    && Found(ids, up, dst, dist) && Extends(was, dist) && Queued(dist, queue, lo)
    && (forall y :: y in dist && y !in queue ==> y in was && y !in waiting)
    && (|queue| == |waiting| || was.Keys < dist.Keys)
  }

  lemma VisitOne(
      ids: seq<Id>, up: (Id, Id) -> bool, dst: Id, was: map<Id, nat>, waiting: seq<Id>, x: Id,
      dist: map<Id, nat>, queue: seq<Id>, y: Id)
    requires x in was && x in dist && dist[x] == was[x] && Visiting(ids, up, dst, was, waiting, was[x], dist, queue)
    requires y in ids && y !in dist && up(x, y)
    ensures Visiting(ids, up, dst, was, waiting, was[x], dist[y := dist[x] + 1], queue + [y])
  {
    FoundOne(ids, up, dst, dist, x, y);
    QueueOne(dist, queue, was[x], y);
    assert y in dist[y := dist[x] + 1].Keys && y !in was.Keys;
  }

  /** One node of the queue is taken: every neighbour not seen yet is one further away. */
  method Visit(order: seq<Id>, up: (Id, Id) -> bool, dst: Id, was: map<Id, nat>, waiting: seq<Id>, x: Id)
    returns (dist: map<Id, nat>, queue: seq<Id>)
    requires Found(order, up, dst, was) && x in was && Queued(was, waiting, was[x])
    ensures Found(order, up, dst, dist) && Extends(was, dist) && Queued(dist, queue, was[x])
    ensures forall y :: y in dist && y !in queue ==> y in was && y !in waiting
    ensures |queue| == |waiting| || was.Keys < dist.Keys
    ensures x in dist && Settled(order, up, dist, x)
  {
    dist, queue := was, waiting;
    var i := 0;
    while i < |order|
      invariant 0 <= i <= |order|
      invariant x in dist && dist[x] == was[x] && Visiting(order, up, dst, was, waiting, was[x], dist, queue)
      invariant forall j :: 0 <= j < i && up(x, order[j]) ==> order[j] in dist
    {
      var y := order[i];
      if y !in dist && y != x && up(x, y) {
        VisitOne(order, up, dst, was, waiting, x, dist, queue, y);
        dist := dist[y := dist[x] + 1];
        queue := queue + [y];
      }
      i := i + 1;
    }
  }

  lemma SettledStays(ids: seq<Id>, up: (Id, Id) -> bool, was: map<Id, nat>, dist: map<Id, nat>, z: Id)
    requires z in was && Settled(ids, up, was, z) && Extends(was, dist)
    ensures Settled(ids, up, dist, z)
  {
  }

  /** The hop counts to dst of everything a chain of tunnels leads to. */
  method Search(order: seq<Id>, up: (Id, Id) -> bool, dst: Id) returns (dist: map<Id, nat>)
    requires dst in order
    ensures IsDistMap(order, up, dst, dist)
  {
    dist := map[dst := 0];
    var queue := [dst];
    ghost var all := set x | x in order;
    assert Walk(order, up, [dst]);
    ghost var lo := 0;
    while |queue| > 0
      invariant Found(order, up, dst, dist) && Queued(dist, queue, lo)
      invariant forall x :: x in dist && x !in queue ==> Settled(order, up, dist, x)
      decreases all - dist.Keys, |queue|
    {
      var x := queue[0];
      ghost var was, waiting := dist, queue;
      lo := dist[x];
      dist, queue := Visit(order, up, dst, dist, queue[1..], x);
      assert was.Keys <= dist.Keys <= all;
      forall z | z in dist && z !in queue ensures Settled(order, up, dist, z) {
        if z != x {
          assert waiting == [x] + waiting[1..];
          SettledStays(order, up, was, dist, z);
        }
      }
    }
    forall y, k: nat | Reaches(order, up, dst, y, k) ensures y in dist && dist[y] <= k {
      AllSettled(order, up, dst, dist, y, k);
    }
  }

  // ---- routes ----

  /** src has no tunnel to dst, but a chain of tunnels leads there. */
  ghost predicate Routed(ids: seq<Id>, up: (Id, Id) -> bool, src: Id, dst: Id) {
    Connected(ids, up, src, dst) && src != dst && !up(src, dst)
  }

  /** n is a neighbour of src exactly one hop closer to dst. */
  ghost predicate Closer(ids: seq<Id>, up: (Id, Id) -> bool, src: Id, dst: Id, n: Id) {
    && n in ids && up(src, n)
    && Connected(ids, up, src, dst) && Connected(ids, up, n, dst)
    && Dist(ids, up, n, dst) + 1 == Dist(ids, up, src, dst)
  }

  /** The best of the closer neighbours: public first, then the lowest id. */
  ghost predicate BestHop(ids: seq<Id>, up: (Id, Id) -> bool, pub: Id -> bool, src: Id, dst: Id, hop: Id) {
    && Closer(ids, up, src, dst, hop)
    && forall n :: Closer(ids, up, src, dst, n) ==> Prefers(pub, hop, n)
  }

  ghost predicate RoutesTo(ids: seq<Id>, up: (Id, Id) -> bool, pub: Id -> bool, table: map<(Id, Id), Id>, src: Id, dst: Id) {
    && ((src, dst) in table <==> Routed(ids, up, src, dst))
    && ((src, dst) in table ==> BestHop(ids, up, pub, src, dst, table[(src, dst)]))
  }

  lemma SameWalks(a: seq<Id>, b: seq<Id>, up: (Id, Id) -> bool, dst: Id, dist: map<Id, nat>)
    requires (forall x :: x in a <==> x in b) && IsDistMap(a, up, dst, dist)
    ensures IsDistMap(b, up, dst, dist)
  {
    forall y, k: nat ensures Reaches(a, up, dst, y, k) <==> Reaches(b, up, dst, y, k) {
      if Reaches(a, up, dst, y, k) {
        var p :| Walk(a, up, p) && |p| == k + 1 && p[0] == dst && p[k] == y;
        assert Walk(b, up, p);
      }
      if Reaches(b, up, dst, y, k) {
        var p :| Walk(b, up, p) && |p| == k + 1 && p[0] == dst && p[k] == y;
        assert Walk(a, up, p);
      }
    }
  }

  /** What the search's numbers say, read from the source's end. */
  lemma DistMapMeans(ids: seq<Id>, up: (Id, Id) -> bool, dst: Id, dist: map<Id, nat>, x: Id)
    requires Symmetric(up) && IsDistMap(ids, up, dst, dist)
    ensures x in dist <==> Connected(ids, up, x, dst)
    ensures x in dist ==> dist[x] == Dist(ids, up, x, dst)
    ensures x in dist && dst in ids ==> x in ids && (dist[x] == 0 <==> x == dst) && (dist[x] <= 1 <==> x == dst || up(x, dst))
  {
    if x in dist {
      ReachesBack(ids, up, dst, x, dist[x]);
      ReachesBack(ids, up, x, dst, Dist(ids, up, x, dst));
      if dst in ids {
        NearDistances(ids, up, dst, dist, x);
      }
    }
    if Connected(ids, up, x, dst) {
      ReachesBack(ids, up, x, dst, Dist(ids, up, x, dst));
    }
  }

  lemma NearDistances(ids: seq<Id>, up: (Id, Id) -> bool, dst: Id, dist: map<Id, nat>, x: Id)
    requires Symmetric(up) && IsDistMap(ids, up, dst, dist) && x in dist && dst in ids
    ensures x in ids && (dist[x] == 0 <==> x == dst) && (dist[x] <= 1 <==> x == dst || up(x, dst))
  {
    var p :| Walk(ids, up, p) && |p| == dist[x] + 1 && p[0] == dst && p[dist[x]] == x;
    assert Walk(ids, up, [dst]);
    assert Reaches(ids, up, dst, dst, 0);
    if up(x, dst) {
      assert Walk(ids, up, [dst, x]);
      assert Reaches(ids, up, dst, x, 1);
    }
  }

  /** Some neighbour of a routed source is one hop closer. */
  lemma CloserExists(ids: seq<Id>, up: (Id, Id) -> bool, src: Id, dst: Id) returns (n: Id)
    requires Symmetric(up) && Connected(ids, up, src, dst) && src != dst
    ensures Closer(ids, up, src, dst, n)
  {
    DistSymmetric(ids, up, src, dst);
    var d := Dist(ids, up, dst, src);
    if d == 0 {
      assert false;
    }
    n := ReachesLess(ids, up, dst, src, d - 1);
    ReachesBack(ids, up, dst, n, d - 1);
    DistSymmetric(ids, up, n, dst);
    if Dist(ids, up, n, dst) < d - 1 {
      ReachesMore(ids, up, dst, n, Dist(ids, up, n, dst), src);
    }
  }

  /** The first of the order that is closer: the best hop there is. */
  method PickHop(ids: seq<Id>, order: seq<Id>, up: (Id, Id) -> bool, pub: Id -> bool, dist: map<Id, nat>, src: Id, dst: Id)
    returns (hop: Id)
    requires Symmetric(up) && Sorted(pub, order) && (forall x :: x in order <==> x in ids)
    requires IsDistMap(ids, up, dst, dist) && src in dist && dst in ids && dist[src] >= 2
    ensures BestHop(ids, up, pub, src, dst, hop)
  {
    DistMapMeans(ids, up, dst, dist, src);
    ghost var some := CloserExists(ids, up, src, dst);
    ghost var at :| 0 <= at < |order| && order[at] == some;
    DistMapMeans(ids, up, dst, dist, some);
    var i := 0;
    while !(order[i] in dist && dist[order[i]] == dist[src] - 1 && up(src, order[i]))
      invariant 0 <= i <= at
      invariant forall j :: 0 <= j < i ==> !Closer(ids, up, src, dst, order[j])
      decreases at - i
    {
      DistMapMeans(ids, up, dst, dist, order[i]);
      i := i + 1;
    }
    hop := order[i];
    DistMapMeans(ids, up, dst, dist, hop);
    forall n | Closer(ids, up, src, dst, n) ensures Prefers(pub, hop, n) {
      var k :| 0 <= k < |order| && order[k] == n;
      assert k >= i;
    }
  }

  /** The entries towards one destination. */
  method RoutesTowards(ids: seq<Id>, order: seq<Id>, up: (Id, Id) -> bool, pub: Id -> bool, dst: Id, was: map<(Id, Id), Id>)
    returns (out: map<(Id, Id), Id>)
    requires Symmetric(up) && Sorted(pub, order) && (forall x :: x in order <==> x in ids) && dst in ids
    requires forall s :: (s, dst) in was ==> RoutesTo(ids, up, pub, was, s, dst)
    ensures forall s, d :: d != dst ==> ((s, d) in out <==> (s, d) in was) && ((s, d) in out ==> out[(s, d)] == was[(s, d)])
    ensures forall s :: RoutesTo(ids, up, pub, out, s, dst)
  {
    var dist := Search(order, up, dst);
    SameWalks(order, ids, up, dst, dist);
    out := was;
    var i := 0;
    while i < |ids|
      invariant 0 <= i <= |ids|
      invariant forall s, d :: d != dst ==> ((s, d) in out <==> (s, d) in was) && ((s, d) in out ==> out[(s, d)] == was[(s, d)])
      invariant forall s :: (s, dst) in out && (s, dst) !in was ==> s in ids[..i]
      invariant forall s :: s in ids[..i] && s in dist && dist[s] >= 2 ==>
        (s, dst) in out && BestHop(ids, up, pub, s, dst, out[(s, dst)])
      invariant forall s :: (s, dst) in out && !(s in ids[..i] && s in dist && dist[s] >= 2) ==>
        (s, dst) in was && out[(s, dst)] == was[(s, dst)]
    {
      var src := ids[i];
      assert ids[..i + 1] == ids[..i] + [src];
      if src in dist && dist[src] >= 2 {
        var hop := PickHop(ids, order, up, pub, dist, src, dst);
        out := out[(src, dst) := hop];
      }
      i := i + 1;
    }
    assert ids[..i] == ids;
    forall s ensures RoutesTo(ids, up, pub, out, s, dst) {
      DistMapMeans(ids, up, dst, dist, s);
    }
  }

  /** Every node's next hop towards every node it has no tunnel to: an entry exists exactly
      where one is needed, and names the best neighbour one hop closer. */
  method Routes(ids: seq<Id>, up: (Id, Id) -> bool, pub: Id -> bool) returns (out: map<(Id, Id), Id>)
    requires Symmetric(up)
    ensures forall src, dst :: RoutesTo(ids, up, pub, out, src, dst)
    ensures forall src, dst :: (src, dst) in out ==> src != dst && !up(src, dst)
    ensures forall p :: Walk(ids, up, p) && p[0] != p[|p| - 1] && !up(p[0], p[|p| - 1]) ==> (p[0], p[|p| - 1]) in out
    ensures forall src, dst, n :: (src, dst) in out && Closer(ids, up, src, dst, n) && n != out[(src, dst)] ==>
      if pub(n) != pub(out[(src, dst)]) then pub(out[(src, dst)]) else Less(out[(src, dst)], n)
  {
    var order := Ordered(pub, ids);
    OrderedSorted(pub, ids);
    out := map[];
    var i := 0;
    while i < |ids|
      invariant 0 <= i <= |ids|
      invariant forall s, d :: (s, d) in out ==> d in ids[..i]
      invariant forall s, d :: d in ids[..i] ==> RoutesTo(ids, up, pub, out, s, d)
    {
      var dst := ids[i];
      ghost var was := out;
      out := RoutesTowards(ids, order, up, pub, dst, out);
      assert ids[..i + 1] == ids[..i] + [dst];
      forall s, d | d in ids[..i + 1] ensures RoutesTo(ids, up, pub, out, s, d) {
        if d != dst {
          assert RoutesTo(ids, up, pub, was, s, d);
        }
      }
      i := i + 1;
    }
    assert ids[..i] == ids;
    forall src, dst, n | (src, dst) in out && Closer(ids, up, src, dst, n) ensures Prefers(pub, out[(src, dst)], n) {
      assert RoutesTo(ids, up, pub, out, src, dst);
    }
    forall src, dst | dst !in ids ensures RoutesTo(ids, up, pub, out, src, dst) {
    }
    forall src, dst | (src, dst) in out ensures src != dst && !up(src, dst) {
      assert RoutesTo(ids, up, pub, out, src, dst);
    }
    forall p | Walk(ids, up, p) && p[0] != p[|p| - 1] && !up(p[0], p[|p| - 1]) ensures (p[0], p[|p| - 1]) in out {
      assert Reaches(ids, up, p[0], p[|p| - 1], |p| - 1);
      assert RoutesTo(ids, up, pub, out, p[0], p[|p| - 1]);
    }
  }

  /** The contract leaves no choice: two tables for one graph agree on every pair. */
  lemma RoutesUnique(ids: seq<Id>, up: (Id, Id) -> bool, pub: Id -> bool, a: map<(Id, Id), Id>, b: map<(Id, Id), Id>,
      src: Id, dst: Id)
    requires RoutesTo(ids, up, pub, a, src, dst) && RoutesTo(ids, up, pub, b, src, dst)
    ensures (src, dst) in a <==> (src, dst) in b
    ensures (src, dst) in a ==> a[(src, dst)] == b[(src, dst)]
  {
    if (src, dst) in a {
      LessTotal(a[(src, dst)], b[(src, dst)]);
    }
  }

  /** Where traffic goes from `at` on its way to dst: straight over a tunnel, else by the table. */
  function NextStop(table: map<(Id, Id), Id>, at: Id, dst: Id): Id {
    if (at, dst) in table then table[(at, dst)] else dst
  }

  /** Each stop is over a working tunnel and exactly one hop closer, from wherever one is. */
  lemma NextStopCloser(ids: seq<Id>, up: (Id, Id) -> bool, pub: Id -> bool, table: map<(Id, Id), Id>, at: Id, dst: Id)
    requires Symmetric(up) && RoutesTo(ids, up, pub, table, at, dst) && Connected(ids, up, at, dst) && at != dst && dst in ids
    ensures Closer(ids, up, at, dst, NextStop(table, at, dst))
  {
    if (at, dst) !in table {
      var n := CloserExists(ids, up, at, dst);
      assert Walk(ids, up, [dst]);
      assert Reaches(ids, up, dst, dst, 0);
      var p :| Walk(ids, up, p) && |p| == Dist(ids, up, at, dst) + 1 && p[0] == at && p[Dist(ids, up, at, dst)] == dst;
      assert Walk(ids, up, [at, dst]);
      assert Reaches(ids, up, at, dst, 1);
    }
  }
}
