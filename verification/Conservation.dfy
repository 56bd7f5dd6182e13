/** No prefix is lost or doubled on its way into a node's peer list. */
module Conservation {
  import opened Mesh
  import opened Peers
  import opened Delivery

  /** Every prefix in the list's entries, as often as it stands there. */
  function Total(list: seq<Peer>): multiset<Prefix> {
    if list == [] then multiset{} else Total(list[..|list| - 1]) + multiset(list[|list| - 1].allowed)
  }

  /** The prefixes of one node, if it counts and its home is among the given ones. */
  function Share(self: Node, o: Node, next: (Id, Id) -> Id, homes: seq<Id>): multiset<Prefix> {
    if Eligible(self, o) && Home(self, o, next) in homes then multiset(o.subnets) + multiset{Prefix(o.transit, 32)}
    else multiset{}
  }

  /** What the list owes: each eligible node's prefixes once, if its home is an entry. */
  function Due(self: Node, all: seq<Node>, next: (Id, Id) -> Id, homes: seq<Id>): multiset<Prefix> {
    if all == [] then multiset{}
    else Due(self, all[..|all| - 1], next, homes) + Share(self, all[|all| - 1], next, homes)
  }

  function CarriedBy(self: Node, all: seq<Node>, next: (Id, Id) -> Id, ids: seq<Id>): multiset<Prefix> {
    if ids == [] then multiset{}
    else CarriedBy(self, all, next, ids[..|ids| - 1]) + multiset(Carried(self, all, next, ids[|ids| - 1]))
  }

  function NodesOf(list: seq<Peer>): seq<Id> {
    seq(|list|, i requires 0 <= i < |list| => list[i].node)
  }

  function Load(self: Node, all: seq<Node>, next: (Id, Id) -> Id, es: seq<Peer>): seq<Peer> {
    seq(|es|, i requires 0 <= i < |es| => WithCarried(self, all, next, es[i]))
  }

  lemma {:induction false} LoadTotal(self: Node, all: seq<Node>, next: (Id, Id) -> Id, es: seq<Peer>)
    ensures Total(Load(self, all, next, es)) == Total(es) + CarriedBy(self, all, next, NodesOf(es))
  {
    if es != [] {
      var n := |es| - 1;
      LoadTotal(self, all, next, es[..n]);
      assert Load(self, all, next, es)[..n] == Load(self, all, next, es[..n]);
      assert NodesOf(es)[..n] == NodesOf(es[..n]);
      assert multiset(es[n].allowed + Carried(self, all, next, es[n].node))
          == multiset(es[n].allowed) + multiset(Carried(self, all, next, es[n].node));
    }
  }

  function MovedShare(self: Node, o: Node, next: (Id, Id) -> Id, ids: seq<Id>): multiset<Prefix> {
    if Eligible(self, o) && Moved(self, o, next) && next(self.id, o.id) in ids then multiset(Own(o)) else multiset{}
  }

  function MovedDue(self: Node, all: seq<Node>, next: (Id, Id) -> Id, ids: seq<Id>): multiset<Prefix> {
    if all == [] then multiset{}
    else MovedDue(self, all[..|all| - 1], next, ids) + MovedShare(self, all[|all| - 1], next, ids)
  }

  predicate Unrepeated(ids: seq<Id>) { forall j, k :: 0 <= j < k < |ids| ==> ids[j] != ids[k] }

  lemma Regroup(a: multiset<Prefix>, b: multiset<Prefix>, c: multiset<Prefix>, d: multiset<Prefix>)
    ensures (a + b) + (c + d) == (a + c) + (b + d)
  {
  }

  /** One more node: among entries of different nodes at most one takes its prefixes. */
  lemma {:induction false} OneMoreCarried(self: Node, all: seq<Node>, next: (Id, Id) -> Id, ids: seq<Id>)
    requires all != [] && Unrepeated(ids)
    ensures CarriedBy(self, all, next, ids) ==
      CarriedBy(self, all[..|all| - 1], next, ids) + MovedShare(self, all[|all| - 1], next, ids)
  {
    if ids != [] {
      var front, last, before := ids[..|ids| - 1], ids[|ids| - 1], all[..|all| - 1];
      var o := all[|all| - 1];
      OneMoreCarried(self, all, next, front);
      var more := multiset(Added(self, o, next, last));
      CarriedGrows(self, all, next, last);
      ShareSplits(self, o, next, ids);
      Regroup(CarriedBy(self, before, next, front), MovedShare(self, o, next, front),
        multiset(Carried(self, before, next, last)), more);
    }
  }

  function Added(self: Node, o: Node, next: (Id, Id) -> Id, hop: Id): seq<Prefix> {
    if Eligible(self, o) && Moved(self, o, next) && next(self.id, o.id) == hop then Own(o) else []
  }

  lemma CarriedGrows(self: Node, all: seq<Node>, next: (Id, Id) -> Id, hop: Id)
    requires all != []
    ensures multiset(Carried(self, all, next, hop))
         == multiset(Carried(self, all[..|all| - 1], next, hop)) + multiset(Added(self, all[|all| - 1], next, hop))
  {
    assert Carried(self, all, next, hop) == Carried(self, all[..|all| - 1], next, hop) + Added(self, all[|all| - 1], next, hop);
  }

  lemma ShareSplits(self: Node, o: Node, next: (Id, Id) -> Id, ids: seq<Id>)
    requires ids != [] && Unrepeated(ids)
    ensures MovedShare(self, o, next, ids)
         == MovedShare(self, o, next, ids[..|ids| - 1]) + multiset(Added(self, o, next, ids[|ids| - 1]))
  {
    assert ids == ids[..|ids| - 1] + [ids[|ids| - 1]];
  }

  lemma {:induction false} CarriedIsMovedDue(self: Node, all: seq<Node>, next: (Id, Id) -> Id, ids: seq<Id>)
    requires Unrepeated(ids)
    ensures CarriedBy(self, all, next, ids) == MovedDue(self, all, next, ids)
  {
    if all == [] {
      NobodyCarries(self, next, ids);
    } else {
      CarriedIsMovedDue(self, all[..|all| - 1], next, ids);
      OneMoreCarried(self, all, next, ids);
    }
  }

  lemma {:induction false} NobodyCarries(self: Node, next: (Id, Id) -> Id, ids: seq<Id>)
    ensures CarriedBy(self, [], next, ids) == multiset{}
  {
    if ids != [] {
      NobodyCarries(self, next, ids[..|ids| - 1]);
    }
  }

  function EntryShare(self: Node, o: Node, next: (Id, Id) -> Id): multiset<Prefix> {
    if Eligible(self, o) then multiset(BaseEntry(self, o, next).allowed) else multiset{}
  }

  lemma EntriesGrow(self: Node, all: seq<Node>, next: (Id, Id) -> Id)
    requires all != []
    ensures Total(Entries(self, all, next))
         == Total(Entries(self, all[..|all| - 1], next)) + EntryShare(self, all[|all| - 1], next)
  {
    var es, o := Entries(self, all[..|all| - 1], next), all[|all| - 1];
    if Eligible(self, o) {
      var e := BaseEntry(self, o, next);
      assert Entries(self, all, next) == es + [e] && (es + [e])[..|es|] == es;
    } else {
      assert Entries(self, all, next) == es;
    }
  }

  /** Entries and moved prefixes together are what is due. */
  lemma {:induction false} EntriesAndMoved(self: Node, all: seq<Node>, next: (Id, Id) -> Id, homes: seq<Id>)
    requires forall o :: o in all && Eligible(self, o) ==> o.id in homes
    ensures Total(Entries(self, all, next)) + MovedDue(self, all, next, homes) == Due(self, all, next, homes)
  {
    if all != [] {
      var front, o := all[..|all| - 1], all[|all| - 1];
      EntriesAndMoved(self, front, next, homes);
      EntriesGrow(self, all, next);
      assert o in all;
      assert multiset(Own(o)) == multiset(o.subnets) + multiset{Prefix(o.transit, 32)};
      assert EntryShare(self, o, next) + MovedShare(self, o, next, homes) == Share(self, o, next, homes);
      Regroup(Total(Entries(self, front, next)), EntryShare(self, o, next), MovedDue(self, front, next, homes),
              MovedShare(self, o, next, homes));
    }
  }

  lemma {:induction false} EligibleListed(self: Node, all: seq<Node>)
    ensures forall o :: o in all && Eligible(self, o) ==> o.id in EligibleIds(self, all)
  {
    if all != [] {
      EligibleListed(self, all[..|all| - 1]);
      assert all == all[..|all| - 1] + [all[|all| - 1]];
    }
  }

  /** Conservation: the list's entries hold, all told, the networks and transit address of every
      eligible node exactly once, but for nodes whose next hop is no peer. */
  lemma PrefixesConserved(self: Node, all: seq<Node>, next: (Id, Id) -> Id)
    requires DistinctIds(all)
    ensures Total(PeerList(self, all, next)) == Due(self, all, next, EligibleIds(self, all))
  {
    var es, ids := Entries(self, all, next), EligibleIds(self, all);
    EntriesInOrder(self, all, next);
    EntriesDistinct(self, all, next);
    EligibleListed(self, all);
    assert NodesOf(es) == ids && Unrepeated(ids);
    assert PeerList(self, all, next) == Load(self, all, next, es);
    LoadTotal(self, all, next, es);
    CarriedIsMovedDue(self, all, next, ids);
    EntriesAndMoved(self, all, next, ids);
  }
}
