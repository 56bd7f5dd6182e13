/** Rules added once and deleted again: what lists of such steps do to the chains. */
module RuleLists {
  import opened Outcomes
  import opened Chains
  import opened Kernel
  import opened Subjects

  /** A rule and the chain it goes to. */
  type Spot = (Key, FwRule)

  /** "Add unless it is there": first inserts at the head, else appends. */
  function Once(sp: Spot, first: bool): Step {
    Step(if first then RuleInsert(sp.0, sp.1) else RuleAppend(sp.0, sp.1), Some(RuleCheck(sp.0, sp.1)), false)
  }

  function Erase(sp: Spot): Step { Quiet(RuleDelete(sp.0, sp.1)) }

  function Erasures(spots: seq<Spot>): (r: seq<Step>)
    ensures |r| == |spots|
  {
    seq(|spots|, i requires 0 <= i < |spots| => Erase(spots[i]))
  }

  function Count(f: Firewall, sp: Spot): nat {
    if sp.0 in f then multiset(f[sp.0])[sp.1] else 0
  }

  /** The chain's rules that are none of the given ones. */
  function Without(f: Firewall, key: Key, all: set<Spot>): seq<FwRule> {
    if key in f then Others(f[key], key, all) else []
  }

  function Others(s: seq<FwRule>, key: Key, all: set<Spot>): seq<FwRule> {
    if s == [] then [] else (if (key, s[0]) in all then [] else [s[0]]) + Others(s[1..], key, all)
  }

  lemma {:induction false} OthersConcat(a: seq<FwRule>, b: seq<FwRule>, key: Key, all: set<Spot>)
    ensures Others(a + b, key, all) == Others(a, key, all) + Others(b, key, all)
  {
    if a == [] {
      assert a + b == b;
    } else {
      assert (a + b)[0] == a[0] && (a + b)[1..] == a[1..] + b;
      OthersConcat(a[1..], b, key, all);
    }
  }

  lemma {:induction false} OthersAll(s: seq<FwRule>, key: Key, all: set<Spot>)
    requires forall r :: r in s ==> (key, r) !in all
    ensures Others(s, key, all) == s
  {
    if s != [] {
      OthersAll(s[1..], key, all);
    }
  }

  lemma {:induction false} OthersRemoved(s: seq<FwRule>, r: FwRule, key: Key, all: set<Spot>)
    requires r in s
    ensures (key, r) in all ==> Others(RemoveFirst(s, r), key, all) == Others(s, key, all)
    ensures multiset(RemoveFirst(s, r)) == multiset(s) - multiset{r}
  {
    assert s == [s[0]] + s[1..];
    if s[0] != r {
      var t := RemoveFirst(s[1..], r);
      assert RemoveFirst(s, r)[0] == s[0] && RemoveFirst(s, r)[1..] == t;
      OthersRemoved(s[1..], r, key, all);
    }
  }

  /** Chains the same, and in each the rules other than the given ones the same in order. */
  ghost predicate SameApart(f: Firewall, g: Firewall, all: set<Spot>) {
    f.Keys == g.Keys && forall key :: key in f ==> Without(f, key, all) == Without(g, key, all)
  }

  /** One once: nothing but its own rule moves, and that only from none to one. */
  lemma OnceStep(k: Kernel, sp: Spot, first: bool, all: set<Spot>, broken: set<Cmd>)
    requires sp in all
    ensures
      var a := RunStep(k, Once(sp, first), broken);
      && a.kernel.net == k.net && SameApart(k.fw, a.kernel.fw, all)
      && (a.ok ==> Count(a.kernel.fw, sp) > 0)
      && forall o: Spot :: Count(a.kernel.fw, o) >= Count(k.fw, o)
           && (o != sp || (Count(k.fw, o) > 0 && RuleCheck(sp.0, sp.1) !in broken) ==> Count(a.kernel.fw, o) == Count(k.fw, o))
           && Count(a.kernel.fw, o) <= Count(k.fw, o) + 1
  {
    var a := RunStep(k, Once(sp, first), broken);
    if RuleCheck(sp.0, sp.1) !in broken && Has(k.fw, sp.0, sp.1) {
      assert a == Applied(k, true) && Count(k.fw, sp) > 0;
    } else if Once(sp, first).cmd in broken || Exec(k, Once(sp, first).cmd) == None {
      assert a == Applied(k, false);
    } else {
      AddedOnce(k.fw, sp, first, all);
      assert a.kernel == k.(fw := k.fw[sp.0 := Added(k.fw[sp.0], sp.1, first)]);
    }
  }

  type Addition = (Spot, bool)

  function Onces(adds: seq<Addition>): (r: seq<Step>)
    ensures |r| == |adds|
  {
    seq(|adds|, i requires 0 <= i < |adds| => Once(adds[i].0, adds[i].1))
  }

  function SpotsOf(adds: seq<Addition>): set<Spot> { set a | a in adds :: a.0 }

  /** No check among the onces fails for an outside reason. */
  predicate ChecksHold(adds: seq<Addition>, broken: set<Cmd>) {
    forall i :: 0 <= i < |adds| ==> RuleCheck(adds[i].0.0, adds[i].0.1) !in broken
  }

  /** Counts after f against counts before: none lost, and only the given rules gained. */
  ghost predicate Gained(f: Firewall, g: Firewall, all: set<Spot>) {
    forall o: Spot :: Count(g, o) >= Count(f, o) && (o !in all ==> Count(g, o) == Count(f, o))
  }

  ghost predicate GainedOnce(f: Firewall, g: Firewall) {
    forall o: Spot :: (Count(f, o) > 0 ==> Count(g, o) == Count(f, o)) && Count(g, o) <= Count(f, o) + 1
  }

  lemma {:induction false} OncesEffect(k: Kernel, adds: seq<Addition>, all: set<Spot>, broken: set<Cmd>)
    requires SpotsOf(adds) <= all
    ensures
      var a := Apply(k, Onces(adds), broken);
      && a.kernel.net == k.net && SameApart(k.fw, a.kernel.fw, all) && Gained(k.fw, a.kernel.fw, SpotsOf(adds))
      && (a.ok ==> forall sp :: sp in SpotsOf(adds) ==> Count(a.kernel.fw, sp) > 0)
      && (ChecksHold(adds, broken) ==> GainedOnce(k.fw, a.kernel.fw))
    decreases |adds|
  {
    if adds != [] {
      var sp := adds[0].0;
      assert adds == [adds[0]] + adds[1..] && SpotsOf(adds) == {sp} + SpotsOf(adds[1..]);
      assert Onces(adds)[0] == Once(sp, adds[0].1) && Onces(adds)[1..] == Onces(adds[1..]);
      OnceStep(k, sp, adds[0].1, all, broken);
      var one := RunStep(k, Once(sp, adds[0].1), broken);
      assert Gained(k.fw, one.kernel.fw, SpotsOf(adds));
      if one.ok {
        OncesEffect(one.kernel, adds[1..], all, broken);
        OncesChain(k, one.kernel, Apply(k, Onces(adds), broken).kernel, adds, broken);
      }
    }
  }

  /** The first once and then the rest: counts through both. */
  lemma OncesChain(k: Kernel, mid: Kernel, l: Kernel, adds: seq<Addition>, broken: set<Cmd>)
    requires adds != [] && mid == RunStep(k, Once(adds[0].0, adds[0].1), broken).kernel
    requires Gained(mid.fw, l.fw, SpotsOf(adds[1..]))
    requires ChecksHold(adds[1..], broken) ==> GainedOnce(mid.fw, l.fw)
    requires RunStep(k, Once(adds[0].0, adds[0].1), broken).ok
    ensures Gained(k.fw, l.fw, SpotsOf(adds)) && Count(l.fw, adds[0].0) > 0
    ensures ChecksHold(adds, broken) ==> GainedOnce(k.fw, l.fw)
  {
    var sp := adds[0].0;
    assert SpotsOf(adds) == {sp} + SpotsOf(adds[1..]);
    OnceStep(k, sp, adds[0].1, {sp}, broken);
    assert Count(mid.fw, sp) > 0;
    forall o: Spot
      ensures Count(l.fw, o) >= Count(k.fw, o) && (o !in SpotsOf(adds) ==> Count(l.fw, o) == Count(k.fw, o))
      ensures ChecksHold(adds, broken) ==>
        (Count(k.fw, o) > 0 ==> Count(l.fw, o) == Count(k.fw, o)) && Count(l.fw, o) <= Count(k.fw, o) + 1
    {
      assert Count(mid.fw, o) >= Count(k.fw, o) && Count(l.fw, o) >= Count(mid.fw, o);
    }
  }

  /** Every rule is there already: repeating the onces changes nothing. */
  lemma {:induction false} OncesIdle(k: Kernel, adds: seq<Addition>, broken: set<Cmd>)
    requires ChecksHold(adds, broken) && forall sp :: sp in SpotsOf(adds) ==> Count(k.fw, sp) > 0
    ensures Apply(k, Onces(adds), broken) == Applied(k, true)
    decreases |adds|
  {
    if adds != [] {
      assert adds[0].0 in SpotsOf(adds) && forall sp :: sp in SpotsOf(adds[1..]) ==> sp in SpotsOf(adds);
      assert Onces(adds)[0] == Once(adds[0].0, adds[0].1) && Onces(adds)[1..] == Onces(adds[1..]);
      OncesIdle(k, adds[1..], broken);
    }
  }

  predicate NoneLost(spots: seq<Spot>, broken: set<Cmd>) {
    forall i :: 0 <= i < |spots| ==> RuleDelete(spots[i].0, spots[i].1) !in broken
  }

  /** One erasure: nothing but its own rule moves, and of that one copy goes. */
  lemma EraseStep(k: Kernel, sp: Spot, all: set<Spot>, broken: set<Cmd>)
    requires sp in all
    ensures
      var a := RunStep(k, Erase(sp), broken);
      && a.ok && a.kernel.net == k.net && SameApart(k.fw, a.kernel.fw, all)
      && forall o: Spot ::
           Count(a.kernel.fw, o) ==
             if o == sp && Count(k.fw, o) > 0 && RuleDelete(sp.0, sp.1) !in broken then Count(k.fw, o) - 1 else Count(k.fw, o)
  {
    if Count(k.fw, sp) > 0 && RuleDelete(sp.0, sp.1) !in broken {
      RemovedOnce(k.fw, sp, all);
      assert RunStep(k, Erase(sp), broken).kernel == k.(fw := k.fw[sp.0 := RemoveFirst(k.fw[sp.0], sp.1)]);
    } else {
      assert RunStep(k, Erase(sp), broken) == Applied(k, true);
    }
  }

  lemma RemovedOnce(f: Firewall, sp: Spot, all: set<Spot>)
    requires sp in all && sp.0 in f && sp.1 in f[sp.0]
    ensures
      var g := f[sp.0 := RemoveFirst(f[sp.0], sp.1)];
      && SameApart(f, g, all)
      && forall o: Spot :: Count(g, o) == if o == sp then Count(f, o) - 1 else Count(f, o)
  {
    OthersRemoved(f[sp.0], sp.1, sp.0, all);
  }

  /** The list with one more at its head or its end. */
  function Added(s: seq<FwRule>, r: FwRule, first: bool): seq<FwRule> { if first then [r] + s else s + [r] }

  lemma OthersAdded(s: seq<FwRule>, r: FwRule, first: bool, key: Key, all: set<Spot>)
    requires (key, r) in all
    ensures Others(Added(s, r, first), key, all) == Others(s, key, all)
  {
    assert Others([r], key, all) == [];
    if first {
      OthersConcat([r], s, key, all);
    } else {
      OthersConcat(s, [r], key, all);
    }
  }

  lemma CountsAdded(s: seq<FwRule>, r: FwRule, first: bool)
    ensures multiset(Added(s, r, first)) == multiset(s)[r := multiset(s)[r] + 1]
  {
    if first {
      assert multiset([r] + s) == multiset{r} + multiset(s);
    } else {
      assert multiset(s + [r]) == multiset(s) + multiset{r};
    }
  }

  lemma AddedOnce(f: Firewall, sp: Spot, first: bool, all: set<Spot>)
    requires sp in all && sp.0 in f
    ensures
      var g := f[sp.0 := Added(f[sp.0], sp.1, first)];
      && SameApart(f, g, all)
      && forall o: Spot :: Count(g, o) == if o == sp then Count(f, o) + 1 else Count(f, o)
  {
    OthersAdded(f[sp.0], sp.1, first, sp.0, all);
    CountsAdded(f[sp.0], sp.1, first);
  }

  ghost predicate Lessened(f: Firewall, g: Firewall, spots: seq<Spot>) {
    forall o: Spot :: Count(g, o) <= Count(f, o) && (o !in spots ==> Count(g, o) == Count(f, o))
  }

  lemma {:induction false} ErasuresEffect(k: Kernel, spots: seq<Spot>, all: set<Spot>, broken: set<Cmd>)
    requires forall sp :: sp in spots ==> sp in all
    ensures
      var a := Apply(k, Erasures(spots), broken);
      && a.ok && a.kernel.net == k.net && SameApart(k.fw, a.kernel.fw, all) && Lessened(k.fw, a.kernel.fw, spots)
      && (NoneLost(spots, broken) ==>
            forall sp :: sp in spots && Count(k.fw, sp) > 0 ==> Count(a.kernel.fw, sp) < Count(k.fw, sp))
    decreases |spots|
  {
    if spots != [] {
      assert spots[0] in all && spots == [spots[0]] + spots[1..];
      assert Erasures(spots)[0] == Erase(spots[0]) && Erasures(spots)[1..] == Erasures(spots[1..]);
      EraseStep(k, spots[0], all, broken);
      var mid := RunStep(k, Erase(spots[0]), broken).kernel;
      ErasuresEffect(mid, spots[1..], all, broken);
      var l := Apply(k, Erasures(spots), broken).kernel;
      forall o: Spot
        ensures Count(l.fw, o) <= Count(k.fw, o) && (o !in spots ==> Count(l.fw, o) == Count(k.fw, o))
        ensures NoneLost(spots, broken) && o in spots && Count(k.fw, o) > 0 ==> Count(l.fw, o) < Count(k.fw, o)
      {
        assert Count(l.fw, o) <= Count(mid.fw, o) <= Count(k.fw, o);
      }
    }
  }

  /** Once up, once down, with nothing lost: the chains come back, in order, exactly when none
      of the rules stood there before. A rule that did is not added again, but is deleted. */
  lemma UpThenDown(f: Firewall, g: Firewall, h: Firewall, adds: seq<Addition>, spots: seq<Spot>)
    requires SpotsOf(adds) == set sp | sp in spots
    requires SameApart(f, g, SpotsOf(adds)) && Gained(f, g, SpotsOf(adds)) && GainedOnce(f, g)
    requires SameApart(g, h, SpotsOf(adds)) && Lessened(g, h, spots)
    requires forall sp :: sp in spots && Count(g, sp) > 0 ==> Count(h, sp) < Count(g, sp)
    ensures h == f <==> forall sp :: sp in spots ==> Count(f, sp) == 0
  {
    if forall sp :: sp in spots ==> Count(f, sp) == 0 {
      assert forall sp :: sp in spots ==> Count(f, sp) == 0 && Count(g, sp) <= 1 && Count(h, sp) == 0;
      forall key | key in f ensures h[key] == f[key] {
        assert forall r :: r in f[key] || r in h[key] ==> Count(f, (key, r)) > 0 || Count(h, (key, r)) > 0;
        assert Without(f, key, SpotsOf(adds)) == Without(g, key, SpotsOf(adds)) == Without(h, key, SpotsOf(adds));
        OthersAll(f[key], key, SpotsOf(adds));
        OthersAll(h[key], key, SpotsOf(adds));
      }
    } else {
      var sp :| sp in spots && Count(f, sp) > 0;
      assert Count(g, sp) == Count(f, sp) && Count(h, sp) < Count(g, sp);
    }
  }

  /** The rule is not there, or the check that would find it fails. */
  predicate Lacks(f: Firewall, sp: Spot, broken: set<Cmd>) { Count(f, sp) == 0 || RuleCheck(sp.0, sp.1) in broken }

  /** Two rules for one chain, one for its end and one for its head, each added if lacking. */
  lemma AppendThenInsert(k: Kernel, key: Key, a: FwRule, b: FwRule, broken: set<Cmd>)
    requires a != b && Apply(k, [Once((key, a), false), Once((key, b), true)], broken).ok
    ensures key in k.fw
    ensures
      var fw := Apply(k, [Once((key, a), false), Once((key, b), true)], broken).kernel.fw;
      && key in fw
      && fw[key] == (if Lacks(k.fw, (key, b), broken) then [b] else [])
           + (k.fw[key] + if Lacks(k.fw, (key, a), broken) then [a] else [])
  {
    ApplyTwo(k, Once((key, a), false), Once((key, b), true), broken);
    if !Lacks(k.fw, (key, a), broken) {
      assert k.fw[key] + [] == k.fw[key];
    }
  }

  /** Hooks in other chains leave this one as it was. */
  lemma OncesElsewhere(k: Kernel, adds: seq<Addition>, key: Key, broken: set<Cmd>)
    requires forall x :: x in adds ==> x.0.0 != key
    ensures
      var g := Apply(k, Onces(adds), broken).kernel.fw;
      (key in g <==> key in k.fw) && (key in k.fw ==> g[key] == k.fw[key])
  {
    var g := Apply(k, Onces(adds), broken).kernel.fw;
    OncesEffect(k, adds, SpotsOf(adds), broken);
    assert forall r :: (key, r) !in SpotsOf(adds);
    if key in k.fw {
      assert Without(k.fw, key, SpotsOf(adds)) == Without(g, key, SpotsOf(adds));
      OthersAll(k.fw[key], key, SpotsOf(adds));
      OthersAll(g[key], key, SpotsOf(adds));
    }
  }

  lemma HooksThenTwo(k: Kernel, hooks: seq<Addition>, key: Key, a: FwRule, b: FwRule, broken: set<Cmd>)
    requires a != b
    requires forall x :: x in hooks ==> x.0.0 != key
    requires Apply(k, Onces(hooks + [((key, a), false), ((key, b), true)]), broken).ok
    ensures key in k.fw
    ensures
      var fw := Apply(k, Onces(hooks + [((key, a), false), ((key, b), true)]), broken).kernel.fw;
      && key in fw
      && fw[key] == (if Lacks(k.fw, (key, b), broken) then [b] else [])
           + (k.fw[key] + if Lacks(k.fw, (key, a), broken) then [a] else [])
  {
    var two := [Once((key, a), false), Once((key, b), true)];
    assert Onces(hooks + [((key, a), false), ((key, b), true)]) == Onces(hooks) + two;
    ApplyConcat(k, Onces(hooks), two, broken);
    OncesElsewhere(k, hooks, key, broken);
    AppendThenInsert(Apply(k, Onces(hooks), broken).kernel, key, a, b, broken);
  }
}
