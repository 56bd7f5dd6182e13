/** Plans that own whole chains: flush and refill them, hook them in once, and take both away. */
module Refill {
  import opened Outcomes
  import opened Chains
  import opened Kernel
  import opened Subjects
  import opened RuleLists
  import opened Links

  /** A chain the plan owns, and the rules it is to hold. */
  type Fill = (Key, seq<FwRule>)

  function KeysOf(fills: seq<Fill>): set<Key> { set x | x in fills :: x.0 }

  function Heads(fills: seq<Fill>): seq<Step> {
    if fills == [] then [] else [Quiet(ChainNew(fills[0].0)), Do(ChainFlush(fills[0].0))] + Heads(fills[1..])
  }

  function AppendAll(key: Key, rules: seq<FwRule>): seq<Step> {
    seq(|rules|, i requires 0 <= i < |rules| => Do(RuleAppend(key, rules[i])))
  }

  function Appends(fills: seq<Fill>): seq<Step> {
    if fills == [] then [] else AppendAll(fills[0].0, fills[0].1) + Appends(fills[1..])
  }

  function Tidies(fills: seq<Fill>): seq<Step> {
    if fills == [] then [] else [Quiet(ChainFlush(fills[0].0)), Quiet(ChainDrop(fills[0].0))] + Tidies(fills[1..])
  }

  /** A plan's two halves around its chains: net steps, chains, hooks, net steps. */
  datatype Plan = Plan(before: seq<Step>, fills: seq<Fill>, adds: seq<Addition>, after: seq<Step>, unhook: seq<Spot>,
    netDown: seq<Step>)

  function PlanUp(pl: Plan): seq<Step> { pl.before + (Heads(pl.fills) + (Appends(pl.fills) + (Onces(pl.adds) + pl.after))) }

  function PlanDown(pl: Plan): seq<Step> { pl.netDown + (Erasures(pl.unhook) + Tidies(pl.fills)) }

  predicate NetSteps(steps: seq<Step>) {
    forall i :: 0 <= i < |steps| ==> !IsFw(steps[i].cmd) && steps[i].check == None
  }

  predicate NetPart(pl: Plan) {
    && NetSteps(pl.before) && NetSteps(pl.after) && NetSteps(pl.netDown)
    && forall i :: 0 <= i < |pl.netDown| ==> pl.netDown[i].ignoreErr
  }

  /** The owned chains are different ones and hold no jumps. */
  predicate ChainPart(pl: Plan) {
    && (forall i, j :: 0 <= i < j < |pl.fills| ==> pl.fills[i].0 != pl.fills[j].0)
    && (forall i, r :: 0 <= i < |pl.fills| && r in pl.fills[i].1 ==> !r.target.Jump?)
  }

  /** The hooks stand in other chains, and the way down removes just them. */
  predicate HookPart(pl: Plan) {
    && (forall a :: a in pl.adds ==> a.0.0 !in KeysOf(pl.fills))
    && SpotsOf(pl.adds) == set sp | sp in pl.unhook
  }

  predicate Proper(pl: Plan) { NetPart(pl) && ChainPart(pl) && HookPart(pl) }

  ghost predicate Elsewhere(f: Firewall, g: Firewall, own: set<Key>) {
    forall key :: key !in own ==> (key in g <==> key in f) && (key in f ==> g[key] == f[key])
  }

  lemma {:induction false} HeadsEffect(k: Kernel, fills: seq<Fill>, broken: set<Cmd>)
    requires Apply(k, Heads(fills), broken).ok
    ensures var g := Apply(k, Heads(fills), broken).kernel.fw;
      Elsewhere(k.fw, g, KeysOf(fills)) && forall key :: key in KeysOf(fills) ==> key in g && g[key] == []
    decreases |fills|
  {
    if fills != [] {
      var key := fills[0].0;
      var two := [Quiet(ChainNew(key)), Do(ChainFlush(key))];
      assert fills == [fills[0]] + fills[1..] && KeysOf(fills) == {key} + KeysOf(fills[1..]);
      ApplyConcat(k, two, Heads(fills[1..]), broken);
      ApplyTwo(k, two[0], two[1], broken);
      HeadsEffect(Apply(k, two, broken).kernel, fills[1..], broken);
    }
  }

  lemma {:induction false} AppendAllEffect(k: Kernel, key: Key, rules: seq<FwRule>, broken: set<Cmd>)
    requires key in k.fw && Apply(k, AppendAll(key, rules), broken).ok
    ensures Apply(k, AppendAll(key, rules), broken).kernel.fw == k.fw[key := k.fw[key] + rules]
    decreases |rules|
  {
    if rules == [] {
      assert k.fw[key] + rules == k.fw[key];
    } else {
      var s := AppendAll(key, rules);
      assert s[0] == Do(RuleAppend(key, rules[0])) && s[1..] == AppendAll(key, rules[1..]);
      var mid := RunStep(k, s[0], broken).kernel;
      AppendAllEffect(mid, key, rules[1..], broken);
      assert mid.fw[key] + rules[1..] == k.fw[key] + rules;
    }
  }

  ghost predicate Holds(g: Firewall, fills: seq<Fill>) {
    forall i :: 0 <= i < |fills| ==> fills[i].0 in g && g[fills[i].0] == fills[i].1
  }

  lemma {:induction false} AppendsEffect(k: Kernel, fills: seq<Fill>, broken: set<Cmd>)
    requires Apply(k, Appends(fills), broken).ok
    requires forall i, j :: 0 <= i < j < |fills| ==> fills[i].0 != fills[j].0
    requires forall i :: 0 <= i < |fills| ==> fills[i].0 in k.fw && k.fw[fills[i].0] == []
    ensures var g := Apply(k, Appends(fills), broken).kernel.fw; Elsewhere(k.fw, g, KeysOf(fills)) && Holds(g, fills)
    decreases |fills|
  {
    if fills != [] {
      var key, rules, rest := fills[0].0, fills[0].1, fills[1..];
      assert fills == [fills[0]] + rest && KeysOf(fills) == {key} + KeysOf(rest);
      ApplyConcat(k, AppendAll(key, rules), Appends(rest), broken);
      AppendAllEffect(k, key, rules, broken);
      var mid := Apply(k, AppendAll(key, rules), broken).kernel;
      AppendsEffect(mid, rest, broken);
      var g := Apply(mid, Appends(rest), broken).kernel.fw;
      assert forall i :: 0 <= i < |rest| ==> rest[i] == fills[i + 1];
      assert key !in KeysOf(rest);
      forall i | 0 <= i < |fills| ensures fills[i].0 in g && g[fills[i].0] == fills[i].1 {
        if i > 0 {
          assert rest[i - 1] == fills[i];
        }
      }
    }
  }

  /** A plan that came up: m has its chains filled and its hooks not yet in. */
  lemma UpEffect(k: Kernel, pl: Plan, broken: set<Cmd>) returns (m: Kernel)
    requires Proper(pl) && Apply(k, PlanUp(pl), broken).ok
    ensures Elsewhere(k.fw, m.fw, KeysOf(pl.fills)) && Holds(m.fw, pl.fills)
    ensures Apply(m, Onces(pl.adds), broken).ok
    ensures Apply(m, Onces(pl.adds), broken).kernel.fw == Apply(k, PlanUp(pl), broken).kernel.fw
    ensures
      var h := Apply(k, PlanUp(pl), broken).kernel.fw;
      && SameApart(m.fw, h, SpotsOf(pl.adds)) && Gained(m.fw, h, SpotsOf(pl.adds))
      && (forall sp :: sp in SpotsOf(pl.adds) ==> Count(h, sp) > 0)
      && (ChecksHold(pl.adds, broken) ==> GainedOnce(m.fw, h))
  {
    var fills := pl.fills;
    ApplyConcat(k, pl.before, Heads(fills) + (Appends(fills) + (Onces(pl.adds) + pl.after)), broken);
    NetOnly(k, pl.before, broken);
    var k1 := Apply(k, pl.before, broken).kernel;
    ApplyConcat(k1, Heads(fills), Appends(fills) + (Onces(pl.adds) + pl.after), broken);
    HeadsEffect(k1, fills, broken);
    var k2 := Apply(k1, Heads(fills), broken).kernel;
    ApplyConcat(k2, Appends(fills), Onces(pl.adds) + pl.after, broken);
    assert forall i :: 0 <= i < |fills| ==> fills[i].0 in KeysOf(fills);
    AppendsEffect(k2, fills, broken);
    var k3 := Apply(k2, Appends(fills), broken).kernel;
    ApplyConcat(k3, Onces(pl.adds), pl.after, broken);
    OncesEffect(k3, pl.adds, SpotsOf(pl.adds), broken);
    NetOnly(Apply(k3, Onces(pl.adds), broken).kernel, pl.after, broken);
    m := k3;
  }

  /** Convergence: whatever stood there, a plan that came up holds exactly its own rules in its
      own chains and is hooked in; every other chain is as it was but for the hooks. */
  lemma UpConverges(k: Kernel, pl: Plan, broken: set<Cmd>)
    requires Proper(pl) && Apply(k, PlanUp(pl), broken).ok
    ensures
      var h := Apply(k, PlanUp(pl), broken).kernel.fw;
      && Holds(h, pl.fills)
      && (forall sp :: sp in SpotsOf(pl.adds) ==> Count(h, sp) > 0)
      && (forall key :: key !in KeysOf(pl.fills) && key in k.fw ==>
            Without(h, key, SpotsOf(pl.adds)) == Without(k.fw, key, SpotsOf(pl.adds)))
      && (forall key :: key !in KeysOf(pl.fills) ==> (key in h <==> key in k.fw))
  {
    var m := UpEffect(k, pl, broken);
    var g := m.fw;
    var h := Apply(k, PlanUp(pl), broken).kernel.fw;
    forall i | 0 <= i < |pl.fills| ensures pl.fills[i].0 in h && h[pl.fills[i].0] == pl.fills[i].1 {
      OwnUnhooked(g, h, pl, i);
    }
  }

  /** The hooks do not reach into the plan's own chains. */
  lemma OwnUnhooked(g: Firewall, h: Firewall, pl: Plan, i: nat)
    requires Proper(pl) && i < |pl.fills| && Holds(g, pl.fills) && SameApart(g, h, SpotsOf(pl.adds))
    ensures pl.fills[i].0 in h && h[pl.fills[i].0] == pl.fills[i].1
  {
    var key := pl.fills[i].0;
    assert pl.fills[i] in pl.fills;
    assert forall r :: (key, r) !in SpotsOf(pl.adds);
    assert Without(g, key, SpotsOf(pl.adds)) == Without(h, key, SpotsOf(pl.adds));
    OthersAll(g[key], key, SpotsOf(pl.adds));
    OthersAll(h[key], key, SpotsOf(pl.adds));
  }

  // ---- down ----

  /** Every jump has a chain to go to; the kernel refuses anything else. */
  predicate Closed(f: Firewall) {
    forall key, r :: key in f && r in f[key] && r.target.Jump? ==> (key.0, r.target.chain) in f
  }

  /** A chain other than the given ones jumps to c. */
  predicate JumpedOut(f: Firewall, c: Key, own: set<Key>) {
    exists key, i :: key in f && key !in own && 0 <= i < |f[key]| && JumpsTo(c, key, f[key][i])
  }

  predicate NoJumps(f: Firewall, own: set<Key>) {
    forall key, r :: key in own && key in f && r in f[key] ==> !r.target.Jump?
  }

  lemma TidyOne(k: Kernel, c: Key, own: set<Key>, broken: set<Cmd>)
    requires c in own && NoJumps(k.fw, own) && ChainFlush(c) !in broken && ChainDrop(c) !in broken
    ensures
      var a := Apply(k, [Quiet(ChainFlush(c)), Quiet(ChainDrop(c))], broken);
      && a.ok && Elsewhere(k.fw, a.kernel.fw, {c})
      && (c in a.kernel.fw <==> c in k.fw && JumpedOut(k.fw, c, own))
      && (c in a.kernel.fw ==> a.kernel.fw[c] == [])
  {
    ApplyTwo(k, Quiet(ChainFlush(c)), Quiet(ChainDrop(c)), broken);
    if c in k.fw {
      var f, jumps := k.fw[c := []], (from: Key, r: FwRule) => JumpsTo(c, from, r);
      if JumpedOut(k.fw, c, own) {
        var key, i :| key in k.fw && key !in own && 0 <= i < |k.fw[key]| && JumpsTo(c, key, k.fw[key][i]);
        assert key in f && jumps(key, f[key][i]);
      }
      if Referenced(f, jumps) {
        var key, i :| key in f && 0 <= i < |f[key]| && jumps(key, f[key][i]);
        assert key in k.fw && JumpsTo(c, key, k.fw[key][i]) && k.fw[key][i] in k.fw[key];
        assert key !in own;
      }
    }
  }

  lemma {:induction false} TidiesEffect(k: Kernel, fills: seq<Fill>, own: set<Key>, broken: set<Cmd>)
    requires KeysOf(fills) <= own && NoJumps(k.fw, own)
    requires forall i, j :: 0 <= i < j < |fills| ==> fills[i].0 != fills[j].0
    requires forall c :: c in KeysOf(fills) ==> ChainFlush(c) !in broken && ChainDrop(c) !in broken
    ensures
      var a := Apply(k, Tidies(fills), broken);
      && a.ok && Elsewhere(k.fw, a.kernel.fw, KeysOf(fills))
      && forall c :: c in KeysOf(fills) ==>
           (c in a.kernel.fw <==> c in k.fw && JumpedOut(k.fw, c, own)) && (c in a.kernel.fw ==> a.kernel.fw[c] == [])
    decreases |fills|
  {
    if fills != [] {
      var c, rest := fills[0].0, fills[1..];
      var two := [Quiet(ChainFlush(c)), Quiet(ChainDrop(c))];
      assert fills == [fills[0]] + rest && KeysOf(fills) == {c} + KeysOf(rest);
      assert forall i :: 0 <= i < |rest| ==> rest[i] == fills[i + 1];
      assert c !in KeysOf(rest);
      ApplyConcat(k, two, Tidies(rest), broken);
      TidyOne(k, c, own, broken);
      var mid := Apply(k, two, broken).kernel;
      TidiesEffect(mid, rest, own, broken);
      forall x | x in own ensures JumpedOut(mid.fw, x, own) <==> JumpedOut(k.fw, x, own) {
        SameOutside(k.fw, mid.fw, x, own);
      }
    }
  }

  lemma SameOutside(f: Firewall, g: Firewall, c: Key, own: set<Key>)
    requires Elsewhere(f, g, own) || exists x :: x in own && Elsewhere(f, g, {x})
    ensures JumpedOut(f, c, own) <==> JumpedOut(g, c, own)
  {
    if JumpedOut(f, c, own) {
      var key, i :| key in f && key !in own && 0 <= i < |f[key]| && JumpsTo(c, key, f[key][i]);
      assert key in g && JumpsTo(c, key, g[key][i]);
    }
    if JumpedOut(g, c, own) {
      var key, i :| key in g && key !in own && 0 <= i < |g[key]| && JumpsTo(c, key, g[key][i]);
      assert key in f && JumpsTo(c, key, f[key][i]);
    }
  }

  lemma {:induction false} QuietIsOk(k: Kernel, steps: seq<Step>, broken: set<Cmd>)
    requires forall i :: 0 <= i < |steps| ==> steps[i].ignoreErr
    ensures Apply(k, steps, broken).ok
    decreases |steps|
  {
    if steps != [] {
      QuietIsOk(RunStep(k, steps[0], broken).kernel, steps[1..], broken);
    }
  }

  predicate NothingLost(pl: Plan, broken: set<Cmd>) {
    && NoneLost(pl.unhook, broken)
    && forall c :: c in KeysOf(pl.fills) ==> ChainFlush(c) !in broken && ChainDrop(c) !in broken
  }

  /** A plan going down: u is the firewall with its hooks deleted and its chains still there. */
  lemma DownEffect(k: Kernel, pl: Plan, broken: set<Cmd>) returns (u: Firewall)
    requires Proper(pl) && NothingLost(pl, broken) && Holds(k.fw, pl.fills)
    ensures SameApart(k.fw, u, SpotsOf(pl.adds)) && Lessened(k.fw, u, pl.unhook)
    ensures forall sp :: sp in pl.unhook && Count(k.fw, sp) > 0 ==> Count(u, sp) < Count(k.fw, sp)
    ensures
      var w := Apply(k, PlanDown(pl), broken).kernel.fw;
      && Elsewhere(u, w, KeysOf(pl.fills))
      && forall c :: c in KeysOf(pl.fills) ==> (c in w <==> JumpedOut(u, c, KeysOf(pl.fills))) && (c in w ==> w[c] == [])
  {
    ApplyConcat(k, pl.netDown, Erasures(pl.unhook) + Tidies(pl.fills), broken);
    NetOnly(k, pl.netDown, broken);
    var k1 := Apply(k, pl.netDown, broken);
    QuietIsOk(k, pl.netDown, broken);
    ApplyConcat(k1.kernel, Erasures(pl.unhook), Tidies(pl.fills), broken);
    ErasuresEffect(k1.kernel, pl.unhook, SpotsOf(pl.adds), broken);
    var k2 := Apply(k1.kernel, Erasures(pl.unhook), broken).kernel;
    u := k2.fw;
    forall c | c in KeysOf(pl.fills) ensures c in u && forall r :: r in u[c] ==> !r.target.Jump? {
      var i :| 0 <= i < |pl.fills| && pl.fills[i].0 == c;
      OwnUnhooked(k.fw, u, pl, i);
    }
    TidiesEffect(k2, pl.fills, KeysOf(pl.fills), broken);
  }

  /** Down after Up gives back every chain, order included, exactly when none of the plan's
      hooks stood there before and each of its chains was missing, or empty and kept alive by a
      jump that is not the plan's. */
  lemma DownUndoesUp(k: Kernel, pl: Plan, broken: set<Cmd>, mid: Kernel, later: set<Cmd>)
    requires Proper(pl) && Closed(k.fw) && Apply(k, PlanUp(pl), broken).ok && ChecksHold(pl.adds, broken)
    requires mid.fw == Apply(k, PlanUp(pl), broken).kernel.fw && NothingLost(pl, later)
    ensures
      Apply(mid, PlanDown(pl), later).kernel.fw == k.fw <==>
        && (forall sp :: sp in pl.unhook ==> Count(k.fw, sp) == 0)
        && (forall c :: c in KeysOf(pl.fills) && c in k.fw ==> k.fw[c] == [] && JumpedOut(k.fw, c, KeysOf(pl.fills)))
  {
    var m := UpEffect(k, pl, broken);
    var g := m.fw;
    UpConverges(k, pl, broken);
    var u := DownEffect(mid, pl, later);
    var w := Apply(mid, PlanDown(pl), later).kernel.fw;
    UpThenDown(g, mid.fw, u, pl.adds, pl.unhook);
    HookCounts(k.fw, g, pl);
    HookCounts(u, w, pl);
    if forall sp :: sp in pl.unhook ==> Count(k.fw, sp) == 0 {
      UnhookedCompared(k.fw, g, w, pl);
    } else {
      var sp :| sp in pl.unhook && Count(k.fw, sp) > 0;
      assert sp in SpotsOf(pl.adds) && Count(w, sp) < Count(k.fw, sp);
    }
  }

  lemma HookCounts(f: Firewall, g: Firewall, pl: Plan)
    requires Proper(pl) && Elsewhere(f, g, KeysOf(pl.fills))
    ensures forall sp :: sp in pl.unhook ==> Count(f, sp) == Count(g, sp)
  {
    forall sp | sp in pl.unhook ensures Count(f, sp) == Count(g, sp) {
      assert sp in SpotsOf(pl.adds);
      var a :| a in pl.adds && a.0 == sp;
      assert sp.0 !in KeysOf(pl.fills);
    }
  }

  lemma UnhookedCompared(f: Firewall, g: Firewall, w: Firewall, pl: Plan)
    requires Closed(f) && Elsewhere(f, g, KeysOf(pl.fills)) && Elsewhere(g, w, KeysOf(pl.fills))
    requires forall c :: c in KeysOf(pl.fills) ==> (c in w <==> JumpedOut(g, c, KeysOf(pl.fills))) && (c in w ==> w[c] == [])
    ensures w == f <==> forall c :: c in KeysOf(pl.fills) && c in f ==> f[c] == [] && JumpedOut(f, c, KeysOf(pl.fills))
  {
    var own := KeysOf(pl.fills);
    forall c | c in own ensures JumpedOut(g, c, own) <==> JumpedOut(f, c, own) {
      SameOutside(f, g, c, own);
    }
    OwnCompared(f, w, own);
  }

  lemma OwnCompared(f: Firewall, w: Firewall, own: set<Key>)
    requires Closed(f) && Elsewhere(f, w, own)
    requires forall c :: c in own ==> (c in w <==> JumpedOut(f, c, own)) && (c in w ==> w[c] == [])
    ensures w == f <==> forall c :: c in own && c in f ==> f[c] == [] && JumpedOut(f, c, own)
  {
    forall c | c in own && JumpedOut(f, c, own) ensures c in f {
      var key, i :| key in f && key !in own && 0 <= i < |f[key]| && JumpsTo(c, key, f[key][i]);
      assert f[key][i] in f[key];
    }
    if forall c :: c in own && c in f ==> f[c] == [] && JumpedOut(f, c, own) {
      assert forall key :: (key in w <==> key in f) && (key in f ==> w[key] == f[key]);
      assert w.Keys == f.Keys;
    }
  }
}
