/** A change of a subject's rules that fails, exactly: where the adds stop, and when what is left
    is a whole block all the same. */
module BlockFaults {
  import opened Outcomes
  import opened Kernel
  import opened Subjects

  predicate Deletes(steps: seq<Step>) {
    forall i :: 0 <= i < |steps| ==> steps[i].cmd.RuleDel? && steps[i].check == None
  }

  lemma {:induction false} ClearDeletes(s: Subject, n: nat)
    ensures Deletes(ClearSteps(s, n))
  {
    if n > 0 {
      ClearDeletes(s, n - 1);
    }
  }

  /** What deletes leave is as it was. */
  lemma {:induction false} DeletesKeep(k: Kernel, steps: seq<Step>, broken: set<Cmd>, p: nat)
    requires Deletes(steps)
    ensures
      var rules := Apply(k, steps, broken).kernel.net.rules;
      p in rules ==> p in k.net.rules && rules[p] == k.net.rules[p]
    decreases |steps|
  {
    if steps != [] {
      DeletesKeep(RunStep(k, steps[0], broken).kernel, steps[1..], broken, p);
    }
  }

  // ---- where the adds stop ----

  /** The adds one by one. */
  function AddAt(s: Subject, act: Action, i: nat): Step
    requires i < 2 * |s.sources|
  {
    Do(RuleAdd(s.base + i, RuleOf(s, act, s.base + i)))
  }

  function AddsTo(s: Subject, act: Action, m: nat): seq<Step>
    requires m <= 2 * |s.sources|
  {
    seq(m, i requires 0 <= i < m => AddAt(s, act, i))
  }

  lemma {:induction false} AddStepsAre(s: Subject, n: nat, act: Action)
    requires n <= |s.sources|
    ensures AddSteps(s, n, act) == AddsTo(s, act, 2 * n)
  {
    if n > 0 {
      AddStepsAre(s, n - 1, act);
      PairOf(s, n, act);
      assert AddsTo(s, act, 2 * n) == AddsTo(s, act, 2 * n - 2) + [AddAt(s, act, 2 * n - 2), AddAt(s, act, 2 * n - 1)];
    }
  }

  /** The add for this priority works. */
  predicate Free(s: Subject, act: Action, rules: map<nat, PolicyRule>, broken: set<Cmd>, p: nat)
    requires InBlock(s, |s.sources|, p)
  {
    p !in rules && RuleAdd(p, RuleOf(s, act, p)) !in broken
  }

  /** The first m priorities of the block hold the rules of `act`, all others what they held. */
  ghost predicate AddedTo(s: Subject, act: Action, was: map<nat, PolicyRule>, now: map<nat, PolicyRule>, m: nat)
    requires m <= 2 * |s.sources|
  {
    forall p: nat :: if s.base <= p < s.base + m then p in now && now[p] == RuleOf(s, act, p) else SameAt(was, now, p)
  }

  /** The adds before the m-th work, and if there is an m-th it does not. */
  ghost predicate StopsAt(s: Subject, act: Action, rules: map<nat, PolicyRule>, broken: set<Cmd>, count: nat, m: nat)
    requires m <= count <= 2 * |s.sources|
  {
    && (forall p: nat :: s.base <= p < s.base + m ==> Free(s, act, rules, broken, p))
    && (m < count ==> !Free(s, act, rules, broken, s.base + m))
  }

  /** The last add, after all before it worked. */
  lemma LastAdd(was: map<nat, PolicyRule>, mid: Kernel, s: Subject, act: Action, count: nat, broken: set<Cmd>)
    requires 0 < count <= 2 * |s.sources| && AddedTo(s, act, was, mid.net.rules, count - 1)
    ensures
      var a := RunStep(mid, AddAt(s, act, count - 1), broken);
      && (a.ok <==> Free(s, act, was, broken, s.base + count - 1))
      && AddedTo(s, act, was, a.kernel.net.rules, if a.ok then count else count - 1)
  {
    assert SameAt(was, mid.net.rules, s.base + count - 1);
  }

  /** What the first `count` adds come to: they stop at the m-th. */
  ghost predicate EndsAt(s: Subject, act: Action, was: map<nat, PolicyRule>, a: Applied, broken: set<Cmd>, count: nat, m: nat)
    requires count <= 2 * |s.sources|
  {
    && m <= count && StopsAt(s, act, was, broken, count, m)
    && (a.ok <==> m == count) && AddedTo(s, act, was, a.kernel.net.rules, m)
  }

  lemma OneMoreAdd(
      was: map<nat, PolicyRule>, first: Applied, s: Subject, act: Action, count: nat, broken: set<Cmd>, m: nat) returns (n: nat)
    requires 0 < count <= 2 * |s.sources| && EndsAt(s, act, was, first, broken, count - 1, m)
    ensures
      var last := AddAt(s, act, count - 1);
      EndsAt(s, act, was, if first.ok then RunStep(first.kernel, last, broken) else first, broken, count, n)
  {
    n := m;
    if first.ok {
      LastAdd(was, first.kernel, s, act, count, broken);
      if RunStep(first.kernel, AddAt(s, act, count - 1), broken).ok {
        n := count;
      }
    }
  }

  lemma {:induction false} AddsStop(k: Kernel, s: Subject, act: Action, count: nat, broken: set<Cmd>) returns (m: nat)
    requires count <= 2 * |s.sources|
    ensures EndsAt(s, act, k.net.rules, Apply(k, AddsTo(s, act, count), broken), broken, count, m)
  {
    if count == 0 {
      m := 0;
    } else {
      var first, last := Apply(k, AddsTo(s, act, count - 1), broken), AddAt(s, act, count - 1);
      m := AddsStop(k, s, act, count - 1, broken);
      m := OneMoreAdd(k.net.rules, first, s, act, count, broken, m);
      assert AddsTo(s, act, count) == AddsTo(s, act, count - 1) + [last];
      ApplyConcat(k, AddsTo(s, act, count - 1), [last], broken);
      ApplyOne(first.kernel, last, broken);
    }
  }

  // ---- a whole block all the same ----

  /** There is room for the new rule at p, or there will be, and the add works. */
  predicate Room(s: Subject, act: Action, rules: map<nat, PolicyRule>, broken: set<Cmd>, p: nat)
    requires InBlock(s, |s.sources|, p)
  {
    (p in rules ==> RuleDel(p) !in broken) && RuleAdd(p, RuleOf(s, act, p)) !in broken
  }

  /** The rule at p is the one `act` asks for, and cannot be deleted. */
  predicate Stands(s: Subject, act: Action, rules: map<nat, PolicyRule>, broken: set<Cmd>, p: nat)
    requires InBlock(s, |s.sources|, p)
  {
    p in rules && RuleDel(p) in broken && rules[p] == RuleOf(s, act, p)
  }

  /** Up to m the new rules come in, and from there on the old ones stand. */
  ghost predicate StandsFrom(s: Subject, act: Action, former: Action, rules: map<nat, PolicyRule>, broken: set<Cmd>, m: nat)
    requires m <= 2 * |s.sources|
  {
    && (forall p: nat :: s.base <= p < s.base + m ==> Room(s, act, rules, broken, p))
    && (forall p: nat :: s.base + m <= p < s.base + 2 * |s.sources| ==> Stands(s, former, rules, broken, p))
  }

  /** A change to `act` fails and leaves the block of `former` whole. */
  ghost predicate StaysWhole(s: Subject, act: Action, former: Action, rules: map<nat, PolicyRule>, broken: set<Cmd>) {
    exists m: nat :: m < 2 * |s.sources| && (m <= 1 || act == former) && StandsFrom(s, act, former, rules, broken, m)
  }

  /** What clearing does at p: a rule is left exactly when its delete is lost. */
  predicate Survives(was: map<nat, PolicyRule>, now: map<nat, PolicyRule>, broken: set<Cmd>, p: nat) {
    (p in now <==> p in was && RuleDel(p) in broken) && (p in now ==> now[p] == was[p])
  }

  lemma ClearSurvivors(k: Kernel, s: Subject, broken: set<Cmd>, p: nat)
    requires InBlock(s, |s.sources|, p)
    ensures Survives(k.net.rules, Apply(k, Clear(s), broken).kernel.net.rules, broken, p)
  {
    ClearEffect(k, s, |s.sources|, broken);
    ClearDeletes(s, |s.sources|);
    DeletesKeep(k, Clear(s), broken, p);
  }

  /** Before m the new rules, from m on what survived the clearing. */
  ghost predicate LeftFrom(
      s: Subject, act: Action, was: map<nat, PolicyRule>, now: map<nat, PolicyRule>, broken: set<Cmd>, m: nat)
  {
    forall p: nat :: InBlock(s, |s.sources|, p) ==>
      if p < s.base + m then p in now && now[p] == RuleOf(s, act, p) else Survives(was, now, broken, p)
  }

  /** The first m adds find room, and if there is one more it does not. */
  ghost predicate RoomTo(s: Subject, act: Action, rules: map<nat, PolicyRule>, broken: set<Cmd>, m: nat)
    requires m <= 2 * |s.sources|
  {
    && (forall p: nat :: s.base <= p < s.base + m ==> Room(s, act, rules, broken, p))
    && (m < 2 * |s.sources| ==> !Room(s, act, rules, broken, s.base + m))
  }

  /** What an install leaves, by the add it stopped at. */
  lemma InstallStops(k: Kernel, s: Subject, act: Action, broken: set<Cmd>) returns (m: nat)
    ensures m <= 2 * |s.sources| && RoomTo(s, act, k.net.rules, broken, m)
    ensures
      var a := Apply(k, Install(s, act), broken);
      (a.ok <==> m == 2 * |s.sources|) && LeftFrom(s, act, k.net.rules, a.kernel.net.rules, broken, m)
  {
    var n := |s.sources|;
    var mid := Apply(k, Clear(s), broken).kernel;
    ApplyConcat(k, Clear(s), AddSteps(s, n, act), broken);
    ClearMeans(k, s, broken);
    AddStepsAre(s, n, act);
    m := AddsStop(mid, s, act, 2 * n, broken);
    forall p: nat | InBlock(s, n, p) ensures Survives(k.net.rules, mid.net.rules, broken, p) {
      ClearSurvivors(k, s, broken, p);
    }
    LeftByBoth(k.net.rules, mid.net.rules, Apply(k, Install(s, act), broken).kernel.net.rules, s, act, broken, m);
  }

  lemma LeftByBoth(
      was: map<nat, PolicyRule>, mid: map<nat, PolicyRule>, now: map<nat, PolicyRule>, s: Subject, act: Action,
      broken: set<Cmd>, m: nat)
    requires forall p: nat :: InBlock(s, |s.sources|, p) ==> Survives(was, mid, broken, p)
    requires m <= 2 * |s.sources| && StopsAt(s, act, mid, broken, 2 * |s.sources|, m) && AddedTo(s, act, mid, now, m)
    ensures RoomTo(s, act, was, broken, m) && LeftFrom(s, act, was, now, broken, m)
  {
    forall p: nat | InBlock(s, |s.sources|, p) ensures Free(s, act, mid, broken, p) <==> Room(s, act, was, broken, p) {
      assert Survives(was, mid, broken, p);
    }
    forall p: nat | InBlock(s, |s.sources|, p) && p >= s.base + m ensures Survives(was, now, broken, p) {
      assert Survives(was, mid, broken, p) && SameAt(mid, now, p);
    }
  }

  /** Exactly when a change that fails leaves the block of some action whole. */
  lemma FailedInstallWhole(k: Kernel, s: Subject, act: Action, former: Action, broken: set<Cmd>)
    ensures
      var a := Apply(k, Install(s, act), broken);
      !a.ok && Installed(s, former, a.kernel.net.rules) <==> StaysWhole(s, act, former, k.net.rules, broken)
  {
    var a := Apply(k, Install(s, act), broken);
    var m := InstallStops(k, s, act, broken);
    if !a.ok && Installed(s, former, a.kernel.net.rules) {
      WholeStands(k.net.rules, a.kernel.net.rules, s, act, former, broken, m);
    }
    if StaysWhole(s, act, former, k.net.rules, broken) {
      var j: nat :| j < 2 * |s.sources| && (j <= 1 || act == former) && StandsFrom(s, act, former, k.net.rules, broken, j);
      StopIsThere(s, act, former, k.net.rules, broken, j, m);
      forall p: nat | InBlock(s, |s.sources|, p)
        ensures p in a.kernel.net.rules && a.kernel.net.rules[p] == RuleOf(s, former, p)
      {
        assert p < s.base + m ==> RuleOf(s, act, p) == RuleOf(s, former, p);
        assert p >= s.base + m ==> Stands(s, former, k.net.rules, broken, p);
      }
    }
  }

  lemma WholeStands(
      was: map<nat, PolicyRule>, now: map<nat, PolicyRule>, s: Subject, act: Action, former: Action, broken: set<Cmd>, m: nat)
    requires m < 2 * |s.sources| && RoomTo(s, act, was, broken, m) && LeftFrom(s, act, was, now, broken, m)
    requires Installed(s, former, now)
    ensures StaysWhole(s, act, former, was, broken)
  {
    if m > 1 {
      assert InBlock(s, |s.sources|, s.base + 1);
      assert RuleOf(s, act, s.base + 1) == now[s.base + 1] == RuleOf(s, former, s.base + 1);
      assert act == former;
    }
    forall p: nat | s.base + m <= p < s.base + 2 * |s.sources| ensures Stands(s, former, was, broken, p) {
      assert InBlock(s, |s.sources|, p) && p in now && now[p] == RuleOf(s, former, p);
      assert Survives(was, now, broken, p);
    }
    assert StandsFrom(s, act, former, was, broken, m);
  }

  /** No priority both stands and has room. */
  lemma StopIsThere(s: Subject, act: Action, former: Action, rules: map<nat, PolicyRule>, broken: set<Cmd>, j: nat, m: nat)
    requires j < 2 * |s.sources| && m <= 2 * |s.sources| && StandsFrom(s, act, former, rules, broken, j)
    requires RoomTo(s, act, rules, broken, m)
    ensures m == j
  {
    if m > j {
      StandsNotRoom(s, act, former, rules, broken, s.base + j);
    }
  }

  lemma StandsNotRoom(s: Subject, act: Action, former: Action, rules: map<nat, PolicyRule>, broken: set<Cmd>, p: nat)
    requires InBlock(s, |s.sources|, p)
    ensures Stands(s, former, rules, broken, p) ==> !Room(s, act, rules, broken, p)
  {
  }

  /** For a change to another action that reads: after the first priority every old rule
      stands, and the first stands too or is put there by the change. */
  lemma StaysWholeElsewhere(s: Subject, act: Action, former: Action, rules: map<nat, PolicyRule>, broken: set<Cmd>)
    requires act != former && s.sources != []
    ensures
      StaysWhole(s, act, former, rules, broken) <==>
        && (forall p: nat :: s.base < p < s.base + 2 * |s.sources| ==> Stands(s, former, rules, broken, p))
        && (Stands(s, former, rules, broken, s.base) || Room(s, act, rules, broken, s.base))
  {
    if forall p: nat :: s.base < p < s.base + 2 * |s.sources| ==> Stands(s, former, rules, broken, p) {
      if Stands(s, former, rules, broken, s.base) {
        assert StandsFrom(s, act, former, rules, broken, 0);
      } else if Room(s, act, rules, broken, s.base) {
        assert StandsFrom(s, act, former, rules, broken, 1);
      }
    }
  }

  // ---- an empty block, or none at all ----

  /** The very first add of an install. */
  function FirstAdd(s: Subject): Cmd
    requires s.sources != []
  {
    RuleAdd(Pref(s, 0, 0), PolicyRule(From(s.sources[0]), MainNoDefault))
  }

  /** A failed install leaves an empty block exactly when it lost no delete and its first add
      was the one that failed; and if it lost no delete the block is never a whole one. */
  lemma FailedInstall(k: Kernel, s: Subject, act: Action, broken: set<Cmd>)
    requires !Apply(k, Install(s, act), broken).ok
    ensures s.sources != []
    ensures var rules := Apply(k, Install(s, act), broken).kernel.net.rules;
      && (NoDeleteLost(s, k.net.rules, broken) ==> forall other: Action :: !Installed(s, other, rules))
      && (Cleared(s, rules) <==> NoDeleteLost(s, k.net.rules, broken) && FirstAdd(s) in broken)
  {
    var m := InstallStops(k, s, act, broken);
    var rules := Apply(k, Install(s, act), broken).kernel.net.rules;
    var all := |s.sources|;
    assert InBlock(s, all, s.base) && InBlock(s, all, s.base + m);
    assert RuleAdd(s.base, RuleOf(s, act, s.base)) == FirstAdd(s);
    assert Room(s, act, k.net.rules, broken, s.base) <==> m > 0;
    forall p: nat | InBlock(s, all, p) && p >= s.base + m ensures Survives(k.net.rules, rules, broken, p) {
    }
    if Cleared(s, rules) {
      assert m == 0;
      forall p: nat | InBlock(s, all, p) && p in k.net.rules ensures RuleDel(p) !in broken {
        assert Survives(k.net.rules, rules, broken, p);
      }
    }
  }
}
