/** A subject's policy rules: two priorities per source range. */
module Subjects {
  import opened Outcomes
  import opened Peers
  import opened Kernel

  datatype PlanError =
    | NoSources | BadRange | NoPriorityBase | BadTable | BadInterface | Incomplete | BadAddress | BadEndpoint

  datatype Subject = Subject(sources: seq<Prefix>, base: nat)

  function Do(c: Cmd): Step { Step(c, None, false) }
  function Quiet(c: Cmd): Step { Step(c, None, true) }

  function RangesError(in_: seq<Prefix>): Option<PlanError> {
    if in_ == [] then Some(NoSources)
    else if exists i :: 0 <= i < |in_| && in_[i].bits > 32 then Some(BadRange)
    else None
  }

  function SubjectError(s: Subject): Option<PlanError> {
    if s.base < 1 then Some(NoPriorityBase) else RangesError(s.sources)
  }

  function Pref(s: Subject, i: nat, off: nat): nat { s.base + 2 * i + off }

  predicate InBlock(s: Subject, n: nat, p: nat) { s.base <= p < s.base + 2 * n }

  function ClearSteps(s: Subject, n: nat): seq<Step> {
    if n == 0 then [] else ClearSteps(s, n - 1) + [Quiet(RuleDel(Pref(s, n - 1, 0))), Quiet(RuleDel(Pref(s, n - 1, 1)))]
  }

  /** Local routes win over the second rule: only what main sends by default falls to it. */
  function AddSteps(s: Subject, n: nat, act: Action): seq<Step>
    requires n <= |s.sources|
  {
    if n == 0 then []
    else
      var range := s.sources[n - 1];
      AddSteps(s, n - 1, act)
      + [Do(RuleAdd(Pref(s, n - 1, 0), PolicyRule(From(range), MainNoDefault))),
         Do(RuleAdd(Pref(s, n - 1, 1), PolicyRule(From(range), act)))]
  }

  function Clear(s: Subject): seq<Step> { ClearSteps(s, |s.sources|) }

  function Install(s: Subject, act: Action): seq<Step> { Clear(s) + AddSteps(s, |s.sources|, act) }

  function RouteSteps(s: Subject, table: nat): Result<seq<Step>, PlanError> {
    match SubjectError(s)
    case Some(e) => Err(e)
    case None => if table < 1 then Err(BadTable) else Ok(Install(s, Lookup(table)))
  }

  function BlackholeSteps(s: Subject): Result<seq<Step>, PlanError> {
    match SubjectError(s)
    case Some(e) => Err(e)
    case None => Ok(Install(s, Blackhole))
  }

  /** The builder as it runs: one loop over the sources for each half. */
  method BuildInstall(s: Subject, act: Action) returns (st: seq<Step>)
    ensures st == Install(s, act)
  {
    st := [];
    var i := 0;
    while i < |s.sources|
      invariant 0 <= i <= |s.sources| && st == ClearSteps(s, i)
    {
      st := st + [Quiet(RuleDel(Pref(s, i, 0))), Quiet(RuleDel(Pref(s, i, 1)))];
      i := i + 1;
    }
    i := 0;
    while i < |s.sources|
      invariant 0 <= i <= |s.sources| && st == Clear(s) + AddSteps(s, i, act)
    {
      st := st + [Do(RuleAdd(Pref(s, i, 0), PolicyRule(From(s.sources[i]), MainNoDefault))),
                  Do(RuleAdd(Pref(s, i, 1), PolicyRule(From(s.sources[i]), act)))];
      i := i + 1;
    }
  }

  // ---- what the steps leave ----

  /** Only rules differ, and only inside the first n pairs of the block. */
  ghost predicate OnlyBlock(s: Subject, n: nat, k: Kernel, l: Kernel) {
    && l == k.(net := k.net.(rules := l.net.rules))
    && forall p :: !InBlock(s, n, p) ==> SameAt(k.net.rules, l.net.rules, p)
  }

  predicate SameAt(a: map<nat, PolicyRule>, b: map<nat, PolicyRule>, p: nat) {
    (p in a <==> p in b) && (p in a ==> a[p] == b[p])
  }

  /** l differs from k only in the rules at two priorities. */
  ghost predicate OnlyTwo(k: Kernel, l: Kernel, p: nat) {
    && l == k.(net := k.net.(rules := l.net.rules))
    && forall q :: q != p && q != p + 1 ==> SameAt(k.net.rules, l.net.rules, q)
  }

  lemma BlockGrows(s: Subject, n: nat, k: Kernel, mid: Kernel, l: Kernel)
    requires n > 0 && OnlyBlock(s, n - 1, k, mid) && OnlyTwo(mid, l, Pref(s, n - 1, 0))
    ensures OnlyBlock(s, n, k, l)
  {
    forall p | !InBlock(s, n, p) ensures SameAt(k.net.rules, l.net.rules, p) {
      assert SameAt(k.net.rules, mid.net.rules, p) && SameAt(mid.net.rules, l.net.rules, p);
    }
  }

  lemma TwoDeletes(k: Kernel, p: nat, broken: set<Cmd>)
    ensures
      var a := Apply(k, [Quiet(RuleDel(p)), Quiet(RuleDel(p + 1))], broken);
      && a.ok && OnlyTwo(k, a.kernel, p)
      && forall q :: q == p || q == p + 1 ==> (q in a.kernel.net.rules <==> q in k.net.rules && RuleDel(q) in broken)
  {
    ApplyTwo(k, Quiet(RuleDel(p)), Quiet(RuleDel(p + 1)), broken);
  }

  lemma TwoAdds(k: Kernel, p: nat, r0: PolicyRule, r1: PolicyRule, broken: set<Cmd>)
    ensures
      var a := Apply(k, [Do(RuleAdd(p, r0)), Do(RuleAdd(p + 1, r1))], broken);
      && OnlyTwo(k, a.kernel, p)
      && (p !in k.net.rules && p + 1 !in k.net.rules && broken == {} ==> a.ok)
      && (a.ok ==> p !in k.net.rules && p + 1 !in k.net.rules)
      && (a.ok ==> p in a.kernel.net.rules && a.kernel.net.rules[p] == r0)
      && (a.ok ==> p + 1 in a.kernel.net.rules && a.kernel.net.rules[p + 1] == r1)
  {
    ApplyTwo(k, Do(RuleAdd(p, r0)), Do(RuleAdd(p + 1, r1)), broken);
  }

  lemma {:induction false} ClearEffect(k: Kernel, s: Subject, n: nat, broken: set<Cmd>)
    ensures var a := Apply(k, ClearSteps(s, n), broken);
      && a.ok && OnlyBlock(s, n, k, a.kernel)
      && forall p :: InBlock(s, n, p) ==> (p in a.kernel.net.rules <==> p in k.net.rules && RuleDel(p) in broken)
  {
    if n > 0 {
      ClearEffect(k, s, n - 1, broken);
      var mid := Apply(k, ClearSteps(s, n - 1), broken).kernel;
      var p0, p1 := Pref(s, n - 1, 0), Pref(s, n - 1, 1);
      ApplyConcat(k, ClearSteps(s, n - 1), [Quiet(RuleDel(p0)), Quiet(RuleDel(p1))], broken);
      TwoDeletes(mid, p0, broken);
      var l := Apply(k, ClearSteps(s, n), broken).kernel;
      BlockGrows(s, n, k, mid, l);
      forall p | InBlock(s, n, p) ensures p in l.net.rules <==> p in k.net.rules && RuleDel(p) in broken {
        if InBlock(s, n - 1, p) {
          assert SameAt(mid.net.rules, l.net.rules, p);
        } else {
          assert SameAt(k.net.rules, mid.net.rules, p);
        }
      }
    }
  }

  function RuleOf(s: Subject, act: Action, p: nat): PolicyRule
    requires InBlock(s, |s.sources|, p)
  {
    PolicyRule(From(s.sources[(p - s.base) / 2]), if (p - s.base) % 2 == 0 then MainNoDefault else act)
  }

  ghost predicate Added(s: Subject, n: nat, act: Action, rules: map<nat, PolicyRule>)
    requires n <= |s.sources|
  {
    forall p :: InBlock(s, n, p) ==> p in rules && rules[p] == RuleOf(s, act, p)
  }

  ghost predicate Vacant(s: Subject, n: nat, rules: map<nat, PolicyRule>) {
    forall p :: InBlock(s, n, p) ==> p !in rules
  }

  lemma {:induction false} AddEffect(k: Kernel, s: Subject, n: nat, act: Action, broken: set<Cmd>)
    requires n <= |s.sources|
    ensures var a := Apply(k, AddSteps(s, n, act), broken);
      && OnlyBlock(s, n, k, a.kernel)
      && (a.ok ==> Added(s, n, act, a.kernel.net.rules))
      && (broken == {} && Vacant(s, n, k.net.rules) ==> a.ok)
  {
    if n > 0 {
      AddEffect(k, s, n - 1, act, broken);
      var first := Apply(k, AddSteps(s, n - 1, act), broken);
      AddPair(k, first.kernel, s, n, act, broken);
      var range := s.sources[n - 1];
      ApplyConcat(k, AddSteps(s, n - 1, act),
                  [Do(RuleAdd(Pref(s, n - 1, 0), PolicyRule(From(range), MainNoDefault))),
                   Do(RuleAdd(Pref(s, n - 1, 1), PolicyRule(From(range), act)))], broken);
      if !first.ok {
        forall p | !InBlock(s, n, p) ensures SameAt(k.net.rules, first.kernel.net.rules, p) {
        }
      }
    }
  }

  /** The last source's two rules, after the ones before it. */
  lemma AddPair(k: Kernel, mid: Kernel, s: Subject, n: nat, act: Action, broken: set<Cmd>)
    requires 0 < n <= |s.sources| && OnlyBlock(s, n - 1, k, mid)
    ensures
      var range := s.sources[n - 1];
      var two := [Do(RuleAdd(Pref(s, n - 1, 0), PolicyRule(From(range), MainNoDefault))),
                  Do(RuleAdd(Pref(s, n - 1, 1), PolicyRule(From(range), act)))];
      var a := Apply(mid, two, broken);
      && OnlyBlock(s, n, k, a.kernel)
      && (a.ok && Added(s, n - 1, act, mid.net.rules) ==> Added(s, n, act, a.kernel.net.rules))
      && (broken == {} && Vacant(s, n, k.net.rules) ==> a.ok)
  {
    var range, p0 := s.sources[n - 1], Pref(s, n - 1, 0);
    var r0, r1 := PolicyRule(From(range), MainNoDefault), PolicyRule(From(range), act);
    var l := Apply(mid, [Do(RuleAdd(p0, r0)), Do(RuleAdd(p0 + 1, r1))], broken);
    TwoAdds(mid, p0, r0, r1, broken);
    BlockGrows(s, n, k, mid, l.kernel);
    PairOf(s, n, act);
    if l.ok && Added(s, n - 1, act, mid.net.rules) {
      forall p | InBlock(s, n, p) ensures p in l.kernel.net.rules && l.kernel.net.rules[p] == RuleOf(s, act, p) {
        if InBlock(s, n - 1, p) {
          assert SameAt(mid.net.rules, l.kernel.net.rules, p);
        }
      }
    }
    assert SameAt(k.net.rules, mid.net.rules, p0) && SameAt(k.net.rules, mid.net.rules, p0 + 1);
  }

  lemma PairOf(s: Subject, n: nat, act: Action)
    requires 0 < n <= |s.sources|
    ensures forall p :: InBlock(s, n, p) ==> InBlock(s, n - 1, p) || p == Pref(s, n - 1, 0) || p == Pref(s, n - 1, 1)
    ensures RuleOf(s, act, Pref(s, n - 1, 0)) == PolicyRule(From(s.sources[n - 1]), MainNoDefault)
    ensures RuleOf(s, act, Pref(s, n - 1, 1)) == PolicyRule(From(s.sources[n - 1]), act)
  {
  }

  /** A subject's whole block holds exactly the two rules per source that `act` asks for. */
  ghost predicate Installed(s: Subject, act: Action, rules: map<nat, PolicyRule>) {
    Added(s, |s.sources|, act, rules)
  }

  ghost predicate Cleared(s: Subject, rules: map<nat, PolicyRule>) {
    Vacant(s, |s.sources|, rules)
  }

  /** Every rule now in the block can be deleted. */
  ghost predicate NoDeleteLost(s: Subject, rules: map<nat, PolicyRule>, broken: set<Cmd>) {
    forall p :: InBlock(s, |s.sources|, p) && p in rules ==> RuleDel(p) !in broken
  }

  /** Installing touches only the block; if it succeeds the block is exactly right, whatever
      stood there before and whatever delete went wrong: a leftover would have failed an add.
      That last part rests on a priority holding one rule. The kernel refuses only an equal rule
      at a priority; another one left there would stay in front of the new one. */
  lemma InstallEffect(k: Kernel, s: Subject, act: Action, broken: set<Cmd>)
    ensures var a := Apply(k, Install(s, act), broken);
      && OnlyBlock(s, |s.sources|, k, a.kernel)
      && (a.ok ==> Installed(s, act, a.kernel.net.rules))
      && (broken == {} ==> a.ok)
  {
    var n := |s.sources|;
    ClearEffect(k, s, n, broken);
    var mid := Apply(k, Clear(s), broken).kernel;
    ApplyConcat(k, Clear(s), AddSteps(s, n, act), broken);
    AddEffect(mid, s, n, act, broken);
  }

  /** Clearing always reports success; the block is empty exactly when no delete of an
      occupied priority was lost. */
  lemma ClearMeans(k: Kernel, s: Subject, broken: set<Cmd>)
    ensures var a := Apply(k, Clear(s), broken);
      && a.ok && OnlyBlock(s, |s.sources|, k, a.kernel)
      && (Cleared(s, a.kernel.net.rules) <==> NoDeleteLost(s, k.net.rules, broken))
  {
    ClearEffect(k, s, |s.sources|, broken);
  }
}
