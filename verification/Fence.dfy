/** The fence: env ranges of a node without egress never leave by its own uplink. */
module Fence {
  import opened Outcomes
  import opened Peers
  import opened Kernel
  import opened Subjects
  import opened RuleLists
  import opened Links
  import opened Refill

  function Octets(a: nat, b: nat, c: nat, d: nat): nat { ((a * 256 + b) * 256 + c) * 256 + d }

  /** Destinations an exit never forwards to. */
  const REFUSED: seq<Prefix> := [
    Prefix(Octets(10, 0, 0, 0), 8), Prefix(Octets(172, 16, 0, 0), 12), Prefix(Octets(192, 168, 0, 0), 16),
    Prefix(Octets(100, 64, 0, 0), 10), Prefix(Octets(169, 254, 0, 0), 16)]

  predicate InAny(ranges: seq<Prefix>, a: Addr) { exists i :: 0 <= i < |ranges| && Contains(ranges[i], a) }

  datatype Fence = Fence(sources: seq<Prefix>, uplink: Iface)

  const FENCE: Key := (Filter, "STACKR-FENCE")
  const USER: Key := (Filter, "DOCKER-USER")

  function FenceError(f: Fence): Option<PlanError> {
    if RangesError(f.sources).Some? then RangesError(f.sources)
    else if BadName(f.uplink) then Some(BadInterface)
    else None
  }

  /** Private destinations of one source return before its drop. */
  function Returns(src: Prefix, n: nat): seq<FwRule>
    requires n <= |REFUSED|
  {
    seq(n, i requires 0 <= i < n => FwRule([Src(src), Dst(REFUSED[i])], Return))
  }

  function SourceRules(f: Fence, src: Prefix): seq<FwRule> {
    Returns(src, |REFUSED|) + [FwRule([Src(src), Out(f.uplink)], Deny)]
  }

  function FenceRules(f: Fence, n: nat): seq<FwRule>
    requires n <= |f.sources|
  {
    if n == 0 then [FwRule([State(StDnat)], Return)] else FenceRules(f, n - 1) + SourceRules(f, f.sources[n - 1])
  }

  const HOOK: Spot := (USER, FwRule([], Jump("STACKR-FENCE")))

  function FencePlan(f: Fence): Plan {
    Plan([], [(FENCE, FenceRules(f, |f.sources|))], [(HOOK, true)], [], [HOOK], [])
  }

  function FenceUp(f: Fence): Result<seq<Step>, PlanError> {
    match FenceError(f)
    case Some(e) => Err(e)
    case None => Ok(PlanUp(FencePlan(f)))
  }

  function FenceDown(f: Fence): seq<Step> { PlanDown(FencePlan(f)) }

  lemma AppendOneMore(key: Key, rules: seq<FwRule>, r: FwRule)
    ensures AppendAll(key, rules + [r]) == AppendAll(key, rules) + [Do(RuleAppend(key, r))]
  {
  }

  lemma AppendAllConcat(key: Key, a: seq<FwRule>, b: seq<FwRule>)
    ensures AppendAll(key, a + b) == AppendAll(key, a) + AppendAll(key, b)
  {
  }

  lemma OneFill(key: Key, rules: seq<FwRule>)
    ensures Heads([(key, rules)]) == [Quiet(ChainNew(key)), Do(ChainFlush(key))]
    ensures Appends([(key, rules)]) == AppendAll(key, rules)
  {
    assert [(key, rules)][1..] == [];
    assert AppendAll(key, rules) + [] == AppendAll(key, rules);
  }

  /** The plan as it is built: a loop over the sources, and one over the refused ranges inside. */
  method BuildFenceUp(f: Fence) returns (r: Result<seq<Step>, PlanError>)
    ensures r == FenceUp(f)
    ensures r.Ok? <==>
      0 < |f.uplink| <= 15 && f.sources != [] && forall i :: 0 <= i < |f.sources| ==> f.sources[i].bits <= 32
  {
    var e := FenceError(f);
    if e.Some? {
      return Err(e.value);
    }
    var s := [Quiet(ChainNew(FENCE)), Do(ChainFlush(FENCE)), Do(RuleAppend(FENCE, FwRule([State(StDnat)], Return)))];
    ghost var head := s[..2];
    var i := 0;
    while i < |f.sources|
      invariant 0 <= i <= |f.sources| && s == head + AppendAll(FENCE, FenceRules(f, i))
    {
      var src, j := f.sources[i], 0;
      while j < |REFUSED|
        invariant 0 <= j <= |REFUSED| && s == head + AppendAll(FENCE, FenceRules(f, i) + Returns(src, j))
      {
        s := s + [Do(RuleAppend(FENCE, FwRule([Src(src), Dst(REFUSED[j])], Return)))];
        AppendOneMore(FENCE, FenceRules(f, i) + Returns(src, j), FwRule([Src(src), Dst(REFUSED[j])], Return));
        assert FenceRules(f, i) + Returns(src, j + 1) == (FenceRules(f, i) + Returns(src, j)) +
          [FwRule([Src(src), Dst(REFUSED[j])], Return)];
        j := j + 1;
      }
      var drop := FwRule([Src(src), Out(f.uplink)], Deny);
      s := s + [Do(RuleAppend(FENCE, drop))];
      AppendOneMore(FENCE, FenceRules(f, i) + Returns(src, j), drop);
      assert FenceRules(f, i + 1) == (FenceRules(f, i) + Returns(src, j)) + [drop];
      i := i + 1;
    }
    OneFill(FENCE, FenceRules(f, i));
    s := s + [Once(HOOK, true)];
    assert Onces([(HOOK, true)]) == [Once(HOOK, true)];
    assert s == PlanUp(FencePlan(f));
    return Ok(s);
  }

  // ---- what the chain does ----

  lemma {:induction false} ReturnsEnd(src: Prefix, n: nat, p: Packet)
    requires n <= |REFUSED|
    ensures FirstEnd(Returns(src, n), p) ==
      if Contains(src, p.src) && exists i :: 0 <= i < n && Contains(REFUSED[i], p.dst) then Some(Return) else None
  {
    if n > 0 {
      var last := FwRule([Src(src), Dst(REFUSED[n - 1])], Return);
      assert Returns(src, n) == Returns(src, n - 1) + [last];
      FirstEndConcat(Returns(src, n - 1), [last], p);
      ReturnsEnd(src, n - 1, p);
      HitsTwo(Src(src), Dst(REFUSED[n - 1]), Return, p);
      assert [last][1..] == [];
    }
  }

  lemma SourceEnd(f: Fence, src: Prefix, p: Packet)
    ensures FirstEnd(SourceRules(f, src), p) ==
      if !Contains(src, p.src) then None
      else if InAny(REFUSED, p.dst) then Some(Return)
      else if p.outDev == f.uplink then Some(Deny)
      else None
  {
    var drop := FwRule([Src(src), Out(f.uplink)], Deny);
    FirstEndConcat(Returns(src, |REFUSED|), [drop], p);
    ReturnsEnd(src, |REFUSED|, p);
    HitsTwo(Src(src), Out(f.uplink), Deny, p);
    assert [drop][1..] == [];
  }

  predicate FromAny(f: Fence, n: nat, a: Addr)
    requires n <= |f.sources|
  {
    exists i :: 0 <= i < n && Contains(f.sources[i], a)
  }

  lemma {:induction false} FenceEnd(f: Fence, n: nat, p: Packet)
    requires n <= |f.sources|
    ensures FirstEnd(FenceRules(f, n), p) ==
      if StDnat in p.states then Some(Return)
      else if !FromAny(f, n, p.src) then None
      else if InAny(REFUSED, p.dst) then Some(Return)
      else if p.outDev == f.uplink then Some(Deny)
      else None
  {
    if n == 0 {
      var r := FwRule([State(StDnat)], Return);
      HitsOne(State(StDnat), Return, p);
      assert FenceRules(f, 0) == [r] && [r][1..] == [];
    } else {
      FirstEndConcat(FenceRules(f, n - 1), SourceRules(f, f.sources[n - 1]), p);
      FenceEnd(f, n - 1, p);
      SourceEnd(f, f.sources[n - 1], p);
    }
  }

  lemma FenceProper(f: Fence)
    ensures Proper(FencePlan(f))
  {
    FenceNoJumps(f, |f.sources|);
    assert KeysOf(FencePlan(f).fills) == {FENCE};
    assert SpotsOf(FencePlan(f).adds) == {HOOK};
    assert "STACKR-FENCE"[0] != "DOCKER-USER"[0];
  }

  lemma {:induction false} FenceNoJumps(f: Fence, n: nat)
    requires n <= |f.sources|
    ensures forall r :: r in FenceRules(f, n) ==> !r.target.Jump?
  {
    if n > 0 {
      FenceNoJumps(f, n - 1);
    }
  }

  /** Once the fence is up, whatever its chain held before, it drops a packet exactly when it
      is no published port's reply, comes from a listed source, is for a destination outside
      every refused range and would leave by the uplink; it accepts nothing. */
  lemma FenceGuards(k: Kernel, f: Fence, broken: set<Cmd>, p: Packet)
    requires FenceError(f) == None && Apply(k, FenceUp(f).value, broken).ok
    ensures
      var fw := Apply(k, FenceUp(f).value, broken).kernel.fw;
      && FENCE in fw && Count(fw, HOOK) > 0
      && (ChainVerdict(fw[FENCE], p) == Denied <==>
            && StDnat !in p.states && InAny(f.sources, p.src) && !InAny(REFUSED, p.dst) && p.outDev == f.uplink)
      && ChainVerdict(fw[FENCE], p) != Passed
  {
    FenceProper(f);
    UpConverges(k, FencePlan(f), broken);
    assert FencePlan(f).fills[0] == (FENCE, FenceRules(f, |f.sources|));
    assert HOOK in SpotsOf(FencePlan(f).adds) by { assert FencePlan(f).adds[0] == (HOOK, true); }
    FenceEnd(f, |f.sources|, p);
  }

  /** A fence of a new list over one of an old list holds what the new one alone would, whatever
      goes wrong in any of the three. */
  lemma FenceConverges(k: Kernel, older: Fence, f: Fence, broken: set<Cmd>, before: set<Cmd>, later: set<Cmd>)
    requires FenceError(older) == None && FenceError(f) == None
    requires Apply(k, FenceUp(f).value, broken).ok
    requires var mid := Apply(k, FenceUp(older).value, before).kernel; Apply(mid, FenceUp(f).value, later).ok
    ensures
      var mid := Apply(k, FenceUp(older).value, before).kernel;
      var one, two := Apply(k, FenceUp(f).value, broken).kernel.fw, Apply(mid, FenceUp(f).value, later).kernel.fw;
      FENCE in one && FENCE in two && one[FENCE] == two[FENCE]
  {
    FenceProper(f);
    UpConverges(k, FencePlan(f), broken);
    UpConverges(Apply(k, FenceUp(older).value, before).kernel, FencePlan(f), later);
    assert FencePlan(f).fills[0] == (FENCE, FenceRules(f, |f.sources|));
  }

  /** Taking the fence down gives back every chain exactly when it was not up before: no jump
      to it, and no chain, but for an empty one that something else jumps to. */
  lemma FenceUndone(k: Kernel, f: Fence, broken: set<Cmd>, later: set<Cmd>)
    requires FenceError(f) == None && Closed(k.fw) && Apply(k, FenceUp(f).value, broken).ok
    requires ChecksHold(FencePlan(f).adds, broken) && NothingLost(FencePlan(f), later)
    ensures
      var mid := Apply(k, FenceUp(f).value, broken).kernel;
      Apply(mid, FenceDown(f), later).kernel.fw == k.fw <==>
        Count(k.fw, HOOK) == 0 && (FENCE in k.fw ==> k.fw[FENCE] == [] && JumpedOut(k.fw, FENCE, {FENCE}))
  {
    FenceProper(f);
    assert KeysOf(FencePlan(f).fills) == {FENCE};
    Refill.DownUndoesUp(k, FencePlan(f), broken, Apply(k, FenceUp(f).value, broken).kernel, later);
    assert FencePlan(f).unhook[0] == HOOK;
  }
}
