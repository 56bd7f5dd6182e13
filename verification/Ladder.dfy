/** One subject's failover ladder: health passes over its rungs, with streaks and
    hysteresis, and the rules of the rung in use. */
module Ladder {
  import opened Outcomes
  import opened Kernel
  import opened Subjects

  datatype Rung = Rung(node: string, own: bool, table: nat)

  datatype Report = Report(active: int, node: string, down: bool, reason: seq<(string, string)>, since: int)

  /** What the ladder remembers between passes. */
  datatype Lad = Lad(st: Report, init: bool, good: seq<nat>, bad: seq<nat>, errs: seq<string>)

  datatype Config = Config(subject: Subject, rungs: seq<Rung>, failAfter: int, recoverAfter: int)

  const FRESH: Report := Report(-1, "", false, [], 0)

  function OrDefault(v: int, d: nat): nat { if v < 1 then d else v }

  /** How each rung answers if probed in this pass: nothing wrong, or an error. */
  type Answers = seq<Option<string>>

  predicate Answered(ans: Answers, i: nat) { i < |ans| && ans[i] == None }

  predicate Fits(c: Config, l: Lad) { |l.good| == |l.bad| == |l.errs| == |c.rungs| && -1 <= l.st.active < |c.rungs| }

  // ---- the pass, said without its loops ----

  /** The streaks after rungs 0..m were probed once each. */
  function Probed(l: Lad, m: nat, ans: Answers): Lad
    requires |l.good| == |l.bad| == |l.errs| == |ans| && m <= |ans|
  {
    l.(good := seq(|ans|, i requires 0 <= i < |ans| =>
         if i >= m then l.good[i] else if ans[i] == None then l.good[i] + 1 else 0),
       bad := seq(|ans|, i requires 0 <= i < |ans| => if i >= m then l.bad[i] else if ans[i] == None then 0 else l.bad[i] + 1),
       errs := seq(|ans|, i requires 0 <= i < |ans| =>
         if i >= m then l.errs[i] else if ans[i] == None then "" else ans[i].value))
  }

  /** The first rung in [lo, hi) that answers, else hi. */
  function FirstAnswer(ans: Answers, lo: nat, hi: nat): (r: nat)
    requires lo <= hi <= |ans|
    ensures lo <= r <= hi && (r < hi ==> ans[r] == None)
    ensures forall j :: lo <= j < r ==> ans[j].Some?
    decreases hi - lo
  {
    if lo == hi || ans[lo] == None then lo else FirstAnswer(ans, lo + 1, hi)
  }

  /** The first rung in [lo, hi) whose answer completes a streak of `need`, else hi. */
  function FirstRecovered(good: seq<nat>, ans: Answers, need: nat, lo: nat, hi: nat): (r: nat)
    requires |good| == |ans| && lo <= hi <= |ans|
    ensures lo <= r <= hi && (r < hi ==> ans[r] == None && good[r] + 1 >= need)
    ensures forall j :: lo <= j < r ==> ans[j].Some? || good[j] + 1 < need
    decreases hi - lo
  {
    if lo == hi || (ans[lo] == None && good[lo] + 1 >= need) then lo else FirstRecovered(good, ans, need, lo + 1, hi)
  }

  /** The rung a pass settles on, -1 for none, and how many rungs from the top it probed. */
  datatype Choice = Choice(next: int, probed: nat)

  function Min(a: nat, b: nat): nat { if a < b then a else b }

  function Choose(c: Config, l: Lad, ans: Answers): Choice
    requires Fits(c, l) && |ans| == |c.rungs|
  {
    var n, active := |ans|, l.st.active;
    if active < 0 then
      var i := FirstAnswer(ans, 0, n);
      Choice(if i < n then i else -1, Min(i + 1, n))
    else
      var u := FirstRecovered(l.good, ans, OrDefault(c.recoverAfter, 2), 0, active);
      if u < active then Choice(u, u + 1) else StayOrFall(c, l, ans)
  }

  /** No rung above is ready to take over: keep the live one, or give it up. */
  function StayOrFall(c: Config, l: Lad, ans: Answers): Choice
    requires Fits(c, l) && |ans| == |c.rungs| && l.st.active >= 0
  {
    var n, active := |ans|, l.st.active;
    if ans[active] == None || l.bad[active] + 1 < OrDefault(c.failAfter, 3) then Choice(active, active + 1)
    else
      var d := FirstAnswer(ans, active + 1, n);
      var a := FirstAnswer(ans, 0, active);
      Choice(if d < n then d else if a < active then a else -1, Min(d + 1, n))
  }

  function StepsFor(c: Config, next: int): Result<seq<Step>, PlanError>
    requires next < |c.rungs|
  {
    if next < 0 then BlackholeSteps(c.subject)
    else if c.rungs[next].own then Ok(Clear(c.subject))
    else RouteSteps(c.subject, c.rungs[next].table)
  }

  function Reason(c: Config, errs: seq<string>): seq<(string, string)>
    requires |errs| == |c.rungs|
  {
    seq(|errs|, i requires 0 <= i < |errs| => (c.rungs[i].node, errs[i]))
  }

  function NewState(c: Config, l: Lad, next: int, now: int): Report
    requires Fits(c, l) && next < |c.rungs|
  {
    if next >= 0 then Report(next, c.rungs[next].node, false, [], now) else Report(-1, "", true, Reason(c, l.errs), now)
  }

  datatype PassResult = PassResult(lad: Lad, kernel: Kernel, ok: bool)

  predicate Stays(l: Lad, next: int) { l.init && next == l.st.active && (next >= 0 || l.st.down) }

  /** One health pass: probe, choose, and change the rules only when the rung changes. */
  function Pass(c: Config, l: Lad, k: Kernel, ans: Answers, now: int, broken: set<Cmd>): PassResult
    requires Fits(c, l) && |ans| == |c.rungs|
  {
    var ch := Choose(c, l, ans);
    var p := Probed(l, ch.probed, ans);
    if Stays(l, ch.next) then PassResult(p, k, true)
    else match StepsFor(c, ch.next)
      case Err(_) => PassResult(p, k, false)
      case Ok(steps) =>
        var a := Apply(k, steps, broken);
        if a.ok then PassResult(p.(st := NewState(c, p, ch.next, now), init := true), a.kernel, true)
        else PassResult(p, a.kernel, false)
  }

  // ---- the pass as it runs ----

  class Runner {
    const conf: Config
    var st: Report
    var init: bool
    var good: seq<nat>
    var bad: seq<nat>
    var errs: seq<string>

    ghost function View(): Lad
      reads this
    {
      Lad(st, init, good, bad, errs)
    }

    ghost predicate Valid()
      reads this
    {
      Fits(conf, View())
    }

    constructor (c: Config)
      ensures Valid() && conf == c
      ensures View() == Lad(FRESH, false, seq(|c.rungs|, _ => 0), seq(|c.rungs|, _ => 0), seq(|c.rungs|, _ => ""))
    {
      conf := c;
      st, init := FRESH, false;
      good, bad, errs := seq(|c.rungs|, _ => 0), seq(|c.rungs|, _ => 0), seq(|c.rungs|, _ => "");
    }

    /** One ping, and its mark on the rung's streaks. */
    method Probe(i: nat, ans: Answers) returns (ok: bool)
      requires Valid() && i < |conf.rungs| == |ans|
      modifies this`good, this`bad, this`errs
      ensures Valid() && ok == Answered(ans, i)
      ensures View() == ProbeOne(old(View()), i, ans)
    {
      if ans[i] == None {
        good, bad, errs := good[i := good[i] + 1], bad[i := 0], errs[i := ""];
        return true;
      }
      good, bad, errs := good[i := 0], bad[i := bad[i] + 1], errs[i := ans[i].value];
      return false;
    }

    /** The rungs from lo on, until one answers; l is the ladder as the pass found it. */
    method ProbeDown(lo: nat, ans: Answers, ghost l: Lad) returns (found: int)
      requires Valid() && lo <= |conf.rungs| == |ans|
      requires Shaped(l, ans) && View() == Probed(l, lo, ans)
      modifies this`good, this`bad, this`errs
      ensures Valid()
      ensures var i := FirstAnswer(ans, lo, |ans|);
        && found == (if i < |ans| then i else -1)
        && View() == Probed(l, Min(i + 1, |ans|), ans)
    {
      var i := lo;
      while i < |ans|
        invariant lo <= i <= |ans| && Valid()
        invariant FirstAnswer(ans, lo, |ans|) == FirstAnswer(ans, i, |ans|)
        invariant View() == Probed(l, i, ans)
      {
        ProbedOneMore(l, i, ans);
        var ok := Probe(i, ans);
        if ok {
          return i;
        }
        i := i + 1;
      }
      return -1;
    }

    /** The rungs above the live one, until one has answered often enough. */
    method ProbeUp(need: nat, ans: Answers, ghost l: Lad) returns (found: int)
      requires Valid() && st.active >= 0 && |conf.rungs| == |ans| && View() == l
      modifies this`good, this`bad, this`errs
      ensures Valid()
      ensures var u := FirstRecovered(l.good, ans, need, 0, st.active);
        && found == (if u < st.active then u else st.active)
        && View() == Probed(l, Min(u + 1, st.active), ans)
    {
      ProbedNone(l, ans);
      var i := 0;
      while i < st.active
        invariant 0 <= i <= st.active && Valid()
        invariant FirstRecovered(l.good, ans, need, 0, st.active) == FirstRecovered(l.good, ans, need, i, st.active)
        invariant View() == Probed(l, i, ans)
      {
        ProbedOneMore(l, i, ans);
        var ok := Probe(i, ans);
        if ok && good[i] >= need {
          return i;
        }
        i := i + 1;
      }
      return st.active;
    }

    /** A rung above the live one that answered in this pass is as good as one below. */
    method AnyAbove(ans: Answers, m: nat, ghost l: Lad) returns (found: int)
      requires Valid() && 0 <= st.active <= m <= |conf.rungs| == |ans|
      requires Shaped(l, ans) && View() == Probed(l, m, ans)
      ensures var a := FirstAnswer(ans, 0, st.active); found == if a < st.active then a else -1
    {
      var i := 0;
      while i < st.active
        invariant 0 <= i <= st.active
        invariant FirstAnswer(ans, 0, st.active) == FirstAnswer(ans, i, st.active)
      {
        if good[i] > 0 {
          return i;
        }
        i := i + 1;
      }
      return -1;
    }

    /** The live rung's own probe, and the way down when it has failed too often. */
    method HoldOrFall(ans: Answers, ghost l: Lad) returns (next: int)
      requires Valid() && st.active >= 0 && |conf.rungs| == |ans|
      requires Fits(conf, l) && View() == Probed(l, st.active, ans)
      modifies this`good, this`bad, this`errs
      ensures Valid()
      ensures var ch := StayOrFall(conf, l, ans); next == ch.next && View() == Probed(l, ch.probed, ans)
    {
      ProbedOneMore(l, st.active, ans);
      next := st.active;
      var ok := Probe(st.active, ans);
      if !ok && bad[st.active] >= OrDefault(conf.failAfter, 3) {
        next := ProbeDown(st.active + 1, ans, l);
        if next < 0 {
          next := AnyAbove(ans, |ans|, l);
        }
      }
    }

    /** The probes of one pass and the rung they settle on. */
    method Settle(ans: Answers) returns (next: int)
      requires Valid() && |conf.rungs| == |ans|
      modifies this`good, this`bad, this`errs
      ensures Valid()
      ensures var ch := Choose(conf, old(View()), ans);
        next == ch.next && View() == Probed(old(View()), ch.probed, ans)
    {
      ghost var l := View();
      ProbedNone(l, ans);
      var active := st.active;
      if active < 0 {
        next := ProbeDown(0, ans, l);
        return;
      }
      next := ProbeUp(OrDefault(conf.recoverAfter, 2), ans, l);
      if next == active {
        next := HoldOrFall(ans, l);
      }
    }

    method StepsOf(next: int) returns (r: Result<seq<Step>, PlanError>)
      requires next < |conf.rungs|
      ensures r == StepsFor(conf, next)
    {
      if next < 0 {
        r := BlackholeSteps(conf.subject);
      } else if conf.rungs[next].own {
        r := Ok(Clear(conf.subject));
      } else {
        r := RouteSteps(conf.subject, conf.rungs[next].table);
      }
    }

    /** One health pass. A rule failure leaves the old report in place. */
    method Tick(host: Host, ans: Answers, now: int, broken: set<Cmd>) returns (report: Report, ok: bool)
      requires Valid() && |conf.rungs| == |ans|
      modifies this, host
      ensures Valid() && report == st
      ensures PassResult(View(), host.kernel, ok) == Pass(conf, old(View()), old(host.kernel), ans, now, broken)
    {
      var next := Settle(ans);
      if init && next == st.active && (next >= 0 || st.down) {
        return st, true;
      }
      var plan := StepsOf(next);
      if plan.Err? {
        return st, false;
      }
      ok := host.ApplySteps(plan.value, broken);
      if !ok {
        return st, false;
      }
      st := if next >= 0 then Report(next, conf.rungs[next].node, false, [], now)
            else Report(-1, "", true, Reason(conf, errs), now);
      init := true;
      return st, true;
    }
  }

  predicate Shaped(l: Lad, ans: Answers) { |l.good| == |l.bad| == |l.errs| == |ans| }

  function ProbeOne(l: Lad, i: nat, ans: Answers): Lad
    requires Shaped(l, ans) && i < |ans|
  {
    if ans[i] == None then l.(good := l.good[i := l.good[i] + 1], bad := l.bad[i := 0], errs := l.errs[i := ""])
    else l.(good := l.good[i := 0], bad := l.bad[i := l.bad[i] + 1], errs := l.errs[i := ans[i].value])
  }

  lemma ProbedOneMore(l: Lad, i: nat, ans: Answers)
    requires Shaped(l, ans) && i < |ans|
    ensures ProbeOne(Probed(l, i, ans), i, ans) == Probed(l, i + 1, ans)
  {
    assert forall j :: 0 <= j < |ans| ==> Probed(l, i + 1, ans).good[j] == ProbeOne(Probed(l, i, ans), i, ans).good[j];
  }

  lemma ProbedNone(l: Lad, ans: Answers)
    requires Shaped(l, ans)
    ensures Probed(l, 0, ans) == l
  {
    assert Probed(l, 0, ans).good == l.good && Probed(l, 0, ans).bad == l.bad && Probed(l, 0, ans).errs == l.errs;
  }
}
