/** Whole runs of one ladder: when a rung is given up, when a better one is taken back. */
module LadderRuns {
  import opened Outcomes
  import opened Kernel
  import opened Ladder

  /** One pass's circumstances; `before` is the kernel it finds. */
  datatype Beat = Beat(ans: Answers, now: int, broken: set<Cmd>, before: Kernel)

  /** A run of passes: the ladder before each and after the last, what each settled on and
      what came of it. */
  datatype History = History(c: Config, beats: seq<Beat>, lads: seq<Lad>, picks: seq<Choice>, outs: seq<PassResult>)

  predicate Shapely(h: History) {
    && |h.lads| == |h.beats| + 1 && |h.picks| == |h.outs| == |h.beats|
    && (forall i :: 0 <= i < |h.beats| ==> |h.beats[i].ans| == |h.c.rungs|)
    && (forall i :: 0 <= i < |h.lads| ==> Fits(h.c, h.lads[i]))
    && (forall i :: 0 <= i < |h.picks| ==> h.picks[i].next < |h.c.rungs| && h.picks[i].probed <= |h.c.rungs|)
  }

  predicate Ticked(h: History, i: nat)
    requires Shapely(h) && i < |h.beats|
  {
    var b := h.beats[i];
    && h.picks[i] == Choose(h.c, h.lads[i], b.ans)
    && h.outs[i] == Pass(h.c, h.lads[i], b.before, b.ans, b.now, b.broken)
    && h.lads[i + 1] == h.outs[i].lad
  }

  /** From a fresh ladder, pass by pass. */
  predicate IsHistory(h: History) {
    Shapely(h) && h.lads[0] == Start(h.c) && forall i :: 0 <= i < |h.beats| ==> Ticked(h, i)
  }

  function Start(c: Config): Lad {
    Lad(FRESH, false, seq(|c.rungs|, _ => 0), seq(|c.rungs|, _ => 0), seq(|c.rungs|, _ => ""))
  }

  function More(h: History, b: Beat): History
    requires Shapely(h) && |b.ans| == |h.c.rungs|
  {
    var l := h.lads[|h.beats|];
    var r := Pass(h.c, l, b.before, b.ans, b.now, b.broken);
    History(h.c, h.beats + [b], h.lads + [r.lad], h.picks + [Choose(h.c, l, b.ans)], h.outs + [r])
  }

  /** Every history goes on with whatever the next pass meets. */
  lemma MoreIsHistory(h: History, b: Beat)
    requires IsHistory(h) && |b.ans| == |h.c.rungs|
    ensures IsHistory(More(h, b))
  {
    var m, n := More(h, b), |h.beats|;
    assert Fits(h.c, m.lads[n + 1]);
    assert Shapely(m);
    forall i | 0 <= i < |m.beats| ensures Ticked(m, i) {
      if i < n {
        assert Ticked(h, i);
        assert m.lads[i] == h.lads[i] && m.lads[i + 1] == h.lads[i + 1] && m.beats[i] == h.beats[i];
      }
    }
  }

  function LiveAt(h: History, i: nat): int
    requires IsHistory(h) && i <= |h.beats|
  {
    h.lads[i].st.active
  }

  /** Pass i asked rung r, and heard this. */
  predicate Heard(h: History, i: nat, r: nat, good: bool)
    requires IsHistory(h) && i < |h.beats| && r < |h.c.rungs|
  {
    r < h.picks[i].probed && (h.beats[i].ans[r] == None) == good
  }

  predicate Skipped(h: History, i: nat, r: nat)
    requires IsHistory(h) && i < |h.beats| && r < |h.c.rungs|
  {
    r >= h.picks[i].probed && !h.outs[i].ok
  }

  /** How many passes in [lo, hi) asked rung r. */
  function Asked(h: History, lo: nat, hi: nat, r: nat): (k: nat)
    requires IsHistory(h) && lo <= hi <= |h.beats|
    ensures k <= hi - lo
  {
    if hi == lo then 0
    else Asked(h, lo, hi - 1, r) + if r < h.picks[hi - 1].probed then 1 else 0
  }

  /** From lo to hi the rung was live, and each time it was asked it failed; it went unasked
      only in a pass whose rule change failed. */
  ghost predicate BadSpell(h: History, lo: nat, hi: nat, r: nat)
    requires IsHistory(h) && lo <= hi <= |h.beats| && r < |h.c.rungs|
  {
    forall i :: lo <= i < hi ==>
      LiveAt(h, i) == r && (Heard(h, i, r, false) || Skipped(h, i, r))
  }

  ghost predicate GoodSpell(h: History, lo: nat, hi: nat, r: nat)
    requires IsHistory(h) && lo <= hi <= |h.beats| && r < |h.c.rungs|
  {
    forall i :: lo <= i < hi ==> Heard(h, i, r, true) || Skipped(h, i, r)
  }

  /** What one pass does to the report and the streaks, seen from outside. */
  lemma OnePass(h: History, n: nat)
    requires IsHistory(h) && n < |h.beats|
    ensures
      var l, m, ch := h.lads[n], h.lads[n + 1], h.picks[n];
      && m.good == Probed(l, ch.probed, h.beats[n].ans).good && m.bad == Probed(l, ch.probed, h.beats[n].ans).bad
      && (m.st.active == ch.next || (m.st == l.st && !h.outs[n].ok))
      && (h.outs[n].ok ==> m.st.active == ch.next && (ch.next < 0 ==> m.st.down))
  {
    assert Ticked(h, n);
  }

  lemma PickIs(h: History, i: nat)
    requires IsHistory(h) && i < |h.beats|
    ensures h.picks[i] == Choose(h.c, h.lads[i], h.beats[i].ans)
  {
    assert Ticked(h, i);
  }

  /** A chosen rung answered in that very pass; the rungs a choice passes over did not. */
  lemma ChosenAnswers(c: Config, l: Lad, ans: Answers)
    requires Fits(c, l) && |ans| == |c.rungs|
    ensures
      var ch, a := Choose(c, l, ans), l.st.active;
      && (ch.next >= 0 && ch.next != a ==> ch.next < ch.probed && ans[ch.next] == None)
      && (ch.next >= 0 && ch.next > a ==> forall r: nat :: r < ch.next && r >= a ==> r < ch.probed && ans[r].Some?)
      && (ch.next == a >= 0 ==> ch.probed == a + 1)
      && ch.next <= ch.probed
      && (ch.next < 0 ==> ch.probed == |ans| && forall r: nat :: r < |ans| ==> ans[r].Some?)
  {
  }

  /** The live rung's failure count is its failures since it went live or last answered. */
  lemma {:induction false} LiveSpell(h: History, n: nat) returns (s: nat)
    requires IsHistory(h) && n <= |h.beats| && LiveAt(h, n) >= 0
    ensures
      var a := LiveAt(h, n);
      s <= n && BadSpell(h, s, n, a) && Asked(h, s, n, a) == h.lads[n].bad[a]
  {
    var a := LiveAt(h, n);
    OnePass(h, n - 1);
    PickIs(h, n - 1);
    ChosenAnswers(h.c, h.lads[n - 1], h.beats[n - 1].ans);
    if LiveAt(h, n - 1) == a && !Heard(h, n - 1, a, true) {
      s := LiveSpell(h, n - 1);
    } else {
      s := n;
    }
  }

  /** A rung above the one now live was above the one before too, or failed in this pass. */
  lemma AboveBefore(h: History, n: nat, r: nat)
    requires IsHistory(h) && n < |h.beats| && r < LiveAt(h, n + 1)
    ensures Heard(h, n, r, false) || (r < LiveAt(h, n) && (Heard(h, n, r, true) || Skipped(h, n, r)))
  {
    OnePass(h, n);
    PickIs(h, n);
    ChosenAnswers(h.c, h.lads[n], h.beats[n].ans);
  }

  lemma StreakStep(h: History, n: nat, r: nat)
    requires IsHistory(h) && n < |h.beats| && r < |h.c.rungs|
    ensures h.lads[n + 1].good[r] ==
      if Heard(h, n, r, false) then 0 else h.lads[n].good[r] + if Heard(h, n, r, true) then 1 else 0
    ensures h.lads[n + 1].bad[r] ==
      if Heard(h, n, r, true) then 0 else h.lads[n].bad[r] + if Heard(h, n, r, false) then 1 else 0
  {
    OnePass(h, n);
  }

  /** Above the live rung no good streak is stale: it runs up to this pass without a gap,
      but for passes whose rule change failed. */
  lemma {:induction false} UpperSpell(h: History, n: nat, r: nat) returns (s: nat)
    requires IsHistory(h) && n <= |h.beats| && r < LiveAt(h, n)
    ensures s <= n && GoodSpell(h, s, n, r) && Asked(h, s, n, r) == h.lads[n].good[r]
  {
    AboveBefore(h, n - 1, r);
    StreakStep(h, n - 1, r);
    if Heard(h, n - 1, r, false) {
      s := n;
      assert Asked(h, n, n, r) == 0;
    } else {
      s := UpperSpell(h, n - 1, r);
      assert Asked(h, s, n, r) == Asked(h, s, n - 1, r) + if r < h.picks[n - 1].probed then 1 else 0;
    }
  }

  function FailAfter(c: Config): nat { OrDefault(c.failAfter, 3) }
  function RecoverAfter(c: Config): nat { OrDefault(c.recoverAfter, 2) }

  /** From pass s through pass t: a bad spell of at least k answers. */
  ghost predicate BadUpTo(h: History, s: nat, t: nat, r: nat, k: nat)
    requires IsHistory(h) && t < |h.beats| && r < |h.c.rungs|
  {
    s <= t && BadSpell(h, s, t + 1, r) && Asked(h, s, t + 1, r) >= k
  }

  ghost predicate GoodUpTo(h: History, s: nat, t: nat, r: nat, k: nat)
    requires IsHistory(h) && t < |h.beats| && r < |h.c.rungs|
  {
    s <= t && GoodSpell(h, s, t + 1, r) && Asked(h, s, t + 1, r) >= k
  }

  /** By pass t the live rung had failed often enough: its last FailAfter answers, this
      pass's among them, were failures, all while it was live. */
  ghost predicate GivenUp(h: History, t: nat)
    requires IsHistory(h) && t < |h.beats| && LiveAt(h, t) >= 0
  {
    var a := LiveAt(h, t);
    && Heard(h, t, a, false)
    && exists s: nat :: BadUpTo(h, s, t, a, FailAfter(h.c))
  }

  /** By pass t rung r had answered often enough: its last RecoverAfter answers were good. */
  ghost predicate Recovered(h: History, t: nat, r: nat)
    requires IsHistory(h) && t < |h.beats| && r < |h.c.rungs|
  {
    && Heard(h, t, r, true)
    && exists s: nat :: GoodUpTo(h, s, t, r, RecoverAfter(h.c))
  }

  lemma {:induction false} BadSpellCounts(h: History, s: nat, n: nat, r: nat)
    requires IsHistory(h) && s <= n <= |h.beats| && r < |h.c.rungs| && BadSpell(h, s, n, r)
    ensures h.lads[n].bad[r] >= Asked(h, s, n, r)
  {
    if s < n {
      BadSpellCounts(h, s, n - 1, r);
      StreakStep(h, n - 1, r);
    }
  }

  lemma {:induction false} GoodSpellCounts(h: History, s: nat, n: nat, r: nat)
    requires IsHistory(h) && s <= n <= |h.beats| && r < |h.c.rungs| && GoodSpell(h, s, n, r)
    ensures h.lads[n].good[r] >= Asked(h, s, n, r)
  {
    if s < n {
      GoodSpellCounts(h, s, n - 1, r);
      StreakStep(h, n - 1, r);
    }
  }

  lemma GivenUpByCount(h: History, t: nat)
    requires IsHistory(h) && t < |h.beats| && LiveAt(h, t) >= 0
    ensures
      var a := LiveAt(h, t);
      GivenUp(h, t) <==> Heard(h, t, a, false) && h.lads[t].bad[a] + 1 >= FailAfter(h.c)
  {
    var a := LiveAt(h, t);
    StreakStep(h, t, a);
    if Heard(h, t, a, false) {
      var k := h.lads[t].bad[a] + 1;
      forall s: nat | BadUpTo(h, s, t, a, FailAfter(h.c)) ensures k >= FailAfter(h.c) {
        BadSpellCounts(h, s, t + 1, a);
      }
      var s := LiveSpell(h, t);
      assert BadUpTo(h, s, t, a, k);
      assert k >= FailAfter(h.c) ==> BadUpTo(h, s, t, a, FailAfter(h.c));
    }
  }

  lemma RecoveredByCount(h: History, t: nat, r: nat)
    requires IsHistory(h) && t < |h.beats| && r < LiveAt(h, t)
    ensures Recovered(h, t, r) <==> Heard(h, t, r, true) && h.lads[t].good[r] + 1 >= RecoverAfter(h.c)
  {
    StreakStep(h, t, r);
    if Heard(h, t, r, true) {
      var k := h.lads[t].good[r] + 1;
      forall s: nat | GoodUpTo(h, s, t, r, RecoverAfter(h.c)) ensures k >= RecoverAfter(h.c) {
        GoodSpellCounts(h, s, t + 1, r);
      }
      var s := UpperSpell(h, t, r);
      assert GoodUpTo(h, s, t, r, k);
      assert k >= RecoverAfter(h.c) ==> GoodUpTo(h, s, t, r, RecoverAfter(h.c));
    }
  }

  /** Hysteresis, exactly: the live rung is left for a better one when, and only when, one
      has recovered, and then for the best such; otherwise it is left when, and only when,
      it is given up, and then for a rung that answered in the same pass, or for none. */
  lemma Hysteresis(h: History, t: nat)
    requires IsHistory(h) && t < |h.beats| && LiveAt(h, t) >= 0
    ensures
      var a, next := LiveAt(h, t), h.picks[t].next;
      && (forall r: nat :: r < a && Recovered(h, t, r) ==> 0 <= next <= r && Recovered(h, t, next))
      && ((forall r: nat :: r < a ==> !Recovered(h, t, r)) ==> (next != a <==> GivenUp(h, t)))
      && (0 <= next != a ==> Heard(h, t, next, true))
      && (next < 0 ==> forall r: nat :: r < |h.c.rungs| ==> Heard(h, t, r, false))
  {
    var l, ans, a := h.lads[t], h.beats[t].ans, LiveAt(h, t);
    PickIs(h, t);
    OnePass(h, t);
    ChosenAnswers(h.c, l, ans);
    GivenUpByCount(h, t);
    forall r: nat | r < a
      ensures Recovered(h, t, r) <==> Heard(h, t, r, true) && l.good[r] + 1 >= RecoverAfter(h.c)
    {
      RecoveredByCount(h, t, r);
    }
  }

  ghost predicate AllOk(h: History, n: nat)
    requires IsHistory(h) && n <= |h.beats|
  {
    forall i :: 0 <= i < n ==> h.outs[i].ok
  }

  lemma {:induction false} EveryPassAsks(h: History, lo: nat, hi: nat, r: nat)
    requires IsHistory(h) && lo <= hi <= |h.beats| && r < |h.c.rungs|
    requires forall i :: lo <= i < hi ==> r < h.picks[i].probed
    ensures Asked(h, lo, hi, r) == hi - lo
  {
    if lo < hi {
      EveryPassAsks(h, lo, hi - 1, r);
    }
  }

  /** While every rule change succeeds the answers are consecutive passes: giving up takes
      FailAfter failed passes in a row while live, coming back RecoverAfter good ones. */
  lemma InConsecutivePasses(h: History, t: nat, r: nat)
    requires IsHistory(h) && t < |h.beats| && AllOk(h, t) && r < |h.c.rungs|
    ensures LiveAt(h, t) >= 0 ==>
      (GivenUp(h, t) <==>
        && FailAfter(h.c) <= t + 1
        && forall i :: t + 1 - FailAfter(h.c) <= i <= t ==>
             LiveAt(h, i) == LiveAt(h, t) && Heard(h, i, LiveAt(h, t), false))
    ensures
      Recovered(h, t, r) <==>
        RecoverAfter(h.c) <= t + 1 && forall i :: t + 1 - RecoverAfter(h.c) <= i <= t ==> Heard(h, i, r, true)
  {
    if LiveAt(h, t) >= 0 {
      GivenUpInARow(h, t);
    }
    RecoveredInARow(h, t, r);
  }

  lemma GivenUpInARow(h: History, t: nat)
    requires IsHistory(h) && t < |h.beats| && AllOk(h, t) && LiveAt(h, t) >= 0
    ensures GivenUp(h, t) <==>
        && FailAfter(h.c) <= t + 1
        && forall i :: t + 1 - FailAfter(h.c) <= i <= t ==>
             LiveAt(h, i) == LiveAt(h, t) && Heard(h, i, LiveAt(h, t), false)
  {
    var a, f := LiveAt(h, t), FailAfter(h.c);
    if GivenUp(h, t) {
      var s: nat :| BadUpTo(h, s, t, a, f);
      forall i | s <= i <= t ensures LiveAt(h, i) == a && Heard(h, i, a, false) {
        assert i < t ==> h.outs[i].ok;
      }
    }
    if f <= t + 1 && forall i :: t + 1 - f <= i <= t ==> LiveAt(h, i) == a && Heard(h, i, a, false) {
      forall i | t + 1 - f <= i < t + 1 ensures a < h.picks[i].probed {
        assert Heard(h, i, a, false);
      }
      EveryPassAsks(h, t + 1 - f, t + 1, a);
      assert BadUpTo(h, t + 1 - f, t, a, f);
    }
  }

  lemma RecoveredInARow(h: History, t: nat, r: nat)
    requires IsHistory(h) && t < |h.beats| && AllOk(h, t) && r < |h.c.rungs|
    ensures Recovered(h, t, r) <==>
        RecoverAfter(h.c) <= t + 1 && forall i :: t + 1 - RecoverAfter(h.c) <= i <= t ==> Heard(h, i, r, true)
  {
    var need := RecoverAfter(h.c);
    if Recovered(h, t, r) {
      var s: nat :| GoodUpTo(h, s, t, r, need);
      forall i | s <= i <= t ensures Heard(h, i, r, true) {
        assert i < t ==> h.outs[i].ok;
      }
    }
    if need <= t + 1 && forall i :: t + 1 - need <= i <= t ==> Heard(h, i, r, true) {
      forall i | t + 1 - need <= i < t + 1 ensures r < h.picks[i].probed {
        assert Heard(h, i, r, true);
      }
      EveryPassAsks(h, t + 1 - need, t + 1, r);
      assert GoodUpTo(h, t + 1 - need, t, r, need);
    }
  }

  // ---- consecutive or not ----

  /** Each of the last k passes up to t asked rung r. */
  ghost predicate AskedInARow(h: History, t: nat, r: nat, k: nat)
    requires IsHistory(h) && t < |h.beats| && r < |h.c.rungs|
  {
    k <= t + 1 && forall i :: t + 1 - k <= i <= t ==> r < h.picks[i].probed
  }

  /** No pass from s through t left rung r unasked for a rule change that failed. */
  ghost predicate NoGap(h: History, s: nat, t: nat, r: nat)
    requires IsHistory(h) && t < |h.beats| && r < |h.c.rungs|
  {
    forall i :: s <= i <= t ==> !Skipped(h, i, r)
  }

  lemma {:induction false} AskedFirst(h: History, lo: nat, hi: nat, r: nat)
    requires IsHistory(h) && lo < hi <= |h.beats|
    ensures Asked(h, lo, hi, r) == Asked(h, lo + 1, hi, r) + if r < h.picks[lo].probed then 1 else 0
  {
    if lo + 1 < hi {
      AskedFirst(h, lo, hi - 1, r);
    }
  }

  /** The k-th answer from the end is one of a spell that has k. */
  lemma {:induction false} LastAnswers(h: History, lo: nat, t: nat, r: nat, k: nat) returns (s: nat)
    requires IsHistory(h) && lo <= t < |h.beats| && 0 < k <= Asked(h, lo, t + 1, r)
    ensures lo <= s <= t && Asked(h, s, t + 1, r) == k && r < h.picks[s].probed
    decreases t - lo
  {
    AskedFirst(h, lo, t + 1, r);
    if Asked(h, lo, t + 1, r) == k && r < h.picks[lo].probed {
      s := lo;
    } else {
      assert Asked(h, lo + 1, t + 1, r) >= k;
      s := LastAnswers(h, lo + 1, t, r, k);
    }
  }

  lemma {:induction false} AskedMonotone(h: History, lo: nat, mid: nat, hi: nat, r: nat)
    requires IsHistory(h) && lo <= mid <= hi <= |h.beats|
    ensures Asked(h, lo, hi, r) >= Asked(h, mid, hi, r)
    decreases mid - lo
  {
    if lo < mid {
      AskedFirst(h, lo, hi, r);
      AskedMonotone(h, lo + 1, mid, hi, r);
    }
  }

  /** The last k answers, from pass s on, come from consecutive passes exactly when no pass
      since was left out. */
  lemma AnswersInARow(h: History, s: nat, t: nat, r: nat, k: nat)
    requires IsHistory(h) && s <= t < |h.beats| && r < |h.c.rungs| && Asked(h, s, t + 1, r) == k && r < h.picks[s].probed
    requires forall i :: s <= i <= t ==> r < h.picks[i].probed || Skipped(h, i, r)
    ensures AskedInARow(h, t, r, k) <==> NoGap(h, s, t, r)
  {
    if NoGap(h, s, t, r) {
      EveryPassAsks(h, s, t + 1, r);
    }
    if AskedInARow(h, t, r, k) {
      EveryPassAsks(h, t + 1 - k, t + 1, r);
      AskedFirst(h, s, t + 1, r);
      if s < t + 1 - k {
        AskedMonotone(h, s + 1, t + 1 - k, t + 1, r);
      }
    }
  }

  /** Pass s gave the first of rung r's last RecoverAfter answers up to t, all good. */
  ghost predicate RecoveredSince(h: History, s: nat, t: nat, r: nat)
    requires IsHistory(h) && t < |h.beats| && r < |h.c.rungs|
  {
    s <= t && GoodSpell(h, s, t + 1, r) && Asked(h, s, t + 1, r) == RecoverAfter(h.c) && Heard(h, s, r, true)
  }

  /** Pass s gave the first of the live rung's last FailAfter answers up to t, all failures. */
  ghost predicate GivenUpSince(h: History, s: nat, t: nat)
    requires IsHistory(h) && t < |h.beats| && LiveAt(h, t) >= 0
  {
    var a := LiveAt(h, t);
    s <= t && BadSpell(h, s, t + 1, a) && Asked(h, s, t + 1, a) == FailAfter(h.c) && Heard(h, s, a, false)
  }

  /** A recovered rung's answers are consecutive passes exactly when no pass since the first of
      them had a rule change that failed before the rung was asked. */
  lemma RecoveredGapsExactly(h: History, t: nat, r: nat) returns (s: nat)
    requires IsHistory(h) && t < |h.beats| && r < |h.c.rungs| && Recovered(h, t, r)
    ensures RecoveredSince(h, s, t, r)
    ensures
      NoGap(h, s, t, r) <==>
        RecoverAfter(h.c) <= t + 1 && forall i :: t + 1 - RecoverAfter(h.c) <= i <= t ==> Heard(h, i, r, true)
  {
    var k := RecoverAfter(h.c);
    var lo: nat :| GoodUpTo(h, lo, t, r, k);
    s := LastAnswers(h, lo, t, r, k);
    assert Heard(h, s, r, true) || Skipped(h, s, r);
    AnswersInARow(h, s, t, r, k);
    if NoGap(h, s, t, r) {
      EveryPassAsks(h, s, t + 1, r);
    }
    if k <= t + 1 && forall i :: t + 1 - k <= i <= t ==> Heard(h, i, r, true) {
      assert forall i :: t + 1 - k <= i <= t && Heard(h, i, r, true) ==> r < h.picks[i].probed;
    }
  }

  /** The same for the live rung's failures. */
  lemma GivenUpGapsExactly(h: History, t: nat) returns (s: nat)
    requires IsHistory(h) && t < |h.beats| && LiveAt(h, t) >= 0 && GivenUp(h, t)
    ensures GivenUpSince(h, s, t)
    ensures
      NoGap(h, s, t, LiveAt(h, t)) <==>
        && FailAfter(h.c) <= t + 1
        && forall i :: t + 1 - FailAfter(h.c) <= i <= t ==> LiveAt(h, i) == LiveAt(h, t) && Heard(h, i, LiveAt(h, t), false)
  {
    var a, k := LiveAt(h, t), FailAfter(h.c);
    var lo: nat :| BadUpTo(h, lo, t, a, k);
    s := LastAnswers(h, lo, t, a, k);
    assert Heard(h, s, a, false) || Skipped(h, s, a);
    AnswersInARow(h, s, t, a, k);
    if NoGap(h, s, t, a) {
      EveryPassAsks(h, s, t + 1, a);
    }
    if k <= t + 1 && forall i :: t + 1 - k <= i <= t ==> LiveAt(h, i) == a && Heard(h, i, a, false) {
      assert forall i :: t + 1 - k <= i <= t && Heard(h, i, a, false) ==> a < h.picks[i].probed;
    }
  }

  /** Down means nothing answers: a pass whose rules hold ends without a rung exactly when
      every rung failed in it and none was live, or the live one is given up. It then asked
      every rung once. From Down one answer is enough: the first rung to give it is taken. */
  lemma DownMeansNothingAnswers(h: History, t: nat)
    requires IsHistory(h) && t < |h.beats| && h.outs[t].ok
    ensures
      var a, b := LiveAt(h, t), LiveAt(h, t + 1);
      && (b < 0 <==>
           && (forall r: nat :: r < |h.c.rungs| ==> Heard(h, t, r, false))
           && (a < 0 || GivenUp(h, t)))
      && (b < 0 ==> h.lads[t + 1].st.down)
      && (b < 0 ==> forall r: nat :: r < |h.c.rungs| ==> h.lads[t + 1].bad[r] == h.lads[t].bad[r] + 1)
      && (a < 0 && b >= 0 ==> Heard(h, t, b, true) && forall r: nat :: r < b ==> Heard(h, t, r, false))
  {
    var l, ans := h.lads[t], h.beats[t].ans;
    PickIs(h, t);
    OnePass(h, t);
    ChosenAnswers(h.c, l, ans);
    if l.st.active >= 0 {
      GivenUpByCount(h, t);
    }
    if forall r: nat :: r < |h.c.rungs| ==> Heard(h, t, r, false) {
      forall r: nat | r < |ans| ensures ans[r].Some? {
        assert Heard(h, t, r, false);
      }
    }
    forall r: nat | r < |h.c.rungs| && Heard(h, t, r, false)
      ensures h.lads[t + 1].bad[r] == h.lads[t].bad[r] + 1
    {
      StreakStep(h, t, r);
    }
  }
}
