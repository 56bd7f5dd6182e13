/** Which rungs a pass asks, which one it takes, and what it then reports. */
module LadderPicks {
  import opened Outcomes
  import opened Ladder
  import opened LadderRuns
  import opened LadderRules

  /** Rung r would answer in pass t. */
  predicate WouldAnswer(h: History, t: nat, r: nat)
    requires IsHistory(h) && t < |h.beats| && r < |h.c.rungs|
  {
    h.beats[t].ans[r] == None
  }

  ghost predicate NoneRecovered(h: History, t: nat, below: nat)
    requires IsHistory(h) && t < |h.beats|
  {
    forall r: nat :: r < below && r < |h.c.rungs| ==> !Recovered(h, t, r)
  }

  /** All rungs in [lo, hi) were asked in pass t and failed. */
  ghost predicate AllFailed(h: History, t: nat, lo: nat, hi: nat)
    requires IsHistory(h) && t < |h.beats| && hi <= |h.c.rungs|
  {
    forall r: nat :: lo <= r < hi ==> Heard(h, t, r, false)
  }

  /** A live rung that is given up with no better one recovered: the first rung below it that
      answers is taken. If all below fail it is the first above that answered in this pass, and
      if none did it is none. */
  lemma FallsTo(h: History, t: nat)
    requires IsHistory(h) && t < |h.beats| && LiveAt(h, t) >= 0
    requires GivenUp(h, t) && NoneRecovered(h, t, LiveAt(h, t))
    ensures
      var a, n, next := LiveAt(h, t), |h.c.rungs|, h.picks[t].next;
      if exists r: nat :: a < r < n && WouldAnswer(h, t, r) then
        a < next && Heard(h, t, next, true) && AllFailed(h, t, a + 1, next)
      else
        && AllFailed(h, t, a + 1, n)
        && (if exists r: nat :: r < a && Heard(h, t, r, true) then
              0 <= next < a && Heard(h, t, next, true) && AllFailed(h, t, 0, next)
            else next == -1 && AllFailed(h, t, 0, n))
  {
    var ans, a, n := h.beats[t].ans, LiveAt(h, t), |h.c.rungs|;
    FallIs(h, t);
    var d, u := FirstAnswer(ans, a + 1, n), FirstAnswer(ans, 0, a);
    if d < n {
      assert WouldAnswer(h, t, d);
    } else if u < a {
      assert Heard(h, t, u, true);
    }
  }

  /** The pick of a fall, in the order the rungs are looked at. */
  lemma FallIs(h: History, t: nat)
    requires IsHistory(h) && t < |h.beats| && LiveAt(h, t) >= 0
    requires GivenUp(h, t) && NoneRecovered(h, t, LiveAt(h, t))
    ensures
      var ans, a, n := h.beats[t].ans, LiveAt(h, t), |h.c.rungs|;
      var d, u := FirstAnswer(ans, a + 1, n), FirstAnswer(ans, 0, a);
      && ans[a].Some? && h.picks[t] == Choice(if d < n then d else if u < a then u else -1, if d < n then d + 1 else n)
  {
    var u := RecoveryIs(h, t);
    GivenUpByCount(h, t);
  }

  /** Which rungs a pass asks: from Down, or at first, down to the first that answers; with a
      rung live, from the top down to it or to the first above it that recovers, and further
      down only if it is given up, to the first that answers. */
  lemma AsksExactly(h: History, t: nat, r: nat)
    requires IsHistory(h) && t < |h.beats| && r < |h.c.rungs|
    ensures
      var a := LiveAt(h, t);
      r < h.picks[t].probed <==>
        if a < 0 then forall q: nat :: q < r ==> !WouldAnswer(h, t, q)
        else if r <= a then NoneRecovered(h, t, r)
        else NoneRecovered(h, t, a) && GivenUp(h, t) && forall q: nat :: a < q < r ==> !WouldAnswer(h, t, q)
  {
    var a := LiveAt(h, t);
    PickIs(h, t);
    if a >= 0 {
      var u := RecoveryIs(h, t);
      if r <= a {
        if u < r {
          assert Recovered(h, t, u);
        }
      } else if u == a && GivenUp(h, t) {
        FallIs(h, t);
        var d := FirstAnswer(h.beats[t].ans, a + 1, |h.c.rungs|);
        if d < r {
          assert WouldAnswer(h, t, d);
        }
      } else {
        GivenUpByCount(h, t);
      }
    } else {
      var d := FirstAnswer(h.beats[t].ans, 0, |h.c.rungs|);
      if d < r {
        assert WouldAnswer(h, t, d);
      }
    }
  }

  /** u is the first rung above the live one that recovers, or the live one. */
  lemma RecoveryIs(h: History, t: nat) returns (u: nat)
    requires IsHistory(h) && t < |h.beats| && LiveAt(h, t) >= 0
    ensures
      var a, ch := LiveAt(h, t), h.picks[t];
      && u <= a && NoneRecovered(h, t, u)
      && (u < a ==> Recovered(h, t, u) && ch == Choice(u, u + 1))
      && (u == a ==> ch.probed > a && ch == StayOrFall(h.c, h.lads[t], h.beats[t].ans))
  {
    var l, ans, a := h.lads[t], h.beats[t].ans, LiveAt(h, t);
    PickIs(h, t);
    u := FirstRecovered(l.good, ans, RecoverAfter(h.c), 0, a);
    forall q: nat | q < a && q <= u
      ensures Recovered(h, t, q) <==> ans[q] == None && l.good[q] + 1 >= RecoverAfter(h.c)
    {
      RecoveredByCount(h, t, q);
    }
  }

  // ---- the report ----

  /** Pass j changed the rules, and no pass after it and before n did. */
  ghost predicate LastChange(h: History, j: nat, n: nat)
    requires IsHistory(h) && j < n <= |h.beats|
  {
    Tries(h, j) && h.outs[j].ok && forall i :: j < i < n ==> !(Tries(h, i) && h.outs[i].ok)
  }

  lemma {:induction false} ReportSince(h: History, n: nat) returns (j: nat)
    requires IsHistory(h) && n <= |h.beats| && h.lads[n].init
    ensures j < n && LastChange(h, j, n) && h.lads[n].st == h.lads[j + 1].st
  {
    assert !h.lads[0].init;
    if Tries(h, n - 1) && h.outs[n - 1].ok {
      j := n - 1;
    } else {
      if Tries(h, n - 1) {
        TryIs(h, n - 1);
      } else {
        IdlePass(h, n - 1);
      }
      j := ReportSince(h, n - 1);
    }
  }

  /** The report names the rung in use and since when, or is Down and gives every rung's error
      of the pass that went down. */
  lemma ReportIsTrue(h: History, n: nat) returns (j: nat)
    requires IsHistory(h) && n <= |h.beats| && h.lads[n].init
    ensures j < n && LastChange(h, j, n) && LiveAt(h, n) == h.picks[j].next
    ensures
      var st, b := h.lads[n].st, h.beats[j];
      && st.since == b.now && |b.ans| == |h.c.rungs|
      && (st.active >= 0 ==>
            st.active < |h.c.rungs| && st.node == h.c.rungs[st.active].node && !st.down && st.reason == [])
      && (st.active < 0 ==>
            && st.active == -1 && st.down && st.node == "" && |st.reason| == |h.c.rungs|
            && forall r :: 0 <= r < |h.c.rungs| ==>
                 b.ans[r].Some? && st.reason[r] == (h.c.rungs[r].node, b.ans[r].value))
  {
    j := ReportSince(h, n);
    assert Ticked(h, j);
    ChosenAnswers(h.c, h.lads[j], h.beats[j].ans);
    assert h.picks[j].next >= -1;
  }

  /** A pass that settles on the rung already reported touches no rule and no report. */
  lemma SameRungSameRules(h: History, t: nat)
    requires IsHistory(h) && t < |h.beats| && h.lads[t].init && h.picks[t].next == LiveAt(h, t)
    ensures h.outs[t].ok && h.outs[t].kernel == h.beats[t].before && h.lads[t + 1].st == h.lads[t].st
  {
    var j := ReportIsTrue(h, t);
    assert Ticked(h, t);
  }

  /** A pass that would change the rules for a subject without a priority, without sources or
      with one no prefix of IPv4, or for an exit without a table, changes nothing and fails. */
  lemma RefusedPass(h: History, t: nat)
    requires IsHistory(h) && t < |h.beats| && !Stays(h.lads[t], h.picks[t].next)
    ensures
      var next, s := h.picks[t].next, h.c.subject;
      var bad := s.base < 1 || s.sources == [] || exists i :: 0 <= i < |s.sources| && s.sources[i].bits > 32;
      && (Tries(h, t) <==>
            if next < 0 then !bad else h.c.rungs[next].own || (!bad && h.c.rungs[next].table >= 1))
      && (!Tries(h, t) ==> !h.outs[t].ok && h.outs[t].kernel == h.beats[t].before && h.lads[t + 1].st == h.lads[t].st)
  {
    assert Ticked(h, t);
  }

  /** What is not said of failures and recoveries stands for three and two. */
  lemma Defaults(c: Config)
    ensures c.failAfter <= 0 ==> FailAfter(c) == 3
    ensures c.failAfter > 0 ==> FailAfter(c) == c.failAfter
    ensures c.recoverAfter <= 0 ==> RecoverAfter(c) == 2
    ensures c.recoverAfter > 0 ==> RecoverAfter(c) == c.recoverAfter
  {
  }
}
