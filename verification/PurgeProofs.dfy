/** The restore script is legal and removes exactly what is owned. */
module PurgeProofs {
  import opened Outcomes
  import opened Chains
  import opened Purge

  // ---- one chain ----

  lemma {:induction false} TakenHead(rs: seq<Rule>, r: Rule, rest: seq<Rule>)
    requires Taken(rs) == [r] + rest
    ensures r in rs && Owned(r)
    ensures Taken(RemoveFirst(rs, r)) == rest && Kept(RemoveFirst(rs, r)) == Kept(rs)
  {
    assert rs == [rs[0]] + rs[1..];
    if Owned(rs[0]) {
      assert Taken(rs) == [rs[0]] + Taken(rs[1..]);
      assert ([r] + rest)[0] == r && ([rs[0]] + Taken(rs[1..]))[1..] == Taken(rs[1..]);
      assert ([r] + rest)[1..] == rest;
    } else {
      assert Taken(rs) == Taken(rs[1..]);
      TakenHead(rs[1..], r, rest);
      var t := RemoveFirst(rs, r);
      assert t[0] == rs[0] && t[1..] == RemoveFirst(rs[1..], r);
    }
  }

  lemma {:induction false} NothingTaken(rs: seq<Rule>)
    ensures Taken(rs) == [] <==> forall r :: r in rs ==> !Owned(r)
    ensures Taken(rs) == [] ==> Kept(rs) == rs
  {
    if rs != [] {
      NothingTaken(rs[1..]);
      assert rs == [rs[0]] + rs[1..];
    }
  }

  lemma {:induction false} TakenMore(rs: seq<Rule>, r: Rule)
    ensures Taken(rs + [r]) == Taken(rs) + if Owned(r) then [r] else []
  {
    if rs == [] {
      assert rs + [r] == [r] && [r][1..] == [];
    } else {
      assert (rs + [r])[0] == rs[0] && (rs + [r])[1..] == rs[1..] + [r];
      TakenMore(rs[1..], r);
    }
  }

  // ---- one table ----

  predicate IsDelete(l: Line) { |l| >= 2 && l[0] == "-D" }

  /** The rules the delete lines name for chain c, in order. */
  function For(del: seq<Line>, c: string): seq<Rule> {
    if del == [] then []
    else (if IsDelete(del[0]) && del[0][1] == c then [del[0][2..]] else []) + For(del[1..], c)
  }

  lemma {:induction false} ForMore(del: seq<Line>, l: Line, c: string)
    ensures For(del + [l], c) == For(del, c) + if IsDelete(l) && l[1] == c then [l[2..]] else []
  {
    if del == [] {
      assert del + [l] == [l] && [l][1..] == [];
    } else {
      assert (del + [l])[0] == del[0] && (del + [l])[1..] == del[1..] + [l];
      ForMore(del[1..], l, c);
    }
  }

  /** The delete lines name, chain by chain and in order, the owned rules of the chains that
      are not stackr's. */
  ghost predicate Listed(t: Table, del: seq<Line>) {
    && (forall i :: 0 <= i < |del| ==> IsDelete(del[i]) && del[i][1] in t && !Ours(del[i][1]))
    && (forall c :: c in t && !Ours(c) ==> For(del, c) == Taken(t[c].rules))
  }

  /** u is t with the owned rules gone from the chains that are not stackr's. */
  ghost predicate Plucked(t: Table, u: Table) {
    && u.Keys == t.Keys
    && (forall c :: c in t ==> u[c].policy == t[c].policy)
    && (forall c :: c in t && Ours(c) ==> u[c] == t[c])
    && (forall c :: c in t && !Ours(c) ==> u[c].rules == Kept(t[c].rules))
  }

  lemma PluckedAfterOne(t: Table, c: string, r: Rule, u: Table)
    requires c in t && !Ours(c) && r in t[c].rules && Kept(RemoveFirst(t[c].rules, r)) == Kept(t[c].rules)
    requires Plucked(t[c := t[c].(rules := RemoveFirst(t[c].rules, r))], u)
    ensures Plucked(t, u)
  {
    var m := t[c := t[c].(rules := RemoveFirst(t[c].rules, r))];
    assert u.Keys == m.Keys == t.Keys;
    forall k | k in t
      ensures u[k].policy == t[k].policy && (Ours(k) ==> u[k] == t[k]) && (!Ours(k) ==> u[k].rules == Kept(t[k].rules))
    {
      assert k in m;
    }
  }

  /** Deleting "the first equal rule" line by line deletes just the owned ones. */
  lemma {:induction false} DeletesPluck(t: Table, del: seq<Line>)
    requires Listed(t, del)
    ensures EditAll(t, del).Some? && Plucked(t, EditAll(t, del).value)
    decreases |del|
  {
    if del == [] {
      forall c | c in t && !Ours(c) ensures t[c].rules == Kept(t[c].rules) {
        NothingTaken(t[c].rules);
      }
    } else {
      var c, r := del[0][1], del[0][2..];
      TakenHead(t[c].rules, r, For(del[1..], c));
      var u := t[c := t[c].(rules := RemoveFirst(t[c].rules, r))];
      assert EditLine(t, del[0]) == Some(u);
      ListedTail(t, del, u);
      DeletesPluck(u, del[1..]);
      PluckedAfterOne(t, c, r, EditAll(u, del[1..]).value);
    }
  }

  lemma ListedTail(t: Table, del: seq<Line>, u: Table)
    requires Listed(t, del) && del != []
    requires var c, r := del[0][1], del[0][2..];
      && r in t[c].rules && Taken(RemoveFirst(t[c].rules, r)) == For(del[1..], c)
      && u == t[c := t[c].(rules := RemoveFirst(t[c].rules, r))]
    ensures Listed(u, del[1..])
  {
    forall i | 0 <= i < |del[1..]| ensures IsDelete(del[1..][i]) && del[1..][i][1] in u && !Ours(del[1..][i][1]) {
      assert del[1..][i] == del[i + 1];
    }
    forall k | k in u && !Ours(k) ensures For(del[1..], k) == Taken(u[k].rules) {
      assert k in t;
    }
  }

  lemma {:induction false} EditConcat(t: Table, a: seq<Line>, b: seq<Line>)
    ensures EditAll(t, a + b) == if EditAll(t, a) == None then None else EditAll(EditAll(t, a).value, b)
    decreases |a|
  {
    if a == [] {
      assert a + b == b;
    } else {
      assert (a + b)[0] == a[0] && (a + b)[1..] == a[1..] + b;
      if EditLine(t, a[0]).Some? {
        EditConcat(EditLine(t, a[0]).value, a[1..], b);
      }
    }
  }

  ghost predicate FlushedTo(t: Table, u: Table, chains: seq<string>) {
    && u.Keys == t.Keys
    && forall c :: c in t ==> u[c] == if c in chains then t[c].(rules := []) else t[c]
  }

  lemma {:induction false} FlushesEmpty(t: Table, chains: seq<string>)
    requires forall c :: c in chains ==> c in t
    ensures EditAll(t, Flushes(chains)).Some? && FlushedTo(t, EditAll(t, Flushes(chains)).value, chains)
    decreases |chains|
  {
    if chains != [] {
      var c := chains[0];
      assert Flushes(chains)[0] == ["-F", c] && Flushes(chains)[1..] == Flushes(chains[1..]);
      assert chains == [c] + chains[1..];
      var u := t[c := t[c].(rules := [])];
      FlushesEmpty(u, chains[1..]);
      var w := EditAll(u, Flushes(chains[1..])).value;
      forall k | k in t ensures w[k] == if k in chains then t[k].(rules := []) else t[k] {
        assert k in u;
      }
    }
  }

  /** The chains can all be dropped: made by a user, empty, and no rule refers to any. */
  ghost predicate Droppable(t: Table, chains: seq<string>) {
    && (forall i, j :: 0 <= i < j < |chains| ==> chains[i] != chains[j])
    && (forall c :: c in chains ==> c in t && t[c].policy == "-" && t[c].rules == [] && !Referred(t, c))
  }

  function Less(t: Table, chains: seq<string>): Table { map c | c in t && c !in chains :: t[c] }

  lemma {:induction false} DropsRemove(t: Table, chains: seq<string>)
    requires Droppable(t, chains)
    ensures EditAll(t, Drops(chains)) == Some(Less(t, chains))
    decreases |chains|
  {
    if chains == [] {
      assert t == Less(t, chains);
    } else {
      var c := chains[0];
      assert Drops(chains)[0] == ["-X", c] && Drops(chains)[1..] == Drops(chains[1..]);
      assert chains == [c] + chains[1..] && c in chains;
      assert EditLine(t, ["-X", c]) == Some(t - {c});
      forall k | k in chains[1..] ensures k in t - {c} && !Referred(t - {c}, k) {
        var i :| 0 <= i < |chains[1..]| && chains[1..][i] == k;
        assert chains[i + 1] == k && k in chains;
      }
      DropsRemove(t - {c}, chains[1..]);
      assert forall k :: k in t && k !in chains <==> k in t - {c} && k !in chains[1..];
      assert Less(t, chains) == Less(t - {c}, chains[1..]);
    }
  }

  lemma UnownedDoesNotRefer(r: Rule, c: string)
    requires !Owned(r) && Ours(c)
    ensures !Refers(r, c)
  {
    forall i | 0 <= i < |r| && i + 1 < |r| && (r[i] == "-j" || r[i] == "-g") ensures Trim(r[i + 1]) != c {
      assert !OwnedAt(r, i);
    }
  }

  lemma {:induction false} KeptUnowned(rs: seq<Rule>)
    ensures forall r :: r in Kept(rs) ==> r in rs && !Owned(r)
  {
    if rs != [] {
      KeptUnowned(rs[1..]);
      assert rs == [rs[0]] + rs[1..];
    }
  }

  /** What the scan gathered for one table, against what the table holds. */
  ghost predicate Gathered(t: Table, del: seq<Line>, chains: seq<string>) {
    && Listed(t, del)
    && (forall i, j :: 0 <= i < j < |chains| ==> chains[i] != chains[j])
    && (forall c :: c in chains <==> c in t && Ours(c))
    && (forall c :: c in t && Ours(c) ==> t[c].policy == "-")
  }

  lemma OnceFlushed(t: Table, u: Table, w: Table, del: seq<Line>, chains: seq<string>)
    requires Gathered(t, del, chains) && Plucked(t, u) && FlushedTo(u, w, chains)
    ensures Droppable(w, chains)
    ensures Less(w, chains) == PurgedTable(t)
  {
    forall c | c in chains ensures c in w && w[c].policy == "-" && w[c].rules == [] && !Referred(w, c) {
      forall k, i | k in w && 0 <= i < |w[k].rules| ensures !Refers(w[k].rules[i], c) {
        assert k in t && !Ours(k) && w[k].rules == Kept(t[k].rules);
        KeptUnowned(t[k].rules);
        assert w[k].rules[i] in Kept(t[k].rules);
        UnownedDoesNotRefer(w[k].rules[i], c);
      }
    }
    forall c | c in t && !Ours(c) ensures w[c] == t[c].(rules := Kept(t[c].rules)) {
      assert c in w && c in u;
    }
    assert forall c :: c in w && c !in chains <==> c in t && !Ours(c);
  }

  /** One table's section: no line fails, and what is left is the table without what is owned. */
  lemma SectionEdits(t: Table, del: seq<Line>, chains: seq<string>)
    requires Gathered(t, del, chains)
    ensures EditAll(t, del + Flushes(chains) + Drops(chains)) == Some(PurgedTable(t))
  {
    EditConcat(t, del + Flushes(chains), Drops(chains));
    EditConcat(t, del, Flushes(chains));
    DeletesPluck(t, del);
    var u := EditAll(t, del).value;
    FlushesEmpty(u, chains);
    var w := EditAll(u, Flushes(chains)).value;
    OnceFlushed(t, u, w, del, chains);
    DropsRemove(w, chains);
  }

  /** A table with nothing gathered has nothing to lose. */
  lemma NothingGathered(t: Table, del: seq<Line>, chains: seq<string>)
    requires Gathered(t, del, chains)
    ensures del == [] && chains == [] <==> PurgedTable(t) == t
  {
    if del == [] && chains == [] {
      forall c | c in t ensures !Ours(c) && Kept(t[c].rules) == t[c].rules {
        assert Ours(c) ==> c in chains;
        NothingTaken(t[c].rules);
      }
    } else if chains != [] {
      assert chains[0] in chains && chains[0] !in PurgedTable(t);
    } else {
      var c := del[0][1];
      assert For(del, c) != [];
      if PurgedTable(t) == t {
        KeptUnowned(t[c].rules);
        assert c in PurgedTable(t) && Kept(t[c].rules) == t[c].rules;
        NothingTaken(t[c].rules);
        assert false;
      }
    }
  }
}
