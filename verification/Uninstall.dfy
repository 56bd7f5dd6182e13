/** The whole dump: reading it, writing the script, running the script. */
module Uninstall {
  import opened Outcomes
  import opened Purge
  import opened PurgeProofs

  /** Between two lines the scan has gathered just what the open table holds. */
  ghost predicate InStep(s: Loading, sc: Scan) {
    match s.open
    case Some(t) => t in s.tables && sc.table == t && Gathered(s.tables[t], sc.del, sc.chains)
    case None => sc.del == [] && sc.chains == []
  }

  lemma {:induction false} ForAbsent(del: seq<Line>, c: string)
    requires forall i :: 0 <= i < |del| ==> IsDelete(del[i]) && del[i][1] != c
    ensures For(del, c) == []
  {
    if del != [] {
      ForAbsent(del[1..], c);
    }
  }

  lemma OursIsNotBuiltin(c: string)
    requires Ours(c)
    ensures c !in BUILTIN
  {
    assert c[0] == STACKR[0];
  }

  lemma DeclareKeeps(t: Table, del: seq<Line>, chains: seq<string>, c: string, policy: string)
    requires Gathered(t, del, chains) && c !in t && (policy != "-" <==> c in BUILTIN)
    ensures Gathered(t[c := Chain(policy, [])], del, if Ours(c) then chains + [c] else chains)
  {
    var u := t[c := Chain(policy, [])];
    forall k | k in u && !Ours(k) ensures For(del, k) == Taken(u[k].rules) {
      if k == c {
        ForAbsent(del, c);
      }
    }
    if Ours(c) {
      OursIsNotBuiltin(c);
    }
  }

  lemma AppendKeeps(t: Table, del: seq<Line>, chains: seq<string>, c: string, r: Rule)
    requires Gathered(t, del, chains) && c in t
    ensures
      var u := t[c := t[c].(rules := t[c].rules + [r])];
      Gathered(u, if !Ours(c) && Owned(r) then del + [DelLine(c, r)] else del, chains)
  {
    var u := t[c := t[c].(rules := t[c].rules + [r])];
    var more := if !Ours(c) && Owned(r) then del + [DelLine(c, r)] else del;
    assert DelLine(c, r)[2..] == r;
    forall k | k in u && !Ours(k) ensures For(more, k) == Taken(u[k].rules) {
      assert k in t;
      ForMore(del, DelLine(c, r), k);
      TakenMore(t[c].rules, r);
    }
    forall i | 0 <= i < |more| ensures IsDelete(more[i]) && more[i][1] in u && !Ours(more[i][1]) {
      if i < |del| {
        assert more[i] == del[i];
      }
    }
  }

  lemma LineKeepsStep(s: Loading, sc: Scan, l: Line)
    requires InStep(s, sc) && LoadLine(s, l).Some?
    ensures InStep(LoadLine(s, l).value, ScanLine(sc, l))
  {
    if OpensTable(l) || l == ["COMMIT"] {
    } else if Declares(l) {
      DeclareKeeps(s.tables[s.open.value], sc.del, sc.chains, l[0][1..], l[1]);
    } else if AppendsRule(l) {
      AppendKeeps(s.tables[s.open.value], sc.del, sc.chains, l[1], l[2..]);
    }
  }

  lemma {:induction false} ScanInStep(save: seq<Line>)
    requires LoadAll(save).Some?
    ensures InStep(LoadAll(save).value, ScanAll(save))
  {
    if save != [] {
      ScanInStep(save[..|save| - 1]);
      LineKeepsStep(LoadAll(save[..|save| - 1]).value, ScanAll(save[..|save| - 1]), save[|save| - 1]);
    }
  }

  // ---- running the script ----

  lemma {:induction false} RestoreConcat(s: Restoring, a: seq<Line>, b: seq<Line>)
    ensures RestoreAll(s, a + b) == if RestoreAll(s, a) == None then None else RestoreAll(RestoreAll(s, a).value, b)
    decreases |a|
  {
    if a == [] {
      assert a + b == b;
    } else {
      assert (a + b)[0] == a[0] && (a + b)[1..] == a[1..] + b;
      if RestoreLine(s, a[0]).Some? {
        RestoreConcat(RestoreLine(s, a[0]).value, a[1..], b);
      }
    }
  }

  predicate IsEdit(l: Line) { |l| >= 2 && (l[0] == "-D" || l[0] == "-F" || l[0] == "-X") }

  lemma {:induction false} EditsRestore(s: Restoring, ls: seq<Line>)
    requires s.open.Some? && EditAll(s.stage, ls).Some? && forall i :: 0 <= i < |ls| ==> IsEdit(ls[i])
    ensures RestoreAll(s, ls) == Some(s.(stage := EditAll(s.stage, ls).value))
    decreases |ls|
  {
    if ls != [] {
      assert IsEdit(ls[0]) && ls[0][0][0] == '-' && |ls[0]| >= 2;
      assert RestoreLine(s, ls[0]) == Some(s.(stage := EditLine(s.stage, ls[0]).value));
      EditsRestore(s.(stage := EditLine(s.stage, ls[0]).value), ls[1..]);
    }
  }

  lemma SectionRestores(tables: Tables, t: string, del: seq<Line>, chains: seq<string>)
    requires t in tables && Gathered(tables[t], del, chains)
    ensures RestoreAll(Restoring(tables, None, map[]), Section(t, del, chains))
         == Some(Restoring(tables[t := PurgedTable(tables[t])], None, map[]))
  {
    NothingGathered(tables[t], del, chains);
    if del == [] && chains == [] {
      assert tables[t := tables[t]] == tables;
    } else {
      var edits := del + Flushes(chains) + Drops(chains);
      assert Section(t, del, chains) == [["*" + t]] + (edits + [["COMMIT"]]);
      SectionEdits(tables[t], del, chains);
      forall i | 0 <= i < |edits| ensures IsEdit(edits[i]) {
        if i < |del| {
          assert edits[i] == del[i];
        }
      }
      TableRestores(tables, t, edits);
    }
  }

  /** A table opened, edited and committed. */
  lemma TableRestores(tables: Tables, t: string, edits: seq<Line>)
    requires t in tables && EditAll(tables[t], edits).Some? && forall i :: 0 <= i < |edits| ==> IsEdit(edits[i])
    ensures RestoreAll(Restoring(tables, None, map[]), [["*" + t]] + (edits + [["COMMIT"]]))
         == Some(Restoring(tables[t := EditAll(tables[t], edits).value], None, map[]))
  {
    var s := Restoring(tables, None, map[]);
    var open := s.(open := Some(t), stage := tables[t]);
    RestoreOpens(s, t);
    RestoreConcat(s, [["*" + t]], edits + [["COMMIT"]]);
    RestoreConcat(open, edits, [["COMMIT"]]);
    EditsRestore(open, edits);
    RestoreCommits(open.(stage := EditAll(tables[t], edits).value));
  }

  lemma RestoreCommits(s: Restoring)
    requires s.open.Some?
    ensures RestoreAll(s, [["COMMIT"]]) == Some(Restoring(s.tables[s.open.value := s.stage], None, map[]))
  {
    assert [["COMMIT"]][1..] == [] && "COMMIT"[0] != '*';
    assert !OpensTable(["COMMIT"]);
  }

  lemma RestoreOpens(s: Restoring, t: string)
    requires s.open == None && t in s.tables
    ensures RestoreAll(s, [["*" + t]]) == Some(s.(open := Some(t), stage := s.tables[t]))
  {
    assert ("*" + t)[1..] == t && [["*" + t]][1..] == [];
    assert TableName(["*" + t]) == t;
  }

  /** The tables the dump has finished with. */
  function Closed(s: Loading): set<string> {
    if s.open.Some? then s.tables.Keys - {s.open.value} else s.tables.Keys
  }

  function PurgeSome(tables: Tables, which: set<string>): Tables {
    map t | t in tables :: if t in which && t in TABLES then PurgedTable(tables[t]) else tables[t]
  }

  ghost predicate Holds(tables: Tables, s: Loading) {
    forall t :: t in Closed(s) ==> t in tables && tables[t] == s.tables[t]
  }

  lemma {:induction false} PrefixRestores(save: seq<Line>, tables: Tables)
    requires LoadAll(save).Some? && Holds(tables, LoadAll(save).value)
    ensures RestoreAll(Restoring(tables, None, map[]), ScanAll(save).out)
         == Some(Restoring(PurgeSome(tables, Closed(LoadAll(save).value)), None, map[]))
  {
    if save == [] {
      assert Closed(LoadAll(save).value) == {} && PurgeSome(tables, {}) == tables;
    } else {
      var before, l := save[..|save| - 1], save[|save| - 1];
      var s, sc := LoadAll(before).value, ScanAll(before);
      var after := LoadLine(s, l).value;
      ScanInStep(before);
      if OpensTable(l) || l != ["COMMIT"] {
        OpenOnly(s, l);
        PrefixRestores(before, tables);
      } else {
        var t := s.open.value;
        assert Closed(after) == Closed(s) + {t};
        PrefixRestores(before, tables);
        CommitRestores(tables, s, sc, t);
      }
    }
  }

  /** A line that is no commit touches no finished table. */
  lemma OpenOnly(s: Loading, l: Line)
    requires LoadLine(s, l).Some? && (OpensTable(l) || l != ["COMMIT"])
    requires s.open.Some? ==> s.open.value in s.tables
    ensures
      var after := LoadLine(s, l).value;
      Closed(after) == Closed(s) && forall t :: t in Closed(s) ==> after.tables[t] == s.tables[t]
  {
  }

  lemma CommitRestores(tables: Tables, s: Loading, sc: Scan, t: string)
    requires s.open == Some(t) && InStep(s, sc) && t in tables && tables[t] == s.tables[t]
    requires RestoreAll(Restoring(tables, None, map[]), sc.out) == Some(Restoring(PurgeSome(tables, Closed(s)), None, map[]))
    ensures RestoreAll(Restoring(tables, None, map[]), ScanLine(sc, ["COMMIT"]).out)
         == Some(Restoring(PurgeSome(tables, Closed(s) + {t}), None, map[]))
  {
    var some := PurgeSome(tables, Closed(s));
    OneMorePurged(tables, Closed(s), t);
    if t in TABLES {
      RestoreConcat(Restoring(tables, None, map[]), sc.out, Section(t, sc.del, sc.chains));
      SectionRestores(some, t, sc.del, sc.chains);
    }
  }

  lemma OneMorePurged(tables: Tables, which: set<string>, t: string)
    requires t in tables && t !in which
    ensures var some := PurgeSome(tables, which);
      && some[t] == tables[t]
      && PurgeSome(tables, which + {t}) == if t in TABLES then some[t := PurgedTable(tables[t])] else some
  {
  }

  /** For every dump a kernel could print: the script made from it, restored on that kernel,
      fails at no line, and afterwards the four tables hold no chain and no rule of stackr's,
      while every other rule and chain, duplicates included, stands as it did and in order,
      and every other table is untouched. */
  lemma PurgeIsExact(save: seq<Line>)
    requires Load(save).Some?
    ensures Restore(Load(save).value, Payload(save)) == Some(Purged(Load(save).value))
  {
    var tables := Load(save).value;
    PrefixRestores(save, tables);
    assert PurgeSome(tables, tables.Keys) == Purged(tables);
  }

  /** What Purged leaves, without its words: nothing owned, nothing else gone. */
  lemma PurgedMeans(tables: Tables, t: string, c: string)
    requires t in tables && t in {"filter", "nat", "raw", "mangle"}
    ensures var after := Purged(tables)[t];
      && (c in after <==> c in tables[t] && !("STACKR-" <= c))
      && (c in after ==>
           && after[c].policy == tables[t][c].policy
           && (forall r :: r in after[c].rules ==> !Owned(r))
           && (forall r :: !Owned(r) ==> multiset(after[c].rules)[r] == multiset(tables[t][c].rules)[r])
           && Ordered(after[c].rules, tables[t][c].rules))
  {
    if c in tables[t] && !Ours(c) {
      KeptUnowned(tables[t][c].rules);
      KeptAll(tables[t][c].rules);
    }
  }

  /** a is b with some rules left out. */
  predicate Ordered(a: seq<Rule>, b: seq<Rule>) {
    a == [] || (b != [] && ((a[0] == b[0] && Ordered(a[1..], b[1..])) || Ordered(a, b[1..])))
  }

  lemma {:induction false} KeptAll(rs: seq<Rule>)
    ensures forall r :: !Owned(r) ==> multiset(Kept(rs))[r] == multiset(rs)[r]
    ensures Ordered(Kept(rs), rs)
  {
    if rs != [] {
      KeptAll(rs[1..]);
      assert rs == [rs[0]] + rs[1..];
      if !Owned(rs[0]) {
        assert Kept(rs)[0] == rs[0] && Kept(rs)[1..] == Kept(rs[1..]);
        assert multiset(Kept(rs)) == multiset{rs[0]} + multiset(Kept(rs[1..]));
      } else {
        assert Kept(rs) == Kept(rs[1..]);
      }
    }
  }

  /** A script is written exactly when there is something to remove. */
  lemma {:induction false} ScriptOnlyIfNeeded(save: seq<Line>)
    requires LoadAll(save).Some?
    ensures
      var s := LoadAll(save).value;
      Payload(save) == [] <==> forall t :: t in Closed(s) && t in TABLES ==>
        t in s.tables && PurgedTable(s.tables[t]) == s.tables[t]
  {
    if save != [] {
      var before, l := save[..|save| - 1], save[|save| - 1];
      var s, sc := LoadAll(before).value, ScanAll(before);
      ScanInStep(before);
      ScriptOnlyIfNeeded(before);
      if OpensTable(l) || l != ["COMMIT"] {
        OpenOnly(s, l);
      } else {
        var t := s.open.value;
        assert Closed(LoadLine(s, l).value) == Closed(s) + {t};
        NothingGathered(s.tables[t], sc.del, sc.chains);
        assert Section(t, sc.del, sc.chains) == [] <==> sc.del == [] && sc.chains == [];
      }
    }
  }

  // ---- quoted words ----

  /** Whether a quote is open after the word, given whether one was before it. In a quote a
      backslash takes the next character with it. */
  predicate QuoteAfter(w: string, open: bool)
    decreases |w|
  {
    if w == "" then open
    else if open && w[0] == '\\' then |w| == 1 || QuoteAfter(w[2..], true)
    else QuoteAfter(w[1..], if w[0] == '"' then !open else open)
  }

  /** Word i starts inside a quote that an earlier word opened. */
  predicate Quoted(r: Rule, i: nat)
    requires i <= |r|
  {
    i > 0 && QuoteAfter(r[i - 1], Quoted(r, i - 1))
  }

  /** Word i is not an argument by itself: a blank inside quotes joins it to another. */
  predicate Joined(r: Rule, i: nat)
    requires i < |r|
  {
    Quoted(r, i) || Quoted(r, i + 1)
  }

  // The rule argument by argument.

  function ToClose(r: Rule): (n: nat)
    ensures n <= |r|
  {
    if r == [] then 0 else if !QuoteAfter(r[0], true) then 1 else 1 + ToClose(r[1..])
  }

  /** How many words the rule's first argument takes. */
  function Extent(r: Rule): (n: nat)
    requires r != []
    ensures 1 <= n <= |r|
  {
    if QuoteAfter(r[0], false) then 1 + ToClose(r[1..]) else 1
  }

  predicate OneWord(r: Rule) { r != [] && !QuoteAfter(r[0], false) }

  /** An argument of one word, and its one-word value, make the rule stackr's. */
  predicate ReallyOwned(r: Rule)
    decreases |r|
  {
    |r| >= 2 && ((OneWord(r) && OneWord(r[1..]) && Names(r[0], Trim(r[1]))) || ReallyOwned(r[Extent(r)..]))
  }

  // The same word by word.

  /** A flag and its value at word i that are words of a longer argument, or touch one. */
  predicate Inside(r: Rule, i: nat) { i + 1 < |r| && (Joined(r, i) || Joined(r, i + 1)) }

  lemma {:induction false} QuotedTail(r: Rule, n: nat, i: nat)
    requires n <= i <= |r| && !Quoted(r, n)
    ensures Quoted(r[n..], i - n) == Quoted(r, i)
  {
    if n < i {
      QuotedTail(r, n, i - 1);
      assert r[n..][i - 1 - n] == r[i - 1];
    }
  }

  /** Inside the argument that starts at word 0 every word but the first starts quoted, and the
      word after the argument does not, if there is one. */
  lemma {:induction false} ExtentQuoted(r: Rule, i: nat)
    requires r != [] && 0 < i <= Extent(r)
    ensures i < Extent(r) ==> Quoted(r, i)
    ensures i == Extent(r) < |r| ==> !Quoted(r, i)
  {
    if i == 1 {
      assert Quoted(r, 1) == QuoteAfter(r[0], Quoted(r, 0));
    } else {
      ExtentQuoted(r, i - 1);
      CloseAt(r[1..], i - 2);
      assert r[1..][i - 2] == r[i - 1];
    }
  }

  /** Up to where a quote closes no word closes it, and there one does. */
  lemma {:induction false} CloseAt(r: Rule, i: nat)
    requires i < ToClose(r)
    ensures i + 1 < ToClose(r) ==> QuoteAfter(r[i], true)
    ensures i + 1 == ToClose(r) < |r| ==> !QuoteAfter(r[i], true)
  {
    if i > 0 {
      CloseAt(r[1..], i - 1);
      assert r[1..][i - 1] == r[i];
    } else if QuoteAfter(r[0], true) && ToClose(r) == 1 {
      assert r[1..] == [];
    }
  }

  /** What the argument view says in words: some flag and value match, neither joined to any
      other word. */
  lemma {:induction false} ReallyMeans(r: Rule)
    ensures ReallyOwned(r) <==> exists i :: 0 <= i < |r| && OwnedAt(r, i) && !Inside(r, i)
    decreases |r|
  {
    if |r| >= 2 {
      var n := Extent(r);
      ReallyMeans(r[n..]);
      HeadPair(r);
      if n < |r| {
        ExtentQuoted(r, n);
        forall i | n <= i < |r|
          ensures (OwnedAt(r, i) && !Inside(r, i)) <==> (OwnedAt(r[n..], i - n) && !Inside(r[n..], i - n))
        {
          TailPair(r, n, i);
        }
      }
      forall i | 0 < i < n && i + 1 < |r| ensures Inside(r, i) {
        ExtentQuoted(r, i);
      }
      if i :| 0 <= i < |r| && OwnedAt(r, i) && !Inside(r, i) && i >= n {
        assert OwnedAt(r[n..], i - n) && !Inside(r[n..], i - n);
      }
      if j :| 0 <= j < |r[n..]| && OwnedAt(r[n..], j) && !Inside(r[n..], j) {
        assert OwnedAt(r, j + n) && !Inside(r, j + n);
      }
    }
  }

  lemma HeadPair(r: Rule)
    requires |r| >= 2
    ensures (OneWord(r) && OneWord(r[1..]) && Names(r[0], Trim(r[1]))) <==> OwnedAt(r, 0) && !Inside(r, 0)
  {
    assert Quoted(r, 1) == QuoteAfter(r[0], false);
    assert Quoted(r, 2) == QuoteAfter(r[1], Quoted(r, 1));
  }

  lemma TailPair(r: Rule, n: nat, i: nat)
    requires n <= i < |r| && !Quoted(r, n)
    ensures (OwnedAt(r, i) && !Inside(r, i)) <==> (OwnedAt(r[n..], i - n) && !Inside(r[n..], i - n))
  {
    QuotedTail(r, n, i);
    QuotedTail(r, n, i + 1);
    if i + 1 < |r| {
      QuotedTail(r, n, i + 2);
      assert r[n..][i - n] == r[i] && r[n..][i + 1 - n] == r[i + 1];
    }
  }

  /** When the word test is right about a rule, exactly: the rule is stackr's by its arguments,
      or no word joined to another by a quoted blank takes part in a match. And nothing of
      stackr's ever escapes the test. */
  lemma WordsAgainstArguments(r: Rule)
    ensures ReallyOwned(r) ==> Owned(r)
    ensures (Owned(r) <==> ReallyOwned(r)) <==>
      (ReallyOwned(r) || forall i :: 0 <= i < |r| && Inside(r, i) ==> !OwnedAt(r, i))
  {
    ReallyMeans(r);
  }

  /** The rules an uninstall that read arguments would keep. */
  function KeptReally(rs: seq<Rule>): seq<Rule> {
    if rs == [] then [] else (if ReallyOwned(rs[0]) then [] else [rs[0]]) + KeptReally(rs[1..])
  }

  /** The rules whose mark is not set. */
  function Unmarked(rs: seq<Rule>, marks: seq<bool>): seq<Rule>
    requires |rs| == |marks|
  {
    if rs == [] then [] else (if marks[0] then [] else [rs[0]]) + Unmarked(rs[1..], marks[1..])
  }

  lemma {:induction false} FewerMarks(rs: seq<Rule>, more: seq<bool>, fewer: seq<bool>)
    requires |rs| == |more| == |fewer| && forall i :: 0 <= i < |rs| ==> fewer[i] ==> more[i]
    ensures |Unmarked(rs, more)| <= |Unmarked(rs, fewer)|
    ensures Unmarked(rs, more) == Unmarked(rs, fewer) <==> more == fewer
  {
    if rs != [] {
      var a, b := Unmarked(rs[1..], more[1..]), Unmarked(rs[1..], fewer[1..]);
      FewerMarks(rs[1..], more[1..], fewer[1..]);
      assert more == [more[0]] + more[1..] && fewer == [fewer[0]] + fewer[1..];
      assert ([rs[0]] + a)[1..] == a && ([rs[0]] + b)[1..] == b;
      assert [] + a == a && [] + b == b;
    }
  }

  function Marks(rs: seq<Rule>): seq<bool> { seq(|rs|, i requires 0 <= i < |rs| => Owned(rs[i])) }
  function ReallyMarks(rs: seq<Rule>): seq<bool> { seq(|rs|, i requires 0 <= i < |rs| => ReallyOwned(rs[i])) }

  lemma {:induction false} KeptAreUnmarked(rs: seq<Rule>)
    ensures Kept(rs) == Unmarked(rs, Marks(rs))
  {
    if rs != [] {
      KeptAreUnmarked(rs[1..]);
      assert Marks(rs)[1..] == Marks(rs[1..]);
    }
  }

  lemma {:induction false} ReallyKeptAreUnmarked(rs: seq<Rule>)
    ensures KeptReally(rs) == Unmarked(rs, ReallyMarks(rs))
  {
    if rs != [] {
      ReallyKeptAreUnmarked(rs[1..]);
      assert ReallyMarks(rs)[1..] == ReallyMarks(rs[1..]);
    }
  }

  /** The word test is right about the rule, in words a reader of the dump can check. */
  predicate Safe(r: Rule) {
    ReallyOwned(r) || forall i :: 0 <= i < |r| && Inside(r, i) ==> !OwnedAt(r, i)
  }

  /** So a chain loses exactly stackr's rules when, and only when, that holds of each of its
      rules. */
  lemma ChainPurgedRightly(rs: seq<Rule>)
    ensures |Kept(rs)| <= |KeptReally(rs)|
    ensures Kept(rs) == KeptReally(rs) <==> forall i :: 0 <= i < |rs| ==> Safe(rs[i])
  {
    KeptAreUnmarked(rs);
    ReallyKeptAreUnmarked(rs);
    var more, fewer := Marks(rs), ReallyMarks(rs);
    forall i | 0 <= i < |rs| ensures (fewer[i] ==> more[i]) && (more[i] == fewer[i] <==> Safe(rs[i])) {
      WordsAgainstArguments(rs[i]);
    }
    FewerMarks(rs, more, fewer);
    assert more == fewer <==> forall i :: 0 <= i < |rs| ==> more[i] == fewer[i];
  }

  // ---- rules wrongly taken ----

  /** -m comment --comment "see -j STACKR-FWD" -j ACCEPT, as its words */
  const MENTIONS: Rule := ["-m", "comment", "--comment", "\"see", "-j", "STACKR-FWD\"", "-j", "ACCEPT"]

  /** The same for the comment a" -j STACKR-FWD, whose quote the dump escapes */
  const ESCAPED: Rule := ["-m", "comment", "--comment", "\"a\\\"", "-j", "STACKR-FWD\"", "-j", "ACCEPT"]

  /** And for hello world */
  const HARMLESS: Rule := ["-m", "comment", "--comment", "\"hello", "world\"", "-j", "ACCEPT"]

  lemma {:induction false} PlainWord(w: string, open: bool)
    requires '"' !in w && '\\' !in w
    ensures QuoteAfter(w, open) == open
  {
    if w != "" {
      PlainWord(w[1..], open);
    }
  }

  lemma TrimEnd()
    ensures Trim("STACKR-FWD\"") == "STACKR-FWD" && Trim("ACCEPT") == "ACCEPT" && !Starts("ACCEPT", STACKR)
  {
    var w := "STACKR-FWD\"";
    assert w[..|w| - 1] == "STACKR-FWD" && Trim("STACKR-FWD") == "STACKR-FWD";
    assert "ACCEPT"[0] != STACKR[0];
  }

  lemma NextQuoted(r: Rule, i: nat)
    requires i < |r|
    ensures Quoted(r, i + 1) == QuoteAfter(r[i], Quoted(r, i))
  {
  }

  lemma CommentMark(r: Rule)
    requires |r| > 3 && r[0] == "-m" && r[1] == "comment" && r[2] == "--comment"
    ensures !Quoted(r, 3)
  {
    PlainWord("-m", false);
    PlainWord("comment", false);
    PlainWord("--comment", false);
    NextQuoted(r, 0);
    NextQuoted(r, 1);
    NextQuoted(r, 2);
  }

  lemma CommentStarts(r: Rule, w: string)
    requires |r| > 4 && r[0] == "-m" && r[1] == "comment" && r[2] == "--comment" && r[3] == w && QuoteAfter(w, false)
    ensures Quoted(r, 4) && Inside(r, 3)
  {
    CommentMark(r);
    NextQuoted(r, 3);
  }

  predicate IsFlag(w: string) { w == "-j" || w == "-g" || w == "-i" || w == "-o" || w == "--comment" }

  /** A comment of this shape: its second word is -j, its third ends the quote. */
  predicate Shaped(r: Rule, w: string) {
    r == ["-m", "comment", "--comment", w, "-j", "STACKR-FWD\"", "-j", "ACCEPT"]
  }

  lemma OnlyAtFour(r: Rule, w: string, i: nat)
    requires Shaped(r, w) && Trim(w) != MOVE && !IsFlag(w) && i != 4
    ensures !OwnedAt(r, i)
  {
    TrimEnd();
    assert !IsFlag("-m") && !IsFlag("comment") && !IsFlag("STACKR-FWD\"");
  }

  lemma CommentTaken(r: Rule, w: string)
    requires Shaped(r, w) && QuoteAfter(w, false) && Trim(w) != MOVE && !IsFlag(w)
    ensures Owned(r) && !ReallyOwned(r)
  {
    TrimEnd();
    assert OwnedAt(r, 4) by { assert STACKR <= "STACKR-FWD"; }
    CommentStarts(r, w);
    assert Inside(r, 4);
    forall i: nat | i < |r| && i != 4 ensures !OwnedAt(r, i) {
      OnlyAtFour(r, w, i);
    }
    ReallyMeans(r);
  }

  /** A rule that only mentions a stackr chain in its comment goes too. */
  lemma QuotedBlankOverDeletes()
    ensures Owned(MENTIONS) && !ReallyOwned(MENTIONS)
  {
    var w := "\"see";
    assert w[1..] == "see";
    PlainWord("see", true);
    assert Trim(w) == "see";
    CommentTaken(MENTIONS, w);
  }

  /** With an escaped quote in the comment as well. */
  lemma EscapedQuoteOverDeletes()
    ensures Owned(ESCAPED) && !ReallyOwned(ESCAPED)
  {
    var w := "\"a\\\"";
    assert w[1..] == "a\\\"" && w[1..][1..] == "\\\"" && w[1..][1..][2..] == "";
    assert QuoteAfter("\\\"", true);
    assert Trim(w)[0] == 'a' by { assert w[1..][0] == 'a'; TrimKeepsHead("a\\\""); }
    CommentTaken(ESCAPED, w);
  }

  lemma {:induction false} TrimKeepsHead(w: string)
    requires |w| > 0 && w[0] != '"'
    ensures |Trim(w)| > 0 && Trim(w)[0] == w[0]
    decreases |w|
  {
    if w[|w| - 1] == '"' {
      TrimKeepsHead(w[..|w| - 1]);
    }
  }

  lemma HarmlessMatchesNothing(i: nat)
    ensures !OwnedAt(HARMLESS, i)
  {
    var r, w := HARMLESS, "\"hello";
    TrimEnd();
    assert w[1..] == "hello" && Trim(w) == "hello";
    assert !IsFlag("-m") && !IsFlag("comment") && !IsFlag(w) && !IsFlag("world\"");
  }

  /** A quoted blank alone does no harm. */
  lemma HarmlessIsKept()
    ensures !Owned(HARMLESS) && Safe(HARMLESS) && Inside(HARMLESS, 3)
  {
    var w := "\"hello";
    assert w[1..] == "hello";
    PlainWord("hello", true);
    CommentStarts(HARMLESS, w);
    forall i: nat ensures !OwnedAt(HARMLESS, i) {
      HarmlessMatchesNothing(i);
    }
  }
}
