/** Levenshtein distance by two rows, and the closest name to a mistyped one. */
module EditDistance {
  // ---- what it is: the fewest edits ----

  datatype Edit = Ins(at: nat, c: char) | Del(at: nat) | Sub(at: nat, c: char)

  predicate Fits(e: Edit, s: string) {
    if e.Ins? then e.at <= |s| else e.at < |s|
  }

  function Do(e: Edit, s: string): string
    requires Fits(e, s)
  {
    match e
    case Ins(i, c) => s[..i] + [c] + s[i..]
    case Del(i) => s[..i] + s[i + 1..]
    case Sub(i, c) => s[..i] + [c] + s[i + 1..]
  }

  /** The script's edits, in order, turn a into b. */
  predicate Turns(script: seq<Edit>, a: string, b: string)
    decreases |script|
  {
    if script == [] then a == b else Fits(script[0], a) && Turns(script[1..], Do(script[0], a), b)
  }

  // ---- the recurrence ----

  function Min3(a: nat, b: nat, c: nat): nat {
    if a <= b && a <= c then a else if b <= c then b else c
  }

  function Cut(s: string): string
    requires s != ""
  {
    s[..|s| - 1]
  }

  function Last(s: string): char
    requires s != ""
  {
    s[|s| - 1]
  }

  function Cost(a: string, b: string): nat
    requires a != "" && b != ""
  {
    if Last(a) == Last(b) then 0 else 1
  }

  function Lev(a: string, b: string): nat
    decreases |a| + |b|
  {
    if a == "" then |b|
    else if b == "" then |a|
    else Min3(Lev(Cut(a), b) + 1, Lev(a, Cut(b)) + 1, Lev(Cut(a), Cut(b)) + Cost(a, b))
  }

  lemma {:induction false} LevSymmetric(a: string, b: string)
    ensures Lev(a, b) == Lev(b, a)
    decreases |a| + |b|
  {
    if a != "" && b != "" {
      LevSymmetric(Cut(a), b);
      LevSymmetric(a, Cut(b));
      LevSymmetric(Cut(a), Cut(b));
    }
  }

  lemma {:induction false} LevBounds(a: string, b: string)
    ensures |b| <= |a| + Lev(a, b) && Lev(a, b) <= |a| + |b|
    decreases |a| + |b|
  {
    if a != "" && b != "" {
      LevBounds(Cut(a), b);
      LevBounds(a, Cut(b));
      LevBounds(Cut(a), Cut(b));
    }
  }

  lemma {:induction false} LevTriangle(a: string, b: string, c: string)
    ensures Lev(a, c) <= Lev(a, b) + Lev(b, c)
    decreases |a| + |b| + |c|
  {
    if a == "" {
      LevBounds(b, c);
    } else if c == "" {
      LevBounds(b, a);
      LevSymmetric(a, b);
    } else if b == "" {
      LevBounds(a, c);
    } else {
      var a1, b1, c1 := Cut(a), Cut(b), Cut(c);
      if Lev(a, b) == Lev(a1, b) + 1 {
        LevTriangle(a1, b, c);
      } else if Lev(b, c) == Lev(b, c1) + 1 {
        LevTriangle(a, b, c1);
      } else if Lev(a, b) == Lev(a, b1) + 1 {
        if Lev(b, c) == Lev(b1, c) + 1 {
          LevTriangle(a, b1, c);
        } else {
          LevTriangle(a, b1, c1);
        }
      } else if Lev(b, c) == Lev(b1, c) + 1 {
        LevTriangle(a1, b1, c);
      } else {
        LevTriangle(a1, b1, c1);
      }
    }
  }

  // ---- no script is shorter ----

  lemma {:induction false} LevSelf(s: string)
    ensures Lev(s, s) == 0
    decreases |s|
  {
    if s != "" {
      LevSelf(Cut(s));
    }
  }

  lemma LevSameEnd(a: string, b: string, x: char)
    ensures Lev(a + [x], b + [x]) <= Lev(a, b)
  {
    assert Cut(a + [x]) == a && Cut(b + [x]) == b;
  }

  lemma LevOneMore(s: string, x: char)
    ensures Lev(s, s + [x]) <= 1 && Lev(s + [x], s) <= 1
  {
    LevSelf(s);
    assert Cut(s + [x]) == s;
  }

  lemma LevOtherEnd(s: string, x: char, y: char)
    ensures Lev(s + [x], s + [y]) <= 1
  {
    LevSelf(s);
    assert Cut(s + [x]) == s && Cut(s + [y]) == s;
  }

  lemma {:induction false} OneEdit(e: Edit, s: string)
    requires Fits(e, s)
    ensures Lev(s, Do(e, s)) <= 1
    decreases |s|
  {
    if e.Ins? && e.at == |s| {
      assert Do(e, s) == s + [e.c];
      LevOneMore(s, e.c);
    } else if e.Del? && e.at == |s| - 1 {
      assert Do(e, s) == Cut(s) && s == Cut(s) + [Last(s)];
      LevOneMore(Cut(s), Last(s));
    } else if e.Sub? && e.at == |s| - 1 {
      assert Do(e, s) == Cut(s) + [e.c] && s == Cut(s) + [Last(s)];
      LevOtherEnd(Cut(s), Last(s), e.c);
    } else {
      OneEdit(e, Cut(s));
      EditInside(e, s);
      LevSameEnd(Cut(s), Do(e, Cut(s)), Last(s));
    }
  }

  lemma EditInside(e: Edit, s: string)
    requires s != "" && Fits(e, Cut(s))
    ensures s == Cut(s) + [Last(s)] && Do(e, s) == Do(e, Cut(s)) + [Last(s)]
  {
    var c, x, at := Cut(s), Last(s), e.at;
    assert s == c + [x] && s[..at] == c[..at] && s[at..] == c[at..] + [x];
    if !e.Ins? {
      assert s[at + 1..] == c[at + 1..] + [x];
    }
  }

  lemma {:induction false} NoScriptShorter(script: seq<Edit>, a: string, b: string)
    requires Turns(script, a, b)
    ensures Lev(a, b) <= |script|
    decreases |script|
  {
    if script == [] {
      LevSelf(a);
    } else {
      var m := Do(script[0], a);
      OneEdit(script[0], a);
      NoScriptShorter(script[1..], m, b);
      LevTriangle(a, m, b);
    }
  }

  // ---- some script is that short ----

  lemma {:induction false} TurnsConcat(s: seq<Edit>, t: seq<Edit>, a: string, b: string, c: string)
    requires Turns(s, a, b) && Turns(t, b, c)
    ensures Turns(s + t, a, c)
    decreases |s|
  {
    if s == [] {
      assert s + t == t;
    } else {
      assert (s + t)[0] == s[0] && (s + t)[1..] == s[1..] + t;
      TurnsConcat(s[1..], t, Do(s[0], a), b, c);
    }
  }

  lemma {:induction false} TurnsBefore(script: seq<Edit>, a: string, b: string, x: char)
    requires Turns(script, a, b)
    ensures Turns(script, a + [x], b + [x])
    decreases |script|
  {
    if script != [] {
      var m := Do(script[0], a);
      assert Do(script[0], a + [x]) == m + [x];
      TurnsBefore(script[1..], m, b, x);
    }
  }

  lemma OneTurn(e: Edit, a: string)
    requires Fits(e, a)
    ensures Turns([e], a, Do(e, a))
  {
    assert [e][1..] == [];
  }

  /** The script the recurrence spells out. */
  function Script(a: string, b: string): (r: seq<Edit>)
    ensures |r| == Lev(a, b)
    decreases |a| + |b|
  {
    if a == "" && b == "" then []
    else if a == "" then Script(a, Cut(b)) + [Ins(|b| - 1, Last(b))]
    else if b == "" then [Del(|a| - 1)] + Script(Cut(a), b)
    else if Lev(a, b) == Lev(Cut(a), b) + 1 then [Del(|a| - 1)] + Script(Cut(a), b)
    else if Lev(a, b) == Lev(a, Cut(b)) + 1 then Script(a, Cut(b)) + [Ins(|b| - 1, Last(b))]
    else Script(Cut(a), Cut(b)) + if Cost(a, b) == 0 then [] else [Sub(|b| - 1, Last(b))]
  }

  lemma InsertLast(s: seq<Edit>, a: string, b: string)
    requires b != "" && Turns(s, a, Cut(b))
    ensures Turns(s + [Ins(|b| - 1, Last(b))], a, b)
  {
    var last := Ins(|b| - 1, Last(b));
    assert Do(last, Cut(b)) == b;
    OneTurn(last, Cut(b));
    TurnsConcat(s, [last], a, Cut(b), b);
  }

  lemma DeleteFirst(s: seq<Edit>, a: string, b: string)
    requires a != "" && Turns(s, Cut(a), b)
    ensures Turns([Del(|a| - 1)] + s, a, b)
  {
    var first := Del(|a| - 1);
    assert Do(first, a) == Cut(a);
    OneTurn(first, a);
    TurnsConcat([first], s, a, Cut(a), b);
  }

  lemma ReplaceLast(s: seq<Edit>, a: string, b: string)
    requires a != "" && b != "" && Turns(s, Cut(a), Cut(b))
    ensures Turns(s + if Last(a) == Last(b) then [] else [Sub(|b| - 1, Last(b))], a, b)
  {
    var mid := Cut(b) + [Last(a)];
    assert Turns(s, a, mid) by {
      assert a == Cut(a) + [Last(a)];
      TurnsBefore(s, Cut(a), Cut(b), Last(a));
    }
    if Last(a) == Last(b) {
      assert mid == b && s + [] == s;
    } else {
      assert b == Cut(b) + [Last(b)];
      OneReplacement(Cut(b), Last(a), Last(b));
      TurnsConcat(s, [Sub(|b| - 1, Last(b))], a, mid, b);
    }
  }

  lemma OneReplacement(front: string, x: char, y: char)
    ensures Turns([Sub(|front|, y)], front + [x], front + [y])
  {
    var e, s := Sub(|front|, y), front + [x];
    assert s[..|front|] == front && s[|front| + 1..] == [] && front + [y] + [] == front + [y];
    OneTurn(e, s);
  }

  lemma {:induction false} ScriptTurns(a: string, b: string)
    ensures Turns(Script(a, b), a, b)
    decreases |a| + |b|
  {
    if a == "" && b == "" {
    } else if a == "" {
      ScriptTurns(a, Cut(b));
      InsertLast(Script(a, Cut(b)), a, b);
    } else if b == "" || Lev(a, b) == Lev(Cut(a), b) + 1 {
      ScriptTurns(Cut(a), b);
      DeleteFirst(Script(Cut(a), b), a, b);
    } else if Lev(a, b) == Lev(a, Cut(b)) + 1 {
      ScriptTurns(a, Cut(b));
      InsertLast(Script(a, Cut(b)), a, b);
    } else {
      ScriptTurns(Cut(a), Cut(b));
      ReplaceLast(Script(Cut(a), Cut(b)), a, b);
    }
  }

  /** d is the length of a shortest script. */
  ghost predicate Fewest(a: string, b: string, d: nat) {
    && (exists script :: Turns(script, a, b) && |script| == d)
    && (forall script :: Turns(script, a, b) ==> |script| >= d)
  }

  lemma LevIsFewest(a: string, b: string)
    ensures Fewest(a, b, Lev(a, b))
  {
    ScriptTurns(a, b);
    forall script | Turns(script, a, b) ensures |script| >= Lev(a, b) {
      NoScriptShorter(script, a, b);
    }
  }

  // ---- two rows ----

  /** The row of distances from the first i characters of a to the prefixes of b. */
  ghost predicate IsRow(row: seq<nat>, a: string, b: string, i: nat)
    requires i <= |a| && |row| <= |b| + 1
  {
    forall j :: 0 <= j < |row| ==> row[j] == Lev(a[..i], b[..j])
  }

  lemma FirstRow(row: seq<nat>, a: string, b: string)
    requires |row| == |b| + 1 && forall j :: 0 <= j < |row| ==> row[j] == j
    ensures IsRow(row, a, b, 0)
  {
  }

  lemma RowStarts(a: string, b: string, i: nat)
    requires i <= |a|
    ensures IsRow([i], a, b, i)
  {
  }

  lemma RowGrows(prev: seq<nat>, cur: seq<nat>, a: string, b: string, i: nat)
    requires 0 < i <= |a| && 0 < |cur| <= |b| && |prev| == |b| + 1 && IsRow(prev, a, b, i - 1) && IsRow(cur, a, b, i)
    ensures var j := |cur|;
      IsRow(cur + [Min3(prev[j] + 1, cur[j - 1] + 1, prev[j - 1] + if a[i - 1] == b[j - 1] then 0 else 1)], a, b, i)
  {
    var j := |cur|;
    assert Cut(a[..i]) == a[..i - 1] && Cut(b[..j]) == b[..j - 1];
  }

  method NextRow(prev: array<nat>, a: string, b: string, i: nat) returns (cur: array<nat>)
    requires 0 < i <= |a| && prev.Length == |b| + 1 && IsRow(prev[..], a, b, i - 1)
    ensures cur.Length == |b| + 1 && IsRow(cur[..], a, b, i)
  {
    cur := new nat[|b| + 1];
    cur[0] := i;
    assert cur[..1] == [i];
    RowStarts(a, b, i);
    ghost var row := prev[..];
    var j := 1;
    while j <= |b|
      invariant 1 <= j <= |b| + 1
      invariant prev[..] == row && IsRow(cur[..j], a, b, i)
    {
      var cost := if a[i - 1] == b[j - 1] then 0 else 1;
      var d := Min3(prev[j] + 1, cur[j - 1] + 1, prev[j - 1] + cost);
      RowGrows(row, cur[..j], a, b, i);
      assert cur[..j][j - 1] == cur[j - 1] && row[j] == prev[j] && row[j - 1] == prev[j - 1];
      ghost var done := cur[..j];
      cur[j] := d;
      assert cur[..j + 1] == done + [d];
      j := j + 1;
    }
    assert cur[..j] == cur[..];
  }

  method Distance(a: string, b: string) returns (d: nat)
    ensures d == Lev(a, b)
  {
    var prev := new nat[|b| + 1](j => j);
    FirstRow(prev[..], a, b);
    var i := 1;
    while i <= |a|
      invariant 1 <= i <= |a| + 1 && prev.Length == |b| + 1 && IsRow(prev[..], a, b, i - 1)
    {
      prev := NextRow(prev, a, b, i);
      i := i + 1;
    }
    assert a[..|a|] == a && b[..|b|] == b && prev[..][|b|] == prev[|b|];
    return prev[|b|];
  }

  /** Entry k is within two edits, no entry is nearer, and none before it is as near. */
  predicate FirstNearest(want: string, have: seq<string>, k: int) {
    && 0 <= k < |have| && Lev(want, have[k]) <= 2
    && (forall j :: 0 <= j < |have| ==> Lev(want, have[j]) >= Lev(want, have[k]))
    && (forall j :: 0 <= j < k ==> Lev(want, have[j]) > Lev(want, have[k]))
  }

  /** A name is offered exactly when one is within two edits: the first of the nearest. */
  method Closest(want: string, have: seq<string>) returns (best: string)
    ensures if exists h :: h in have && Lev(want, h) <= 2
      then exists k :: FirstNearest(want, have, k) && best == have[k]
      else best == ""
  {
    best := "";
    var bd, i := 3, 0;
    ghost var at := -1;
    while i < |have|
      invariant 0 <= i <= |have| && -1 <= at < i && bd <= 3
      invariant at < 0 ==> best == "" && bd == 3
      invariant at >= 0 ==> best == have[at] && bd == Lev(want, best) <= 2
      invariant forall j :: 0 <= j < i ==> Lev(want, have[j]) >= bd
      invariant forall j :: 0 <= j < at ==> Lev(want, have[j]) > bd
    {
      var d := Distance(want, have[i]);
      if d < bd {
        best, bd := have[i], d;
        at := i;
      }
      i := i + 1;
    }
    assert at >= 0 ==> FirstNearest(want, have, at);
  }
}
