/** Patterns with stars: the greedy match is exact. */
module Glob {
  /** What a pattern means: a star stands for any string, every other character for itself. */
  predicate Matches(pat: string, s: string)
    decreases |pat|
  {
    if pat == "" then s == ""
    else if pat[0] == '*' then exists k :: 0 <= k <= |s| && Matches(pat[1..], s[k..])
    else s != "" && s[0] == pat[0] && Matches(pat[1..], s[1..])
  }

  /** The pieces between the stars. */
  function Split(pat: string): (r: seq<string>)
    ensures r != []
    ensures |r| == 1 <==> '*' !in pat
    ensures |r| == 1 ==> r[0] == pat
  {
    if pat == "" then [""]
    else
      var rest := Split(pat[1..]);
      if pat[0] == '*' then [""] + rest else [[pat[0]] + rest[0]] + rest[1..]
  }

  /** The text is the pieces in order, with any string in each gap. */
  ghost predicate Fits(parts: seq<string>, s: string)
    requires parts != []
    decreases |parts|, 0
  {
    if |parts| == 1 then s == parts[0] else parts[0] <= s && Starred(parts[1..], s[|parts[0]|..])
  }

  /** The same after a star. */
  ghost predicate Starred(parts: seq<string>, s: string)
    requires parts != []
    decreases |parts|, 2
  {
    exists k :: From(parts, s, k)
  }

  ghost predicate From(parts: seq<string>, s: string, k: int)
    requires parts != []
    decreases |parts|, 1
  {
    0 <= k <= |s| && Fits(parts, s[k..])
  }

  function Weave(parts: seq<string>, gaps: seq<string>): string
    requires |parts| == |gaps| + 1
  {
    if gaps == [] then parts[0] else parts[0] + gaps[0] + Weave(parts[1..], gaps[1..])
  }

  lemma {:induction false} CutOf(parts: seq<string>, s: string) returns (gaps: seq<string>)
    requires parts != [] && Fits(parts, s)
    ensures |gaps| + 1 == |parts| && Weave(parts, gaps) == s
    decreases |parts|
  {
    if |parts| == 1 {
      gaps := [];
    } else {
      var t := s[|parts[0]|..];
      assert Starred(parts[1..], t);
      var k :| From(parts[1..], t, k);
      var rest := CutOf(parts[1..], t[k..]);
      gaps := [t[..k]] + rest;
      assert gaps[1..] == rest && s == parts[0] + t[..k] + t[k..];
    }
  }

  lemma {:induction false} CutFits(parts: seq<string>, gaps: seq<string>)
    requires |gaps| + 1 == |parts|
    ensures Fits(parts, Weave(parts, gaps))
    decreases |parts|
  {
    if |parts| > 1 {
      var s, tail := Weave(parts, gaps), Weave(parts[1..], gaps[1..]);
      CutFits(parts[1..], gaps[1..]);
      var t := s[|parts[0]|..];
      assert s == parts[0] + (gaps[0] + tail) && t == gaps[0] + tail && t[|gaps[0]|..] == tail;
      assert From(parts[1..], t, |gaps[0]|);
    }
  }

  /** A text fits the pieces exactly when it is their weave with some gaps. */
  lemma FitsIsACut(parts: seq<string>, s: string)
    requires parts != []
    ensures Fits(parts, s) <==> exists gaps :: |gaps| + 1 == |parts| && Weave(parts, gaps) == s
  {
    if Fits(parts, s) {
      var gaps := CutOf(parts, s);
    }
    forall gaps | |gaps| + 1 == |parts| && Weave(parts, gaps) == s ensures Fits(parts, s) {
      CutFits(parts, gaps);
    }
  }

  lemma OneCharMore(parts: seq<string>, rest: seq<string>, c: char, s: string)
    requires parts != [] && rest != [] && parts[0] == [c] + rest[0] && parts[1..] == rest[1..] && s != ""
    ensures Fits(parts, s) <==> c == s[0] && Fits(rest, s[1..])
  {
    assert s == [s[0]] + s[1..] && |parts| == |parts[1..]| + 1 && |rest| == |rest[1..]| + 1;
    if rest[0] <= s[1..] {
      assert s[1..][|rest[0]|..] == s[|parts[0]|..];
    }
    assert parts[0] <= s <==> c == s[0] && rest[0] <= s[1..];
  }

  /** Splitting at the stars keeps the meaning. */
  lemma {:induction false} SplitKeepsMeaning(pat: string, s: string)
    ensures Matches(pat, s) <==> Fits(Split(pat), s)
    decreases |pat|
  {
    if pat != "" {
      var rest := Split(pat[1..]);
      if pat[0] == '*' {
        assert Split(pat)[1..] == rest && s[0..] == s;
        forall k | 0 <= k <= |s| ensures Matches(pat[1..], s[k..]) <==> From(rest, s, k) {
          SplitKeepsMeaning(pat[1..], s[k..]);
          assert From(rest, s, k) <==> Fits(rest, s[k..]);
        }
        assert Fits(Split(pat), s) <==> Starred(rest, s);
      } else {
        var parts := Split(pat);
        assert parts[0] == [pat[0]] + rest[0] && parts[1..] == rest[1..];
        if s != "" {
          SplitKeepsMeaning(pat[1..], s[1..]);
          OneCharMore(parts, rest, pat[0], s);
        }
      }
    }
  }

  /** Where p first stands in s, -1 if nowhere. */
  function Index(s: string, p: string): (i: int)
    ensures i == -1 || (0 <= i <= |s| && p <= s[i..])
  {
    if p <= s then 0
    else if s == "" then -1
    else
      var i := Index(s[1..], p);
      assert i >= 0 ==> s[1..][i..] == s[i + 1..];
      if i < 0 then -1 else i + 1
  }

  lemma StarredEarlier(parts: seq<string>, s: string, k: nat)
    requires parts != [] && k <= |s| && Starred(parts, s[k..])
    ensures Starred(parts, s)
  {
    var m :| From(parts, s[k..], m);
    assert s[k..][m..] == s[k + m..];
    assert From(parts, s, k + m);
  }

  lemma AnyPlace(parts: seq<string>, s: string) returns (k: nat)
    requires parts != [] && Starred(parts, s)
    ensures k <= |s| && Fits(parts, s[k..])
  {
    k :| From(parts, s, k);
  }

  lemma SomePlace(parts: seq<string>, s: string) returns (k: nat)
    requires |parts| > 1 && Starred(parts, s)
    ensures k + |parts[0]| <= |s| && parts[0] <= s[k..] && Starred(parts[1..], s[k + |parts[0]|..])
  {
    k :| From(parts, s, k);
    assert Fits(parts, s[k..]);
    assert s[k..][|parts[0]|..] == s[k + |parts[0]|..];
  }

  lemma ThatPlace(parts: seq<string>, s: string, k: nat)
    requires |parts| > 1 && k <= |s| && parts[0] <= s[k..] && Starred(parts[1..], s[k + |parts[0]|..])
    ensures Starred(parts, s)
  {
    assert s[k..][|parts[0]|..] == s[k + |parts[0]|..];
    assert From(parts, s, k);
  }

  /** And p stands nowhere before that. */
  lemma {:induction false} IndexFirst(s: string, p: string, k: nat)
    requires k <= |s| && p <= s[k..]
    ensures var i := Index(s, p); 0 <= i <= k && i + |p| <= |s|
  {
    if k == 0 {
      assert s[0..] == s;
    } else if !(p <= s) {
      assert s[1..][k - 1..] == s[k..];
      IndexFirst(s[1..], p, k - 1);
    }
  }

  lemma SliceOfSlice(s: string, a: nat, b: nat)
    requires a <= b <= |s|
    ensures s[a..][b - a..] == s[b..]
  {
  }

  lemma EarlierRest(parts: seq<string>, s: string, a: nat, b: nat)
    requires parts != [] && a <= b <= |s| && Starred(parts, s[b..])
    ensures Starred(parts, s[a..])
  {
    SliceOfSlice(s, a, b);
    StarredEarlier(parts, s[a..], b - a);
  }

  lemma FirstWillDo(p: string, rest: seq<string>, s: string, k: nat)
    requires rest != [] && k + |p| <= |s| && p <= s[k..] && Starred(rest, s[k + |p|..])
    ensures var i := Index(s, p); i >= 0 && i + |p| <= |s| && Starred(rest, s[i + |p|..])
  {
    IndexFirst(s, p, k);
    EarlierRest(rest, s, Index(s, p) + |p|, k + |p|);
  }

  lemma LeftmostPlace(parts: seq<string>, s: string)
    requires |parts| > 1 && Starred(parts, s)
    ensures var i := Index(s, parts[0]); i >= 0 && Starred(parts[1..], s[i + |parts[0]|..])
  {
    var k := SomePlace(parts, s);
    FirstWillDo(parts[0], parts[1..], s, k);
  }

  /** The exchange: whatever cut there is, the leftmost place for the next piece will do. */
  lemma LeftmostWillDo(parts: seq<string>, s: string)
    requires |parts| > 1
    ensures var i := Index(s, parts[0]);
      Starred(parts, s) <==> i >= 0 && Starred(parts[1..], s[i + |parts[0]|..])
  {
    var n, i := |parts[0]|, Index(s, parts[0]);
    if Starred(parts, s) {
      LeftmostPlace(parts, s);
    } else if i >= 0 && Starred(parts[1..], s[i + n..]) {
      ThatPlace(parts, s, i);
    }
  }

  predicate EndsWith(s: string, p: string) { |p| <= |s| && s[|s| - |p|..] == p }

  lemma LastPiece(p: string, s: string)
    ensures Starred([p], s) <==> EndsWith(s, p)
  {
    if Starred([p], s) {
      var k := AnyPlace([p], s);
    }
    if EndsWith(s, p) {
      assert Fits([p], s[|s| - |p|..]);
      assert From([p], s, |s| - |p|);
    }
  }

  lemma NextPiece(parts: seq<string>, i: nat, s: string)
    requires i + 1 < |parts|
    ensures var at := Index(s, parts[i]);
      Starred(parts[i..], s) <==> at >= 0 && Starred(parts[i + 1..], s[at + |parts[i]|..])
  {
    assert parts[i..][1..] == parts[i + 1..] && parts[i..][0] == parts[i];
    LeftmostWillDo(parts[i..], s);
  }

  /** True exactly when the pattern matches. */
  method GlobMatch(pat: string, text: string) returns (ok: bool)
    ensures ok <==> Matches(pat, text)
  {
    SplitKeepsMeaning(pat, text);
    if '*' !in pat {
      return pat == text;
    }
    var parts := Split(pat);
    if !(parts[0] <= text) {
      return false;
    }
    var s := text[|parts[0]|..];
    var i := 1;
    while i < |parts| - 1
      invariant 1 <= i <= |parts| - 1
      invariant Starred(parts[i..], s) <==> Fits(parts, text)
    {
      NextPiece(parts, i, s);
      var at := Index(s, parts[i]);
      if at < 0 {
        return false;
      }
      s := s[at + |parts[i]|..];
      i := i + 1;
    }
    var last := parts[|parts| - 1];
    assert parts[i..] == [last];
    LastPiece(last, s);
    return EndsWith(s, parts[|parts| - 1]);
  }
}
