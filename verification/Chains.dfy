/** Ordered rule chains under a key, as iptables edits them. */
module Chains {
  import opened Outcomes

  /** The list without its first copy of r. */
  function RemoveFirst<R(==)>(s: seq<R>, r: R): (t: seq<R>)
    requires r in s
    ensures |t| == |s| - 1
  {
    if s[0] == r then s[1..] else [s[0]] + RemoveFirst(s[1..], r)
  }

  lemma {:induction false} RemoveFirstAt<R>(a: seq<R>, r: R, b: seq<R>)
    requires r !in a
    ensures r in a + [r] + b && RemoveFirst(a + [r] + b, r) == a + b
  {
    var s := a + [r] + b;
    assert s[|a|] == r;
    if a == [] {
      assert s == [r] + b;
    } else {
      assert s[1..] == a[1..] + [r] + b && s[0] == a[0];
      RemoveFirstAt(a[1..], r, b);
      assert a + b == [a[0]] + (a[1..] + b);
    }
  }

  /** -N */
  function New<K(==), R>(cs: map<K, seq<R>>, c: K): Option<map<K, seq<R>>> {
    if c in cs then None else Some(cs[c := []])
  }

  /** -F */
  function Flush<K(==), R>(cs: map<K, seq<R>>, c: K): Option<map<K, seq<R>>> {
    if c in cs then Some(cs[c := []]) else None
  }

  /** -A */
  function Append<K(==), R>(cs: map<K, seq<R>>, c: K, r: R): Option<map<K, seq<R>>> {
    if c in cs then Some(cs[c := cs[c] + [r]]) else None
  }

  /** -I chain 1 */
  function Insert<K(==), R>(cs: map<K, seq<R>>, c: K, r: R): Option<map<K, seq<R>>> {
    if c in cs then Some(cs[c := [r] + cs[c]]) else None
  }

  /** -D: the first equal rule */
  function Delete<K(==), R(==)>(cs: map<K, seq<R>>, c: K, r: R): Option<map<K, seq<R>>> {
    if c in cs && r in cs[c] then Some(cs[c := RemoveFirst(cs[c], r)]) else None
  }

  /** -C */
  predicate Has<K(==), R(==)>(cs: map<K, seq<R>>, c: K, r: R) {
    c in cs && r in cs[c]
  }

  /** -X: only an empty chain that no rule jumps to */
  function Drop<K(==), R>(cs: map<K, seq<R>>, c: K, jumps: (K, R) -> bool): Option<map<K, seq<R>>> {
    if c in cs && cs[c] == [] && !Referenced(cs, jumps) then Some(cs - {c}) else None
  }

  /** Some rule, given with the key of its chain, jumps there. */
  predicate Referenced<K(==), R>(cs: map<K, seq<R>>, jumps: (K, R) -> bool) {
    exists k, i :: k in cs && 0 <= i < |cs[k]| && jumps(k, cs[k][i])
  }
}
