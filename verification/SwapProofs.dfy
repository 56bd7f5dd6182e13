/** What a swap leaves, wherever it fails or crashes. */
module SwapProofs {
  import opened Outcomes
  import opened Swap

  /** Names and marker as on the other disk; only .new and .prev may differ. */
  ghost predicate SameBins(d: Disk, r: Disk) {
    && d.marker == r.marker
    && forall n :: (Bin(n) in d.files <==> Bin(n) in r.files) && (Bin(n) in r.files ==> d.files[Bin(n)] == r.files[Bin(n)])
  }

  /** From a to b no name changes, at no moment. */
  ghost predicate Quietly(a: Walk, b: Walk) {
    SameBins(b.disk, a.disk) && forall d :: d in b.seen ==> d in a.seen || SameBins(d, a.disk)
  }

  ghost predicate Elsewhere(a: Disk, b: Disk, p: Path) {
    forall q :: q != p ==> (q in a.files <==> q in b.files) && (q in a.files ==> a.files[q] == b.files[q])
  }

  lemma QuietlyThen(a: Walk, b: Walk, c: Walk)
    requires Quietly(a, b) && Quietly(b, c)
    ensures Quietly(a, c)
  {
    forall d | d in c.seen ensures d in a.seen || SameBins(d, a.disk) {
    }
  }

  lemma PutQuietly(w: Walk, p: Path, c: Content)
    requires !p.Bin?
    ensures Quietly(w, Put(w, p, c)) && Elsewhere(w.disk, Put(w, p, c).disk, p)
  {
  }

  lemma UnlinkQuietly(w: Walk, p: Path)
    requires !p.Bin?
    ensures Quietly(w, Unlink(w, p)) && Elsewhere(w.disk, Unlink(w, p).disk, p)
  {
  }

  lemma CopyQuietly(w: Walk, from: Option<Content>, dst: Path, e: Env)
    requires !dst.Bin?
    ensures
      var r := CopyTo(w, from, dst, e);
      && Quietly(w, r.walk) && Elsewhere(w.disk, r.walk.disk, dst)
      && (r.ok ==> from.Some? && dst in r.walk.disk.files && r.walk.disk.files[dst] == from.value)
  {
    if Open(dst) !in e.broken && from.Some? {
      var bare := if Remove(dst) in e.broken || dst !in w.disk.files then w else Unlink(w, dst);
      UnlinkQuietly(w, dst);
      if Create(dst) !in e.broken && dst !in bare.disk.files {
        var w1 := Put(bare, dst, []);
        var w2 := Put(w1, dst, Prefix(from.value, e.torn));
        PutQuietly(bare, dst, []);
        PutQuietly(w1, dst, Prefix(from.value, e.torn));
        PutQuietly(w2, dst, from.value);
        QuietlyThen(w, bare, w1);
        QuietlyThen(w, w1, w2);
        QuietlyThen(w, w2, Put(w2, dst, from.value));
      }
    }
  }

  ghost predicate NewIs(d: Disk, src: map<string, Content>, n: string) {
    n in src && New(n) in d.files && d.files[New(n)] == src[n]
  }

  lemma {:induction false} StagedQuietly(w: Walk, src: map<string, Content>, names: seq<string>, e: Env)
    requires forall i, j :: 0 <= i < j < |names| ==> names[i] != names[j]
    ensures
      var r := Staged(w, src, names, e);
      && Quietly(w, r.walk)
      && (r.ok ==> forall n :: n in names ==> NewIs(r.walk.disk, src, n))
      && forall n :: n !in names ==> SameAt(w.disk, r.walk.disk, New(n))
    decreases |names|
  {
    if names != [] {
      var n := names[0];
      CopyQuietly(w, From(src, n), New(n), e);
      var r := CopyTo(w, From(src, n), New(n), e);
      assert names == [n] + names[1..];
      if r.ok {
        StagedQuietly(r.walk, src, names[1..], e);
        QuietlyThen(w, r.walk, Staged(r.walk, src, names[1..], e).walk);
        assert n !in names[1..];
      }
    }
  }

  ghost predicate SameAt(a: Disk, b: Disk, p: Path) {
    (p in a.files <==> p in b.files) && (p in a.files ==> a.files[p] == b.files[p])
  }

  lemma {:induction false} CleanedQuietly(w: Walk, names: seq<string>, e: Env)
    ensures Quietly(w, Cleaned(w, names, e))
    ensures forall n :: SameAt(w.disk, Cleaned(w, names, e).disk, Prev(n))
    ensures forall d, n :: d in Cleaned(w, names, e).seen ==> d in w.seen || SameAt(w.disk, d, Prev(n))
    decreases |names|
  {
    if names != [] {
      var n := names[0];
      var m := if Clean(n) in e.broken || New(n) !in w.disk.files then w else Unlink(w, New(n));
      UnlinkQuietly(w, New(n));
      CleanedQuietly(m, names[1..], e);
      QuietlyThen(w, m, Cleaned(w, names, e));
    }
  }

  ghost predicate PrevIs(d: Disk, n: string) {
    Bin(n) in d.files && Prev(n) in d.files && d.files[Prev(n)] == d.files[Bin(n)]
  }

  lemma KeptOneQuietly(w: Walk, n: string, e: Env)
    requires Bin(n) in w.disk.files
    ensures
      var r := KeptOne(w, n, e);
      Quietly(w, r.walk) && Elsewhere(w.disk, r.walk.disk, Prev(n)) && (r.ok ==> PrevIs(r.walk.disk, n))
  {
    var bare := if Remove(Prev(n)) in e.broken || Prev(n) !in w.disk.files then w else Unlink(w, Prev(n));
    UnlinkQuietly(w, Prev(n));
    if Link(n) !in e.broken && Prev(n) !in bare.disk.files {
      PutQuietly(bare, Prev(n), w.disk.files[Bin(n)]);
      QuietlyThen(w, bare, Put(bare, Prev(n), w.disk.files[Bin(n)]));
    } else {
      CopyQuietly(bare, Some(w.disk.files[Bin(n)]), Prev(n), e);
      QuietlyThen(w, bare, CopyTo(bare, Some(w.disk.files[Bin(n)]), Prev(n), e).walk);
    }
  }

  lemma {:induction false} KeptQuietly(w: Walk, names: seq<string>, had: set<string>, e: Env)
    requires forall n :: n in had ==> PrevIs(w.disk, n)
    ensures
      var r := Kept(w, names, had, e);
      && Quietly(w, r.walk) && (forall n :: SameAt(w.disk, r.walk.disk, New(n)))
      && (r.ok ==> forall n :: n in r.had ==> PrevIs(r.walk.disk, n))
    decreases |names|
  {
    if names != [] {
      var n := names[0];
      if !Stats(w.disk, n, e) {
        KeptQuietly(w, names[1..], had, e);
      } else {
        KeptOneQuietly(w, n, e);
        var one := KeptOne(w, n, e);
        if one.ok {
          StillKept(w, one.walk, n, had);
          KeptQuietly(one.walk, names[1..], had + {n}, e);
          QuietlyThen(w, one.walk, Kept(w, names, had, e).walk);
        }
      }
    }
  }

  lemma StillKept(w: Walk, m: Walk, n: string, had: set<string>)
    requires Quietly(w, m) && Elsewhere(w.disk, m.disk, Prev(n)) && PrevIs(m.disk, n)
    requires forall x :: x in had ==> PrevIs(w.disk, x)
    ensures forall x :: x in had + {n} ==> PrevIs(m.disk, x)
  {
    forall x | x in had && x != n ensures PrevIs(m.disk, x) {
      assert PrevIs(w.disk, x) && Prev(x) != Prev(n);
    }
  }

  /** The names kept are those whose stat found a file. */
  lemma {:induction false} KeptHad(w: Walk, names: seq<string>, had: set<string>, e: Env)
    ensures var r := Kept(w, names, had, e); r.ok ==> r.had == had + set n | n in names && Stats(w.disk, n, e)
    decreases |names|
  {
    if names != [] {
      var n := names[0];
      assert names == [n] + names[1..];
      if !Stats(w.disk, n, e) {
        KeptHad(w, names[1..], had, e);
      } else {
        KeptOneQuietly(w, n, e);
        var one := KeptOne(w, n, e).walk;
        KeptHad(one, names[1..], had + {n}, e);
        assert forall m :: Stats(one.disk, m, e) <==> Stats(w.disk, m, e);
      }
    }
  }

  // ---- while names change ----

  /** Every name that existed holds a whole old or a whole new file. */
  ghost predicate Whole(d: Disk, d0: Disk, src: map<string, Content>) {
    forall n :: n in BINARIES && Bin(n) in d0.files ==>
      Bin(n) in d.files && (d.files[Bin(n)] == d0.files[Bin(n)] || (n in src && d.files[Bin(n)] == src[n]))
  }

  /** The old file of a kept name is under .prev, or back under its name. */
  ghost predicate Safe(d: Disk, d0: Disk, had: set<string>) {
    forall n :: n in had ==>
      && Bin(n) in d0.files && Bin(n) in d.files
      && (Prev(n) in d.files ==> d.files[Prev(n)] == d0.files[Bin(n)])
      && (Prev(n) !in d.files ==> d.files[Bin(n)] == d0.files[Bin(n)])
  }

  ghost predicate Mid(d: Disk, d0: Disk, src: map<string, Content>, had: set<string>) {
    Whole(d, d0, src) && Safe(d, d0, had)
  }

  ghost predicate Midway(a: Walk, b: Walk, d0: Disk, src: map<string, Content>, had: set<string>) {
    && Mid(b.disk, d0, src, had) && b.disk.marker == a.disk.marker
    && forall d :: d in b.seen ==> d in a.seen || (Mid(d, d0, src, had) && d.marker == a.disk.marker)
  }

  /** Names in `done` hold the new file, all others what they held. */
  ghost predicate SwappedTo(d: Disk, d0: Disk, src: map<string, Content>, done: set<string>) {
    forall n :: if n in done then n in src && Bin(n) in d.files && d.files[Bin(n)] == src[n]
      else (Bin(n) in d.files <==> Bin(n) in d0.files) && (Bin(n) in d0.files ==> d.files[Bin(n)] == d0.files[Bin(n)])
  }

  lemma {:induction false} SwappedMidway(
      w: Walk, names: seq<string>, done: set<string>, e: Env, d0: Disk, src: map<string, Content>, had: set<string>)
    requires forall i, j :: 0 <= i < j < |names| ==> names[i] != names[j]
    requires forall n :: n in names ==> NewIs(w.disk, src, n) && n !in done
    requires Safe(w.disk, d0, had) && (forall n :: n in had ==> Prev(n) in w.disk.files) && SwappedTo(w.disk, d0, src, done)
    ensures
      var r := Swapped(w, names, done, e);
      && Midway(w, r.walk, d0, src, had) && SwappedTo(r.walk.disk, d0, src, r.swapped)
      && (r.ok ==> forall n :: n in names ==> n in r.swapped)
      && done <= r.swapped
    decreases |names|
  {
    if names != [] && Rename(names[0]) !in e.broken {
      var n := names[0];
      assert names == [n] + names[1..] && n !in names[1..];
      assert NewIs(w.disk, src, n);
      var m := Renamed(w, New(n), Bin(n));
      forall x | x in names[1..] ensures NewIs(m.disk, src, x) && x !in done + {n} {
        assert NewIs(w.disk, src, x);
      }
      SwappedMidway(m, names[1..], done + {n}, e, d0, src, had);
    }
  }

  lemma {:induction false} PutBackMidway(
      w: Walk, names: seq<string>, back: set<string>, had: set<string>, d0: Disk, src: map<string, Content>)
    requires Mid(w.disk, d0, src, had) && back <= had
    ensures
      var b := PutBack(w, names, back);
      && Midway(w, b, d0, src, had)
      && (forall n :: n in back && n in names ==> b.disk.files[Bin(n)] == d0.files[Bin(n)] && Prev(n) !in b.disk.files)
      && (forall n :: n !in back ==> SameAt(w.disk, b.disk, Bin(n)))
      && (forall n :: n in back && Prev(n) !in w.disk.files ==> Prev(n) !in b.disk.files)
    decreases |names|
  {
    if names != [] {
      var n := names[0];
      assert names == [n] + names[1..];
      var m := if n in back && Prev(n) in w.disk.files then Renamed(w, Prev(n), Bin(n)) else w;
      OneBack(w, n, back, had, d0, src);
      PutBackMidway(m, names[1..], back, had, d0, src);
      assert n in back ==> Prev(n) !in PutBack(w, names, back).disk.files;
    }
  }

  lemma OneBack(w: Walk, n: string, back: set<string>, had: set<string>, d0: Disk, src: map<string, Content>)
    requires Mid(w.disk, d0, src, had) && back <= had
    ensures
      var m := if n in back && Prev(n) in w.disk.files then Renamed(w, Prev(n), Bin(n)) else w;
      Midway(w, m, d0, src, had) && (n in back ==> Prev(n) !in m.disk.files) &&
        (forall x :: x !in back ==> SameAt(w.disk, m.disk, Bin(x)))
      && (forall x :: Prev(x) !in w.disk.files ==> Prev(x) !in m.disk.files)
  {
  }

  // ---- whole swaps ----

  ghost predicate AllOld(d: Disk, d0: Disk) { Whole(d, d0, map[]) }

  ghost predicate AllNew(d: Disk, d0: Disk, src: map<string, Content>) {
    forall n :: n in BINARIES && Bin(n) in d0.files ==> n in src && Bin(n) in d.files && d.files[Bin(n)] == src[n]
  }

  /** Sweeping the staged files after the renames keeps every disk safe. */
  lemma CleanedMidway(p: Walk, had: set<string>, e: Env, d0: Disk, src: map<string, Content>)
    requires Mid(p.disk, d0, src, had)
    ensures Midway(p, Cleaned(p, BINARIES, e), d0, src, had) && SameBins(Cleaned(p, BINARIES, e).disk, p.disk)
  {
    CleanedQuietly(p, BINARIES, e);
    var c := Cleaned(p, BINARIES, e);
    forall d | (d in c.seen && d !in p.seen) || d == c.disk ensures Mid(d, d0, src, had) && d.marker == p.disk.marker {
      assert SameBins(d, p.disk);
      assert forall n :: n in had ==> SameAt(p.disk, d, Prev(n));
    }
  }

  /** A rollback passes only through safe disks and ends with every name back whose rename
      works. */
  lemma RestoredEnds(w: Walk, had: set<string>, e: Env, d0: Disk, src: map<string, Content>)
    requires Fair(e) && Mid(w.disk, d0, src, had) && forall n :: n in had ==> n in BINARIES
    ensures
      var b := Restored(w, had, e);
      && (forall n :: n in Returning(had, e) ==> Bin(n) in b.disk.files && b.disk.files[Bin(n)] == d0.files[Bin(n)])
      && (forall n :: n !in Returning(had, e) ==> SameAt(w.disk, b.disk, Bin(n)))
      && forall d :: d in b.seen ==> d in w.seen || (Mid(d, d0, src, had) && (d.marker == w.disk.marker || d == b.disk))
  {
    var back := Returning(had, e);
    PutBackMidway(w, e.order, back, had, d0, src);
    var p := PutBack(w, e.order, back);
    CleanedMidway(p, had, e, d0, src);
    var c := Cleaned(p, BINARIES, e);
    forall n | n in back ensures Bin(n) in c.disk.files && c.disk.files[Bin(n)] == d0.files[Bin(n)] {
      assert n in e.order;
    }
    forall n | n !in back ensures SameAt(w.disk, c.disk, Bin(n)) {
      assert SameAt(w.disk, p.disk, Bin(n));
    }
  }

  /** The state once the old files are kept. */
  ghost predicate Ready(w: Walk, d0: Disk, src: map<string, Content>, had: set<string>) {
    && (forall n :: n in BINARIES ==> NewIs(w.disk, src, n))
    && (forall n :: n in had ==> n in BINARIES && PrevIs(w.disk, n))
    && (forall n :: SameAt(d0, w.disk, Bin(n)))
  }

  lemma ReadyIsMid(w: Walk, d0: Disk, src: map<string, Content>, had: set<string>)
    requires Ready(w, d0, src, had)
    ensures Mid(w.disk, d0, src, had) && SwappedTo(w.disk, d0, src, {}) && AllOld(w.disk, d0)
    ensures forall m :: Mid(w.disk.(marker := m), d0, src, had)
  {
    assert forall n :: n in BINARIES ==> SameAt(d0, w.disk, Bin(n));
    assert forall n :: n in had ==> SameAt(d0, w.disk, Bin(n)) && PrevIs(w.disk, n);
    forall n
      ensures Bin(n) in w.disk.files <==> Bin(n) in d0.files
      ensures Bin(n) in d0.files ==> w.disk.files[Bin(n)] == d0.files[Bin(n)]
    {
      assert SameAt(d0, w.disk, Bin(n));
    }
  }

  /** How each name ends when a swap fails: `back` are the kept names whose rename back works. */
  ghost predicate EndsAs(d: Disk, d0: Disk, src: map<string, Content>, back: set<string>, swapped: set<string>) {
    forall n :: n in BINARIES && Bin(n) in d0.files ==>
      && Bin(n) in d.files
      && (n in swapped ==> n in src)
      && d.files[Bin(n)] == if n in swapped && n !in back then src[n] else d0.files[Bin(n)]
  }

  lemma RestoredAs(w: Walk, had: set<string>, swapped: set<string>, e: Env, d0: Disk, src: map<string, Content>)
    requires Fair(e) && Mid(w.disk, d0, src, had) && SwappedTo(w.disk, d0, src, swapped)
    requires forall n :: n in had ==> n in BINARIES
    ensures EndsAs(Restored(w, had, e).disk, d0, src, Returning(had, e), swapped)
    ensures forall d :: d in Restored(w, had, e).seen ==> d in w.seen || Whole(d, d0, src)
  {
    RestoredEnds(w, had, e, d0, src);
    assert forall n :: n !in Returning(had, e) ==> SameAt(w.disk, Restored(w, had, e).disk, Bin(n));
  }

  lemma ReplacedEnds(w: Walk, had: set<string>, e: Env, d0: Disk, src: map<string, Content>)
    requires Fair(e) && Ready(w, d0, src, had)
    ensures
      var r := Replaced(w, had, e);
      && r.had == had
      && (!r.failed ==> forall n :: n in BINARIES ==>
        n in src && Bin(n) in r.walk.disk.files && r.walk.disk.files[Bin(n)] == src[n])
      && (r.failed ==> EndsAs(r.walk.disk, d0, src, Returning(had, e), r.swapped))
      && forall d :: d in r.walk.seen ==> d in w.seen || Whole(d, d0, src)
  {
    ReadyIsMid(w, d0, src, had);
    if Mark in e.broken {
      RestoredAs(w, had, {}, e, d0, src);
    } else {
      SwappedMidway(w, BINARIES, {}, e, d0, src, had);
      var s := Swapped(w, BINARIES, {}, e);
      if !s.ok || Restart in e.broken {
        RestoredAs(s.walk, had, s.swapped, e, d0, src);
      } else {
        var waited := if e.commits then To(s.walk, s.walk.disk.(marker := Committed)) else s.walk;
        RestoredAs(waited, had, s.swapped, e, d0, src);
      }
    }
  }

  /** A swap up to its mark: names untouched throughout, and if it got that far all is ready. */
  lemma UpToMark(d0: Disk, src: map<string, Content>, e: Env)
    ensures
      var s := Staged(Walk(d0, [d0]), src, BINARIES, e);
      var k := Kept(s.walk, BINARIES, {}, e);
      && Quietly(Walk(d0, [d0]), s.walk)
      && (s.ok ==> Quietly(Walk(d0, [d0]), k.walk))
      && (s.ok && k.ok ==> Ready(k.walk, d0, src, k.had) && k.had == set n | n in BINARIES && Stats(d0, n, e))
  {
    var s := Staged(Walk(d0, [d0]), src, BINARIES, e);
    StagedQuietly(Walk(d0, [d0]), src, BINARIES, e);
    if s.ok {
      KeptQuietly(s.walk, BINARIES, {}, e);
      KeptHad(s.walk, BINARIES, {}, e);
      var k := Kept(s.walk, BINARIES, {}, e);
      QuietlyThen(Walk(d0, [d0]), s.walk, k.walk);
      forall n | n in BINARIES && k.ok ensures NewIs(k.walk.disk, src, n) {
        assert SameAt(s.walk.disk, k.walk.disk, New(n));
      }
      assert forall n :: Stats(s.walk.disk, n, e) <==> Stats(d0, n, e);
    }
  }

  /** On success all names hold the new files. On failure a name that existed holds its old
      file, unless it was swapped without having been kept, or its rename back failed: then it
      keeps the new one. And no disk on the way held, at such a name, anything but a whole old or
      a whole new file. */
  ghost predicate EndsSoundly(r: Ran, d0: Disk, src: map<string, Content>, e: Env) {
    && (!r.failed ==> forall n :: n in BINARIES ==>
      n in src && Bin(n) in r.walk.disk.files && r.walk.disk.files[Bin(n)] == src[n])
    && (r.failed ==> EndsAs(r.walk.disk, d0, src, Returning(r.had, e), r.swapped))
    && (forall d :: d in r.walk.seen ==> Whole(d, d0, src))
  }

  /** A swap that never touched a name ends, swept, as it began. */
  lemma QuietEnd(d0: Disk, src: map<string, Content>, w: Walk, e: Env, had: set<string>)
    requires Quietly(Walk(d0, [d0]), w)
    ensures EndsSoundly(Ran(Cleaned(w, BINARIES, e), had, {}, true), d0, src, e)
  {
    CleanedQuietly(w, BINARIES, e);
    QuietlyThen(Walk(d0, [d0]), w, Cleaned(w, BINARIES, e));
  }

  lemma ReplacedSoundly(d0: Disk, src: map<string, Content>, w: Walk, e: Env, had: set<string>)
    requires Fair(e) && Quietly(Walk(d0, [d0]), w) && Ready(w, d0, src, had)
    ensures EndsSoundly(Replaced(Marked(w, e), had, e), d0, src, e)
  {
    var m := Marked(w, e);
    assert Ready(m, d0, src, had);
    ReplacedEnds(m, had, e, d0, src);
  }

  /** Success and failure, at every name and after every file operation. */
  lemma SwapEnds(d0: Disk, src: map<string, Content>, e: Env)
    requires Fair(e)
    ensures EndsSoundly(Run(d0, src, e), d0, src, e)
  {
    UpToMark(d0, src, e);
    var s := Staged(Walk(d0, [d0]), src, BINARIES, e);
    if !s.ok {
      QuietEnd(d0, src, s.walk, e, {});
    } else {
      var k := Kept(s.walk, BINARIES, {}, e);
      if !k.ok {
        QuietEnd(d0, src, k.walk, e, k.had);
      } else {
        ReplacedSoundly(d0, src, k.walk, e, k.had);
      }
    }
  }

  /** A name swapped without having been kept is one whose stat failed. */
  lemma UnkeptHadBadStat(d0: Disk, src: map<string, Content>, e: Env, n: string)
    requires Fair(e) && n in BINARIES && Bin(n) in d0.files && n in Run(d0, src, e).swapped && n !in Run(d0, src, e).had
    ensures Stat(n) in e.broken
  {
    UpToMark(d0, src, e);
  }
}
