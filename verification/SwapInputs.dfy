/** A swap's outcome read off its inputs: which operations have to work for how far it gets. */
module SwapInputs {
  import opened Outcomes
  import opened Swap
  import opened SwapProofs

  /** A copy to a path that holds a file already, or not. */
  predicate CopyWorks(e: Env, there: bool, dst: Path) {
    && Open(dst) !in e.broken && Create(dst) !in e.broken && Write(dst) !in e.broken && Sync(dst) !in e.broken
    && !(there && Remove(dst) in e.broken)
  }

  predicate StageWorks(d0: Disk, src: map<string, Content>, e: Env, n: string) {
    n in src && CopyWorks(e, New(n) in d0.files, New(n))
  }

  /** The old file gets its second name by a link or a copy, once a leftover is out of the way. */
  predicate KeepWorks(d0: Disk, e: Env, n: string) {
    && !(Prev(n) in d0.files && Remove(Prev(n)) in e.broken)
    && (Link(n) !in e.broken || CopyWorks(e, false, Prev(n)))
  }

  /** Everything before the mark works. */
  predicate Prepares(d0: Disk, src: map<string, Content>, e: Env) {
    && (forall n :: n in BINARIES ==> StageWorks(d0, src, e, n))
    && (forall n :: n in BINARIES && Stats(d0, n, e) ==> KeepWorks(d0, e, n))
  }

  /** The renames get as far as the k-th binary. */
  predicate Reaches(d0: Disk, src: map<string, Content>, e: Env, k: nat)
    requires k < |BINARIES|
  {
    Prepares(d0, src, e) && Mark !in e.broken && RenamesTo(BINARIES, e, k)
  }

  /** The swap gets as far as the wait. */
  predicate Arrives(d0: Disk, src: map<string, Content>, e: Env) {
    && Prepares(d0, src, e) && Mark !in e.broken && Restart !in e.broken
    && forall n :: n in BINARIES ==> Rename(n) !in e.broken
  }

  predicate Unrepeated(names: seq<string>) { forall i, j :: 0 <= i < j < |names| ==> names[i] != names[j] }

  lemma CopyOkExactly(w: Walk, from: Option<Content>, dst: Path, e: Env)
    ensures CopyTo(w, from, dst, e).ok <==> from.Some? && CopyWorks(e, dst in w.disk.files, dst)
  {
  }

  lemma {:induction false} StagedOkExactly(w: Walk, d0: Disk, src: map<string, Content>, names: seq<string>, e: Env)
    requires Unrepeated(names) && forall n :: n in names ==> SameAt(d0, w.disk, New(n))
    ensures Staged(w, src, names, e).ok <==> forall n :: n in names ==> StageWorks(d0, src, e, n)
    decreases |names|
  {
    if names != [] {
      var n, rest := names[0], names[1..];
      assert names == [n] + rest && n !in rest;
      assert SameAt(d0, w.disk, New(n));
      CopyOkExactly(w, From(src, n), New(n), e);
      CopyQuietly(w, From(src, n), New(n), e);
      var r := CopyTo(w, From(src, n), New(n), e);
      forall m | m in rest ensures SameAt(d0, r.walk.disk, New(m)) {
        assert New(m) != New(n) && SameAt(d0, w.disk, New(m));
      }
      if r.ok {
        StagedOkExactly(r.walk, d0, src, rest, e);
      } else {
        assert n in names && !StageWorks(d0, src, e, n);
      }
    }
  }

  lemma KeptOneOkExactly(w: Walk, d0: Disk, n: string, e: Env)
    requires Bin(n) in w.disk.files && SameAt(d0, w.disk, Prev(n))
    ensures KeptOne(w, n, e).ok <==> KeepWorks(d0, e, n)
  {
    var bare := if Remove(Prev(n)) in e.broken || Prev(n) !in w.disk.files then w else Unlink(w, Prev(n));
    CopyOkExactly(bare, Some(w.disk.files[Bin(n)]), Prev(n), e);
  }

  lemma {:induction false} KeptOkExactly(w: Walk, d0: Disk, names: seq<string>, had: set<string>, e: Env)
    requires Unrepeated(names) && forall n :: n in names ==> SameAt(d0, w.disk, Prev(n))
    requires forall n :: SameAt(d0, w.disk, Bin(n))
    ensures Kept(w, names, had, e).ok <==> forall n :: n in names && Stats(d0, n, e) ==> KeepWorks(d0, e, n)
    decreases |names|
  {
    if names != [] {
      var n, rest := names[0], names[1..];
      assert names == [n] + rest && n !in rest;
      assert SameAt(d0, w.disk, Bin(n)) && SameAt(d0, w.disk, Prev(n));
      if Stats(w.disk, n, e) {
        KeptOneOkExactly(w, d0, n, e);
        KeptOneQuietly(w, n, e);
        var one := KeptOne(w, n, e);
        StillSame(d0, w, one.walk, n, rest);
        if one.ok {
          KeptOkExactly(one.walk, d0, rest, had + {n}, e);
        }
      } else {
        KeptOkExactly(w, d0, rest, had, e);
      }
    }
  }

  lemma StillSame(d0: Disk, w: Walk, m: Walk, n: string, rest: seq<string>)
    requires Quietly(w, m) && Elsewhere(w.disk, m.disk, Prev(n)) && n !in rest
    requires (forall x :: SameAt(d0, w.disk, Bin(x))) && forall x :: x in rest ==> SameAt(d0, w.disk, Prev(x))
    ensures (forall x :: SameAt(d0, m.disk, Bin(x))) && forall x :: x in rest ==> SameAt(d0, m.disk, Prev(x))
  {
    forall x ensures SameAt(d0, m.disk, Bin(x)) {
      assert SameAt(d0, w.disk, Bin(x)) && Bin(x) != Prev(n);
    }
    forall x | x in rest ensures SameAt(d0, m.disk, Prev(x)) {
      assert SameAt(d0, w.disk, Prev(x)) && Prev(x) != Prev(n);
    }
  }

  predicate RenamesTo(names: seq<string>, e: Env, k: nat) {
    forall i :: 0 <= i <= k && i < |names| ==> Rename(names[i]) !in e.broken
  }

  lemma RestReady(w: Walk, src: map<string, Content>, names: seq<string>, done: set<string>)
    requires names != [] && Unrepeated(names) && forall n :: n in names ==> NewIs(w.disk, src, n) && n !in done
    ensures New(names[0]) in w.disk.files
    ensures
      var n, rest := names[0], names[1..];
      && Unrepeated(rest)
      && forall x :: x in rest ==> NewIs(Renamed(w, New(n), Bin(n)).disk, src, x) && x !in done + {n}
  {
    var n, rest := names[0], names[1..];
    assert names == [n] + rest && n !in rest && NewIs(w.disk, src, n);
    var m := Renamed(w, New(n), Bin(n));
    forall x | x in rest ensures NewIs(m.disk, src, x) && x !in done + {n} {
      assert NewIs(w.disk, src, x);
    }
  }

  lemma {:induction false} SwappedOkExactly(w: Walk, src: map<string, Content>, names: seq<string>, done: set<string>, e: Env)
    requires Unrepeated(names) && forall n :: n in names ==> NewIs(w.disk, src, n) && n !in done
    ensures Swapped(w, names, done, e).ok <==> forall n :: n in names ==> Rename(n) !in e.broken
    decreases |names|
  {
    if names != [] {
      var n := names[0];
      RestReady(w, src, names, done);
      assert names == [n] + names[1..];
      if Rename(n) !in e.broken {
        SwappedOkExactly(Renamed(w, New(n), Bin(n)), src, names[1..], done + {n}, e);
      }
    }
  }

  lemma {:induction false} SwappedOthers(w: Walk, names: seq<string>, done: set<string>, e: Env, x: string)
    requires x !in names
    ensures x in Swapped(w, names, done, e).swapped <==> x in done
    decreases |names|
  {
    if names != [] && Rename(names[0]) !in e.broken && New(names[0]) in w.disk.files {
      SwappedOthers(Renamed(w, New(names[0]), Bin(names[0])), names[1..], done + {names[0]}, e, x);
    }
  }

  /** The renames swap just the names before the first one that fails. */
  lemma {:induction false} SwappedExactly(w: Walk, src: map<string, Content>, names: seq<string>, done: set<string>,
      e: Env, k: nat)
    requires Unrepeated(names) && k < |names| && forall n :: n in names ==> NewIs(w.disk, src, n) && n !in done
    ensures names[k] in Swapped(w, names, done, e).swapped <==> RenamesTo(names, e, k)
    decreases |names|
  {
    var n, rest := names[0], names[1..];
    RestReady(w, src, names, done);
    assert names[k] in names;
    if Rename(n) !in e.broken {
      var m := Renamed(w, New(n), Bin(n));
      if k == 0 {
        assert n !in rest;
        SwappedOthers(m, rest, done + {n}, e, n);
      } else {
        SwappedExactly(m, src, rest, done + {n}, e, k - 1);
        TailReaches(names, e, k);
      }
    }
  }

  lemma TailReaches(names: seq<string>, e: Env, k: nat)
    requires 0 < k < |names| && Rename(names[0]) !in e.broken
    ensures RenamesTo(names, e, k) <==> RenamesTo(names[1..], e, k - 1)
  {
    if RenamesTo(names[1..], e, k - 1) {
      forall i | 0 <= i <= k ensures Rename(names[i]) !in e.broken {
        assert i > 0 ==> names[i] == names[1..][i - 1];
      }
    }
  }

  /** How far a swap gets. */
  lemma PreparesExactly(d0: Disk, src: map<string, Content>, e: Env)
    ensures
      var s := Staged(Walk(d0, [d0]), src, BINARIES, e);
      Prepares(d0, src, e) <==> s.ok && Kept(s.walk, BINARIES, {}, e).ok
  {
    var w := Walk(d0, [d0]);
    var s := Staged(w, src, BINARIES, e);
    StagedOkExactly(w, d0, src, BINARIES, e);
    StagedQuietly(w, src, BINARIES, e);
    StagedLeavesOthers(w, src, BINARIES, e);
    forall n ensures SameAt(d0, s.walk.disk, Bin(n)) {
    }
    KeptOkExactly(s.walk, d0, BINARIES, {}, e);
  }

  lemma {:induction false} StagedLeavesOthers(w: Walk, src: map<string, Content>, names: seq<string>, e: Env)
    ensures forall n :: SameAt(w.disk, Staged(w, src, names, e).walk.disk, Prev(n))
    decreases |names|
  {
    if names != [] {
      var n := names[0];
      CopyQuietly(w, From(src, n), New(n), e);
      var r := CopyTo(w, From(src, n), New(n), e);
      if r.ok {
        StagedLeavesOthers(r.walk, src, names[1..], e);
      }
    }
  }

  lemma ReachesExactly(d0: Disk, src: map<string, Content>, e: Env, k: nat)
    requires k < |BINARIES|
    ensures BINARIES[k] in Run(d0, src, e).swapped <==> Reaches(d0, src, e, k)
  {
    PreparesExactly(d0, src, e);
    UpToMark(d0, src, e);
    if Prepares(d0, src, e) && Mark !in e.broken {
      var kept := Kept(Staged(Walk(d0, [d0]), src, BINARIES, e).walk, BINARIES, {}, e);
      SwappedExactly(Marked(kept.walk, e), src, BINARIES, {}, e, k);
    }
  }

  /** A swap succeeds exactly when everything up to the wait works and a commit comes and is
      seen. */
  lemma SucceedsExactly(d0: Disk, src: map<string, Content>, e: Env)
    ensures !Run(d0, src, e).failed <==> Arrives(d0, src, e) && e.commits && Look !in e.broken
  {
    PreparesExactly(d0, src, e);
    UpToMark(d0, src, e);
    if Prepares(d0, src, e) && Mark !in e.broken {
      var kept := Kept(Staged(Walk(d0, [d0]), src, BINARIES, e).walk, BINARIES, {}, e);
      SwappedOkExactly(Marked(kept.walk, e), src, BINARIES, {}, e);
    }
  }

  predicate Returns(e: Env, n: string) { Stat(n) !in e.broken && Undo(n) !in e.broken }

  /** Any one of these going wrong fails the swap. */
  lemma AnyOfTheseFails(d0: Disk, src: map<string, Content>, e: Env, n: string)
    requires n in BINARIES
    requires
      || n !in src || !e.commits
      || Open(New(n)) in e.broken || Create(New(n)) in e.broken || Write(New(n)) in e.broken || Sync(New(n)) in e.broken
      || Mark in e.broken || Rename(n) in e.broken || Restart in e.broken || Look in e.broken
    ensures Run(d0, src, e).failed
  {
    SucceedsExactly(d0, src, e);
    if Prepares(d0, src, e) {
      assert StageWorks(d0, src, e, n);
    }
  }

  /** A failed swap leaves every old file in place exactly when each existing name whose stat or
      rename back fails, and that the renames get to, has the same content in the new file. */
  lemma FailureKeepsOld(d0: Disk, src: map<string, Content>, e: Env)
    requires Fair(e) && Run(d0, src, e).failed
    ensures AllOld(Run(d0, src, e).walk.disk, d0) <==>
      forall k :: 0 <= k < |BINARIES| && Bin(BINARIES[k]) in d0.files && !Returns(e, BINARIES[k]) && Reaches(d0, src, e, k)
        ==> BINARIES[k] in src && src[BINARIES[k]] == d0.files[Bin(BINARIES[k])]
  {
    var r := Run(d0, src, e);
    SwapEnds(d0, src, e);
    UpToMark(d0, src, e);
    PreparesExactly(d0, src, e);
    forall k | 0 <= k < |BINARIES| && Bin(BINARIES[k]) in d0.files
      ensures BINARIES[k] in r.swapped && BINARIES[k] !in Returning(r.had, e) <==>
        !Returns(e, BINARIES[k]) && Reaches(d0, src, e, k)
    {
      ReachesExactly(d0, src, e, k);
      if BINARIES[k] in r.swapped {
        UnkeptExactly(d0, src, e, BINARIES[k]);
      }
    }
    NamedEnds(r, d0, src, e);
  }

  /** Among the names swapped the unkept ones are those whose stat fails. */
  lemma UnkeptExactly(d0: Disk, src: map<string, Content>, e: Env, n: string)
    requires n in BINARIES && Bin(n) in d0.files && n in Run(d0, src, e).swapped
    ensures n !in Run(d0, src, e).had <==> Stat(n) in e.broken
  {
    UpToMark(d0, src, e);
  }

  lemma NamedEnds(r: Ran, d0: Disk, src: map<string, Content>, e: Env)
    requires EndsAs(r.walk.disk, d0, src, Returning(r.had, e), r.swapped)
    ensures AllOld(r.walk.disk, d0) <==>
      forall k :: 0 <= k < |BINARIES| && Bin(BINARIES[k]) in d0.files && BINARIES[k] in r.swapped &&
        BINARIES[k] !in Returning(r.had, e)
        ==> BINARIES[k] in src && src[BINARIES[k]] == d0.files[Bin(BINARIES[k])]
  {
    forall n | n in BINARIES ensures exists k :: 0 <= k < |BINARIES| && BINARIES[k] == n {
    }
  }

  /** What exists can be statted, and put back. */
  predicate Restorable(d0: Disk, e: Env) {
    forall n :: n in BINARIES && Bin(n) in d0.files ==> Returns(e, n)
  }

  /** So there every failed swap ends all old. */
  lemma RestorableKeepsOld(d0: Disk, src: map<string, Content>, e: Env)
    requires Fair(e) && Run(d0, src, e).failed
    requires Restorable(d0, e)
    ensures AllOld(Run(d0, src, e).walk.disk, d0)
  {
    FailureKeepsOld(d0, src, e);
  }

  // ---- what is swept up ----

  lemma {:induction false} CleanedSweeps(w: Walk, names: seq<string>, e: Env)
    ensures Cleaned(w, names, e).disk.marker == w.disk.marker
    ensures forall n :: n in names && Clean(n) !in e.broken ==> New(n) !in Cleaned(w, names, e).disk.files
    ensures forall n :: New(n) !in w.disk.files ==> New(n) !in Cleaned(w, names, e).disk.files
    decreases |names|
  {
    if names != [] {
      var n := names[0];
      assert names == [n] + names[1..];
      CleanedSweeps(if Clean(n) in e.broken || New(n) !in w.disk.files then w else Unlink(w, New(n)), names[1..], e);
    }
  }

  lemma RestoredSweeps(w: Walk, had: set<string>, e: Env)
    requires Clear !in e.broken && forall n :: n in BINARIES ==> Clean(n) !in e.broken
    ensures var d := Restored(w, had, e).disk; d.marker == Absent && forall n :: n in BINARIES ==> New(n) !in d.files
  {
    CleanedSweeps(PutBack(w, e.order, Returning(had, e)), BINARIES, e);
  }

  /** A swap that succeeds leaves its commit. One that fails, and can remove files, leaves no
      staged file, and no marker but the one it found before it set its own. */
  lemma SweepsUp(d0: Disk, src: map<string, Content>, e: Env)
    requires Clear !in e.broken && forall n :: n in BINARIES ==> Clean(n) !in e.broken
    ensures
      var r := Run(d0, src, e);
      if !r.failed then r.walk.disk.marker == Committed
      else
        && r.walk.disk.marker == (if Prepares(d0, src, e) then Absent else d0.marker)
        && forall n :: n in BINARIES ==> New(n) !in r.walk.disk.files
  {
    var s := Staged(Walk(d0, [d0]), src, BINARIES, e);
    PreparesExactly(d0, src, e);
    UpToMark(d0, src, e);
    if !s.ok {
      CleanedSweeps(s.walk, BINARIES, e);
    } else {
      var k := Kept(s.walk, BINARIES, {}, e);
      if k.ok {
        ReplacedSweeps(Marked(k.walk, e), k.had, e);
      } else {
        CleanedSweeps(k.walk, BINARIES, e);
      }
    }
  }

  lemma ReplacedSweeps(w: Walk, had: set<string>, e: Env)
    requires Clear !in e.broken && forall n :: n in BINARIES ==> Clean(n) !in e.broken
    ensures
      var r := Replaced(w, had, e);
      if !r.failed then r.walk.disk.marker == Committed
      else r.walk.disk.marker == Absent && forall n :: n in BINARIES ==> New(n) !in r.walk.disk.files
  {
    var r := Swapped(w, BINARIES, {}, e);
    RestoredSweeps(w, had, e);
    RestoredSweeps(r.walk, had, e);
    RestoredSweeps(To(r.walk, r.walk.disk.(marker := Committed)), had, e);
  }

  // ---- the marker on the way ----

  /** The markers a swap can show: the one found, its own with its own deadline, a commit's, or
      none. */
  predicate MarkerOk(d0: Disk, e: Env, d: Disk) {
    || d.marker == d0.marker || d.marker == Committed || d.marker == Absent
    || d.marker == if Mark in e.broken then e.left else Pending(e.deadline)
  }

  ghost predicate MarkersOk(d0: Disk, e: Env, w: Walk) {
    MarkerOk(d0, e, w.disk) && forall d :: d in w.seen ==> MarkerOk(d0, e, d)
  }

  lemma QuietMarkers(d0: Disk, e: Env, w: Walk)
    requires Quietly(Walk(d0, [d0]), w)
    ensures MarkersOk(d0, e, w)
  {
  }

  lemma RestoredMarkers(d0: Disk, src: map<string, Content>, e: Env, w: Walk, had: set<string>)
    requires Fair(e) && Mid(w.disk, d0, src, had) && (forall n :: n in had ==> n in BINARIES) && MarkersOk(d0, e, w)
    ensures MarkersOk(d0, e, Restored(w, had, e))
  {
    var b := Restored(w, had, e);
    RestoredEnds(w, had, e, d0, src);
    PutBackMidway(w, e.order, Returning(had, e), had, d0, src);
    CleanedMidway(PutBack(w, e.order, Returning(had, e)), had, e, d0, src);
    assert b.disk.marker == Absent || b.disk.marker == w.disk.marker;
  }

  lemma ReplacedMarkers(d0: Disk, src: map<string, Content>, e: Env, w: Walk, had: set<string>)
    requires Fair(e) && Ready(w, d0, src, had) && MarkersOk(d0, e, w)
    ensures MarkersOk(d0, e, Replaced(w, had, e).walk)
  {
    ReadyIsMid(w, d0, src, had);
    if Mark in e.broken {
      RestoredMarkers(d0, src, e, w, had);
    } else {
      SwappedMidway(w, BINARIES, {}, e, d0, src, had);
      var r := Swapped(w, BINARIES, {}, e).walk;
      RestoredMarkers(d0, src, e, r, had);
      RestoredMarkers(d0, src, e, To(r, r.disk.(marker := Committed)), had);
    }
  }

  /** Every pending marker a swap sets, wherever a crash strikes, has the swap's own deadline; and
      while it waits for its commit the new files are in place under that marker. */
  lemma WaitsWithItsDeadline(d0: Disk, src: map<string, Content>, e: Env)
    requires Fair(e)
    ensures forall d :: d in Run(d0, src, e).walk.seen ==> MarkerOk(d0, e, d)
    ensures Arrives(d0, src, e) ==>
      exists d :: d in Run(d0, src, e).walk.seen && d.marker == Pending(e.deadline)
        && forall n :: n in BINARIES ==> n in src && Bin(n) in d.files && d.files[Bin(n)] == src[n]
  {
    UpToMark(d0, src, e);
    PreparesExactly(d0, src, e);
    var s := Staged(Walk(d0, [d0]), src, BINARIES, e);
    if !s.ok {
      SweptMarkers(d0, e, s.walk);
    } else {
      var k := Kept(s.walk, BINARIES, {}, e);
      if !k.ok {
        SweptMarkers(d0, e, k.walk);
      } else {
        var m := Marked(k.walk, e);
        QuietMarkers(d0, e, k.walk);
        assert Ready(m, d0, src, k.had);
        ReplacedMarkers(d0, src, e, m, k.had);
        if Arrives(d0, src, e) {
          WaitIsSeen(m, d0, src, e, k.had);
        }
      }
    }
  }

  lemma SweptMarkers(d0: Disk, e: Env, w: Walk)
    requires Quietly(Walk(d0, [d0]), w)
    ensures MarkersOk(d0, e, Cleaned(w, BINARIES, e))
  {
    CleanedQuietly(w, BINARIES, e);
    QuietlyThen(Walk(d0, [d0]), w, Cleaned(w, BINARIES, e));
  }

  lemma WaitIsSeen(w: Walk, d0: Disk, src: map<string, Content>, e: Env, had: set<string>)
    requires Fair(e) && Ready(w, d0, src, had) && w.disk.marker == Pending(e.deadline) && w.disk in w.seen
    requires Mark !in e.broken && Restart !in e.broken && forall n :: n in BINARIES ==> Rename(n) !in e.broken
    ensures
      exists d :: d in Replaced(w, had, e).walk.seen && d.marker == Pending(e.deadline)
        && forall n :: n in BINARIES ==> n in src && Bin(n) in d.files && d.files[Bin(n)] == src[n]
  {
    ReadyIsMid(w, d0, src, had);
    SwappedMidway(w, BINARIES, {}, e, d0, src, had);
    SwappedOkExactly(w, src, BINARIES, {}, e);
    var r := Swapped(w, BINARIES, {}, e).walk;
    SwappedSeen(w, BINARIES, {}, e);
    var waited := if e.commits then To(r, r.disk.(marker := Committed)) else r;
    AllSeen(waited, had, e);
  }

  lemma {:induction false} SwappedSeen(w: Walk, names: seq<string>, done: set<string>, e: Env)
    requires w.disk in w.seen
    ensures Swapped(w, names, done, e).walk.disk in Swapped(w, names, done, e).walk.seen
    decreases |names|
  {
    if names != [] && Rename(names[0]) !in e.broken && New(names[0]) in w.disk.files {
      SwappedSeen(Renamed(w, New(names[0]), Bin(names[0])), names[1..], done + {names[0]}, e);
    }
  }

  lemma {:induction false} SeenLasts(w: Walk, names: seq<string>, had: set<string>, e: Env)
    ensures forall d :: d in w.seen ==> d in PutBack(w, names, had).seen
    ensures forall d :: d in w.seen ==> d in Cleaned(w, names, e).seen
    decreases |names|
  {
    if names != [] {
      var n := names[0];
      SeenLasts(if n in had && Prev(n) in w.disk.files then Renamed(w, Prev(n), Bin(n)) else w, names[1..], had, e);
      SeenLasts(if Clean(n) in e.broken || New(n) !in w.disk.files then w else Unlink(w, New(n)), names[1..], had, e);
    }
  }

  lemma AllSeen(w: Walk, had: set<string>, e: Env)
    ensures forall d :: d in w.seen ==> d in Restored(w, had, e).seen
  {
    SeenLasts(w, e.order, Returning(had, e), e);
    SeenLasts(PutBack(w, e.order, Returning(had, e)), BINARIES, had, e);
  }

  // ---- a stat that fails, or a rename back ----

  const OLD_DISK := Disk(map[Bin("stackrd") := [1], Bin("stackr-install") := [2]], Absent)
  const NEW_FILES: map<string, Content> := map["stackrd" := [3], "stackr-install" := [4]]
  const BAD_STAT := Env({Stat("stackrd"), Restart}, 0, Absent, 100, false, BINARIES)

  const BAD_UNDO := Env({Undo("stackrd"), Restart}, 0, Absent, 100, false, BINARIES)

  /** None of these operations is needed before the wait. */
  lemma GetsFar(e: Env)
    requires forall op :: op in e.broken ==> op.Stat? || op.Undo? || op.Restart? || op.Look?
    ensures Prepares(OLD_DISK, NEW_FILES, e) && Mark !in e.broken
    ensures forall n :: Rename(n) !in e.broken
  {
    forall n | n in BINARIES ensures StageWorks(OLD_DISK, NEW_FILES, e, n) {
      assert n == "stackrd" || n == "stackr-install";
    }
  }

  lemma GoesWrong(e: Env)
    requires e == BAD_STAT || e == BAD_UNDO
    ensures Run(OLD_DISK, NEW_FILES, e).failed
  {
    SucceedsExactly(OLD_DISK, NEW_FILES, e);
  }

  /** The restart fails, so the swap rolls back and reports failure; yet the binary whose stat
      failed, or whose rename back fails, keeps the new file. */
  lemma BadStatLosesOld(e: Env)
    requires e == BAD_STAT || e == BAD_UNDO
    ensures var r := Run(OLD_DISK, NEW_FILES, e);
      r.failed && Bin("stackrd") in r.walk.disk.files && r.walk.disk.files[Bin("stackrd")] == [3]
  {
    assert BINARIES[0] == "stackrd";
    GetsFar(e);
    assert Fair(e);
    GoesWrong(e);
    ReachesExactly(OLD_DISK, NEW_FILES, e, 0);
    UnkeptExactly(OLD_DISK, NEW_FILES, e, "stackrd");
    SwapEnds(OLD_DISK, NEW_FILES, e);
  }
}
