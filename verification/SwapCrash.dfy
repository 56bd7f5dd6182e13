/** What a crash in the middle of a swap leaves for the worker to recover. */
module SwapCrash {
  import opened Outcomes
  import opened Swap
  import opened SwapProofs
  import opened SwapInputs

  function Back(d: Disk, broken: set<Op>): Disk { PutBack(Walk(d, []), BINARIES, Movable(broken)).disk }

  lemma BackInTwo(d: Disk, broken: set<Op>, p: Path)
    ensures At(Back(Back(d, broken), {}).files, p) == At(Back(d, {}).files, p)
  {
    PutBackAt(Walk(d, []), BINARIES, Movable(broken), p);
    PutBackAt(Walk(d, []), BINARIES, Movable(broken), Prev(p.n));
    PutBackAt(Walk(d, []), BINARIES, Movable({}), p);
    PutBackAt(Walk(Back(d, broken), []), BINARIES, Movable({}), p);
    assert p.n in BINARIES ==> p.n in Movable({});
  }

  lemma BackUnstuck(d: Disk, broken: set<Op>, p: Path)
    requires Stuck(d, broken) == {}
    ensures At(Back(d, broken).files, p) == At(Back(d, {}).files, p)
  {
    PutBackAt(Walk(d, []), BINARIES, Movable(broken), p);
    PutBackAt(Walk(d, []), BINARIES, Movable({}), p);
    assert p.n !in Stuck(d, broken);
    assert p.n in BINARIES ==> p.n in Movable({});
  }

  /** What a recovery does, by marker and deadline: nothing at all, or every old file it can
      rename is back. */
  lemma RecoversByDeadline(d: Disk, now: int, broken: set<Op>)
    ensures !d.marker.Pending? || now < d.marker.deadline + 30 ==> RecoveredBut(d, now, broken) == d
    ensures d.marker.Pending? && now >= d.marker.deadline + 30 ==>
      var r := RecoveredBut(d, now, broken);
      && (forall n :: n in BINARIES && Prev(n) in d.files && Rename(n) !in broken ==>
            Bin(n) in r.files && r.files[Bin(n)] == d.files[Prev(n)] && Prev(n) !in r.files)
      && (forall n :: n !in BINARIES || Prev(n) !in d.files || Rename(n) in broken ==> At(r.files, Bin(n)) == At(d.files, Bin(n)))
      && (r.marker == Absent <==>
            Clear !in broken && forall n :: n in BINARIES && Prev(n) in d.files ==> Rename(n) !in broken)
  {
    forall n
      ensures At(Back(d, broken).files, Bin(n)) ==
        if n in BINARIES && Prev(n) in d.files && Rename(n) !in broken then Some(d.files[Prev(n)]) else At(d.files, Bin(n))
      ensures n in BINARIES && Prev(n) in d.files && Rename(n) !in broken ==> Prev(n) !in Back(d, broken).files
    {
      PutBackAt(Walk(d, []), BINARIES, Movable(broken), Bin(n));
      PutBackAt(Walk(d, []), BINARIES, Movable(broken), Prev(n));
    }
    PutBackAt(Walk(d, []), BINARIES, Movable(broken), New(""));
    if n :| n in BINARIES && Prev(n) in d.files && Rename(n) in broken {
      assert n in Stuck(d, broken);
    }
  }

  /** A recovery that failed at any of its renames, or at its end, and is tried again ends as
      one that nothing disturbs. */
  lemma RetryRecovers(d: Disk, now: int, broken: set<Op>, later: int)
    requires Stale(d, now) && now <= later
    ensures Recovered(RecoveredBut(d, now, broken), later) == Recovered(d, now)
  {
    forall p ensures At(Back(Back(d, broken), {}).files, p) == At(Back(d, {}).files, p) {
      BackInTwo(d, broken, p);
    }
    SameFiles(Back(Back(d, broken), {}).files, Back(d, {}).files);
    PutBackAt(Walk(d, []), BINARIES, Movable(broken), New(""));
    if Stuck(d, broken) == {} {
      forall p ensures At(Back(d, broken).files, p) == At(Back(d, {}).files, p) {
        BackUnstuck(d, broken, p);
      }
      SameFiles(Back(d, broken).files, Back(d, {}).files);
    }
  }

  lemma SameFiles(f: map<Path, Content>, g: map<Path, Content>)
    requires forall p :: At(f, p) == At(g, p)
    ensures f == g
  {
    forall p ensures p in f <==> p in g {
      assert At(f, p) == At(g, p);
    }
    forall p | p in f ensures f[p] == g[p] {
      assert At(f, p) == At(g, p);
    }
  }

  /** A worker that finds this disk, once any pending swap is stale, ends with old files only
      or with new files only. */
  ghost predicate Recovers(d: Disk, d0: Disk, src: map<string, Content>) {
    forall now :: Late(d, now) ==> AllOld(Recovered(d, now), d0) || AllNew(Recovered(d, now), d0, src)
  }

  predicate Late(d: Disk, now: int) { d.marker.Pending? ==> now >= d.marker.deadline + SLACK }

  function Existing(d0: Disk): set<string> { set n | n in BINARIES && Bin(n) in d0.files }

  lemma MidRecovers(d: Disk, d0: Disk, src: map<string, Content>)
    requires Mid(d, d0, src, Existing(d0)) && (d.marker.Pending? || AllOld(d, d0))
    ensures Recovers(d, d0, src)
  {
    forall now | Late(d, now) ensures AllOld(Recovered(d, now), d0) {
      forall n | n in BINARIES && Bin(n) in d0.files
        ensures d.marker.Pending? ==> Bin(n) in Recovered(d, now).files && Recovered(d, now).files[Bin(n)] == d0.files[Bin(n)]
      {
        assert n in Existing(d0);
        PutBackAt(Walk(d, []), BINARIES, Movable({}), Bin(n));
      }
    }
  }

  ghost predicate AllRecover(w: Walk, d0: Disk, src: map<string, Content>) {
    forall d :: d in w.seen ==> Recovers(d, d0, src)
  }

  lemma QuietRecovers(d0: Disk, src: map<string, Content>, w: Walk)
    requires !d0.marker.Pending? && Quietly(Walk(d0, [d0]), w)
    ensures AllRecover(w, d0, src)
  {
    forall d | d in w.seen ensures Recovers(d, d0, src) {
      assert SameBins(d, d0);
      forall now | Late(d, now) ensures AllOld(Recovered(d, now), d0) {
      }
    }
  }

  lemma AllReturn(d0: Disk, e: Env)
    requires Restorable(d0, e)
    ensures Returning(Existing(d0), e) == Existing(d0)
  {
  }

  lemma SweptRecovers(d0: Disk, src: map<string, Content>, w: Walk, e: Env)
    requires !d0.marker.Pending? && Quietly(Walk(d0, [d0]), w)
    ensures AllRecover(Cleaned(w, BINARIES, e), d0, src)
  {
    CleanedQuietly(w, BINARIES, e);
    QuietlyThen(Walk(d0, [d0]), w, Cleaned(w, BINARIES, e));
    QuietRecovers(d0, src, Cleaned(w, BINARIES, e));
  }

  /** A rollback from a pending swap, or from one whose names never changed. */
  lemma RollbackRecovers(w: Walk, e: Env, d0: Disk, src: map<string, Content>)
    requires Fair(e) && AllRecover(w, d0, src) && Mid(w.disk, d0, src, Existing(d0))
    requires Restorable(d0, e) && (w.disk.marker.Pending? || AllOld(w.disk, d0))
    ensures AllRecover(Restored(w, Existing(d0), e), d0, src)
  {
    var had, b := Existing(d0), Restored(w, Existing(d0), e);
    AllReturn(d0, e);
    RestoredEnds(w, had, e, d0, src);
    if AllOld(w.disk, d0) {
      RestoredEnds(w, had, e, d0, map[]);
    }
    assert AllOld(b.disk, d0) by { assert forall n :: n in BINARIES && Bin(n) in d0.files ==> n in had; }
    forall d | d in b.seen ensures Recovers(d, d0, src) {
      if d !in w.seen {
        MidRecovers(d, d0, src);
      }
    }
  }

  /** The file of an existing name changes with the swap. */
  predicate Differs(d0: Disk, src: map<string, Content>, n: string) {
    n in BINARIES && Bin(n) in d0.files && n in src && src[n] != d0.files[Bin(n)]
  }

  /** A rollback over a commit nobody saw, of a swap that changes one name at most. */
  lemma LateRollbackRecovers(w: Walk, e: Env, d0: Disk, src: map<string, Content>)
    requires Fair(e) && AllRecover(w, d0, src) && Mid(w.disk, d0, src, Existing(d0)) && w.disk.marker == Committed
    requires Restorable(d0, e) && (forall n :: n in BINARIES ==> n in src)
    requires forall m, n :: Differs(d0, src, m) && Differs(d0, src, n) ==> m == n
    ensures AllRecover(Restored(w, Existing(d0), e), d0, src)
  {
    var had, b := Existing(d0), Restored(w, Existing(d0), e);
    AllReturn(d0, e);
    RestoredEnds(w, had, e, d0, src);
    assert AllOld(b.disk, d0) by { assert forall n :: n in BINARIES && Bin(n) in d0.files ==> n in had; }
    forall d | d in b.seen ensures Recovers(d, d0, src) {
      if d !in w.seen {
        if AllOld(d, d0) {
          MidRecovers(d, d0, src);
        } else {
          OneDiffers(d, d0, src);
        }
      }
    }
  }

  /** With one name to tell apart a whole disk is all old or all new. */
  lemma OneDiffers(d: Disk, d0: Disk, src: map<string, Content>)
    requires Whole(d, d0, src) && !d.marker.Pending? && forall n :: n in BINARIES ==> n in src
    requires forall m, n :: Differs(d0, src, m) && Differs(d0, src, n) ==> m == n
    ensures Recovers(d, d0, src)
  {
    if !AllOld(d, d0) {
      var m :| m in BINARIES && Bin(m) in d0.files && d.files[Bin(m)] != d0.files[Bin(m)];
      assert Differs(d0, src, m);
      forall n | n in BINARIES && Bin(n) in d0.files ensures Bin(n) in d.files && d.files[Bin(n)] == src[n] {
        assert n != m ==> !Differs(d0, src, n);
      }
    }
  }

  /** From the mark on everything works up to the wait. */
  predicate Waits(w: Walk, e: Env) {
    Mark !in e.broken && Swapped(w, BINARIES, {}, e).ok && Restart !in e.broken
  }

  lemma ReplacedRecovers(w: Walk, e: Env, d0: Disk, src: map<string, Content>)
    requires Fair(e) && Restorable(d0, e) && Ready(w, d0, src, Existing(d0)) && AllRecover(w, d0, src)
    requires w.disk.marker == if Mark in e.broken then e.left else Pending(e.deadline)
    requires e.commits && Look in e.broken && Waits(w, e) ==>
      forall m, n :: Differs(d0, src, m) && Differs(d0, src, n) ==> m == n
    ensures AllRecover(Replaced(w, Existing(d0), e).walk, d0, src)
  {
    var had := Existing(d0);
    ReadyIsMid(w, d0, src, had);
    if Mark in e.broken {
      RollbackRecovers(w, e, d0, src);
    } else {
      SwappedMidway(w, BINARIES, {}, e, d0, src, had);
      var s := Swapped(w, BINARIES, {}, e);
      forall d | d in s.walk.seen ensures Recovers(d, d0, src) {
        if d !in w.seen {
          MidRecovers(d, d0, src);
        }
      }
      if !s.ok || Restart in e.broken || !e.commits {
        RollbackRecovers(s.walk, e, d0, src);
      } else {
        var waited := To(s.walk, s.walk.disk.(marker := Committed));
        assert AllNew(waited.disk, d0, src);
        assert Recovers(waited.disk, d0, src);
        if Look in e.broken {
          LateRollbackRecovers(waited, e, d0, src);
        }
      }
    }
  }

  lemma MarkedRecovers(d0: Disk, src: map<string, Content>, w: Walk, e: Env)
    requires !d0.marker.Pending? && Quietly(Walk(d0, [d0]), w) && Ready(w, d0, src, Existing(d0))
    ensures Ready(Marked(w, e), d0, src, Existing(d0)) && AllRecover(Marked(w, e), d0, src)
  {
    var m := Marked(w, e);
    QuietRecovers(d0, src, w);
    assert Ready(m, d0, src, Existing(d0));
    ReadyIsMid(m, d0, src, Existing(d0));
    MidRecovers(m.disk, d0, src);
  }

  lemma ArrivesExactly(d0: Disk, src: map<string, Content>, e: Env)
    requires Prepares(d0, src, e)
    ensures
      var k := Kept(Staged(Walk(d0, [d0]), src, BINARIES, e).walk, BINARIES, {}, e);
      Arrives(d0, src, e) <==> Waits(Marked(k.walk, e), e)
  {
    PreparesExactly(d0, src, e);
    UpToMark(d0, src, e);
    var k := Kept(Staged(Walk(d0, [d0]), src, BINARIES, e).walk, BINARIES, {}, e);
    SwappedOkExactly(Marked(k.walk, e), src, BINARIES, {}, e);
  }

  /** A crash after any file operation of a swap, and then the worker's own recovery once the
      swap is stale, never leaves old and new mixed: for every swap that starts with none
      pending and can put back what exists, unless a commit came that the helper never saw and two
      names change. */
  lemma CrashSafe(d0: Disk, src: map<string, Content>, e: Env)
    requires Fair(e) && !d0.marker.Pending?
    requires Restorable(d0, e)
    requires e.commits && Look in e.broken && Arrives(d0, src, e) ==>
      forall m, n :: Differs(d0, src, m) && Differs(d0, src, n) ==> m == n
    ensures AllRecover(Run(d0, src, e).walk, d0, src)
  {
    UpToMark(d0, src, e);
    var s := Staged(Walk(d0, [d0]), src, BINARIES, e);
    if !s.ok {
      SweptRecovers(d0, src, s.walk, e);
    } else {
      var k := Kept(s.walk, BINARIES, {}, e);
      if !k.ok {
        SweptRecovers(d0, src, k.walk, e);
      } else {
        assert k.had == Existing(d0);
        MarkedRecovers(d0, src, k.walk, e);
        PreparesExactly(d0, src, e);
        ArrivesExactly(d0, src, e);
        ReplacedRecovers(Marked(k.walk, e), e, d0, src);
      }
    }
  }

  // ---- the commit nobody saw ----

  /** m is back to its old file and n still holds the new one, with the marker a commit left. */
  ghost predicate Mixed(d: Disk, d0: Disk, src: map<string, Content>, m: string, n: string)
    requires Differs(d0, src, m) && Differs(d0, src, n)
  {
    && d.marker == Committed
    && Bin(m) in d.files && d.files[Bin(m)] == d0.files[Bin(m)]
    && Bin(n) in d.files && d.files[Bin(n)] == src[n]
  }

  lemma MixedStays(d: Disk, d0: Disk, src: map<string, Content>, m: string, n: string)
    requires Differs(d0, src, m) && Differs(d0, src, n) && Mixed(d, d0, src, m, n)
    ensures !Recovers(d, d0, src)
  {
    assert Late(d, 0) && Recovered(d, 0) == d;
  }

  /** Both names new under a commit, both old files kept: the first rename back mixes them. */
  ghost predicate BothNew(w: Walk, d0: Disk, src: map<string, Content>, had: set<string>, m: string, n: string)
    requires Differs(d0, src, m) && Differs(d0, src, n)
  {
    && m != n && m in had && n in had && w.disk.marker == Committed
    && Bin(m) in w.disk.files && w.disk.files[Bin(m)] == src[m] && Prev(m) in w.disk.files &&
      w.disk.files[Prev(m)] == d0.files[Bin(m)]
    && Bin(n) in w.disk.files && w.disk.files[Bin(n)] == src[n] && Prev(n) in w.disk.files &&
      w.disk.files[Prev(n)] == d0.files[Bin(n)]
  }

  lemma {:induction false} RollbackMixes(
      w: Walk, names: seq<string>, had: set<string>, d0: Disk, src: map<string, Content>, m: string, n: string, e: Env)
    returns (d: Disk)
    requires Differs(d0, src, m) && Differs(d0, src, n) && BothNew(w, d0, src, had, m, n) && m in names
    ensures d in PutBack(w, names, had).seen && (Mixed(d, d0, src, m, n) || Mixed(d, d0, src, n, m))
    decreases |names|
  {
    var x := names[0];
    assert names == [x] + names[1..];
    var v := if x in had && Prev(x) in w.disk.files then Renamed(w, Prev(x), Bin(x)) else w;
    if x == m || x == n {
      d := v.disk;
      assert d in v.seen;
      SeenLasts(v, names[1..], had, e);
    } else {
      d := RollbackMixes(v, names[1..], had, d0, src, m, n, e);
    }
  }

  /** The wait, with both names new. */
  lemma WaitIsBothNew(w: Walk, e: Env, d0: Disk, src: map<string, Content>, m: string, n: string)
    requires Fair(e) && Ready(w, d0, src, Existing(d0)) && Waits(w, e)
    requires Differs(d0, src, m) && Differs(d0, src, n) && m != n
    ensures var s := Swapped(w, BINARIES, {}, e).walk; BothNew(To(s, s.disk.(marker := Committed)), d0, src, Existing(d0), m, n)
  {
    ReadyIsMid(w, d0, src, Existing(d0));
    SwappedMidway(w, BINARIES, {}, e, d0, src, Existing(d0));
  }

  lemma LateCommitMixes(w: Walk, e: Env, d0: Disk, src: map<string, Content>, m: string, n: string) returns (d: Disk)
    requires Fair(e) && Restorable(d0, e) && Ready(w, d0, src, Existing(d0)) && Waits(w, e) && e.commits && Look in e.broken
    requires Differs(d0, src, m) && Differs(d0, src, n) && m != n
    ensures d in Replaced(w, Existing(d0), e).walk.seen && !Recovers(d, d0, src)
  {
    var s, had := Swapped(w, BINARIES, {}, e).walk, Existing(d0);
    var waited := To(s, s.disk.(marker := Committed));
    AllReturn(d0, e);
    WaitIsBothNew(w, e, d0, src, m, n);
    d := RollbackMixes(waited, e.order, had, d0, src, m, n, e);
    SeenLasts(PutBack(waited, e.order, had), BINARIES, had, e);
    if Mixed(d, d0, src, m, n) {
      MixedStays(d, d0, src, m, n);
    } else {
      MixedStays(d, d0, src, n, m);
    }
  }

  /** A commit that came, that the helper never saw, on a swap of two changed names. */
  predicate UnseenCommit(d0: Disk, src: map<string, Content>, e: Env) {
    && e.commits && Look in e.broken && Arrives(d0, src, e)
    && Differs(d0, src, BINARIES[0]) && Differs(d0, src, BINARIES[1])
  }

  /** For every swap that starts with none pending and can put back what exists: no crash leaves old
      and new mixed for good exactly when no commit is missed. */
  lemma CrashNeverMixes(d0: Disk, src: map<string, Content>, e: Env)
    requires Fair(e) && !d0.marker.Pending?
    requires Restorable(d0, e)
    ensures AllRecover(Run(d0, src, e).walk, d0, src) <==> !UnseenCommit(d0, src, e)
  {
    if UnseenCommit(d0, src, e) {
      PreparesExactly(d0, src, e);
      ArrivesExactly(d0, src, e);
      UpToMark(d0, src, e);
      var k := Kept(Staged(Walk(d0, [d0]), src, BINARIES, e).walk, BINARIES, {}, e);
      assert k.had == Existing(d0);
      var m := Marked(k.walk, e);
      assert Ready(m, d0, src, k.had);
      var d := LateCommitMixes(m, e, d0, src, BINARIES[0], BINARIES[1]);
    } else {
      assert forall n :: n in BINARIES ==> n == BINARIES[0] || n == BINARIES[1];
      CrashSafe(d0, src, e);
    }
  }

  const MISSED := Env({Look}, 0, Absent, 100, true, BINARIES)

  lemma MissedIsUnseen()
    ensures UnseenCommit(OLD_DISK, NEW_FILES, MISSED)
  {
    assert BINARIES[0] == "stackrd" && BINARIES[1] == "stackr-install";
    GetsFar(MISSED);
  }

  /** A commit comes and the helper cannot read it: a crash between the renames of its rollback
      leaves old and new mixed under a marker no worker repairs. */
  lemma MissedCommitMixes()
    ensures Fair(MISSED) && !AllRecover(Run(OLD_DISK, NEW_FILES, MISSED).walk, OLD_DISK, NEW_FILES)
  {
    MissedIsUnseen();
    CrashNeverMixes(OLD_DISK, NEW_FILES, MISSED);
  }

  // ---- a swap begun over a pending one ----

  /** Keeping n fails while its copy is being written: a torn .prev under the old marker. */
  ghost predicate TornPrev(d: Disk, d0: Disk, n: string) {
    d.marker == d0.marker && Prev(n) in d.files && d.files[Prev(n)] == []
  }

  function Tearing(n: string): Env { Env({Link(n), Write(Prev(n))}, 0, Absent, 0, false, BINARIES) }

  lemma {:induction false} KeptTears(w: Walk, names: seq<string>, had: set<string>, n: string) returns (d: Disk)
    requires n in names && Bin(n) in w.disk.files
    ensures var k := Kept(w, names, had, Tearing(n)); !k.ok && d in k.walk.seen && TornPrev(d, w.disk, n)
    decreases |names|
  {
    var m, e := names[0], Tearing(n);
    assert names == [m] + names[1..];
    if m == n {
      var bare := if Prev(n) !in w.disk.files then w else Unlink(w, Prev(n));
      d := Put(bare, Prev(n), []).disk;
    } else if Stats(w.disk, m, e) {
      KeptOneQuietly(w, m, e);
      d := KeptTears(KeptOne(w, m, e).walk, names[1..], had + {m}, n);
    } else {
      d := KeptTears(w, names[1..], had, n);
    }
  }

  /** Two new files that are none of the old ones. */
  function Longer(d0: Disk, n: string): map<string, Content>
    requires Bin(n) in d0.files
  {
    map x | x in BINARIES :: d0.files[Bin(n)] + [0]
  }

  lemma PendingStartTears(d0: Disk, n: string)
    requires d0.marker.Pending? && n in BINARIES && Bin(n) in d0.files && d0.files[Bin(n)] != []
    ensures !AllRecover(Run(d0, Longer(d0, n), Tearing(n)).walk, d0, Longer(d0, n))
  {
    var src, e := Longer(d0, n), Tearing(n);
    var s := Staged(Walk(d0, [d0]), src, BINARIES, e);
    assert forall m :: m in BINARIES ==> StageWorks(d0, src, e, m);
    StagedOkExactly(Walk(d0, [d0]), d0, src, BINARIES, e);
    StagedQuietly(Walk(d0, [d0]), src, BINARIES, e);
    var d := KeptTears(s.walk, BINARIES, {}, n);
    SeenLasts(Kept(s.walk, BINARIES, {}, e).walk, BINARIES, {}, e);
    TornIsPutBack(d, d0, src, n);
  }

  lemma TornIsPutBack(d: Disk, d0: Disk, src: map<string, Content>, n: string)
    requires d0.marker.Pending? && n in BINARIES && Bin(n) in d0.files && d0.files[Bin(n)] != []
    requires TornPrev(d, d0, n) && n in src && src[n] != []
    ensures !Recovers(d, d0, src)
  {
    var now := d0.marker.deadline + SLACK;
    PutBackAt(Walk(d, []), BINARIES, Movable({}), Bin(n));
    assert Late(d, now) && At(Recovered(d, now).files, Bin(n)) == Some([]);
  }

  ghost predicate Orderly(d0: Disk, src: map<string, Content>, e: Env) {
    Fair(e) && Restorable(d0, e) && !UnseenCommit(d0, src, e)
  }

  /** All swaps from a disk survive all crashes. */
  ghost predicate SafeStart(d0: Disk) {
    forall src, e ::
      Orderly(d0, src, e) ==> AllRecover(Run(d0, src, e).walk, d0, src)
  }

  lemma PendingIsUnsafe(d0: Disk, n: string)
    requires d0.marker.Pending? && n in BINARIES && Bin(n) in d0.files && d0.files[Bin(n)] != []
    ensures !SafeStart(d0)
  {
    PendingStartTears(d0, n);
    assert Orderly(d0, Longer(d0, n), Tearing(n));
  }

  lemma NotPendingIsSafe(d0: Disk)
    requires !d0.marker.Pending?
    ensures SafeStart(d0)
  {
    forall src, e | Orderly(d0, src, e) ensures AllRecover(Run(d0, src, e).walk, d0, src) {
      CrashNeverMixes(d0, src, e);
    }
  }

  /** Why no swap may be pending: from a disk with some binary on it, every swap survives every
      crash exactly when none is. */
  lemma SafeStartExactly(d0: Disk)
    requires exists n :: n in BINARIES && Bin(n) in d0.files && d0.files[Bin(n)] != []
    ensures SafeStart(d0) <==> !d0.marker.Pending?
  {
    if d0.marker.Pending? {
      var n :| n in BINARIES && Bin(n) in d0.files && d0.files[Bin(n)] != [];
      PendingIsUnsafe(d0, n);
    } else {
      NotPendingIsSafe(d0);
    }
  }
}
