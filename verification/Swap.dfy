/** Replacing a worker's binaries: stage, keep the old, swap, wait for a commit, or roll back.
    Any file operation may fail. */
module Swap {
  import opened Outcomes

  type Content = seq<nat>

  datatype Path = Bin(n: string) | New(n: string) | Prev(n: string)

  datatype Marker = Absent | Torn | Pending(deadline: int) | Committed

  datatype Disk = Disk(files: map<Path, Content>, marker: Marker)

  const BINARIES: seq<string> := ["stackrd", "stackr-install"]
  const SLACK: int := 30

  datatype Op =
    | Open(dst: Path) | Remove(p: Path) | Create(dst: Path) | Write(dst: Path) | Sync(dst: Path)
    | Stat(n: string) | Link(n: string) | Mark | Rename(n: string) | Undo(n: string) | Restart | Look | Clean(n: string) | Clear

  /** What goes wrong and what the rest of the world does: a failed write leaves `torn` bytes, a
      failed mark leaves `left`, the controller commits or not, and a rollback walks `order`. */
  datatype Env = Env(broken: set<Op>, torn: nat, left: Marker, deadline: int, commits: bool, order: seq<string>)

  ghost predicate Fair(e: Env) {
    e.left != Committed && (forall n :: n in BINARIES <==> n in e.order)
  }

  /** A disk, and every disk there was on the way to it: where a crash could have struck. */
  datatype Walk = Walk(disk: Disk, seen: seq<Disk>)

  function To(w: Walk, d: Disk): Walk { Walk(d, w.seen + [d]) }

  function Put(w: Walk, p: Path, c: Content): Walk { To(w, w.disk.(files := w.disk.files[p := c])) }

  function Unlink(w: Walk, p: Path): Walk { To(w, w.disk.(files := w.disk.files - {p})) }

  function Prefix(c: Content, k: nat): Content { if k < |c| then c[..k] else c }

  datatype Stepped = Stepped(walk: Walk, ok: bool)

  function CopyTo(w: Walk, from: Option<Content>, dst: Path, e: Env): Stepped {
    if Open(dst) in e.broken || from == None then Stepped(w, false)
    else
      var bare := if Remove(dst) in e.broken || dst !in w.disk.files then w else Unlink(w, dst);
      if Create(dst) in e.broken || dst in bare.disk.files then Stepped(bare, false)
      else
        var part := Put(Put(bare, dst, []), dst, Prefix(from.value, e.torn));
        if Write(dst) in e.broken then Stepped(part, false) else Stepped(Put(part, dst, from.value), Sync(dst) !in e.broken)
  }

  function At(files: map<Path, Content>, p: Path): Option<Content> { if p in files then Some(files[p]) else None }

  function From(src: map<string, Content>, n: string): Option<Content> { if n in src then Some(src[n]) else None }

  function Staged(w: Walk, src: map<string, Content>, names: seq<string>, e: Env): Stepped
    decreases |names|
  {
    if names == [] then Stepped(w, true)
    else
      var r := CopyTo(w, From(src, names[0]), New(names[0]), e);
      if r.ok then Staged(r.walk, src, names[1..], e) else r
  }

  function Cleaned(w: Walk, names: seq<string>, e: Env): Walk
    decreases |names|
  {
    if names == [] then w
    else
      var n := names[0];
      Cleaned(if Clean(n) in e.broken || New(n) !in w.disk.files then w else Unlink(w, New(n)), names[1..], e)
  }

  /** The old file gets a second name, or failing that a copy. */
  function KeptOne(w: Walk, n: string, e: Env): Stepped
    requires Bin(n) in w.disk.files
  {
    var bare := if Remove(Prev(n)) in e.broken || Prev(n) !in w.disk.files then w else Unlink(w, Prev(n));
    if Link(n) !in e.broken && Prev(n) !in bare.disk.files then Stepped(Put(bare, Prev(n), w.disk.files[Bin(n)]), true)
    else CopyTo(bare, Some(w.disk.files[Bin(n)]), Prev(n), e)
  }

  predicate Stats(d: Disk, n: string, e: Env) { Bin(n) in d.files && Stat(n) !in e.broken }

  datatype Keeping = Keeping(walk: Walk, had: set<string>, ok: bool)

  function Kept(w: Walk, names: seq<string>, had: set<string>, e: Env): Keeping
    decreases |names|
  {
    if names == [] then Keeping(w, had, true)
    else if !Stats(w.disk, names[0], e) then Kept(w, names[1..], had, e)
    else
      var r := KeptOne(w, names[0], e);
      if r.ok then Kept(r.walk, names[1..], had + {names[0]}, e) else Keeping(r.walk, had, false)
  }

  function Renamed(w: Walk, from: Path, to: Path): Walk
    requires from in w.disk.files
  {
    To(w, w.disk.(files := (w.disk.files - {from})[to := w.disk.files[from]]))
  }

  datatype Swapping = Swapping(walk: Walk, swapped: set<string>, ok: bool)

  function Swapped(w: Walk, names: seq<string>, done: set<string>, e: Env): Swapping
    decreases |names|
  {
    if names == [] then Swapping(w, done, true)
    else if Rename(names[0]) in e.broken || New(names[0]) !in w.disk.files then Swapping(w, done, false)
    else Swapped(Renamed(w, New(names[0]), Bin(names[0])), names[1..], done + {names[0]}, e)
  }

  /** Renames back, wherever there is a file to rename. */
  function PutBack(w: Walk, names: seq<string>, had: set<string>): Walk
    decreases |names|
  {
    if names == [] then w
    else
      var n := names[0];
      PutBack(if n in had && Prev(n) in w.disk.files then Renamed(w, Prev(n), Bin(n)) else w, names[1..], had)
  }

  /** The kept names whose rename back works. */
  function Returning(had: set<string>, e: Env): set<string> { set n | n in had && Undo(n) !in e.broken }

  /** A rollback goes on past a rename that fails. */
  function Restored(w: Walk, had: set<string>, e: Env): Walk {
    var c := Cleaned(PutBack(w, e.order, Returning(had, e)), BINARIES, e);
    if Clear in e.broken then c else To(c, c.disk.(marker := Absent))
  }

  function Marked(w: Walk, e: Env): Walk {
    To(w, w.disk.(marker := if Mark in e.broken then e.left else Pending(e.deadline)))
  }

  datatype Ran = Ran(walk: Walk, had: set<string>, swapped: set<string>, failed: bool)

  function Run(d: Disk, src: map<string, Content>, e: Env): Ran {
    var s := Staged(Walk(d, [d]), src, BINARIES, e);
    if !s.ok then Ran(Cleaned(s.walk, BINARIES, e), {}, {}, true)
    else
      var k := Kept(s.walk, BINARIES, {}, e);
      if !k.ok then Ran(Cleaned(k.walk, BINARIES, e), k.had, {}, true)
      else Replaced(Marked(k.walk, e), k.had, e)
  }

  /** From the mark on. */
  function Replaced(w: Walk, had: set<string>, e: Env): Ran {
    if Mark in e.broken then Ran(Restored(w, had, e), had, {}, true)
    else
      var r := Swapped(w, BINARIES, {}, e);
      if !r.ok || Restart in e.broken then Ran(Restored(r.walk, had, e), had, r.swapped, true)
      else
        var waited := if e.commits then To(r.walk, r.walk.disk.(marker := Committed)) else r.walk;
        if e.commits && Look !in e.broken then Ran(waited, had, r.swapped, false)
        else Ran(Restored(waited, had, e), had, r.swapped, true)
  }

  predicate Stale(d: Disk, now: int) { d.marker.Pending? && now >= d.marker.deadline + SLACK }

  /** The names whose rename fails though there is a file to rename. */
  function Stuck(d: Disk, broken: set<Op>): set<string> {
    set n | n in BINARIES && Rename(n) in broken && Prev(n) in d.files
  }

  /** The names whose rename would work. */
  function Movable(broken: set<Op>): set<string> { set n | n in BINARIES && Rename(n) !in broken }

  /** What a worker does at its start, or later, with a swap nobody committed. A rename that
      fails keeps the marker, so the worker tries again. */
  function RecoveredBut(d: Disk, now: int, broken: set<Op>): Disk {
    if !Stale(d, now) then d
    else
      var back := PutBack(Walk(d, []), BINARIES, Movable(broken)).disk;
      if Stuck(d, broken) != {} || Clear in broken then back else back.(marker := Absent)
  }

  /** That with nothing failing. */
  function Recovered(d: Disk, now: int): Disk { RecoveredBut(d, now, {}) }

  // ---- as it runs ----

  class HostSwap {
    const src: map<string, Content>
    const env: Env
    var disk: Disk
    ghost var seen: seq<Disk>

    constructor (d: Disk, s: map<string, Content>, e: Env)
      ensures disk == d && seen == [d] && src == s && env == e
    {
      disk, seen, src, env := d, [d], s, e;
    }

    ghost function View(): Walk
      reads this
    {
      Walk(disk, seen)
    }

    method Become(d: Disk)
      modifies this
      ensures View() == To(old(View()), d)
    {
      disk := d;
      seen := seen + [d];
    }

    /** Failures of a remove are ignored. */
    method Delete(p: Path, op: Op)
      modifies this
      ensures View() == if op in env.broken || p !in old(disk).files then old(View()) else Unlink(old(View()), p)
    {
      if op !in env.broken && p in disk.files {
        Become(disk.(files := disk.files - {p}));
      }
    }

    method Fill(p: Path, c: Content)
      modifies this
      ensures View() == Put(old(View()), p, c)
    {
      Become(disk.(files := disk.files[p := c]));
    }

    method Move(from: Path, to: Path)
      requires from in disk.files
      modifies this
      ensures View() == Renamed(old(View()), from, to)
    {
      Become(disk.(files := (disk.files - {from})[to := disk.files[from]]));
    }

    method CopyExec(from: Option<Content>, dst: Path) returns (ok: bool)
      modifies this
      ensures Stepped(View(), ok) == CopyTo(old(View()), from, dst, env)
    {
      if Open(dst) in env.broken || from == None {
        return false;
      }
      Delete(dst, Remove(dst));
      if Create(dst) in env.broken || dst in disk.files {
        return false;
      }
      Fill(dst, []);
      Fill(dst, Prefix(from.value, env.torn));
      if Write(dst) in env.broken {
        return false;
      }
      Fill(dst, from.value);
      return Sync(dst) !in env.broken;
    }

    method Cleanup()
      modifies this
      ensures View() == Cleaned(old(View()), BINARIES, env)
    {
      var i := 0;
      while i < |BINARIES|
        invariant 0 <= i <= |BINARIES|
        invariant Cleaned(View(), BINARIES[i..], env) == Cleaned(old(View()), BINARIES, env)
      {
        assert BINARIES[i..][0] == BINARIES[i] && BINARIES[i..][1..] == BINARIES[i + 1..];
        Delete(New(BINARIES[i]), Clean(BINARIES[i]));
        i := i + 1;
      }
    }

    method Stage() returns (ok: bool)
      modifies this
      ensures Stepped(View(), ok) == Staged(old(View()), src, BINARIES, env)
    {
      var i := 0;
      while i < |BINARIES|
        invariant 0 <= i <= |BINARIES|
        invariant Staged(View(), src, BINARIES[i..], env) == Staged(old(View()), src, BINARIES, env)
      {
        assert BINARIES[i..][0] == BINARIES[i] && BINARIES[i..][1..] == BINARIES[i + 1..];
        ok := CopyExec(From(src, BINARIES[i]), New(BINARIES[i]));
        if !ok {
          return false;
        }
        i := i + 1;
      }
      return true;
    }

    method KeepOne(n: string) returns (ok: bool)
      requires Bin(n) in disk.files
      modifies this
      ensures Stepped(View(), ok) == KeptOne(old(View()), n, env)
    {
      var cur := disk.files[Bin(n)];
      Delete(Prev(n), Remove(Prev(n)));
      if Link(n) !in env.broken && Prev(n) !in disk.files {
        Fill(Prev(n), cur);
        return true;
      }
      ok := CopyExec(Some(cur), Prev(n));
    }

    method KeepOld() returns (had: set<string>, ok: bool)
      modifies this
      ensures Keeping(View(), had, ok) == Kept(old(View()), BINARIES, {}, env)
    {
      had := {};
      var i := 0;
      while i < |BINARIES|
        invariant 0 <= i <= |BINARIES|
        invariant Kept(View(), BINARIES[i..], had, env) == Kept(old(View()), BINARIES, {}, env)
      {
        var n := BINARIES[i];
        assert BINARIES[i..][0] == n && BINARIES[i..][1..] == BINARIES[i + 1..];
        if Stats(disk, n, env) {
          ok := KeepOne(n);
          if !ok {
            return had, false;
          }
          had := had + {n};
        }
        i := i + 1;
      }
      return had, true;
    }

    method SwapIn() returns (swapped: set<string>, ok: bool)
      modifies this
      ensures Swapping(View(), swapped, ok) == Swapped(old(View()), BINARIES, {}, env)
    {
      swapped := {};
      var i := 0;
      while i < |BINARIES|
        invariant 0 <= i <= |BINARIES|
        invariant Swapped(View(), BINARIES[i..], swapped, env) == Swapped(old(View()), BINARIES, {}, env)
      {
        var n := BINARIES[i];
        assert BINARIES[i..][0] == n && BINARIES[i..][1..] == BINARIES[i + 1..];
        if Rename(n) in env.broken || New(n) !in disk.files {
          return swapped, false;
        }
        Move(New(n), Bin(n));
        swapped := swapped + {n};
        i := i + 1;
      }
      return swapped, true;
    }

    method Back(order: seq<string>, had: set<string>)
      modifies this
      ensures View() == PutBack(old(View()), order, Returning(had, env))
    {
      var i := 0;
      while i < |order|
        invariant 0 <= i <= |order|
        invariant PutBack(View(), order[i..], Returning(had, env)) == PutBack(old(View()), order, Returning(had, env))
      {
        var n := order[i];
        assert order[i..][0] == n && order[i..][1..] == order[i + 1..];
        if n in had && Undo(n) !in env.broken && Prev(n) in disk.files {
          Move(Prev(n), Bin(n));
        }
        i := i + 1;
      }
    }

    method PutOldBack(had: set<string>)
      modifies this
      ensures View() == Restored(old(View()), had, env)
    {
      Back(env.order, had);
      Cleanup();
      if Clear !in env.broken {
        Become(disk.(marker := Absent));
      }
    }

    method RunSwap() returns (had: set<string>, swapped: set<string>, failed: bool)
      requires seen == [disk]
      modifies this
      ensures Ran(View(), had, swapped, failed) == Run(old(disk), src, env)
    {
      swapped := {};
      var ok := Stage();
      if !ok {
        Cleanup();
        return {}, {}, true;
      }
      had, ok := KeepOld();
      if !ok {
        Cleanup();
        return had, {}, true;
      }
      Become(disk.(marker := if Mark in env.broken then env.left else Pending(env.deadline)));
      if Mark in env.broken {
        PutOldBack(had);
        return had, {}, true;
      }
      swapped, ok := SwapIn();
      if !ok || Restart in env.broken {
        PutOldBack(had);
        return had, swapped, true;
      }
      if env.commits {
        Become(disk.(marker := Committed));
        if Look !in env.broken {
          return had, swapped, false;
        }
      }
      PutOldBack(had);
      return had, swapped, true;
    }

    /** A swap that is not pending, or whose deadline is not thirty seconds past, is left alone.
        Otherwise every old file that can be renamed is put back, and with all of them back the
        marker goes. */
    method RestoreStaleSwap(now: int, broken: set<Op>) returns (done: bool)
      modifies this
      ensures disk == RecoveredBut(old(disk), now, broken)
      ensures !old(disk).marker.Pending? || now < old(disk).marker.deadline + 30 ==> !done && disk == old(disk)
      ensures old(disk).marker.Pending? && now >= old(disk).marker.deadline + 30 ==>
        && (forall n :: n in BINARIES && Prev(n) in old(disk).files && Rename(n) !in broken ==>
              Bin(n) in disk.files && disk.files[Bin(n)] == old(disk).files[Prev(n)] && Prev(n) !in disk.files)
        && (done <==> forall n :: n in BINARIES && Prev(n) in old(disk).files ==> Rename(n) !in broken)
        && (disk.marker == Absent <==> done && Clear !in broken)
    {
      if !disk.marker.Pending? || now < disk.marker.deadline + SLACK {
        return false;
      }
      ghost var start := View();
      ghost var had := Movable(broken);
      var stuck, i := Stuck(disk, broken), 0;
      while i < |BINARIES|
        invariant 0 <= i <= |BINARIES|
        invariant PutBack(View(), BINARIES[i..], had) == PutBack(start, BINARIES, had)
      {
        var n := BINARIES[i];
        assert BINARIES[i..][0] == n && BINARIES[i..][1..] == BINARIES[i + 1..];
        if Rename(n) !in broken && Prev(n) in disk.files {
          Move(Prev(n), Bin(n));
        }
        i := i + 1;
      }
      WalkApart(start, Walk(start.disk, []), BINARIES, had);
      forall n | n in BINARIES && Prev(n) in start.disk.files && Rename(n) !in broken
        ensures Bin(n) in disk.files && disk.files[Bin(n)] == start.disk.files[Prev(n)] && Prev(n) !in disk.files
      {
        PutBackAt(start, BINARIES, had, Bin(n));
        PutBackAt(start, BINARIES, had, Prev(n));
      }
      PutBackAt(start, BINARIES, had, New(""));
      assert forall n :: n in stuck <==> n in BINARIES && Rename(n) in broken && Prev(n) in start.disk.files;
      if stuck != {} {
        return false;
      }
      if Clear !in broken {
        Become(disk.(marker := Absent));
      }
      return true;
    }
  }

  lemma {:induction false} PutBackAt(w: Walk, names: seq<string>, had: set<string>, p: Path)
    ensures At(PutBack(w, names, had).disk.files, p) ==
      if p.Bin? && p.n in names && p.n in had && Prev(p.n) in w.disk.files then Some(w.disk.files[Prev(p.n)])
      else if p.Prev? && p.n in names && p.n in had then None
      else At(w.disk.files, p)
    ensures PutBack(w, names, had).disk.marker == w.disk.marker
    decreases |names|
  {
    if names != [] {
      var x := names[0];
      assert names == [x] + names[1..];
      PutBackAt(if x in had && Prev(x) in w.disk.files then Renamed(w, Prev(x), Bin(x)) else w, names[1..], had, p);
    }
  }

  /** Where a walk goes does not depend on where it has been. */
  lemma {:induction false} WalkApart(a: Walk, b: Walk, names: seq<string>, had: set<string>)
    requires a.disk == b.disk
    ensures PutBack(a, names, had).disk == PutBack(b, names, had).disk
    decreases |names|
  {
    if names != [] {
      var n := names[0];
      if n in had && Prev(n) in a.disk.files {
        WalkApart(Renamed(a, Prev(n), Bin(n)), Renamed(b, Prev(n), Bin(n)), names[1..], had);
      } else {
        WalkApart(a, b, names[1..], had);
      }
    }
  }
}
