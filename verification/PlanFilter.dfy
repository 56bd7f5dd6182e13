/** A job's log without its "plan: " lines, however it is cut into writes. */
module PlanFilter {
  const PLAN: string := "plan: "

  // ---- what is meant: the log line by line ----

  /** Where the first newline stands, |s| if there is none. */
  function NewlineAt(s: string): (i: nat)
    ensures i <= |s| && '\n' !in s[..i] && (i < |s| ==> s[i] == '\n')
  {
    if s == "" || s[0] == '\n' then 0
    else
      var i := 1 + NewlineAt(s[1..]);
      assert s[..i] == [s[0]] + s[1..][..i - 1];
      i
  }

  /** The lines, each with its newline but perhaps the last. */
  function Lines(log: string): seq<string>
    decreases |log|
  {
    var i := NewlineAt(log);
    if i == |log| then (if log == "" then [] else [log]) else [log[..i + 1]] + Lines(log[i + 1..])
  }

  function Joined(lines: seq<string>): string {
    if lines == [] then "" else lines[0] + Joined(lines[1..])
  }

  function Without(lines: seq<string>): seq<string> {
    if lines == [] then [] else (if PLAN <= lines[0] then [] else [lines[0]]) + Without(lines[1..])
  }

  function Filtered(log: string): string { Joined(Without(Lines(log))) }

  lemma {:induction false} LinesAreTheLog(log: string)
    ensures Joined(Lines(log)) == log
    decreases |log|
  {
    var i := NewlineAt(log);
    if i < |log| {
      LinesAreTheLog(log[i + 1..]);
      assert Lines(log)[1..] == Lines(log[i + 1..]);
    }
  }

  lemma FirstLine(line: string, rest: string)
    requires line != "" && line[|line| - 1] == '\n' && '\n' !in line[..|line| - 1]
    ensures Lines(line + rest) == [line] + Lines(rest)
    ensures Filtered(line + rest) == (if "plan: " <= line then "" else line) + Filtered(rest)
  {
    var log, i := line + rest, NewlineAt(line + rest);
    assert log[|line| - 1] == '\n';
    assert i >= |line| - 1 by {
      assert forall j :: 0 <= j < |line| - 1 ==> log[j] == line[..|line| - 1][j];
    }
    assert i <= |line| - 1;
    assert log[..i + 1] == line && log[i + 1..] == rest;
    assert ([line] + Lines(rest))[1..] == Lines(rest);
    var kept := Without(Lines(log));
    if PLAN <= line {
      assert kept == Without(Lines(rest));
    } else {
      assert kept[0] == line && kept[1..] == Without(Lines(rest));
    }
  }

  lemma PartialLine(s: string)
    requires '\n' !in s
    ensures Filtered(s) == if PLAN <= s then "" else s
  {
    var i := NewlineAt(s);
    assert i == |s|;
    if s != "" {
      assert [s][1..] == [] && Lines(s) == [s];
      assert Without([s]) == if PLAN <= s then [] else [s];
      assert Joined([s]) == s + "" == s;
    }
  }

  /** What is out, and what the buffer will give once the rest has come. */
  function Yield(out: string, buf: string, future: string): string { out + Filtered(buf + future) }

  lemma YieldMoved(out: string, buf: string, p: string, future: string)
    ensures Yield(out, buf + p, future) == Yield(out, buf, p + future)
  {
    assert buf + p + future == buf + (p + future);
  }

  /** What is out and what the buffer will give come to the same, whatever is still to come. */
  ghost predicate SameYield(out1: string, buf1: string, out2: string, buf2: string) {
    forall future: string :: Yield(out1, buf1, future) == Yield(out2, buf2, future)
  }

  lemma YieldOn(out1: string, buf1: string, out2: string, buf2: string, p: string)
    requires SameYield(out1, buf1, out2, buf2)
    ensures SameYield(out1, buf1 + p, out2, buf2 + p)
  {
    forall future: string ensures Yield(out1, buf1 + p, future) == Yield(out2, buf2 + p, future) {
      YieldMoved(out1, buf1, p, future);
      YieldMoved(out2, buf2, p, future);
    }
  }

  lemma YieldThen(out1: string, buf1: string, out2: string, buf2: string, out3: string, buf3: string)
    requires SameYield(out1, buf1, out2, buf2) && SameYield(out2, buf2, out3, buf3)
    ensures SameYield(out1, buf1, out3, buf3)
  {
  }

  /** Taking the first whole line off the buffer, and putting it out unless it is a plan line. */
  lemma YieldLine(out: string, line: string, rest: string)
    requires line != "" && line[|line| - 1] == '\n' && '\n' !in line[..|line| - 1]
    ensures SameYield(if PLAN <= line then out else out + line, rest, out, line + rest)
  {
    forall future: string
      ensures Yield(if PLAN <= line then out else out + line, rest, future) == Yield(out, line + rest, future)
    {
      FirstLine(line, rest + future);
      assert line + rest + future == line + (rest + future);
    }
  }

  lemma YieldNow(out: string, buf: string, log: string)
    requires SameYield(out, buf, "", log)
    ensures out + Filtered(buf) == Filtered(log)
  {
    assert buf + "" == buf && log + "" == log && "" + Filtered(log) == Filtered(log);
    assert Yield(out, buf, "") == Yield("", log, "");
  }

  // ---- as it runs ----

  function Part(p: string, k: nat): string { if k < |p| then p[..k] else p }

  /** Where the lines go. It takes `room` more writes and then fails for good; the first write
      that fails may put out its first `cut` characters. */
  class Sink {
    var out: string
    var room: nat
    var cut: nat

    constructor (n: nat, c: nat)
      ensures out == "" && room == n && cut == c
    {
      out, room, cut := "", n, c;
    }

    method Take(p: string) returns (ok: bool)
      modifies this
      ensures ok <==> old(room) > 0
      ensures out == old(out) + if ok then p else Part(p, old(cut))
      ensures if ok then room == old(room) - 1 && cut == old(cut) else room == 0 && cut == 0
    {
      if room == 0 {
        out, cut := out + Part(p, cut), 0;
        return false;
      }
      out, room := out + p, room - 1;
      return true;
    }
  }

  /** Ends at a line's end. */
  predicate AtLineEnd(s: string) { s == "" || s[|s| - 1] == '\n' }

  /** Out is what was sent whole, or that and the start of a line the buffer still holds. */
  ghost predicate Started(out: string, sent: string, buf: string) {
    && sent <= out
    && (out != sent ==> NewlineAt(buf) < |buf| && !(PLAN <= buf) && out[|sent|..] <= buf[..NewlineAt(buf) + 1])
  }

  /** More behind a whole line leaves the line where it is. */
  lemma {:induction false} SameLine(buf: string, p: string)
    requires NewlineAt(buf) < |buf|
    ensures NewlineAt(buf + p) == NewlineAt(buf)
  {
    assert (buf + p)[0] == buf[0];
    if buf[0] != '\n' {
      assert (buf + p)[1..] == buf[1..] + p;
      SameLine(buf[1..], p);
    }
  }

  lemma StillStarted(out: string, sent: string, buf: string, p: string)
    requires Started(out, sent, buf)
    ensures Started(out, sent, buf + p)
  {
    if out != sent {
      var i := NewlineAt(buf);
      SameLine(buf, p);
      assert (buf + p)[..i + 1] == buf[..i + 1];
      FirstOfBuffer(buf, i);
      FirstOfBuffer(buf + p, i);
    }
  }

  class Filter {
    const w: Sink
    var buf: string
    ghost var sent: string

    constructor (s: Sink)
      requires s.out == ""
      ensures w == s && buf == "" && sent == "" && Valid()
    {
      w, buf, sent := s, "", "";
    }

    /** Only whole lines were sent, and out differs from them only once the sink has failed. */
    ghost predicate Valid()
      reads this, w
    {
      && AtLineEnd(sent) && Started(w.out, sent, buf)
      && (w.out != sent ==> w.room == 0 && w.cut == 0)
    }

    /** Nothing is lost or reordered, even when the sink fails: what was sent and what the
        buffer will give is what they were before plus the written. After a write that worked
        the buffer holds no whole line, and only whole lines are out. */
    method Write(p: string) returns (n: nat, ok: bool)
      requires Valid()
      modifies this, w
      ensures Valid() && SameYield(sent, buf, old(sent), old(buf) + p) && old(sent) <= sent
      ensures ok ==> n == |p| && '\n' !in buf && w.out == sent
      ensures !ok ==> n == 0 && w.room == 0 && w.cut == 0
      ensures w.room <= old(w.room) && w.cut <= old(w.cut)
    {
      StillStarted(w.out, sent, buf, p);
      buf := buf + p;
      while true
        invariant Valid() && SameYield(sent, buf, old(sent), old(buf) + p) && old(sent) <= sent
        invariant w.room <= old(w.room) && w.cut <= old(w.cut)
        decreases |buf|
      {
        var i := NewlineAt(buf);
        if i == |buf| {
          assert buf[..i] == buf;
          return |p|, true;
        }
        var took := PassLine(i, old(sent), old(buf) + p);
        if !took {
          return 0, false;
        }
      }
    }

    /** The buffer's first line, which ends at i. */
    method PassLine(i: nat, ghost sent0: string, ghost buf0: string) returns (took: bool)
      requires Valid() && i == NewlineAt(buf) < |buf| && SameYield(sent, buf, sent0, buf0)
      modifies this, w
      ensures Valid() && SameYield(sent, buf, sent0, buf0) && old(sent) <= sent
      ensures took ==> |buf| < |old(buf)|
      ensures !took ==> w.room == 0 && w.cut == 0
      ensures w.room <= old(w.room) && w.cut <= old(w.cut)
    {
      var line, rest := buf[..i + 1], buf[i + 1..];
      assert line[..|line| - 1] == buf[..i] && line + rest == buf;
      YieldLine(sent, line, rest);
      YieldThen(if PLAN <= line then sent else sent + line, rest, sent, buf, sent0, buf0);
      FirstOfBuffer(buf, i);
      if !(PLAN <= line) {
        took := w.Take(line);
        if !took {
          return;
        }
        sent := sent + line;
      }
      buf := rest;
      return true;
    }

    /** What is held back goes out as it is, unless it starts as a plan line. */
    method Flush() returns (ok: bool)
      modifies this, w
      ensures buf == "" && sent == old(sent)
      ensures ok <==> old(w.room) > 0 || "plan: " <= old(buf)
      ensures w.room <= old(w.room)
      ensures w.out == old(w.out) + if "plan: " <= old(buf) then "" else if ok then old(buf) else Part(old(buf), old(w.cut))
    {
      ok := true;
      if !(PLAN <= buf) {
        ok := w.Take(buf);
      }
      buf := "";
    }
  }

  /** No newline is in the mark of a plan line, so a line has it exactly when the buffer has. */
  lemma FirstOfBuffer(buf: string, i: nat)
    requires i == NewlineAt(buf) < |buf|
    ensures PLAN <= buf[..i + 1] <==> PLAN <= buf
  {
    assert forall k :: 0 <= k < |PLAN| ==> PLAN[k] != '\n';
    if PLAN <= buf {
      assert forall k :: 0 <= k < |PLAN| ==> buf[k] == PLAN[k];
    }
  }

  function Concat(chunks: seq<string>): string {
    if chunks == [] then "" else Concat(chunks[..|chunks| - 1]) + chunks[|chunks| - 1]
  }

  lemma OneMoreChunk(out: string, buf: string, out0: string, buf0: string, chunks: seq<string>, i: nat)
    requires i < |chunks| && SameYield(out0, buf0, "", Concat(chunks[..i])) && SameYield(out, buf, out0, buf0 + chunks[i])
    ensures SameYield(out, buf, "", Concat(chunks[..i + 1]))
  {
    assert chunks[..i + 1][..i] == chunks[..i];
    YieldOn(out0, buf0, "", Concat(chunks[..i]), chunks[i]);
    YieldThen(out, buf, out0, buf0 + chunks[i], "", Concat(chunks[..i + 1]));
  }

  /** What a log owes: what was sent and what the buffer will give make up the filtered log so
      far. */
  ghost predicate Owes(out: string, buf: string, chunks: seq<string>, i: nat) {
    i <= |chunks| && SameYield(out, buf, "", Concat(chunks[..i]))
  }

  /** A followed log, every chunk written whether or not one before failed, and then the flush:
      for every way of cutting it up the output is the log without its plan lines, or a front
      part of that if the sink failed. */
  method Follow(f: Filter, chunks: seq<string>) returns (ok: bool)
    requires f.Valid() && f.buf == "" && f.sent == "" && f.w.out == ""
    modifies f, f.w
    ensures f.w.out <= Filtered(Concat(chunks))
    ensures ok ==> f.w.out == Filtered(Concat(chunks))
    ensures f.w.room > 0 ==> ok
  {
    ok := true;
    var i := 0;
    assert Owes("", "", chunks, 0) by { assert chunks[..0] == []; }
    while i < |chunks|
      invariant 0 <= i <= |chunks| && f.Valid()
      invariant if ok then '\n' !in f.buf && f.w.out == f.sent else f.w.room == 0 && f.w.cut == 0
      invariant Owes(f.sent, f.buf, chunks, i)
    {
      ok := WriteChunk(f, chunks, i, ok);
      i := i + 1;
    }
    assert chunks[..i] == chunks;
    YieldNow(f.sent, f.buf, Concat(chunks));
    ghost var out, buf := f.w.out, f.buf;
    var flushed := f.Flush();
    if ok {
      PartialLine(buf);
    } else {
      FrontPart(out, f.sent, buf);
      assert Part(buf, 0) == "";
    }
    ok := ok && flushed;
  }

  /** One chunk, whose failure the caller does not look at. */
  method WriteChunk(f: Filter, chunks: seq<string>, i: nat, before: bool) returns (ok: bool)
    requires i < |chunks| && f.Valid() && Owes(f.sent, f.buf, chunks, i)
    requires before || (f.w.room == 0 && f.w.cut == 0)
    modifies f, f.w
    ensures f.Valid() && Owes(f.sent, f.buf, chunks, i + 1)
    ensures if ok then '\n' !in f.buf && f.w.out == f.sent else f.w.room == 0 && f.w.cut == 0
  {
    ghost var sent0, buf0 := f.sent, f.buf;
    var _, wrote := f.Write(chunks[i]);
    OneMoreChunk(f.sent, f.buf, sent0, buf0, chunks, i);
    return before && wrote;
  }

  /** A line the sink broke off in is one the log owes. */
  lemma FrontPart(out: string, sent: string, buf: string)
    requires Started(out, sent, buf)
    ensures out <= sent + Filtered(buf)
  {
    if out != sent {
      var i := NewlineAt(buf);
      var line, rest := buf[..i + 1], buf[i + 1..];
      assert line[..|line| - 1] == buf[..i] && line + rest == buf;
      FirstLine(line, rest);
      FirstOfBuffer(buf, i);
      assert out == sent + out[|sent|..];
    }
  }
}
