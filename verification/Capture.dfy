/** src/dbus_cmd.c: `run_capture`, a loop over the output of a child process, against every behaviour of the child.

    A schedule lists what happens between one poll and the next: what is written to the two pipes, whether their
    write ends close, how much time passes, whether the child exits, and how the poll finds the pipes. */
module Capture {
  import opened CStrings
  import opened Buffer

  // ---------- the child and its pipes ----------

  datatype Status = Exited(code: int) | Signaled(signal: int)

  /** A pipe: everything written to it so far, how much of that has been read, and whether its write end is closed. */
  datatype Pipe = Pipe(written: string, pos: nat, closed: bool)

  /** What happens to a pipe up to a poll, and in it: `size` bytes are read if the poll finds it ready. */
  datatype PipeEvent = PipeEvent(more: string, close: bool, ready: bool, size: nat)

  datatype Event = Event(out: PipeEvent, err: PipeEvent, elapsed: nat, exit: bool)

  /** The clock counts milliseconds. */
  datatype World = World(out: Pipe, err: Pipe, clock: nat, exited: bool, reaped: bool)

  predicate IsPipe(p: Pipe) {
    p.pos <= |p.written|
  }

  function Written(p: Pipe, e: PipeEvent): (q: Pipe)
    ensures IsPipe(p) ==> IsPipe(q)
  {
    if p.closed then p else Pipe(p.written + e.more, p.pos, e.close)
  }

  function Advance(w: World, e: Event): World {
    w.(out := Written(w.out, e.out), err := Written(w.err, e.err), clock := w.clock + e.elapsed,
       exited := w.exited || e.exit)
  }

  const CHUNK: nat := 512

  /** What `read` returns: a positive count, 0 at the end of the stream, -1 if there is nothing to read yet. */
  function ReadCount(p: Pipe, size: nat): (n: int)
    requires IsPipe(p)
    ensures -1 <= n <= |p.written| - p.pos && n <= CHUNK
  {
    var pending := |p.written| - p.pos;
    if pending == 0 then (if p.closed then 0 else -1)
    else if size == 0 then 1
    else if size <= pending && size <= CHUNK then size
    else if pending <= CHUNK then pending
    else CHUNK
  }

  const SIGKILL := 9

  /** The status a child leaves: its own, unless the kill came before its exit. */
  function EndStatus(own: Status, killed: bool, exited: bool): Status {
    if killed && !exited then Signaled(SIGKILL) else own
  }

  /** `status` is what the child leaves if it ends by itself. */
  class Child {
    const status: Status
    var out: Pipe
    var err: Pipe
    var clock: nat
    var exited: bool
    var reaped: bool
    var killed: bool

    ghost function View(): World
      reads this
    {
      World(out, err, clock, exited, reaped)
    }

    ghost predicate Valid()
      reads this
    {
      IsPipe(out) && IsPipe(err)
    }

    /** The new process, with nothing written yet. */
    constructor (status: Status, clock: nat)
      ensures Valid() && this.status == status && !killed
      ensures View() == World(Pipe("", 0, false), Pipe("", 0, false), clock, false, false)
    {
      this.status := status;
      this.clock := clock;
      out, err := Pipe("", 0, false), Pipe("", 0, false);
      exited, reaped, killed := false, false, false;
    }

    /** `select`: the child runs on, and time passes. */
    method Select(e: Event)
      requires Valid()
      modifies this`out, this`err, this`clock, this`exited
      ensures Valid() && View() == Advance(old(View()), e)
    {
      out := Written(out, e.out);
      err := Written(err, e.err);
      clock := clock + e.elapsed;
      exited := exited || e.exit;
    }

    method ReadOut(size: nat) returns (n: int, tmp: string)
      requires Valid()
      modifies this`out
      ensures Valid() && n == ReadCount(old(out), size)
      ensures n > 0 ==> tmp == old(out).written[old(out).pos..old(out).pos + n]
      ensures out == if n > 0 then old(out).(pos := old(out).pos + n) else old(out)
    {
      n, tmp := ReadCount(out, size), "";
      if n > 0 {
        tmp := out.written[out.pos..out.pos + n];
        out := out.(pos := out.pos + n);
      }
    }

    method ReadErr(size: nat) returns (n: int, tmp: string)
      requires Valid()
      modifies this`err
      ensures Valid() && n == ReadCount(old(err), size)
      ensures n > 0 ==> tmp == old(err).written[old(err).pos..old(err).pos + n]
      ensures err == if n > 0 then old(err).(pos := old(err).pos + n) else old(err)
    {
      n, tmp := ReadCount(err, size), "";
      if n > 0 {
        tmp := err.written[err.pos..err.pos + n];
        err := err.(pos := err.pos + n);
      }
    }

    /** `waitpid` with `WNOHANG`: reaps a child that has exited; otherwise the status variable keeps its value. */
    method WaitNoHang(current: Status) returns (wr: bool, s: Status)
      modifies this`reaped
      ensures wr == (exited && !old(reaped)) && reaped == (old(reaped) || exited)
      ensures s == if wr then status else current
    {
      wr := exited && !reaped;
      s := current;
      if wr {
        reaped := true;
        s := status;
      }
    }

    /** `waitpid` that waits: it fails at once for a child that was reaped before. */
    method Wait(current: Status) returns (s: Status)
      modifies this`reaped
      ensures s == if old(reaped) then current else EndStatus(status, killed, exited)
    {
      s := if reaped then current else EndStatus(status, killed, exited);
      reaped := true;
    }

    method Kill()
      modifies this`killed
      ensures killed
    {
      killed := true;
    }
  }

  // ---------- the loop as a state machine ----------

  /** The variables of the loop. */
  datatype Loop = Loop(world: World, out: string, err: string, outOpen: bool, errOpen: bool, status: Status)

  /** The bytes of a read that still fit. */
  function Kept(captured: string, data: string, max: nat): string {
    if |captured| < max then captured + Take(data, max - |captured|) else captured
  }

  /** A pipe, what has been captured of it and whether it counts as open. */
  datatype Tap = Tap(pipe: Pipe, captured: string, open: bool)

  /** The part of a poll that looks at one pipe. */
  function PollPipe(p: Pipe, captured: string, open: bool, e: PipeEvent, max: nat): Tap
    requires IsPipe(p)
  {
    if !open || !e.ready then Tap(p, captured, open) else
    var n := ReadCount(p, e.size);
    if n > 0 then Tap(p.(pos := p.pos + n), Kept(captured, p.written[p.pos..p.pos + n], max), open)
    else Tap(p, captured, n != 0)
  }

  predicate IsLoop(s: Loop) {
    IsPipe(s.world.out) && IsPipe(s.world.err)
  }

  function Poll(s: Loop, e: Event, max: nat): (t: Loop)
    requires IsLoop(s)
    ensures IsLoop(t)
  {
    var w := Advance(s.world, e);
    var out := PollPipe(w.out, s.out, s.outOpen, e.out, max);
    var err := PollPipe(w.err, s.err, s.errOpen, e.err, max);
    Loop(w.(out := out.pipe, err := err.pipe), out.captured, err.captured, out.open, err.open, s.status)
  }

  /** Whole seconds of the clock, as `time` gives them. */
  function Seconds(clock: nat): nat {
    clock / 1000
  }

  predicate TimedOut(s: Loop, timeout: int, start: nat) {
    timeout > 0 && (Seconds(s.world.clock) - Seconds(start)) * 1000 > timeout
  }

  function Reap(s: Loop, child: Status): (t: Loop)
    ensures IsLoop(s) ==> IsLoop(t)
  {
    if s.world.exited && !s.world.reaped then s.(world := s.world.(reaped := true), status := child) else s
  }

  datatype Outcome = Running(s: Loop) | Ended(s: Loop, killed: bool)

  function RunFrom(s: Loop, child: Status, events: seq<Event>, timeout: int, max: nat, start: nat): (r: Outcome)
    requires IsLoop(s)
    ensures IsLoop(r.s)
    decreases |events|
  {
    if !s.outOpen && !s.errOpen then Ended(s, false)
    else if events == [] then Running(s)
    else
      var t := Poll(s, events[0], max);
      if TimedOut(t, timeout, start) then Ended(t, true)
      else RunFrom(Reap(t, child), child, events[1..], timeout, max, start)
  }

  /** The status variable starts as 0, which reads as a normal exit with code 0. */
  function Begin(start: nat): (s: Loop)
    ensures IsLoop(s)
  {
    Loop(World(Pipe("", 0, false), Pipe("", 0, false), start, false, false), "", "", true, true, Exited(0))
  }

  function ExitCode(s: Status): int {
    match s
    case Exited(code) => code
    case Signaled(signal) => 128 + signal
  }

  datatype Result = Result(exitCode: int, out: string, err: string)

  /** The result after the final wait. */
  function Reported(s: Loop, killed: bool, child: Status): Result {
    Result(ExitCode(if s.world.reaped then s.status else EndStatus(child, killed, s.world.exited)), s.out, s.err)
  }

  // ---------- run_capture ----------

  /** One half of a poll: at most `max` bytes of a stream are kept, the rest is read and dropped. */
  method Keep(b: Buf, n: int, tmp: string, max: nat)
    requires b.Valid() && n > 0 && |tmp| == n
    modifies b, b.data
    ensures b.Valid() && (b.data == old(b.data) || fresh(b.data))
    ensures b.text == Kept(old(b.text), tmp, max)
  {
    if b.len < max {
      var keep := if b.len + n > max then max - b.len else n;
      assert tmp[..keep] == Take(tmp, max - b.len);
      b.AppendN(tmp, keep);
    }
  }

  /** The loop and the final wait. There is no result while the schedule ends before the loop does. */
  method RunCapture(child: Child, events: seq<Event>, timeout: int, max: nat) returns (r: Option<Result>)
    requires child.Valid() && child.View() == Begin(child.clock).world && !child.killed
    modifies child
    ensures var o := RunFrom(Begin(old(child.clock)), child.status, events, timeout, max, old(child.clock));
      r == (if o.Ended? then Some(Reported(o.s, o.killed, child.status)) else None) && child.killed == (o.Ended? && o.killed)
  {
    hide Poll, RunFrom, Seconds, ExitCode, EndStatus, ReadCount, Written, Advance, PollPipe, Take, Buf.Valid;
    var out := new Buf(1024);
    var err := new Buf(512);
    var start := child.clock;
    var outOpen, errOpen, status := true, true, Exited(0);
    var i := 0;
    assert events[0..] == events;
    while (outOpen || errOpen) && i < |events|
      invariant i <= |events| && child.Valid() && !child.killed
      invariant out.Valid() && err.Valid() && out != err && out.data != err.data
      invariant fresh(out) && fresh(out.data) && fresh(err) && fresh(err.data)
      invariant RunFrom(Begin(start), child.status, events, timeout, max, start) ==
        RunFrom(Loop(child.View(), out.text, err.text, outOpen, errOpen, status), child.status, events[i..],
                timeout, max, start)
      decreases |events| - i
    {
      ghost var s := Loop(child.View(), out.text, err.text, outOpen, errOpen, status);
      outOpen, errOpen := PollBoth(child, events[i], out, err, outOpen, errOpen, max, s);
      RunStep(s, child.status, events, i, timeout, max, start);
      i := i + 1;
      if timeout > 0 && (Seconds(child.clock) - Seconds(start)) * 1000 > timeout {
        child.Kill();
        r := Finish(child, out, err, status);
        return;
      }
      var wr: bool;
      wr, status := child.WaitNoHang(status);
      if wr && !outOpen && !errOpen {
        break;
      }
    }
    RunEnds(Loop(child.View(), out.text, err.text, outOpen, errOpen, status), child.status, events[i..],
            timeout, max, start);
    if outOpen || errOpen {
      return None;
    }
    r := Finish(child, out, err, status);
  }

  lemma RunEnds(s: Loop, child: Status, events: seq<Event>, timeout: int, max: nat, start: nat)
    requires IsLoop(s)
    ensures !s.outOpen && !s.errOpen ==> RunFrom(s, child, events, timeout, max, start) == Ended(s, false)
    ensures (s.outOpen || s.errOpen) && events == [] ==> RunFrom(s, child, events, timeout, max, start) == Running(s)
  {}

  lemma RunStep(s: Loop, child: Status, events: seq<Event>, i: nat, timeout: int, max: nat, start: nat)
    requires IsLoop(s) && i < |events| && (s.outOpen || s.errOpen)
    ensures RunFrom(s, child, events[i..], timeout, max, start) ==
      var t := Poll(s, events[i], max);
      if TimedOut(t, timeout, start) then Ended(t, true)
      else RunFrom(Reap(t, child), child, events[i + 1..], timeout, max, start)
  {
    hide Poll, TimedOut, Reap;
    assert events[i..][1..] == events[i + 1..];
  }

  /** Both halves of a poll. */
  method PollBoth(child: Child, e: Event, out: Buf, err: Buf, outOpen0: bool, errOpen0: bool, max: nat, ghost s: Loop)
    returns (outOpen: bool, errOpen: bool)
    requires child.Valid() && out.Valid() && err.Valid() && out != err && out.data != err.data
    requires s.world == child.View() && s.out == out.text && s.err == err.text
    requires s.outOpen == outOpen0 && s.errOpen == errOpen0
    modifies child`out, child`err, child`clock, child`exited, out, out.data, err, err.data
    ensures child.Valid() && out.Valid() && err.Valid() && out.data != err.data
    ensures (out.data == old(out.data) || fresh(out.data)) && (err.data == old(err.data) || fresh(err.data))
    ensures Loop(child.View(), out.text, err.text, outOpen, errOpen, s.status) == Poll(s, e, max)
  {
    hide PollPipe, Written;
    child.Select(e);
    outOpen := PollOut(child, e.out, out, outOpen0, max);
    errOpen := PollErr(child, e.err, err, errOpen0, max);
  }

  method PollOut(child: Child, e: PipeEvent, b: Buf, open0: bool, max: nat) returns (open: bool)
    requires child.Valid() && b.Valid()
    modifies child`out, b, b.data
    ensures child.Valid() && b.Valid() && (b.data == old(b.data) || fresh(b.data))
    ensures Tap(child.out, b.text, open) == PollPipe(old(child.out), old(b.text), open0, e, max)
  {
    hide ReadCount, Kept;
    open := open0;
    if open && e.ready {
      var n, tmp := child.ReadOut(e.size);
      if n > 0 {
        Keep(b, n, tmp, max);
      } else if n == 0 {
        open := false;
      }
    }
  }

  method PollErr(child: Child, e: PipeEvent, b: Buf, open0: bool, max: nat) returns (open: bool)
    requires child.Valid() && b.Valid()
    modifies child`err, b, b.data
    ensures child.Valid() && b.Valid() && (b.data == old(b.data) || fresh(b.data))
    ensures Tap(child.err, b.text, open) == PollPipe(old(child.err), old(b.text), open0, e, max)
  {
    hide ReadCount, Kept;
    open := open0;
    if open && e.ready {
      var n, tmp := child.ReadErr(e.size);
      if n > 0 {
        Keep(b, n, tmp, max);
      } else if n == 0 {
        open := false;
      }
    }
  }

  /** The final wait and the result. */
  method Finish(child: Child, out: Buf, err: Buf, status: Status) returns (r: Option<Result>)
    requires out.Valid() && err.Valid()
    modifies child`reaped
    ensures r == Some(Result(ExitCode(if old(child.reaped) then status
                                      else EndStatus(child.status, child.killed, child.exited)), out.text, err.text))
  {
    var final := child.Wait(status);
    var text := out.CString();
    var errText := err.CString();
    r := Some(Result(ExitCode(final), text, errText));
  }

  // ---------- what is captured ----------

  /** What has been captured of a pipe is the start of what has been read; a pipe that counts as closed is read out. */
  predicate Captures(p: Pipe, captured: string, open: bool, max: nat) {
    && IsPipe(p)
    && captured == Take(p.written[..p.pos], max)
    && (!open ==> p.closed && p.pos == |p.written|)
  }

  lemma KeptIsTake(w: string, pos: nat, n: nat, max: nat)
    requires pos + n <= |w|
    ensures Kept(Take(w[..pos], max), w[pos..pos + n], max) == Take(w[..pos + n], max)
  {
    assert w[..pos + n] == w[..pos] + w[pos..pos + n];
  }

  lemma PollPipeCaptures(p: Pipe, captured: string, open: bool, e: PipeEvent, max: nat)
    requires Captures(p, captured, open, max)
    ensures var t := PollPipe(Written(p, e), captured, open, e, max); Captures(t.pipe, t.captured, t.open, max)
  {
    var q := Written(p, e);
    assert q.written[..p.pos] == p.written[..p.pos];
    assert Captures(q, captured, open, max);
    hide Written;
    if open && e.ready {
      var n := ReadCount(q, e.size);
      if n > 0 {
        hide Kept, Take, ReadCount;
        KeptIsTake(q.written, q.pos, n, max);
      }
    }
  }

  predicate AllCaptured(s: Loop, max: nat) {
    IsLoop(s) && Captures(s.world.out, s.out, s.outOpen, max) && Captures(s.world.err, s.err, s.errOpen, max)
  }

  lemma PollCaptures(s: Loop, e: Event, max: nat)
    requires AllCaptured(s, max)
    ensures AllCaptured(Poll(s, e, max), max)
  {
    PollPipeCaptures(s.world.out, s.out, s.outOpen, e.out, max);
    PollPipeCaptures(s.world.err, s.err, s.errOpen, e.err, max);
    hide Captures, PollPipe, Written;
  }

  lemma {:induction false} RunCaptures(s: Loop, child: Status, events: seq<Event>, timeout: int, max: nat, start: nat)
    requires AllCaptured(s, max)
    ensures AllCaptured(RunFrom(s, child, events, timeout, max, start).s, max)
    decreases |events|
  {
    hide Captures, Poll, TimedOut;
    if (s.outOpen || s.errOpen) && events != [] {
      var t := Poll(s, events[0], max);
      PollCaptures(s, events[0], max);
      if !TimedOut(t, timeout, start) {
        RunCaptures(Reap(t, child), child, events[1..], timeout, max, start);
      }
    }
  }

  /** Everything a schedule writes to a pipe. */
  function Stream(p: Pipe, events: seq<PipeEvent>): (q: Pipe)
    ensures p.closed ==> q == p
    ensures p.written <= q.written
    decreases |events|
  {
    if events == [] then p else Stream(Written(p, events[0]), events[1..])
  }

  function OutEvents(events: seq<Event>): (es: seq<PipeEvent>)
    ensures |es| == |events|
  {
    seq(|events|, i requires 0 <= i < |events| => events[i].out)
  }

  function ErrEvents(events: seq<Event>): (es: seq<PipeEvent>)
    ensures |es| == |events|
  {
    seq(|events|, i requires 0 <= i < |events| => events[i].err)
  }

  lemma {:induction false} StreamPos(p: Pipe, pos: nat, events: seq<PipeEvent>)
    ensures Stream(p.(pos := pos), events).written == Stream(p, events).written
    decreases |events|
  {
    if events != [] {
      StreamPos(Written(p, events[0]), pos, events[1..]);
      assert Written(p.(pos := pos), events[0]) == Written(p, events[0]).(pos := pos);
    }
  }

  /** Reading does not change what a stream will have carried. */
  lemma PollStream(p: Pipe, captured: string, open: bool, e: PipeEvent, max: nat, rest: seq<PipeEvent>)
    requires IsPipe(p)
    ensures Stream(PollPipe(Written(p, e), captured, open, e, max).pipe, rest).written == Stream(p, [e] + rest).written
  {
    hide ReadCount, Kept;
    var q := Written(p, e);
    assert ([e] + rest)[1..] == rest;
    StreamPos(q, PollPipe(q, captured, open, e, max).pipe.pos, rest);
  }

  /** The loop sees of each stream what the schedule writes to it: a part while it runs, all of it at the end. */
  ghost predicate Sees(r: Outcome, out: string, err: string) {
    && r.s.world.out.written <= out
    && r.s.world.err.written <= err
    && (r.Ended? && !r.killed ==>
          && !r.s.outOpen && !r.s.errOpen && r.s.world.out.written == out && r.s.world.err.written == err)
  }

  lemma {:induction false} RunSees(s: Loop, child: Status, events: seq<Event>, timeout: int, max: nat, start: nat)
    requires AllCaptured(s, max)
    ensures Sees(RunFrom(s, child, events, timeout, max, start),
                 Stream(s.world.out, OutEvents(events)).written, Stream(s.world.err, ErrEvents(events)).written)
    decreases |events|
  {
    hide TimedOut, PollPipe, Written, Captures, OutEvents, ErrEvents;
    if !s.outOpen && !s.errOpen {
      SeesEnd(s, max, events);
    } else if events != [] {
      var e := events[0];
      var t := Poll(s, e, max);
      PollCaptures(s, e, max);
      EventsHead(events);
      var outs, errs := OutEvents(events[1..]), ErrEvents(events[1..]);
      PollStream(s.world.out, s.out, s.outOpen, e.out, max, outs);
      PollStream(s.world.err, s.err, s.errOpen, e.err, max, errs);
      hide Stream;
      if !TimedOut(t, timeout, start) {
        RunSees(Reap(t, child), child, events[1..], timeout, max, start);
      } else {
        StreamGrows(t.world.out, outs);
        StreamGrows(t.world.err, errs);
      }
    }
  }

  lemma StreamGrows(p: Pipe, events: seq<PipeEvent>)
    ensures p.written <= Stream(p, events).written
  {}

  lemma SeesEnd(s: Loop, max: nat, events: seq<Event>)
    requires AllCaptured(s, max) && !s.outOpen && !s.errOpen
    ensures Stream(s.world.out, OutEvents(events)) == s.world.out && Stream(s.world.err, ErrEvents(events)) == s.world.err
  {}

  lemma EventsHead(events: seq<Event>)
    requires events != []
    ensures OutEvents(events) == [events[0].out] + OutEvents(events[1..])
    ensures ErrEvents(events) == [events[0].err] + ErrEvents(events[1..])
  {}

  /** At any time, and however the loop ends, each captured text is the first `max` bytes of what has been read. */
  lemma CapturedIsPrefix(child: Status, events: seq<Event>, timeout: int, max: nat, start: nat)
    ensures var s := RunFrom(Begin(start), child, events, timeout, max, start).s;
      && s.out == Take(s.world.out.written[..s.world.out.pos], max)
      && s.err == Take(s.world.err.written[..s.world.err.pos], max)
      && s.world.out.written <= Stream(Pipe("", 0, false), OutEvents(events)).written
      && s.world.err.written <= Stream(Pipe("", 0, false), ErrEvents(events)).written
  {
    RunCaptures(Begin(start), child, events, timeout, max, start);
    RunSees(Begin(start), child, events, timeout, max, start);
  }

  /** When the loop ends without a kill, each captured text is the first `max` bytes of the whole stream. */
  lemma CapturedAtEnd(child: Status, events: seq<Event>, timeout: int, max: nat, start: nat)
    ensures var r := RunFrom(Begin(start), child, events, timeout, max, start);
      r.Ended? && !r.killed ==>
        && r.s.out == Take(Stream(Pipe("", 0, false), OutEvents(events)).written, max)
        && r.s.err == Take(Stream(Pipe("", 0, false), ErrEvents(events)).written, max)
  {
    RunCaptures(Begin(start), child, events, timeout, max, start);
    RunSees(Begin(start), child, events, timeout, max, start);
    var s := RunFrom(Begin(start), child, events, timeout, max, start).s;
    assert s.world.out.written[..|s.world.out.written|] == s.world.out.written;
    assert s.world.err.written[..|s.world.err.written|] == s.world.err.written;
  }

  // ---------- the status ----------

  lemma {:induction false} RunStatus(s: Loop, child: Status, events: seq<Event>, timeout: int, max: nat, start: nat)
    requires IsLoop(s) && (s.world.reaped ==> s.world.exited && s.status == child)
    ensures var r := RunFrom(s, child, events, timeout, max, start);
      r.s.world.reaped ==> r.s.world.exited && r.s.status == child
    decreases |events|
  {
    hide TimedOut, PollPipe;
    if (s.outOpen || s.errOpen) && events != [] {
      var t := Poll(s, events[0], max);
      if !TimedOut(t, timeout, start) {
        RunStatus(Reap(t, child), child, events[1..], timeout, max, start);
      }
    }
  }

  /** The reported code is that of the child, whether a poll or the final wait has reaped it; a run that is killed
      reports 137, unless the child had exited before. */
  lemma StatusIsChilds(child: Status, events: seq<Event>, timeout: int, max: nat, start: nat)
    ensures var r := RunFrom(Begin(start), child, events, timeout, max, start);
      r.Ended? ==> Reported(r.s, r.killed, child).exitCode ==
                   if r.killed && !r.s.world.exited then 137
                   else match child case Exited(code) => code case Signaled(signal) => 128 + signal
  {
    RunStatus(Begin(start), child, events, timeout, max, start);
  }

  /** The result carries the first `max` bytes of standard output as output and of standard error as error text: of the
      whole streams, or after a kill of what had been read of them. */
  lemma ResultIsStreams(child: Status, events: seq<Event>, timeout: int, max: nat, start: nat)
    ensures var r := RunFrom(Begin(start), child, events, timeout, max, start);
      var result := Reported(r.s, r.Ended? && r.killed, child);
      var out, err := Stream(Pipe("", 0, false), OutEvents(events)), Stream(Pipe("", 0, false), ErrEvents(events));
      && (r.Ended? && !r.killed ==> result.out == Take(out.written, max) && result.err == Take(err.written, max))
      && (r.Ended? && r.killed ==>
            && r.s.world.out.pos <= |out.written| && result.out == Take(out.written[..r.s.world.out.pos], max)
            && r.s.world.err.pos <= |err.written| && result.err == Take(err.written[..r.s.world.err.pos], max))
  {
    CapturedAtEnd(child, events, timeout, max, start);
    CapturedIsPrefix(child, events, timeout, max, start);
    hide RunFrom, Stream, Take;
    var s := RunFrom(Begin(start), child, events, timeout, max, start).s;
    PrefixTake(s.world.out.written, Stream(Pipe("", 0, false), OutEvents(events)).written, s.world.out.pos);
    PrefixTake(s.world.err.written, Stream(Pipe("", 0, false), ErrEvents(events)).written, s.world.err.pos);
  }

  lemma PrefixTake(s: string, t: string, n: nat)
    requires s <= t && n <= |s|
    ensures n <= |t| && s[..n] == t[..n]
  {
    assert s == t[..|s|];
  }

  // ---------- the timeout ----------

  /** How long a schedule lasts. */
  function Duration(events: seq<Event>): nat {
    if events == [] then 0 else events[0].elapsed + Duration(events[1..])
  }

  /** Polls return after at most `period` milliseconds. */
  predicate Prompt(events: seq<Event>, period: nat) {
    forall e | e in events :: e.elapsed <= period
  }

  /** The latest moment without a timeout, in milliseconds after the start. */
  lemma BeforeTimeout(clock: nat, timeout: int, start: nat)
    requires timeout > 0 && start <= clock
    ensures (Seconds(clock) - Seconds(start)) * 1000 > timeout ==> clock - start > timeout / 1000 * 1000
    ensures (Seconds(clock) - Seconds(start)) * 1000 <= timeout ==> clock - start < (timeout / 1000 + 1) * 1000
  {
    var k := Seconds(clock) - Seconds(start);
    assert clock == 1000 * Seconds(clock) + clock % 1000 && start == 1000 * Seconds(start) + start % 1000;
  }

  lemma {:induction false} RunTimes(s: Loop, child: Status, events: seq<Event>, timeout: int, max: nat, start: nat,
                                    period: nat)
    requires IsLoop(s) && timeout > 0 && start <= s.world.clock && !TimedOut(s, timeout, start)
    ensures var r := RunFrom(s, child, events, timeout, max, start);
      && start <= r.s.world.clock
      && (r.Ended? && r.killed ==> r.s.world.clock - start > timeout / 1000 * 1000)
      && (r.Ended? && r.killed && Prompt(events, period) ==>
            r.s.world.clock - start < (timeout / 1000 + 1) * 1000 + period)
      && (r.Running? ==> s.world.clock - start + Duration(events) < (timeout / 1000 + 1) * 1000)
    decreases |events|
  {
    hide PollPipe, Seconds;
    BeforeTimeout(s.world.clock, timeout, start);
    if (s.outOpen || s.errOpen) && events != [] {
      var t := Poll(s, events[0], max);
      assert events[0] in events;
      BeforeTimeout(t.world.clock, timeout, start);
      if !TimedOut(t, timeout, start) {
        RunTimes(Reap(t, child), child, events[1..], timeout, max, start, period);
      }
    }
  }

  /** With a timeout the loop ends: no schedule keeps it running past the second after the timeout. A kill comes later
      than the whole seconds of the timeout, and no later than one second and one poll period after them. */
  lemma KillInTime(child: Status, events: seq<Event>, timeout: int, max: nat, start: nat, period: nat)
    requires timeout > 0
    ensures var r := RunFrom(Begin(start), child, events, timeout, max, start);
      && (Duration(events) >= (timeout / 1000 + 1) * 1000 ==> r.Ended?)
      && (r.Ended? && r.killed ==> r.s.world.clock - start > timeout / 1000 * 1000)
      && (r.Ended? && r.killed && Prompt(events, period) ==>
            r.s.world.clock - start < (timeout / 1000 + 1) * 1000 + period)
  {
    RunTimes(Begin(start), child, events, timeout, max, start, period);
  }

  /** Without a timeout nothing is killed. */
  lemma {:induction false} NeverKilled(s: Loop, child: Status, events: seq<Event>, timeout: int, max: nat, start: nat)
    requires IsLoop(s) && timeout <= 0
    ensures var r := RunFrom(s, child, events, timeout, max, start); r.Ended? ==> !r.killed
    decreases |events|
  {
    hide PollPipe;
    if (s.outOpen || s.errOpen) && events != [] {
      NeverKilled(Reap(Poll(s, events[0], max), child), child, events[1..], timeout, max, start);
    }
  }

  // ---------- the final wait ----------

  /** How many polls the loop makes. */
  function Polls(s: Loop, child: Status, events: seq<Event>, timeout: int, max: nat, start: nat): (n: nat)
    requires IsLoop(s)
    ensures n <= |events|
    decreases |events|
  {
    if (!s.outOpen && !s.errOpen) || events == [] then 0
    else
      var t := Poll(s, events[0], max);
      if TimedOut(t, timeout, start) then 1
      else 1 + Polls(Reap(t, child), child, events[1..], timeout, max, start)
  }

  /** The child exits before poll `n`. */
  predicate ExitsWithin(events: seq<Event>, n: nat)
    requires n <= |events|
  {
    exists k: nat :: k < n && events[k].exit
  }

  lemma ExitsFirst(events: seq<Event>, n: nat)
    requires events != [] && n <= |events[1..]|
    ensures ExitsWithin(events, n + 1) <==> events[0].exit || ExitsWithin(events[1..], n)
  {
    if ExitsWithin(events[1..], n) {
      var k: nat :| k < n && events[1..][k].exit;
      assert events[k + 1].exit;
    }
    if ExitsWithin(events, n + 1) && !events[0].exit {
      var k: nat :| k < n + 1 && events[k].exit;
      assert events[1..][k - 1].exit;
    }
  }

  /** The loop has seen an exit exactly when one happened up to its last poll. */
  lemma {:induction false} RunExits(s: Loop, child: Status, events: seq<Event>, timeout: int, max: nat, start: nat)
    requires IsLoop(s)
    ensures RunFrom(s, child, events, timeout, max, start).s.world.exited <==>
            s.world.exited || ExitsWithin(events, Polls(s, child, events, timeout, max, start))
    decreases |events|
  {
    hide TimedOut, PollPipe, ExitsWithin;
    if (s.outOpen || s.errOpen) && events != [] {
      var t := Poll(s, events[0], max);
      if TimedOut(t, timeout, start) {
        ExitsFirst(events, 0);
        NoExits(events[1..]);
      } else {
        RunExits(Reap(t, child), child, events[1..], timeout, max, start);
        ExitsFirst(events, Polls(Reap(t, child), child, events[1..], timeout, max, start));
      }
    } else {
      NoExits(events);
    }
  }

  lemma NoExits(events: seq<Event>)
    ensures !ExitsWithin(events, 0)
  {}

  /** How long a living child takes to exit; nothing if it outlives the schedule. */
  function ExitTime(events: seq<Event>): Option<nat> {
    if events == [] then None
    else if events[0].exit then Some(events[0].elapsed)
    else match ExitTime(events[1..]) case None => None case Some(n) => Some(events[0].elapsed + n)
  }

  /** How long the final `waitpid` takes when the schedule goes on with `later`. */
  function WaitTime(s: Loop, killed: bool, later: seq<Event>): Option<nat> {
    if killed || s.world.exited then Some(0) else ExitTime(later)
  }

  /** The final wait returns at once, whatever comes later, exactly when the run was killed or the child exited up to
      the last poll of the loop. */
  lemma WaitCoveredIff(child: Status, events: seq<Event>, timeout: int, max: nat, start: nat)
    ensures var r := RunFrom(Begin(start), child, events, timeout, max, start);
      r.Ended? ==>
        ((forall later :: WaitTime(r.s, r.killed, later) == Some(0)) <==>
         r.killed || ExitsWithin(events, Polls(Begin(start), child, events, timeout, max, start)))
  {
    hide RunFrom, Polls;
    RunExits(Begin(start), child, events, timeout, max, start);
    var r := RunFrom(Begin(start), child, events, timeout, max, start);
    if r.Ended? && !r.killed && !r.s.world.exited {
      assert WaitTime(r.s, r.killed, []) == None;
    }
  }

  /** The timeout guards the loop only: a child that closes both streams and lives on ends the loop at once, unreaped
      and unkilled, and the final wait then takes as long as the child does, whatever the timeout. */
  lemma CloseLeavesWait(child: Status, timeout: int, max: nat, start: nat, delay: nat)
    ensures var close, idle := PipeEvent("", true, true, 0), PipeEvent("", false, false, 0);
      var r := RunFrom(Begin(start), child, [Event(close, close, 0, false)], timeout, max, start);
      && r.Ended? && !r.killed && !r.s.world.reaped
      && WaitTime(r.s, r.killed, [Event(idle, idle, delay, true)]) == Some(delay)
  {
    var close := PipeEvent("", true, true, 0);
    var e := Event(close, close, 0, false);
    assert "" + "" == "";
    assert [e][1..] == [];
    RunStep(Begin(start), child, [e], 0, timeout, max, start);
    assert [e][0..] == [e];
  }
}
