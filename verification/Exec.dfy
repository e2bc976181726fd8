/** exec: main, waiter, two drains, the child and any processes that inherited its pipes, as a transition
    system (pkg/bri/io_proc.go). */
module Exec {
  type Byte = int

  /** A drain: in Read, holding what it read, finished. */
  datatype Drain = Blocked | InHand(chunk: seq<Byte>) | Done

  /** One pipe: all bytes ever written, how many were read, whether the child, if it runs, still holds its
      write end and how many other processes do, whether our read end is open; and its drain and buffer. */
  datatype Side = Side(written: seq<Byte>, taken: nat, held: bool, holders: nat, open: bool, drain: Drain, buf: seq<Byte>)

  datatype Child = Running | Exited(code: int)

  datatype Result = Result(out: seq<Byte>, err: seq<Byte>, exit: int, timedOut: bool)

  datatype Main =
    | Selecting // on the exit and, with a timeout, the timer
    | Joining // exit seen in time, waiting for both drains
    | Killing // timer seen, child killed, waiting for its exit
    | Grace // read ends closed, drains or the grace period awaited
    | Returned(r: Result)

  datatype State = State(main: Main, child: Child, reaped: bool, out: Side, err: Side)

  datatype Which = Out | Err

  function Get(s: State, w: Which): Side {
    if w.Out? then s.out else s.err
  }

  function Put(s: State, w: Which, side: Side): State {
    if w.Out? then s.(out := side) else s.(err := side)
  }

  predicate Init(s: State) {
    var side := Side([], 0, true, 0, true, Blocked, []);
    s == State(Selecting, Running, false, side, side)
  }

  /** Some process can still write to the pipe. */
  predicate HasWriter(s: State, w: Which) {
    (s.child.Running? && Get(s, w).held) || Get(s, w).holders > 0
  }

  datatype Action =
    // processes outside
    | Write(w: Which, bytes: seq<Byte>) | Inherit(w: Which) | Release(w: Which) | Shut(w: Which) | Exit(code: int)
    // the waiter and the drains
    | Reap | Take(w: Which, n: nat) | Append(w: Which) | Eof(w: Which) | Broken(w: Which)
    // main
    | InTime | Timeout | CloseEnds | Joined | Drained | Expire

  predicate Enabled(timeout: bool, s: State, a: Action) {
    match a
    case Write(w, bytes) => HasWriter(s, w) && Get(s, w).open
    case Inherit(w) => HasWriter(s, w)
    case Release(w) => Get(s, w).holders > 0
    case Shut(w) => s.child.Running? && Get(s, w).held
    case Exit(_) => s.child.Running?
    case Reap => s.child.Exited? && !s.reaped
    case Take(w, n) => Get(s, w).drain.Blocked? && Get(s, w).open && 0 < n && Get(s, w).taken + n <= |Get(s, w).written|
    case Append(w) => Get(s, w).drain.InHand?
    case Eof(w) => Get(s, w).drain.Blocked? && Get(s, w).open && Get(s, w).taken == |Get(s, w).written| && !HasWriter(s, w)
    case Broken(w) => Get(s, w).drain.Blocked? && !Get(s, w).open
    case InTime => s.main.Selecting? && s.reaped
    case Timeout => s.main.Selecting? && timeout
    case CloseEnds => s.main.Killing? && s.reaped
    case Joined => s.main.Joining? && s.out.drain.Done? && s.err.drain.Done? && s.child.Exited?
    case Drained => s.main.Grace? && s.out.drain.Done? && s.err.drain.Done?
    case Expire => s.main.Grace?
  }

  function Do(timeout: bool, s: State, a: Action): State
    requires Enabled(timeout, s, a)
  {
    match a
    case Write(w, bytes) => Put(s, w, Get(s, w).(written := Get(s, w).written + bytes))
    case Inherit(w) => Put(s, w, Get(s, w).(holders := Get(s, w).holders + 1))
    case Release(w) => Put(s, w, Get(s, w).(holders := Get(s, w).holders - 1))
    case Shut(w) => Put(s, w, Get(s, w).(held := false))
    case Exit(code) => s.(child := Exited(code))
    case Reap => s.(reaped := true)
    case Take(w, n) =>
      var p := Get(s, w);
      Put(s, w, p.(taken := p.taken + n, drain := InHand(p.written[p.taken..p.taken + n])))
    case Append(w) =>
      var p := Get(s, w);
      Put(s, w, p.(buf := p.buf + p.drain.chunk, drain := Blocked))
    case Eof(w) => Put(s, w, Get(s, w).(drain := Done))
    case Broken(w) => Put(s, w, Get(s, w).(drain := Done))
    case InTime => s.(main := Joining)
    case Timeout => s.(main := Killing)
    case CloseEnds => s.(main := Grace, out := s.out.(open := false), err := s.err.(open := false))
    case Joined => s.(main := Returned(Result(s.out.buf, s.err.buf, s.child.code, false)))
    case Drained => s.(main := Returned(Result(s.out.buf, s.err.buf, -1, true)))
    case Expire => s.(main := Returned(Result(s.out.buf, s.err.buf, -1, true)))
  }

  predicate IsRun(timeout: bool, run: seq<State>, acts: seq<Action>) {
    && |run| == |acts| + 1 && Init(run[0])
    && forall k | 0 <= k < |acts| :: Enabled(timeout, run[k], acts[k]) && run[k + 1] == Do(timeout, run[k], acts[k])
  }

  // ----- the invariant -----

  /** The buffer and what is in hand are what was read; a drain that finished with the read end open has read
      everything, and nobody is left to write more. */
  predicate SideOk(s: State, w: Which) {
    var p := Get(s, w);
    && p.taken <= |p.written|
    && p.buf + (if p.drain.InHand? then p.drain.chunk else []) == p.written[..p.taken]
    && (p.drain.Done? && p.open ==> p.taken == |p.written| && !HasWriter(s, w))
  }

  predicate ResultOk(s: State, w: Which, bytes: seq<Byte>, timedOut: bool) {
    bytes <= Get(s, w).written && (!timedOut ==> bytes == Get(s, w).written && !HasWriter(s, w))
  }

  predicate Inv(timeout: bool, s: State) {
    && SideOk(s, Out) && SideOk(s, Err)
    && (s.reaped ==> s.child.Exited?)
    && (s.main.Selecting? || s.main.Joining? || s.main.Killing? ==> s.out.open && s.err.open)
    && (s.main.Joining? || s.main.Grace? ==> s.reaped)
    && (s.main.Killing? || s.main.Grace? ==> timeout)
    && (s.main.Returned? ==>
          && ResultOk(s, Out, s.main.r.out, s.main.r.timedOut) && ResultOk(s, Err, s.main.r.err, s.main.r.timedOut)
          && s.child.Exited? && (s.main.r.timedOut ==> timeout)
          && s.main.r.exit == if s.main.r.timedOut then -1 else s.child.code)
  }

  lemma InitInv(timeout: bool, s: State)
    requires Init(s)
    ensures Inv(timeout, s)
  {}

  /** A step of either side's drain or writers keeps that side right. */
  lemma SideStep(timeout: bool, s: State, a: Action, w: Which)
    requires SideOk(s, w) && Enabled(timeout, s, a)
    requires !a.CloseEnds?
    ensures SideOk(Do(timeout, s, a), w)
  {
    var p, q := Get(s, w), Get(Do(timeout, s, a), w);
    match a {
      case Write(v, bytes) => assert v == w ==> q.written[..p.taken] == p.written[..p.taken];
      case Take(v, n) => assert v == w ==> p.buf + p.written[p.taken..p.taken + n] == p.written[..p.taken + n];
      case Append(v) => assert v == w ==> q.buf + [] == p.buf + p.drain.chunk;
      case _ =>
    }
  }

  lemma ResultStep(timeout: bool, s: State, a: Action, w: Which, bytes: seq<Byte>, timedOut: bool)
    requires ResultOk(s, w, bytes, timedOut) && Enabled(timeout, s, a)
    ensures ResultOk(Do(timeout, s, a), w, bytes, timedOut)
  {
    assert Get(s, w).written <= Get(Do(timeout, s, a), w).written;
  }

  lemma StepInv(timeout: bool, s: State, a: Action)
    requires Inv(timeout, s) && Enabled(timeout, s, a)
    ensures Inv(timeout, Do(timeout, s, a))
  {
    var t := Do(timeout, s, a);
    if !a.CloseEnds? {
      SideStep(timeout, s, a, Out);
      SideStep(timeout, s, a, Err);
    }
    if s.main.Returned? {
      ResultStep(timeout, s, a, Out, s.main.r.out, s.main.r.timedOut);
      ResultStep(timeout, s, a, Err, s.main.r.err, s.main.r.timedOut);
    }
    if a.Joined? || a.Drained? || a.Expire? {
      BufferIsPrefix(s, Out);
      BufferIsPrefix(s, Err);
    }
  }

  lemma BufferIsPrefix(s: State, w: Which)
    requires SideOk(s, w)
    ensures Get(s, w).buf <= Get(s, w).written
    ensures Get(s, w).drain.Done? && Get(s, w).open ==> Get(s, w).buf == Get(s, w).written
  {
    var p := Get(s, w);
    assert p.written[..p.taken] <= p.written;
  }

  lemma {:induction false} RunInv(timeout: bool, run: seq<State>, acts: seq<Action>, k: nat)
    requires IsRun(timeout, run, acts) && k < |run|
    ensures Inv(timeout, run[k])
  {
    hide Inv, Do, Enabled, Init;
    if k == 0 {
      InitInv(timeout, run[0]);
    } else {
      RunInv(timeout, run, acts, k - 1);
      StepInv(timeout, run[k - 1], acts[k - 1]);
    }
  }

  // ----- what it gives -----

  /** Whatever the interleaving: a call that returns in time has every byte written to each pipe, no process
      can write more, and it reports the child's status; a timed-out call has a prefix of what was written
      and reports -1.  Both stay so for ever. */
  lemma ExecReturns(timeout: bool, run: seq<State>, acts: seq<Action>, k: nat)
    requires IsRun(timeout, run, acts) && k < |run| && run[k].main.Returned?
    ensures var s, r := run[k], run[k].main.r;
            && (!r.timedOut ==> r.out == s.out.written && r.err == s.err.written && s.out.holders == 0 && s.err.holders == 0
                                && s.child == Exited(r.exit))
            && (r.timedOut ==> r.out <= s.out.written && r.err <= s.err.written && r.exit == -1 && timeout && s.child.Exited?)
  {
    RunInv(timeout, run, acts, k);
  }

  /** The steps that are exec's own: no process outside takes part. */
  predicate Own(a: Action) {
    a.Reap? || a.CloseEnds? || a.Expire?
  }

  /** After a timeout, once the killed child has exited, three steps of exec's own finish the call, whatever
      processes still hold the pipes. */
  lemma TimedOutNeedsNobody(timeout: bool, run: seq<State>, acts: seq<Action>)
    returns (more: seq<State>, own: seq<Action>)
    requires IsRun(timeout, run, acts)
    requires var s := run[|run| - 1]; (s.main.Killing? || s.main.Grace?) && s.child.Exited?
    ensures IsRun(timeout, run + more, acts + own) && |own| <= 3 && |more| == |own| >= 1
    ensures forall a <- own :: Own(a)
    ensures more[|more| - 1].main.Returned? && more[|more| - 1].main.r.timedOut
    ensures var s, t := run[|run| - 1], more[|more| - 1]; t.out.holders == s.out.holders && t.err.holders == s.err.holders
  {
    more, own := [], [];
    var s := run[|run| - 1];
    var t := s;
    if !t.reaped {
      more, own := more + [Do(timeout, t, Reap)], own + [Reap];
      Extends(timeout, run, acts, [], [], t, Reap);
      assert [] + [Do(timeout, t, Reap)] == more && [] + [Reap] == own;
      t := Do(timeout, t, Reap);
      assert (run + more)[|run + more| - 1] == t;
    } else {
      assert run + more == run && acts + own == acts;
    }
    if t.main.Killing? {
      Extends(timeout, run, acts, more, own, t, CloseEnds);
      t := Do(timeout, t, CloseEnds);
      more, own := more + [t], own + [CloseEnds];
    } else {
      RunInv(timeout, run, acts, |run| - 1);
    }
    assert (run + more)[|run + more| - 1] == t;
    Extends(timeout, run, acts, more, own, t, Expire);
    t := Do(timeout, t, Expire);
    more, own := more + [t], own + [Expire];
  }

  lemma Extends(timeout: bool, run: seq<State>, acts: seq<Action>, more: seq<State>, own: seq<Action>, t: State, a: Action)
    requires IsRun(timeout, run + more, acts + own) && |more| == |own| && |run| == |acts| + 1
    requires (run + more)[|run + more| - 1] == t && Enabled(timeout, t, a)
    ensures IsRun(timeout, run + (more + [Do(timeout, t, a)]), acts + (own + [a]))
  {
    var r, c := run + more, acts + own;
    assert run + (more + [Do(timeout, t, a)]) == r + [Do(timeout, t, a)];
    assert acts + (own + [a]) == c + [a];
    var r1, c1 := r + [Do(timeout, t, a)], c + [a];
    forall k | 0 <= k < |c1| ensures Enabled(timeout, r1[k], c1[k]) && r1[k + 1] == Do(timeout, r1[k], c1[k]) {
      if k < |c| { assert r1[k] == r[k] && r1[k + 1] == r[k + 1] && c1[k] == c[k]; }
    }
  }

  /** The in-time branch waits for the end of both pipes: while anything that inherited one holds it, the call
      does not return. */
  lemma {:induction false} InTimeWaitsForHolders(timeout: bool, run: seq<State>, acts: seq<Action>, k: nat, m: nat, w: Which)
    requires IsRun(timeout, run, acts) && k <= m < |run| && run[k].main.Joining?
    requires forall j | k <= j <= m :: Get(run[j], w).holders > 0
    ensures run[m].main.Joining?
    decreases m - k
  {
    hide Inv, Do, Enabled, Init;
    if k < m {
      InTimeWaitsForHolders(timeout, run, acts, k, m - 1, w);
      RunInv(timeout, run, acts, m - 1);
      StaysJoining(timeout, run[m - 1], acts[m - 1], w);
    }
  }

  lemma StaysJoining(timeout: bool, s: State, a: Action, w: Which)
    requires Inv(timeout, s) && s.main.Joining? && Get(s, w).holders > 0 && Enabled(timeout, s, a)
    ensures Do(timeout, s, a).main.Joining?
  {}
}
