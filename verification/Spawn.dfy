/** A spawned process: one reaper waits for it, publishes the result by closing a channel, and any number
    of observers read it (pkg/bri/proc_spawn.go). */
module Spawn {
  import opened Options

  /** How cmd.Wait returns: the exit status, or an error that is not an exit. */
  datatype Outcome = Status(code: int) | WaitError(why: int)

  datatype Child = Running | Exited(outcome: Outcome)

  /** The reaper: inside Wait, with its result, with the fields written, with the channel closed. */
  datatype Reaper = Waiting | Reaped(outcome: Outcome) | Written | Published

  /** The questions an observer asks. */
  datatype Question = Wait | ExitCode | Alive

  datatype Answer = Code(n: int) | Raised(why: int) | StillRunning | IsAlive(on: bool)

  /** An observer between questions, past the channel test and about to read the fields, or answered. */
  datatype Observer = Asking(q: Question) | Reading(q: Question) | Answered(q: Question, a: Answer)

  datatype State = State(child: Child, reaper: Reaper, exitCode: int, waitErr: Option<int>, closed: bool, observers: seq<Observer>)

  predicate Init(s: State) {
    && s.child.Running? && s.reaper.Waiting? && s.exitCode == 0 && s.waitErr == None && !s.closed && s.observers == []
  }

  datatype Action =
    | Exit(outcome: Outcome) | Reap | WriteFields | Publish
    | Ask(q: Question) // a new observer
    | Test(i: nat) // looks at the channel
    | Read(i: nat) // reads the fields

  predicate Enabled(s: State, a: Action) {
    match a
    case Exit(_) => s.child.Running?
    case Reap => s.reaper.Waiting? && s.child.Exited?
    case WriteFields => s.reaper.Reaped?
    case Publish => s.reaper.Written?
    case Ask(_) => true
    case Test(i) => i < |s.observers| && s.observers[i].Asking? && (s.observers[i].q.Wait? ==> s.closed)
    case Read(i) => i < |s.observers| && s.observers[i].Reading?
  }

  /** What the fields say to the question. */
  function FieldAnswer(s: State): Answer {
    if s.waitErr.Some? then Raised(s.waitErr.value) else Code(s.exitCode)
  }

  /** Looking at the channel: open answers at once, closed lets a status be read. */
  function Tested(s: State, q: Question): Observer {
    if q.Alive? then Answered(q, IsAlive(!s.closed))
    else if s.closed then Reading(q)
    else Answered(q, StillRunning)
  }

  function Do(s: State, a: Action): State
    requires Enabled(s, a)
  {
    match a
    case Exit(o) => s.(child := Exited(o))
    case Reap => s.(reaper := Reaped(s.child.outcome))
    case WriteFields =>
      (match s.reaper.outcome
       case Status(n) => s.(exitCode := n, reaper := Written)
       case WaitError(why) => s.(waitErr := Some(why), reaper := Written))
    case Publish => s.(closed := true, reaper := Published)
    case Ask(q) => s.(observers := s.observers + [Asking(q)])
    case Test(i) => s.(observers := s.observers[i := Tested(s, s.observers[i].q)])
    case Read(i) => s.(observers := s.observers[i := Answered(s.observers[i].q, FieldAnswer(s))])
  }

  predicate IsRun(run: seq<State>, acts: seq<Action>) {
    && |run| == |acts| + 1 && Init(run[0])
    && forall k | 0 <= k < |acts| :: Enabled(run[k], acts[k]) && run[k + 1] == Do(run[k], acts[k])
  }

  /** What a finished child must be reported as. */
  function Truth(o: Outcome): Answer {
    match o
    case Status(n) => Code(n)
    case WaitError(why) => Raised(why)
  }

  predicate ObserverOk(s: State, o: Observer) {
    match o
    case Asking(_) => true
    case Reading(q) => s.closed && !q.Alive?
    case Answered(q, a) =>
      match a
      case Code(_) => s.child.Exited? && s.closed && a == Truth(s.child.outcome) && !q.Alive?
      case Raised(_) => s.child.Exited? && s.closed && a == Truth(s.child.outcome) && !q.Alive?
      case StillRunning => q.ExitCode?
      case IsAlive(on) => q.Alive? && (!on ==> s.child.Exited? && s.closed)
  }

  predicate Inv(s: State) {
    && (s.closed <==> s.reaper.Published?)
    && (!s.reaper.Waiting? ==> s.child.Exited?)
    && (s.reaper.Reaped? ==> s.reaper.outcome == s.child.outcome)
    && (s.reaper.Waiting? || s.reaper.Reaped? ==> s.exitCode == 0 && s.waitErr == None)
    && (s.reaper.Written? || s.reaper.Published? ==> FieldAnswer(s) == Truth(s.child.outcome))
    && forall i | 0 <= i < |s.observers| :: ObserverOk(s, s.observers[i])
  }

  lemma StepInv(s: State, a: Action)
    requires Inv(s) && Enabled(s, a)
    ensures Inv(Do(s, a))
  {
    var s1 := Do(s, a);
    forall i | 0 <= i < |s1.observers| ensures ObserverOk(s1, s1.observers[i]) {
      if i < |s.observers| { assert ObserverOk(s, s.observers[i]); }
    }
  }

  lemma {:induction false} RunInv(run: seq<State>, acts: seq<Action>, k: nat)
    requires IsRun(run, acts) && k < |run|
    ensures Inv(run[k])
  {
    hide Inv, Do, Enabled;
    if k == 0 {
      assert Inv(run[0]) by { InitInv(run[0]); }
    } else {
      RunInv(run, acts, k - 1);
      StepInv(run[k - 1], acts[k - 1]);
    }
  }

  lemma InitInv(s: State)
    requires Init(s)
    ensures Inv(s)
  {}

  /** Whatever the interleaving: an observer that gets a status gets the child's own, and only after it
      exited, so all of them agree; a wait is never answered before that; not-alive means exited. */
  lemma ObserversSeeTheTruth(run: seq<State>, acts: seq<Action>, k: nat, i: nat)
    requires IsRun(run, acts) && k < |run| && i < |run[k].observers| && run[k].observers[i].Answered?
    ensures var s, a, q := run[k], run[k].observers[i].a, run[k].observers[i].q;
            && (a.Code? ==> s.child == Exited(Status(a.n)))
            && (a.Raised? ==> s.child == Exited(WaitError(a.why)))
            && (q.Wait? ==> a.Code? || a.Raised?)
            && (a == IsAlive(false) ==> s.child.Exited?)
  {
    RunInv(run, acts, k);
    assert ObserverOk(run[k], run[k].observers[i]);
  }

  /** The channel stays closed, the child stays exited and the fields stay as published. */
  lemma {:induction false} PublishedForGood(run: seq<State>, acts: seq<Action>, k: nat, m: nat)
    requires IsRun(run, acts) && k <= m < |run| && run[k].closed
    ensures run[m].closed && FieldAnswer(run[m]) == FieldAnswer(run[k])
    ensures run[k].child.Exited? && run[m].child == run[k].child
    decreases m - k
  {
    hide Inv, Do, Enabled, FieldAnswer;
    RunInv(run, acts, k);
    if k < m {
      PublishedForGood(run, acts, k, m - 1);
      RunInv(run, acts, m - 1);
      StaysPublished(run[m - 1], acts[m - 1]);
    } else {
      ClosedMeansExited(run[k]);
    }
  }

  lemma ClosedMeansExited(s: State)
    requires Inv(s) && s.closed
    ensures s.child.Exited?
  {}

  lemma StaysPublished(s: State, a: Action)
    requires Inv(s) && Enabled(s, a) && s.closed
    ensures var t := Do(s, a); t.closed && FieldAnswer(t) == FieldAnswer(s) && t.child == s.child
  {}

  /** Once one observer has seen the child gone, no later test says it is alive or still running. */
  lemma NeverAliveAgain(run: seq<State>, acts: seq<Action>, k: nat, i: nat, m: nat, q: Question)
    requires IsRun(run, acts) && k <= m < |run| && i < |run[k].observers|
    requires run[k].observers[i].Answered? && run[k].observers[i].a != StillRunning && run[k].observers[i].a != IsAlive(true)
    ensures Tested(run[m], q) == if q.Alive? then Answered(q, IsAlive(false)) else Reading(q)
  {
    RunInv(run, acts, k);
    assert ObserverOk(run[k], run[k].observers[i]);
    PublishedForGood(run, acts, k, m);
  }

  /** Observer i's look at the channel in step k: an exit-code question, the result not yet published. */
  predicate AskedEarly(run: seq<State>, acts: seq<Action>, k: nat, i: nat)
    requires k < |acts| < |run|
  {
    acts[k] == Test(i) && i < |run[k].observers| && run[k].observers[i] == Asking(ExitCode) && !run[k].reaper.Published?
  }

  lemma {:induction false} ObserversGrow(run: seq<State>, acts: seq<Action>, k: nat, m: nat)
    requires IsRun(run, acts) && k <= m < |run|
    ensures |run[k].observers| <= |run[m].observers|
  {
    if k < m { ObserversGrow(run, acts, k, m - 1); }
  }

  /** In every run an observer is told "still running" exactly when it looked before the reaper published the
      result, whether or not the child had exited by then. */
  lemma {:induction false} StillRunningIff(run: seq<State>, acts: seq<Action>, m: nat, i: nat)
    requires IsRun(run, acts) && m < |run| && i < |run[m].observers|
    ensures run[m].observers[i] == Answered(ExitCode, StillRunning) <==> exists k | 0 <= k < m :: AskedEarly(run, acts, k, i)
  {
    if m > 0 {
      var s, a := run[m - 1], acts[m - 1];
      RunInv(run, acts, m - 1);
      if i < |s.observers| {
        StillRunningIff(run, acts, m - 1, i);
        assert ObserverOk(s, s.observers[i]);
        assert run[m].observers[i] == Answered(ExitCode, StillRunning) <==>
               s.observers[i] == Answered(ExitCode, StillRunning) || AskedEarly(run, acts, m - 1, i);
      } else {
        forall k | 0 <= k < m ensures !AskedEarly(run, acts, k, i) {
          ObserversGrow(run, acts, k, m - 1);
        }
      }
    }
  }

  /** So an exited child is called running until it is reaped: whatever run came before, asking now is answered
      "still running" exactly when the result is not yet published. */
  lemma AskingNow(run: seq<State>, acts: seq<Action>)
    requires IsRun(run, acts)
    ensures var s := run[|run| - 1];
            var s1 := Do(s, Ask(ExitCode));
            var s2 := Do(s1, Test(|s.observers|));
            && IsRun(run + [s1, s2], acts + [Ask(ExitCode), Test(|s.observers|)])
            && (s2.observers[|s.observers|] == Answered(ExitCode, StillRunning) <==> !s.reaper.Published?)
            && s2.child == s.child
  {
    var s := run[|run| - 1];
    RunInv(run, acts, |run| - 1);
    var s1 := Do(s, Ask(ExitCode));
    var s2 := Do(s1, Test(|s.observers|));
    var run2, acts2 := run + [s1, s2], acts + [Ask(ExitCode), Test(|s.observers|)];
    forall k | 0 <= k < |acts2| ensures Enabled(run2[k], acts2[k]) && run2[k + 1] == Do(run2[k], acts2[k]) {
      if k < |acts| { assert Enabled(run[k], acts[k]); }
    }
  }
}
