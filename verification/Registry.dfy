/** The registry of routes: a lookup under the read lock, and a second look under the write lock before an
    entry is made (pkg/bri/observability.go). */
module Registry {
  type Route = string

  /** A call of get: not begun, reading, missed, holding the write lock, sure there is no entry, done. */
  datatype Stage = Start | Reading | Missed | Locked | Absent | Got(id: nat)

  datatype Call = Call(route: Route, stage: Stage)

  /** `next` numbers the entries made; the lock is held by one writer or by the readers. */
  datatype State = State(routes: map<Route, nat>, next: nat, calls: seq<Call>)

  predicate Holds(c: Call) {
    c.stage.Locked? || c.stage.Absent?
  }

  predicate NoWriter(s: State) {
    forall j | 0 <= j < |s.calls| :: !Holds(s.calls[j])
  }

  predicate NoReader(s: State) {
    forall j | 0 <= j < |s.calls| :: !s.calls[j].stage.Reading?
  }

  datatype Action = Begin(route: Route) | RLock(i: nat) | Look(i: nat) | Lock(i: nat) | LookAgain(i: nat) | Make(i: nat)

  predicate Enabled(s: State, a: Action) {
    match a
    case Begin(_) => true
    case RLock(i) => i < |s.calls| && s.calls[i].stage.Start? && NoWriter(s)
    case Look(i) => i < |s.calls| && s.calls[i].stage.Reading?
    case Lock(i) => i < |s.calls| && s.calls[i].stage.Missed? && NoWriter(s) && NoReader(s)
    case LookAgain(i) => i < |s.calls| && s.calls[i].stage.Locked?
    case Make(i) => i < |s.calls| && s.calls[i].stage.Absent?
  }

  function At(s: State, i: nat, stage: Stage): State
    requires i < |s.calls|
  {
    s.(calls := s.calls[i := s.calls[i].(stage := stage)])
  }

  function Do(s: State, a: Action): State
    requires Enabled(s, a)
  {
    match a
    case Begin(route) => s.(calls := s.calls + [Call(route, Start)])
    case RLock(i) => At(s, i, Reading)
    case Look(i) => At(s, i, if s.calls[i].route in s.routes then Got(s.routes[s.calls[i].route]) else Missed)
    case Lock(i) => At(s, i, Locked)
    case LookAgain(i) => At(s, i, if s.calls[i].route in s.routes then Got(s.routes[s.calls[i].route]) else Absent)
    case Make(i) => At(s.(routes := s.routes[s.calls[i].route := s.next], next := s.next + 1), i, Got(s.next))
  }

  predicate Init(s: State) {
    s == State(map[], 0, [])
  }

  predicate IsRun(run: seq<State>, acts: seq<Action>) {
    && |run| == |acts| + 1 && Init(run[0])
    && forall k | 0 <= k < |acts| :: Enabled(run[k], acts[k]) && run[k + 1] == Do(run[k], acts[k])
  }

  predicate CallOk(s: State, c: Call) {
    && (c.stage.Absent? ==> c.route !in s.routes)
    && (c.stage.Got? ==> c.route in s.routes && s.routes[c.route] == c.stage.id)
  }

  predicate Inv(s: State) {
    && (forall j | 0 <= j < |s.calls| :: CallOk(s, s.calls[j]))
    && (forall i, j | 0 <= i < |s.calls| && 0 <= j < |s.calls| && Holds(s.calls[i]) && Holds(s.calls[j]) :: i == j)
    && (forall r <- s.routes :: s.routes[r] < s.next)
    && forall q, r | q in s.routes && r in s.routes && s.routes[q] == s.routes[r] :: q == r
  }

  lemma StepInv(s: State, a: Action)
    requires Inv(s) && Enabled(s, a)
    ensures Inv(Do(s, a)) && forall r <- s.routes :: r in Do(s, a).routes && Do(s, a).routes[r] == s.routes[r]
  {
    var t := Do(s, a);
    if a.Make? { assert CallOk(s, s.calls[a.i]); }
    forall j | 0 <= j < |t.calls| ensures CallOk(t, t.calls[j]) {
      if j < |s.calls| {
        assert CallOk(s, s.calls[j]);
        if a.Make? && j != a.i { assert Holds(s.calls[a.i]); }
      }
    }
  }

  lemma {:induction false} RunInv(run: seq<State>, acts: seq<Action>, k: nat)
    requires IsRun(run, acts) && k < |run|
    ensures Inv(run[k])
  {
    hide Inv, Do, Enabled;
    if k == 0 {
      InitInv(run[0]);
    } else {
      RunInv(run, acts, k - 1);
      StepInv(run[k - 1], acts[k - 1]);
    }
  }

  lemma InitInv(s: State)
    requires Init(s)
    ensures Inv(s)
  {}

  /** An entry, once made, is the route's entry for good. */
  lemma {:induction false} EntriesStay(run: seq<State>, acts: seq<Action>, k: nat, m: nat, r: Route)
    requires IsRun(run, acts) && k <= m < |run| && r in run[k].routes
    ensures r in run[m].routes && run[m].routes[r] == run[k].routes[r]
    decreases m - k
  {
    hide Inv, Do, Enabled;
    if k < m {
      EntriesStay(run, acts, k, m - 1, r);
      RunInv(run, acts, m - 1);
      StepInv(run[m - 1], acts[m - 1]);
    }
  }

  /** Whenever two calls return, even at different times, they have the same entry exactly when they asked for
      the same route: each route has one set of counters. */
  lemma OneEntryPerRoute(run: seq<State>, acts: seq<Action>, k: nat, i: nat, m: nat, j: nat)
    requires IsRun(run, acts) && k <= m < |run| && i < |run[k].calls| && j < |run[m].calls|
    requires run[k].calls[i].stage.Got? && run[m].calls[j].stage.Got?
    ensures run[k].calls[i].stage.id == run[m].calls[j].stage.id <==> run[k].calls[i].route == run[m].calls[j].route
  {
    RunInv(run, acts, k);
    RunInv(run, acts, m);
    assert CallOk(run[k], run[k].calls[i]) && CallOk(run[m], run[m].calls[j]);
    EntriesStay(run, acts, k, m, run[k].calls[i].route);
  }
}
