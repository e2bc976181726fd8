/** One route's lock-light counters under concurrent observers and a renderer, and the registry of routes
    (pkg/bri/observability.go). */
module Metrics {
  const BOUNDS: seq<real> := [1.0, 5.0, 10.0, 25.0, 50.0, 100.0, 250.0, 500.0, 1000.0, 2500.0, 5000.0, 10000.0]
  const BUCKETS := 12
  const CLASSES := 6

  /** A request: its status and its duration in milliseconds. */
  datatype Request = Request(status: int, millis: real)

  /** Go's status / 100, cut to 1..5 or 0. */
  function ClassOf(status: int): (c: nat)
    ensures c < CLASSES
  {
    var q := if status < 0 then -(-status / 100) else status / 100;
    if q < 1 || q > 5 then 0 else q
  }

  predicate Under(r: Request, i: nat)
    requires i < BUCKETS
  {
    r.millis <= BOUNDS[i]
  }

  /** One observation in progress: pc 0 before the count, 1 before the sum, 2 before the class, 3 + i before
      bucket i, 15 done. */
  datatype Observer = Observer(r: Request, pc: nat)

  const FINISHED := 15

  /** The renderer: pc 0..4 before reading class pc + 1, 5 + i before reading bucket i, 17 before the total, 18
      done; with what it has read. */
  datatype Renderer = Renderer(pc: nat, classes: seq<nat>, buckets: seq<nat>, total: nat)

  /** Counters wrap at 64 bits; a route is taken to see fewer requests than that. */
  datatype State = State(count: nat, classes: seq<nat>, buckets: seq<nat>, observers: seq<Observer>, renderers: seq<Renderer>)

  predicate Init(s: State) {
    s == State(0, seq(CLASSES, _ => 0), seq(BUCKETS, _ => 0), [], [])
  }

  datatype Action = Arrive(r: Request) | Observe(i: nat) | StartRender | Render(i: nat)

  predicate Shaped(s: State) {
    |s.classes| == CLASSES && |s.buckets| == BUCKETS
    && forall i | 0 <= i < |s.renderers| :: |s.renderers[i].classes| == CLASSES && |s.renderers[i].buckets| == BUCKETS
  }

  predicate Enabled(s: State, a: Action) {
    Shaped(s) &&
    match a
    case Arrive(_) => true
    case Observe(i) => i < |s.observers| && s.observers[i].pc < FINISHED
    case StartRender => true
    case Render(i) => i < |s.renderers| && s.renderers[i].pc <= 17
  }

  /** One atomic addition of an observer. */
  function Added(s: State, o: Observer): State
    requires Shaped(s) && o.pc < FINISHED
  {
    if o.pc == 0 then s.(count := s.count + 1)
    else if o.pc == 1 then s
    else if o.pc == 2 then s.(classes := s.classes[ClassOf(o.r.status) := s.classes[ClassOf(o.r.status)] + 1])
    else if Under(o.r, o.pc - 3) then s.(buckets := s.buckets[o.pc - 3 := s.buckets[o.pc - 3] + 1])
    else s
  }

  /** One atomic load of a renderer. */
  function Loaded(s: State, d: Renderer): Renderer
    requires Shaped(s) && |d.classes| == CLASSES && |d.buckets| == BUCKETS && d.pc <= 17
  {
    if d.pc <= 4 then d.(pc := d.pc + 1, classes := d.classes[d.pc + 1 := s.classes[d.pc + 1]])
    else if d.pc <= 16 then d.(pc := d.pc + 1, buckets := d.buckets[d.pc - 5 := s.buckets[d.pc - 5]])
    else d.(pc := 18, total := s.count)
  }

  function Do(s: State, a: Action): State
    requires Enabled(s, a)
  {
    match a
    case Arrive(r) => s.(observers := s.observers + [Observer(r, 0)])
    case Observe(i) => Added(s, s.observers[i]).(observers := s.observers[i := s.observers[i].(pc := s.observers[i].pc + 1)])
    case StartRender => s.(renderers := s.renderers + [Renderer(0, seq(CLASSES, _ => 0), seq(BUCKETS, _ => 0), 0)])
    case Render(i) => s.(renderers := s.renderers[i := Loaded(s, s.renderers[i])])
  }

  predicate IsRun(run: seq<State>, acts: seq<Action>) {
    && |run| == |acts| + 1 && Init(run[0])
    && forall k | 0 <= k < |acts| :: Enabled(run[k], acts[k]) && run[k + 1] == Do(run[k], acts[k])
  }

  // ----- counting observers -----

  function One(b: bool): nat {
    if b then 1 else 0
  }

  function Tally(os: seq<Observer>, p: Observer -> bool): nat {
    if os == [] then 0 else One(p(os[0])) + Tally(os[1..], p)
  }

  lemma {:induction false} TallyUpdate(os: seq<Observer>, p: Observer -> bool, i: nat, o: Observer)
    requires i < |os|
    ensures Tally(os[i := o], p) + One(p(os[i])) == Tally(os, p) + One(p(o))
  {
    if i == 0 {
      assert os[i := o][1..] == os[1..];
    } else {
      assert os[i := o][1..] == os[1..][i - 1 := o];
      TallyUpdate(os[1..], p, i - 1, o);
    }
  }

  lemma {:induction false} TallyAppend(os: seq<Observer>, p: Observer -> bool, o: Observer)
    ensures Tally(os + [o], p) == Tally(os, p) + One(p(o))
  {
    if os == [] {
      assert os + [o] == [o] && [o][1..] == [];
    } else {
      assert (os + [o])[1..] == os[1..] + [o];
      TallyAppend(os[1..], p, o);
    }
  }

  lemma {:induction false} TallyLess(os: seq<Observer>, p: Observer -> bool, q: Observer -> bool)
    requires forall o :: p(o) ==> q(o)
    ensures Tally(os, p) <= Tally(os, q)
  {
    if os != [] { TallyLess(os[1..], p, q); }
  }

  function Counted(): Observer -> bool { (o: Observer) => o.pc >= 1 }
  function InClass(c: nat): Observer -> bool { (o: Observer) => o.pc >= 3 && ClassOf(o.r.status) == c }
  function InBucket(b: nat): Observer -> bool
    requires b < BUCKETS
  {
    (o: Observer) => o.pc > 3 + b && Under(o.r, b)
  }

  /** Every counter is the number of observers that have passed its addition; a bucket a renderer has read
      is at most the count, and at most the total once that is read. */
  predicate Inv(s: State) {
    && Shaped(s)
    && s.count == Tally(s.observers, Counted())
    && (forall c: nat | c < CLASSES :: s.classes[c] == Tally(s.observers, InClass(c)))
    && (forall b: nat | b < BUCKETS :: s.buckets[b] == Tally(s.observers, InBucket(b)))
    && (forall i | 0 <= i < |s.observers| :: s.observers[i].pc <= FINISHED)
    && forall i | 0 <= i < |s.renderers| :: RenderOk(s.count, s.renderers[i])
  }

  predicate RenderOk(count: nat, d: Renderer) {
    && d.pc <= 18 && |d.buckets| == BUCKETS
    && (d.pc <= 17 ==> forall b: nat | b < BUCKETS :: d.buckets[b] <= count)
    && (d.pc == 18 ==> forall b: nat | b < BUCKETS :: d.buckets[b] <= d.total)
    && (d.pc == 18 ==> d.total <= count)
  }

  /** No bucket is ever above the count: the count is raised first. */
  lemma BucketBelowCount(s: State, b: nat)
    requires Inv(s) && b < BUCKETS
    ensures s.buckets[b] <= s.count
  {
    TallyLess(s.observers, InBucket(b), Counted());
  }

  lemma ObserveInv(s: State, i: nat)
    requires Inv(s) && Enabled(s, Observe(i))
    ensures Inv(Do(s, Observe(i)))
  {
    hide Tally, ClassOf, Under;
    var o := s.observers[i];
    var o1 := o.(pc := o.pc + 1);
    var t := Do(s, Observe(i));
    assert t.observers == s.observers[i := o1];
    TallyUpdate(s.observers, Counted(), i, o1);
    forall c: nat | c < CLASSES ensures t.classes[c] == Tally(t.observers, InClass(c)) {
      TallyUpdate(s.observers, InClass(c), i, o1);
    }
    forall b: nat | b < BUCKETS ensures t.buckets[b] == Tally(t.observers, InBucket(b)) {
      TallyUpdate(s.observers, InBucket(b), i, o1);
    }
  }

  lemma ArriveInv(s: State, r: Request)
    requires Inv(s)
    ensures Enabled(s, Arrive(r)) && Inv(Do(s, Arrive(r)))
  {
    var o := Observer(r, 0);
    var t := Do(s, Arrive(r));
    TallyAppend(s.observers, Counted(), o);
    forall c: nat | c < CLASSES ensures t.classes[c] == Tally(t.observers, InClass(c)) {
      TallyAppend(s.observers, InClass(c), o);
    }
    forall b: nat | b < BUCKETS ensures t.buckets[b] == Tally(t.observers, InBucket(b)) {
      TallyAppend(s.observers, InBucket(b), o);
    }
  }

  lemma RenderInv(s: State, i: nat)
    requires Inv(s) && Enabled(s, Render(i))
    ensures Inv(Do(s, Render(i)))
  {
    hide Tally;
    var d := s.renderers[i];
    assert RenderOk(s.count, d);
    if 5 <= d.pc <= 16 { BucketBelowCount(s, d.pc - 5); }
    var d1 := Loaded(s, d);
    assert RenderOk(s.count, d1);
  }

  lemma StartInv(s: State)
    requires Inv(s)
    ensures Enabled(s, StartRender) && Inv(Do(s, StartRender))
  {
    hide Tally;
  }

  lemma StepInv(s: State, a: Action)
    requires Inv(s) && Enabled(s, a)
    ensures Inv(Do(s, a))
  {
    hide Inv, Do, Enabled;
    match a
    case Arrive(r) => ArriveInv(s, r);
    case Observe(i) => ObserveInv(s, i);
    case StartRender => StartInv(s);
    case Render(i) => RenderInv(s, i);
  }

  lemma {:induction false} RunInv(run: seq<State>, acts: seq<Action>, k: nat)
    requires IsRun(run, acts) && k < |run|
    ensures Inv(run[k])
  {
    hide Inv, Do, Enabled, Init;
    if k == 0 {
      InitInv(run[0]);
    } else {
      RunInv(run, acts, k - 1);
      StepInv(run[k - 1], acts[k - 1]);
    }
  }

  lemma InitInv(s: State)
    requires Init(s)
    ensures Inv(s)
  {}

  /** Whatever the interleaving, in a finished rendering no bucket is above the +Inf bucket. */
  lemma RenderedBelowInf(run: seq<State>, acts: seq<Action>, k: nat, i: nat, b: nat)
    requires IsRun(run, acts) && k < |run| && i < |run[k].renderers| && run[k].renderers[i].pc == 18 && b < BUCKETS
    ensures |run[k].renderers[i].buckets| == BUCKETS && run[k].renderers[i].buckets[b] <= run[k].renderers[i].total
  {
    RunInv(run, acts, k);
    assert RenderOk(run[k].count, run[k].renderers[i]);
  }

  // ----- quiescence -----

  predicate Quiet(s: State) {
    forall i | 0 <= i < |s.observers| :: s.observers[i].pc == FINISHED
  }

  function Requests(os: seq<Observer>): seq<Request> {
    seq(|os|, i requires 0 <= i < |os| => os[i].r)
  }

  /** How many requests satisfy q. */
  function Number(rs: seq<Request>, q: Request -> bool): nat {
    if rs == [] then 0 else One(q(rs[0])) + Number(rs[1..], q)
  }

  lemma {:induction false} TallyIsNumber(os: seq<Observer>, p: Observer -> bool, q: Request -> bool)
    requires forall o | o in os :: p(o) == q(o.r)
    ensures Tally(os, p) == Number(Requests(os), q)
  {
    if os != [] {
      assert Requests(os)[1..] == Requests(os[1..]);
      TallyIsNumber(os[1..], p, q);
    }
  }

  lemma {:induction false} NumberLess(rs: seq<Request>, p: Request -> bool, q: Request -> bool)
    requires forall r :: p(r) ==> q(r)
    ensures Number(rs, p) <= Number(rs, q)
  {
    if rs != [] { NumberLess(rs[1..], p, q); }
  }

  lemma {:induction false} NumberAll(rs: seq<Request>)
    ensures Number(rs, r => true) == |rs|
  {
    if rs != [] { NumberAll(rs[1..]); }
  }

  /** Class 2 is 200 to 299, and so on to class 5; class 0 is whatever lies outside 100 to 599. */
  predicate OfClass(r: Request, c: nat) {
    if c == 0 then r.status < 100 || 600 <= r.status else 100 * c <= r.status < 100 * c + 100
  }

  lemma ClassIs(r: Request, c: nat)
    requires c < 6
    ensures ClassOf(r.status) == c <==> OfClass(r, c)
  {}

  /** At or below the b-th of twelve bounds, in milliseconds. */
  predicate AtMost(r: Request, b: nat)
    requires b < 12
  {
    r.millis <= [1.0, 5.0, 10.0, 25.0, 50.0, 100.0, 250.0, 500.0, 1000.0, 2500.0, 5000.0, 10000.0][b]
  }

  lemma BoundIs(r: Request, b: nat)
    requires b < 12
    ensures Under(r, b) <==> AtMost(r, b)
  {}

  function HasClass(c: nat): Request -> bool { (r: Request) => OfClass(r, c) }
  function IsUnder(b: nat): Request -> bool
    requires b < 12
  {
    (r: Request) => AtMost(r, b)
  }

  lemma {:induction false} ClassesPartition(rs: seq<Request>)
    ensures Number(rs, HasClass(0)) + Number(rs, HasClass(1)) + Number(rs, HasClass(2)) + Number(rs, HasClass(3))
          + Number(rs, HasClass(4)) + Number(rs, HasClass(5)) == |rs|
  {
    if rs != [] {
      ClassesPartition(rs[1..]);
      forall c: nat | c < 6 ensures ClassOf(rs[0].status) == c <==> OfClass(rs[0], c) { ClassIs(rs[0], c); }
    }
  }

  lemma BoundsAscend(a: nat, b: nat)
    requires a <= b < BUCKETS
    ensures BOUNDS[a] <= BOUNDS[b]
  {}

  lemma AtMostAscends(a: nat, b: nat)
    requires a <= b < 12
    ensures forall r :: AtMost(r, a) ==> AtMost(r, b)
  {}

  /** With no observation in progress: the count is the number of requests, bucket i counts exactly those at
      or below its bound, the buckets ascend and end at most at the count, and the classes add up to it. */
  lemma QuietIsExact(run: seq<State>, acts: seq<Action>, k: nat)
    requires IsRun(run, acts) && k < |run| && Quiet(run[k])
    ensures var s, rs := run[k], Requests(run[k].observers);
            && Shaped(s) && s.count == |rs|
            && (forall b: nat | b < 12 :: s.buckets[b] == Number(rs, IsUnder(b)))
            && (forall a: nat, b: nat | a <= b < 12 :: s.buckets[a] <= s.buckets[b] <= s.count)
            && (forall c: nat | c < 6 :: s.classes[c] == Number(rs, HasClass(c)))
            && s.classes[0] + s.classes[1] + s.classes[2] + s.classes[3] + s.classes[4] + s.classes[5] == s.count
  {
    RunInv(run, acts, k);
    var s, rs := run[k], Requests(run[k].observers);
    assert forall o | o in s.observers :: o.pc == FINISHED;
    TallyIsNumber(s.observers, Counted(), r => true);
    NumberAll(rs);
    forall b: nat | b < 12 ensures s.buckets[b] == Number(rs, IsUnder(b)) {
      forall o | o in s.observers ensures InBucket(b)(o) == IsUnder(b)(o.r) { BoundIs(o.r, b); }
      TallyIsNumber(s.observers, InBucket(b), IsUnder(b));
    }
    forall c: nat | c < 6 ensures s.classes[c] == Number(rs, HasClass(c)) {
      forall o | o in s.observers ensures InClass(c)(o) == HasClass(c)(o.r) { ClassIs(o.r, c); }
      TallyIsNumber(s.observers, InClass(c), HasClass(c));
    }
    forall a: nat, b: nat | a <= b < 12 ensures s.buckets[a] <= s.buckets[b] <= s.count {
      AtMostAscends(a, b);
      NumberLess(rs, IsUnder(a), IsUnder(b));
      NumberLess(rs, IsUnder(b), r => true);
    }
    ClassesPartition(rs);
  }

  // ----- buckets of one rendering -----

  /** Renderer i reads bucket b in step k. */
  predicate Reads(run: seq<State>, acts: seq<Action>, k: nat, i: nat, b: nat)
    requires k < |acts| < |run|
  {
    b < BUCKETS && acts[k] == Render(i) && i < |run[k].renderers| && run[k].renderers[i].pc == 5 + b
  }

  /** What was read stays. */
  lemma {:induction false} RenderedIsRead(run: seq<State>, acts: seq<Action>, k: nat, i: nat, b: nat, m: nat)
    requires IsRun(run, acts) && k < |acts| && Reads(run, acts, k, i, b) && k < m < |run|
    ensures b < |run[k].buckets| && i < |run[m].renderers| && |run[m].renderers[i].buckets| == BUCKETS && run[m].renderers[i].pc > 5 + b
    ensures run[m].renderers[i].buckets[b] == run[k].buckets[b]
    decreases m
  {
    assert Enabled(run[k], acts[k]) && Enabled(run[m - 1], acts[m - 1]);
    if k + 1 < m { RenderedIsRead(run, acts, k, i, b, m - 1); }
  }

  lemma StepGrows(s: State, a: Action, b: nat)
    requires Enabled(s, a) && b < BUCKETS
    ensures b < |s.buckets| && b < |Do(s, a).buckets| && s.buckets[b] <= Do(s, a).buckets[b]
  {
    hide Tally;
  }

  /** Counters only grow. */
  lemma {:induction false} BucketsGrow(run: seq<State>, acts: seq<Action>, k: nat, m: nat, b: nat)
    requires IsRun(run, acts) && k <= m < |run| && b < BUCKETS && |run[k].buckets| == BUCKETS
    ensures b < |run[m].buckets| && run[k].buckets[b] <= run[m].buckets[b]
    decreases m
  {
    hide Do, Enabled, Init;
    if k < m {
      BucketsGrow(run, acts, k, m - 1, b);
      StepGrows(run[m - 1], acts[m - 1], b);
    }
  }

  /** Past bucket a and not yet past bucket b. */
  function Between(a: nat, b: nat): Observer -> bool
    requires a < BUCKETS && b < BUCKETS
  {
    (o: Observer) => 3 + a < o.pc <= 3 + b && Under(o.r, a)
  }

  lemma {:induction false} TallySplit(os: seq<Observer>, p: Observer -> bool, q: Observer -> bool, d: Observer -> bool)
    requires forall o :: p(o) ==> q(o) || d(o)
    ensures Tally(os, p) <= Tally(os, q) + Tally(os, d)
  {
    if os != [] { TallySplit(os[1..], p, q, d); }
  }

  /** Whatever the interleaving, a rendered bucket exceeds a later one by at most the observations that were between
      the two buckets when the later one was read: with none in between, rendered buckets ascend. */
  lemma RenderedAscends(run: seq<State>, acts: seq<Action>, ka: nat, kb: nat, i: nat, a: nat, b: nat, m: nat)
    requires IsRun(run, acts) && ka < kb < m < |run| && kb < |acts|
    requires Reads(run, acts, ka, i, a) && Reads(run, acts, kb, i, b)
    ensures |run[m].renderers| > i && |run[m].renderers[i].buckets| == BUCKETS
    ensures run[m].renderers[i].buckets[a] <= run[m].renderers[i].buckets[b] + Tally(run[kb].observers, Between(a, b))
  {
    RenderedIsRead(run, acts, ka, i, a, m);
    RenderedIsRead(run, acts, kb, i, b, m);
    RenderedIsRead(run, acts, ka, i, a, kb);
    RunInv(run, acts, ka);
    BucketsGrow(run, acts, ka, kb, a);
    RunInv(run, acts, kb);
    BoundsAscend(a, b);
    TallySplit(run[kb].observers, InBucket(a), InBucket(b), Between(a, b));
  }

  /** A bucket read with no observation in progress is exact in the rendering. */
  lemma QuietRendering(run: seq<State>, acts: seq<Action>, k: nat, i: nat, b: nat, m: nat)
    requires IsRun(run, acts) && k < |acts| && Reads(run, acts, k, i, b) && k < m < |run| && Quiet(run[k])
    ensures i < |run[m].renderers| && |run[m].renderers[i].buckets| == BUCKETS
    ensures run[m].renderers[i].buckets[b] == Number(Requests(run[k].observers), IsUnder(b))
  {
    RenderedIsRead(run, acts, k, i, b, m);
    QuietIsExact(run, acts, k);
  }

  // ----- a rendering whose buckets descend -----

  const FAST := Request(200, 1.0)

  function Start(): State {
    State(0, seq(CLASSES, _ => 0), seq(BUCKETS, _ => 0), [], [])
  }

  /** A fast request observed as far as pc beside a rendering as far as `at`. */
  function Racing(pc: nat, count: nat, class2: nat, bucket0: nat, at: nat, read0: nat): State {
    State(count, seq(CLASSES, _ => 0)[2 := class2], seq(BUCKETS, _ => 0)[0 := bucket0], [Observer(FAST, pc)],
          [Renderer(at, seq(CLASSES, _ => 0)[2 := if at >= 2 then class2 else 0], seq(BUCKETS, _ => 0)[0 := read0], 0)])
  }

  lemma RacingStarts() returns (run: seq<State>, acts: seq<Action>)
    ensures IsRun(run, acts) && run[|run| - 1] == Racing(0, 0, 0, 0, 0, 0)
  {
    var s0 := Start();
    var s1 := Do(s0, Arrive(FAST));
    var s2 := Do(s1, StartRender);
    run, acts := [s0, s1, s2], [Arrive(FAST), StartRender];
    var zeros := seq(CLASSES, _ => 0);
    assert zeros[2 := 0] == zeros;
    var none := seq(BUCKETS, _ => 0);
    assert none[0 := 0] == none;
    assert s2 == Racing(0, 0, 0, 0, 0, 0);
  }

  lemma ObserveRaces(pc: nat)
    requires pc < 4
    ensures var s := Racing(pc, One(pc >= 1), One(pc >= 3), One(pc >= 4), 0, 0);
            Enabled(s, Observe(0)) && Do(s, Observe(0)) == Racing(pc + 1, 1, One(pc >= 2), One(pc >= 3), 0, 0)
  {
    var s := Racing(pc, One(pc >= 1), One(pc >= 3), One(pc >= 4), 0, 0);
    var t := Do(s, Observe(0));
    assert t.observers == [Observer(FAST, pc + 1)];
    assert t.classes == seq(CLASSES, _ => 0)[2 := One(pc >= 2)];
    assert t.buckets == seq(BUCKETS, _ => 0)[0 := One(pc >= 3)];
  }

  lemma RenderRaces(at: nat)
    requires at < 7
    ensures var s := Racing(4, 1, 1, 1, at, One(at >= 6));
            Enabled(s, Render(0)) && Do(s, Render(0)) == Racing(4, 1, 1, 1, at + 1, One(at >= 5))
  {
    var s := Racing(4, 1, 1, 1, at, One(at >= 6));
    var d := Loaded(s, s.renderers[0]);
    assert d.classes == seq(CLASSES, _ => 0)[2 := if at + 1 >= 2 then 1 else 0];
    assert d.buckets == seq(BUCKETS, _ => 0)[0 := One(at >= 5)];
    assert Do(s, Render(0)).renderers == [d];
  }

  /** They need not ascend: a rendering that reads bucket 0 after an observation's addition to it and bucket 1 before
      the addition to that shows 1 and then 0. */
  lemma RenderedMayDescend() returns (run: seq<State>, acts: seq<Action>)
    ensures IsRun(run, acts)
    ensures var s := run[|run| - 1];
            && |s.renderers| == 1 && |s.renderers[0].buckets| == BUCKETS && s.renderers[0].pc == 7
            && s.renderers[0].buckets[0] == 1 && s.renderers[0].buckets[1] == 0
  {
    run, acts := RacingStarts();
    hide Racing, Enabled, Do;
    var pc := 0;
    while pc < 4
      invariant pc <= 4 && IsRun(run, acts) && run[|run| - 1] == Racing(pc, One(pc >= 1), One(pc >= 3), One(pc >= 4), 0, 0)
    {
      ObserveRaces(pc);
      run, acts := OneMore(run, acts, Observe(0));
      pc := pc + 1;
    }
    var at := 0;
    while at < 7
      invariant at <= 7 && IsRun(run, acts) && run[|run| - 1] == Racing(4, 1, 1, 1, at, One(at >= 6))
    {
      RenderRaces(at);
      run, acts := OneMore(run, acts, Render(0));
      at := at + 1;
    }
    RaceEnds();
  }

  lemma RaceEnds()
    ensures var s := Racing(4, 1, 1, 1, 7, 1);
            && |s.renderers| == 1 && |s.renderers[0].buckets| == BUCKETS && s.renderers[0].pc == 7
            && s.renderers[0].buckets[0] == 1 && s.renderers[0].buckets[1] == 0
  {
  }

  lemma OneMore(run: seq<State>, acts: seq<Action>, a: Action) returns (run1: seq<State>, acts1: seq<Action>)
    requires IsRun(run, acts) && Enabled(run[|run| - 1], a)
    ensures IsRun(run1, acts1) && run1[|run1| - 1] == Do(run[|run| - 1], a)
  {
    run1, acts1 := run + [Do(run[|run| - 1], a)], acts + [a];
    forall k | 0 <= k < |acts1| ensures Enabled(run1[k], acts1[k]) && run1[k + 1] == Do(run1[k], acts1[k]) {
      if k < |acts| { assert run1[k] == run[k] && run1[k + 1] == run[k + 1] && acts1[k] == acts[k]; }
    }
  }
}
