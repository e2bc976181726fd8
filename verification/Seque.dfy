/** seque: one producer goroutine feeding a bounded channel, one lazy consumer
    (pkg/corelib/parallel_builtins.go), as a transition system. */
module Seque {
  import opened Options

  /** Asking the source for its i-th element: there is one, it has ended, or realizing it panics. */
  datatype Event<X, E> = Elem(x: X) | End | Fail(e: E)

  datatype Config<!X, !E> = Config(asked: int, source: nat -> Event<X, E>)

  /** The channel's capacity: at least one. */
  function Capacity<X, E>(c: Config<X, E>): (n: nat)
    ensures n >= 1
  {
    if c.asked < 1 then 1 else c.asked
  }

  datatype Item<X, E> = Val(x: X) | Err(e: E)

  /** The producer: about to realize element i, holding it, holding the panic, about to close, gone. */
  datatype Producer<X, E> = Realizing(i: nat) | Holding(i: nat, x: X) | HoldingError(i: nat, e: E) | Closing(i: nat) | Gone(i: nat)

  /** The consumer between pulls, inside one, or told the sequence is over. */
  datatype Consumer = Idle | Pulling | Over

  datatype State<X, E> = State(producer: Producer<X, E>, channel: seq<Item<X, E>>, closed: bool, consumer: Consumer,
                               received: seq<X>, raised: seq<E>)

  predicate Init<X(==), E(==)>(s: State<X, E>) {
    s == State(Realizing(0), [], false, Idle, [], [])
  }

  datatype Action = Realize | Send | SendError | Close | Pull | Receive | Finish

  predicate Enabled<X, E>(c: Config<X, E>, s: State<X, E>, a: Action) {
    match a
    case Realize => s.producer.Realizing?
    case Send => s.producer.Holding? && |s.channel| < Capacity(c)
    case SendError => s.producer.HoldingError? && |s.channel| < Capacity(c)
    case Close => s.producer.Closing?
    case Pull => s.consumer.Idle?
    case Receive => s.consumer.Pulling? && s.channel != []
    case Finish => s.consumer.Pulling? && s.channel == [] && s.closed
  }

  function Do<X, E>(c: Config<X, E>, s: State<X, E>, a: Action): State<X, E>
    requires Enabled(c, s, a)
  {
    match a
    case Realize =>
      (match c.source(s.producer.i)
       case Elem(x) => s.(producer := Holding(s.producer.i, x))
       case End => s.(producer := Closing(s.producer.i))
       case Fail(e) => s.(producer := HoldingError(s.producer.i, e)))
    case Send => s.(producer := Realizing(s.producer.i + 1), channel := s.channel + [Val(s.producer.x)])
    case SendError => s.(producer := Closing(s.producer.i), channel := s.channel + [Err(s.producer.e)])
    case Close => s.(producer := Gone(s.producer.i), closed := true)
    case Pull => s.(consumer := Pulling)
    case Receive =>
      (match s.channel[0]
       case Val(x) => s.(channel := s.channel[1..], received := s.received + [x], consumer := Idle)
       // the pull panics; the thunk stays and may be pulled again
       case Err(e) => s.(channel := s.channel[1..], raised := s.raised + [e], consumer := Idle))
    case Finish => s.(consumer := Over)
  }

  /** The states a run passes through, from the initial one. */
  predicate IsRun<X(==), E(==)>(c: Config<X, E>, run: seq<State<X, E>>, acts: seq<Action>) {
    && |run| == |acts| + 1 && Init(run[0])
    && forall k | 0 <= k < |acts| :: Enabled(c, run[k], acts[k]) && run[k + 1] == Do(c, run[k], acts[k])
  }

  // ----- the invariant -----

  /** The first k elements of the source. */
  ghost predicate IsPrefix<X, E>(c: Config<X, E>, xs: seq<X>) {
    forall k | 0 <= k < |xs| :: c.source(k) == Elem(xs[k])
  }

  function Own<X, E>(item: Item<X, E>): seq<X> {
    if item.Val? then [item.x] else []
  }

  function Vals<X, E>(items: seq<Item<X, E>>): seq<X> {
    if items == [] then [] else Own(items[0]) + Vals(items[1..])
  }

  /** Values, and after them at most one error. */
  predicate ErrorLast<X, E>(items: seq<Item<X, E>>) {
    forall k | 0 <= k < |items| - 1 :: items[k].Val?
  }

  predicate HasError<X, E>(items: seq<Item<X, E>>) {
    items != [] && items[|items| - 1].Err?
  }

  /** All that was realized and is not lost: received, then in the channel. */
  function Delivered<X, E>(s: State<X, E>): seq<X> {
    s.received + Vals(s.channel)
  }

  ghost predicate Inv<X(!new), E(!new)>(c: Config<X, E>, s: State<X, E>) {
    && |s.channel| <= Capacity(c) && ErrorLast(s.channel)
    && IsPrefix(c, Delivered(s)) && s.producer.i == |Delivered(s)|
    && (s.producer.Holding? ==> c.source(s.producer.i) == Elem(s.producer.x))
    && (s.producer.HoldingError? ==> c.source(s.producer.i) == Fail(s.producer.e))
    && (s.closed <==> s.producer.Gone?)
    // an error is in one place: with the producer, in the channel, or raised
    && (HasError(s.channel) ==> s.raised == [] && c.source(s.producer.i) == Fail(s.channel[|s.channel| - 1].e))
    && (s.raised != [] ==> |s.raised| == 1 && s.channel == [] && c.source(s.producer.i) == Fail(s.raised[0]))
    && (HasError(s.channel) || s.raised != [] ==> s.producer.Closing? || s.producer.Gone?)
    && (s.producer.Closing? || s.producer.Gone? ==>
          c.source(s.producer.i).End? || HasError(s.channel) || s.raised != [])
    && (s.consumer.Over? ==> s.closed && s.channel == [])
  }

  lemma {:induction false} ValsAppend<X, E>(a: seq<Item<X, E>>, b: seq<Item<X, E>>)
    ensures Vals(a + b) == Vals(a) + Vals(b)
  {
    if a == [] {
      assert a + b == b;
    } else {
      hide Own;
      ValsAppend(a[1..], b);
      assert (a + b)[1..] == a[1..] + b && (a + b)[0] == a[0];
      assert Own(a[0]) + (Vals(a[1..]) + Vals(b)) == Own(a[0]) + Vals(a[1..]) + Vals(b);
    }
  }

  lemma {:induction false} ValsCount<X, E>(items: seq<Item<X, E>>)
    requires ErrorLast(items)
    ensures |Vals(items)| == if HasError(items) then |items| - 1 else |items|
  {
    if items != [] { ValsCount(items[1..]); }
  }

  lemma InitInv<X(!new), E(!new)>(c: Config<X, E>, s: State<X, E>)
    requires Init(s)
    ensures Inv(c, s)
  {}

  lemma SendInv<X(!new), E(!new)>(c: Config<X, E>, s: State<X, E>, item: Item<X, E>)
    requires Inv(c, s) && !HasError(s.channel)
    ensures Vals(s.channel + [item]) == Vals(s.channel) + (if item.Val? then [item.x] else [])
    ensures ErrorLast(s.channel + [item])
  {
    ValsAppend(s.channel, [item]);
    assert [item][1..] == [];
  }

  lemma SendStep<X(!new), E(!new)>(c: Config<X, E>, s: State<X, E>, a: Action)
    requires Inv(c, s) && Enabled(c, s, a) && (a.Send? || a.SendError?)
    ensures Inv(c, Do(c, s, a))
  {
    var item := if a.Send? then Val(s.producer.x) else Err(s.producer.e);
    SendInv(c, s, item);
    assert Delivered(Do(c, s, a)) == Delivered(s) + (if item.Val? then [item.x] else []);
    hide Vals;
  }

  lemma ReceiveStep<X(!new), E(!new)>(c: Config<X, E>, s: State<X, E>)
    requires Inv(c, s) && Enabled(c, s, Receive)
    ensures Inv(c, Do(c, s, Receive))
  {
    assert Delivered(Do(c, s, Receive)) == Delivered(s);
  }

  lemma OtherStep<X(!new), E(!new)>(c: Config<X, E>, s: State<X, E>, a: Action)
    requires Inv(c, s) && Enabled(c, s, a) && (a.Realize? || a.Close? || a.Pull? || a.Finish?)
    ensures Inv(c, Do(c, s, a))
  {
    hide Vals;
    assert Delivered(Do(c, s, a)) == Delivered(s);
  }

  /** Every step keeps the invariant. */
  lemma StepInv<X(!new), E(!new)>(c: Config<X, E>, s: State<X, E>, a: Action)
    requires Inv(c, s) && Enabled(c, s, a)
    ensures Inv(c, Do(c, s, a))
  {
    hide Inv, Do, Enabled;
    match a
    case Send => SendStep(c, s, a);
    case SendError => SendStep(c, s, a);
    case Receive => ReceiveStep(c, s);
    case _ => OtherStep(c, s, a);
  }

  lemma {:induction false} RunInv<X(!new), E(!new)>(c: Config<X, E>, run: seq<State<X, E>>, acts: seq<Action>, k: nat)
    requires IsRun(c, run, acts) && k < |run|
    ensures Inv(c, run[k])
  {
    hide Inv, Do, Enabled, Init;
    if k == 0 {
      InitInv(c, run[0]);
    } else {
      RunInv(c, run, acts, k - 1);
      StepInv(c, run[k - 1], acts[k - 1]);
    }
  }

  // ----- what it gives -----

  /** How many elements have been realized. */
  function Realized<X, E>(s: State<X, E>): nat {
    s.producer.i + (if s.producer.Holding? then 1 else 0)
  }

  /** In every run: the consumer has a prefix of the source in order; the producer is at most n + 1 elements
      ahead; a failure is raised once, and only after every element before it; and the end is reported
      only when everything has been delivered. */
  lemma SequeDelivers<X(!new), E(!new)>(c: Config<X, E>, run: seq<State<X, E>>, acts: seq<Action>, k: nat)
    requires IsRun(c, run, acts) && k < |run|
    ensures var s := run[k];
            && (forall j | 0 <= j < |s.received| :: c.source(j) == Elem(s.received[j]))
            && Realized(s) <= |s.received| + (if c.asked < 1 then 1 else c.asked) + 1
            && (s.raised != [] ==> |s.raised| == 1 && c.source(|s.received|) == Fail(s.raised[0]))
            && (s.consumer.Over? ==> c.source(|s.received|).End? || s.raised != [])
  {
    RunInv(c, run, acts, k);
    var s := run[k];
    ValsCount(s.channel);
    assert forall j | 0 <= j < |s.received| :: Delivered(s)[j] == s.received[j];
  }

  /** While the consumer is pulling something can always move, whatever the source gives. */
  lemma NoDeadlock<X(!new), E(!new)>(c: Config<X, E>, run: seq<State<X, E>>, acts: seq<Action>, k: nat)
    requires IsRun(c, run, acts) && k < |run| && run[k].consumer.Pulling?
    ensures exists a: Action :: a != Pull && Enabled(c, run[k], a)
  {
    RunInv(c, run, acts, k);
    var s := run[k];
    if s.channel != [] { assert Enabled(c, s, Receive); }
    else if s.closed { assert Enabled(c, s, Finish); }
    else {
      var a := match s.producer
        case Realizing(_) => Realize
        case Holding(_, _) => Send
        case HoldingError(_, _) => SendError
        case Closing(_) => Close
        case Gone(_) => Finish;
      assert Enabled(c, s, a);
    }
  }

  /** Steps the producer can still take before the consumer takes something out. */
  function Slack<X, E>(c: Config<X, E>, s: State<X, E>): int {
    2 * (Capacity(c) - |s.channel|) +
    match s.producer
    case Realizing(_) => 3
    case Holding(_, _) => 2
    case HoldingError(_, _) => 2
    case Closing(_) => 1
    case Gone(_) => 0
  }

  /** The producer cannot run for ever alone: each of its steps uses up slack, which is never negative, so a
      pulling consumer is served after boundedly many. */
  lemma ProducerIsBounded<X(!new), E(!new)>(c: Config<X, E>, s: State<X, E>, a: Action)
    requires Inv(c, s) && Enabled(c, s, a) && (a.Realize? || a.Send? || a.SendError? || a.Close?)
    ensures 0 <= Slack(c, Do(c, s, a)) && Slack(c, s) <= 2 * (if c.asked < 1 then 1 else c.asked) + 3
    ensures Slack(c, Do(c, s, a)) < Slack(c, s)
  {
    StepInv(c, s, a);
  }
}
