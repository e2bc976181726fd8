/** A route's counters as the object the program updates in place. */
module RouteCounters {
  import opened Metrics

  class RouteMetric {
    var count: nat
    const classes: array<nat>
    const buckets: array<nat>

    ghost predicate Valid()
      reads this
    {
      classes.Length == CLASSES && buckets.Length == BUCKETS && classes != buckets
    }

    /** The counters as a state of the step model with nothing in progress. */
    ghost function Counters(): State
      reads this, classes, buckets
    {
      State(count, classes[..], buckets[..], [], [])
    }

    constructor ()
      ensures Valid() && fresh(classes) && fresh(buckets) && Init(Counters())
    {
      count := 0;
      classes := new nat[CLASSES](_ => 0);
      buckets := new nat[BUCKETS](_ => 0);
      new;
      assert classes[..] == seq(CLASSES, _ => 0) && buckets[..] == seq(BUCKETS, _ => 0);
    }

    /** One observation: the count, the class, and every bucket whose bound it does not exceed. */
    method Observe(r: Request)
      requires Valid()
      modifies this`count, classes, buckets
      ensures Valid() && Counters() == AddedFrom(old(Counters()), r, 0)
    {
      ghost var before := Counters();
      count := count + 1;
      var cls := ClassOf(r.status);
      classes[cls] := classes[cls] + 1;
      FirstThree(before, r);
      assert Counters() == Added(Added(Added(before, Observer(r, 0)), Observer(r, 1)), Observer(r, 2));
      FillBuckets(r);
    }

    method FillBuckets(r: Request)
      requires Valid()
      modifies buckets
      ensures Counters() == AddedFrom(old(Counters()), r, 3)
    {
      hide AddedFrom;
      var i := 0;
      while i < BUCKETS
        invariant i <= BUCKETS && Shaped(Counters())
        invariant AddedFrom(Counters(), r, 3 + i) == AddedFrom(old(Counters()), r, 3)
      {
        ghost var was := Counters();
        if r.millis <= BOUNDS[i] {
          buckets[i] := buckets[i] + 1;
        }
        assert Counters() == Added(was, Observer(r, 3 + i));
        NextAdded(was, r, 3 + i);
        i := i + 1;
      }
      LastAdded(Counters(), r);
    }
  }

  lemma NextAdded(s: State, r: Request, pc: nat)
    requires Shaped(s) && pc < FINISHED
    ensures Shaped(Added(s, Observer(r, pc))) && AddedFrom(s, r, pc) == AddedFrom(Added(s, Observer(r, pc)), r, pc + 1)
  {}

  lemma LastAdded(s: State, r: Request)
    requires Shaped(s)
    ensures AddedFrom(s, r, FINISHED) == s
  {}

  /** The additions of an observer from pc on, one after another. */
  function AddedFrom(s: State, r: Request, pc: nat): State
    requires Shaped(s) && pc <= FINISHED
    decreases FINISHED - pc
  {
    if pc == FINISHED then s else AddedFrom(Added(s, Observer(r, pc)), r, pc + 1)
  }

  lemma FirstThree(s: State, r: Request)
    requires Shaped(s)
    ensures AddedFrom(s, r, 0) == AddedFrom(Added(Added(Added(s, Observer(r, 0)), Observer(r, 1)), Observer(r, 2)), r, 3)
  {
    var a := Added(s, Observer(r, 0));
    var b := Added(a, Observer(r, 1));
    assert AddedFrom(a, r, 1) == AddedFrom(b, r, 2);
    assert AddedFrom(b, r, 2) == AddedFrom(Added(b, Observer(r, 2)), r, 3);
  }
}
