/** The seq-walking fold and the transducers (pkg/corelib/hotpath_builtins.go). */
module Reduce {
  import opened LazySeqs
  import opened Options

  /** What a step function returns: an accumulator, or one boxed by `reduced`. */
  datatype Step<A> = Go(acc: A) | Reduced(acc: A)

  /** A step function with effects: S stands for everything it can see and change. */
  type Rf<!S, !A, !X> = (S, A, X) -> (S, Step<A>)

  /** The plain fold over a list, stopping at the first `reduced`. */
  function Fold<S, A, X>(f: Rf<S, A, X>, st: S, acc: A, xs: seq<X>): (S, Step<A>)
    decreases xs
  {
    if xs == [] then (st, Go(acc))
    else
      var (st1, r) := f(st, acc, xs[0]);
      if r.Reduced? then (st1, r) else Fold(f, st1, r.acc, xs[1..])
  }

  /** One call of f as the fold makes it: on the i-th element, with what the call before left. */
  ghost predicate Called<S, A, X>(f: Rf<S, A, X>, xs: seq<X>, sts: seq<S>, accs: seq<A>, i: nat)
    requires i < |xs| && i + 1 < |sts| && |accs| == |sts|
  {
    f(sts[i], accs[i], xs[i]) == (sts[i + 1], Go(accs[i + 1]))
  }

  /** The fold calls f on one element after another and stops at the first `reduced`, whose box is the answer. */
  lemma {:induction false} FoldCalls<S, A, X>(f: Rf<S, A, X>, st: S, acc: A, xs: seq<X>) returns (sts: seq<S>, accs: seq<A>)
    ensures 1 <= |sts| == |accs| <= |xs| + 1 && sts[0] == st && accs[0] == acc
    ensures forall i: nat | i < |sts| - 1 :: Called(f, xs, sts, accs, i)
    ensures var n := |sts| - 1;
            var r := Fold(f, st, acc, xs);
            if n == |xs| then r == (sts[n], Go(accs[n])) else r.1.Reduced? && r == f(sts[n], accs[n], xs[n])
    decreases xs
  {
    sts, accs := [st], [acc];
    if xs != [] {
      var (st1, r) := f(st, acc, xs[0]);
      if r.Go? {
        var sts1, accs1 := FoldCalls(f, st1, r.acc, xs[1..]);
        sts, accs := [st] + sts1, [acc] + accs1;
        forall i: nat | i < |sts| - 1 ensures Called(f, xs, sts, accs, i) {
          if i > 0 { assert Called(f, xs[1..], sts1, accs1, i - 1); }
        }
      }
    }
  }

  lemma {:induction false} FoldAppend<S, A, X>(f: Rf<S, A, X>, st: S, acc: A, xs: seq<X>, ys: seq<X>)
    ensures Fold(f, st, acc, xs + ys) ==
            var (st1, r) := Fold(f, st, acc, xs);
            if r.Reduced? then (st1, r) else Fold(f, st1, r.acc, ys)
    decreases xs
  {
    if xs == [] {
      assert xs + ys == ys;
    } else {
      var (st1, r) := f(st, acc, xs[0]);
      assert (xs + ys)[0] == xs[0] && (xs + ys)[1..] == xs[1..] + ys;
      if r.Go? { FoldAppend(f, st1, r.acc, xs[1..], ys); }
    }
  }

  /** The answer of reduce; `Waiting` when the source has not produced its next part. */
  datatype Answer<A> = Result(v: A) | Waiting

  /** What folding a sequence gives: its elements folded, and an open end waited for. */
  function FoldSeq<S, A, X>(f: Rf<S, A, X>, st: S, acc: A, s: Seq<X>): (S, Answer<A>) {
    var (st1, r) := Fold(f, st, acc, Elems(s));
    (st1, if r.Go? && Open(s) then Waiting else Result(r.acc))
  }

  /** ISeq.Next: the rest after the first element, forced. */
  function Next<X>(s: Seq<X>): Seq<X>
    requires s.Cons? || (s.Chunk? && s.items != [])
  {
    if s.Cons? then Force(s.tail)
    else if |s.items| > 1 then Chunk(s.items[1..], s.tail)
    else Force(s.tail)
  }

  function First<X>(s: Seq<X>): X
    requires s.Cons? || (s.Chunk? && s.items != [])
  {
    if s.Cons? then s.head else s.items[0]
  }

  lemma NextIs<X>(s: Seq<X>)
    requires s.Cons? || (s.Chunk? && s.items != [])
    ensures Elems(s) == [First(s)] + Elems(Next(s)) && Open(Next(s)) == Open(s)
    ensures !Next(s).Lazy? && (NoEmptyChunk(s) ==> NoEmptyChunk(Next(s)))
  {
    ForceSame(s.tail);
    if s.Chunk? { assert s.items == [s.items[0]] + s.items[1..]; }
  }

  /** reduce with an initial value: chunks walked by index, cells one at a time. */
  method Reduce3<S, A, X>(f: Rf<S, A, X>, st0: S, init: A, coll: Seq<X>) returns (st: S, r: Answer<A>)
    ensures (st, r) == FoldSeq(f, st0, init, coll)
  {
    st, r := Walk(f, st0, init, Force(coll));
    ForceSame(coll);
  }

  /** reduce without one: the first element is the initial value, and an empty source asks f for one. */
  method Reduce2<S, X>(f: Rf<S, X, X>, unit: S -> (S, X), st0: S, coll: Seq<X>) returns (st: S, r: Answer<X>)
    requires NoEmptyChunk(coll)
    ensures Elems(coll) == [] ==>
              (st, r) == if Open(coll) then (st0, Waiting) else (unit(st0).0, Result(unit(st0).1))
    ensures Elems(coll) != [] ==>
              var (st1, step) := Fold(f, st0, Elems(coll)[0], Elems(coll)[1..]);
              (st, r) == (st1, if step.Go? && Open(coll) then Waiting else Result(step.acc))
  {
    ForceSame(coll);
    var s := Force(coll);
    if s.Nil? {
      var (st1, v) := unit(st0);
      return st1, Result(v);
    }
    if s.Pending? { return st0, Waiting; }
    NextIs(s);
    assert Elems(s)[1..] == Elems(Next(s));
    st, r := Walk(f, st0, First(s), Next(s));
  }

  method Walk<S, A, X>(f: Rf<S, A, X>, st0: S, acc0: A, s0: Seq<X>) returns (st: S, r: Answer<A>)
    requires !s0.Lazy?
    ensures (st, r) == FoldSeq(f, st0, acc0, s0)
  {
    st := st0;
    var acc, s := acc0, s0;
    while !s.Nil? && !s.Pending?
      invariant !s.Lazy?
      invariant FoldSeq(f, st0, acc0, s0) == FoldSeq(f, st, acc, s)
      decreases s
    {
      if s.Chunk? {
        var c := s.items;
        ghost var st1, acc1 := st, acc;
        FoldAppend(f, st1, acc1, c, Elems(s.tail));
        var i := 0;
        while i < |c|
          invariant i <= |c|
          invariant Fold(f, st1, acc1, c) == Fold(f, st, acc, c[i..])
        {
          assert c[i..][1..] == c[i + 1..];
          var (st2, step) := f(st, acc, c[i]);
          st, acc := st2, step.acc;
          if step.Reduced? { return st, Result(acc); }
          i := i + 1;
        }
        ForceSame(s.tail);
        s := Force(s.tail);
      } else {
        NextIs(s);
        assert Elems(s)[1..] == Elems(Next(s));
        var (st2, step) := f(st, acc, First(s));
        st, acc := st2, step.acc;
        if step.Reduced? { return st, Result(acc); }
        s := Next(s);
      }
    }
    r := if s.Nil? then Result(acc) else Waiting;
  }

  // ----- transducers -----

  /** A reducing function with all its arities. */
  datatype Reducer<!S, !A, !X> = Reducer(init: S -> (S, A), complete: (S, A) -> (S, A), step: Rf<S, A, X>)

  datatype Xform<!X> = Mapping(f: X -> X) | Filtering(p: X -> bool) | Keeping(g: X -> Option<X>)

  /** The 1-arity of map, filter and keep: only the step arity changes. */
  function Apply<S, A, X>(t: Xform<X>, rf: Reducer<S, A, X>): Reducer<S, A, X> {
    match t
    case Mapping(f) => rf.(step := (s, a, x) => rf.step(s, a, f(x)))
    case Filtering(p) => rf.(step := (s, a, x) => if p(x) then rf.step(s, a, x) else (s, Go(a)))
    case Keeping(g) => rf.(step := (s, a, x) => if g(x).None? then (s, Go(a)) else rf.step(s, a, g(x).value))
  }

  /** `comp` of functions, applied: the last runs first. */
  function Composed<R>(fns: seq<R -> R>, x: R): R {
    if fns == [] then x else fns[0](Composed(fns[1..], x))
  }

  /** comp as it runs: from the last function down to the first. */
  method ApplyComp<R>(fns: seq<R -> R>, x: R) returns (ret: R)
    ensures ret == Composed(fns, x)
  {
    if fns == [] { return x; }
    var i := |fns| - 1;
    ret := fns[i](x);
    assert fns[i..][1..] == [];
    while i > 0
      invariant 0 <= i < |fns| && ret == Composed(fns[i..], x)
    {
      i := i - 1;
      assert fns[i..][1..] == fns[i + 1..];
      ret := fns[i](ret);
    }
    assert fns[0..] == fns;
  }

  function Steps<S, A, X>(ts: seq<Xform<X>>): (fns: seq<Reducer<S, A, X> -> Reducer<S, A, X>>)
    ensures |fns| == |ts|
  {
    seq(|ts|, i requires 0 <= i < |ts| => (rf: Reducer<S, A, X>) => Apply(ts[i], rf))
  }

  /** The reducing function the composed transducers make. */
  function Fused<S, A, X>(ts: seq<Xform<X>>, rf: Reducer<S, A, X>): Reducer<S, A, X> {
    if ts == [] then rf else Apply(ts[0], Fused(ts[1..], rf))
  }

  lemma {:induction false} FusedFrom<S, A, X>(ts: seq<Xform<X>>, k: nat, rf: Reducer<S, A, X>)
    requires k <= |ts|
    ensures Composed(Steps(ts)[k..], rf) == Fused(ts[k..], rf)
    decreases |ts| - k
  {
    if k < |ts| {
      var fns: seq<Reducer<S, A, X> -> Reducer<S, A, X>> := Steps(ts);
      FusedFrom(ts, k + 1, rf);
      assert fns[k..][1..] == fns[k + 1..] && ts[k..][1..] == ts[k + 1..];
    }
  }

  lemma FusedIsComp<S, A, X>(ts: seq<Xform<X>>, rf: Reducer<S, A, X>)
    ensures Composed(Steps(ts), rf) == Fused(ts, rf)
  {
    var fns: seq<Reducer<S, A, X> -> Reducer<S, A, X>> := Steps(ts);
    FusedFrom(ts, 0, rf);
    assert fns[0..] == fns && ts[0..] == ts;
  }

  /** The sequence functions, left to right. */
  function Run<X>(t: Xform<X>, s: Seq<X>): Seq<X> {
    match t
    case Mapping(f) => MapSeq(f, s)
    case Filtering(p) => FilterSeq(p, s)
    case Keeping(g) => KeepSeq(g, s)
  }

  function Pipeline<X>(ts: seq<Xform<X>>, s: Seq<X>): Seq<X>
    decreases ts
  {
    if ts == [] then s else Pipeline(ts[1..], Run(ts[0], s))
  }

  /** One transducer: stepping through it is stepping over the transformed list. */
  lemma {:induction false} StepIsRun<S, A, X>(t: Xform<X>, rf: Reducer<S, A, X>, st: S, acc: A, xs: seq<X>)
    ensures Fold(Apply(t, rf).step, st, acc, xs) ==
            Fold(rf.step, st, acc, match t
                                   case Mapping(f) => Map(f, xs)
                                   case Filtering(p) => Filter(p, xs)
                                   case Keeping(g) => Keep(g, xs))
    decreases xs
  {
    if xs != [] {
      var (st1, r) := Apply(t, rf).step(st, acc, xs[0]);
      if r.Go? { StepIsRun(t, rf, st1, r.acc, xs[1..]); }
      match t
      case Mapping(f) => assert Map(f, xs)[1..] == Map(f, xs[1..]);
      case Filtering(p) => if p(xs[0]) { assert Filter(p, xs)[1..] == Filter(p, xs[1..]); } else { assert Filter(p, xs) == Filter(p, xs[1..]); }
      case Keeping(g) => if g(xs[0]).Some? { assert Keep(g, xs)[1..] == Keep(g, xs[1..]); } else { assert Keep(g, xs) == Keep(g, xs[1..]); }
    }
  }

  lemma {:induction false} FusionOne<S, A, X>(t: Xform<X>, rf: Reducer<S, A, X>, st: S, acc: A, s: Seq<X>)
    ensures FoldSeq(Apply(t, rf).step, st, acc, s) == FoldSeq(rf.step, st, acc, Run(t, s))
  {
    StepIsRun(t, rf, st, acc, Elems(s));
    match t
    case Mapping(f) => MapIs(f, s);
    case Filtering(p) => FilterIs(p, s);
    case Keeping(g) => KeepIs(g, s);
  }

  /** Fusion: reducing with the composed transducers makes the same calls, in the same order, with the same
      answer and the same early stop, as reducing over the pipeline of sequence functions; and the other
      arities pass through. */
  lemma {:induction false} Fusion<S, A, X>(ts: seq<Xform<X>>, rf: Reducer<S, A, X>, st: S, acc: A, s: Seq<X>)
    ensures FoldSeq(Composed(Steps(ts), rf).step, st, acc, s) == FoldSeq(rf.step, st, acc, Pipeline(ts, s))
    ensures Composed(Steps(ts), rf).init == rf.init && Composed(Steps(ts), rf).complete == rf.complete
    decreases ts
  {
    FusedIsComp(ts, rf);
    if ts != [] {
      var inner := Fused(ts[1..], rf);
      FusedIsComp(ts[1..], rf);
      FusionOne(ts[0], inner, st, acc, s);
      Fusion(ts[1..], rf, st, acc, Run(ts[0], s));
    }
  }

  /** `(comp (map f) (filter p))` maps first and filters what the map gives. */
  lemma MapThenFilter<S, A, X>(f: X -> X, p: X -> bool, rf: Reducer<S, A, X>, st: S, acc: A, s: Seq<X>)
    ensures FoldSeq(Composed(Steps([Mapping(f), Filtering(p)]), rf).step, st, acc, s) ==
            var (st1, r) := Fold(rf.step, st, acc, Filter(p, Map(f, Elems(s))));
            (st1, if r.Go? && Open(s) then Waiting else Result(r.acc))
  {
    var ts := [Mapping(f), Filtering(p)];
    assert ts[1..] == [Filtering(p)] && ts[1..][1..] == [];
    Fusion(ts, rf, st, acc, s);
    MapIs(f, s);
    FilterIs(p, MapSeq(f, s));
    var mapped := MapSeq(f, s);
    assert Pipeline([], FilterSeq(p, mapped)) == FilterSeq(p, mapped);
    assert Pipeline(ts[1..], mapped) == FilterSeq(p, mapped);
    assert Pipeline(ts, s) == FilterSeq(p, mapped);
  }

  /** `comp` of two functions runs the second first. */
  lemma CompOfTwo<R>(f: R -> R, g: R -> R, x: R)
    ensures Composed([f, g], x) == f(g(x))
  {
    var fns := [f, g];
    assert fns[1..] == [g] && fns[1..][1..] == [];
    assert Composed(fns[1..][1..], x) == x;
    assert Composed(fns[1..], x) == g(x);
  }

  /** mapv: a strict walk into a vector. */
  method Mapv<X, Y>(f: X -> Y, coll: Seq<X>) returns (out: seq<Y>)
    requires NoEmptyChunk(coll) && !Open(coll)
    ensures out == Map(f, Elems(coll))
  {
    out := [];
    ForceSame(coll);
    var s := Force(coll);
    assert [] + Map(f, Elems(coll)) == Map(f, Elems(coll));
    while !s.Nil?
      invariant !s.Lazy? && NoEmptyChunk(s) && !Open(s)
      invariant out + Map(f, Elems(s)) == Map(f, Elems(coll))
      decreases |Elems(s)|
    {
      NextIs(s);
      MapAppend(f, [First(s)], Elems(Next(s)));
      assert Map(f, [First(s)]) == [f(First(s))];
      assert out + ([f(First(s))] + Map(f, Elems(Next(s)))) == out + [f(First(s))] + Map(f, Elems(Next(s)));
      out := out + [f(First(s))];
      s := Next(s);
    }
    assert out + [] == out;
  }
}
