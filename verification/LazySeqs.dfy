/** Lazy, chunked sequences and the sequence functions over them (pkg/corelib/hotpath_builtins.go). */
module LazySeqs {
  import opened Options

  /** A sequence as it stands: `Lazy` is a thunk and what it gives, `Pending` a part not produced yet, so that
      a finite prefix of an unbounded source is a value too. */
  datatype Seq<T> = Nil | Cons(head: T, tail: Seq<T>) | Chunk(items: seq<T>, tail: Seq<T>) | Lazy(inner: Seq<T>) | Pending

  /** lang.Seq: thunks are run until there is an element, the end, or nothing yet. */
  function Force<T>(s: Seq<T>): (r: Seq<T>)
    ensures !r.Lazy?
    ensures r == s || r < s
  {
    if s.Lazy? then Force(s.inner) else s
  }

  /** The elements there are. */
  function Elems<T>(s: Seq<T>): seq<T> {
    match s
    case Cons(x, t) => [x] + Elems(t)
    case Chunk(xs, t) => xs + Elems(t)
    case Lazy(t) => Elems(t)
    case _ => []
  }

  /** More may follow them. */
  predicate Open<T>(s: Seq<T>) {
    match s
    case Cons(_, t) => Open(t)
    case Chunk(_, t) => Open(t)
    case Lazy(t) => Open(t)
    case Nil => false
    case Pending => true
  }

  predicate NoEmptyChunk<T>(s: Seq<T>) {
    match s
    case Cons(_, t) => NoEmptyChunk(t)
    case Chunk(xs, t) => xs != [] && NoEmptyChunk(t)
    case Lazy(t) => NoEmptyChunk(t)
    case _ => true
  }

  // ----- lists -----

  function Map<T, U>(f: T -> U, xs: seq<T>): seq<U> {
    if xs == [] then [] else [f(xs[0])] + Map(f, xs[1..])
  }

  function Filter<T>(p: T -> bool, xs: seq<T>): seq<T> {
    if xs == [] then [] else (if p(xs[0]) then [xs[0]] else []) + Filter(p, xs[1..])
  }

  function Keep<T, U>(f: T -> Option<U>, xs: seq<T>): seq<U> {
    if xs == [] then [] else (if f(xs[0]).Some? then [f(xs[0]).value] else []) + Keep(f, xs[1..])
  }

  lemma {:induction false} MapAppend<T, U>(f: T -> U, xs: seq<T>, ys: seq<T>)
    ensures Map(f, xs + ys) == Map(f, xs) + Map(f, ys)
  {
    if xs == [] {
      assert xs + ys == ys;
    } else {
      var rest := Map(f, xs[1..] + ys);
      MapAppend(f, xs[1..], ys);
      assert (xs + ys)[1..] == xs[1..] + ys && (xs + ys)[0] == xs[0];
      assert Map(f, xs + ys) == [f(xs[0])] + rest;
      assert [f(xs[0])] + (Map(f, xs[1..]) + Map(f, ys)) == [f(xs[0])] + Map(f, xs[1..]) + Map(f, ys);
    }
  }

  lemma {:induction false} FilterAppend<T>(p: T -> bool, xs: seq<T>, ys: seq<T>)
    ensures Filter(p, xs + ys) == Filter(p, xs) + Filter(p, ys)
  {
    if xs == [] {
      assert xs + ys == ys;
    } else {
      FilterAppend(p, xs[1..], ys);
      assert (xs + ys)[1..] == xs[1..] + ys && (xs + ys)[0] == xs[0];
      var first, a, b := if p(xs[0]) then [xs[0]] else [], Filter(p, xs[1..]), Filter(p, ys);
      assert first + (a + b) == first + a + b;
    }
  }

  lemma {:induction false} KeepAppend<T, U>(f: T -> Option<U>, xs: seq<T>, ys: seq<T>)
    ensures Keep(f, xs + ys) == Keep(f, xs) + Keep(f, ys)
  {
    if xs == [] {
      assert xs + ys == ys;
    } else {
      KeepAppend(f, xs[1..], ys);
      assert (xs + ys)[1..] == xs[1..] + ys && (xs + ys)[0] == xs[0];
      var first, a, b := if f(xs[0]).Some? then [f(xs[0]).value] else [], Keep(f, xs[1..]), Keep(f, ys);
      assert first + (a + b) == first + a + b;
    }
  }

  /** Element by element. */
  lemma {:induction false} MapAt<T, U>(f: T -> U, xs: seq<T>)
    ensures |Map(f, xs)| == |xs| && forall i | 0 <= i < |xs| :: Map(f, xs)[i] == f(xs[i])
  {
    if xs != [] { MapAt(f, xs[1..]); }
  }

  /** How many elements p holds of. */
  function Count<T>(p: T -> bool, xs: seq<T>): nat {
    if xs == [] then 0 else (if p(xs[0]) then 1 else 0) + Count(p, xs[1..])
  }

  lemma CountPrefix<T>(p: T -> bool, xs: seq<T>, i: nat)
    requires 0 < i < |xs|
    ensures Count(p, xs[..i]) == (if p(xs[0]) then 1 else 0) + Count(p, xs[1..][..i - 1])
  {
    assert xs[..i][0] == xs[0] && xs[..i][1..] == xs[1..][..i - 1];
  }

  /** Filter leaves the accepted elements and no others, each after as many as are accepted before it. */
  lemma {:induction false} FilterAt<T>(p: T -> bool, xs: seq<T>, i: nat)
    requires i < |xs|
    ensures |Filter(p, xs)| == Count(p, xs)
    ensures p(xs[i]) ==> Count(p, xs[..i]) < |Filter(p, xs)| && Filter(p, xs)[Count(p, xs[..i])] == xs[i]
    decreases |xs|
  {
    if i > 0 {
      FilterAt(p, xs[1..], i - 1);
      CountPrefix(p, xs, i);
    } else if |xs| > 1 {
      FilterAt(p, xs[1..], 0);
    }
  }

  /** Keep leaves the values f gives, each after as many as are given before it. */
  lemma {:induction false} KeepAt<T, U>(f: T -> Option<U>, xs: seq<T>, i: nat)
    requires i < |xs|
    ensures |Keep(f, xs)| == Count(x => f(x).Some?, xs)
    ensures var k := Count(x => f(x).Some?, xs[..i]);
            f(xs[i]).Some? ==> k < |Keep(f, xs)| && f(xs[i]) == Some(Keep(f, xs)[k])
    decreases |xs|
  {
    if i > 0 {
      KeepAt(f, xs[1..], i - 1);
      CountPrefix(x => f(x).Some?, xs, i);
    } else if |xs| > 1 {
      KeepAt(f, xs[1..], 0);
    }
  }

  // ----- map, filter, keep -----

  /** The tail is the source's unrealized rest: one element out needs one element, or one chunk, in. */
  function MapSeq<T, U>(f: T -> U, coll: Seq<T>): Seq<U>
    decreases coll
  {
    Lazy(match Force(coll)
         case Nil => Nil
         case Cons(x, t) => Cons(f(x), MapSeq(f, t))
         case Chunk(xs, t) => Chunk(Map(f, xs), MapSeq(f, t))
         case _ => Pending)
  }

  function FilterSeq<T>(p: T -> bool, coll: Seq<T>): Seq<T>
    decreases coll, 1
  {
    Lazy(FilterFrom(p, Force(coll)))
  }

  /** The scan inside one thunk: past single rejects, but one chunk at a time. */
  function FilterFrom<T>(p: T -> bool, s: Seq<T>): Seq<T>
    requires !s.Lazy?
    decreases s, 0
  {
    match s
    case Nil => Nil
    case Cons(x, t) => if p(x) then Cons(x, FilterSeq(p, t)) else FilterFrom(p, Force(t))
    case Chunk(xs, t) => if Filter(p, xs) == [] then FilterSeq(p, t) else Chunk(Filter(p, xs), FilterSeq(p, t))
    case _ => Pending
  }

  function KeepSeq<T, U>(f: T -> Option<U>, coll: Seq<T>): Seq<U>
    decreases coll, 1
  {
    Lazy(KeepFrom(f, Force(coll)))
  }

  function KeepFrom<T, U>(f: T -> Option<U>, s: Seq<T>): Seq<U>
    requires !s.Lazy?
    decreases s, 0
  {
    match s
    case Nil => Nil
    case Cons(x, t) => if f(x).Some? then Cons(f(x).value, KeepSeq(f, t)) else KeepFrom(f, Force(t))
    case Chunk(xs, t) => if Keep(f, xs) == [] then KeepSeq(f, t) else Chunk(Keep(f, xs), KeepSeq(f, t))
    case _ => Pending
  }

  lemma ForceSame<T>(s: Seq<T>)
    ensures Elems(Force(s)) == Elems(s) && Open(Force(s)) == Open(s) && NoEmptyChunk(Force(s)) == NoEmptyChunk(s)
  {}

  /** However the source is cut into cells and chunks, map gives the mapped elements, as soon as they are
      there, and its chunks are the source's chunks. */
  lemma {:induction false} MapIs<T, U>(f: T -> U, s: Seq<T>)
    ensures var r := MapSeq(f, s);
            Elems(r) == Map(f, Elems(s)) && Open(r) == Open(s) && NoEmptyChunk(r) == NoEmptyChunk(s)
    decreases s
  {
    ForceSame(s);
    match Force(s)
    case Cons(x, t) => MapIs(f, t); MapAppend(f, [x], Elems(t));
    case Chunk(xs, t) => MapIs(f, t); MapAppend(f, xs, Elems(t));
    case _ =>
  }

  lemma {:induction false} FilterIs<T>(p: T -> bool, s: Seq<T>)
    ensures var r := FilterSeq(p, s);
            Elems(r) == Filter(p, Elems(s)) && Open(r) == Open(s) && NoEmptyChunk(r)
    decreases s, 1
  {
    ForceSame(s);
    FilterFromIs(p, Force(s));
  }

  lemma {:induction false} FilterFromIs<T>(p: T -> bool, s: Seq<T>)
    requires !s.Lazy?
    ensures var r := FilterFrom(p, s);
            Elems(r) == Filter(p, Elems(s)) && Open(r) == Open(s) && NoEmptyChunk(r)
    decreases s, 0
  {
    match s
    case Cons(x, t) =>
      FilterAppend(p, [x], Elems(t));
      assert Filter(p, [x]) == if p(x) then [x] else [];
      if p(x) { FilterIs(p, t); } else { ForceSame(t); FilterFromIs(p, Force(t)); }
    case Chunk(xs, t) => FilterIs(p, t); FilterAppend(p, xs, Elems(t));
    case _ =>
  }

  lemma {:induction false} KeepIs<T, U>(f: T -> Option<U>, s: Seq<T>)
    ensures var r := KeepSeq(f, s);
            Elems(r) == Keep(f, Elems(s)) && Open(r) == Open(s) && NoEmptyChunk(r)
    decreases s, 1
  {
    ForceSame(s);
    KeepFromIs(f, Force(s));
  }

  lemma {:induction false} KeepFromIs<T, U>(f: T -> Option<U>, s: Seq<T>)
    requires !s.Lazy?
    ensures var r := KeepFrom(f, s);
            Elems(r) == Keep(f, Elems(s)) && Open(r) == Open(s) && NoEmptyChunk(r)
    decreases s, 0
  {
    match s
    case Cons(x, t) =>
      KeepAppend(f, [x], Elems(t));
      assert Keep(f, [x]) == if f(x).Some? then [f(x).value] else [];
      if f(x).Some? { KeepIs(f, t); } else { ForceSame(t); KeepFromIs(f, Force(t)); }
    case Chunk(xs, t) => KeepIs(f, t); KeepAppend(f, xs, Elems(t));
    case _ =>
  }
}
