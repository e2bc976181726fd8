/** The lazy builders as they run: loops over chunk buffers, and for filter and keep a scan past rejects. */
module LazyBuild {
  import opened LazySeqs
  import opened Options

  method BuildMap<T, U>(f: T -> U, coll: Seq<T>) returns (r: Seq<U>)
    ensures r == MapSeq(f, coll)
    decreases coll
  {
    var s := Force(coll);
    match s {
      case Nil => r := Lazy(Nil);
      case Cons(x, more) =>
        var tail := BuildMap(f, more);
        r := Lazy(Cons(f(x), tail));
      case Chunk(c, more) =>
        var b: seq<U> := [];
        var i := 0;
        while i < |c|
          invariant i <= |c| && b == Map(f, c[..i])
        {
          MapAppend(f, c[..i], [c[i]]);
          assert c[..i] + [c[i]] == c[..i + 1] && Map(f, [c[i]]) == [f(c[i])];
          b := b + [f(c[i])];
          i := i + 1;
        }
        assert c[..i] == c;
        var tail := BuildMap(f, more);
        r := Lazy(Chunk(b, tail));
      case _ => r := Lazy(Pending);
    }
  }

  method BuildFilter<T>(p: T -> bool, coll: Seq<T>) returns (r: Seq<T>)
    ensures r == FilterSeq(p, coll)
    decreases coll
  {
    var s := Force(coll);
    while !s.Nil? && !s.Pending?
      invariant !s.Lazy? && (s == coll || s < coll)
      invariant FilterFrom(p, Force(coll)) == FilterFrom(p, s)
      decreases s
    {
      if s.Chunk? {
        var c := s.items;
        var b: seq<T> := [];
        var i := 0;
        while i < |c|
          invariant i <= |c| && b == Filter(p, c[..i])
        {
          FilterAppend(p, c[..i], [c[i]]);
          assert c[..i] + [c[i]] == c[..i + 1] && Filter(p, [c[i]]) == if p(c[i]) then [c[i]] else [];
          if p(c[i]) { b := b + [c[i]]; }
          i := i + 1;
        }
        assert c[..i] == c;
        var tail := BuildFilter(p, s.tail);
        r := Lazy(if |b| == 0 then tail else Chunk(b, tail));
        return;
      }
      var x := s.head;
      if p(x) {
        var tail := BuildFilter(p, s.tail);
        r := Lazy(Cons(x, tail));
        return;
      }
      s := Force(s.tail);
    }
    r := if s.Nil? then Lazy(Nil) else Lazy(Pending);
  }

  method BuildKeep<T, U>(f: T -> Option<U>, coll: Seq<T>) returns (r: Seq<U>)
    ensures r == KeepSeq(f, coll)
    decreases coll
  {
    var s := Force(coll);
    while !s.Nil? && !s.Pending?
      invariant !s.Lazy? && (s == coll || s < coll)
      invariant KeepFrom(f, Force(coll)) == KeepFrom(f, s)
      decreases s
    {
      if s.Chunk? {
        var c := s.items;
        var b: seq<U> := [];
        var i := 0;
        while i < |c|
          invariant i <= |c| && b == Keep(f, c[..i])
        {
          KeepAppend(f, c[..i], [c[i]]);
          assert c[..i] + [c[i]] == c[..i + 1] && Keep(f, [c[i]]) == if f(c[i]).Some? then [f(c[i]).value] else [];
          var v := f(c[i]);
          if v.Some? { b := b + [v.value]; }
          i := i + 1;
        }
        assert c[..i] == c;
        var tail := BuildKeep(f, s.tail);
        r := Lazy(if |b| == 0 then tail else Chunk(b, tail));
        return;
      }
      var v := f(s.head);
      if v.Some? {
        var tail := BuildKeep(f, s.tail);
        r := Lazy(Cons(v.value, tail));
        return;
      }
      s := Force(s.tail);
    }
    r := if s.Nil? then Lazy(Nil) else Lazy(Pending);
  }
}
