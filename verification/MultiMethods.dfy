/** The multimethod value: a table and preferences updated in place (pkg/corelib/multimethod_builtins.go). */
module MultiMethods {
  import opened Dispatch
  import opened Options

  ghost function DomOf(w: World, t: Preferences, rank: Val -> nat): Relation {
    (x, y) => (Acyclic(w, rank) && Prefers(w, t, rank, x, y)) || w.isa(x, y)
  }

  lemma ParentBelow(w: World, rank: Val -> nat, v: Val, p: Val)
    requires Acyclic(w, rank) && p in w.parents(v)
    ensures rank(p) < rank(v)
  {}

  /** The table as a map. */
  function TableOf(es: seq<Entry>): map<Val, Fn>
    decreases es
  {
    if es == [] then map[] else TableOf(es[1..])[es[0].val := es[0].fn]
  }

  lemma {:induction false} TableAt(es: seq<Entry>)
    requires DistinctKeys(es)
    ensures forall v :: v in TableOf(es) <==> exists e <- es :: e.val == v
    ensures forall e <- es :: e.val in TableOf(es) && TableOf(es)[e.val] == e.fn
  {
    if es != [] {
      TableAt(es[1..]);
      assert forall e :: e in es <==> e == es[0] || e in es[1..];
    }
  }

  lemma TableIs(es: seq<Entry>, m: map<Val, Fn>)
    requires DistinctKeys(es)
    requires forall v :: v in m <==> exists e <- es :: e.val == v
    requires forall e <- es :: e.val in m && m[e.val] == e.fn
    ensures TableOf(es) == m
  {
    TableAt(es);
    var table := TableOf(es);
    forall v | v in m ensures v in table && table[v] == m[v] {
      var e :| e in es && e.val == v;
    }
    forall v | v in table ensures v in m {
      var e :| e in es && e.val == v;
    }
    assert table.Keys == m.Keys;
  }

  function Lookup(m: map<Val, Fn>, v: Val): Option<Fn> {
    if v in m then Some(m[v]) else None
  }

  /** Two values preferred over each other directly. */
  predicate Conflict(t: Preferences, x: Val, y: Val) {
    x != y && Recorded(t, x, y) && Recorded(t, y, x)
  }

  datatype Found = Method(fn: Fn) | Missing | Ambiguous

  /** Exact match, then the scan, then the default. */
  ghost function MethodFor(es: seq<Entry>, w: World, t: Preferences, rank: Val -> nat, default: Val, dv: Val): Found {
    var table := TableOf(es);
    if dv in table then Method(table[dv])
    else match Scan(w.isa, DomOf(w, t, rank), dv, es, None)
      case Clash => Ambiguous
      case Picked(e) => Method(e.fn)
      case NoMatch => if default in table then Method(table[default]) else Missing
  }

  class MultiFn {
    const default: Val
    var entries: seq<Entry>
    var preferTable: Preferences

    ghost predicate Valid()
      reads this
    {
      DistinctKeys(entries) && forall x, y :: !Conflict(preferTable, x, y)
    }

    constructor (default: Val)
      ensures Valid() && this.default == default && entries == [] && preferTable == map[]
    {
      this.default, entries, preferTable := default, [], map[];
    }

    /** The index of the entry for a dispatch value, or the table's length. */
    method Find(val: Val) returns (i: nat)
      ensures i <= |entries| && (i < |entries| ==> entries[i].val == val)
      ensures forall j | 0 <= j < i :: entries[j].val != val
    {
      i := 0;
      while i < |entries|
        invariant i <= |entries| && forall j | 0 <= j < i :: entries[j].val != val
      {
        if entries[i].val == val { return; }
        i := i + 1;
      }
    }

    /** Installs or replaces; the order of the others stays. */
    method AddMethod(val: Val, fn: Fn)
      requires Valid()
      modifies this`entries
      ensures Valid() && TableOf(entries) == TableOf(old(entries))[val := fn]
      ensures exists i | 0 <= i < |entries| ::
                && entries[i] == Entry(val, fn)
                && Without(entries, i) == if i < |old(entries)| then Without(old(entries), i) else old(entries)
    {
      TableAt(entries);
      var i := Find(val);
      if i < |entries| {
        entries := entries[i := Entry(val, fn)];
        assert Without(entries, i) == Without(old(entries), i);
      } else {
        entries := entries + [Entry(val, fn)];
        assert Without(entries, i) == old(entries);
      }
      ReplacedTable(old(entries), entries, i, val, fn);
    }

    /** Drops the method if there is one. */
    method RemoveMethod(val: Val)
      requires Valid()
      modifies this`entries
      ensures Valid() && TableOf(entries) == TableOf(old(entries)) - {val}
      ensures entries == old(entries) || exists i | 0 <= i < |old(entries)| :: old(entries)[i].val == val && entries == Without(old(entries), i)
    {
      var i := Find(val);
      if i < |entries| {
        entries := entries[..i] + entries[i + 1..];
        RemovedTable(old(entries), i);
      } else {
        TableAt(entries);
        assert val !in TableOf(entries);
      }
    }

    method RemoveAllMethods()
      modifies this`entries
      ensures entries == [] && TableOf(entries) == map[]
    {
      entries := [];
    }

    method GetMethod(val: Val) returns (r: Option<Fn>)
      requires Valid()
      ensures r == Lookup(TableOf(entries), val)
    {
      TableAt(entries);
      var i := Find(val);
      r := if i < |entries| then Some(entries[i].fn) else None;
    }

    /** Walks the parents of y, then of x, stopping at the first success. */
    method PrefersVal(w: World, x: Val, y: Val, ghost rank: Val -> nat) returns (r: bool)
      requires Acyclic(w, rank)
      ensures r == Prefers(w, preferTable, rank, x, y)
      decreases rank(x) + rank(y)
    {
      hide Acyclic;
      if Recorded(preferTable, x, y) { return true; }
      var ps := w.parents(y);
      var i := 0;
      while i < |ps|
        invariant i <= |ps| && forall j | 0 <= j < i :: !Prefers(w, preferTable, rank, x, ps[j])
      {
        ParentBelow(w, rank, y, ps[i]);
        var up := PrefersVal(w, x, ps[i], rank);
        if up { return true; }
        i := i + 1;
      }
      var qs := w.parents(x);
      i := 0;
      while i < |qs|
        invariant i <= |qs| && forall j | 0 <= j < i :: !Prefers(w, preferTable, rank, qs[j], y)
      {
        ParentBelow(w, rank, x, qs[i]);
        var up := PrefersVal(w, qs[i], y, rank);
        if up { return true; }
        i := i + 1;
      }
      r := false;
    }

    method Dominates(w: World, x: Val, y: Val, ghost rank: Val -> nat) returns (r: bool)
      requires Acyclic(w, rank)
      ensures r == DomOf(w, preferTable, rank)(x, y)
    {
      var preferred := PrefersVal(w, x, y, rank);
      r := preferred || w.isa(x, y);
    }

    /** The scan, on an index of the best entry so far; -1 for none. */
    method BestIsaMethod(w: World, dv: Val, ghost rank: Val -> nat) returns (r: Found)
      requires Acyclic(w, rank)
      ensures r == match Scan(w.isa, DomOf(w, preferTable, rank), dv, entries, None)
                   case Clash => Ambiguous
                   case Picked(e) => Method(e.fn)
                   case NoMatch => Missing
    {
      ghost var dom := DomOf(w, preferTable, rank);
      var best := -1;
      var i := 0;
      assert entries[0..] == entries;
      while i < |entries|
        invariant i <= |entries| && -1 <= best < i
        invariant Scan(w.isa, dom, dv, entries, None)
               == Scan(w.isa, dom, dv, entries[i..], if best < 0 then None else Some(entries[best]))
      {
        assert entries[i..][1..] == entries[i + 1..];
        if w.isa(dv, entries[i].val) {
          if best < 0 {
            best := i;
          } else {
            var over := Dominates(w, entries[i].val, entries[best].val, rank);
            if over { best := i; }
          }
          var holds := Dominates(w, entries[best].val, entries[i].val, rank);
          if !holds { return Ambiguous; }
        }
        i := i + 1;
      }
      r := if best < 0 then Missing else Method(entries[best].fn);
    }

    method FindMethod(w: World, dv: Val, ghost rank: Val -> nat) returns (r: Found)
      requires Valid() && Acyclic(w, rank)
      ensures r == MethodFor(entries, w, preferTable, rank, default, dv)
    {
      var exact := GetMethod(dv);
      if exact.Some? { return Method(exact.value); }
      r := BestIsaMethod(w, dv, rank);
      if r.Missing? {
        var fallback := GetMethod(default);
        if fallback.Some? { r := Method(fallback.value); }
      }
    }

    /** Records a preference unless the opposite already holds through the hierarchy; direct preferences
        never contradict each other. */
    method PreferMethod(w: World, x: Val, y: Val, ghost rank: Val -> nat) returns (ok: bool)
      requires Valid() && Acyclic(w, rank)
      modifies this`preferTable
      ensures Valid() && (ok <==> !Prefers(w, old(preferTable), rank, y, x))
      ensures if ok then Records(old(preferTable), preferTable, x, y) else preferTable == old(preferTable)
    {
      var opposite := PrefersVal(w, y, x, rank);
      if opposite { return false; }
      var over := if x in preferTable then preferTable[x] else {};
      preferTable := preferTable[x := over + {y}];
      ok := true;
      forall a, b ensures !Conflict(preferTable, a, b) {
        assert !Conflict(old(preferTable), a, b);
        assert !Recorded(old(preferTable), y, x);
      }
    }

    method MethodTable() returns (m: map<Val, Fn>)
      requires Valid()
      ensures m == TableOf(entries)
    {
      m := map[];
      var i := 0;
      while i < |entries|
        invariant i <= |entries|
        invariant forall v :: v in m <==> exists j | 0 <= j < i :: entries[j].val == v
        invariant forall j | 0 <= j < i :: entries[j].val in m && m[entries[j].val] == entries[j].fn
      {
        m := m[entries[i].val := entries[i].fn];
        i := i + 1;
      }
      TableIs(entries, m);
    }
  }

  lemma ReplacedTable(es: seq<Entry>, fs: seq<Entry>, i: nat, val: Val, fn: Fn)
    requires DistinctKeys(es) && i <= |es|
    requires fs == if i < |es| then es[i := Entry(val, fn)] else es + [Entry(val, fn)]
    requires if i < |es| then es[i].val == val else forall e <- es :: e.val != val
    ensures DistinctKeys(fs) && TableOf(fs) == TableOf(es)[val := fn]
  {
    TableAt(es);
    var m := TableOf(es)[val := fn];
    forall v ensures v in m <==> exists e <- fs :: e.val == v {
      if v == val { assert fs[i] in fs; }
      if e :| e in es && e.val == v && v != val {
        var k :| 0 <= k < |es| && es[k] == e;
        assert fs[k] == e && fs[k] in fs;
      }
    }
    assert DistinctKeys(fs);
    TableIs(fs, m);
  }

  lemma WithoutIs(es: seq<Entry>, i: nat)
    requires DistinctKeys(es) && i < |es|
    ensures DistinctKeys(Without(es, i))
    ensures forall e :: e in Without(es, i) <==> e in es && e.val != es[i].val
  {
    var fs := Without(es, i);
    assert forall k | 0 <= k < |fs| :: fs[k] == es[if k < i then k else k + 1];
    forall e | e in es && e.val != es[i].val ensures e in fs {
      var k :| 0 <= k < |es| && es[k] == e;
      assert fs[if k < i then k else k - 1] == e;
    }
  }

  lemma RemovedTable(es: seq<Entry>, i: nat)
    requires DistinctKeys(es) && i < |es|
    ensures DistinctKeys(Without(es, i)) && TableOf(Without(es, i)) == TableOf(es) - {es[i].val}
  {
    hide DistinctKeys, TableOf, Without;
    WithoutIs(es, i);
    TableAt(es);
    var fs, m := Without(es, i), TableOf(es) - {es[i].val};
    forall v ensures v in m <==> exists e <- fs :: e.val == v {
      if v in m {
        var e :| e in es && e.val == v;
        assert e in fs;
      }
    }
    TableIs(fs, m);
  }

  /** With a total dominance order every order of the method table dispatches alike. */
  lemma DispatchIgnoresOrder(es: seq<Entry>, fs: seq<Entry>, w: World, t: Preferences, rank: Val -> nat, default: Val, dv: Val)
    requires DistinctKeys(es) && DistinctKeys(fs) && Reordered(es, fs) && TotalOn(w.isa, DomOf(w, t, rank), dv, es)
    ensures MethodFor(es, w, t, rank, default, dv) == MethodFor(fs, w, t, rank, default, dv)
    ensures !MethodFor(es, w, t, rank, default, dv).Ambiguous?
  {
    hide Scan, DomOf, TotalOn, TableOf;
    assert TableOf(es) == TableOf(fs) by {
      ReorderedIn(es, fs);
      TableAt(es);
      TableIs(fs, TableOf(es));
    }
    ScanIgnoresOrder(w.isa, DomOf(w, t, rank), dv, es, fs);
  }

  lemma TotalIsConnex(isa: Relation, dom: Relation, dv: Val, es: seq<Entry>)
    requires TotalOn(isa, dom, dv, es)
    ensures forall x, y | x in es && y in es && Matches(isa, dv, x) && Matches(isa, dv, y) :: dom(x.val, y.val) || dom(y.val, x.val)
  {
    ConnexIn(isa, dom, dv, es);
  }

  lemma ScanIgnoresOrder(isa: Relation, dom: Relation, dv: Val, es: seq<Entry>, fs: seq<Entry>)
    requires DistinctKeys(es) && Reordered(es, fs) && TotalOn(isa, dom, dv, es)
    ensures Scan(isa, dom, dv, es, None) == Scan(isa, dom, dv, fs, None) && !Scan(isa, dom, dv, es, None).Clash?
  {
    hide Scan, TotalOn;
    ReorderedIn(es, fs);
    assert es + Held(None) == es && fs + Held(None) == fs;
    TotalIsConnex(isa, dom, dv, es);
    ScanPicks(isa, dom, dv, es, None);
    ScanPicks(isa, dom, dv, fs, None);
    if exists x <- es :: Matches(isa, dv, x) {
      TotalOrderDispatch(isa, dom, dv, es);
      var e :| Greatest(isa, dom, dv, es, e) && AlwaysPicks(isa, dom, dv, es, e);
      assert Reordered(es, es);
    }
  }

  /** 0 under 1, 2 and 3, which are unrelated. */
  const THREE := World(v => if v == 0 then [1, 2, 3] else [], (x, y) => x == y || (x == 0 && 1 <= y <= 3))
  const CHAIN: Preferences := map[1 := {2}, 2 := {3}]

  ghost function ThreeRank(): Val -> nat {
    v => if v == 0 then 1 else 0
  }

  /** Dominance need not be transitive, and then the order of the table decides: with 1 over 2 and 2 over 3
      preferred, 0 is dispatched to 1's method in one order and is ambiguous in another. */
  lemma OrderMatters(f: Fn, g: Fn, h: Fn, default: Val)
    ensures var a, b, c := Entry(1, f), Entry(2, g), Entry(3, h);
            && Acyclic(THREE, ThreeRank()) && Reordered([a, b, c], [b, c, a])
            && MethodFor([a, b, c], THREE, CHAIN, ThreeRank(), default, 0) == Ambiguous
            && MethodFor([b, c, a], THREE, CHAIN, ThreeRank(), default, 0) == Method(f)
  {
    var a, b, c := Entry(1, f), Entry(2, g), Entry(3, h);
    ChainDominates();
    ChainScans(THREE.isa, DomOf(THREE, CHAIN, ThreeRank()), a, b, c);
    hide *;
    Rotated(a, b, c);
    NoExactMethod([a, b, c], THREE, CHAIN, ThreeRank(), default, 0);
    NoExactMethod([b, c, a], THREE, CHAIN, ThreeRank(), default, 0);
  }

  lemma Rotated(a: Entry, b: Entry, c: Entry)
    ensures Reordered([a, b, c], [b, c, a])
    ensures a.val != b.val && b.val != c.val && c.val != a.val ==> DistinctKeys([a, b, c]) && DistinctKeys([b, c, a])
  {
    assert [a] + [b, c] == [a, b, c] && [b, c] + [a] == [b, c, a];
  }

  lemma NoExactMethod(es: seq<Entry>, w: World, t: Preferences, rank: Val -> nat, default: Val, dv: Val)
    requires DistinctKeys(es) && forall e <- es :: e.val != dv
    ensures var r, m := Scan(w.isa, DomOf(w, t, rank), dv, es, None), MethodFor(es, w, t, rank, default, dv);
            (r.Clash? ==> m == Ambiguous) && (r.Picked? ==> m == Method(r.e.fn))
  {
    TableAt(es);
  }

  lemma ChainDominates()
    ensures Acyclic(THREE, ThreeRank())
    ensures var dom := DomOf(THREE, CHAIN, ThreeRank());
            forall x, y | 1 <= x <= 3 && 1 <= y <= 3 :: dom(x, y) <==> x == y || y == x + 1
  {
    var w, rank := THREE, ThreeRank();
    forall x, y | 1 <= x <= 3 && 1 <= y <= 3
      ensures DomOf(w, CHAIN, rank)(x, y) <==> x == y || y == x + 1
    {
      assert w.parents(x) == [] && w.parents(y) == [];
      assert Prefers(w, CHAIN, rank, x, y) <==> Recorded(CHAIN, x, y);
    }
  }

  lemma ChainScans(isa: Relation, dom: Relation, a: Entry, b: Entry, c: Entry)
    requires a.val == 1 && b.val == 2 && c.val == 3 && isa(0, 1) && isa(0, 2) && isa(0, 3)
    requires forall x, y | 1 <= x <= 3 && 1 <= y <= 3 :: dom(x, y) <==> x == y || y == x + 1
    ensures Scan(isa, dom, 0, [a, b, c], None) == Clash && Scan(isa, dom, 0, [b, c, a], None) == Picked(a)
  {
    assert [a, b, c][1..] == [b, c] && [b, c][1..] == [c] && [c][1..] == [];
    assert Scan(isa, dom, 0, [c], Some(a)) == Clash;
    assert Scan(isa, dom, 0, [b, c], Some(a)) == Clash;
    assert [b, c, a][1..] == [c, a] && [c, a][1..] == [a] && [a][1..] == [];
    assert Scan(isa, dom, 0, [], Some(a)) == Picked(a);
    assert Scan(isa, dom, 0, [a], Some(b)) == Picked(a);
    assert Scan(isa, dom, 0, [c, a], Some(b)) == Picked(a);
  }

  // ----- values preferred over each other -----

  ghost predicate Mutual(w: World, t: Preferences, rank: Val -> nat, a: Val, b: Val)
    requires Acyclic(w, rank)
  {
    a != b && Prefers(w, t, rank, a, b) && Prefers(w, t, rank, b, a)
  }

  ghost predicate NoMutual(w: World, t: Preferences, rank: Val -> nat)
    requires Acyclic(w, rank)
  {
    forall a, b :: !Mutual(w, t, rank, a, b)
  }

  /** a is x or below it and also q or below it; b the same of y and p. */
  ghost predicate Between(w: World, rank: Val -> nat, x: Val, y: Val, p: Val, q: Val, a: Val, b: Val)
    requires Acyclic(w, rank)
  {
    && a != b && Above(w, rank, a, x) && Above(w, rank, a, q)
    && Above(w, rank, b, y) && Above(w, rank, b, p)
  }

  /** Preferring x over y and p over q puts two different values over each other. */
  ghost predicate Crosses(w: World, rank: Val -> nat, x: Val, y: Val, p: Val, q: Val)
    requires Acyclic(w, rank)
  {
    exists a, b :: Between(w, rank, x, y, p, q, a, b)
  }

  lemma CrossesSwaps(w: World, rank: Val -> nat, x: Val, y: Val, p: Val, q: Val)
    requires Acyclic(w, rank)
    ensures Crosses(w, rank, x, y, p, q) <==> Crosses(w, rank, p, q, x, y)
  {
    hide Above;
    if a, b :| Between(w, rank, x, y, p, q, a, b) { assert Between(w, rank, p, q, x, y, b, a); }
    if a, b :| Between(w, rank, p, q, x, y, a, b) { assert Between(w, rank, x, y, p, q, b, a); }
  }

  /** No two values are preferred over each other exactly when no two recorded preferences cross. */
  lemma NoMutualIff(w: World, t: Preferences, rank: Val -> nat)
    requires Acyclic(w, rank)
    ensures NoMutual(w, t, rank) <==>
            forall x, y, p, q | Recorded(t, x, y) && Recorded(t, p, q) :: !Crosses(w, rank, x, y, p, q)
  {
    hide Above, Prefers, Recorded, Acyclic;
    if x, y, p, q :| Recorded(t, x, y) && Recorded(t, p, q) && Crosses(w, rank, x, y, p, q) {
      var a, b :| Between(w, rank, x, y, p, q, a, b);
      CrossingIsMutual(w, t, rank, x, y, p, q, a, b);
    }
    if a, b :| Mutual(w, t, rank, a, b) {
      PrefersIff(w, t, rank, a, b);
      PrefersIff(w, t, rank, b, a);
      var x, y :| RecordedAbove(w, t, rank, a, b, x, y);
      var p, q :| RecordedAbove(w, t, rank, b, a, p, q);
      assert Between(w, rank, x, y, p, q, a, b);
    }
  }

  lemma CrossingIsMutual(w: World, t: Preferences, rank: Val -> nat, x: Val, y: Val, p: Val, q: Val, a: Val, b: Val)
    requires Acyclic(w, rank) && Recorded(t, x, y) && Recorded(t, p, q) && Between(w, rank, x, y, p, q, a, b)
    ensures Mutual(w, t, rank, a, b)
  {
    hide Above, Prefers, Recorded, Acyclic;
    PrefersIff(w, t, rank, a, b);
    PrefersIff(w, t, rank, b, a);
    assert RecordedAbove(w, t, rank, a, b, x, y) && RecordedAbove(w, t, rank, b, a, p, q);
  }

  /** t1 is t with x recorded over y. */
  ghost predicate Records(t: Preferences, t1: Preferences, x: Val, y: Val) {
    forall a, b :: Recorded(t1, a, b) <==> Recorded(t, a, b) || (a == x && b == y)
  }

  /** One more preference prefers exactly what lies below it on both sides. */
  lemma PreferAdds(w: World, t: Preferences, t1: Preferences, rank: Val -> nat, x: Val, y: Val, a: Val, b: Val)
    requires Acyclic(w, rank) && Records(t, t1, x, y)
    ensures Prefers(w, t1, rank, a, b) <==> Prefers(w, t, rank, a, b) || (Above(w, rank, a, x) && Above(w, rank, b, y))
  {
    hide Above, Prefers, Recorded, Acyclic;
    PrefersIff(w, t, rank, a, b);
    PrefersIff(w, t1, rank, a, b);
    if p, q :| RecordedAbove(w, t, rank, a, b, p, q) {
      assert RecordedAbove(w, t1, rank, a, b, p, q);
    }
    if Above(w, rank, a, x) && Above(w, rank, b, y) {
      assert RecordedAbove(w, t1, rank, a, b, x, y);
    }
    if p, q :| RecordedAbove(w, t1, rank, a, b, p, q) {
      assert Recorded(t, p, q) ==> RecordedAbove(w, t, rank, a, b, p, q);
    }
  }

  /** Recording x over y in a table without mutual preferences keeps it so exactly when the new preference
      crosses neither itself nor one already recorded. */
  lemma StaysFreeIff(w: World, t: Preferences, t1: Preferences, rank: Val -> nat, x: Val, y: Val)
    requires Acyclic(w, rank) && Records(t, t1, x, y) && NoMutual(w, t, rank)
    ensures NoMutual(w, t1, rank) <==>
            && !Crosses(w, rank, x, y, x, y)
            && forall p, q | Recorded(t, p, q) :: !Crosses(w, rank, x, y, p, q)
  {
    hide Above, Prefers, Recorded, Acyclic, Crosses, NoMutual;
    NoMutualIff(w, t, rank);
    NoMutualIff(w, t1, rank);
    if !Crosses(w, rank, x, y, x, y) && forall p, q | Recorded(t, p, q) :: !Crosses(w, rank, x, y, p, q) {
      forall a, b, p, q | Recorded(t1, a, b) && Recorded(t1, p, q) ensures !Crosses(w, rank, a, b, p, q) {
        CrossesSwaps(w, rank, a, b, p, q);
      }
    }
  }

  /** The code's own check is the crossing at x and y themselves. */
  lemma RefusedIff(w: World, t: Preferences, rank: Val -> nat, x: Val, y: Val)
    requires Acyclic(w, rank) && x != y
    ensures Prefers(w, t, rank, y, x) <==> exists p, q :: Recorded(t, p, q) && Between(w, rank, x, y, p, q, x, y)
  {
    PrefersIff(w, t, rank, y, x);
    if p, q :| RecordedAbove(w, t, rank, y, x, p, q) {
      assert Between(w, rank, x, y, p, q, x, y);
    }
    if p, q :| Recorded(t, p, q) && Between(w, rank, x, y, p, q, x, y) {
      assert RecordedAbove(w, t, rank, y, x, p, q);
    }
  }

  /** So accepted preferences can cross: with 1 a child of 2, preferring 1 over 3 and then 3 over 2 is
      accepted, and 1 and 3 are then each preferred over the other. */
  lemma HierarchyConflict(w: World, rank: Val -> nat)
    requires Acyclic(w, rank) && w.parents(1) == [2] && w.parents(2) == [] && w.parents(3) == []
    ensures var t1: Preferences := map[1 := {3}];
            var t2: Preferences := map[1 := {3}, 3 := {2}];
            && !Prefers(w, map[], rank, 3, 1) && !Prefers(w, t1, rank, 2, 3)
            && Prefers(w, t2, rank, 1, 3) && Prefers(w, t2, rank, 3, 1)
            && forall x, y :: !Conflict(t2, x, y)
  {
    var t1: Preferences := map[1 := {3}];
    var t2: Preferences := map[1 := {3}, 3 := {2}];
    assert 2 in w.parents(1);
    assert !Prefers(w, map[], rank, 3, 2);
    assert Prefers(w, t2, rank, 3, 2);
    assert !Prefers(w, t1, rank, 2, 3);
  }
}
