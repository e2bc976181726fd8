/** Which method runs, said of the hierarchy, the recorded preferences and the keys alone. */
module MethodChoice {
  import opened Dispatch
  import opened MultiMethods
  import opened Options

  /** x isa y, or x or an ancestor of it is recorded over y or an ancestor of it. */
  ghost predicate Over(w: World, t: Preferences, rank: Val -> nat, x: Val, y: Val)
    requires Acyclic(w, rank)
  {
    w.isa(x, y) || PreferredOver(w, t, rank, x, y)
  }

  ghost predicate PreferredOver(w: World, t: Preferences, rank: Val -> nat, x: Val, y: Val)
    requires Acyclic(w, rank)
  {
    exists a, b :: Above(w, rank, x, a) && Above(w, rank, y, b) && Recorded(t, a, b)
  }

  lemma DomIs(w: World, t: Preferences, rank: Val -> nat)
    requires Acyclic(w, rank)
    ensures forall x, y :: DomOf(w, t, rank)(x, y) <==> Over(w, t, rank, x, y)
  {
    hide Prefers, Above, Recorded;
    forall x, y ensures DomOf(w, t, rank)(x, y) <==> Over(w, t, rank, x, y) {
      PrefersIff(w, t, rank, x, y);
      if a, b :| RecordedAbove(w, t, rank, x, y, a, b) { assert PreferredOver(w, t, rank, x, y); }
      if a, b :| Above(w, rank, x, a) && Above(w, rank, y, b) && Recorded(t, a, b) {
        assert RecordedAbove(w, t, rank, x, y, a, b);
      }
    }
  }

  /** A key equal to the dispatch value wins. */
  lemma ExactRuns(es: seq<Entry>, w: World, t: Preferences, rank: Val -> nat, default: Val, e: Entry)
    requires DistinctKeys(es) && e in es
    ensures MethodFor(es, w, t, rank, default, e.val) == Method(e.fn)
  {
    TableAt(es);
  }

  /** With no match the default's method runs, and without one there is none. */
  lemma DefaultRuns(es: seq<Entry>, w: World, t: Preferences, rank: Val -> nat, default: Val, dv: Val)
    requires DistinctKeys(es) && forall e <- es :: e.val != dv && !w.isa(dv, e.val)
    ensures forall e <- es | e.val == default :: MethodFor(es, w, t, rank, default, dv) == Method(e.fn)
    ensures (forall e <- es :: e.val != default) ==> MethodFor(es, w, t, rank, default, dv) == Missing
  {
    TableAt(es);
    NothingScans(w.isa, DomOf(w, t, rank), dv, es);
  }

  lemma {:induction false} NothingScans(isa: Relation, dom: Relation, dv: Val, es: seq<Entry>)
    requires forall e <- es :: !isa(dv, e.val)
    ensures Scan(isa, dom, dv, es, None) == NoMatch
    decreases es
  {
    if es != [] { NothingScans(isa, dom, dv, es[1..]); }
  }

  lemma {:induction false} NoKey(es: seq<Entry>, v: Val)
    requires forall e <- es :: e.val != v
    ensures v !in TableOf(es)
    decreases es
  {
    if es != [] { NoKey(es[1..], v); }
  }

  /** Without an exact match the scan decides. */
  lemma ScanDecides(es: seq<Entry>, w: World, t: Preferences, rank: Val -> nat, default: Val, dv: Val)
    requires forall e <- es :: e.val != dv
    ensures var r, m := Scan(w.isa, DomOf(w, t, rank), dv, es, None), MethodFor(es, w, t, rank, default, dv);
            (r.Clash? <==> m == Ambiguous) && (r.Picked? ==> m == Method(r.e.fn))
  {
    hide TableOf;
    NoKey(es, dv);
  }

  ghost predicate Comparable(es: seq<Entry>, w: World, t: Preferences, rank: Val -> nat, dv: Val)
    requires Acyclic(w, rank)
  {
    forall x, y | x in es && y in es && w.isa(dv, x.val) && w.isa(dv, y.val) ::
      Over(w, t, rank, x.val, y.val) || Over(w, t, rank, y.val, x.val)
  }

  lemma ConnexIff(es: seq<Entry>, w: World, t: Preferences, rank: Val -> nat, dv: Val)
    requires Acyclic(w, rank)
    ensures Connex(w.isa, DomOf(w, t, rank), dv, es) <==> Comparable(es, w, t, rank, dv)
  {
    hide DomOf, Over;
    DomIs(w, t, rank);
    if Connex(w.isa, DomOf(w, t, rank), dv, es) { ConnexIn(w.isa, DomOf(w, t, rank), dv, es); }
  }

  /** No order of the table is ambiguous exactly when of any two matching keys one is over the other. */
  lemma NeverAmbiguousIff(es: seq<Entry>, w: World, t: Preferences, rank: Val -> nat, default: Val, dv: Val)
    requires Acyclic(w, rank) && forall e <- es :: e.val != dv
    ensures (forall fs | Reordered(es, fs) :: MethodFor(fs, w, t, rank, default, dv) != Ambiguous) <==>
            Comparable(es, w, t, rank, dv)
  {
    hide Scan, DomOf, TableOf, MethodFor, Connex, Comparable;
    var dom := DomOf(w, t, rank);
    NeverClashesIff(w.isa, dom, dv, es);
    ConnexIff(es, w, t, rank, dv);
    forall fs | Reordered(es, fs)
      ensures MethodFor(fs, w, t, rank, default, dv) == Ambiguous <==> Scan(w.isa, dom, dv, fs, None).Clash?
    {
      ReorderedIn(es, fs);
      ScanDecides(fs, w, t, rank, default, dv);
    }
  }

  /** No preference bears on two matching keys. */
  ghost predicate NoPreferences(es: seq<Entry>, w: World, t: Preferences, rank: Val -> nat, dv: Val)
    requires Acyclic(w, rank)
  {
    forall x, y | x in es && y in es && w.isa(dv, x.val) && w.isa(dv, y.val) :: !PreferredOver(w, t, rank, x.val, y.val)
  }

  /** Let k be a matching key strictly below every other matching key, with no preference between matching keys.
      Every order of the table runs k's method exactly when the matching keys are pairwise related by isa. */
  lemma MostSpecificRunsIff(es: seq<Entry>, w: World, t: Preferences, rank: Val -> nat, default: Val, dv: Val, k: Entry)
    requires Acyclic(w, rank) && DistinctKeys(es) && (forall e <- es :: e.val != dv) && NoPreferences(es, w, t, rank, dv)
    requires k in es && w.isa(dv, k.val) && w.isa(k.val, k.val)
    requires forall x <- es | w.isa(dv, x.val) && x != k :: w.isa(k.val, x.val) && !w.isa(x.val, k.val)
    ensures (forall fs | Reordered(es, fs) :: MethodFor(fs, w, t, rank, default, dv) == Method(k.fn)) <==>
            forall x, y | x in es && y in es && w.isa(dv, x.val) && w.isa(dv, y.val) :: w.isa(x.val, y.val) || w.isa(y.val, x.val)
  {
    hide Scan, DomOf, TableOf, MethodFor, Connex, PreferredOver;
    var dom := DomOf(w, t, rank);
    DomIs(w, t, rank);
    NeverAmbiguousIff(es, w, t, rank, default, dv);
    ConnexIff(es, w, t, rank, dv);
    if Comparable(es, w, t, rank, dv) {
      SameKeySameEntry(es);
      assert Greatest(w.isa, dom, dv, es, k);
      AlwaysPicksIff(w.isa, dom, dv, es, k);
      forall fs | Reordered(es, fs) ensures MethodFor(fs, w, t, rank, default, dv) == Method(k.fn) {
        ReorderedIn(es, fs);
        ScanDecides(fs, w, t, rank, default, dv);
      }
    }
  }

  lemma {:induction false} TwoScan(isa: Relation, dom: Relation, dv: Val, es: seq<Entry>, best: Option<Entry>, x: Entry, y: Entry)
    requires forall e <- es + Held(best) :: isa(dv, e.val) ==> e == x || e == y
    requires isa(dv, x.val) && isa(dv, y.val) && dom(x.val, x.val) && dom(y.val, y.val) && !dom(y.val, x.val)
    requires best.Some? ==> isa(dv, best.value.val)
    requires x in es + Held(best) && (y in es || best == Some(y) || (best == Some(x) && dom(x.val, y.val)))
    ensures Scan(isa, dom, dv, es, best) == if dom(x.val, y.val) then Picked(x) else Clash
    decreases es
  {
    var all := es + Held(best);
    if best.Some? { assert best.value in all; }
    if es != [] {
      var e := es[0];
      assert e in all;
      var b := if isa(dv, e.val) && (best.None? || dom(e.val, best.value.val)) then Some(e) else best;
      assert forall z :: z in es[1..] + Held(b) ==> z in all;
      if !(isa(dv, e.val) && !dom(b.value.val, e.val)) { TwoScan(isa, dom, dv, es[1..], b, x, y); }
    }
  }

  /** Two matching keys, neither below the other.  A preference for one of them decides for its method; without any
      the call is ambiguous, in every order of the table. */
  lemma PreferenceDecides(es: seq<Entry>, w: World, t: Preferences, rank: Val -> nat, default: Val, dv: Val, x: Entry, y: Entry)
    requires Acyclic(w, rank) && (forall e <- es :: e.val != dv)
    requires x in es && y in es && forall e <- es :: w.isa(dv, e.val) <==> e == x || e == y
    requires w.isa(x.val, x.val) && w.isa(y.val, y.val) && !w.isa(x.val, y.val) && !w.isa(y.val, x.val)
    requires !PreferredOver(w, t, rank, y.val, x.val)
    ensures forall fs | Reordered(es, fs) ::
              MethodFor(fs, w, t, rank, default, dv) ==
              if PreferredOver(w, t, rank, x.val, y.val) then Method(x.fn) else Ambiguous
  {
    hide Scan, DomOf, TableOf, MethodFor, PreferredOver;
    DomIs(w, t, rank);
    forall fs | Reordered(es, fs)
      ensures MethodFor(fs, w, t, rank, default, dv) ==
              if PreferredOver(w, t, rank, x.val, y.val) then Method(x.fn) else Ambiguous
    {
      ReorderedIn(es, fs);
      assert fs + Held(None) == fs;
      TwoScan(w.isa, DomOf(w, t, rank), dv, fs, None, x, y);
      ScanDecides(fs, w, t, rank, default, dv);
    }
  }

  /** With both preferred over each other the one met last runs. */
  lemma MutualLastRuns(w: World, t: Preferences, rank: Val -> nat, default: Val, dv: Val, x: Entry, y: Entry)
    requires Acyclic(w, rank) && x.val != dv && y.val != dv && w.isa(dv, x.val) && w.isa(dv, y.val)
    requires w.isa(x.val, x.val) && w.isa(y.val, y.val)
    requires PreferredOver(w, t, rank, x.val, y.val) && PreferredOver(w, t, rank, y.val, x.val)
    ensures MethodFor([x, y], w, t, rank, default, dv) == Method(y.fn)
  {
    hide DomOf, TableOf, MethodFor, PreferredOver;
    DomIs(w, t, rank);
    var dom := DomOf(w, t, rank);
    assert Over(w, t, rank, y.val, x.val) && Over(w, t, rank, y.val, y.val) && Over(w, t, rank, x.val, x.val);
    assert dom(y.val, x.val) && dom(y.val, y.val) && dom(x.val, x.val);
    assert [x, y][1..] == [y] && [y][1..] == [];
    assert Scan(w.isa, dom, dv, [y], Some(x)) == Picked(y);
    ScanDecides([x, y], w, t, rank, default, dv);
  }

  // ----- a most specific method is not enough -----

  /** 0 derived from 1, and 1 from the unrelated 2 and 3. */
  const DIAMOND := World(v => if v == 0 then [1] else if v == 1 then [2, 3] else [],
                         (x, y) => x == y || (x == 0 && 1 <= y <= 3) || (x == 1 && 2 <= y <= 3))

  ghost function DiamondRank(): Val -> nat {
    v => if v == 0 then 2 else if v == 1 then 1 else 0
  }

  /** 1's method is the most specific for 0, and runs when it is met first; met last, 2 and 3 have clashed before. */
  lemma SpecificCanBeAmbiguous(f: Fn, g: Fn, h: Fn, default: Val)
    ensures var a, b, c := Entry(1, f), Entry(2, g), Entry(3, h);
            && Acyclic(DIAMOND, DiamondRank()) && Reordered([a, b, c], [b, c, a])
            && MethodFor([a, b, c], DIAMOND, map[], DiamondRank(), default, 0) == Method(f)
            && MethodFor([b, c, a], DIAMOND, map[], DiamondRank(), default, 0) == Ambiguous
  {
    var a, b, c := Entry(1, f), Entry(2, g), Entry(3, h);
    var dom := DomOf(DIAMOND, map[], DiamondRank());
    DiamondDominates();
    DiamondScans(DIAMOND.isa, dom, a, b, c);
    Rotated(a, b, c);
    hide *;
    ScanDecides([a, b, c], DIAMOND, map[], DiamondRank(), default, 0);
    ScanDecides([b, c, a], DIAMOND, map[], DiamondRank(), default, 0);
  }

  lemma DiamondDominates()
    ensures Acyclic(DIAMOND, DiamondRank())
    ensures forall x, y | 1 <= x <= 3 && 1 <= y <= 3 :: DomOf(DIAMOND, map[], DiamondRank())(x, y) <==> x == y || x == 1
  {
    hide Prefers;
    DomIs(DIAMOND, map[], DiamondRank());
  }

  lemma DiamondScans(isa: Relation, dom: Relation, a: Entry, b: Entry, c: Entry)
    requires a.val == 1 && b.val == 2 && c.val == 3 && isa(0, 1) && isa(0, 2) && isa(0, 3)
    requires forall x, y | 1 <= x <= 3 && 1 <= y <= 3 :: dom(x, y) <==> x == y || x == 1
    ensures Scan(isa, dom, 0, [a, b, c], None) == Picked(a) && Scan(isa, dom, 0, [b, c, a], None) == Clash
  {
    assert [a, b, c][1..] == [b, c] && [b, c][1..] == [c] && [c][1..] == [];
    assert Scan(isa, dom, 0, [c], Some(a)) == Picked(a);
    assert Scan(isa, dom, 0, [b, c], Some(a)) == Picked(a);
    assert [b, c, a][1..] == [c, a];
    assert Scan(isa, dom, 0, [c, a], Some(b)) == Clash;
  }
}
