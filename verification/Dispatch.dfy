/** Multimethod dispatch: preferences over a hierarchy and the scan for the dominant method. */
module Dispatch {
  import opened Options

  /** Dispatch values up to `=`, and method functions, by number. */
  type Val = int
  type Fn = int

  /** The hierarchy as dispatch sees it: `parents` lists a value's parents, `isa` is clojure.core/isa?. */
  datatype World = World(parents: Val -> seq<Val>, isa: (Val, Val) -> bool)

  type Preferences = map<Val, set<Val>>

  datatype Entry = Entry(val: Val, fn: Fn)

  /** No value is its own ancestor: parents have lower rank. */
  ghost predicate Acyclic(w: World, rank: Val -> nat) {
    forall v, p | p in w.parents(v) :: rank(p) < rank(v)
  }

  predicate Recorded(t: Preferences, x: Val, y: Val) {
    x in t && y in t[x]
  }

  /** Preferred directly, or through a parent of either side. */
  ghost predicate Prefers(w: World, t: Preferences, rank: Val -> nat, x: Val, y: Val)
    requires Acyclic(w, rank)
    decreases rank(x) + rank(y)
  {
    || Recorded(t, x, y)
    || (exists p <- w.parents(y) :: Prefers(w, t, rank, x, p))
    || (exists p <- w.parents(x) :: Prefers(w, t, rank, p, y))
  }

  /** a is x or one of its ancestors. */
  ghost predicate Above(w: World, rank: Val -> nat, x: Val, a: Val)
    requires Acyclic(w, rank)
    decreases rank(x)
  {
    a == x || exists p <- w.parents(x) :: Above(w, rank, p, a)
  }

  ghost predicate RecordedAbove(w: World, t: Preferences, rank: Val -> nat, x: Val, y: Val, a: Val, b: Val)
    requires Acyclic(w, rank)
  {
    Above(w, rank, x, a) && Above(w, rank, y, b) && Recorded(t, a, b)
  }

  /** x is preferred over y exactly when some ancestor-or-self of x is recorded over one of y. */
  lemma {:induction false} PrefersIff(w: World, t: Preferences, rank: Val -> nat, x: Val, y: Val)
    requires Acyclic(w, rank)
    ensures Prefers(w, t, rank, x, y) <==> exists a, b :: RecordedAbove(w, t, rank, x, y, a, b)
    decreases rank(x) + rank(y)
  {
    if Prefers(w, t, rank, x, y) {
      if Recorded(t, x, y) {
        assert RecordedAbove(w, t, rank, x, y, x, y);
      } else if exists p <- w.parents(y) :: Prefers(w, t, rank, x, p) {
        var p :| p in w.parents(y) && Prefers(w, t, rank, x, p);
        PrefersIff(w, t, rank, x, p);
        var a, b :| RecordedAbove(w, t, rank, x, p, a, b);
        assert RecordedAbove(w, t, rank, x, y, a, b);
      } else {
        var p :| p in w.parents(x) && Prefers(w, t, rank, p, y);
        PrefersIff(w, t, rank, p, y);
        var a, b :| RecordedAbove(w, t, rank, p, y, a, b);
        assert RecordedAbove(w, t, rank, x, y, a, b);
      }
    }
    if a, b :| RecordedAbove(w, t, rank, x, y, a, b) {
      if b != y {
        var p :| p in w.parents(y) && Above(w, rank, p, b);
        assert RecordedAbove(w, t, rank, x, p, a, b);
        PrefersIff(w, t, rank, x, p);
      } else if a != x {
        var p :| p in w.parents(x) && Above(w, rank, p, a);
        assert RecordedAbove(w, t, rank, p, y, a, b);
        PrefersIff(w, t, rank, p, y);
      }
    }
  }

  // ----- the scan -----

  /** A relation on dispatch values: `isa?`, or dominance as the scan asks for it. */
  type Relation = (Val, Val) -> bool

  datatype Pick = NoMatch | Picked(e: Entry) | Clash

  /** The scan over the table: a match that dominates the best so far replaces it, and the best must then
      dominate the match. */
  function Scan(isa: Relation, dom: Relation, dv: Val, es: seq<Entry>, best: Option<Entry>): Pick
    decreases es
  {
    if es == [] then
      match best
      case None => NoMatch
      case Some(b) => Picked(b)
    else if !isa(dv, es[0].val) then Scan(isa, dom, dv, es[1..], best)
    else
      var b := if best.None? || dom(es[0].val, best.value.val) then es[0] else best.value;
      if !dom(b.val, es[0].val) then Clash else Scan(isa, dom, dv, es[1..], Some(b))
  }

  predicate Matches(isa: Relation, dv: Val, e: Entry) {
    isa(dv, e.val)
  }

  predicate DistinctKeys(es: seq<Entry>) {
    forall i, j | 0 <= i < j < |es| :: es[i].val != es[j].val
  }

  /** Any two matching keys are comparable, and each dominates itself. */
  predicate Connex(isa: Relation, dom: Relation, dv: Val, es: seq<Entry>) {
    forall i, j | 0 <= i < |es| && 0 <= j < |es| && Matches(isa, dv, es[i]) && Matches(isa, dv, es[j]) ::
      dom(es[i].val, es[j].val) || dom(es[j].val, es[i].val)
  }

  /** e matches and strictly dominates every other match. */
  predicate Greatest(isa: Relation, dom: Relation, dv: Val, es: seq<Entry>, e: Entry) {
    && e in es && Matches(isa, dv, e)
    && forall x <- es :: Matches(isa, dv, x) && x.val != e.val ==> dom(e.val, x.val) && !dom(x.val, e.val)
  }

  /** The same table in another order. */
  ghost predicate Reordered(es: seq<Entry>, fs: seq<Entry>) {
    multiset(es) == multiset(fs)
  }

  lemma ReorderedIn(es: seq<Entry>, fs: seq<Entry>)
    requires Reordered(es, fs)
    ensures forall e :: e in es <==> e in fs
  {
    forall e ensures e in es <==> e in fs {
      assert e in multiset(es) <==> e in multiset(fs);
    }
  }

  /** Comparable matches: the scan never clashes, and picks the best so far or a later match. */
  lemma {:induction false} ScanPicks(isa: Relation, dom: Relation, dv: Val, es: seq<Entry>, best: Option<Entry>)
    requires forall x, y | x in es + Held(best) && y in es + Held(best) && Matches(isa, dv, x) && Matches(isa, dv, y) ::
               dom(x.val, y.val) || dom(y.val, x.val)
    requires best.Some? ==> Matches(isa, dv, best.value)
    ensures var r := Scan(isa, dom, dv, es, best);
            && !r.Clash? && (r.NoMatch? <==> best.None? && forall x <- es :: !Matches(isa, dv, x))
            && (r.Picked? ==> Matches(isa, dv, r.e) && r.e in es + Held(best))
    decreases es
  {
    if es != [] {
      var all := es + Held(best);
      assert es[0] in all;
      if Matches(isa, dv, es[0]) {
        if best.Some? { assert best.value in all; }
        var b := if best.None? || dom(es[0].val, best.value.val) then es[0] else best.value;
        assert forall x :: x in es[1..] + Held(Some(b)) ==> x in all;
        ScanPicks(isa, dom, dv, es[1..], Some(b));
      } else {
        assert forall x :: x in es[1..] + Held(best) ==> x in all;
        ScanPicks(isa, dom, dv, es[1..], best);
      }
    }
  }

  function Held<T>(b: Option<T>): seq<T> {
    if b.Some? then [b.value] else []
  }

  lemma ConnexIn(isa: Relation, dom: Relation, dv: Val, es: seq<Entry>)
    requires Connex(isa, dom, dv, es)
    ensures forall x, y | x in es && y in es && Matches(isa, dv, x) && Matches(isa, dv, y) :: dom(x.val, y.val) || dom(y.val, x.val)
  {}

  /** The scan of two tables one after the other. */
  lemma {:induction false} ScanAppend(isa: Relation, dom: Relation, dv: Val, es: seq<Entry>, fs: seq<Entry>, best: Option<Entry>)
    ensures Scan(isa, dom, dv, es + fs, best) ==
            match Scan(isa, dom, dv, es, best)
            case Clash => Clash
            case NoMatch => Scan(isa, dom, dv, fs, None)
            case Picked(b) => Scan(isa, dom, dv, fs, Some(b))
    decreases es
  {
    if es == [] {
      assert es + fs == fs;
    } else {
      assert (es + fs)[1..] == es[1..] + fs;
      if !isa(dv, es[0].val) {
        ScanAppend(isa, dom, dv, es[1..], fs, best);
      } else {
        var b := if best.None? || dom(es[0].val, best.value.val) then es[0] else best.value;
        ScanAppend(isa, dom, dv, es[1..], fs, Some(b));
      }
    }
  }

  /** A strictly greatest match wins from wherever the scan meets it. */
  lemma {:induction false} GreatestWins(isa: Relation, dom: Relation, dv: Val, es: seq<Entry>, best: Option<Entry>, e: Entry)
    requires e in es || best == Some(e)
    requires Matches(isa, dv, e) && dom(e.val, e.val) && (best.Some? ==> Matches(isa, dv, best.value))
    requires forall x | x in es + Held(best) && Matches(isa, dv, x) && x != e :: dom(e.val, x.val) && !dom(x.val, e.val)
    requires forall x, y | x in es + Held(best) && y in es + Held(best) && Matches(isa, dv, x) && Matches(isa, dv, y) ::
               dom(x.val, y.val) || dom(y.val, x.val)
    ensures Scan(isa, dom, dv, es, best) == Picked(e)
    decreases es
  {
    if es != [] {
      var all := es + Held(best);
      assert es[0] in all;
      if !isa(dv, es[0].val) {
        assert forall x :: x in es[1..] + Held(best) ==> x in all;
        GreatestWins(isa, dom, dv, es[1..], best, e);
      } else {
        if best.Some? { assert best.value in all; }
        var b := if best.None? || dom(es[0].val, best.value.val) then es[0] else best.value;
        assert forall x :: x in es[1..] + Held(Some(b)) ==> x in all;
        GreatestWins(isa, dom, dv, es[1..], Some(b), e);
      }
    }
  }

  // ----- the table in any order -----

  /** The answer for every order of the table. */
  ghost predicate AlwaysPicks(isa: Relation, dom: Relation, dv: Val, es: seq<Entry>, e: Entry) {
    forall fs | Reordered(es, fs) :: Scan(isa, dom, dv, fs, None) == Picked(e)
  }

  ghost predicate NeverClashes(isa: Relation, dom: Relation, dv: Val, es: seq<Entry>) {
    forall fs | Reordered(es, fs) :: !Scan(isa, dom, dv, fs, None).Clash?
  }

  function Without(es: seq<Entry>, i: nat): seq<Entry>
    requires i < |es|
  {
    es[..i] + es[i + 1..]
  }

  lemma FrontIsReordered(es: seq<Entry>, i: nat)
    requires i < |es|
    ensures Reordered(es, [es[i]] + Without(es, i)) && Reordered(es, Without(es, i) + [es[i]])
  {
    assert es == es[..i] + [es[i]] + es[i + 1..];
  }

  lemma TwoFrontIsReordered(es: seq<Entry>, i: nat, j: nat)
    requires i < j < |es|
    ensures var rest := Without(es, i);
            rest[j - 1] == es[j] && Reordered(es, [es[i], es[j]] + Without(rest, j - 1))
  {
    var rest := Without(es, i);
    FrontIsReordered(es, i);
    FrontIsReordered(rest, j - 1);
    assert [es[i], es[j]] + Without(rest, j - 1) == [es[i]] + ([rest[j - 1]] + Without(rest, j - 1));
  }

  /** Two matches met first must be comparable. */
  lemma PairFirst(isa: Relation, dom: Relation, dv: Val, a: Entry, b: Entry, rest: seq<Entry>)
    requires Matches(isa, dv, a) && Matches(isa, dv, b)
    requires !Scan(isa, dom, dv, [a, b] + rest, None).Clash?
    ensures dom(a.val, a.val) && (dom(a.val, b.val) || dom(b.val, a.val))
  {
    var es := [a, b] + rest;
    assert es[1..] == [b] + rest && ([b] + rest)[1..] == rest;
  }

  /** No order of the table clashes exactly when any two matches are comparable and each dominates itself. */
  lemma NeverClashesIff(isa: Relation, dom: Relation, dv: Val, es: seq<Entry>)
    ensures NeverClashes(isa, dom, dv, es) <==> Connex(isa, dom, dv, es)
  {
    hide Scan, Matches;
    if Connex(isa, dom, dv, es) {
      forall fs | Reordered(es, fs) ensures !Scan(isa, dom, dv, fs, None).Clash? {
        ReorderedIn(es, fs);
        ConnexIn(isa, dom, dv, es);
        assert fs + Held(None) == fs;
        ScanPicks(isa, dom, dv, fs, None);
      }
    }
    if NeverClashes(isa, dom, dv, es) {
      forall i, j | 0 <= i < |es| && 0 <= j < |es| && Matches(isa, dv, es[i]) && Matches(isa, dv, es[j])
        ensures dom(es[i].val, es[j].val) || dom(es[j].val, es[i].val)
      {
        var a, b := if i <= j then i else j, if i <= j then j else i;
        if a == b {
          FrontIsReordered(es, a);
          AloneFirst(isa, dom, dv, es[a], Without(es, a));
        } else {
          TwoFrontIsReordered(es, a, b);
          PairFirst(isa, dom, dv, es[a], es[b], Without(Without(es, a), b - 1));
        }
      }
    }
  }

  lemma AloneFirst(isa: Relation, dom: Relation, dv: Val, a: Entry, rest: seq<Entry>)
    requires Matches(isa, dv, a) && !Scan(isa, dom, dv, [a] + rest, None).Clash?
    ensures dom(a.val, a.val)
  {
    assert ([a] + rest)[0] == a;
  }

  /** A match met last loses only to an entry that strictly dominates it. */
  lemma Last(isa: Relation, dom: Relation, dv: Val, es: seq<Entry>, x: Entry, e: Entry)
    requires Matches(isa, dv, x) && x != e && Scan(isa, dom, dv, es + [x], None) == Picked(e)
    ensures dom(e.val, x.val) && !dom(x.val, e.val)
  {
    ScanAppend(isa, dom, dv, es, [x], None);
    assert [x][1..] == [];
  }

  /** Every order of the table gives e exactly when the matches are comparable and e strictly dominates the
      others. */
  lemma AlwaysPicksIff(isa: Relation, dom: Relation, dv: Val, es: seq<Entry>, e: Entry)
    requires DistinctKeys(es)
    ensures AlwaysPicks(isa, dom, dv, es, e) <==> Connex(isa, dom, dv, es) && Greatest(isa, dom, dv, es, e)
  {
    hide Scan;
    if Connex(isa, dom, dv, es) && Greatest(isa, dom, dv, es, e) {
      forall fs | Reordered(es, fs) ensures Scan(isa, dom, dv, fs, None) == Picked(e) {
        ReorderedIn(es, fs);
        ConnexIn(isa, dom, dv, es);
        assert fs + Held(None) == fs;
        SameKeySameEntry(es);
        GreatestWins(isa, dom, dv, fs, None, e);
      }
    }
    if AlwaysPicks(isa, dom, dv, es, e) {
      NeverClashesIff(isa, dom, dv, es);
      assert Reordered(es, es);
      ConnexIn(isa, dom, dv, es);
      assert es + Held(None) == es;
      ScanPicks(isa, dom, dv, es, None);
      forall x | x in es && Matches(isa, dv, x) && x.val != e.val ensures dom(e.val, x.val) && !dom(x.val, e.val) {
        var i :| 0 <= i < |es| && es[i] == x;
        FrontIsReordered(es, i);
        Last(isa, dom, dv, Without(es, i), x, e);
      }
    }
  }

  lemma SameKeySameEntry(es: seq<Entry>)
    requires DistinctKeys(es)
    ensures forall x, y | x in es && y in es && x.val == y.val :: x == y
  {}

  /** Dominance is a total order on the matching keys of the table. */
  predicate TotalOn(isa: Relation, dom: Relation, dv: Val, es: seq<Entry>) {
    && Connex(isa, dom, dv, es)
    && (forall a, b | a in es && b in es && Matches(isa, dv, a) && Matches(isa, dv, b) ::
          dom(a.val, b.val) && dom(b.val, a.val) ==> a.val == b.val)
    && (forall a, b, c | a in es && b in es && c in es && Matches(isa, dv, a) && Matches(isa, dv, b) && Matches(isa, dv, c) ::
          dom(a.val, b.val) && dom(b.val, c.val) ==> dom(a.val, c.val))
  }

  /** The scan of a part of the table, from a match of the whole, ends with one that dominates all it met. */
  lemma {:induction false} ScanDominates(isa: Relation, dom: Relation, dv: Val, es: seq<Entry>, best: Option<Entry>, all: seq<Entry>)
    requires TotalOn(isa, dom, dv, all) && (forall x | x in es + Held(best) :: x in all)
    requires best.Some? ==> Matches(isa, dv, best.value)
    ensures var r := Scan(isa, dom, dv, es, best);
            && (r.Picked? ==> r.e in all && Matches(isa, dv, r.e))
            && (r.Picked? ==> forall x | x in es + Held(best) && Matches(isa, dv, x) :: dom(r.e.val, x.val))
    decreases es
  {
    ConnexIn(isa, dom, dv, all);
    hide Connex;
    if best.Some? { assert best.value in es + Held(best); }
    if es != [] {
      assert es[0] in es + Held(best);
      var b := if Matches(isa, dv, es[0]) && (best.None? || dom(es[0].val, best.value.val)) then Some(es[0]) else best;
      assert forall x | x in es[1..] + Held(b) :: x in es + Held(best);
      ScanDominates(isa, dom, dv, es[1..], b, all);
      assert b.Some? ==> b.value in es[1..] + Held(b);
      assert forall x | x in es[1..] :: x in es[1..] + Held(b);
    }
  }

  /** Then there is a greatest match, and every order of the table finds it. */
  lemma TotalOrderDispatch(isa: Relation, dom: Relation, dv: Val, es: seq<Entry>)
    requires TotalOn(isa, dom, dv, es) && DistinctKeys(es) && exists x <- es :: Matches(isa, dv, x)
    ensures exists e :: Greatest(isa, dom, dv, es, e) && AlwaysPicks(isa, dom, dv, es, e)
  {
    hide Scan;
    assert es + Held(None) == es;
    ConnexIn(isa, dom, dv, es);
    ScanPicks(isa, dom, dv, es, None);
    ScanDominates(isa, dom, dv, es, None, es);
    var e := Scan(isa, dom, dv, es, None).e;
    SameKeySameEntry(es);
    assert Greatest(isa, dom, dv, es, e);
    AlwaysPicksIff(isa, dom, dv, es, e);
  }
}
