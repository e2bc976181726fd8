/** Patterns said of values alone: no marker, no constructor, no emitted form. */
module MatchPlain {
  import opened MatchForms
  import opened MatchPattern
  import opened MatchCompile
  import opened MatchRows
  import opened MatchSpecialize
  import opened MatchTheorems
  import opened MatchParse
  import opened MatchSurface
  import opened Options

  /** The value fits the pattern's shape.  A key is there or it is not; a key that is not fits what would accept the
      keyword the values of absent keys read as. */
  ghost predicate Fits(p: Pat, v: Value)
    decreases p
  {
    match p.head
    case HWild => true
    case HLit(l) => v == Scalar(l)
    case HSeq(isVec, sub, rest) =>
      && (v.Vec? || (v.Lst? && !isVec))
      && (|v.items| == |sub| || (|v.items| > |sub| && rest != None))
      && (forall i | 0 <= i < |sub| :: Fits(sub[i], v.items[i]))
    case HMap(keys, vals) =>
      && v.Map?
      && forall j | 0 <= j < |vals| && j < |keys| ::
           if keys[j] in v.entries then Fits(vals[j], v.entries[keys[j]])
           else !(vals[j].head.HWild? && vals[j].guards == []) && Fits(vals[j], Scalar(LKw("clojure.core.match/not-found")))
  }

  /** No map anywhere in the value holds that keyword as an entry. */
  ghost predicate Ordinary(v: Value)
    decreases v
  {
    match v
    case Scalar(_) => true
    case Vec(items) => forall i | 0 <= i < |items| :: Ordinary(items[i])
    case Lst(items) => forall i | 0 <= i < |items| :: Ordinary(items[i])
    case Map(entries) =>
      forall k | k in entries :: entries[k] != Scalar(LKw("clojure.core.match/not-found")) && Ordinary(entries[k])
  }

  /** Of ordinary values, what the compiler is proved against is this fit. */
  lemma {:induction false} FitsIff(p: Pat, v: Value)
    requires Ordinary(v)
    ensures Matches(p, v) <==> Fits(p, v)
    decreases p
  {
    match p.head
    case HSeq(isVec, sub, rest) =>
      if (v.Vec? || v.Lst?) && |v.items| >= |sub| {
        forall i | 0 <= i < |sub| ensures Matches(sub[i], v.items[i]) <==> Fits(sub[i], v.items[i]) {
          FitsIff(sub[i], v.items[i]);
        }
      }
    case HMap(keys, vals) =>
      if v.Map? {
        forall j | 0 <= j < |vals| && j < |keys|
          ensures (if IsBare(vals[j]) then Get(v, keys[j]) != ABSENT else Matches(vals[j], Get(v, keys[j]))) <==>
                  if keys[j] in v.entries then Fits(vals[j], v.entries[keys[j]])
                  else !(vals[j].head.HWild? && vals[j].guards == []) && Fits(vals[j], Scalar(LKw("clojure.core.match/not-found")))
        {
          FitsIff(vals[j], Get(v, keys[j]));
        }
      }
    case _ =>
  }

  /** The same of a pattern as written, `:or` as a choice. */
  ghost predicate FitsWritten(s: Surface, v: Value)
    decreases s
  {
    match s
    case SWild => true
    case SBind(_) => true
    case SLit(l) => v == Scalar(l)
    case SSeq(isVec, heads, tail) =>
      && (v.Vec? || (v.Lst? && !isVec))
      && (|v.items| == |heads| || (|v.items| > |heads| && !tail.NoTail?))
      && (forall i | 0 <= i < |heads| :: FitsWritten(heads[i], v.items[i]))
    case SMap(keys, vals) =>
      && v.Map?
      && forall j | 0 <= j < |vals| && j < |keys| ::
           if keys[j] in v.entries then FitsWritten(vals[j], v.entries[keys[j]])
           else !SBare(vals[j]) && FitsWritten(vals[j], Scalar(LKw("clojure.core.match/not-found")))
    case SOr(alts) => exists i | 0 <= i < |alts| :: FitsWritten(alts[i], v)
    case SGuard(inner, _, _) => FitsWritten(inner, v)
    case SAs(inner, _) => FitsWritten(inner, v)
  }

  lemma {:induction false} FitsWrittenIff(s: Surface, v: Value)
    requires Ordinary(v)
    ensures SMatches(s, v) <==> FitsWritten(s, v)
    decreases s
  {
    match s
    case SSeq(isVec, heads, tail) =>
      if (v.Vec? || v.Lst?) && |v.items| >= |heads| {
        forall i | 0 <= i < |heads| ensures SMatches(heads[i], v.items[i]) <==> FitsWritten(heads[i], v.items[i]) {
          FitsWrittenIff(heads[i], v.items[i]);
        }
      }
    case SMap(keys, vals) =>
      if v.Map? {
        forall j | 0 <= j < |vals| && j < |keys|
          ensures (if SBare(vals[j]) then Get(v, keys[j]) != ABSENT else SMatches(vals[j], Get(v, keys[j]))) <==>
                  if keys[j] in v.entries then FitsWritten(vals[j], v.entries[keys[j]])
                  else !SBare(vals[j]) && FitsWritten(vals[j], Scalar(LKw("clojure.core.match/not-found")))
        {
          FitsWrittenIff(vals[j], Get(v, keys[j]));
          if SBare(vals[j]) { BareFits(vals[j], Get(v, keys[j])); }
        }
      }
    case SOr(alts) =>
      forall i | 0 <= i < |alts| ensures SMatches(alts[i], v) <==> FitsWritten(alts[i], v) { FitsWrittenIff(alts[i], v); }
    case SGuard(inner, _, _) => FitsWrittenIff(inner, v);
    case SAs(inner, _) => FitsWrittenIff(inner, v);
    case _ =>
  }

  lemma {:induction false} BareFits(s: Surface, v: Value)
    requires SBare(s)
    ensures FitsWritten(s, v)
    decreases s
  {
    match s
    case SAs(inner, _) => BareFits(inner, v);
    case SOr(alts) =>
      var i :| 0 <= i < |alts| && SBare(alts[i]) && forall j | 0 <= j < |alts| && j != i :: Empty(alts[j]);
      BareFits(alts[i], v);
    case _ =>
  }

  /** So of ordinary values a reading accepts by this fit and its guards. */
  lemma ReadingAcceptsIff(sem: Sem, rho: Scope, cs: seq<Surface>, vs: seq<Value>)
    requires |cs| == |vs| && forall v <- vs :: Ordinary(v)
    ensures TupleAccepts(sem, rho, cs, vs) <==>
            && (forall i | 0 <= i < |cs| :: FitsWritten(cs[i], vs[i]))
            && (forall i | 0 <= i < |cs| :: SHolds(sem, rho, TupleBinds(cs, vs), cs[i], vs[i]))
  {
    hide SMatches, FitsWritten, SHolds, TupleBinds, Ordinary;
    forall i | 0 <= i < |cs| ensures SMatches(cs[i], vs[i]) <==> FitsWritten(cs[i], vs[i]) { FitsWrittenIff(cs[i], vs[i]); }
  }

  /** Alternatives are tried as they are written. */
  lemma OrInOrder(alts: seq<Surface>)
    requires alts != []
    ensures Readings(SOr(alts)) == Readings(alts[0]) + Readings(SOr(alts[1..]))
  {
    assert ReadingsAll(alts)[1..] == ReadingsAll(alts[1..]);
  }

  /** And so are clauses. */
  lemma {:induction false} ClausesInOrder(cs: seq<SurfaceClause>, c: SurfaceClause, arity: nat)
    ensures AllReadings(cs + [c], arity) == AllReadings(cs, arity) + AllReadings([c], arity)
  {
    hide ClauseReadings;
    if cs == [] {
      assert cs + [c] == [c];
    } else {
      ClausesInOrder(cs[1..], c, arity);
      assert (cs + [c])[1..] == cs[1..] + [c];
    }
  }

  // ----- one clause, run -----

  const X := User("x")
  const R := User("r")

  /** Match expression 0, which mentions nothing. */
  const SUBJECT: seq<Expr> := [Expr(0, [])]

  lemma OneClauseRuns(sem: Sem, c: Clause, n: nat)
    requires |c.pats| == 1 && ClauseOk(map[], c, 1) && Compatible(c.pats[0], c.pats[0])
    ensures var xs := [Slot(sem.expr(0, []), false)];
            Eval(sem, CompileMatch(SUBJECT, [c], n), map[]) ==
            if ClauseAccepts(sem, map[], c, xs) then RunAction(map[], BindAll(c.pats, xs), c.action) else NoMatch
  {
    var xs := [Slot(sem.expr(0, []), false)];
    OneClauseOk(c);
    assert ScopeEnv(map[]) == map[];
    assert Scrutinees(sem, map[], SUBJECT) == xs;
    MatchIsFirstClause(sem, map[], SUBJECT, [c], n);
    assert [c][1..] == [];
    assert FirstClause(sem, map[], [], xs) == NoMatch;
  }

  lemma OneClauseOk(c: Clause)
    requires |c.pats| == 1 && ClauseOk(map[], c, 1) && Compatible(c.pats[0], c.pats[0])
    ensures ClausesOk(map[], [c], 1) && NoCapturedNames([c]) && DisjointColumns([c]) && ExprsOk(map[], SUBJECT) && |SUBJECT| == 1
  {
    hide ClauseNames, ClauseFree, LinearClause, Compatible;
    assert forall d | d in [c] :: d == c;
    assert c.pats[0] in c.pats;
  }

  lemma SinglePattern(p: Pat, a: Action)
    requires WellFormed(p) && Linear(p) && Guards(p) == {} && (forall s | s in Names(p) :: s.User?)
    requires forall s | s in a.free :: s in Names(p)
    ensures ClauseOk(map[], Clause([p], a), 1)
  {
    hide Matches, Binds, Guards, Names, WellFormed, Linear;
    SingleAll(p, Slot(ABSENT, false));
    assert Clause([p], a).pats == [p];
  }

  lemma PlainAccepts(sem: Sem, p: Pat, a: Action, v: Value)
    requires Guards(p) == {}
    ensures ClauseAccepts(sem, map[], Clause([p], a), [Slot(v, false)]) <==> Matches(p, v)
    ensures BindAll([p], [Slot(v, false)]) == Binds(p, v, false)
  {
    hide Matches, Binds, Guards, Names;
    SingleAll(p, Slot(v, false));
  }

  lemma OneName(rho: Scope, bs: set<Bound>, s: Sym, v: Value, id: nat)
    requires bs == {Bound(s, v, false)} || (bs == {Bound(s, v, true)} && v != ABSENT)
    ensures RunAction(rho, bs, Action(id, [s])) == Done(id, [v])
  {
    var a := Action(id, [s]);
    assert Bound(s, v, false) in bs || Bound(s, v, true) in bs;
    assert ActionLook(rho, bs, s) == v;
    assert |RunAction(rho, bs, a).seen| == 1 && RunAction(rho, bs, a).seen[0] == v;
  }

  /** `[{k x}] x`: of a map whose entry at k, if any, is not the keyword absent keys read as, the emitted code gives
      the entry; without one it does not match. */
  lemma KeyPatternRuns(sem: Sem, e: map<Lit, Value>, k: Lit, n: nat)
    requires sem.expr(0, []) == Value.Map(e) && (k in e ==> e[k] != Scalar(LKw("clojure.core.match/not-found")))
    ensures var c := Clause([Pat(HMap([k], [Pat(HWild, [User("x")], [])]), [], [])], Action(1, [User("x")]));
            (forall d <- [c] :: |d.pats| == |[Expr(0, [])]|) &&
            Eval(sem, CompileMatch([Expr(0, [])], [c], n), map[]) == if k in e then Done(1, [e[k]]) else NoMatch
  {
    hide Matches, Binds, Guards, Names, WellFormed, Linear, Compatible, Eval, CompileMatch;
    var q, v := Pat(HWild, [X], []), Value.Map(e);
    var p := Pat(HMap([k], [q]), [], []);
    var a := Action(1, [X]);
    KeyPatternFacts(k, q, p);
    SinglePattern(p, a);
    OneClauseRuns(sem, Clause([p], a), n);
    PlainAccepts(sem, p, a, v);
    KeyPatternBinds(k, q, p, e);
    if k in e { OneName(map[], Binds(p, v, false), X, e[k], 1); }
  }

  lemma KeyPatternFacts(k: Lit, q: Pat, p: Pat)
    requires q == Pat(HWild, [X], []) && p == Pat(HMap([k], [q]), [], [])
    ensures WellFormed(p) && Linear(p) && Guards(p) == {} && Names(p) == {X} && Compatible(p, p)
  {
    assert q in [q] && Names(q) == {X} by { assert X in q.binds; }
    assert Guards(q) == {};
  }

  lemma KeyPatternBinds(k: Lit, q: Pat, p: Pat, e: map<Lit, Value>)
    requires q == Pat(HWild, [X], []) && p == Pat(HMap([k], [q]), [], [])
    requires k in e ==> e[k] != Scalar(LKw("clojure.core.match/not-found"))
    ensures Matches(p, Value.Map(e)) <==> k in e
    ensures k in e ==> Binds(p, Value.Map(e), false) == {Bound(X, e[k], true)} && e[k] != ABSENT
  {
    var v := Value.Map(e);
    assert IsBare([q][0]) && v.Map?;
    assert Matches(p, v) <==> Get(v, [k][0]) != ABSENT;
    if k in e {
      assert X in q.binds;
      assert Binds(q, e[k], true) == {Bound(X, e[k], true)};
    }
  }

  /** `[[_ & r]] r`: the emitted code gives the items after the first, as a vector, of any vector that has a first. */
  lemma RestPatternRuns(sem: Sem, v: Value, n: nat)
    requires sem.expr(0, []) == v
    ensures var c := Clause([Pat(HSeq(true, [Pat(HWild, [], [])], Some(User("r"))), [], [])], Action(1, [User("r")]));
            (forall d <- [c] :: |d.pats| == |[Expr(0, [])]|) &&
            Eval(sem, CompileMatch([Expr(0, [])], [c], n), map[]) ==
            if v.Vec? && v.items != [] then Done(1, [Vec(v.items[1..])]) else NoMatch
  {
    hide Matches, Binds, Guards, Names, WellFormed, Linear, Compatible, Eval, CompileMatch;
    var p := Pat(HSeq(true, [WILD], Some(R)), [], []);
    var a := Action(1, [R]);
    RestPatternFacts(p);
    SinglePattern(p, a);
    OneClauseRuns(sem, Clause([p], a), n);
    PlainAccepts(sem, p, a, v);
    RestPatternBinds(p, v);
    if v.Vec? && v.items != [] { OneName(map[], Binds(p, v, false), R, Vec(v.items[1..]), 1); }
  }

  lemma RestPatternFacts(p: Pat)
    requires p == Pat(HSeq(true, [WILD], Some(R)), [], [])
    ensures WellFormed(p) && Linear(p) && Guards(p) == {} && Names(p) == {R} && Compatible(p, p)
  {
    assert Names(WILD) == {} && Guards(WILD) == {};
  }

  lemma RestPatternBinds(p: Pat, v: Value)
    requires p == Pat(HSeq(true, [WILD], Some(R)), [], [])
    ensures Matches(p, v) <==> v.Vec? && v.items != []
    ensures Matches(p, v) ==> Binds(p, v, false) == {Bound(R, Vec(v.items[1..]), false)}
  {
    assert Binds(WILD, ABSENT, false) == {};
    if v.Vec? && v.items != [] {
      assert Matches(WILD, v.items[0]) && Binds(WILD, v.items[0], false) == {};
    }
  }
}
