/** Where the promise stops, and what the returned flag says. */
module MatchLimits {
  import opened MatchForms
  import opened MatchPattern
  import opened MatchCompile
  import opened MatchRows
  import opened MatchSpecialize
  import opened MatchEval
  import opened MatchCorrect
  import opened MatchTheorems
  import opened Options

  // ----- the flag `compile` returns with its form -----

  predicate Occurs(g: Form, f: Form)
    decreases f, 0
  {
    g == f ||
    match f
    case FCall(_, args) => OccursAny(g, args)
    case FAnd(args) => OccursAny(g, args)
    case FIf(a, b, c) => Occurs(g, a) || Occurs(g, b) || Occurs(g, c)
    case FLet(binds, body) => OccursBind(g, binds) || Occurs(g, body)
    case FFn(body) => Occurs(g, body)
    case _ => false
  }

  predicate OccursAny(g: Form, fs: seq<Form>)
    decreases fs, 0
  {
    fs != [] && (Occurs(g, fs[0]) || OccursAny(g, fs[1..]))
  }

  predicate OccursBind(g: Form, bs: seq<Binding>)
    decreases bs, 0
  {
    bs != [] &&
    (assert bs[0].form < bs[0]; Occurs(g, bs[0].form) || OccursBind(g, bs[1..]))
  }

  lemma {:induction false} ChainTail(g: Form, occ: Sym, ctors: seq<Ctor>, branches: seq<Form>, tail: Form)
    requires |ctors| == |branches| && Occurs(g, tail)
    ensures Occurs(g, Chain(occ, ctors, branches, tail))
  {
    if ctors != [] {
      ChainTail(g, occ, ctors[1..], branches[1..], tail);
    }
  }

  lemma OccursSelf(g: Form)
    ensures Occurs(g, g)
  {
  }

  lemma LeafOccurs(g: Form, binds: seq<Bind>, test: Form, act: Form, rest: Form)
    requires Occurs(g, rest)
    ensures Occurs(g, WithLet(binds, FIf(test, act, rest)))
  {
    assert Occurs(g, FIf(test, act, rest));
  }

  lemma DispatchOccurs(g: Form, thunk: Sym, def: Form, chain: Form)
    requires Occurs(g, def)
    ensures Occurs(g, FLet([Binding(thunk, FFn(def))], chain))
  {
    var bs := [Binding(thunk, FFn(def))];
    assert Occurs(g, FFn(def)) && bs[0].form == FFn(def);
    assert OccursBind(g, bs);
  }

  /** The flag is exact: when it is set the fail form is in the output, and when it is clear the output
      is the same whatever the fail form. */
  lemma {:induction false} UsedIsExact(occs: seq<Sym>, rows: seq<Row>, fail: Form, other: Form, n: nat)
    requires Aligned(rows, |occs|)
    ensures var c, d := Compile(occs, rows, fail, n), Compile(occs, rows, other, n);
            && c.used == d.used && c.n == d.n
            && (c.used ==> Occurs(fail, c.form))
            && (!c.used ==> c.form == d.form)
    decreases Total(rows), |rows|
  {
    hide *;
    if rows == [] {
      EmptyCompile(occs, fail, n);
      EmptyCompile(occs, other, n);
      OccursSelf(fail);
    } else {
      AlignedHead(rows, |occs|);
      var col := FirstRefutable(rows[0].cols);
      if col < 0 {
        CompileLeaf(occs, rows, fail, n);
        CompileLeaf(occs, rows, other, n);
        TotalRest(rows);
        UsedIsExact(occs, rows[1..], fail, other, n);
        var binds, tests, rest := LeafBinds(rows[0], occs), LeafTests(rows[0]), Compile(occs, rows[1..], fail, n);
        if tests != [] && rest.used {
          LeafOccurs(fail, binds, AndForm(tests), Unsentinel(binds, rows[0].action), rest.form);
        }
      } else {
        CompileDispatch(occs, rows, fail, n);
        CompileDispatch(occs, rows, other, n);
        var defRows, defOccs, ctors := DefaultMatrix(rows, col, occs[col]), RemoveAt(occs, col), DistinctCtors(rows, col);
        UsedIsExact(defOccs, defRows, fail, other, n);
        var def := Compile(defOccs, defRows, fail, n);
        var thunk := Gen("fail", def.n + 1);
        var br := Branches(occs, rows, col, ctors, FThunk(thunk), def.n + 1);
        var chain := Chain(occs[col], ctors, br.forms, if br.used then FThunk(thunk) else def.form);
        if def.used && br.used {
          DispatchOccurs(fail, thunk, def.form, chain);
        } else if def.used {
          ChainTail(fail, occs[col], ctors, br.forms, def.form);
        }
      }
    }
  }

  lemma AlignedHead(rows: seq<Row>, k: nat)
    requires Aligned(rows, k) && rows != []
    ensures |rows[0].cols| == k
  {
    assert rows[0] in rows;
  }

  // ----- overlapping constructors -----

  const X := User("x")

  /** The constructor's pattern with wildcards below, asking a guard, then the other's without one. */
  function ProbePat(ct: Ctor, guarded: bool): Pat
    requires ct.CSeq?
  {
    Pat(HSeq(ct.isVec, Wilds(ct.arity), if ct.hasRest then Some(User("r")) else None), [X],
        if guarded then [Guard(0, [], X)] else [])
  }

  function Probe(a: Ctor, b: Ctor): seq<Clause>
    requires a.CSeq? && b.CSeq?
  {
    [Clause([ProbePat(a, true)], Action(1, [])), Clause([ProbePat(b, false)], Action(2, []))]
  }

  const PROBE_EXPRS := [Expr(0, [])]

  /** The guard answers no, and the match expression is v. */
  ghost function ProbeSem(v: Value): Sem {
    Sem((p, vs, x) => false, (id, vs) => v)
  }

  lemma ProbePatFacts(ct: Ctor, guarded: bool)
    requires ct.CSeq?
    ensures var p := ProbePat(ct, guarded);
            && WellFormed(p) && Linear(p) && !IsWild(p) && CtorOf(p) == ct
            && Names(p) <= {X, User("r")}
            && Guards(p) == (if guarded then {Guard(0, [], X)} else {})
            && (forall v :: Matches(p, v) <==> CtorAccepts(ct, v))
            && X in Names(p)
  {
    var p := ProbePat(ct, guarded);
    assert Names(WILD) == {} && Guards(WILD) == {} && Linear(WILD) && WellFormed(WILD);
    assert forall q | q in p.head.sub :: q == WILD;
    assert forall i | 0 <= i < |p.head.sub| :: p.head.sub[i] in p.head.sub;
    assert X in p.binds;
  }

  lemma OnePatClause(p: Pat, a: Action)
    requires WellFormed(p) && Linear(p) && Names(p) <= {X, User("r")} && X in Names(p) && a.free == []
    requires Guards(p) <= {Guard(0, [], X)}
    ensures ClauseOk(map[], Clause([p], a), 1)
    ensures ClauseNames(Clause([p], a)) == Names(p) && ClauseFree(Clause([p], a)) <= {X}
  {
    hide Matches, Binds, Guards, Names, WellFormed, Linear;
    SingleAll(p, Slot(ABSENT, false));
    assert Clause([p], a).pats == [p];
    assert forall g | g in GuardAll([p]) :: g == Guard(0, [], X);
  }

  lemma ProbeReady(a: Ctor, b: Ctor)
    requires a.CSeq? && b.CSeq?
    ensures ExprsOk(map[], PROBE_EXPRS) && NoCapturedNames(Probe(a, b)) && ClausesOk(map[], Probe(a, b), 1)
    ensures |PROBE_EXPRS| == 1
  {
    hide *;
    var p, q := ProbePat(a, true), ProbePat(b, false);
    var c, d := Clause([p], Action(1, [])), Clause([q], Action(2, []));
    ProbePatFacts(a, true);
    ProbePatFacts(b, false);
    OnePatClause(p, Action(1, []));
    OnePatClause(q, Action(2, []));
    TwoClauses(c, d);
    ProbeIs(a, b);
  }

  lemma ProbeIs(a: Ctor, b: Ctor)
    requires a.CSeq? && b.CSeq?
    ensures Probe(a, b) == [Clause([ProbePat(a, true)], Action(1, [])), Clause([ProbePat(b, false)], Action(2, []))]
    ensures ExprsOk(map[], PROBE_EXPRS) && |PROBE_EXPRS| == 1
  {
  }

  lemma TwoClauses(c: Clause, d: Clause)
    requires ClauseOk(map[], c, 1) && ClauseOk(map[], d, 1) && X in ClauseNames(d) && ClauseFree(d) <= {X}
    ensures NoCapturedNames([c, d]) && ClausesOk(map[], [c, d], 1)
  {
    hide ClauseNames, ClauseFree, LinearClause;
    assert ClauseOk(map[], c, 1) && ClauseOk(map[], d, 1);
  }

  /** An overlapping value of the first constructor never reaches the second clause: `specialize` drops
      that clause and the default matrix has no row for it. */
  lemma OverlapLosesRow(a: Ctor, b: Ctor, v: Value, n: nat)
    requires a.CSeq? && b.CSeq? && a != b && BothAccept(a, b, v)
    requires forall c <- Probe(a, b) :: |c.pats| == |PROBE_EXPRS|
    requires ExprsOk(map[], PROBE_EXPRS)
    ensures FirstClause(ProbeSem(v), map[], Probe(a, b), Scrutinees(ProbeSem(v), map[], PROBE_EXPRS)) == Done(2, [])
    ensures Eval(ProbeSem(v), CompileMatch(PROBE_EXPRS, Probe(a, b), n), ScopeEnv(map[])) == NoMatch
  {
    ProbeFirst(a, b, v);
    ProbeTree(a, b, v, n);
  }

  lemma ProbeRefuses(p: Pat, x: Slot, act: Action, v: Value)
    requires Guards(p) == {Guard(0, [], X)}
    ensures !ClauseAccepts(ProbeSem(v), map[], Clause([p], act), [x])
  {
    hide Matches, Binds, Guards, Names;
    SingleAll(p, x);
    assert Guard(0, [], X) in GuardAll(Clause([p], act).pats);
    assert !GuardHolds(ProbeSem(v), map[], BindAll(Clause([p], act).pats, [x]), Guard(0, [], X));
  }

  lemma ProbeAccepts(p: Pat, x: Slot, act: Action, v: Value)
    requires Guards(p) == {} && Matches(p, x.v)
    ensures ClauseAccepts(ProbeSem(v), map[], Clause([p], act), [x])
  {
    hide Matches, Binds, Guards, Names;
    SingleAll(p, x);
  }

  lemma ProbeFirst(a: Ctor, b: Ctor, v: Value)
    requires a.CSeq? && b.CSeq? && BothAccept(a, b, v) && ExprsOk(map[], PROBE_EXPRS)
    ensures FirstClause(ProbeSem(v), map[], Probe(a, b), Scrutinees(ProbeSem(v), map[], PROBE_EXPRS)) == Done(2, [])
  {
    var cs, sem := Probe(a, b), ProbeSem(v);
    var xs := [Slot(v, false)];
    assert Scrutinees(sem, map[], PROBE_EXPRS) == xs;
    ProbePatFacts(a, true);
    ProbePatFacts(b, false);
    ProbeRefuses(ProbePat(a, true), xs[0], Action(1, []), v);
    ProbeAccepts(ProbePat(b, false), xs[0], Action(2, []), v);
    hide Matches, Binds, Guards, Names, WellFormed, Linear, ProbePat, ClauseAccepts, Scrutinees, BindAll;
    assert cs[1..] == [cs[1]];
    assert FirstClause(sem, map[], cs[1..], xs) == RunAction(map[], BindAll(cs[1].pats, xs), Action(2, []));
  }

  /** The guard is false of everything, so the row never runs. */
  lemma ProbeRowGuard(a: Ctor, b: Ctor, v: Value, occs: seq<Sym>, w: World)
    requires a.CSeq? && b.CSeq? && |occs| == 1 && Known(occs, w)
    requires RowIn(RowOf(Probe(a, b)[0]), occs, w)
    ensures Guard(0, [], X) in RowGuards(RowOf(Probe(a, b)[0]))
  {
    ProbePatFacts(a, true);
    hide Matches, Binds, Guards, Names, WellFormed, Linear, ProbePat, RowBinds, RowMatches;
    var r := RowOf(Probe(a, b)[0]);
    SingleAll(r.cols[0], Slot(v, false));
    assert Guard(0, [], X) in RowGuards(r);
  }

  lemma ProbeCtors(a: Ctor, b: Ctor, occ: Sym)
    requires a.CSeq? && b.CSeq? && a != b
    ensures var rows := RowsOf(Probe(a, b));
            && Aligned(rows, 1) && (forall r <- rows :: 0 < |r.cols|)
            && DistinctCtors(rows, 0) == [a, b] && DefaultMatrix(rows, 0, occ) == [] && KeysCovered(rows, 0, a)
  {
    ProbePatFacts(a, true);
    ProbePatFacts(b, false);
    hide Matches, Binds, Guards, Names, WellFormed, Linear, ProbePat;
    var rows := RowsOf(Probe(a, b));
    assert rows == [rows[0], rows[1]];
    assert rows[1..] == [rows[1]] && rows[1..][1..] == [];
    assert !ProbePat(a, true).head.HMap? && !ProbePat(b, false).head.HMap?;
    assert [] + [a] == [a];
    assert Collect(rows[1..][1..], 0, [a] + [b], []) == ([a] + [b], []);
    assert Collect(rows[1..], 0, [a], []) == ([a] + [b], []);
    assert Collect(rows, 0, [], []) == ([a] + [b], []);
    assert WithKeys([a] + [b], []) == [a, b];
    assert DefaultMatrix(rows[1..][1..], 0, occ) == [] && DefaultMatrix(rows[1..], 0, occ) == [];
  }

  /** The column's constructors, and what each matrix keeps. */
  lemma ProbeMatrix(a: Ctor, b: Ctor, occ: Sym, n: nat)
    requires a.CSeq? && b.CSeq? && a != b
    ensures var rows := RowsOf(Probe(a, b));
            && |rows| == 2 && rows[0] == RowOf(Probe(a, b)[0]) && |rows[0].cols| == 1 && (forall r <- rows :: 0 < |r.cols|)
            && FirstRefutable(rows[0].cols) == 0
            && (forall nr | nr in Specialize(rows, 0, a, occ, SubOccs(a, n)) ::
                  SpecializeRow(rows[0], 0, a, occ, SubOccs(a, n)) == Some(nr))
  {
    ProbePatFacts(a, true);
    ProbePatFacts(b, false);
    hide Matches, Binds, Guards, Names, WellFormed, Linear, ProbePat;
    var rows, subs := RowsOf(Probe(a, b)), SubOccs(a, n);
    assert rows == [rows[0], rows[1]];
    assert rows[1..] == [rows[1]] && rows[1..][1..] == [];
    assert SpecializeRow(rows[1], 0, a, occ, subs) == None;
    assert Specialize(rows[1..], 0, a, occ, subs) == [];
  }

  lemma ProbeTree(a: Ctor, b: Ctor, v: Value, n: nat)
    requires a.CSeq? && b.CSeq? && a != b && CtorAccepts(a, v)
    requires forall c <- Probe(a, b) :: |c.pats| == |PROBE_EXPRS|
    requires ExprsOk(map[], PROBE_EXPRS)
    ensures Eval(ProbeSem(v), CompileMatch(PROBE_EXPRS, Probe(a, b), n), ScopeEnv(map[])) == NoMatch
  {
    hide *;
    var sem, rho, cs := ProbeSem(v), map[], Probe(a, b);
    var xs, rows, occs := Scrutinees(sem, rho, PROBE_EXPRS), RowsOf(cs), EntryOccs(1, n);
    ProbeReady(a, b);
    OkIsSafe(rho, cs, 1);
    ProbeMatrix(a, b, occs[0], n + 2);
    ProbeCtors(a, b, occs[0]);
    ProbeSlots(v);
    var w := EntryWorld(xs, n);
    var env := EntryLet(sem, rho, PROBE_EXPRS, n);
    EntryReady(rho, cs, occs, n + 1, w, env);
    ReadyFacts(rho, {}, rows, occs, n + 1, env, w);
    OccFacts(rho, {}, rows, occs, n + 1, env, w, 0);
    ThrowFails(sem, n + 1, env);
    SlotIs(occs, w, v);
    assert w[occs[0]] == v;
    CompileDispatch(occs, rows, FThrow, n + 1);
    EmptyCompile(RemoveAt(occs, 0), FThrow, n + 1);
    var thunk := Gen("fail", n + 2);
    var br := Branches(occs, rows, 0, [a, b], FThunk(thunk), n + 2);
    var tail := if br.used then FThunk(thunk) else FThrow;
    var chain := Chain(occs[0], [a, b], br.forms, tail);
    var env1 := if br.used then env[thunk := DThunk(NoMatch)] else env;
    ThunkLet(sem, thunk, FThrow, chain, env);
    ThunkReady(rho, {}, rows, occs, n + 1, n + 2, env, env1, w, thunk, NoMatch);
    BranchesStep(occs, rows, 0, [a, b], FThunk(thunk), tail, n + 2);
    OccFacts(rho, {}, rows, occs, n + 2, env1, w, 0);
    CtorTestMeans(sem, occs[0], a, env1, v);
    var subs, w1 := SubOccs(a, n + 2), SubWorld(w, a, v, n + 2);
    var spec, o1 := Specialize(rows, 0, a, occs[0], subs), SpliceAt(occs, 0, subs);
    var c := Compile(o1, spec, FThunk(thunk), n + 2 + Width(a));
    var rest := Branches(occs, rows, 0, [a, b][1..], FThunk(thunk), c.n);
    var form := WithPairs(LetPairs(occs[0], a, n + 2), c.form);
    IfMeans(sem, CtorTest(occs[0], a), form, Chain(occs[0], [a, b][1..], rest.forms, tail), env1, true);
    BranchSpecMeans(sem, rho, {}, occs, rows, 0, a, FThunk(thunk), n + 2, env1, w);
    ProbeRowGuard(a, b, v, occs, w);
    SpecializeRowSame(rows[0], 0, a, occs, subs, w, w1);
    NoAnswers(v, rho, rows[0], spec, occs, o1, 0, a, subs, w, w1, Eval(sem, form, env1), Eval(sem, FThunk(thunk), env1), c.used);
    CompileMatchIs(PROBE_EXPRS, cs, n);
    WithPairsMeans(sem, EntryPairs(PROBE_EXPRS, n), Compile(occs, rows, FThrow, n + 1).form, ScopeEnv(rho), env);
  }

  lemma ProbeSlots(v: Value)
    requires ExprsOk(map[], PROBE_EXPRS)
    ensures Scrutinees(ProbeSem(v), map[], PROBE_EXPRS) == [Slot(v, false)]
  {
  }

  lemma SlotIs(occs: seq<Sym>, w: World, v: Value)
    requires |occs| == 1 && Known(occs, w) && Slots(occs, w) == [Slot(v, false)]
    ensures occs[0] in w && w[occs[0]] == v
  {
    assert occs[0] in occs;
    assert Slots(occs, w)[0].v == w[occs[0]];
  }

  lemma EmptyCompile(occs: seq<Sym>, fail: Form, n: nat)
    ensures Aligned([], |occs|) && Compile(occs, [], fail, n) == Compiled(fail, true, n)
  {
  }

  lemma NoAnswers(v: Value, rho: Scope, r: Row, spec: seq<Row>, occs: seq<Sym>, o1: seq<Sym>, col: nat, ct: Ctor, subs: seq<Sym>,
      w: World, w1: World, res: Result, fail: Result, used: bool)
    requires col < |r.cols| && col < |occs| && |subs| == Width(ct) && RowsIn(spec, o1, w1)
    requires RowIn(r, occs, w) && Guard(0, [], X) in RowGuards(r)
    requires forall nr | nr in spec :: SpecializeRow(r, col, ct, occs[col], subs) == Some(nr)
    requires match SpecializeRow(r, col, ct, occs[col], subs) case None => true case Some(nr) => SameRow(nr, o1, w1, r, occs, w)
    requires Meets(ProbeSem(v), rho, {}, spec, o1, w1, res, fail, used)
    ensures res == fail && used
  {
    hide RowBinds, RowMatches, RowNames, RowIn, SpecializeRow, RowGuards, ProbeSem;
    forall nr | nr in spec ensures Guard(0, [], X) in RowGuards(nr) {
    }
    NothingRan(v, rho, {}, spec, o1, w1, res);
  }

  lemma {:induction false} NothingRan(v: Value, rho: Scope, before: set<Bound>, rows: seq<Row>, occs: seq<Sym>, w: World, res: Result)
    requires RowsIn(rows, occs, w) && forall r | r in rows :: Guard(0, [], X) in RowGuards(r)
    ensures !RanSome(ProbeSem(v), rho, before, rows, occs, w, res)
    decreases |rows|
  {
    hide RowBinds, RowMatches, RowIn, RowGuards, ActionSaw, Saw;
    if rows != [] {
      assert rows[0] in rows && forall r | r in rows[1..] :: r in rows;
      assert !GuardSaw(ProbeSem(v), rho, before, RowBinds(rows[0], occs, w), Guard(0, [], X));
      NothingRan(v, rho, before + RowBinds(rows[0], occs, w), rows[1..], occs, w, res);
    }
  }

  lemma ProbesFit(a: Ctor, b: Ctor, g: bool, h: bool)
    requires a.CSeq? && b.CSeq? && (a == b || CtorsDisjoint(a, b))
    ensures WellFormed(ProbePat(a, g)) && WellFormed(ProbePat(b, h)) && Compatible(ProbePat(a, g), ProbePat(b, h))
  {
    hide Matches, Binds, Guards, Names, Linear;
    ProbePatFacts(a, g);
    ProbePatFacts(b, h);
    if a == b {
      var p, q := ProbePat(a, g), ProbePat(b, h);
      forall i | 0 <= i < |p.head.sub| ensures WellFormed(p.head.sub[i]) && Compatible(p.head.sub[i], q.head.sub[i]) {
        assert p.head.sub[i] == WILD && q.head.sub[i] == WILD;
      }
    }
  }

  lemma ProbeCompatible(a: Ctor, b: Ctor)
    requires a.CSeq? && b.CSeq? && CtorsDisjoint(a, b) && a != b
    ensures DisjointColumns(Probe(a, b))
  {
    hide Matches, Binds, Guards, Names, Linear, Compatible, WellFormed, ProbePat;
    assert CtorsDisjoint(b, a);
    ProbesFit(a, a, true, true);
    ProbesFit(a, b, true, false);
    ProbesFit(b, a, false, true);
    ProbesFit(b, b, false, false);
    var p, q := ProbePat(a, true), ProbePat(b, false);
    forall c, d | c in Probe(a, b) && d in Probe(a, b)
      ensures forall i | 0 <= i < |c.pats| && i < |d.pats| ::
                WellFormed(c.pats[i]) && WellFormed(d.pats[i]) && Compatible(c.pats[i], d.pats[i])
    {
      assert c.pats == [p] || c.pats == [q];
      assert d.pats == [p] || d.pats == [q];
    }
  }

  /** The premise is exact: of two different sequence constructors, the compiled tree agrees with the
      clauses on every value if and only if no value is both. */
  lemma DisjointIffFaithful(a: Ctor, b: Ctor, n: nat)
    requires a.CSeq? && b.CSeq? && a != b
    requires ExprsOk(map[], PROBE_EXPRS) && forall c <- Probe(a, b) :: |c.pats| == |PROBE_EXPRS|
    ensures CtorsDisjoint(a, b) <==>
            forall v :: Eval(ProbeSem(v), CompileMatch(PROBE_EXPRS, Probe(a, b), n), ScopeEnv(map[])) ==
                        FirstClause(ProbeSem(v), map[], Probe(a, b), Scrutinees(ProbeSem(v), map[], PROBE_EXPRS))
  {
    hide *;
    ProbeReady(a, b);
    CtorsDisjointExact(a, b);
    if CtorsDisjoint(a, b) {
      ProbeCompatible(a, b);
      forall v {
        MatchIsFirstClause(ProbeSem(v), map[], PROBE_EXPRS, Probe(a, b), n);
      }
    } else {
      var v :| BothAccept(a, b, v);
      OverlapLosesRow(a, b, v, n);
    }
  }

  // ----- names captured by a failed row -----

  /** `[(x :guard no) first]` and then `[_ x]` with an outer `x`. */
  const CAPTURE := [Clause([Pat(HWild, [X], [Guard(0, [], X)])], Action(1, [])), Clause([WILD], Action(2, [X]))]

  function CaptureForm(n: nat): Form {
    FLet([Binding(Gen("occ", n + 1), FExpr(PROBE_EXPRS[0]))],
         FLet([Binding(X, FSym(Gen("occ", n + 1)))],
              FIf(FGuard(Guard(0, [], X)), FAction(Action(1, [])), FAction(Action(2, [X])))))
  }

  lemma OneColumn(p: Pat, o: Sym)
    ensures ColBinds([p], [o]) == OwnBindList(p.binds, o) && ColGuards([p]) == p.guards
  {
    assert [p][1..] == [] && [o][1..] == [];
    assert ColBinds([], []) == [] && ColGuards([]) == [];
    assert OwnBindList(p.binds, o) + [] == OwnBindList(p.binds, o);
    assert p.guards + [] == p.guards;
  }

  lemma CaptureCompiles(n: nat)
    ensures (forall c <- CAPTURE :: |c.pats| == |PROBE_EXPRS|) && CompileMatch(PROBE_EXPRS, CAPTURE, n) == CaptureForm(n)
  {
    var rows, occs := RowsOf(CAPTURE), EntryOccs(1, n);
    assert rows == [RowOf(CAPTURE[0]), RowOf(CAPTURE[1])] && rows[1..] == [rows[1]] && rows[1..][1..] == [];
    assert Aligned(rows, 1) && occs == [Gen("occ", n + 1)];
    var b0, b1 := LeafBinds(rows[0], occs), LeafBinds(rows[1], occs);
    OneColumn(CAPTURE[0].pats[0], occs[0]);
    OneColumn(WILD, occs[0]);
    assert b0 == [Bind(X, SrcOcc(occs[0]))] && b1 == [];
    assert LeafTests(rows[0]) == [FGuard(Guard(0, [], X))] && LeafTests(rows[1]) == [];
    CompileLeaf(occs, rows, FThrow, n + 1);
    CompileLeaf(occs, rows[1..], FThrow, n + 1);
    assert BindPairs(b0) == [Binding(X, FSym(occs[0]))];
    assert UnsentinelPairs(b0[1..]) == [] && UnsentinelPairs(b0) == [] && UnsentinelPairs(b1) == [];
    assert EntryPairs(PROBE_EXPRS, n) == [Binding(Gen("occ", n + 1), FExpr(PROBE_EXPRS[0]))];
  }

  lemma LetOne(sem: Sem, s: Sym, f: Form, body: Form, env: Env, v: Value)
    requires !f.FFn? && Eval(sem, f, env) == Val(v)
    ensures Eval(sem, FLet([Binding(s, f)], body), env) == Eval(sem, body, env[s := DVal(v)])
  {
    var bs := [Binding(s, f)];
    assert bs[1..] == [];
    assert EvalBinds(sem, [], env[s := DVal(v)]) == BEnv(env[s := DVal(v)]);
  }

  /** The later clause's code sits inside the failed row's `let`: its outer `x` reads as the matched value,
      so the tree and the clauses agree exactly when the two happen to be equal. */
  lemma CaptureChangesResult(v: Value, outer: Value, n: nat)
    requires ExprsOk(map[X := outer], PROBE_EXPRS) && forall c <- CAPTURE :: |c.pats| == |PROBE_EXPRS|
    ensures var sem, rho := ProbeSem(v), map[X := outer];
            && !NoCapturedNames(CAPTURE)
            && Eval(sem, CompileMatch(PROBE_EXPRS, CAPTURE, n), ScopeEnv(rho)) == Done(2, [v])
            && FirstClause(sem, rho, CAPTURE, Scrutinees(sem, rho, PROBE_EXPRS)) == Done(2, [outer])
  {
    var sem, rho := ProbeSem(v), map[X := outer];
    CaptureTree(v, outer, n);
    CaptureFirst(v, outer);
    var p := CAPTURE[0].pats[0];
    SingleAll(p, Slot(v, false));
    assert X in p.binds && X in ClauseNames(CAPTURE[0]);
    assert X in CAPTURE[1].action.free && X in ClauseFree(CAPTURE[1]);
    SingleAll(WILD, Slot(v, false));
    assert Names(WILD) == {} && ClauseNames(CAPTURE[1]) == {};
  }

  lemma CaptureTree(v: Value, outer: Value, n: nat)
    requires forall c <- CAPTURE :: |c.pats| == |PROBE_EXPRS|
    ensures Eval(ProbeSem(v), CompileMatch(PROBE_EXPRS, CAPTURE, n), ScopeEnv(map[X := outer])) == Done(2, [v])
  {
    hide Eval, CompileMatch, Compile, ProbeSem, ScopeEnv;
    var sem, occ := ProbeSem(v), Gen("occ", n + 1);
    CaptureCompiles(n);
    var env := ScopeEnv(map[X := outer]);
    var env1 := env[occ := DVal(v)];
    var env2 := env1[X := DVal(v)];
    CaptureEvals(v, env, occ);
    var g, els := FGuard(Guard(0, [], X)), FAction(Action(2, [X]));
    var body := FIf(g, FAction(Action(1, [])), els);
    LetOne(sem, occ, FExpr(PROBE_EXPRS[0]), FLet([Binding(X, FSym(occ))], body), env, v);
    LetOne(sem, X, FSym(occ), body, env1, v);
    IfMeans(sem, g, FAction(Action(1, [])), els, env2, false);
  }

  lemma CaptureEvals(v: Value, env: Env, occ: Sym)
    requires occ != X
    ensures var sem, env1 := ProbeSem(v), env[occ := DVal(v)];
            var env2 := env1[X := DVal(v)];
            && Eval(sem, FExpr(PROBE_EXPRS[0]), env) == Val(v) && Eval(sem, FSym(occ), env1) == Val(v)
            && Eval(sem, FGuard(Guard(0, [], X)), env2) == Val(Bool(false))
            && Eval(sem, FAction(Action(2, [X])), env2) == Done(2, [v])
  {
    var env2 := env[occ := DVal(v)][X := DVal(v)];
    assert Lookups(env2, [X]) == [v];
  }

  lemma CaptureFirst(v: Value, outer: Value)
    requires ExprsOk(map[X := outer], PROBE_EXPRS)
    ensures FirstClause(ProbeSem(v), map[X := outer], CAPTURE, Scrutinees(ProbeSem(v), map[X := outer], PROBE_EXPRS)) == Done(2, [outer])
  {
    var sem, rho, xs := ProbeSem(v), map[X := outer], [Slot(v, false)];
    assert Scrutinees(sem, rho, PROBE_EXPRS) == xs;
    var p := CAPTURE[0].pats[0];
    assert Guards(p) == {Guard(0, [], X)} && Guards(WILD) == {} && Binds(WILD, v, false) == {};
    SingleAll(p, xs[0]);
    SingleAll(WILD, xs[0]);
    assert Guard(0, [], X) in GuardAll(CAPTURE[0].pats);
    assert !GuardHolds(sem, rho, BindAll(CAPTURE[0].pats, xs), Guard(0, [], X));
    assert !ClauseAccepts(sem, rho, CAPTURE[0], xs);
    assert CAPTURE[1].pats == [WILD] && ClauseAccepts(sem, rho, CAPTURE[1], xs);
    assert CAPTURE[1..] == [CAPTURE[1]];
    assert RunAction(rho, {}, Action(2, [X])) == Done(2, [outer]) by {
      assert ActionLook(rho, {}, X) == outer;
    }
    assert FirstClause(sem, rho, CAPTURE[1..], xs) == Done(2, [outer]);
  }

  // ----- the marker captured -----

  const KEY := LKw("a")

  /** `[{:a (x :guard no)}]` and then `[_ x]` with an outer `x`. */
  const KEY_CAPTURE := [
    Clause([Pat(HMap([KEY], [Pat(HWild, [X], [Guard(0, [], X)])]), [], [])], Action(1, [])),
    Clause([WILD], Action(2, [X]))
  ]

  lemma KeyRows()
    ensures var rows := RowsOf(KEY_CAPTURE);
            && |rows| == 2 && Aligned(rows, 1) && rows[0] == RowOf(KEY_CAPTURE[0]) && rows[1] == Row([WILD], [], [], [], Action(2, [X]))
            && FirstRefutable(rows[0].cols) == 0 && forall c <- KEY_CAPTURE :: |c.pats| == 1
  {
    var rows := RowsOf(KEY_CAPTURE);
    assert forall r | r in rows :: r == rows[0] || r == rows[1];
  }

  lemma KeyCtors(rows: seq<Row>)
    requires rows == [RowOf(KEY_CAPTURE[0]), Row([WILD], [], [], [], Action(2, [X]))]
    ensures (forall r <- rows :: 0 < |r.cols|) && DistinctCtors(rows, 0) == [CMap([KEY])]
  {
    hide UnionKeys, SortKeys, KEY;
    OneKey(KEY);
    assert rows[1..] == [rows[1]] && rows[1..][1..] == [];
    assert Collect(rows[1..], 0, [CMap([])], [KEY]) == ([CMap([])], [KEY]);
    assert [] + [CMap([])] == [CMap([])];
    assert Collect(rows, 0, [], []) == ([CMap([])], [KEY]);
    assert WithKeys([CMap([])], [KEY]) == [CMap([KEY])];
  }

  lemma OneKey(k: Lit)
    ensures UnionKeys([], [k]) == [k] && SortKeys([k]) == [k]
  {
    assert [] + [k] == [k] && [k][1..] == [] && [k][..0] == [];
  }

  lemma KeyDefault(rows: seq<Row>, occ: Sym)
    requires rows == [RowOf(KEY_CAPTURE[0]), Row([WILD], [], [], [], Action(2, [X]))]
    ensures (forall r <- rows :: 0 < |r.cols|) && DefaultMatrix(rows, 0, occ) == [Row([], [], [], [], Action(2, [X]))]
  {
    assert rows[1..] == [rows[1]] && rows[1..][1..] == [];
    assert RemoveAt([WILD], 0) == [] && OwnBindList([], occ) == [];
    assert DefaultMatrix(rows[1..], 0, occ) == [Row([], [], [], [], Action(2, [X]))];
  }

  lemma KeySpecialized(rows: seq<Row>, occ: Sym, m: Sym)
    requires rows == [RowOf(KEY_CAPTURE[0]), Row([WILD], [], [], [], Action(2, [X]))]
    ensures (forall r <- rows :: 0 < |r.cols|) && Width(CMap([KEY])) == 1
    ensures Specialize(rows, 0, CMap([KEY]), occ, [m]) ==
            [Row([Pat(HWild, [X], [Guard(0, [], X)])], [], [], [], Action(1, [])), Row([WILD], [], [], [], Action(2, [X]))]
  {
    var ct, q := CMap([KEY]), Pat(HWild, [X], [Guard(0, [], X)]);
    assert rows[1..] == [rows[1]] && rows[1..][1..] == [];
    assert OwnBindList([], occ) == [];
    assert Realign([KEY], [KEY], [q]) == [q];
    assert [KEY][1..] == [] && [m][1..] == [];
    assert PresenceFor([KEY], [m], [KEY], [q]) == [];
    assert SpliceAt(rows[0].cols, 0, [q]) == [q];
    assert SpecializeRow(rows[0], 0, ct, occ, [m]) == Some(Row([q], [], [], [], Action(1, [])));
    assert SpliceAt([WILD], 0, Wilds(1)) == [WILD];
    assert SpecializeRow(rows[1], 0, ct, occ, [m]) == Some(rows[1]);
    assert Specialize(rows[1..], 0, ct, occ, [m]) == [rows[1]];
  }

  /** A row without columns, tests or bindings is its action. */
  lemma PlainLeaf(occs: seq<Sym>, rows: seq<Row>, fail: Form, n: nat, a: Action)
    requires Aligned(rows, |occs|) && |rows| == 1 && rows[0] == Row(if |occs| == 0 then [] else [WILD], [], [], [], a) && |occs| <= 1
    ensures Compile(occs, rows, fail, n) == Compiled(FAction(a), false, n)
  {
    hide Compile;
    if |occs| == 1 { OneColumn(WILD, occs[0]); assert occs == [occs[0]]; assert OwnBindList([], occs[0]) == []; }
    assert LeafBinds(rows[0], occs) == [] && LeafTests(rows[0]) == [];
    CompileLeaf(occs, rows, fail, n);
    assert UnsentinelPairs([]) == [];
  }

  lemma KeyBranch(m: Sym, fail: Form, n: nat)
    ensures var spec := [Row([Pat(HWild, [X], [Guard(0, [], X)])], [], [], [], Action(1, [])), Row([WILD], [], [], [], Action(2, [X]))];
            && Aligned(spec, 1)
            && Compile([m], spec, fail, n) ==
               Compiled(FLet([Binding(X, FSym(m))],
                             FIf(FGuard(Guard(0, [], X)), Unsentinel([Bind(X, SrcOcc(m))], Action(1, [])), FAction(Action(2, [X])))), false, n)
  {
    hide Compile, Unsentinel;
    var q := Pat(HWild, [X], [Guard(0, [], X)]);
    var spec := [Row([q], [], [], [], Action(1, [])), Row([WILD], [], [], [], Action(2, [X]))];
    assert forall r | r in spec :: r == spec[0] || r == spec[1];
    assert spec[1..] == [spec[1]];
    OneColumn(q, m);
    assert LeafBinds(spec[0], [m]) == [Bind(X, SrcOcc(m))] && LeafTests(spec[0]) == [FGuard(Guard(0, [], X))];
    CompileLeaf([m], spec, fail, n);
    PlainLeaf([m], spec[1..], fail, n, Action(2, [X]));
    assert BindPairs([Bind(X, SrcOcc(m))]) == [Binding(X, FSym(m))];
  }

  lemma KeyTree(occ: Sym, n: nat) returns (thunk: Form, n1: nat)
    ensures Aligned(RowsOf(KEY_CAPTURE), 1)
    ensures var m := Gen("m", n + 2);
            Compile([occ], RowsOf(KEY_CAPTURE), FThrow, n).form ==
            FIf(CtorTest(occ, CMap([KEY])),
                FLet([Binding(m, Access(occ, CMap([KEY]), 0))],
                     FLet([Binding(X, FSym(m))],
                          FIf(FGuard(Guard(0, [], X)), Unsentinel([Bind(X, SrcOcc(m))], Action(1, [])), FAction(Action(2, [X]))))),
                FAction(Action(2, [X])))
  {
    hide *;
    var rows, ct, m := RowsOf(KEY_CAPTURE), CMap([KEY]), Gen("m", n + 2);
    KeyRows();
    assert rows == [rows[0], rows[1]];
    KeyCtors(rows);
    KeyDefault(rows, occ);
    KeySpecialized(rows, occ, m);
    CompileDispatch([occ], rows, FThrow, n);
    assert RemoveAt([occ], 0) == [] by { NoneLeft(occ); }
    PlainLeaf([], DefaultMatrix(rows, 0, occ), FThrow, n, Action(2, [X]));
    thunk := FThunk(Gen("fail", n + 1));
    KeySubs(occ, m, n + 1);
    BranchesStep([occ], rows, 0, [ct], thunk, FAction(Action(2, [X])), n + 1);
    KeyBranch(m, thunk, n + 1 + Width(ct));
    n1 := n + 1 + Width(ct);
    LastBranch([occ], rows, 0, [ct][1..], thunk, FAction(Action(2, [X])), n1);
  }

  lemma NoneLeft(occ: Sym)
    ensures RemoveAt([occ], 0) == []
  {
  }

  lemma KeySubs(occ: Sym, m: Sym, n: nat)
    requires m == Gen("m", n + 1)
    ensures SubOccs(CMap([KEY]), n) == [m] && Width(CMap([KEY])) == 1 && SpliceAt([occ], 0, [m]) == [m]
    ensures forall body :: WithPairs(LetPairs(occ, CMap([KEY]), n), body) == FLet([Binding(m, Access(occ, CMap([KEY]), 0))], body)
  {
    assert LetPairs(occ, CMap([KEY]), n) == [Binding(m, Access(occ, CMap([KEY]), 0))];
  }

  /** So the marker can reach user code: when the key is absent and the guard false, the later clause's outer `x`
      shows the marker. */
  lemma CapturedMarker(outer: Value, n: nat)
    requires ExprsOk(map[X := outer], PROBE_EXPRS)
    ensures |PROBE_EXPRS| == 1 && forall c <- KEY_CAPTURE :: |c.pats| == |PROBE_EXPRS|
    ensures var sem, rho := ProbeSem(Map(map[])), map[X := outer];
            Eval(sem, CompileMatch(PROBE_EXPRS, KEY_CAPTURE, n), ScopeEnv(rho)) == Done(2, [ABSENT])
  {
    hide *;
    var v := Map(map[]);
    var sem, rho, occ, m := ProbeSem(v), map[X := outer], Gen("occ", n + 1), Gen("m", n + 3);
    KeyRows();
    ProbeExprs(n, occ);
    CompileMatchIs(PROBE_EXPRS, KEY_CAPTURE, n);
    var thunk, n1 := KeyTree(occ, n + 1);
    var env := ScopeEnv(rho);
    var ct := CMap([KEY]);
    var env1 := env[occ := DVal(v)];
    var env2 := env1[m := DVal(ABSENT)];
    var env3 := env2[X := DVal(ABSENT)];
    KeyEvals(env, occ, m);
    var g, els := FGuard(Guard(0, [], X)), FAction(Action(2, [X]));
    var body := FIf(g, Unsentinel([Bind(X, SrcOcc(m))], Action(1, [])), els);
    var inner := FLet([Binding(X, FSym(m))], body);
    var tree := FIf(CtorTest(occ, ct), FLet([Binding(m, Access(occ, ct, 0))], inner), els);
    LetOne(sem, occ, FExpr(PROBE_EXPRS[0]), tree, env, v);
    IfMeans(sem, CtorTest(occ, ct), FLet([Binding(m, Access(occ, ct, 0))], inner), els, env1, true);
    LetOne(sem, m, Access(occ, ct, 0), inner, env1, ABSENT);
    LetOne(sem, X, FSym(m), body, env2, ABSENT);
    IfMeans(sem, g, Unsentinel([Bind(X, SrcOcc(m))], Action(1, [])), els, env3, false);
  }

  lemma ProbeExprs(n: nat, occ: Sym)
    requires occ == Gen("occ", n + 1)
    ensures |PROBE_EXPRS| == 1 && EntryOccs(1, n) == [occ]
    ensures forall body :: WithPairs(EntryPairs(PROBE_EXPRS, n), body) == FLet([Binding(occ, FExpr(PROBE_EXPRS[0]))], body)
  {
    assert EntryPairs(PROBE_EXPRS, n) == [Binding(occ, FExpr(PROBE_EXPRS[0]))];
  }

  lemma KeyEvals(env: Env, occ: Sym, m: Sym)
    requires occ != m && occ.Gen? && m.Gen?
    ensures var v: Value := Map(map[]);
            var sem, ct := ProbeSem(v), CMap([KEY]);
            var env1 := env[occ := DVal(v)];
            var env2 := env1[m := DVal(ABSENT)];
            var env3 := env2[X := DVal(ABSENT)];
            && Eval(sem, FExpr(PROBE_EXPRS[0]), env) == Val(v) && Width(ct) == 1
            && Eval(sem, CtorTest(occ, ct), env1) == Val(Bool(true)) && Eval(sem, Access(occ, ct, 0), env1) == Val(ABSENT)
            && Eval(sem, FSym(m), env2) == Val(ABSENT) && !Access(occ, ct, 0).FFn?
            && Eval(sem, FGuard(Guard(0, [], X)), env3) == Val(Bool(false))
            && Eval(sem, FAction(Action(2, [X])), env3) == Done(2, [ABSENT])
  {
    var v: Value := Map(map[]);
    var sem, ct := ProbeSem(v), CMap([KEY]);
    var env1 := env[occ := DVal(v)];
    CtorTestMeans(sem, occ, ct, env1, v);
    AccessMeans(sem, occ, ct, 0, env1, v);
    assert SubValue(ct, v, 0) == ABSENT;
    var env3 := env1[m := DVal(ABSENT)][X := DVal(ABSENT)];
    assert Lookups(env3, [X]) == [ABSENT];
  }

  // ----- a name bound twice -----

  /** The row `[x x]` after its column `col` was taken first. */
  function TwiceBound(x: Sym, id: nat, occs: seq<Sym>, col: nat): seq<Row>
    requires |occs| == 2 && col < 2
  {
    var p := Pat(HWild, [x], []);
    [DefaultRow(Row([p, p], [], [], [], Action(id, [x])), col, occs[col])]
  }

  lemma NoKeyPairs(x: Sym, a: Sym, b: Sym)
    requires !IsKeyOcc(a) && !IsKeyOcc(b)
    ensures var binds := [Bind(x, SrcOcc(a)), Bind(x, SrcOcc(b))];
            UnsentinelPairs(binds) == [] && BindPairs(binds) == [Binding(x, FSym(a)), Binding(x, FSym(b))]
  {
    var binds := [Bind(x, SrcOcc(a)), Bind(x, SrcOcc(b))];
    assert binds[1..] == [binds[1]] && binds[1..][1..] == [];
    assert UnsentinelPairs([]) == [] && UnsentinelPairs(binds[1..]) == [];
  }

  lemma TwiceBoundLeaf(x: Sym, id: nat, occs: seq<Sym>, col: nat)
    requires |occs| == 2 && col < 2
    ensures var rows, left := TwiceBound(x, id, occs, col), RemoveAt(occs, col);
            && rows[0].cols == [Pat(HWild, [x], [])] && left == [occs[1 - col]] && rows[0].action == Action(id, [x])
            && LeafBinds(rows[0], left) == [Bind(x, SrcOcc(occs[col])), Bind(x, SrcOcc(occs[1 - col]))]
            && LeafTests(rows[0]) == []
  {
    var rows, left := TwiceBound(x, id, occs, col), RemoveAt(occs, col);
    assert left == [occs[1 - col]] && rows[0].cols == [Pat(HWild, [x], [])];
    OneColumn(Pat(HWild, [x], []), occs[1 - col]);
  }

  lemma TwiceBoundCompiles(x: Sym, id: nat, occs: seq<Sym>, col: nat, n: nat)
    requires |occs| == 2 && col < 2 && !IsKeyOcc(occs[0]) && !IsKeyOcc(occs[1])
    ensures Aligned(TwiceBound(x, id, occs, col), 1)
    ensures Compile(RemoveAt(occs, col), TwiceBound(x, id, occs, col), FThrow, n).form ==
            FLet([Binding(x, FSym(occs[col])), Binding(x, FSym(occs[1 - col]))], FAction(Action(id, [x])))
  {
    hide Compile, LeafBinds, LeafTests, BindPairs, UnsentinelPairs;
    var rows, left := TwiceBound(x, id, occs, col), RemoveAt(occs, col);
    TwiceBoundLeaf(x, id, occs, col);
    CompileLeaf(left, rows, FThrow, n);
    NoKeyPairs(x, occs[col], occs[1 - col]);
  }

  /** What an action sees for a name bound in two columns is the value of the column taken last. */
  lemma TwiceBoundMeans(sem: Sem, x: Sym, id: nat, occs: seq<Sym>, col: nat, vs: seq<Value>, env: Env, n: nat)
    requires |occs| == |vs| == 2 && col < 2 && occs[0] != occs[1] && x !in occs
    requires !IsKeyOcc(occs[0]) && !IsKeyOcc(occs[1])
    requires forall i | 0 <= i < 2 :: occs[i] in env && env[occs[i]] == DVal(vs[i])
    ensures Aligned(TwiceBound(x, id, occs, col), 1)
    ensures Eval(sem, Compile(RemoveAt(occs, col), TwiceBound(x, id, occs, col), FThrow, n).form, env) == Done(id, [vs[1 - col]])
  {
    hide Compile, TwiceBound;
    TwiceBoundCompiles(x, id, occs, col, n);
    var o := occs[1 - col];
    var env1 := env[x := DVal(vs[col])];
    var env2 := env1[x := DVal(vs[1 - col])];
    var pairs := [Binding(x, FSym(occs[col])), Binding(x, FSym(o))];
    assert pairs[1..] == [Binding(x, FSym(o))] && pairs[1..][1..] == [];
    assert EvalBinds(sem, [], env2) == BEnv(env2);
    assert EvalBinds(sem, pairs[1..], env1) == BEnv(env2);
    assert EvalBinds(sem, pairs, env) == BEnv(env2);
    assert Lookups(env2, [x]) == [vs[1 - col]];
  }

  /** A literal in column `col`, and then `[x x]`. */
  function TwiceClauses(col: nat): seq<Clause>
    requires col < 2
  {
    var p, one := Pat(HWild, [X], []), Pat(HLit(LInt(1)), [], []);
    [Clause(if col == 0 then [one, WILD] else [WILD, one], Action(1, [])), Clause([p, p], Action(2, [X]))]
  }

  lemma TwiceRows(col: nat)
    requires col < 2
    ensures var rows, p := RowsOf(TwiceClauses(col)), Pat(HWild, [X], []);
            && |rows| == 2 && Aligned(rows, 2) && rows[1] == Row([p, p], [], [], [], Action(2, [X]))
            && rows[0] == Row(rows[0].cols, [], [], [], Action(1, []))
            && rows[0].cols[1 - col] == WILD && rows[0].cols[col] == Pat(HLit(LInt(1)), [], [])
            && FirstRefutable(rows[0].cols) == col
  {
    var rows := RowsOf(TwiceClauses(col));
    assert forall r | r in rows :: r == rows[0] || r == rows[1];
    assert FirstRefutable(rows[0].cols[1..]) == col - 1;
  }

  lemma TwiceCtors(col: nat, rows: seq<Row>)
    requires col < 2 && |rows| == 2 && Aligned(rows, 2)
    requires IsWild(rows[1].cols[col]) && rows[0].cols[col] == Pat(HLit(LInt(1)), [], [])
    ensures (forall r <- rows :: col < |r.cols|) && DistinctCtors(rows, col) == [CLit(LInt(1))]
  {
    var ct := CLit(LInt(1));
    assert rows[0] in rows && rows[1] in rows && rows[1..] == [rows[1]] && rows[1..][1..] == [];
    assert [] + [ct] == [ct];
    assert Collect(rows[1..], col, [ct], []) == ([ct], []);
    assert Collect(rows, col, [], []) == ([ct], []);
  }

  lemma TwiceDefault(col: nat, rows: seq<Row>, occs: seq<Sym>)
    requires col < 2 && |rows| == 2 && |occs| == 2 && Aligned(rows, 2)
    requires rows[1] == Row([Pat(HWild, [X], []), Pat(HWild, [X], [])], [], [], [], Action(2, [X])) && !IsWild(rows[0].cols[col])
    ensures DefaultMatrix(rows, col, occs[col]) == TwiceBound(X, 2, occs, col)
  {
    assert rows[1..] == [rows[1]] && rows[1..][1..] == [];
    assert DefaultMatrix(rows[1..], col, occs[col]) == TwiceBound(X, 2, occs, col);
  }

  lemma TwiceSpecialized(col: nat, rows: seq<Row>, occs: seq<Sym>)
    requires col < 2 && rows != [] && |occs| == 2 && Aligned(rows, 2)
    requires rows[0] == Row(rows[0].cols, [], [], [], Action(1, []))
    requires rows[0].cols[1 - col] == WILD && rows[0].cols[col] == Pat(HLit(LInt(1)), [], [])
    ensures var spec := Specialize(rows, col, CLit(LInt(1)), occs[col], []);
            && spec != [] && spec[0].cols == [WILD] && Aligned(spec, 1)
            && LeafBinds(spec[0], RemoveAt(occs, col)) == [] && LeafTests(spec[0]) == []
  {
    hide CtorOf;
    assert CtorOf(rows[0].cols[col]) == CLit(LInt(1)) by { CtorOfOne(); }
    var r := SpecializeRow(rows[0], col, CLit(LInt(1)), occs[col], []).value;
    assert r.cols == [WILD] && r.binds == [] && r.guards == [] && r.presence == [];
    assert RemoveAt(occs, col) == [occs[1 - col]];
    OneColumn(WILD, occs[1 - col]);
    assert OwnBindList([], occs[1 - col]) == [];
    SpecializeAligned(rows, 2, col, CLit(LInt(1)), occs[col], []);
  }

  lemma CtorOfOne()
    ensures CtorOf(Pat(HLit(LInt(1)), [], [])) == CLit(LInt(1))
  {
  }

  lemma TwiceMatrix(col: nat, occs: seq<Sym>)
    requires col < 2 && |occs| == 2
    ensures var rows, ct := RowsOf(TwiceClauses(col)), CLit(LInt(1));
            && rows != [] && Aligned(rows, 2) && FirstRefutable(rows[0].cols) == col && (forall r <- rows :: col < |r.cols|)
            && DistinctCtors(rows, col) == [ct] && DefaultMatrix(rows, col, occs[col]) == TwiceBound(X, 2, occs, col)
            && var spec := Specialize(rows, col, ct, occs[col], []);
               && spec != [] && spec[0].cols == [WILD] && Aligned(spec, 1)
               && LeafBinds(spec[0], RemoveAt(occs, col)) == [] && LeafTests(spec[0]) == []
  {
    hide RowsOf, TwiceClauses, FirstRefutable, DistinctCtors, DefaultMatrix, TwiceBound, Specialize, LeafBinds, LeafTests;
    var rows := RowsOf(TwiceClauses(col));
    TwiceRows(col);
    TwiceCtors(col, rows);
    TwiceDefault(col, rows, occs);
    TwiceSpecialized(col, rows, occs);
  }

  lemma TwiceTree(col: nat, occs: seq<Sym>, n: nat) returns (branch: Form, n1: nat)
    requires col < 2 && |occs| == 2 && !IsKeyOcc(occs[0]) && !IsKeyOcc(occs[1])
    ensures Aligned(RowsOf(TwiceClauses(col)), 2) && Aligned(TwiceBound(X, 2, occs, col), 1)
    ensures Compile(occs, RowsOf(TwiceClauses(col)), FThrow, n).form ==
            FIf(CtorTest(occs[col], CLit(LInt(1))), branch, Compile(RemoveAt(occs, col), TwiceBound(X, 2, occs, col), FThrow, n).form)
  {
    hide *;
    var rows, ct, left := RowsOf(TwiceClauses(col)), CLit(LInt(1)), RemoveAt(occs, col);
    TwiceMatrix(col, occs);
    RowsLeft(rows, 2);
    CompileDispatch(occs, rows, FThrow, n);
    var def := Compile(left, TwiceBound(X, 2, occs, col), FThrow, n);
    var thunk := FThunk(Gen("fail", def.n + 1));
    BranchesStep(occs, rows, col, [ct], thunk, def.form, def.n + 1);
    NoSubs(occs, col, def.n + 1);
    var spec := Specialize(rows, col, ct, occs[col], []);
    WildLeaf(spec, left);
    CompileLeaf(left, spec, thunk, def.n + 1);
    var c := Compile(left, spec, thunk, def.n + 1);
    branch := WithPairs(LetPairs(occs[col], ct, def.n + 1), c.form);
    n1 := c.n;
    LastBranch(occs, rows, col, [ct][1..], thunk, def.form, c.n);
  }

  lemma RowsLeft(rows: seq<Row>, k: nat)
    requires Aligned(rows, k) && rows != []
    ensures |rows[0].cols| == k
  {
    assert rows[0] in rows;
  }

  lemma NoSubs(occs: seq<Sym>, col: nat, n: nat)
    requires col < |occs|
    ensures SubOccs(CLit(LInt(1)), n) == [] && Width(CLit(LInt(1))) == 0 && SpliceAt(occs, col, []) == RemoveAt(occs, col)
  {
  }

  lemma WildLeaf(spec: seq<Row>, left: seq<Sym>)
    requires spec != [] && spec[0].cols == [WILD]
    ensures FirstRefutable(spec[0].cols) < 0
  {
  }

  lemma LastBranch(occs: seq<Sym>, rows: seq<Row>, col: nat, ctors: seq<Ctor>, fail: Form, tail: Form, n: nat)
    requires Aligned(rows, |occs|) && col < |occs| && ctors == []
    ensures Branches(occs, rows, col, ctors, fail, n) == Branched([], false, n) && Chain(occs[col], ctors, [], tail) == tail
  {
  }

  /** So the clauses before it settle what the action sees: the same clause `[x x]`, after a literal clause
      that does not match, sees the second value or the first as the literal is in the first column or the second. */
  lemma TwiceBoundDependsOnOthers(sem: Sem, rho: Scope, exprs: seq<Expr>, n: nat, col: nat)
    requires ExprsOk(rho, exprs) && |exprs| == 2 && col < 2
    requires Scrutinees(sem, rho, exprs)[col].v != Scalar(LInt(1))
    ensures forall c <- TwiceClauses(col) :: |c.pats| == 2
    ensures Eval(sem, CompileMatch(exprs, TwiceClauses(col), n), ScopeEnv(rho)) ==
            Done(2, [Scrutinees(sem, rho, exprs)[1 - col].v])
  {
    hide *;
    var xs, occs, cs := Scrutinees(sem, rho, exprs), EntryOccs(2, n), TwiceClauses(col);
    var env := EntryLet(sem, rho, exprs, n);
    EntryShows(xs, env, n);
    TwiceArity(col);
    var branch, n1 := TwiceTree(col, occs, n + 2);
    var vs := [xs[0].v, xs[1].v];
    LitTestFails(sem, occs[col], env, vs[col]);
    var def := Compile(RemoveAt(occs, col), TwiceBound(X, 2, occs, col), FThrow, n + 2).form;
    IfMeans(sem, CtorTest(occs[col], CLit(LInt(1))), branch, def, env, false);
    TwiceBoundMeans(sem, X, 2, occs, col, vs, env, n + 2);
    CompileMatchIs(exprs, cs, n);
    WithPairsMeans(sem, EntryPairs(exprs, n), Compile(occs, RowsOf(cs), FThrow, n + 2).form, ScopeEnv(rho), env);
  }

  lemma TwiceArity(col: nat)
    requires col < 2
    ensures forall c <- TwiceClauses(col) :: |c.pats| == 2
  {
  }

  lemma EntryShows(xs: seq<Slot>, env: Env, n: nat)
    requires |xs| == 2 && Shows(env, EntryWorld(xs, n))
    ensures var occs := EntryOccs(2, n);
            && occs[0] != occs[1] && X !in occs && !IsKeyOcc(occs[0]) && !IsKeyOcc(occs[1])
            && forall i | 0 <= i < 2 :: occs[i] in env && env[occs[i]] == DVal(xs[i].v)
  {
    hide EntryWorld, EntryOccs, Known;
    var occs, w := EntryOccs(2, n), EntryWorld(xs, n);
    EntryWorldFacts(xs, n);
    forall i | 0 <= i < 2 ensures occs[i] in w && w[occs[i]] == xs[i].v {
      assert occs[i] in occs;
      assert Slots(occs, w)[i] == Slot(xs[i].v, false);
    }
  }

  lemma LitTestFails(sem: Sem, occ: Sym, env: Env, v: Value)
    requires occ in env && env[occ] == DVal(v) && v != Scalar(LInt(1))
    ensures Eval(sem, CtorTest(occ, CLit(LInt(1))), env) == Val(Bool(false))
  {
    CtorTestMeans(sem, occ, CLit(LInt(1)), env, v);
  }
}
