/** The decision tree means the clauses tried top to bottom. */
module MatchCorrect {
  import opened MatchForms
  import opened MatchPattern
  import opened MatchCompile
  import opened MatchRows
  import opened MatchSpecialize
  import opened MatchEval
  import opened Options

  /** `fail` is the outer throw or a call of an enclosing thunk. */
  predicate FailForm(fail: Form, n: nat) {
    fail.FThrow? || (fail.FThunk? && fail.s.Gen? && fail.s.prefix == "fail" && fail.s.n <= n)
  }

  /** Names a row does not bind show the surrounding scope or what earlier rows left. */
  ghost predicate Sighted(env: Env, rho: Scope, before: set<Bound>, S: set<Sym>) {
    forall s | s in S :: s in env && env[s].DVal? && Outside(rho, before, s, env[s].v)
  }

  /** The invariant of the recursion: every occurrence is bound to its value by a compiler symbol the
      counter has passed, rows are well formed over them, and user code sees the surrounding scope and the
      bindings `before` that earlier rows left. */
  ghost predicate Ready(rho: Scope, before: set<Bound>, rows: seq<Row>, occs: seq<Sym>, n: nat, env: Env, w: World) {
    && RowsIn(rows, occs, w) && Aligned(rows, |occs|) && Known(occs, w)
    && Shows(env, w)
    && (forall s | s in w :: Internal(s) && s.prefix != "fail" && s.n <= n)
    && (forall r | r in rows :: Sighted(env, rho, before, RowFree(r) - RowNames(r)))
  }

  lemma FailStable(sem: Sem, fail: Form, n: nat, env: Env, env2: Env)
    requires FailForm(fail, n)
    requires forall s: Sym | s.Gen? && s.prefix == "fail" && s.n <= n :: (s in env <==> s in env2) && (s in env ==> env[s] == env2[s])
    ensures Eval(sem, fail, env) == Eval(sem, fail, env2)
  {
  }

  // ----- the leaf: the first row has only wildcards left -----

  lemma WildSets(p: Pat, x: Slot)
    requires IsWild(p)
    ensures Binds(p, x.v, x.fromKey) == OwnBinds(p.binds, x.v, x.fromKey)
    ensures Names(p) == set s | s in p.binds
    ensures Guards(p) == set g | g in p.guards
  {
  }

  lemma {:induction false} ColBindsAre(cols: seq<Pat>, occs: seq<Sym>, w: World)
    requires |cols| == |occs| && Known(occs, w) && forall p | p in cols :: IsWild(p)
    ensures BindsOk(ColBinds(cols, occs), w)
    ensures BindSet(ColBinds(cols, occs), w) == BindAll(cols, Slots(occs, w))
  {
    hide Matches, Binds, Guards, Names, WellFormed, OwnBinds;
    if cols == [] {
      assert Cells(cols, Slots(occs, w)) == [];
    } else {
      var p, o := cols[0], occs[0];
      var x := Slot(w[o], IsKeyOcc(o));
      ColBindsAre(cols[1..], occs[1..], w);
      OwnBindSet(p.binds, o, w);
      WildSets(p, x);
      BindSetGrows(OwnBindList(p.binds, o), ColBinds(cols[1..], occs[1..]), w, w);
      assert Cells(cols, Slots(occs, w)) == [Cell(p, x)] + Cells(cols[1..], Slots(occs[1..], w));
      OverAppend([Cell(p, x)], Cells(cols[1..], Slots(occs[1..], w)), CellBinds);
      OverOne(Cell(p, x), CellBinds);
      hide BindSet, Over, BindsOk;
      assert ColBinds(cols, occs) == OwnBindList(p.binds, o) + ColBinds(cols[1..], occs[1..]);
      assert BindSet(ColBinds(cols, occs), w) == CellBinds(Cell(p, x)) + BindAll(cols[1..], Slots(occs[1..], w));
    }
  }

  lemma {:induction false} ColNamesAre(cols: seq<Pat>, occs: seq<Sym>)
    requires |cols| == |occs| && forall p | p in cols :: IsWild(p)
    ensures (set b | b in ColBinds(cols, occs) :: b.sym) == NameAll(cols)
  {
    hide Matches, Binds, Guards, Names, WellFormed;
    if cols != [] {
      var p, own, rest := cols[0], OwnBindList(cols[0].binds, occs[0]), ColBinds(cols[1..], occs[1..]);
      ColNamesAre(cols[1..], occs[1..]);
      OwnBindSet(p.binds, occs[0], map[occs[0] := ABSENT]);
      NamesAppend(own, rest);
      WildSets(p, Slot(ABSENT, false));
      assert cols == [p] + cols[1..];
      OverAppend([p], cols[1..], Names);
      OverOne(p, Names);
      hide Over;
      assert ColBinds(cols, occs) == own + rest;
    }
  }

  lemma {:induction false} ColGuardsAre(cols: seq<Pat>)
    requires forall p | p in cols :: IsWild(p)
    ensures (set g | g in ColGuards(cols)) == GuardAll(cols)
  {
    hide Matches, Binds, Guards, Names, WellFormed;
    if cols != [] {
      var p := cols[0];
      ColGuardsAre(cols[1..]);
      WildSets(p, Slot(ABSENT, false));
      assert cols == [p] + cols[1..];
      OverAppend([p], cols[1..], Guards);
      OverOne(p, Guards);
    }
  }

  lemma WildMatchAll(cols: seq<Pat>, xs: seq<Slot>)
    requires |cols| == |xs| && forall p | p in cols :: IsWild(p)
    ensures MatchAll(cols, xs)
  {
    forall c | c in Cells(cols, xs) ensures Matches(c.p, c.x.v) {
      assert c.p in cols;
    }
  }

  ghost predicate Leaf(r: Row) {
    forall p | p in r.cols :: IsWild(p)
  }

  function LeafBinds(r: Row, occs: seq<Sym>): seq<Bind>
    requires |r.cols| == |occs|
  {
    r.binds + ColBinds(r.cols, occs)
  }

  function LeafTests(r: Row): seq<Form> {
    GuardForms(r.guards + ColGuards(r.cols), r.presence)
  }

  lemma LeafSets(r: Row, occs: seq<Sym>, w: World)
    requires RowIn(r, occs, w) && Leaf(r)
    ensures BindsOk(LeafBinds(r, occs), w)
    ensures RowBinds(r, occs, w) == BindSet(LeafBinds(r, occs), w)
    ensures RowNames(r) == (set b | b in LeafBinds(r, occs) :: b.sym)
    ensures RowGuards(r) == (set g | g in r.guards + ColGuards(r.cols))
    ensures MatchAll(r.cols, Slots(occs, w))
    ensures forall b | b in LeafBinds(r, occs) :: b.sym in RowNames(r) && !Internal(b.sym)
  {
    hide Matches, Binds, Guards, Names, WellFormed;
    ColBindsAre(r.cols, occs, w);
    ColNamesAre(r.cols, occs);
    ColGuardsAre(r.cols);
    WildMatchAll(r.cols, Slots(occs, w));
    BindSetGrows(r.binds, ColBinds(r.cols, occs), w, w);
    NamesAppend(r.binds, ColBinds(r.cols, occs));
  }

  /** Inside the row's `let`, its names show its own bindings and the others what they did. */
  lemma LeafLet(sem: Sem, rho: Scope, before: set<Bound>, r: Row, occs: seq<Sym>, env: Env, w: World) returns (env2: Env)
    requires RowIn(r, occs, w) && Leaf(r) && Shows(env, w)
    requires forall s | s in w :: Internal(s)
    requires Sighted(env, rho, before, RowFree(r) - RowNames(r))
    ensures var binds := LeafBinds(r, occs);
            && BindsOk(binds, w)
            && EvalBinds(sem, BindPairs(binds), env) == BEnv(env2)
            && LetResult(binds, env, env2, w) && Shows(env2, w)
            && Sees(env2, rho, before, RowBinds(r, occs, w), RowFree(r) + RowNames(r))
            && (forall b | b in binds :: b.sym in env2 && env2[b.sym].DVal?)
  {
    var binds := LeafBinds(r, occs);
    LeafSets(r, occs, w);
    env2 := LetMeans(sem, binds, env, w);
    LetSees(rho, before, binds, env, env2, w, RowFree(r), RowNames(r));
  }

  lemma LetBindsName(binds: seq<Bind>, env: Env, env2: Env, w: World, s: Sym)
    requires BindsOk(binds, w) && LetResult(binds, env, env2, w) && exists b | b in binds :: b.sym == s
    ensures s in env2 && env2[s].DVal? && exists b | b in BindSet(binds, w) :: b.sym == s && b.v == env2[s].v
  {
    hide SrcVal, SrcOk, FromKey;
    var b :| b in binds && b.sym == s;
    var c :| c in binds && c.sym == s && env2[s] == DVal(SrcVal(c.src, w));
    assert Bound(s, SrcVal(c.src, w), FromKey(c.src)) in BindSet(binds, w);
  }

  lemma LetKeepsName(binds: seq<Bind>, env: Env, env2: Env, w: World, s: Sym)
    requires BindsOk(binds, w) && LetResult(binds, env, env2, w) && s in env && !exists b | b in binds :: b.sym == s
    ensures s in env2 && env2[s] == env[s] && forall b | b in BindSet(binds, w) :: b.sym != s
  {
    hide SrcVal, SrcOk, FromKey;
  }

  lemma LetSees(rho: Scope, before: set<Bound>, binds: seq<Bind>, env: Env, env2: Env, w: World, free: set<Sym>, names: set<Sym>)
    requires BindsOk(binds, w) && LetResult(binds, env, env2, w)
    requires names == (set b | b in binds :: b.sym) && Sighted(env, rho, before, free - names)
    ensures Sees(env2, rho, before, BindSet(binds, w), free + names)
    ensures forall b | b in binds :: b.sym in env2 && env2[b.sym].DVal?
  {
    hide LetResult, BindsOk, BindSet, Outside;
    forall s | s in names
      ensures s in env2 && env2[s].DVal? && exists b | b in BindSet(binds, w) :: b.sym == s && b.v == env2[s].v
    {
      LetBindsName(binds, env, env2, w, s);
    }
    forall s | s in free - names
      ensures s in env2 && env2[s].DVal? && Outside(rho, before, s, env2[s].v) && forall b | b in BindSet(binds, w) :: b.sym != s
    {
      LetKeepsName(binds, env, env2, w, s);
    }
  }

  predicate IsPresenceTest(t: Form, pres: seq<Sym>) {
    exists s <- pres :: t == FCall(NotEq, [FSym(s), FLit(NOT_FOUND)])
  }

  lemma TestsAre(gs: seq<Guard>, pres: seq<Sym>)
    ensures var tests := GuardForms(gs, pres);
            && (forall g | g in gs :: FGuard(g) in tests)
            && (forall s | s in pres :: FCall(NotEq, [FSym(s), FLit(NOT_FOUND)]) in tests)
            && (forall t | t in tests :: (t.FGuard? && t.guard in gs) || IsPresenceTest(t, pres))
  {
    var tests := GuardForms(gs, pres);
    forall g | g in gs ensures FGuard(g) in tests {
      var i :| 0 <= i < |gs| && gs[i] == g;
      assert tests[i] == FGuard(g);
    }
    forall s | s in pres ensures FCall(NotEq, [FSym(s), FLit(NOT_FOUND)]) in tests {
      var i :| 0 <= i < |pres| && pres[i] == s;
      assert tests[|gs| + i] == FCall(NotEq, [FSym(s), FLit(NOT_FOUND)]);
    }
    forall t | t in tests ensures (t.FGuard? && t.guard in gs) || IsPresenceTest(t, pres) {
      var i :| 0 <= i < |tests| && tests[i] == t;
      if i >= |gs| {
        assert pres[i - |gs|] in pres;
        assert tests[|gs| + (i - |gs|)] == t;
      }
    }
  }

  ghost predicate Passes(sem: Sem, tests: seq<Form>, env: Env) {
    forall t | t in tests :: Eval(sem, t, env) == Val(Bool(true))
  }

  /** The row's tests are its guards, then its presence tests: when they pass, the row fits and its guards were
      true of values their names may show; and they pass exactly if the row accepts, when its guards' names
      have one meaning. */
  lemma LeafTestsMean(sem: Sem, rho: Scope, before: set<Bound>, r: Row, occs: seq<Sym>, env2: Env, w: World)
    requires RowIn(r, occs, w) && Leaf(r) && Shows(env2, w)
    requires Sees(env2, rho, before, RowBinds(r, occs, w), RowFree(r) + RowNames(r))
    ensures forall t | t in LeafTests(r) :: IsBool(Eval(sem, t, env2))
    ensures Passes(sem, LeafTests(r), env2) ==>
              RowMatches(r, occs, w) && forall g | g in RowGuards(r) :: GuardSaw(sem, rho, before, RowBinds(r, occs, w), g)
    ensures RowFaithful(rho, before, r, occs, w) ==> (Passes(sem, LeafTests(r), env2) <==> RowAccepts(sem, rho, r, occs, w))
  {
    hide Matches, Binds, Guards, Names, WellFormed, RowBinds, RowNames, Eval, Sees, Shows, Clear, GuardSaw, GuardHolds, Functional;
    LeafSets(r, occs, w);
    TestsAre(r.guards + ColGuards(r.cols), r.presence);
    var bs, S := RowBinds(r, occs, w), RowFree(r) + RowNames(r);
    forall g | g in RowGuards(r)
      ensures GuardTested(sem, rho, before, bs, g, env2)
    {
      assert forall s | s in g.free :: s in RowFree(r) && s in GuardNames(r);
      assert g.arg in RowFree(r) && g.arg in GuardNames(r);
      GuardMeans(sem, env2, rho, before, bs, S, g);
    }
    forall s | s in r.presence
      ensures Eval(sem, FCall(NotEq, [FSym(s), FLit(NOT_FOUND)]), env2) == Val(Bool(w[s] != ABSENT))
    {
      PresenceMeans(sem, s, env2, w);
    }
    LeafTestsSplit(sem, rho, before, r, occs, env2, w, LeafTests(r));
  }

  /** What the evaluated guard says. */
  ghost predicate GuardTested(sem: Sem, rho: Scope, before: set<Bound>, bs: set<Bound>, g: Guard, env: Env) {
    && IsBool(Eval(sem, FGuard(g), env))
    && (Eval(sem, FGuard(g), env) == Val(Bool(true)) ==> GuardSaw(sem, rho, before, bs, g))
    && (Functional(bs) && (forall s | s in g.free :: Clear(rho, before, bs, s)) && Clear(rho, before, bs, g.arg) ==>
          Eval(sem, FGuard(g), env) == Val(Bool(GuardHolds(sem, rho, bs, g))))
  }

  lemma LeafTestsSplit(sem: Sem, rho: Scope, before: set<Bound>, r: Row, occs: seq<Sym>, env2: Env, w: World, tests: seq<Form>)
    requires RowIn(r, occs, w) && MatchAll(r.cols, Slots(occs, w))
    requires forall g | g in RowGuards(r) :: FGuard(g) in tests && GuardTested(sem, rho, before, RowBinds(r, occs, w), g, env2)
    requires forall s | s in r.presence :: FCall(NotEq, [FSym(s), FLit(NOT_FOUND)]) in tests &&
               Eval(sem, FCall(NotEq, [FSym(s), FLit(NOT_FOUND)]), env2) == Val(Bool(w[s] != ABSENT))
    requires forall t | t in tests :: (t.FGuard? && t.guard in RowGuards(r)) || IsPresenceTest(t, r.presence)
    ensures forall t | t in tests :: IsBool(Eval(sem, t, env2))
    ensures Passes(sem, tests, env2) ==>
              RowMatches(r, occs, w) && forall g | g in RowGuards(r) :: GuardSaw(sem, rho, before, RowBinds(r, occs, w), g)
    ensures RowFaithful(rho, before, r, occs, w) ==> (Passes(sem, tests, env2) <==> RowAccepts(sem, rho, r, occs, w))
  {
    hide Matches, Binds, Guards, Names, WellFormed, RowBinds, RowNames, RowGuards, Eval, GuardHolds, MatchAll, GuardSaw, Clear, Functional;
    if Passes(sem, tests, env2) {
      forall s | s in r.presence ensures w[s] != ABSENT {
        assert FCall(NotEq, [FSym(s), FLit(NOT_FOUND)]) in tests;
      }
      forall g | g in RowGuards(r) ensures Eval(sem, FGuard(g), env2) == Val(Bool(true)) {
        assert FGuard(g) in tests;
      }
    }
    if RowFaithful(rho, before, r, occs, w) && RowMatches(r, occs, w) {
      forall g | g in RowGuards(r) ensures Eval(sem, FGuard(g), env2) == Val(Bool(GuardHolds(sem, rho, RowBinds(r, occs, w), g))) {
        assert g.arg in GuardNames(r) && forall s | s in g.free :: s in GuardNames(r);
      }
      if RowAccepts(sem, rho, r, occs, w) {
        forall t | t in tests ensures Eval(sem, t, env2) == Val(Bool(true)) {
        }
      }
    }
  }

  /** The action runs with values its names may show, the absent marker turned into nil through the row's own
      names of map keys. */
  lemma LeafAction(sem: Sem, rho: Scope, before: set<Bound>, a: Action, bs: set<Bound>, S: set<Sym>, env2: Env, w: World, binds: seq<Bind>)
    requires BindsOk(binds, w) && bs == BindSet(binds, w)
    requires Sees(env2, rho, before, bs, S) && forall s | s in a.free :: s in S
    requires forall b | b in binds :: b.sym in env2 && env2[b.sym].DVal?
    ensures ActionSaw(rho, before, bs, a, Eval(sem, Unsentinel(binds, a), env2))
  {
    hide *;
    var env3 := UnsentinelMeans(sem, binds, env2);
    UnsentinelEval(sem, binds, a, env2, env3);
    SeesSaw(env2, rho, before, bs, S, a.free);
    var vs := Lookups(env2, a.free);
    forall i | 0 <= i < |a.free| ensures a.free[i] in env3 && env3[a.free[i]] == DVal(Unmarked(bs, a.free[i], vs[i])) {
      assert a.free[i] in a.free;
      SeesBound(env2, a.free, i);
      KeyBoundIs(binds, w, a.free[i]);
      UnmarkedIs(bs, a.free[i], vs[i]);
    }
    ActionEval(sem, bs, a, env3, vs);
    ActionSawBy(rho, before, bs, a, vs);
  }

  lemma SeesBound(env: Env, names: seq<Sym>, i: nat)
    requires AllBound(env, names) && i < |names|
    ensures names[i] in env && env[names[i]] == DVal(Lookups(env, names)[i])
  {
    assert names[i] in names;
  }

  lemma KeyBoundIs(binds: seq<Bind>, w: World, s: Sym)
    requires BindsOk(binds, w)
    ensures KeyBound(binds, s) <==> KeyNamed(BindSet(binds, w), s)
  {
    hide SrcVal, FromKey;
    if b :| b in binds && b.sym == s && FromKey(b.src) {
      assert Bound(b.sym, SrcVal(b.src, w), FromKey(b.src)) in BindSet(binds, w);
    }
  }

  lemma UnmarkedIs(bs: set<Bound>, s: Sym, v: Value)
    ensures Unmarked(bs, s, v) == if v == ABSENT && KeyNamed(bs, s) then Scalar(LNil) else v
  {
  }

  lemma ActionSawBy(rho: Scope, before: set<Bound>, bs: set<Bound>, a: Action, vs: seq<Value>)
    requires Saw(rho, before, bs, a.free, vs)
    ensures ActionSaw(rho, before, bs, a, Done(a.id, UnmarkedAll(bs, a.free, vs)))
  {
  }

  lemma ActionEval(sem: Sem, bs: set<Bound>, a: Action, env: Env, vs: seq<Value>)
    requires |vs| == |a.free|
    requires forall i | 0 <= i < |a.free| :: a.free[i] in env && env[a.free[i]] == DVal(Unmarked(bs, a.free[i], vs[i]))
    ensures Eval(sem, FAction(a), env) == Done(a.id, UnmarkedAll(bs, a.free, vs))
  {
    hide Unmarked;
    assert AllBound(env, a.free);
    assert Lookups(env, a.free) == UnmarkedAll(bs, a.free, vs);
  }

  lemma UnsentinelEval(sem: Sem, binds: seq<Bind>, a: Action, env2: Env, env3: Env)
    requires EvalBinds(sem, UnsentinelPairs(binds), env2) == BEnv(env3)
    ensures Eval(sem, Unsentinel(binds, a), env2) == Eval(sem, FAction(a), env3)
  {
  }

  /** After the first row's `let`, the later rows see what they did, and the first row's bindings. */
  lemma LeafLater(rho: Scope, before: set<Bound>, rows: seq<Row>, occs: seq<Sym>, n: nat, env: Env, env2: Env, w: World)
    requires rows != [] && Ready(rho, before, rows, occs, n, env, w) && RowIn(rows[0], occs, w)
    requires |rows[0].cols| == |occs| && BindsOk(LeafBinds(rows[0], occs), w)
    requires RowBinds(rows[0], occs, w) == BindSet(LeafBinds(rows[0], occs), w)
    requires LetResult(LeafBinds(rows[0], occs), env, env2, w) && Shows(env2, w)
    ensures Ready(rho, before + RowBinds(rows[0], occs, w), rows[1..], occs, n, env2, w)
  {
    hide LeafBinds, LetResult, RowBinds, RowIn, RowFree, RowNames, Outside, BindsOk, BindSet;
    assert forall r | r in rows[1..] :: r in rows;
    var binds := LeafBinds(rows[0], occs);
    forall r, s | r in rows[1..] && s in RowFree(r) - RowNames(r)
      ensures s in env2 && env2[s].DVal? && Outside(rho, before + RowBinds(rows[0], occs, w), s, env2[s].v)
    {
      assert Sighted(env, rho, before, RowFree(r) - RowNames(r));
      LetOutside(rho, before, binds, env, env2, w, s);
    }
  }

  lemma LetOutside(rho: Scope, before: set<Bound>, binds: seq<Bind>, env: Env, env2: Env, w: World, s: Sym)
    requires BindsOk(binds, w) && LetResult(binds, env, env2, w) && s in env && env[s].DVal? && Outside(rho, before, s, env[s].v)
    ensures s in env2 && env2[s].DVal? && Outside(rho, before + BindSet(binds, w), s, env2[s].v)
  {
    if exists b | b in binds :: b.sym == s {
      LetBindsName(binds, env, env2, w, s);
    } else {
      LetKeepsName(binds, env, env2, w, s);
    }
  }

  // ----- inner nodes: Ready for the sub-matrices -----

  lemma DefaultReady(rho: Scope, before: set<Bound>, rows: seq<Row>, occs: seq<Sym>, n: nat, env: Env, w: World, col: nat)
    requires Ready(rho, before, rows, occs, n, env, w) && col < |occs|
    ensures Ready(rho, before, DefaultMatrix(rows, col, occs[col]), RemoveAt(occs, col), n, env, w)
  {
    hide Outside;
    var def, o1 := DefaultMatrix(rows, col, occs[col]), RemoveAt(occs, col);
    DefaultAligned(rows, |occs|, col, occs[col]);
    forall nr | nr in def
      ensures exists r | r in rows :: SameRow(nr, o1, w, r, occs, w)
    {
      var r := DefaultOrigin(rows, col, occs[col], nr);
      DefaultRowSame(r, col, occs, w);
    }
  }

  ghost predicate KeysCovered(rows: seq<Row>, col: nat, ct: Ctor)
    requires forall r <- rows :: col < |r.cols|
  {
    forall r | r in rows && r.cols[col].head.HMap? && ct.CMap? :: forall k | k in r.cols[col].head.keys :: k in ct.keys
  }

  lemma SubWorldExpands(w: World, ct: Ctor, v: Value, n: nat)
    requires CtorAccepts(ct, v)
    requires forall s | s in w :: Internal(s) && s.n <= n
    ensures Expands(w, SubWorld(w, ct, v, n), ct, v, SubOccs(ct, n))
    ensures forall s | s in SubWorld(w, ct, v, n) :: s in w || s in SubOccs(ct, n)
  {
    SubMapFacts(ct, v, n);
    hide CtorAccepts, SubValue, SubMap, IsKeyOcc, SubOccs, Width;
    assert forall s | s in w :: s !in SubOccs(ct, n);
  }

  lemma SpecializeRowsSame(rows: seq<Row>, col: nat, ct: Ctor, occs: seq<Sym>, subOccs: seq<Sym>, w: World, w1: World)
    requires RowsIn(rows, occs, w) && Aligned(rows, |occs|) && Known(occs, w) && col < |occs|
    requires Expands(w, w1, ct, w[occs[col]], subOccs) && KeysCovered(rows, col, ct)
    ensures forall r | r in rows ::
      match SpecializeRow(r, col, ct, occs[col], subOccs)
      case None => true
      case Some(nr) => SameRow(nr, SpliceAt(occs, col, subOccs), w1, r, occs, w)
  {
    forall r | r in rows
      ensures match SpecializeRow(r, col, ct, occs[col], subOccs)
              case None => true
              case Some(nr) => SameRow(nr, SpliceAt(occs, col, subOccs), w1, r, occs, w)
    {
      SpecializeRowSame(r, col, ct, occs, subOccs, w, w1);
    }
  }

  lemma SpecializeReady(rho: Scope, before: set<Bound>, rows: seq<Row>, occs: seq<Sym>, n: nat, env: Env, w: World, col: nat, ct: Ctor, env2: Env)
    requires Ready(rho, before, rows, occs, n, env, w) && col < |occs| && KeysCovered(rows, col, ct)
    requires CtorAccepts(ct, w[occs[col]])
    requires forall s | s in env && s !in SubOccs(ct, n) :: s in env2 && env2[s] == env[s]
    requires forall k | 0 <= k < Width(ct) :: SubOccs(ct, n)[k] in env2 && env2[SubOccs(ct, n)[k]] == DVal(SubValue(ct, w[occs[col]], k))
    ensures var subs := SubOccs(ct, n);
            Ready(rho, before, Specialize(rows, col, ct, occs[col], subs), SpliceAt(occs, col, subs), n + Width(ct), env2,
                  SubWorld(w, ct, w[occs[col]], n))
  {
    hide Matches, Binds, Guards, Names, WellFormed, RowNames, RowGuards, SubValue, SubWorld, CtorAccepts,
         FreeOf, SubOccs, Specialize, SpecializeRow, Outside;
    var v, subs := w[occs[col]], SubOccs(ct, n);
    var w1, o1 := SubWorld(w, ct, v, n), SpliceAt(occs, col, subs);
    var spec := Specialize(rows, col, ct, occs[col], subs);
    SubWorldExpands(w, ct, v, n);
    SpecializeAligned(rows, |occs|, col, ct, occs[col], subs);
    SpecializeRowsSame(rows, col, ct, occs, subs, w, w1);
    SubShows(env, env2, w, w1, ct, v, n);
    forall o | o in o1 ensures o in w1 {
      assert o in occs || o in subs;
    }
    forall nr | nr in spec
      ensures RowIn(nr, o1, w1)
      ensures Sighted(env2, rho, before, RowFree(nr) - RowNames(nr))
    {
      var r := SpecializeOrigin(rows, col, ct, occs[col], subs, nr);
      assert SameRow(nr, o1, w1, r, occs, w);
      SightedLater(rho, before, r, nr, env, env2, subs, occs, w);
    }
  }

  lemma SightedLater(rho: Scope, before: set<Bound>, r: Row, nr: Row, env: Env, env2: Env, subs: seq<Sym>, occs: seq<Sym>, w: World)
    requires RowIn(r, occs, w)
    requires RowNames(nr) == RowNames(r) && RowGuards(nr) == RowGuards(r) && nr.action == r.action
    requires Sighted(env, rho, before, RowFree(r) - RowNames(r))
    requires forall s | s in env && s !in subs :: s in env2 && env2[s] == env[s]
    requires forall s | s in subs :: Internal(s)
    ensures Sighted(env2, rho, before, RowFree(nr) - RowNames(nr))
  {
    hide Outside;
  }

  lemma SubShows(env: Env, env2: Env, w: World, w1: World, ct: Ctor, v: Value, n: nat)
    requires CtorAccepts(ct, v) && w1 == SubWorld(w, ct, v, n) && Shows(env, w)
    requires forall s | s in w :: Internal(s) && s.prefix != "fail" && s.n <= n
    requires forall s | s in env && s !in SubOccs(ct, n) :: s in env2 && env2[s] == env[s]
    requires forall k | 0 <= k < Width(ct) :: SubOccs(ct, n)[k] in env2 && env2[SubOccs(ct, n)[k]] == DVal(SubValue(ct, v, k))
    ensures Shows(env2, w1)
    ensures forall s | s in w1 :: Internal(s) && s.prefix != "fail" && s.n <= n + Width(ct)
    ensures forall s | s in SubOccs(ct, n) :: Internal(s) && s.prefix != "fail"
  {
    var subs := SubOccs(ct, n);
    forall s | s in w1
      ensures s in env2 && env2[s] == DVal(w1[s])
      ensures Internal(s) && s.prefix != "fail" && s.n <= n + Width(ct)
    {
      if s in subs {
        var k :| 0 <= k < |subs| && subs[k] == s;
      }
    }
    forall s | s in subs ensures Internal(s) && s.prefix != "fail" {
      var k :| 0 <= k < |subs| && subs[k] == s;
    }
  }

  // ----- dispatch -----

  /** A row the constructor drops does not match a value of that constructor. */
  lemma DroppedRow(rows: seq<Row>, occs: seq<Sym>, w: World, col: nat, ct: Ctor, r: Row, subOccs: seq<Sym>)
    requires RowsIn(rows, occs, w) && Aligned(rows, |occs|) && col < |occs| && CompatibleMatrix(rows) && r in rows
    requires |subOccs| == Width(ct) && Heads(rows, col, ct) && Known(occs, w) && CtorAccepts(ct, w[occs[col]])
    requires SpecializeRow(r, col, ct, occs[col], subOccs) == None
    ensures !RowMatches(r, occs, w)
  {
    var v, p := w[occs[col]], r.cols[col];
    SpecializeRowIs(r, col, ct, occs[col], subOccs);
    var h :| h in rows && !IsWild(h.cols[col]) && if ct.CMap? then h.cols[col].head.HMap? else CtorOf(h.cols[col]) == ct;
    assert CompatibleRows(h, r);
    assert Compatible(h.cols[col], p);
    var c := CtorOf(h.cols[col]);
    assert !BothAccept(c, CtorOf(p), v) by {
      CtorsDisjointExact(c, CtorOf(p));
    }
    if RowMatches(r, occs, w) {
      ColumnAll(r.cols, Slots(occs, w), col);
      assert Matches(p, v);
      MatchesCtor(p, v);
      assert BothAccept(c, CtorOf(p), v);
    }
  }

  lemma MatchesCtor(p: Pat, v: Value)
    requires !IsWild(p) && Matches(p, v)
    ensures CtorAccepts(CtorOf(p), v)
  {
  }

  /** When no listed constructor accepts the value, no row that tests the column matches. */
  lemma NoCtorNoMatch(rows: seq<Row>, occs: seq<Sym>, w: World, col: nat)
    requires RowsIn(rows, occs, w) && Aligned(rows, |occs|) && col < |occs| && Known(occs, w)
    requires forall c | c in DistinctCtors(rows, col) :: !CtorAccepts(c, w[occs[col]])
    ensures forall r | r in rows && !IsWild(r.cols[col]) :: !RowMatches(r, occs, w)
  {
    DistinctCtorsFacts(rows, col);
    forall r | r in rows && !IsWild(r.cols[col]) ensures !RowMatches(r, occs, w) {
      if RowMatches(r, occs, w) {
        ColumnAll(r.cols, Slots(occs, w), col);
        MatchesCtor(r.cols[col], w[occs[col]]);
      }
    }
  }

  /** What the tree for `rows` answers, where `fail` is what running out of rows answers: the result of a row
      that ran, after what rows before it left behind, or the failure, and the failure only if the tree says
      it can fail; and, when constructors that differ are disjoint and guards' names have one meaning, of the
      first row that accepts. */
  ghost predicate Meets(sem: Sem, rho: Scope, before: set<Bound>, rows: seq<Row>, occs: seq<Sym>, w: World, res: Result, fail: Result, used: bool)
    requires RowsIn(rows, occs, w)
  {
    && ((res == fail && used) || RanSome(sem, rho, before, rows, occs, w, res))
    && (CompatibleMatrix(rows) && Faithful(rho, before, rows, occs, w) ==> RanFirst(sem, rho, before, rows, occs, w, res, fail))
  }

  lemma {:induction false} CompileMeans(sem: Sem, rho: Scope, before: set<Bound>, occs: seq<Sym>, rows: seq<Row>, fail: Form, n: nat, env: Env, w: World)
    requires Ready(rho, before, rows, occs, n, env, w) && FailForm(fail, n)
    ensures var c := Compile(occs, rows, fail, n);
            Meets(sem, rho, before, rows, occs, w, Eval(sem, c.form, env), Eval(sem, fail, env), c.used)
    decreases Total(rows), |rows|, 1, 0
  {
    if rows != [] {
      assert rows[0] in rows;
      if FirstRefutable(rows[0].cols) < 0 {
        LeafMeans(sem, rho, before, occs, rows, fail, n, env, w);
      } else {
        DispatchMeans(sem, rho, before, occs, rows, fail, n, env, w);
      }
    }
  }

  lemma CompileLeaf(occs: seq<Sym>, rows: seq<Row>, fail: Form, n: nat)
    requires Aligned(rows, |occs|) && rows != [] && |rows[0].cols| == |occs| && FirstRefutable(rows[0].cols) < 0
    ensures Leaf(rows[0]) && Aligned(rows[1..], |occs|)
    ensures var binds, tests, act := LeafBinds(rows[0], occs), LeafTests(rows[0]), rows[0].action;
            Compile(occs, rows, fail, n) ==
            if tests == [] then Compiled(WithLet(binds, Unsentinel(binds, act)), false, n)
            else
              var rest := Compile(occs, rows[1..], fail, n);
              Compiled(WithLet(binds, FIf(AndForm(tests), Unsentinel(binds, act), rest.form)), rest.used, rest.n)
  {
  }

  lemma WithLetMeans(sem: Sem, binds: seq<Bind>, body: Form, env: Env, env2: Env)
    requires EvalBinds(sem, BindPairs(binds), env) == BEnv(env2)
    ensures Eval(sem, WithLet(binds, body), env) == Eval(sem, body, env2)
  {
    if binds == [] {
      assert BindPairs(binds) == [];
    }
  }

  lemma IfMeans(sem: Sem, test: Form, thn: Form, els: Form, env: Env, b: bool)
    requires Eval(sem, test, env) == Val(Bool(b))
    ensures Eval(sem, FIf(test, thn, els), env) == if b then Eval(sem, thn, env) else Eval(sem, els, env)
  {
    assert Truthy(Bool(true)) && !Truthy(Bool(false));
  }

  lemma {:induction false} LeafMeans(sem: Sem, rho: Scope, before: set<Bound>, occs: seq<Sym>, rows: seq<Row>, fail: Form, n: nat, env: Env, w: World)
    requires Ready(rho, before, rows, occs, n, env, w) && FailForm(fail, n)
    requires rows != [] && |rows[0].cols| == |occs| && FirstRefutable(rows[0].cols) < 0
    ensures var c := Compile(occs, rows, fail, n);
            Meets(sem, rho, before, rows, occs, w, Eval(sem, c.form, env), Eval(sem, fail, env), c.used)
    decreases Total(rows), |rows|, 0, 0
  {
    var r0 := rows[0];
    ReadyFacts(rho, before, rows, occs, n, env, w);
    CompileLeaf(occs, rows, fail, n);
    LeafSets(r0, occs, w);
    TotalRest(rows);
    FreeOfAction(r0);
    hide *;
    var binds, tests, bs := LeafBinds(r0, occs), LeafTests(r0), RowBinds(r0, occs, w);
    var act := Unsentinel(binds, r0.action);
    var env2 := LeafLet(sem, rho, before, r0, occs, env, w);
    LeafTestsMean(sem, rho, before, r0, occs, env2, w);
    LeafAction(sem, rho, before, r0.action, bs, RowFree(r0) + RowNames(r0), env2, w, binds);
    var ok := Passes(sem, tests, env2);
    AndTests(sem, tests, env2);
    if tests == [] {
      WithLetMeans(sem, binds, act, env, env2);
      FirstRow(sem, rho, before, rows, occs, w, Eval(sem, act, env2), Eval(sem, fail, env));
    } else {
      var rest := Compile(occs, rows[1..], fail, n);
      IfMeans(sem, AndForm(tests), act, rest.form, env2, ok);
      WithLetMeans(sem, binds, FIf(AndForm(tests), act, rest.form), env, env2);
      LeafLater(rho, before, rows, occs, n, env, env2, w);
      CompileMeans(sem, rho, before + bs, occs, rows[1..], fail, n, env2, w);
      LeafFail(sem, fail, n, env, env2, w, binds, r0, occs);
      if ok {
        FirstRow(sem, rho, before, rows, occs, w, Eval(sem, act, env2), Eval(sem, fail, env));
      } else {
        ReadyFacts(rho, before + bs, rows[1..], occs, n, env2, w);
        LaterRows(sem, rho, before, rows, occs, w, Eval(sem, rest.form, env2), Eval(sem, fail, env), rest.used);
      }
    }
  }

  lemma AndTests(sem: Sem, tests: seq<Form>, env: Env)
    requires forall t | t in tests :: IsBool(Eval(sem, t, env))
    ensures if tests == [] then Passes(sem, tests, env) else Eval(sem, AndForm(tests), env) == Val(Bool(Passes(sem, tests, env)))
  {
    if tests != [] { AndFormMeans(sem, tests, env); }
  }

  lemma ReadyFacts(rho: Scope, before: set<Bound>, rows: seq<Row>, occs: seq<Sym>, n: nat, env: Env, w: World)
    requires Ready(rho, before, rows, occs, n, env, w)
    ensures RowsIn(rows, occs, w) && Aligned(rows, |occs|) && Known(occs, w) && Shows(env, w)
    ensures forall s | s in w :: Internal(s) && s.prefix != "fail" && s.n <= n
    ensures rows != [] ==> RowIn(rows[0], occs, w) && Sighted(env, rho, before, RowFree(rows[0]) - RowNames(rows[0]))
  {
    if rows != [] {
      assert rows[0] in rows;
    }
  }

  lemma OccFacts(rho: Scope, before: set<Bound>, rows: seq<Row>, occs: seq<Sym>, n: nat, env: Env, w: World, col: nat)
    requires Ready(rho, before, rows, occs, n, env, w) && col < |occs|
    ensures occs[col] in w && occs[col] in env && env[occs[col]] == DVal(w[occs[col]])
    ensures occs[col].Gen? && occs[col].n <= n
  {
    assert occs[col] in occs;
  }

  lemma FreeOfAction(r: Row)
    ensures forall s | s in r.action.free :: s in RowFree(r) + RowNames(r)
  {
  }

  lemma TotalRest(rows: seq<Row>)
    requires rows != []
    ensures Total(rows[1..]) <= Total(rows) && |rows[1..]| < |rows|
  {
  }

  lemma FirstRow(sem: Sem, rho: Scope, before: set<Bound>, rows: seq<Row>, occs: seq<Sym>, w: World, res: Result, fail: Result)
    requires RowsIn(rows, occs, w) && rows != [] && RowIn(rows[0], occs, w)
    requires RowMatches(rows[0], occs, w)
    requires forall g | g in RowGuards(rows[0]) :: GuardSaw(sem, rho, before, RowBinds(rows[0], occs, w), g)
    requires ActionSaw(rho, before, RowBinds(rows[0], occs, w), rows[0].action, res)
    requires RowFaithful(rho, before, rows[0], occs, w) ==> RowAccepts(sem, rho, rows[0], occs, w)
    ensures forall used :: Meets(sem, rho, before, rows, occs, w, res, fail, used)
  {
    hide RowIn, RowMatches, RowGuards, RowBinds, GuardSaw, ActionSaw, RowFaithful, RowAccepts, CompatibleMatrix;
    assert Ran(sem, rho, before, rows[0], occs, w, res);
  }

  lemma LaterRows(sem: Sem, rho: Scope, before: set<Bound>, rows: seq<Row>, occs: seq<Sym>, w: World, res: Result, fail: Result, used: bool)
    requires RowsIn(rows, occs, w) && rows != [] && RowIn(rows[0], occs, w)
    requires RowFaithful(rho, before, rows[0], occs, w) ==> !RowAccepts(sem, rho, rows[0], occs, w)
    requires RowsIn(rows[1..], occs, w) && Meets(sem, rho, before + RowBinds(rows[0], occs, w), rows[1..], occs, w, res, fail, used)
    ensures Meets(sem, rho, before, rows, occs, w, res, fail, used)
  {
    hide RowIn, RowBinds, Ran, RowFaithful, RowAccepts, ActionSaw, CompatibleRows;
    assert forall r | r in rows[1..] :: r in rows;
  }

  lemma LeafFail(sem: Sem, fail: Form, n: nat, env: Env, env2: Env, w: World, binds: seq<Bind>, r: Row, occs: seq<Sym>)
    requires FailForm(fail, n) && BindsOk(binds, w) && LetResult(binds, env, env2, w)
    requires RowIn(r, occs, w) && RowNames(r) == (set b | b in binds :: b.sym)
    ensures Eval(sem, fail, env) == Eval(sem, fail, env2)
  {
    forall s: Sym | s.Gen? && s.prefix == "fail"
      ensures (s in env <==> s in env2) && (s in env ==> env[s] == env2[s])
    {
      assert Internal(s);
      assert s !in RowNames(r);
      assert forall b | b in binds :: b.sym != s;
    }
    FailStable(sem, fail, n, env, env2);
  }

  lemma DispatchFacts(occs: seq<Sym>, rows: seq<Row>, col: nat)
    requires Aligned(rows, |occs|) && rows != [] && col < |occs| && col < |rows[0].cols| && !IsWild(rows[0].cols[col])
    ensures forall r <- rows :: col < |r.cols|
    ensures Aligned(DefaultMatrix(rows, col, occs[col]), |occs| - 1)
    ensures Total(DefaultMatrix(rows, col, occs[col])) < Total(rows)
    ensures forall c | c in DistinctCtors(rows, col) :: KeysNoDup(c) && Heads(rows, col, c) && KeysCovered(rows, col, c)
  {
    hide DistinctCtors, Total, DefaultMatrix, NoDup;
    assert rows[0] in rows;
    DistinctCtorsFacts(rows, col);
    DefaultShrinks(rows, col, occs[col]);
    DefaultAligned(rows, |occs|, col, occs[col]);
  }

  lemma CompileDispatch(occs: seq<Sym>, rows: seq<Row>, fail: Form, n: nat)
    requires Aligned(rows, |occs|) && rows != [] && |rows[0].cols| == |occs| && FirstRefutable(rows[0].cols) >= 0
    ensures var col := FirstRefutable(rows[0].cols);
            var occ := occs[col];
            && (forall r <- rows :: col < |r.cols|)
            && Aligned(DefaultMatrix(rows, col, occ), |occs| - 1)
            && Total(DefaultMatrix(rows, col, occ)) < Total(rows)
            && (forall c | c in DistinctCtors(rows, col) :: KeysNoDup(c) && Heads(rows, col, c) && KeysCovered(rows, col, c))
            && var def := Compile(RemoveAt(occs, col), DefaultMatrix(rows, col, occ), fail, n);
               var thunk := Gen("fail", def.n + 1);
               var br := Branches(occs, rows, col, DistinctCtors(rows, col), FThunk(thunk), def.n + 1);
               var chain := Chain(occ, DistinctCtors(rows, col), br.forms, if br.used then FThunk(thunk) else def.form);
               Compile(occs, rows, fail, n) ==
               Compiled(if br.used then FLet([Binding(thunk, FFn(def.form))], chain) else chain, def.used, br.n)
  {
    hide DistinctCtors, Total, DefaultMatrix, Chain, Branches, KeysNoDup, Heads, KeysCovered, ColBinds, ColGuards, GuardForms,
         Unsentinel, WithLet, AndForm, FirstRefutable, NoDup;
    var col := FirstRefutable(rows[0].cols);
    DispatchFacts(occs, rows, col);
  }

  lemma {:induction false} DispatchMeans(sem: Sem, rho: Scope, before: set<Bound>, occs: seq<Sym>, rows: seq<Row>, fail: Form, n: nat, env: Env, w: World)
    requires Ready(rho, before, rows, occs, n, env, w) && FailForm(fail, n)
    requires rows != [] && |rows[0].cols| == |occs| && FirstRefutable(rows[0].cols) >= 0
    ensures var c := Compile(occs, rows, fail, n);
            Meets(sem, rho, before, rows, occs, w, Eval(sem, c.form, env), Eval(sem, fail, env), c.used)
    decreases Total(rows), |rows|, 0, 1
  {
    hide *;
    ReadyFacts(rho, before, rows, occs, n, env, w);
    CompileDispatch(occs, rows, fail, n);
    var col := FirstRefutable(rows[0].cols);
    var occ, ctors := occs[col], DistinctCtors(rows, col);
    var defRows, defOccs := DefaultMatrix(rows, col, occ), RemoveAt(occs, col);
    var def := Compile(defOccs, defRows, fail, n);
    DefaultReady(rho, before, rows, occs, n, env, w, col);
    CompileMeans(sem, rho, before, defOccs, defRows, fail, n, env, w);
    var D := Eval(sem, def.form, env);
    var thunk := Gen("fail", def.n + 1);
    var br := Branches(occs, rows, col, ctors, FThunk(thunk), def.n + 1);
    var tail := if br.used then FThunk(thunk) else def.form;
    var chain := Chain(occ, ctors, br.forms, tail);
    var env1 := if br.used then env[thunk := DThunk(D)] else env;
    ThunkLet(sem, thunk, def.form, chain, env);
    ThunkReady(rho, before, rows, occs, n, def.n + 1, env, env1, w, thunk, D);
    ReadyFacts(rho, before, defRows, defOccs, n, env, w);
    BranchesMean(sem, rho, before, occs, rows, col, ctors, FThunk(thunk), tail, def.n + 1, env1, w);
    DispatchConclude(sem, rho, before, occs, rows, col, w, Eval(sem, chain, env1), D, Eval(sem, fail, env), Eval(sem, FThunk(thunk), env1), br.used, def.used);
  }

  lemma ThunkLet(sem: Sem, thunk: Sym, def: Form, chain: Form, env: Env)
    ensures Eval(sem, FLet([Binding(thunk, FFn(def))], chain), env) == Eval(sem, chain, env[thunk := DThunk(Eval(sem, def, env))])
  {
    var b := [Binding(thunk, FFn(def))];
    assert b[1..] == [];
    assert EvalBinds(sem, [], env[thunk := DThunk(Eval(sem, def, env))]) == BEnv(env[thunk := DThunk(Eval(sem, def, env))]);
  }

  lemma ThunkReady(rho: Scope, before: set<Bound>, rows: seq<Row>, occs: seq<Sym>, n: nat, n1: nat, env: Env, env1: Env, w: World, thunk: Sym, D: Result)
    requires Ready(rho, before, rows, occs, n, env, w) && n <= n1 && thunk == Gen("fail", n1)
    requires env1 == env || env1 == env[thunk := DThunk(D)]
    ensures Ready(rho, before, rows, occs, n1, env1, w)
    ensures FailForm(FThunk(thunk), n1)
    ensures forall sem :: env1 == env[thunk := DThunk(D)] ==> Eval(sem, FThunk(thunk), env1) == D
  {
    hide Matches, Binds, Guards, Names, WellFormed, RowNames, RowGuards, FreeOf, Outside;
    forall r, s | r in rows && s in RowFree(r) - RowNames(r) ensures s in env1 && env1[s].DVal? && Outside(rho, before, s, env1[s].v) {
      assert Sighted(env, rho, before, RowFree(r) - RowNames(r));
      assert !Internal(s) && Internal(thunk);
    }
  }

  /** `D` is what the default answers, `T` what calling the thunk answers inside a branch. */
  lemma DispatchConclude(sem: Sem, rho: Scope, before: set<Bound>, occs: seq<Sym>, rows: seq<Row>, col: nat, w: World, res: Result, D: Result,
      F: Result, T: Result, brUsed: bool, defUsed: bool)
    requires RowsIn(rows, occs, w) && Aligned(rows, |occs|) && Known(occs, w) && col < |occs|
    requires RowsIn(DefaultMatrix(rows, col, occs[col]), RemoveAt(occs, col), w)
    requires Meets(sem, rho, before, DefaultMatrix(rows, col, occs[col]), RemoveAt(occs, col), w, D, F, defUsed)
    requires brUsed ==> T == D
    requires if SomeAccepts(DistinctCtors(rows, col), w[occs[col]])
             then Meets(sem, rho, before, rows, occs, w, res, T, brUsed) else res == D
    ensures Meets(sem, rho, before, rows, occs, w, res, F, defUsed)
  {
    hide RowIn, CompatibleRows, RanSome, RanFirst, Faithful, Thinned, DistinctCtors, SomeAccepts, DefaultMatrix, SomeRowAccepts;
    var defRows, o1 := DefaultMatrix(rows, col, occs[col]), RemoveAt(occs, col);
    DefaultThins(rows, col, occs, w, false);
    if RanSome(sem, rho, before, defRows, o1, w, D) {
      ThinnedRan(sem, rho, before, defRows, o1, w, rows, occs, w, false, D);
    }
    if CompatibleMatrix(rows) && Faithful(rho, before, rows, occs, w) {
      DefaultKeepsCompatible(rows, |occs|, col, occs[col]);
      ThinnedFaithful(rho, before, defRows, o1, w, rows, occs, w, false);
      if !SomeAccepts(DistinctCtors(rows, col), w[occs[col]]) {
        NoneAccepts(rows, col, w[occs[col]]);
        NoCtorNoMatch(rows, occs, w, col);
        DefaultThins(rows, col, occs, w, true);
        ThinnedFirst(sem, rho, before, defRows, o1, w, rows, occs, w, D, F);
      } else if SomeRowAccepts(sem, rho, rows, occs, w) {
        RanFirstSome(sem, rho, before, rows, occs, w, res, T, F);
      } else {
        ThinnedAccepts(sem, rho, defRows, o1, w, rows, occs, w, false);
        RanFirstNone(sem, rho, before, defRows, o1, w, D, F);
        RanFirstNone(sem, rho, before, rows, occs, w, res, T);
        RanFirstNone(sem, rho, before, rows, occs, w, res, F);
        if RanSome(sem, rho, before, rows, occs, w, res) {
          RanSomeAccepts(sem, rho, before, rows, occs, w, res);
        }
      }
    }
  }

  lemma NoneAccepts(rows: seq<Row>, col: nat, v: Value)
    requires (forall r <- rows :: col < |r.cols|) && !SomeAccepts(DistinctCtors(rows, col), v)
    ensures forall c | c in DistinctCtors(rows, col) :: !CtorAccepts(c, v)
  {
  }

  lemma ThinnedAccepts(sem: Sem, rho: Scope, ns: seq<Row>, o1: seq<Sym>, w1: World, rows: seq<Row>, occs: seq<Sym>, w: World, exact: bool)
    requires RowsIn(rows, occs, w) && Thinned(ns, o1, w1, rows, occs, w, exact) && RowsIn(ns, o1, w1)
    ensures SomeRowAccepts(sem, rho, ns, o1, w1) ==> SomeRowAccepts(sem, rho, rows, occs, w)
  {
    hide SameRow, RowIn, RowAccepts, Thinned;
    ThinnedIn(ns, o1, w1, rows, occs, w, exact);
    if nr :| nr in ns && RowAccepts(sem, rho, nr, o1, w1) {
      var r :| r in rows && SameRow(nr, o1, w1, r, occs, w);
      SameRan(sem, rho, {}, nr, o1, w1, r, occs, w, NoMatch);
      assert RowAccepts(sem, rho, r, occs, w);
    }
  }

  lemma BranchesStep(occs: seq<Sym>, rows: seq<Row>, col: nat, ctors: seq<Ctor>, fail: Form, tail: Form, n: nat)
    requires Aligned(rows, |occs|) && col < |occs| && ctors != []
    requires forall c | c in ctors :: KeysNoDup(c) && Heads(rows, col, c)
    ensures forall c | c in ctors[1..] :: KeysNoDup(c) && Heads(rows, col, c)
    ensures var ct, occ, subs := ctors[0], occs[col], SubOccs(ctors[0], n);
            && (forall r <- rows :: col < |r.cols|)
            && Total(Specialize(rows, col, ct, occ, subs)) < Total(rows)
            && Aligned(Specialize(rows, col, ct, occ, subs), |occs| - 1 + Width(ct))
            && var c := Compile(SpliceAt(occs, col, subs), Specialize(rows, col, ct, occ, subs), fail, n + Width(ct));
               var rest := Branches(occs, rows, col, ctors[1..], fail, c.n);
               var form := WithPairs(LetPairs(occ, ct, n), c.form);
               && Branches(occs, rows, col, ctors, fail, n) == Branched([form] + rest.forms, c.used || rest.used, rest.n)
               && Chain(occ, ctors, [form] + rest.forms, tail) ==
                  FIf(CtorTest(occ, ct), form, Chain(occ, ctors[1..], rest.forms, tail))
  {
    var ct, occ, subs := ctors[0], occs[col], SubOccs(ctors[0], n);
    assert ct in ctors;
    SpecializeShrinks(rows, col, ct, occ, subs);
    SpecializeAligned(rows, |occs|, col, ct, occ, subs);
    var c := Compile(SpliceAt(occs, col, subs), Specialize(rows, col, ct, occ, subs), fail, n + Width(ct));
    var rest := Branches(occs, rows, col, ctors[1..], fail, c.n);
    var form := WithPairs(LetPairs(occ, ct, n), c.form);
    assert ([form] + rest.forms)[1..] == rest.forms;
  }

  ghost predicate SomeAccepts(ctors: seq<Ctor>, v: Value) {
    exists c | c in ctors :: CtorAccepts(c, v)
  }

  lemma SomeAcceptsStep(ctors: seq<Ctor>, v: Value)
    requires ctors != []
    ensures SomeAccepts(ctors, v) <==> CtorAccepts(ctors[0], v) || SomeAccepts(ctors[1..], v)
  {
    assert forall d :: d in ctors <==> d == ctors[0] || d in ctors[1..];
  }

  lemma MeetsMore(sem: Sem, rho: Scope, before: set<Bound>, rows: seq<Row>, occs: seq<Sym>, w: World, res: Result, fail: Result, used: bool)
    requires RowsIn(rows, occs, w) && Meets(sem, rho, before, rows, occs, w, res, fail, used)
    ensures Meets(sem, rho, before, rows, occs, w, res, fail, true)
  {
  }

  lemma NoBranches(sem: Sem, occs: seq<Sym>, rows: seq<Row>, col: nat, fail: Form, tail: Form, n: nat, env: Env, w: World)
    requires Aligned(rows, |occs|) && col < |occs| && occs[col] in w
    ensures !SomeAccepts([], w[occs[col]]) && Branches(occs, rows, col, [], fail, n).forms == []
    ensures Chain(occs[col], [], [], tail) == tail
  {
  }

  /** The if-chain runs the branch of a constructor that accepts, or the tail when none does. */
  lemma {:induction false} BranchesMean(sem: Sem, rho: Scope, before: set<Bound>, occs: seq<Sym>, rows: seq<Row>, col: nat, ctors: seq<Ctor>,
      fail: Form, tail: Form, n: nat, env: Env, w: World)
    requires Ready(rho, before, rows, occs, n, env, w) && FailForm(fail, n) && col < |occs|
    requires forall c | c in ctors :: KeysNoDup(c) && Heads(rows, col, c) && KeysCovered(rows, col, c)
    ensures var b := Branches(occs, rows, col, ctors, fail, n);
            var res := Eval(sem, Chain(occs[col], ctors, b.forms, tail), env);
            if SomeAccepts(ctors, w[occs[col]])
            then Meets(sem, rho, before, rows, occs, w, res, Eval(sem, fail, env), b.used)
            else res == Eval(sem, tail, env)
    decreases Total(rows), |rows|, 0, 0, |ctors|, 0
  {
    if ctors != [] {
      hide *;
      ReadyFacts(rho, before, rows, occs, n, env, w);
      OccFacts(rho, before, rows, occs, n, env, w, col);
      BranchesStep(occs, rows, col, ctors, fail, tail, n);
      var ct, occ, v := ctors[0], occs[col], w[occs[col]];
      assert ct in ctors;
      assert forall c | c in ctors[1..] :: c in ctors;
      SomeAcceptsStep(ctors, v);
      var subs := SubOccs(ct, n);
      var spec, o1 := Specialize(rows, col, ct, occ, subs), SpliceAt(occs, col, subs);
      var c := Compile(o1, spec, fail, n + Width(ct));
      var rest := Branches(occs, rows, col, ctors[1..], fail, c.n);
      var form, others := WithPairs(LetPairs(occ, ct, n), c.form), Chain(occ, ctors[1..], rest.forms, tail);
      CtorTestMeans(sem, occ, ct, env, v);
      IfMeans(sem, CtorTest(occ, ct), form, others, env, CtorAccepts(ct, v));
      ReadyLater(rho, before, rows, occs, n, c.n, env, w, fail);
      if CtorAccepts(ct, v) {
        BranchMeans(sem, rho, before, occs, rows, col, ct, fail, n, env, w);
        if rest.used {
          MeetsMore(sem, rho, before, rows, occs, w, Eval(sem, form, env), Eval(sem, fail, env), c.used);
        }
      } else {
        BranchesMean(sem, rho, before, occs, rows, col, ctors[1..], fail, tail, c.n, env, w);
        if c.used && SomeAccepts(ctors[1..], v) {
          MeetsMore(sem, rho, before, rows, occs, w, Eval(sem, others, env), Eval(sem, fail, env), rest.used);
        }
      }
    } else {
      hide *;
      ReadyFacts(rho, before, rows, occs, n, env, w);
      OccFacts(rho, before, rows, occs, n, env, w, col);
      NoBranches(sem, occs, rows, col, fail, tail, n, env, w);
    }
  }

  lemma ReadyLater(rho: Scope, before: set<Bound>, rows: seq<Row>, occs: seq<Sym>, n: nat, n1: nat, env: Env, w: World, fail: Form)
    requires Ready(rho, before, rows, occs, n, env, w) && n <= n1 && FailForm(fail, n)
    ensures Ready(rho, before, rows, occs, n1, env, w) && FailForm(fail, n1)
  {
    hide Matches, Binds, Guards, Names, WellFormed, RowNames, RowGuards, FreeOf, RowIn, Outside;
  }

  lemma WithPairsMeans(sem: Sem, pairs: seq<Binding>, body: Form, env: Env, env2: Env)
    requires EvalBinds(sem, pairs, env) == BEnv(env2)
    ensures Eval(sem, WithPairs(pairs, body), env) == Eval(sem, body, env2)
  {
  }

  lemma SubOccsFresh(ct: Ctor, n: nat, s: Sym)
    requires s.Gen? && s.n <= n
    ensures s !in SubOccs(ct, n)
  {
  }

  lemma BranchFail(sem: Sem, fail: Form, n: nat, ct: Ctor, env: Env, env2: Env)
    requires FailForm(fail, n)
    requires forall s | s in env && s !in SubOccs(ct, n) :: s in env2 && env2[s] == env[s]
    requires forall s | s in env2 :: s in env || s in SubOccs(ct, n)
    ensures Eval(sem, fail, env) == Eval(sem, fail, env2)
    ensures FailForm(fail, n + Width(ct))
  {
    forall s: Sym | s.Gen? && s.prefix == "fail" && s.n <= n
      ensures (s in env <==> s in env2) && (s in env ==> env[s] == env2[s])
    {
      SubOccsFresh(ct, n, s);
    }
    FailStable(sem, fail, n, env, env2);
  }

  /** The branch of an accepting constructor answers for its specialized matrix, */
  lemma {:induction false} BranchSpecMeans(sem: Sem, rho: Scope, before: set<Bound>, occs: seq<Sym>, rows: seq<Row>, col: nat, ct: Ctor,
      fail: Form, n: nat, env: Env, w: World)
    requires Ready(rho, before, rows, occs, n, env, w) && FailForm(fail, n) && col < |occs|
    requires KeysCovered(rows, col, ct) && CtorAccepts(ct, w[occs[col]])
    requires Total(Specialize(rows, col, ct, occs[col], SubOccs(ct, n))) < Total(rows)
    requires Aligned(Specialize(rows, col, ct, occs[col], SubOccs(ct, n)), |occs| - 1 + Width(ct))
    ensures var subs, w1 := SubOccs(ct, n), SubWorld(w, ct, w[occs[col]], n);
            var spec, o1 := Specialize(rows, col, ct, occs[col], subs), SpliceAt(occs, col, subs);
            var c := Compile(o1, spec, fail, n + Width(ct));
            && RowsIn(spec, o1, w1) && Expands(w, w1, ct, w[occs[col]], subs)
            && Meets(sem, rho, before, spec, o1, w1, Eval(sem, WithPairs(LetPairs(occs[col], ct, n), c.form), env), Eval(sem, fail, env), c.used)
    decreases Total(rows), |rows|, 0, 0, 0, 0
  {
    hide *;
    ReadyFacts(rho, before, rows, occs, n, env, w);
    OccFacts(rho, before, rows, occs, n, env, w, col);
    var v, occ, subs := w[occs[col]], occs[col], SubOccs(ct, n);
    var spec, o1, w1 := Specialize(rows, col, ct, occ, subs), SpliceAt(occs, col, subs), SubWorld(w, ct, v, n);
    var c := Compile(o1, spec, fail, n + Width(ct));
    SubOccsFresh(ct, n, occ);
    var env2 := PairsMean(sem, occ, ct, n, env, v, 0);
    assert LetPairs(occ, ct, n)[0..] == LetPairs(occ, ct, n) && subs[0..] == subs;
    WithPairsMeans(sem, LetPairs(occ, ct, n), c.form, env, env2);
    BranchFail(sem, fail, n, ct, env, env2);
    SpecializeReady(rho, before, rows, occs, n, env, w, col, ct, env2);
    CompileMeans(sem, rho, before, o1, spec, fail, n + Width(ct), env2, w1);
    ReadyFacts(rho, before, spec, o1, n + Width(ct), env2, w1);
    SubWorldExpands(w, ct, v, n);
  }

  /** and so for the whole matrix. */
  lemma {:induction false} BranchMeans(sem: Sem, rho: Scope, before: set<Bound>, occs: seq<Sym>, rows: seq<Row>, col: nat, ct: Ctor,
      fail: Form, n: nat, env: Env, w: World)
    requires Ready(rho, before, rows, occs, n, env, w) && FailForm(fail, n) && col < |occs|
    requires Heads(rows, col, ct) && KeysCovered(rows, col, ct) && CtorAccepts(ct, w[occs[col]])
    requires Total(Specialize(rows, col, ct, occs[col], SubOccs(ct, n))) < Total(rows)
    requires Aligned(Specialize(rows, col, ct, occs[col], SubOccs(ct, n)), |occs| - 1 + Width(ct))
    ensures var subs := SubOccs(ct, n);
            var c := Compile(SpliceAt(occs, col, subs), Specialize(rows, col, ct, occs[col], subs), fail, n + Width(ct));
            Meets(sem, rho, before, rows, occs, w, Eval(sem, WithPairs(LetPairs(occs[col], ct, n), c.form), env), Eval(sem, fail, env), c.used)
    decreases Total(rows), |rows|, 0, 0, 0, 1
  {
    hide *;
    ReadyFacts(rho, before, rows, occs, n, env, w);
    OccFacts(rho, before, rows, occs, n, env, w, col);
    BranchSpecMeans(sem, rho, before, occs, rows, col, ct, fail, n, env, w);
    var subs, w1 := SubOccs(ct, n), SubWorld(w, ct, w[occs[col]], n);
    var c := Compile(SpliceAt(occs, col, subs), Specialize(rows, col, ct, occs[col], subs), fail, n + Width(ct));
    BranchConclude(sem, rho, before, occs, rows, col, ct, w, w1, subs,
                   Eval(sem, WithPairs(LetPairs(occs[col], ct, n), c.form), env), Eval(sem, fail, env), c.used);
  }

  lemma BranchConclude(sem: Sem, rho: Scope, before: set<Bound>, occs: seq<Sym>, rows: seq<Row>, col: nat, ct: Ctor, w: World, w1: World,
      subs: seq<Sym>, res: Result, F: Result, used: bool)
    requires RowsIn(rows, occs, w) && Aligned(rows, |occs|) && Known(occs, w) && col < |occs|
    requires Heads(rows, col, ct) && KeysCovered(rows, col, ct) && Expands(w, w1, ct, w[occs[col]], subs)
    requires RowsIn(Specialize(rows, col, ct, occs[col], subs), SpliceAt(occs, col, subs), w1)
    requires Meets(sem, rho, before, Specialize(rows, col, ct, occs[col], subs), SpliceAt(occs, col, subs), w1, res, F, used)
    ensures Meets(sem, rho, before, rows, occs, w, res, F, used)
  {
    hide RowIn, CompatibleRows, RanSome, RanFirst, Faithful, Thinned, SameRow, Known, RowMatches, Specialize, SpecializeRow, Heads, KeysCovered;
    var spec, o1 := Specialize(rows, col, ct, occs[col], subs), SpliceAt(occs, col, subs);
    SpecializeRowsSame(rows, col, ct, occs, subs, w, w1);
    SpecializeThins(rows, col, ct, occs, subs, w, w1, false);
    if RanSome(sem, rho, before, spec, o1, w1, res) {
      ThinnedRan(sem, rho, before, spec, o1, w1, rows, occs, w, false, res);
    }
    if CompatibleMatrix(rows) && Faithful(rho, before, rows, occs, w) {
      SpecializeKeepsCompatible(rows, |occs|, col, ct, occs[col], subs);
      ThinnedFaithful(rho, before, spec, o1, w1, rows, occs, w, false);
      forall r | r in rows && SpecializeRow(r, col, ct, occs[col], subs) == None ensures !RowMatches(r, occs, w) {
        DroppedRow(rows, occs, w, col, ct, r, subs);
      }
      SpecializeThins(rows, col, ct, occs, subs, w, w1, true);
      ThinnedFirst(sem, rho, before, spec, o1, w1, rows, occs, w, res, F);
    }
  }
}
