/** What `-match-compile` promises: the emitted tree means the clauses tried top to bottom. */
module MatchTheorems {
  import opened MatchForms
  import opened MatchPattern
  import opened MatchCompile
  import opened MatchRows
  import opened MatchSpecialize
  import opened MatchEval
  import opened MatchCorrect

  // ----- linear patterns bind each name once -----

  ghost predicate Linear(p: Pat) {
    match p.head
    case HWild => true
    case HLit(_) => true
    case HSeq(_, sub, rest) =>
      && (forall q | q in sub :: Linear(q) && (forall s | s in p.binds :: s !in Names(q)) && (rest.Some? ==> rest.value !in Names(q)))
      && (rest.Some? ==> rest.value !in p.binds)
      && (forall i, j | 0 <= i < j < |sub| :: Names(sub[i]) !! Names(sub[j]))
    case HMap(_, vals) =>
      && (forall q | q in vals :: Linear(q) && (forall s | s in p.binds :: s !in Names(q)))
      && (forall i, j | 0 <= i < j < |vals| :: Names(vals[i]) !! Names(vals[j]))
  }

  ghost predicate LinearClause(c: Clause) {
    && (forall p | p in c.pats :: Linear(p))
    && (forall i, j | 0 <= i < j < |c.pats| :: Names(c.pats[i]) !! Names(c.pats[j]))
  }

  /** Two bindings a linear pattern makes for one name are the same binding. */
  lemma {:induction false} LinearFunctional(p: Pat, v: Value, fk: bool, b: Bound, c: Bound)
    requires Linear(p) && b in Binds(p, v, fk) && c in Binds(p, v, fk) && b.sym == c.sym
    ensures b == c
    decreases p, 1
  {
    if p.head.HSeq? {
      LinearSeqFunctional(p, v, fk, b, c);
    } else if p.head.HMap? {
      LinearMapFunctional(p, v, fk, b, c);
    }
  }

  lemma {:induction false} LinearSeqFunctional(p: Pat, v: Value, fk: bool, b: Bound, c: Bound)
    requires p.head.HSeq? && Linear(p) && b in Binds(p, v, fk) && c in Binds(p, v, fk) && b.sym == c.sym
    ensures b == c
    decreases p, 0
  {
    var own, sub := OwnBinds(p.binds, v, fk), p.head.sub;
    var i := if b in own then -1 else SubBinding(p, v, fk, b);
    var j := if c in own then -1 else SubBinding(p, v, fk, c);
    hide Binds, Matches, Guards, WellFormed, RestValue;
    if 0 <= i < |sub| {
      BindingHasName(sub[i], v.items[i], false, b);
    }
    if 0 <= j < |sub| {
      BindingHasName(sub[j], v.items[j], false, c);
    }
    if 0 <= i < |sub| && i == j {
      LinearFunctional(sub[i], v.items[i], false, b, c);
    }
  }

  lemma {:induction false} LinearMapFunctional(p: Pat, v: Value, fk: bool, b: Bound, c: Bound)
    requires p.head.HMap? && Linear(p) && b in Binds(p, v, fk) && c in Binds(p, v, fk) && b.sym == c.sym
    ensures b == c
    decreases p, 0
  {
    var own, keys, vals := OwnBinds(p.binds, v, fk), p.head.keys, p.head.vals;
    var i := if b in own then -1 else KeyBinding(p, v, fk, b);
    var j := if c in own then -1 else KeyBinding(p, v, fk, c);
    hide Binds, Matches, Guards, WellFormed, Get;
    if i >= 0 {
      BindingHasName(vals[i], Get(v, keys[i]), true, b);
    }
    if j >= 0 {
      BindingHasName(vals[j], Get(v, keys[j]), true, c);
    }
    if i >= 0 && i == j {
      LinearFunctional(vals[i], Get(v, keys[i]), true, b, c);
    }
  }

  ghost function SubBinding(p: Pat, v: Value, fk: bool, b: Bound): (i: int)
    requires p.head.HSeq? && b in Binds(p, v, fk) && b !in OwnBinds(p.binds, v, fk)
    ensures 0 <= i <= |p.head.sub| && IsSequential(v) && |v.items| >= |p.head.sub|
    ensures if i < |p.head.sub| then b in Binds(p.head.sub[i], v.items[i], false)
            else p.head.rest.Some? && b == Bound(p.head.rest.value, RestValue(p.head.isVec, v, |p.head.sub|), false)
  {
    if i :| 0 <= i < |p.head.sub| && b in Binds(p.head.sub[i], v.items[i], false) then i else |p.head.sub|
  }

  ghost function KeyBinding(p: Pat, v: Value, fk: bool, b: Bound): (j: int)
    requires p.head.HMap? && b in Binds(p, v, fk) && b !in OwnBinds(p.binds, v, fk)
    ensures 0 <= j < |p.head.vals| && j < |p.head.keys|
    ensures b in Binds(p.head.vals[j], Get(v, p.head.keys[j]), true)
  {
    var j :| 0 <= j < |p.head.vals| && j < |p.head.keys| && b in Binds(p.head.vals[j], Get(v, p.head.keys[j]), true);
    j
  }

  lemma LinearClauseFunctional(c: Clause, xs: seq<Slot>)
    requires LinearClause(c) && |c.pats| == |xs|
    ensures Functional(BindAll(c.pats, xs))
  {
    hide Matches, Binds, Guards, Names, WellFormed, Linear;
    var cells := Cells(c.pats, xs);
    forall b, d | b in BindAll(c.pats, xs) && d in BindAll(c.pats, xs) && b.sym == d.sym ensures b == d {
      var i :| 0 <= i < |cells| && b in CellBinds(cells[i]);
      var j :| 0 <= j < |cells| && d in CellBinds(cells[j]);
      BindingHasName(c.pats[i], xs[i].v, xs[i].fromKey, b);
      BindingHasName(c.pats[j], xs[j].v, xs[j].fromKey, d);
      if i == j {
        LinearFunctional(c.pats[i], xs[i].v, xs[i].fromKey, b, d);
      }
    }
  }

  // ----- the theorem -----

  ghost function ClauseNames(c: Clause): set<Sym> {
    NameAll(c.pats)
  }

  ghost function ClauseFree(c: Clause): set<Sym> {
    FreeOf(GuardAll(c.pats), c.action)
  }

  /** What every clause the reader accepts is: patterns as it builds them, no compiler symbol, and free names the
      surrounding scope binds. */
  ghost predicate ClauseSafe(rho: Scope, c: Clause, k: nat) {
    && |c.pats| == k
    && (forall p | p in c.pats :: WellFormed(p))
    && (forall s | s in ClauseNames(c) + ClauseFree(c) :: !Internal(s))
    && (forall s | s in ClauseFree(c) - ClauseNames(c) :: s in rho)
  }

  ghost predicate ClausesSafe(rho: Scope, cs: seq<Clause>, k: nat) {
    (forall c <- cs :: |c.pats| == k) && (forall c <- cs :: ClauseSafe(rho, c, k))
  }

  /** A clause that also binds no name twice. */
  ghost predicate ClauseOk(rho: Scope, c: Clause, k: nat) {
    ClauseSafe(rho, c, k) && LinearClause(c)
  }

  ghost predicate ClausesOk(rho: Scope, cs: seq<Clause>, k: nat) {
    (forall c <- cs :: |c.pats| == k) && (forall c <- cs :: ClauseOk(rho, c, k))
  }

  lemma OkIsSafe(rho: Scope, cs: seq<Clause>, k: nat)
    requires ClausesOk(rho, cs, k)
    ensures ClausesSafe(rho, cs, k) && forall c <- cs :: LinearClause(c)
  {
    hide ClauseSafe, LinearClause;
  }

  /** A later clause mentions a name an earlier clause binds only if it binds it itself; */
  ghost predicate NoCapturedNames(cs: seq<Clause>) {
    forall i, j | 0 <= i < j < |cs| ::
      forall s | s in ClauseFree(cs[j]) && s in ClauseNames(cs[i]) :: s in ClauseNames(cs[j])
  }

  ghost function ClauseGuardNames(c: Clause): set<Sym> {
    (set g, s | g in GuardAll(c.pats) && s in g.free :: s) + (set g | g in GuardAll(c.pats) :: g.arg)
  }

  /** the same of what its guards mention. */
  ghost predicate NoCapturedGuards(cs: seq<Clause>) {
    forall i, j | 0 <= i < j < |cs| ::
      forall s | s in ClauseGuardNames(cs[j]) && s in ClauseNames(cs[i]) :: s in ClauseNames(cs[j])
  }

  /** In every column, constructors that differ are disjoint, hereditarily. */
  ghost predicate DisjointColumns(cs: seq<Clause>) {
    forall c, d | c in cs && d in cs ::
      forall i | 0 <= i < |c.pats| && i < |d.pats| ::
        WellFormed(c.pats[i]) && WellFormed(d.pats[i]) && Compatible(c.pats[i], d.pats[i])
  }

  ghost predicate ExprsOk(rho: Scope, exprs: seq<Expr>) {
    forall e | e in exprs :: forall s | s in e.free :: s in rho && !Internal(s)
  }

  ghost function ScopeEnv(rho: Scope): Env {
    map s | s in rho :: DVal(rho[s])
  }

  ghost function ExprValue(sem: Sem, rho: Scope, e: Expr): Value
    requires forall s | s in e.free :: s in rho
  {
    sem.expr(e.id, seq(|e.free|, i requires 0 <= i < |e.free| => rho[e.free[i]]))
  }

  ghost function Scrutinees(sem: Sem, rho: Scope, exprs: seq<Expr>): (xs: seq<Slot>)
    requires ExprsOk(rho, exprs)
    ensures |xs| == |exprs|
    ensures forall i | 0 <= i < |exprs| :: xs[i] == Slot(ExprValue(sem, rho, exprs[i]), false)
  {
    seq(|exprs|, i requires 0 <= i < |exprs| => Slot(ExprValue(sem, rho, exprs[i]), false))
  }

  ghost function EntryWorld(xs: seq<Slot>, n: nat): World {
    map s | s in EntryOccs(|xs|, n) && s.Gen? && 0 <= s.n - n - 1 < |xs| :: xs[s.n - n - 1].v
  }

  lemma EntryWorldFacts(xs: seq<Slot>, n: nat)
    ensures var occs, w := EntryOccs(|xs|, n), EntryWorld(xs, n);
            && Known(occs, w) && Slots(occs, w) == (seq(|xs|, i requires 0 <= i < |xs| => Slot(xs[i].v, false)))
            && (forall s | s in w :: s in occs && Internal(s) && s.prefix == "occ" && s.n <= n + |xs|)
  {
    var occs := EntryOccs(|xs|, n);
    assert forall i | 0 <= i < |xs| :: occs[i] in occs;
  }

  lemma {:induction false} EntryMeans(sem: Sem, rho: Scope, exprs: seq<Expr>, n: nat, env: Env, i: nat) returns (env2: Env)
    requires ExprsOk(rho, exprs) && i <= |exprs|
    requires forall s | s in rho && !Internal(s) :: s in env && env[s] == DVal(rho[s])
    ensures EvalBinds(sem, EntryPairs(exprs, n)[i..], env) == BEnv(env2)
    ensures forall s | s in env && !Internal(s) :: s in env2 && env2[s] == env[s]
    ensures forall j | 0 <= j < i :: EntryOccs(|exprs|, n)[j] in env ==>
              EntryOccs(|exprs|, n)[j] in env2 && env2[EntryOccs(|exprs|, n)[j]] == env[EntryOccs(|exprs|, n)[j]]
    ensures forall j | i <= j < |exprs| :: EntryOccs(|exprs|, n)[j] in env2 &&
              env2[EntryOccs(|exprs|, n)[j]] == DVal(ExprValue(sem, rho, exprs[j]))
    decreases |exprs| - i
  {
    var pairs := EntryPairs(exprs, n);
    if i == |exprs| {
      env2 := env;
    } else {
      var e := exprs[i];
      assert e in exprs;
      assert Lookups(env, e.free) == seq(|e.free|, k requires 0 <= k < |e.free| => rho[e.free[k]]);
      var env1 := env[Gen("occ", n + 1 + i) := DVal(ExprValue(sem, rho, e))];
      assert pairs[i..][0] == pairs[i] && pairs[i..][1..] == pairs[i + 1..];
      env2 := EntryMeans(sem, rho, exprs, n, env1, i + 1);
    }
  }

  lemma RowOfFacts(c: Clause, occs: seq<Sym>, w: World)
    ensures RowGuards(RowOf(c)) == GuardAll(c.pats) && RowNames(RowOf(c)) == ClauseNames(c) && RowFree(RowOf(c)) == ClauseFree(c)
    ensures RowIn(RowOf(c), occs, w) ==>
              && RowBinds(RowOf(c), occs, w) == BindAll(c.pats, Slots(occs, w))
              && (RowMatches(RowOf(c), occs, w) <==> MatchAll(c.pats, Slots(occs, w)))
  {
    assert RowGuards(RowOf(c)) == GuardAll(c.pats);
  }

  lemma ClauseRowReady(rho: Scope, c: Clause, occs: seq<Sym>, w: World, env: Env)
    requires ClauseSafe(rho, c, |occs|) && Known(occs, w)
    requires forall s | s in rho && !Internal(s) :: s in env && env[s] == DVal(rho[s])
    ensures RowIn(RowOf(c), occs, w)
    ensures Sighted(env, rho, {}, RowFree(RowOf(c)) - RowNames(RowOf(c)))
  {
    hide Matches, Binds, Guards, Names, WellFormed, Linear;
    RowOfFacts(c, occs, w);
    assert RowIn(RowOf(c), occs, w);
  }

  lemma EntryReady(rho: Scope, cs: seq<Clause>, occs: seq<Sym>, n: nat, w: World, env: Env)
    requires ClausesSafe(rho, cs, |occs|)
    requires Known(occs, w) && Shows(env, w)
    requires forall s | s in w :: Internal(s) && s.prefix != "fail" && s.n <= n
    requires forall s | s in rho && !Internal(s) :: s in env && env[s] == DVal(rho[s])
    ensures Ready(rho, {}, RowsOf(cs), occs, n, env, w)
  {
    hide ClauseSafe, RowIn, RowMatches, RowBinds, RowFree, RowNames, Sighted;
    forall r | r in RowsOf(cs)
      ensures RowIn(r, occs, w) && |r.cols| == |occs|
      ensures Sighted(env, rho, {}, RowFree(r) - RowNames(r))
    {
      var i :| 0 <= i < |cs| && RowsOf(cs)[i] == r;
      assert cs[i] in cs;
      ClauseRowReady(rho, cs[i], occs, w, env);
      RowInCols(r, occs, w);
    }
  }

  lemma RowInCols(r: Row, occs: seq<Sym>, w: World)
    requires RowIn(r, occs, w)
    ensures |r.cols| == |occs|
  {
  }

  /** After the entry's `let`, every occurrence holds its match expression's value. */
  lemma EntryLet(sem: Sem, rho: Scope, exprs: seq<Expr>, n: nat) returns (env: Env)
    requires ExprsOk(rho, exprs)
    ensures EvalBinds(sem, EntryPairs(exprs, n), ScopeEnv(rho)) == BEnv(env)
    ensures var occs, w := EntryOccs(|exprs|, n), EntryWorld(Scrutinees(sem, rho, exprs), n);
            && Known(occs, w) && Slots(occs, w) == Scrutinees(sem, rho, exprs) && Shows(env, w)
            && (forall s | s in w :: Internal(s) && s.prefix != "fail" && s.n <= n + |exprs|)
    ensures forall s | s in rho && !Internal(s) :: s in env && env[s] == DVal(rho[s])
  {
    ScopeEnvShows(rho);
    hide EvalBinds, ExprsOk, EntryWorld, EntryPairs, ScopeEnv, ExprValue, Eval;
    var xs := Scrutinees(sem, rho, exprs);
    var occs, w := EntryOccs(|exprs|, n), EntryWorld(xs, n);
    EntryWorldFacts(xs, n);
    env := EntryMeans(sem, rho, exprs, n, ScopeEnv(rho), 0);
    assert EntryPairs(exprs, n)[0..] == EntryPairs(exprs, n);
    assert Slots(occs, w) == xs;
    forall s | s in w ensures s in env && env[s] == DVal(w[s]) {
      var i :| 0 <= i < |occs| && occs[i] == s;
      assert Slots(occs, w)[i] == xs[i];
    }
  }

  lemma ScopeEnvShows(rho: Scope)
    ensures forall s | s in rho && !Internal(s) :: s in ScopeEnv(rho) && ScopeEnv(rho)[s] == DVal(rho[s])
  {}

  lemma RowsOfAligned(rho: Scope, cs: seq<Clause>, k: nat)
    requires ClausesSafe(rho, cs, k)
    ensures Aligned(RowsOf(cs), k) && forall c <- cs :: |c.pats| == k
  {
    forall r | r in RowsOf(cs) ensures |r.cols| == k {
      var i :| 0 <= i < |cs| && RowsOf(cs)[i] == r;
      assert cs[i] in cs;
    }
  }

  /** The tree compiled with the counter at n1, behind the entry's `let`. */
  function Emitted(exprs: seq<Expr>, cs: seq<Clause>, n: nat, n1: nat): Form
    requires Aligned(RowsOf(cs), |exprs|)
  {
    WithPairs(EntryPairs(exprs, n), Compile(EntryOccs(|exprs|, n), RowsOf(cs), FThrow, n1).form)
  }

  /** Evaluated, it meets the clauses, whatever their constructors and names. */
  lemma EmittedMeets(sem: Sem, rho: Scope, exprs: seq<Expr>, cs: seq<Clause>, n: nat, n1: nat)
    requires ExprsOk(rho, exprs) && ClausesSafe(rho, cs, |exprs|) && n + |exprs| <= n1
    ensures Aligned(RowsOf(cs), |exprs|)
    ensures var occs, w := EntryOccs(|exprs|, n), EntryWorld(Scrutinees(sem, rho, exprs), n);
            && Known(occs, w) && RowsIn(RowsOf(cs), occs, w) && Slots(occs, w) == Scrutinees(sem, rho, exprs)
            && Meets(sem, rho, {}, RowsOf(cs), occs, w, Eval(sem, Emitted(exprs, cs, n, n1), ScopeEnv(rho)), NoMatch, true)
  {
    hide *;
    RowsOfAligned(rho, cs, |exprs|);
    var xs := Scrutinees(sem, rho, exprs);
    var occs, w := EntryOccs(|exprs|, n), EntryWorld(xs, n);
    var env := EntryLet(sem, rho, exprs, n);
    EntryReady(rho, cs, occs, n + |exprs|, w, env);
    ThrowFails(sem, n + |exprs|, env);
    ReadyLater(rho, {}, RowsOf(cs), occs, n + |exprs|, n1, env, w, FThrow);
    ReadyFacts(rho, {}, RowsOf(cs), occs, n1, env, w);
    CompileMeans(sem, rho, {}, occs, RowsOf(cs), FThrow, n1, env, w);
    var c := Compile(occs, RowsOf(cs), FThrow, n1);
    WithPairsMeans(sem, EntryPairs(exprs, n), c.form, ScopeEnv(rho), env);
    EmittedIs(exprs, cs, n, n1);
    if !c.used {
      MeetsMore(sem, rho, {}, RowsOf(cs), occs, w, Eval(sem, c.form, env), NoMatch, c.used);
    }
  }

  lemma EmittedIs(exprs: seq<Expr>, cs: seq<Clause>, n: nat, n1: nat)
    requires Aligned(RowsOf(cs), |exprs|)
    ensures Emitted(exprs, cs, n, n1) ==
            WithPairs(EntryPairs(exprs, n), Compile(EntryOccs(|exprs|, n), RowsOf(cs), FThrow, n1).form)
  {
  }

  lemma ThrowFails(sem: Sem, n: nat, env: Env)
    ensures FailForm(FThrow, n) && Eval(sem, FThrow, env) == NoMatch
  {
  }

  lemma CompileMatchIs(exprs: seq<Expr>, cs: seq<Clause>, n: nat)
    requires forall c <- cs :: |c.pats| == |exprs|
    requires Aligned(RowsOf(cs), |exprs|)
    ensures CompileMatch(exprs, cs, n) ==
            WithPairs(EntryPairs(exprs, n), Compile(EntryOccs(|exprs|, n), RowsOf(cs), FThrow, n + |exprs|).form)
  {
  }

  // ----- clauses that run -----

  /** The bindings of the clauses before i. */
  ghost function Earlier(cs: seq<Clause>, xs: seq<Slot>, i: nat): set<Bound>
    requires i <= |cs| && forall c <- cs :: |c.pats| == |xs|
  {
    set j, b | 0 <= j < i && b in BindAll(cs[j].pats, xs) :: b
  }

  /** The clause's patterns match, its guards were true and its action ran, all of values their names may show
      when the clauses before it left the bindings `before`. */
  ghost predicate ClauseRan(sem: Sem, rho: Scope, before: set<Bound>, c: Clause, xs: seq<Slot>, res: Result)
    requires |c.pats| == |xs|
  {
    && MatchAll(c.pats, xs)
    && (forall g | g in GuardAll(c.pats) :: GuardSaw(sem, rho, before, BindAll(c.pats, xs), g))
    && ActionSaw(rho, before, BindAll(c.pats, xs), c.action, res)
  }

  ghost predicate SomeClauseRan(sem: Sem, rho: Scope, cs: seq<Clause>, xs: seq<Slot>, res: Result)
    requires forall c <- cs :: |c.pats| == |xs|
  {
    exists i | 0 <= i < |cs| :: ClauseRan(sem, rho, Earlier(cs, xs, i), cs[i], xs, res)
  }

  lemma EarlierStep(cs: seq<Clause>, xs: seq<Slot>, i: nat)
    requires i < |cs| && forall c <- cs :: |c.pats| == |xs|
    ensures Earlier(cs, xs, i + 1) == Earlier(cs, xs, i) + BindAll(cs[i].pats, xs)
  {
    hide BindAll;
  }

  lemma RowClause(sem: Sem, rho: Scope, before: set<Bound>, c: Clause, occs: seq<Sym>, w: World, res: Result)
    requires Known(occs, w) && RowIn(RowOf(c), occs, w) && |c.pats| == |occs|
    ensures Ran(sem, rho, before, RowOf(c), occs, w, res) <==> ClauseRan(sem, rho, before, c, Slots(occs, w), res)
    ensures RowAccepts(sem, rho, RowOf(c), occs, w) <==> ClauseAccepts(sem, rho, c, Slots(occs, w))
    ensures RowBinds(RowOf(c), occs, w) == BindAll(c.pats, Slots(occs, w))
  {
    hide RowBinds, RowMatches, RowGuards, BindAll, MatchAll, GuardAll, GuardSaw, ActionSaw, GuardHolds, Slots;
    RowOfFacts(c, occs, w);
  }

  lemma {:induction false} RanSomeClause(sem: Sem, rho: Scope, cs: seq<Clause>, occs: seq<Sym>, w: World, i: nat, res: Result)
    requires Known(occs, w) && RowsIn(RowsOf(cs), occs, w) && (forall c <- cs :: |c.pats| == |occs|) && i <= |cs|
    requires RowsIn(RowsOf(cs)[i..], occs, w)
    requires RanSome(sem, rho, Earlier(cs, Slots(occs, w), i), RowsOf(cs)[i..], occs, w, res)
    ensures SomeClauseRan(sem, rho, cs, Slots(occs, w), res)
    decreases |cs| - i
  {
    hide RowIn, Ran, ClauseRan, RowBinds, BindAll, Slots, Earlier, RowAccepts, ClauseAccepts;
    var rows, xs := RowsOf(cs), Slots(occs, w);
    assert rows[i..][0] == RowOf(cs[i]) && rows[i..][1..] == rows[i + 1..] && rows[i] in rows && cs[i] in cs;
    RowClause(sem, rho, Earlier(cs, xs, i), cs[i], occs, w, res);
    if !Ran(sem, rho, Earlier(cs, xs, i), RowOf(cs[i]), occs, w, res) {
      EarlierStep(cs, xs, i);
      RanSomeClause(sem, rho, cs, occs, w, i + 1, res);
    }
  }

  /** MAIN: for every clause list the tree is safe: it never gets stuck on an unbound symbol, a missing thunk or
      an index out of range, and an action runs only for a clause whose patterns match and whose guards were
      true, each name of its own showing one of its bindings and every other name its outer value or what
      an earlier clause bound it to. */
  lemma MatchIsSafe(sem: Sem, rho: Scope, exprs: seq<Expr>, cs: seq<Clause>, n: nat)
    requires ExprsOk(rho, exprs) && ClausesSafe(rho, cs, |exprs|)
    ensures var res := Eval(sem, CompileMatch(exprs, cs, n), ScopeEnv(rho));
            res == NoMatch || SomeClauseRan(sem, rho, cs, Scrutinees(sem, rho, exprs), res)
  {
    hide *;
    var occs, w := EntryOccs(|exprs|, n), EntryWorld(Scrutinees(sem, rho, exprs), n);
    RowsOfAligned(rho, cs, |exprs|);
    EmittedMeets(sem, rho, exprs, cs, n, n + |exprs|);
    EmittedIs(exprs, cs, n, n + |exprs|);
    CompileMatchIs(exprs, cs, n);
    var res := Eval(sem, CompileMatch(exprs, cs, n), ScopeEnv(rho));
    MeetsSome(sem, rho, RowsOf(cs), occs, w, res);
    if res != NoMatch {
      NothingEarlier(cs, Slots(occs, w));
      assert RowsOf(cs)[0..] == RowsOf(cs);
      RanSomeClause(sem, rho, cs, occs, w, 0, res);
    }
  }

  lemma NothingEarlier(cs: seq<Clause>, xs: seq<Slot>)
    requires forall c <- cs :: |c.pats| == |xs|
    ensures Earlier(cs, xs, 0) == {}
  {
  }

  lemma MeetsSome(sem: Sem, rho: Scope, rows: seq<Row>, occs: seq<Sym>, w: World, res: Result)
    requires RowsIn(rows, occs, w) && Meets(sem, rho, {}, rows, occs, w, res, NoMatch, true)
    ensures res == NoMatch || RanSome(sem, rho, {}, rows, occs, w, res)
  {
  }

  // ----- the first clause that accepts -----

  /** The first clause that accepts ran, or none accepts and there is no match. */
  ghost predicate FirstClauseRan(sem: Sem, rho: Scope, cs: seq<Clause>, xs: seq<Slot>, i: nat, res: Result)
    requires i <= |cs| && forall c <- cs :: |c.pats| == |xs|
    decreases |cs| - i
  {
    if i == |cs| then res == NoMatch
    else
      assert cs[i] in cs;
      if ClauseAccepts(sem, rho, cs[i], xs) then ActionSaw(rho, Earlier(cs, xs, i), BindAll(cs[i].pats, xs), cs[i].action, res)
      else FirstClauseRan(sem, rho, cs, xs, i + 1, res)
  }

  lemma {:induction false} RanFirstClause(sem: Sem, rho: Scope, cs: seq<Clause>, occs: seq<Sym>, w: World, i: nat, res: Result)
    requires Known(occs, w) && RowsIn(RowsOf(cs), occs, w) && (forall c <- cs :: |c.pats| == |occs|) && i <= |cs|
    requires RowsIn(RowsOf(cs)[i..], occs, w)
    requires RanFirst(sem, rho, Earlier(cs, Slots(occs, w), i), RowsOf(cs)[i..], occs, w, res, NoMatch)
    ensures FirstClauseRan(sem, rho, cs, Slots(occs, w), i, res)
    decreases |cs| - i
  {
    hide RowIn, Ran, ClauseRan, RowBinds, BindAll, Slots, Earlier, RowAccepts, ClauseAccepts, ActionSaw;
    if i < |cs| {
      var rows, xs := RowsOf(cs), Slots(occs, w);
      assert rows[i..][0] == RowOf(cs[i]) && rows[i..][1..] == rows[i + 1..] && rows[i] in rows && cs[i] in cs;
      RowClause(sem, rho, Earlier(cs, xs, i), cs[i], occs, w, res);
      if !RowAccepts(sem, rho, RowOf(cs[i]), occs, w) {
        EarlierStep(cs, xs, i);
        RanFirstClause(sem, rho, cs, occs, w, i + 1, res);
      }
    }
  }

  lemma NameBound(ps: seq<Pat>, xs: seq<Slot>, s: Sym)
    requires |ps| == |xs| && MatchAll(ps, xs) && (forall p | p in ps :: WellFormed(p)) && s in NameAll(ps)
    ensures BindsName(BindAll(ps, xs), s)
  {
    hide Matches, Binds, Guards, Names, WellFormed;
    var p :| p in ps && s in Names(p);
    var i :| 0 <= i < |ps| && ps[i] == p;
    var cells := Cells(ps, xs);
    assert cells[i] in cells;
    var b := NameHasBinding(p, xs[i].v, xs[i].fromKey, s);
    assert b in CellBinds(cells[i]);
  }

  lemma BoundHasName(ps: seq<Pat>, xs: seq<Slot>, b: Bound)
    requires |ps| == |xs| && b in BindAll(ps, xs)
    ensures b.sym in NameAll(ps)
  {
    hide Matches, Binds, Guards, Names, WellFormed;
    var cells := Cells(ps, xs);
    var c :| c in cells && b in CellBinds(c);
    var i :| 0 <= i < |cells| && cells[i] == c;
    BindingHasName(ps[i], xs[i].v, xs[i].fromKey, b);
    assert ps[i] in ps;
  }

  /** A name that no earlier clause binds unless this one does has one meaning in it. */
  lemma NameClear(rho: Scope, cs: seq<Clause>, xs: seq<Slot>, i: nat, s: Sym)
    requires (forall c <- cs :: |c.pats| == |xs|) && i < |cs| && ClauseSafe(rho, cs[i], |xs|) && MatchAll(cs[i].pats, xs)
    requires s in ClauseFree(cs[i]) && forall j | 0 <= j < i && s in ClauseNames(cs[j]) :: s in ClauseNames(cs[i])
    ensures Clear(rho, Earlier(cs, xs, i), BindAll(cs[i].pats, xs), s)
  {
    hide BindAll, MatchAll, NameAll, ClauseFree, WellFormed;
    if s in ClauseNames(cs[i]) {
      NameBound(cs[i].pats, xs, s);
    } else if BindsName(Earlier(cs, xs, i), s) {
      var b :| b in Earlier(cs, xs, i) && b.sym == s;
      var j :| 0 <= j < i && b in BindAll(cs[j].pats, xs);
      BoundHasName(cs[j].pats, xs, b);
      assert false;
    }
  }

  lemma GuardNamesFree(c: Clause)
    ensures ClauseGuardNames(c) <= ClauseFree(c) && forall s | s in c.action.free :: s in ClauseFree(c)
  {
  }

  lemma ClauseFaithful(rho: Scope, cs: seq<Clause>, occs: seq<Sym>, w: World, i: nat)
    requires ClausesOk(rho, cs, |occs|) && NoCapturedGuards(cs) && Known(occs, w) && i < |cs| && RowIn(RowOf(cs[i]), occs, w)
    ensures RowFaithful(rho, Earlier(cs, Slots(occs, w), i), RowOf(cs[i]), occs, w)
  {
    hide ClauseSafe, LinearClause, RowIn, BindAll, Slots, Earlier, Clear, Functional, ClauseNames, ClauseFree;
    var c, xs := cs[i], Slots(occs, w);
    assert c in cs;
    RowOfFacts(c, occs, w);
    if RowMatches(RowOf(c), occs, w) {
      LinearClauseFunctional(c, xs);
      forall s | s in GuardNames(RowOf(c)) ensures Clear(rho, Earlier(cs, xs, i), BindAll(c.pats, xs), s) {
        GuardNamesFree(c);
        assert s in ClauseGuardNames(c);
        NameClear(rho, cs, xs, i, s);
      }
    }
  }

  lemma {:induction false} ClausesFaithful(rho: Scope, cs: seq<Clause>, occs: seq<Sym>, w: World, i: nat)
    requires ClausesOk(rho, cs, |occs|) && NoCapturedGuards(cs) && Known(occs, w) && RowsIn(RowsOf(cs), occs, w) && i <= |cs|
    ensures RowsIn(RowsOf(cs)[i..], occs, w) && Faithful(rho, Earlier(cs, Slots(occs, w), i), RowsOf(cs)[i..], occs, w)
    decreases |cs| - i
  {
    hide ClauseOk, NoCapturedGuards, RowIn, RowBinds, BindAll, Slots, Earlier, RowFaithful;
    var rows, xs := RowsOf(cs), Slots(occs, w);
    assert forall r | r in rows[i..] :: r in rows;
    if i < |cs| {
      assert rows[i..][0] == RowOf(cs[i]) && rows[i..][1..] == rows[i + 1..] && rows[i] in rows;
      ClauseFaithful(rho, cs, occs, w, i);
      RowOfFacts(cs[i], occs, w);
      EarlierStep(cs, xs, i);
      ClausesFaithful(rho, cs, occs, w, i + 1);
    }
  }

  /** With disjoint constructors in every column, names bound once in a clause and no captured name in a guard,
      the first clause that accepts runs, with its own bindings; only an outer name in its action may show
      what an earlier clause bound it to. */
  lemma EmittedRunsFirst(sem: Sem, rho: Scope, exprs: seq<Expr>, cs: seq<Clause>, n: nat, n1: nat)
    requires ExprsOk(rho, exprs) && ClausesOk(rho, cs, |exprs|) && n + |exprs| <= n1
    requires NoCapturedGuards(cs) && DisjointColumns(cs)
    ensures Aligned(RowsOf(cs), |exprs|)
    ensures FirstClauseRan(sem, rho, cs, Scrutinees(sem, rho, exprs), 0, Eval(sem, Emitted(exprs, cs, n, n1), ScopeEnv(rho)))
  {
    hide *;
    OkIsSafe(rho, cs, |exprs|);
    RowsOfAligned(rho, cs, |exprs|);
    var occs, w := EntryOccs(|exprs|, n), EntryWorld(Scrutinees(sem, rho, exprs), n);
    EmittedMeets(sem, rho, exprs, cs, n, n1);
    DisjointIsCompatible(cs);
    ClausesFaithful(rho, cs, occs, w, 0);
    NothingEarlier(cs, Slots(occs, w));
    var res := Eval(sem, Emitted(exprs, cs, n, n1), ScopeEnv(rho));
    assert RowsOf(cs)[0..] == RowsOf(cs);
    MeetsFirst(sem, rho, RowsOf(cs), occs, w, res);
    RanFirstClause(sem, rho, cs, occs, w, 0, res);
  }

  lemma MeetsFirst(sem: Sem, rho: Scope, rows: seq<Row>, occs: seq<Sym>, w: World, res: Result)
    requires RowsIn(rows, occs, w) && Meets(sem, rho, {}, rows, occs, w, res, NoMatch, true)
    requires CompatibleMatrix(rows) && Faithful(rho, {}, rows, occs, w)
    ensures RanFirst(sem, rho, {}, rows, occs, w, res, NoMatch)
  {
  }

  lemma MatchRunsFirst(sem: Sem, rho: Scope, exprs: seq<Expr>, cs: seq<Clause>, n: nat)
    requires ExprsOk(rho, exprs) && ClausesOk(rho, cs, |exprs|) && NoCapturedGuards(cs) && DisjointColumns(cs)
    ensures FirstClauseRan(sem, rho, cs, Scrutinees(sem, rho, exprs), 0, Eval(sem, CompileMatch(exprs, cs, n), ScopeEnv(rho)))
  {
    hide *;
    OkIsSafe(rho, cs, |exprs|);
    RowsOfAligned(rho, cs, |exprs|);
    EmittedRunsFirst(sem, rho, exprs, cs, n, n + |exprs|);
    EmittedIs(exprs, cs, n, n + |exprs|);
    CompileMatchIs(exprs, cs, n);
  }

  lemma GuardsToo(cs: seq<Clause>)
    requires NoCapturedNames(cs)
    ensures NoCapturedGuards(cs)
  {
    hide ClauseGuardNames, ClauseFree, ClauseNames;
    forall i, j, s | 0 <= i < j < |cs| && s in ClauseGuardNames(cs[j]) && s in ClauseNames(cs[i]) ensures s in ClauseNames(cs[j]) {
      GuardNamesFree(cs[j]);
    }
  }

  /** Without captured names an action that saw what its names may show saw what the clause says. */
  lemma ActionExact(rho: Scope, cs: seq<Clause>, xs: seq<Slot>, i: nat, res: Result)
    requires ClausesOk(rho, cs, |xs|) && NoCapturedNames(cs) && i < |cs| && MatchAll(cs[i].pats, xs)
    requires ActionSaw(rho, Earlier(cs, xs, i), BindAll(cs[i].pats, xs), cs[i].action, res)
    ensures res == RunAction(rho, BindAll(cs[i].pats, xs), cs[i].action)
  {
    hide ClauseSafe, LinearClause, BindAll, MatchAll, Earlier, Clear, Functional, ClauseNames, ClauseFree, ActionSaw, RunAction;
    var c := cs[i];
    assert c in cs;
    LinearClauseFunctional(c, xs);
    GuardNamesFree(c);
    forall s | s in c.action.free ensures Clear(rho, Earlier(cs, xs, i), BindAll(c.pats, xs), s) {
      NameClear(rho, cs, xs, i, s);
    }
    ClearAction(rho, Earlier(cs, xs, i), BindAll(c.pats, xs), c.action, res);
  }

  lemma {:induction false} FirstExact(sem: Sem, rho: Scope, cs: seq<Clause>, xs: seq<Slot>, i: nat, res: Result)
    requires ClausesOk(rho, cs, |xs|) && NoCapturedNames(cs) && i <= |cs| && FirstClauseRan(sem, rho, cs, xs, i, res)
    ensures res == FirstClause(sem, rho, cs[i..], xs)
    decreases |cs| - i
  {
    hide ClauseOk, NoCapturedNames, BindAll, MatchAll, Earlier, ActionSaw, RunAction;
    if i < |cs| {
      assert cs[i] in cs && cs[i..][0] == cs[i] && cs[i..][1..] == cs[i + 1..];
      if ClauseAccepts(sem, rho, cs[i], xs) {
        ActionExact(rho, cs, xs, i, res);
      } else {
        FirstExact(sem, rho, cs, xs, i + 1, res);
      }
    }
  }

  /** MAIN: if no later clause mentions a name an earlier one binds, evaluating what `-match-compile` emits is
      trying the clauses top to bottom: the same clause, seeing the same values. */
  lemma MatchIsFirstClause(sem: Sem, rho: Scope, exprs: seq<Expr>, cs: seq<Clause>, n: nat)
    requires ExprsOk(rho, exprs) && NoCapturedNames(cs)
    requires ClausesOk(rho, cs, |exprs|)
    requires DisjointColumns(cs)
    ensures Eval(sem, CompileMatch(exprs, cs, n), ScopeEnv(rho)) == FirstClause(sem, rho, cs, Scrutinees(sem, rho, exprs))
  {
    hide *;
    OkIsSafe(rho, cs, |exprs|);
    RowsOfAligned(rho, cs, |exprs|);
    EmittedIsFirstClause(sem, rho, exprs, cs, n, n + |exprs|);
    EmittedIs(exprs, cs, n, n + |exprs|);
    CompileMatchIs(exprs, cs, n);
  }

  /** The same wherever the counter stands when the tree is compiled. */
  lemma EmittedIsFirstClause(sem: Sem, rho: Scope, exprs: seq<Expr>, cs: seq<Clause>, n: nat, n1: nat)
    requires ExprsOk(rho, exprs) && NoCapturedNames(cs)
    requires ClausesOk(rho, cs, |exprs|) && n + |exprs| <= n1
    requires DisjointColumns(cs)
    ensures Aligned(RowsOf(cs), |exprs|)
    ensures Eval(sem, Emitted(exprs, cs, n, n1), ScopeEnv(rho)) == FirstClause(sem, rho, cs, Scrutinees(sem, rho, exprs))
  {
    hide *;
    OkIsSafe(rho, cs, |exprs|);
    RowsOfAligned(rho, cs, |exprs|);
    GuardsToo(cs);
    EmittedRunsFirst(sem, rho, exprs, cs, n, n1);
    FirstExact(sem, rho, cs, Scrutinees(sem, rho, exprs), 0, Eval(sem, Emitted(exprs, cs, n, n1), ScopeEnv(rho)));
    assert cs[0..] == cs;
  }

  lemma DisjointIsCompatible(cs: seq<Clause>)
    requires DisjointColumns(cs)
    ensures CompatibleMatrix(RowsOf(cs))
  {
    hide Compatible, WellFormed;
    forall r, s | r in RowsOf(cs) && s in RowsOf(cs) ensures CompatibleRows(r, s) {
      var i :| 0 <= i < |cs| && RowsOf(cs)[i] == r;
      var j :| 0 <= j < |cs| && RowsOf(cs)[j] == s;
      assert cs[i] in cs && cs[j] in cs;
    }
  }

  ghost predicate ClauseAnswers(sem: Sem, rho: Scope, cs: seq<Clause>, xs: seq<Slot>, res: Result)
    requires forall c <- cs :: |c.pats| == |xs|
  {
    exists c <- cs :: ClauseAccepts(sem, rho, c, xs) && res == RunAction(rho, BindAll(c.pats, xs), c.action)
  }

  /** If moreover no name is bound twice or captured, an action runs only for a clause that accepts, with that
      clause's bindings, whatever the constructors. */
  lemma MatchIsSound(sem: Sem, rho: Scope, exprs: seq<Expr>, cs: seq<Clause>, n: nat)
    requires ExprsOk(rho, exprs) && NoCapturedNames(cs)
    requires ClausesOk(rho, cs, |exprs|)
    ensures var res := Eval(sem, CompileMatch(exprs, cs, n), ScopeEnv(rho));
            res == NoMatch || ClauseAnswers(sem, rho, cs, Scrutinees(sem, rho, exprs), res)
  {
    hide *;
    OkIsSafe(rho, cs, |exprs|);
    RowsOfAligned(rho, cs, |exprs|);
    MatchIsSafe(sem, rho, exprs, cs, n);
    var res, xs := Eval(sem, CompileMatch(exprs, cs, n), ScopeEnv(rho)), Scrutinees(sem, rho, exprs);
    if res != NoMatch {
      RanAnswers(sem, rho, cs, xs, res);
    }
  }

  lemma RanAnswers(sem: Sem, rho: Scope, cs: seq<Clause>, xs: seq<Slot>, res: Result)
    requires ClausesOk(rho, cs, |xs|) && NoCapturedNames(cs) && SomeClauseRan(sem, rho, cs, xs, res)
    ensures ClauseAnswers(sem, rho, cs, xs, res)
  {
    hide ClauseSafe, LinearClause, NoCapturedNames, BindAll, MatchAll, GuardAll, Earlier, Clear, Functional, ClauseNames, ClauseFree, ActionSaw,
         RunAction, GuardSaw, GuardHolds;
    var i :| 0 <= i < |cs| && ClauseRan(sem, rho, Earlier(cs, xs, i), cs[i], xs, res);
    var c := cs[i];
    assert c in cs;
    ActionExact(rho, cs, xs, i, res);
    LinearClauseFunctional(c, xs);
    forall g | g in GuardAll(c.pats) ensures GuardHolds(sem, rho, BindAll(c.pats, xs), g) {
      GuardClear(rho, cs, xs, i, g);
      ClearGuard(sem, rho, Earlier(cs, xs, i), BindAll(c.pats, xs), g);
    }
  }

  lemma GuardClear(rho: Scope, cs: seq<Clause>, xs: seq<Slot>, i: nat, g: Guard)
    requires ClausesOk(rho, cs, |xs|) && NoCapturedNames(cs) && i < |cs| && MatchAll(cs[i].pats, xs) && g in GuardAll(cs[i].pats)
    ensures (forall s | s in g.free :: Clear(rho, Earlier(cs, xs, i), BindAll(cs[i].pats, xs), s))
    ensures Clear(rho, Earlier(cs, xs, i), BindAll(cs[i].pats, xs), g.arg)
  {
    hide ClauseSafe, LinearClause, BindAll, MatchAll, Earlier, Clear, ClauseNames;
    assert cs[i] in cs;
    forall s | s in g.free || s == g.arg ensures Clear(rho, Earlier(cs, xs, i), BindAll(cs[i].pats, xs), s) {
      assert s in ClauseFree(cs[i]);
      hide ClauseFree;
      NameClear(rho, cs, xs, i, s);
    }
  }

  // ----- the marker of an absent key -----

  /** What a clause's action must see through its own names of map keys: never the marker, and if no name is bound
      twice the key's value, or nil if there is none. */
  ghost predicate SeesKeys(c: Clause, xs: seq<Slot>, seen: seq<Value>)
    requires |c.pats| == |xs|
  {
    && |seen| == |c.action.free|
    && (forall i, j | 0 <= i < |seen| && 0 <= j < |xs| && NamesKey(c.pats[j], c.action.free[i]) :: seen[i] != ABSENT)
    && (LinearClause(c) ==>
          forall i, j, u | 0 <= i < |seen| && 0 <= j < |xs| && KeyGives(c.pats[j], xs[j].v, c.action.free[i], u) ::
            seen[i] == if u == ABSENT then Scalar(LNil) else u)
  }

  lemma KeyIsBound(c: Clause, xs: seq<Slot>, j: nat, s: Sym, u: Value)
    requires |c.pats| == |xs| && j < |xs| && KeyGives(c.pats[j], xs[j].v, s, u)
    ensures Bound(s, u, true) in BindAll(c.pats, xs)
  {
    hide Matches, Binds, Guards, Names, WellFormed, KeyGives;
    KeyGivesBinds(c.pats[j], xs[j].v, xs[j].fromKey, s, u);
    var cells := Cells(c.pats, xs);
    assert cells[j] in cells && Bound(s, u, true) in CellBinds(cells[j]);
  }

  lemma KeyIsNamed(c: Clause, xs: seq<Slot>, j: nat, s: Sym)
    requires |c.pats| == |xs| && MatchAll(c.pats, xs) && (forall p | p in c.pats :: WellFormed(p))
    requires j < |xs| && NamesKey(c.pats[j], s)
    ensures KeyNamed(BindAll(c.pats, xs), s)
  {
    hide Matches, Binds, Guards, Names, WellFormed, KeyGives, NamesKey, BindAll;
    var cells := Cells(c.pats, xs);
    assert c.pats[j] in c.pats && cells[j] in cells;
    var u := NamedKeyGives(c.pats[j], xs[j].v, s);
    KeyIsBound(c, xs, j, s, u);
  }

  lemma ActionSeesKeys(rho: Scope, before: set<Bound>, c: Clause, xs: seq<Slot>, res: Result)
    requires |c.pats| == |xs| && MatchAll(c.pats, xs) && forall p | p in c.pats :: WellFormed(p)
    requires ActionSaw(rho, before, BindAll(c.pats, xs), c.action, res)
    ensures res.Done? && SeesKeys(c, xs, res.seen)
  {
    hide WellFormed, LinearClause, KeyGives, NamesKey, BindAll, MatchAll, KeyNamed;
    var bs, names := BindAll(c.pats, xs), c.action.free;
    var vs :| Saw(rho, before, bs, names, vs) && res == Done(c.action.id, UnmarkedAll(bs, names, vs));
    forall i, j | 0 <= i < |vs| && 0 <= j < |xs| && NamesKey(c.pats[j], names[i]) ensures res.seen[i] != ABSENT {
      KeyIsNamed(c, xs, j, names[i]);
    }
    forall i, j, u | LinearClause(c) && 0 <= i < |vs| && 0 <= j < |xs| && KeyGives(c.pats[j], xs[j].v, names[i], u)
      ensures res.seen[i] == if u == ABSENT then Scalar(LNil) else u
    {
      KeyIsBound(c, xs, j, names[i], u);
      LinearClauseFunctional(c, xs);
      OnlyValue(rho, before, bs, names[i], u, vs[i]);
    }
  }

  lemma OnlyValue(rho: Scope, before: set<Bound>, bs: set<Bound>, s: Sym, u: Value, v: Value)
    requires Functional(bs) && Bound(s, u, true) in bs && Visible(rho, before, bs, s, v)
    ensures v == u && KeyNamed(bs, s)
  {
  }

  /** For every clause list: whenever the emitted code runs an action, the clause's patterns match, and no name the
      clause gives a map key holds in it the marker; if it binds no name twice, each holds the key's value, or
      nil for an absent key. */
  lemma MarkerStaysInside(sem: Sem, rho: Scope, exprs: seq<Expr>, cs: seq<Clause>, n: nat)
    requires ExprsOk(rho, exprs) && ClausesSafe(rho, cs, |exprs|)
    ensures var res, xs := Eval(sem, CompileMatch(exprs, cs, n), ScopeEnv(rho)), Scrutinees(sem, rho, exprs);
            res != NoMatch ==>
              exists i | 0 <= i < |cs| :: ClauseRan(sem, rho, Earlier(cs, xs, i), cs[i], xs, res) && SeesKeys(cs[i], xs, res.seen)
  {
    MatchIsSafe(sem, rho, exprs, cs, n);
    hide *;
    var res, xs := Eval(sem, CompileMatch(exprs, cs, n), ScopeEnv(rho)), Scrutinees(sem, rho, exprs);
    if res != NoMatch {
      var i := TheClause(sem, rho, cs, xs, res);
      SafePatterns(rho, cs, i, |exprs|);
      ActionSeesKeys(rho, Earlier(cs, xs, i), cs[i], xs, res);
    }
  }

  lemma TheClause(sem: Sem, rho: Scope, cs: seq<Clause>, xs: seq<Slot>, res: Result) returns (i: nat)
    requires (forall c <- cs :: |c.pats| == |xs|) && SomeClauseRan(sem, rho, cs, xs, res)
    ensures i < |cs| && ClauseRan(sem, rho, Earlier(cs, xs, i), cs[i], xs, res)
    ensures MatchAll(cs[i].pats, xs) && ActionSaw(rho, Earlier(cs, xs, i), BindAll(cs[i].pats, xs), cs[i].action, res)
  {
    hide MatchAll, ActionSaw, BindAll, Earlier, GuardSaw;
    i :| 0 <= i < |cs| && ClauseRan(sem, rho, Earlier(cs, xs, i), cs[i], xs, res);
  }

  lemma SafePatterns(rho: Scope, cs: seq<Clause>, i: nat, k: nat)
    requires ClausesSafe(rho, cs, k) && i < |cs|
    ensures |cs[i].pats| == k && (forall p | p in cs[i].pats :: WellFormed(p)) && ClauseSafe(rho, cs[i], k)
  {
    assert cs[i] in cs;
  }

  // ----- the marker of an absent key where it does come out -----

  /** The marker is nowhere in the value. */
  ghost predicate Clean(v: Value)
    decreases v
  {
    match v
    case Scalar(l) => l != NOT_FOUND
    case Vec(items) => forall i | 0 <= i < |items| :: Clean(items[i])
    case Lst(items) => forall i | 0 <= i < |items| :: Clean(items[i])
    case Map(entries) => forall k | k in entries :: Clean(entries[k])
  }

  /** A pattern matched with a clean value binds the marker only to names of map keys. */
  lemma {:induction false} MarkerIsKey(p: Pat, v: Value, fromKey: bool, b: Bound)
    requires (Clean(v) || v == ABSENT) && b in Binds(p, v, fromKey) && b.v == ABSENT
    ensures NamesKey(p, b.sym) || (v == ABSENT && b.sym in p.binds)
    decreases p
  {
    if b !in OwnBinds(p.binds, v, fromKey) {
      match p.head
      case HSeq(isVec, sub, rest) =>
        if i :| 0 <= i < |sub| && b in Binds(sub[i], v.items[i], false) {
          assert Clean(v.items[i]);
          MarkerIsKey(sub[i], v.items[i], false, b);
          assert v.items[i] != ABSENT;
          assert sub[i] in sub;
        }
      case HMap(keys, vals) =>
        var j :| 0 <= j < |vals| && j < |keys| && b in Binds(vals[j], Get(v, keys[j]), true);
        MarkerIsKey(vals[j], Get(v, keys[j]), true, b);
        assert vals[j] in vals;
    }
  }

  ghost predicate CleanScope(rho: Scope) {
    forall s | s in rho :: Clean(rho[s])
  }

  ghost predicate CleanSlots(xs: seq<Slot>) {
    forall i | 0 <= i < |xs| :: Clean(xs[i].v)
  }

  /** Some pattern of the clause gives the name a map key. */
  ghost predicate ClauseNamesKey(c: Clause, s: Sym) {
    exists p | p in c.pats :: NamesKey(p, s)
  }

  lemma MarkerBinding(c: Clause, xs: seq<Slot>, b: Bound)
    requires |c.pats| == |xs| && CleanSlots(xs) && b in BindAll(c.pats, xs) && b.v == ABSENT
    ensures ClauseNamesKey(c, b.sym)
  {
    hide Matches, Binds, Guards, Names, WellFormed, NamesKey;
    var cells := Cells(c.pats, xs);
    var cell :| cell in cells && b in CellBinds(cell);
    var i :| 0 <= i < |cells| && cells[i] == cell;
    MarkerIsKey(c.pats[i], xs[i].v, xs[i].fromKey, b);
    assert c.pats[i] in c.pats;
  }

  /** What an action showing the marker must have read: a name its clause does not bind, which an earlier clause
      gives a map key. */
  ghost predicate CapturesKey(cs: seq<Clause>, i: nat, s: Sym)
    requires i < |cs|
  {
    s !in ClauseNames(cs[i]) && exists j | 0 <= j < i :: ClauseNamesKey(cs[j], s)
  }

  lemma MarkerSeen(rho: Scope, cs: seq<Clause>, xs: seq<Slot>, i: nat, res: Result, k: nat)
    requires ClausesSafe(rho, cs, |xs|) && CleanScope(rho) && CleanSlots(xs) && i < |cs| && MatchAll(cs[i].pats, xs)
    requires ActionSaw(rho, Earlier(cs, xs, i), BindAll(cs[i].pats, xs), cs[i].action, res)
    requires res.Done? && k < |res.seen| && k < |cs[i].action.free| && res.seen[k] == ABSENT
    ensures CapturesKey(cs, i, cs[i].action.free[k])
  {
    hide WellFormed, NamesKey, BindAll, MatchAll, KeyNamed, ClauseNamesKey, Clean, ClauseFree;
    SafePatterns(rho, cs, i, |xs|);
    var c, bs, before, s := cs[i], BindAll(cs[i].pats, xs), Earlier(cs, xs, i), cs[i].action.free[k];
    var vs :| Saw(rho, before, bs, c.action.free, vs) && res == Done(c.action.id, UnmarkedAll(bs, c.action.free, vs));
    assert vs[k] == ABSENT && Visible(rho, before, bs, s, ABSENT) && !KeyNamed(bs, s);
    OwnIsNoMarker(c, xs, s);
    if s in ClauseNames(c) {
      hide Earlier;
      NameBound(c.pats, xs, s);
    }
    CleanIsNoMarker(rho, s);
    var b :| b in before && b.sym == s && b.v == ABSENT;
    var j :| 0 <= j < i && b in BindAll(cs[j].pats, xs);
    MarkerBinding(cs[j], xs, b);
  }

  lemma CleanIsNoMarker(rho: Scope, s: Sym)
    requires CleanScope(rho)
    ensures s in rho ==> rho[s] != ABSENT
  {
  }

  /** Through a name of its own that is not a map key's a clause never shows the marker. */
  lemma OwnIsNoMarker(c: Clause, xs: seq<Slot>, s: Sym)
    requires |c.pats| == |xs| && CleanSlots(xs) && MatchAll(c.pats, xs) && (forall p | p in c.pats :: WellFormed(p))
    requires !KeyNamed(BindAll(c.pats, xs), s)
    ensures !From(BindAll(c.pats, xs), s, ABSENT)
  {
    hide WellFormed, NamesKey, BindAll, MatchAll, Clean;
    if b :| b in BindAll(c.pats, xs) && b.sym == s && b.v == ABSENT {
      MarkerBinding(c, xs, b);
      var p :| p in c.pats && NamesKey(p, s);
      var j :| 0 <= j < |c.pats| && c.pats[j] == p;
      KeyIsNamed(c, xs, j, s);
    }
  }

  /** When neither the scope nor the matched values hold the marker, an action shows it only through a name that its
      clause does not bind and an earlier clause gives a map key. */
  lemma MarkerOnlyCaptured(sem: Sem, rho: Scope, exprs: seq<Expr>, cs: seq<Clause>, n: nat)
    requires ExprsOk(rho, exprs) && ClausesSafe(rho, cs, |exprs|)
    requires CleanScope(rho) && CleanSlots(Scrutinees(sem, rho, exprs))
    ensures var res, xs := Eval(sem, CompileMatch(exprs, cs, n), ScopeEnv(rho)), Scrutinees(sem, rho, exprs);
            res != NoMatch ==>
              exists i | 0 <= i < |cs| ::
                && ClauseRan(sem, rho, Earlier(cs, xs, i), cs[i], xs, res) && |res.seen| == |cs[i].action.free|
                && forall k | 0 <= k < |res.seen| && res.seen[k] == ABSENT :: CapturesKey(cs, i, cs[i].action.free[k])
  {
    MatchIsSafe(sem, rho, exprs, cs, n);
    hide *;
    var res, xs := Eval(sem, CompileMatch(exprs, cs, n), ScopeEnv(rho)), Scrutinees(sem, rho, exprs);
    if res != NoMatch {
      var i := TheClause(sem, rho, cs, xs, res);
      SafePatterns(rho, cs, i, |exprs|);
      ActionSeesKeys(rho, Earlier(cs, xs, i), cs[i], xs, res);
      SeesArity(cs[i], xs, res.seen);
      forall k | 0 <= k < |res.seen| && res.seen[k] == ABSENT ensures CapturesKey(cs, i, cs[i].action.free[k]) {
        MarkerSeen(rho, cs, xs, i, res, k);
      }
    }
  }

  lemma SeesArity(c: Clause, xs: seq<Slot>, seen: seq<Value>)
    requires |c.pats| == |xs| && SeesKeys(c, xs, seen)
    ensures |seen| == |c.action.free|
  {
  }
}
