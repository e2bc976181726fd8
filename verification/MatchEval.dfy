/** What each piece of emitted code evaluates to. */
module MatchEval {
  import opened MatchForms
  import opened MatchPattern
  import opened MatchCompile
  import opened MatchRows

  lemma Args1(sem: Sem, a: Form, env: Env)
    ensures EvalArgs(sem, [a], env) == match Eval(sem, a, env) case Val(v) => AVals([v]) case r => AStop(r)
  {
    assert [a][1..] == [];
    assert EvalArgs(sem, [], env) == AVals([]);
  }

  lemma Args2(sem: Sem, a: Form, b: Form, env: Env, v: Value, u: Value)
    requires Eval(sem, a, env) == Val(v) && Eval(sem, b, env) == Val(u)
    ensures EvalArgs(sem, [a, b], env) == AVals([v, u])
  {
    Args1(sem, b, env);
    assert [a, b][1..] == [b];
  }

  lemma Args3(sem: Sem, a: Form, b: Form, c: Form, env: Env, v: Value, u: Value, x: Value)
    requires Eval(sem, a, env) == Val(v) && Eval(sem, b, env) == Val(u) && Eval(sem, c, env) == Val(x)
    ensures EvalArgs(sem, [a, b, c], env) == AVals([v, u, x])
  {
    Args2(sem, b, c, env, u, x);
    assert [a, b, c][1..] == [b, c];
  }

  lemma CallOne(sem: Sem, op: Op, a: Form, env: Env, v: Value)
    requires Eval(sem, a, env) == Val(v)
    ensures Eval(sem, FCall(op, [a]), env) == Prim(op, [v])
  {
    Args1(sem, a, env);
  }

  lemma CallTwo(sem: Sem, op: Op, a: Form, b: Form, env: Env, v: Value, u: Value)
    requires Eval(sem, a, env) == Val(v) && Eval(sem, b, env) == Val(u)
    ensures Eval(sem, FCall(op, [a, b]), env) == Prim(op, [v, u])
  {
    Args2(sem, a, b, env, v, u);
  }

  predicate IsBool(r: Result) {
    r == Val(Bool(true)) || r == Val(Bool(false))
  }

  lemma AndTwo(sem: Sem, a: Form, b: Form, env: Env)
    requires IsBool(Eval(sem, a, env))
    ensures Eval(sem, FAnd([a, b]), env) ==
            if Eval(sem, a, env) == Val(Bool(true)) then Eval(sem, b, env) else Val(Bool(false))
  {
    assert [a, b][1..] == [b];
    assert EvalAnd(sem, [b], env) == Eval(sem, b, env);
    assert Truthy(Bool(true)) && !Truthy(Bool(false));
  }

  /** The emitted test answers whether the value has the constructor, and never gets stuck. */
  lemma CtorTestMeans(sem: Sem, occ: Sym, ct: Ctor, env: Env, v: Value)
    requires occ in env && env[occ] == DVal(v)
    ensures Eval(sem, CtorTest(occ, ct), env) == Val(Bool(CtorAccepts(ct, v)))
  {
    var o := FSym(occ);
    match ct
    case CLit(l) =>
      if l == LNil {
        CallOne(sem, NilP, o, env, v);
      } else {
        CallTwo(sem, Eq, o, FLit(l), env, v, Scalar(l));
      }
    case CSeq(isVec, arity, hasRest) =>
      var kind, size := FCall(if isVec then VectorP else SequentialP, [o]), FCall(Count, [o]);
      var fits := FCall(if hasRest then Ge else Eq, [size, FLit(LInt(arity))]);
      CallOne(sem, if isVec then VectorP else SequentialP, o, env, v);
      AndTwo(sem, kind, fits, env);
      if (if isVec then v.Vec? else IsSequential(v)) {
        CallOne(sem, Count, o, env, v);
        CallTwo(sem, if hasRest then Ge else Eq, size, FLit(LInt(arity)), env, Scalar(LInt(|v.items|)), Scalar(LInt(arity)));
      }
    case CMap(_) =>
      CallOne(sem, MapP, o, env, v);
  }

  /** A sub-occurrence is read only under its constructor's test, so the index is in range. */
  lemma AccessMeans(sem: Sem, occ: Sym, ct: Ctor, i: nat, env: Env, v: Value)
    requires occ in env && env[occ] == DVal(v) && CtorAccepts(ct, v) && i < Width(ct)
    ensures Eval(sem, Access(occ, ct, i), env) == Val(SubValue(ct, v, i))
  {
    match ct
    case CSeq(_, _, _) =>
      CallTwo(sem, Nth, FSym(occ), FLit(LInt(i)), env, v, Scalar(LInt(i)));
    case CMap(keys) =>
      Args3(sem, FSym(occ), FLit(keys[i]), FLit(NOT_FOUND), env, v, Scalar(keys[i]), ABSENT);
  }

  lemma SrcMeans(sem: Sem, src: Src, env: Env, w: World)
    requires SrcOk(src, w) && src.s in env && env[src.s] == DVal(w[src.s])
    ensures Eval(sem, SrcForm(src), env) == Val(SrcVal(src, w))
  {
    match src
    case SrcOcc(_) =>
    case SrcSubvec(s, n) => CallTwo(sem, Subvec, FSym(s), FLit(LInt(n)), env, w[s], Scalar(LInt(n)));
    case SrcNthrest(s, n) => CallTwo(sem, Nthrest, FSym(s), FLit(LInt(n)), env, w[s], Scalar(LInt(n)));
  }

  // ----- a row's let -----

  ghost predicate Shows(env: Env, w: World) {
    forall s | s in w :: s in env && env[s] == DVal(w[s])
  }

  /** env2 is env with every bound name set to the value of one of its sources. */
  ghost predicate LetResult(binds: seq<Bind>, env: Env, env2: Env, w: World)
    requires BindsOk(binds, w)
  {
    && (forall s | s in env :: s in env2)
    && (forall s | s in env2 ::
          || (exists b | b in binds :: b.sym == s && env2[s] == DVal(SrcVal(b.src, w)))
          || (s in env && env2[s] == env[s] && forall b | b in binds :: b.sym != s))
    && (forall b | b in binds :: b.sym in env2)
  }

  lemma {:induction false} LetMeans(sem: Sem, binds: seq<Bind>, env: Env, w: World) returns (env2: Env)
    requires BindsOk(binds, w) && Shows(env, w)
    requires forall b | b in binds :: b.sym !in w
    ensures EvalBinds(sem, BindPairs(binds), env) == BEnv(env2)
    ensures LetResult(binds, env, env2, w) && Shows(env2, w)
  {
    if binds == [] {
      env2 := env;
      LetNothing(sem, env, w);
    } else {
      hide *;
      var b := binds[0];
      FirstBind(binds, env, w);
      SrcMeans(sem, b.src, env, w);
      env2 := LetMeans(sem, binds[1..], env[b.sym := DVal(SrcVal(b.src, w))], w);
      LetStep(sem, binds, env, SrcVal(b.src, w));
      LetResultStep(binds, env, env2, w);
    }
  }

  lemma LetNothing(sem: Sem, env: Env, w: World)
    ensures EvalBinds(sem, BindPairs([]), env) == BEnv(env) && LetResult([], env, env, w)
  {
  }

  lemma FirstBind(binds: seq<Bind>, env: Env, w: World)
    requires binds != [] && BindsOk(binds, w) && Shows(env, w) && forall b | b in binds :: b.sym !in w
    ensures var src := binds[0].src; SrcOk(src, w) && src.s in env && env[src.s] == DVal(w[src.s])
    ensures BindsOk(binds[1..], w) && forall b | b in binds[1..] :: b.sym !in w
    ensures Shows(env[binds[0].sym := DVal(SrcVal(binds[0].src, w))], w)
  {
    hide SrcVal;
    assert binds[0] in binds;
  }

  lemma LetStep(sem: Sem, binds: seq<Bind>, env: Env, v: Value)
    requires binds != [] && Eval(sem, SrcForm(binds[0].src), env) == Val(v)
    ensures EvalBinds(sem, BindPairs(binds), env) == EvalBinds(sem, BindPairs(binds[1..]), env[binds[0].sym := DVal(v)])
  {
    hide Eval;
    assert BindPairs(binds)[1..] == BindPairs(binds[1..]);
    SrcIsNoFn(binds[0].src);
    hide SrcForm;
  }

  lemma SrcIsNoFn(src: Src)
    ensures !SrcForm(src).FFn?
  {
  }

  lemma LetResultStep(binds: seq<Bind>, env: Env, env2: Env, w: World)
    requires binds != [] && BindsOk(binds, w) && BindsOk(binds[1..], w)
    requires LetResult(binds[1..], env[binds[0].sym := DVal(SrcVal(binds[0].src, w))], env2, w)
    ensures LetResult(binds, env, env2, w)
  {
    hide SrcVal, SrcOk;
    assert forall b :: b in binds <==> b == binds[0] || b in binds[1..];
  }

  ghost predicate KeyBound(binds: seq<Bind>, s: Sym) {
    exists b | b in binds :: b.sym == s && FromKey(b.src)
  }

  /** The action's own `let` turns the absent marker into nil for names bound to map keys, and nothing else. */
  lemma {:induction false} UnsentinelMeans(sem: Sem, binds: seq<Bind>, env: Env) returns (env2: Env)
    requires forall b | b in binds :: b.sym in env && env[b.sym].DVal?
    ensures EvalBinds(sem, UnsentinelPairs(binds), env) == BEnv(env2)
    ensures env2.Keys == env.Keys
    ensures forall s | s in env :: env2[s] ==
              if env[s] == DVal(ABSENT) && KeyBound(binds, s) then DVal(Scalar(LNil))
              else env[s]
  {
    if binds == [] {
      env2 := env;
    } else {
      var b := binds[0];
      assert b in binds;
      var rest := UnsentinelPairs(binds[1..]);
      forall s ensures KeyBound(binds, s) <==> (b.sym == s && FromKey(b.src)) || KeyBound(binds[1..], s) {
        assert forall x :: x in binds <==> x == b || x in binds[1..];
      }
      if FromKey(b.src) {
        var pair := Binding(b.sym, FIf(FCall(Eq, [FSym(b.sym), FLit(NOT_FOUND)]), FLit(LNil), FSym(b.sym)));
        CallTwo(sem, Eq, FSym(b.sym), FLit(NOT_FOUND), env, env[b.sym].v, ABSENT);
        var env1 := env[b.sym := DVal(if env[b.sym].v == ABSENT then Scalar(LNil) else env[b.sym].v)];
        assert UnsentinelPairs(binds) == [pair] + rest && ([pair] + rest)[1..] == rest;
        assert Truthy(Bool(true)) && !Truthy(Bool(false));
        assert Eval(sem, pair.form, env) == Val(env1[b.sym].v);
        env2 := UnsentinelMeans(sem, binds[1..], env1);
      } else {
        assert [] + rest == rest;
        env2 := UnsentinelMeans(sem, binds[1..], env);
      }
    }
  }

  // ----- tests at a leaf -----

  lemma {:induction false} EvalAndMeans(sem: Sem, tests: seq<Form>, env: Env)
    requires tests != [] && forall t | t in tests :: IsBool(Eval(sem, t, env))
    ensures EvalAnd(sem, tests, env) == Val(Bool(forall t | t in tests :: Eval(sem, t, env) == Val(Bool(true))))
  {
    assert tests[0] in tests;
    assert Truthy(Bool(true)) && !Truthy(Bool(false));
    if |tests| > 1 {
      EvalAndMeans(sem, tests[1..], env);
      assert forall t :: t in tests <==> t == tests[0] || t in tests[1..];
    } else {
      assert tests == [tests[0]];
    }
  }

  lemma AndFormMeans(sem: Sem, tests: seq<Form>, env: Env)
    requires tests != [] && forall t | t in tests :: IsBool(Eval(sem, t, env))
    ensures Eval(sem, AndForm(tests), env) == Val(Bool(forall t | t in tests :: Eval(sem, t, env) == Val(Bool(true))))
  {
    EvalAndMeans(sem, tests, env);
    if |tests| == 1 {
      assert tests == [tests[0]];
    }
  }

  /** env shows each symbol of S as a value it may show. */
  ghost predicate Sees(env: Env, rho: Scope, before: set<Bound>, bs: set<Bound>, S: set<Sym>) {
    forall s | s in S :: s in env && env[s].DVal? && Visible(rho, before, bs, s, env[s].v)
  }

  /** Looking up names that env sees. */
  lemma SeesSaw(env: Env, rho: Scope, before: set<Bound>, bs: set<Bound>, S: set<Sym>, names: seq<Sym>)
    requires Sees(env, rho, before, bs, S) && forall s | s in names :: s in S
    ensures AllBound(env, names) && Saw(rho, before, bs, names, Lookups(env, names))
  {
    hide Visible;
    assert forall i | 0 <= i < |names| :: names[i] in names;
  }

  lemma GuardMeans(sem: Sem, env: Env, rho: Scope, before: set<Bound>, bs: set<Bound>, S: set<Sym>, g: Guard)
    requires Sees(env, rho, before, bs, S) && (forall s | s in g.free :: s in S) && g.arg in S
    ensures IsBool(Eval(sem, FGuard(g), env))
    ensures Eval(sem, FGuard(g), env) == Val(Bool(true)) ==> GuardSaw(sem, rho, before, bs, g)
    ensures Functional(bs) && (forall s | s in g.free :: Clear(rho, before, bs, s)) && Clear(rho, before, bs, g.arg) ==>
              Eval(sem, FGuard(g), env) == Val(Bool(GuardHolds(sem, rho, bs, g)))
  {
    hide Visible, Clear, Functional, Look;
    var names := g.free + [g.arg];
    SeesSaw(env, rho, before, bs, S, names);
    var vs := Lookups(env, names);
    GuardEval(sem, env, g);
    if sem.truth(g.pred, vs[..|g.free|], vs[|g.free|]) {
      assert GuardSaw(sem, rho, before, bs, g);
    }
    if Functional(bs) && (forall s | s in g.free :: Clear(rho, before, bs, s)) && Clear(rho, before, bs, g.arg) {
      forall i | 0 <= i < |g.free| ensures vs[i] == Look(rho, bs, g.free[i]) {
        assert names[i] == g.free[i] && g.free[i] in g.free;
        ClearIs(rho, before, bs, g.free[i], vs[i]);
      }
      assert names[|g.free|] == g.arg;
      ClearIs(rho, before, bs, g.arg, vs[|g.free|]);
      assert vs[..|g.free|] == seq(|g.free|, i requires 0 <= i < |g.free| => Look(rho, bs, g.free[i]));
    }
  }

  lemma GuardEval(sem: Sem, env: Env, g: Guard)
    requires AllBound(env, g.free + [g.arg])
    ensures var vs := Lookups(env, g.free + [g.arg]);
            Eval(sem, FGuard(g), env) == Val(Bool(sem.truth(g.pred, vs[..|g.free|], vs[|g.free|])))
  {
    var names := g.free + [g.arg];
    assert forall s | s in g.free :: s in names;
    assert g.arg in names;
    assert AllBound(env, g.free) && AllBound(env, [g.arg]);
    assert Lookups(env, names)[..|g.free|] == Lookups(env, g.free);
    assert names[|g.free|] == g.arg;
  }

  lemma PresenceMeans(sem: Sem, s: Sym, env: Env, w: World)
    requires s in w && Shows(env, w)
    ensures Eval(sem, FCall(NotEq, [FSym(s), FLit(NOT_FOUND)]), env) == Val(Bool(w[s] != ABSENT))
  {
    CallTwo(sem, NotEq, FSym(s), FLit(NOT_FOUND), env, w[s], ABSENT);
  }

  // ----- sub-occurrences -----

  ghost function SubMap(ct: Ctor, v: Value, n: nat): World
    requires CtorAccepts(ct, v)
  {
    map s | s in SubOccs(ct, n) && s.Gen? && 0 <= s.n - n - 1 < Width(ct) :: SubValue(ct, v, s.n - n - 1)
  }

  ghost function SubWorld(w: World, ct: Ctor, v: Value, n: nat): World
    requires CtorAccepts(ct, v)
  {
    w + SubMap(ct, v, n)
  }

  lemma PrefixIsKey(ct: Ctor)
    ensures SubPrefix(ct) == "m" <==> ct.CMap?
  {}

  lemma SubMapFacts(ct: Ctor, v: Value, n: nat)
    requires CtorAccepts(ct, v)
    ensures var subs, m := SubOccs(ct, n), SubMap(ct, v, n);
            && (forall i | 0 <= i < |subs| :: subs[i] in m && m[subs[i]] == SubValue(ct, v, i))
            && (forall s | s in m :: s in subs)
            && (forall s | s in subs :: s.Gen? && s.n > n)
            && (forall i | 0 <= i < |subs| :: IsKeyOcc(subs[i]) == ct.CMap?)
  {
    hide CtorAccepts, SubValue, SubOccs;
    var subs, m := SubOccs(ct, n), SubMap(ct, v, n);
    forall i | 0 <= i < |subs| ensures subs[i] in m && m[subs[i]] == SubValue(ct, v, i) {
      assert subs[i] in subs && subs[i].n - n - 1 == i;
    }
    forall s | s in subs ensures s.Gen? && s.n > n {
      var i :| 0 <= i < |subs| && subs[i] == s;
    }
    hide SubMap, Width;
    PrefixIsKey(ct);
  }

  lemma {:induction false} PairsMean(sem: Sem, occ: Sym, ct: Ctor, n: nat, env: Env, v: Value, i: nat) returns (env2: Env)
    requires occ in env && env[occ] == DVal(v) && CtorAccepts(ct, v) && i <= Width(ct)
    requires occ !in SubOccs(ct, n)
    ensures EvalBinds(sem, LetPairs(occ, ct, n)[i..], env) == BEnv(env2)
    ensures forall s | s in env && s !in SubOccs(ct, n)[i..] :: s in env2 && env2[s] == env[s]
    ensures forall k | i <= k < Width(ct) :: SubOccs(ct, n)[k] in env2 && env2[SubOccs(ct, n)[k]] == DVal(SubValue(ct, v, k))
    ensures forall s | s in env2 :: s in env || s in SubOccs(ct, n)
    decreases Width(ct) - i
  {
    var pairs, subs := LetPairs(occ, ct, n), SubOccs(ct, n);
    if i == Width(ct) {
      env2 := env;
    } else {
      AccessMeans(sem, occ, ct, i, env, v);
      assert subs[i] in subs;
      var env1 := env[subs[i] := DVal(SubValue(ct, v, i))];
      assert pairs[i..][0] == pairs[i] && pairs[i..][1..] == pairs[i + 1..];
      assert subs[i] !in subs[i + 1..];
      assert subs[i..] == [subs[i]] + subs[i + 1..];
      env2 := PairsMean(sem, occ, ct, n, env1, v, i + 1);
    }
  }
}
