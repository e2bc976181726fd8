/** The analyzer as the program runs it: one object, counters updated in place, loops over the sub-forms. */
module AnalyzerImpl {
  import opened AnalyzerForms
  import Spec = AnalyzerSpec
  import opened Options

  datatype Result<T> = Success(v: T) | Failure(e: Error)

  function Outcome<T>(r: Result<T>, st: St): Res<T> {
    match r
    case Success(v) => Ok(v, st)
    case Failure(e) => Err(e, st)
  }

  /** What a loop has gathered, then what the rest gives. */
  function After<T>(xs: seq<T>, r: Res<seq<T>>): Res<seq<T>> {
    match r
    case Ok(v, st) => Ok(xs + v, st)
    case Err(e, st) => Err(e, st)
  }

  function AfterPair<T, S>(xs: seq<T>, r: Res<(seq<T>, S)>): Res<(seq<T>, S)> {
    match r
    case Ok(v, st) => Ok((xs + v.0, v.1), st)
    case Err(e, st) => Err(e, st)
  }

  function AfterPairs<T, S>(xs: seq<T>, ys: seq<S>, r: Res<(seq<T>, seq<S>)>): Res<(seq<T>, seq<S>)> {
    match r
    case Ok(v, st) => Ok((xs + v.0, ys + v.1), st)
    case Err(e, st) => Err(e, st)
  }

  lemma AfterStep<T>(xs: seq<T>, x: T, r: Res<seq<T>>)
    ensures After(xs, After([x], r)) == After(xs + [x], r)
  {
    if r.Ok? { assert xs + ([x] + r.v) == xs + [x] + r.v; }
  }

  lemma AfterNone<T>(xs: seq<T>, st: St)
    ensures After(xs, Ok([], st)) == Ok(xs, st) && forall r: Res<seq<T>> :: After([], r) == r
  {
    assert xs + [] == xs;
    forall r: Res<seq<T>> ensures After([], r) == r {
      if r.Ok? { assert [] + r.v == r.v; }
    }
  }

  lemma AfterPairStep<T, S>(xs: seq<T>, x: T, r: Res<(seq<T>, S)>)
    ensures AfterPair(xs, AfterPair([x], r)) == AfterPair(xs + [x], r)
  {
    if r.Ok? { assert xs + ([x] + r.v.0) == xs + [x] + r.v.0; }
  }

  lemma AfterPairNone<T, S>(xs: seq<T>, s: S, st: St)
    ensures AfterPair(xs, Ok(([], s), st)) == Ok((xs, s), st) && forall r: Res<(seq<T>, S)> :: AfterPair([], r) == r
  {
    assert xs + [] == xs;
    forall r: Res<(seq<T>, S)> ensures AfterPair([], r) == r {
      if r.Ok? { assert [] + r.v.0 == r.v.0; }
    }
  }

  lemma AfterPairsStep<T, S>(xs: seq<T>, ys: seq<S>, x: T, y: S, r: Res<(seq<T>, seq<S>)>)
    ensures AfterPairs(xs, ys, AfterPairs([x], [y], r)) == AfterPairs(xs + [x], ys + [y], r)
  {
    if r.Ok? { assert xs + ([x] + r.v.0) == xs + [x] + r.v.0 && ys + ([y] + r.v.1) == ys + [y] + r.v.1; }
  }

  lemma AfterPairsNone<T, S>(xs: seq<T>, ys: seq<S>, st: St)
    ensures AfterPairs(xs, ys, Ok(([], []), st)) == Ok((xs, ys), st)
    ensures forall r: Res<(seq<T>, seq<S>)> :: AfterPairs([], [], r) == r
  {
    assert xs + [] == xs && ys + [] == ys;
    forall r: Res<(seq<T>, seq<S>)> ensures AfterPairs([], [], r) == r {
      if r.Ok? { assert [] + r.v.0 == r.v.0 && [] + r.v.1 == r.v.1; }
    }
  }

  /** The overload counters as the specification's tally. */
  function Seen(arities: set<nat>, variadicCount: nat, variadicFixed: nat): Spec.Arities {
    Spec.Arities(arities, if variadicCount > 0 then Some(variadicFixed) else None)
  }

  predicate IsMax(s: set<nat>, m: nat) {
    (forall x <- s :: x <= m) && (m == 0 || m in s)
  }

  /** The parameters of a method numbered from `site`, and the environment they make. */
  function ParamsRead(pvec: seq<Form>, env: Env, site: nat): Option<(seq<Binder>, bool, Env)> {
    match Spec.ParamNames(pvec, 0, false)
    case None => None
    case Some((names, variadic)) =>
      var params := Spec.Binders(names, KArg, site);
      Some((params, variadic, Spec.WithLocals(env, params)))
  }

  function Names(xs: seq<string>, r: Option<(seq<string>, bool)>): Option<(seq<string>, bool)> {
    match r
    case None => None
    case Some((ys, v)) => Some((xs + ys, v))
  }

  lemma NamesNone(xs: seq<string>, v: bool, r: Option<(seq<string>, bool)>)
    ensures Names(xs, Some(([], v))) == Some((xs, v)) && Names([], r) == r
  {
    assert xs + [] == xs;
    if r.Some? { assert [] + r.value.0 == r.value.0; }
  }

  lemma NamesStep(xs: seq<string>, x: string, r: Option<(seq<string>, bool)>)
    ensures Names(xs, Names([x], r)) == Names(xs + [x], r)
  {
    if r.Some? { assert xs + ([x] + r.value.0) == xs + [x] + r.value.0; }
  }

  lemma WithLocalsSnoc(env: Env, bs: seq<Binder>, b: Binder)
    ensures Spec.WithLocals(env, bs + [b]) == Spec.WithLocal(Spec.WithLocals(env, bs), b)
    decreases bs
  {
    if bs == [] {
      assert (bs + [b])[1..] == [];
    } else {
      WithLocalsSnoc(Spec.WithLocal(env, bs[0]), bs[1..], b);
      assert (bs + [b])[1..] == bs[1..] + [b];
    }
  }

  lemma ClauseOps()
    ensures forall f :: Spec.ClauseOp(f) != "" ==> f.Seq? && f.items != []
  {}

  class Analyzer {
    const h: Hooks
    var gensym: nat
    var alloc: nat

    constructor (h: Hooks)
      ensures this.h == h && State() == St(0, 0)
    {
      this.h, gensym, alloc := h, 0, 0;
    }

    function State(): St
      reads this
    {
      St(gensym, alloc)
    }

    method Gensym() returns (n: nat)
      modifies this`gensym
      ensures gensym == old(gensym) + 1 && n == gensym
    {
      gensym := gensym + 1;
      n := gensym;
    }

    method NewSite(name: string, kind: Kind) returns (b: Binder)
      modifies this`alloc
      ensures alloc == old(alloc) + 1 && b == Binder(name, kind, old(alloc))
    {
      b := Binder(name, kind, alloc);
      alloc := alloc + 1;
    }

    method Analyze(form: Form, fuel: nat) returns (r: Result<Node>)
      modifies this
      ensures Outcome(r, State()) == Spec.Analyze(h, form, old(State()), fuel)
    {
      r := AnalyzeForm(form, Env(map[], Expr, None), fuel);
    }

    method AnalyzeForm(form: Form, env: Env, fuel: nat) returns (r: Result<Node>)
      modifies this
      ensures Outcome(r, State()) == Spec.AnalyzeForm(h, form, env, old(State()), fuel)
      decreases fuel, 3, 0
    {
      if fuel == 0 { return Failure(OutOfFuel); }
      match form
      case Sym(s) => r := AnalyzeSymbol(s, env);
      case Vec(items) =>
        var ns := AnalyzeItems(items, Spec.ExprEnv(env), fuel - 1);
        r := match ns case Success(v) => Success(VectorN(v)) case Failure(e) => Failure(e);
      case Map(items) =>
        var ns := AnalyzeItems(items, Spec.ExprEnv(env), fuel - 1);
        r := match ns case Success(v) => Success(MapN(v)) case Failure(e) => Failure(e);
      case Set(items) =>
        var ns := AnalyzeItems(items, Spec.ExprEnv(env), fuel - 1);
        r := match ns case Success(v) => Success(SetN(v)) case Failure(e) => Failure(e);
      case Seq(items) => r := AnalyzeSeq(items, env, fuel);
      case _ => r := Success(Const(form));
    }

    method AnalyzeSymbol(s: Symbol, env: Env) returns (r: Result<Node>)
      ensures Outcome(r, State()) == Spec.AnalyzeSymbol(h, s, env, State())
    {
      if s.ns.None? && s.name in env.locals { return Success(Local(s.name, env.locals[s.name])); }
      var v := h.resolveVar(s);
      if v.None? {
        if s.ns.Some? {
          var m := h.resolveHost(s);
          if m.Some? { return Success(HostRef(m.value)); }
        }
        return Failure(Unresolved);
      }
      r := Success(VarN(s, v.value));
    }

    method AnalyzeItems(forms: seq<Form>, env: Env, fuel: nat) returns (r: Result<seq<Node>>)
      modifies this
      ensures Outcome(r, State()) == Spec.AnalyzeAll(h, forms, env, old(State()), fuel)
      decreases fuel, 4, |forms|
    {
      var items: seq<Node> := [];
      AfterNone(items, State());
      var i := 0;
      assert forms[0..] == forms;
      while i < |forms|
        invariant i <= |forms|
        invariant Spec.AnalyzeAll(h, forms, env, old(State()), fuel)
               == After(items, Spec.AnalyzeAll(h, forms[i..], env, State(), fuel))
      {
        var n := AnalyzeForm(forms[i], env, fuel);
        if n.Failure? { return Failure(n.e); }
        AfterStep(items, n.v, Spec.AnalyzeAll(h, forms[i + 1..], env, State(), fuel));
        items := items + [n.v];
        i := i + 1;
      }
      AfterNone(items, State());
      r := Success(items);
    }

    /** The expansion loop: specials first on every round, at most MAX_EXPANSIONS rounds. */
    method AnalyzeSeq(items: seq<Form>, env: Env, fuel: nat) returns (r: Result<Node>)
      requires fuel > 0
      modifies this
      ensures Outcome(r, State()) == Spec.AnalyzeForm(h, Seq(items), env, old(State()), fuel)
      decreases fuel, 2, 0
    {
      if items == [] { return Success(Const(Seq(items))); }
      var form := items;
      var i := 0;
      while i < Spec.MAX_EXPANSIONS
        invariant i <= Spec.MAX_EXPANSIONS && form != [] && State() == old(State())
        invariant Spec.ExpandHead(h, items, env.locals, 0) == Spec.ExpandHead(h, form, env.locals, i)
      {
        var special := Spec.SpecialOf(form);
        if special.Some? {
          r := ParseSpecial(special.value, form, env, fuel - 1);
          return;
        }
        if !h.macros {
          r := ParseInvoke(form, env, fuel - 1);
          return;
        }
        match h.expand(Seq(form), env.locals) {
          case Failed => return Failure(ExpansionFailed);
          case Same => r := ParseInvoke(form, env, fuel - 1); return;
          case Expanded(f) =>
            if f.Seq? && f.items != [] {
              form := f.items;
            } else {
              r := AnalyzeForm(f, env, fuel - 1);
              return;
            }
        }
        i := i + 1;
      }
      r := Failure(TooManyExpansions);
    }

    method AnalyzeBody(body: seq<Form>, env: Env, fuel: nat) returns (r: Result<Node>)
      modifies this
      ensures Outcome(r, State()) == Spec.AnalyzeBody(h, body, env, old(State()), fuel)
      decreases fuel, 5, 0
    {
      if body == [] { return Success(Do([], Const(Nil))); }
      var stmts := AnalyzeItems(body[..|body| - 1], env.(ctx := Statement), fuel);
      if stmts.Failure? { return Failure(stmts.e); }
      var ret := AnalyzeForm(body[|body| - 1], env, fuel);
      if ret.Failure? { return Failure(ret.e); }
      r := Success(Do(stmts.v, ret.v));
    }

    method ParseSpecial(name: string, items: seq<Form>, env: Env, fuel: nat) returns (r: Result<Node>)
      requires items != []
      modifies this
      ensures Outcome(r, State()) == Spec.ParseSpecial(h, name, items, env, old(State()), fuel)
      decreases fuel, 8, 0
    {
      var args := items[1..];
      match name {
        case "quote" => r := if |args| == 1 then Success(Quote(args[0])) else Failure(BadArity);
        case "if" => r := ParseIf(args, env, fuel);
        case "do" => r := AnalyzeBody(args, env, fuel);
        case "def" => r := ParseDef(args, env, fuel);
        case "let*" => r := ParseLetOrLoop(args, env, fuel, false);
        case "loop*" => r := ParseLetOrLoop(args, env, fuel, true);
        case "recur" => r := ParseRecur(args, env, fuel);
        case "var" => r := ParseVar(args);
        case "set!" => r := ParseSetBang(args, env, fuel);
        case "binding" => r := ParseBinding(args, env, fuel);
        case "fn*" => r := ParseFnStar(args, env, fuel);
        case "throw" => r := ParseThrow(args, env, fuel);
        case "try" => r := ParseTry(args, env, fuel);
        case _ => r := Failure(MisplacedClause);
      }
    }

    method ParseIf(args: seq<Form>, env: Env, fuel: nat) returns (r: Result<Node>)
      modifies this
      ensures Outcome(r, State()) == Spec.ParseIf(h, args, env, old(State()), fuel)
      decreases fuel, 7, 0
    {
      if |args| != 2 && |args| != 3 { return Failure(BadArity); }
      var test := AnalyzeForm(args[0], Spec.ExprEnv(env), fuel);
      if test.Failure? { return Failure(test.e); }
      var thn := AnalyzeForm(args[1], env, fuel);
      if thn.Failure? { return Failure(thn.e); }
      if |args| == 2 { return Success(If(test.v, thn.v, Const(Nil))); }
      var els := AnalyzeForm(args[2], env, fuel);
      if els.Failure? { return Failure(els.e); }
      r := Success(If(test.v, thn.v, els.v));
    }

    method ParseDef(args: seq<Form>, env: Env, fuel: nat) returns (r: Result<Node>)
      modifies this
      ensures Outcome(r, State()) == Spec.ParseDef(h, args, env, old(State()), fuel)
      decreases fuel, 7, 0
    {
      if |args| < 1 || |args| > 3 || (|args| == 3 && !args[1].Str?) { return Failure(BadArity); }
      if !args[0].Sym? { return Failure(NotASymbol); }
      var v := h.internVar(args[0].sym);
      if v.None? { return Failure(Unresolved); }
      var init := AnalyzeItems(if |args| == 1 then [] else [args[|args| - 1]], Spec.ExprEnv(env), fuel);
      if init.Failure? { return Failure(init.e); }
      r := Success(Def(args[0].sym, v.value, init.v));
    }

    method ParseVar(args: seq<Form>) returns (r: Result<Node>)
      ensures r == if |args| != 1 then Failure(BadArity)
                   else if !args[0].Sym? then Failure(NotASymbol)
                   else if h.resolveVar(args[0].sym).None? then Failure(Unresolved)
                   else Success(TheVar(h.resolveVar(args[0].sym).value))
    {
      if |args| != 1 { return Failure(BadArity); }
      if !args[0].Sym? { return Failure(NotASymbol); }
      var v := h.resolveVar(args[0].sym);
      r := if v.None? then Failure(Unresolved) else Success(TheVar(v.value));
    }

    method ParseThrow(args: seq<Form>, env: Env, fuel: nat) returns (r: Result<Node>)
      modifies this
      ensures Outcome(r, State()) ==
              if |args| != 1 then Err(BadArity, old(State()))
              else match Spec.AnalyzeForm(h, args[0], Spec.ExprEnv(env), old(State()), fuel)
                   case Ok(n, st1) => Ok(Throw(n), st1)
                   case Err(e, st1) => Err(e, st1)
      decreases fuel, 7, 0
    {
      if |args| != 1 { return Failure(BadArity); }
      var ex := AnalyzeForm(args[0], Spec.ExprEnv(env), fuel);
      r := match ex case Success(v) => Success(Throw(v)) case Failure(e) => Failure(e);
    }

    method ParseLetOrLoop(args: seq<Form>, env: Env, fuel: nat, isLoop: bool) returns (r: Result<Node>)
      modifies this
      ensures Outcome(r, State()) == Spec.ParseLetOrLoop(h, args, env, old(State()), fuel, isLoop)
      decreases fuel, 7, 0
    {
      if |args| < 1 || !args[0].Vec? || !Spec.Even(|args[0].items|) { return Failure(BadBindings); }
      var read := ParseBinds(args[0].items, if isLoop then KLoop else KLet, env, fuel);
      if read.Failure? { return Failure(read.e); }
      var (bindings, bodyEnv) := read.v;
      var id := LoopId(false, 0);
      if isLoop {
        var n := Gensym();
        id := LoopId(false, n);
        bodyEnv := bodyEnv.(ctx := Return, frame := Some(Frame(id, |bindings|, false)));
      }
      var body := AnalyzeBody(args[1..], bodyEnv, fuel);
      if body.Failure? { return Failure(body.e); }
      r := Success(if isLoop then Loop(bindings, body.v, id) else Let(bindings, body.v));
    }

    method ParseBinds(bvec: seq<Form>, kind: Kind, env: Env, fuel: nat) returns (r: Result<(seq<LetBind>, Env)>)
      requires Spec.Even(|bvec|)
      modifies this
      ensures Outcome(r, State()) == Spec.ParseBinds(h, bvec, kind, env, old(State()), fuel)
      decreases fuel, 6, |bvec|
    {
      hide Spec.AnalyzeForm, Spec.WithLocal;
      var bodyEnv := env;
      var bindings: seq<LetBind> := [];
      ghost var all := Spec.ParseBinds(h, bvec, kind, env, State(), fuel);
      AfterPairNone(bindings, bodyEnv, State());
      var i := 0;
      assert bvec[0..] == bvec;
      while i < |bvec|
        invariant i <= |bvec| && Spec.Even(i)
        invariant all == AfterPair(bindings, Spec.ParseBinds(h, bvec[i..], kind, bodyEnv, State(), fuel))
      {
        if !Spec.Simple(bvec[i]) { return Failure(BadName); }
        var init := AnalyzeForm(bvec[i + 1], Spec.ExprEnv(bodyEnv), fuel);
        if init.Failure? { return Failure(init.e); }
        assert bvec[i..][2..] == bvec[i + 2..];
        var b := NewSite(bvec[i].sym.name, kind);
        bodyEnv := Spec.WithLocal(bodyEnv, b);
        AfterPairStep(bindings, LetBind(b, init.v), Spec.ParseBinds(h, bvec[i + 2..], kind, bodyEnv, State(), fuel));
        bindings := bindings + [LetBind(b, init.v)];
        i := i + 2;
      }
      AfterPairNone(bindings, bodyEnv, State());
      r := Success((bindings, bodyEnv));
    }

    method ParseRecur(args: seq<Form>, env: Env, fuel: nat) returns (r: Result<Node>)
      modifies this
      ensures Outcome(r, State()) == Spec.ParseRecur(h, args, env, old(State()), fuel)
      decreases fuel, 7, 0
    {
      if env.frame.None? || env.ctx != Return { return Failure(RecurNotTail); }
      var frame := env.frame.value;
      if frame.blocked { return Failure(RecurAcrossTry); }
      if |args| != frame.arity { return Failure(RecurArity); }
      var exprs := AnalyzeItems(args, env.(ctx := Expr, frame := None), fuel);
      if exprs.Failure? { return Failure(exprs.e); }
      r := Success(Recur(exprs.v, frame.id));
    }

    method ParseSetBang(args: seq<Form>, env: Env, fuel: nat) returns (r: Result<Node>)
      modifies this
      ensures Outcome(r, State()) == Spec.ParseSetBang(h, args, env, old(State()), fuel)
      decreases fuel, 7, 0
    {
      if |args| != 2 { return Failure(BadArity); }
      var target := AnalyzeForm(args[0], Spec.ExprEnv(env), fuel);
      if target.Failure? { return Failure(target.e); }
      if !Spec.Assignable(target.v) { return Failure(NotAssignable); }
      var val := AnalyzeForm(args[1], Spec.ExprEnv(env), fuel);
      if val.Failure? { return Failure(val.e); }
      r := Success(SetBang(target.v, val.v));
    }

    method ParseBinding(args: seq<Form>, env: Env, fuel: nat) returns (r: Result<Node>)
      modifies this
      ensures Outcome(r, State()) == Spec.ParseBinding(h, args, env, old(State()), fuel)
      decreases fuel, 7, 0
    {
      if |args| < 1 || !args[0].Vec? || !Spec.Even(|args[0].items|) { return Failure(BadBindings); }
      var bvec := args[0].items;
      var vars: seq<int>, vals: seq<Node> := [], [];
      ghost var all := Spec.ParseDynBinds(h, bvec, env, State(), fuel);
      AfterPairsNone(vars, vals, State());
      var i := 0;
      assert bvec[0..] == bvec;
      while i < |bvec|
        invariant i <= |bvec| && Spec.Even(i)
        invariant all == AfterPairs(vars, vals, Spec.ParseDynBinds(h, bvec[i..], env, State(), fuel))
      {
        if !bvec[i].Sym? { return Failure(NotASymbol); }
        var v := h.resolveVar(bvec[i].sym);
        if v.None? { return Failure(Unresolved); }
        var val := AnalyzeForm(bvec[i + 1], Spec.ExprEnv(env), fuel);
        if val.Failure? { return Failure(val.e); }
        assert bvec[i..][2..] == bvec[i + 2..];
        AfterPairsStep(vars, vals, v.value, val.v, Spec.ParseDynBinds(h, bvec[i + 2..], env, State(), fuel));
        vars, vals := vars + [v.value], vals + [val.v];
        i := i + 2;
      }
      AfterPairsNone(vars, vals, State());
      var body := AnalyzeBody(args[1..], Spec.Blocked(env), fuel);
      if body.Failure? { return Failure(body.e); }
      r := Success(DynBind(vars, vals, body.v));
    }

    method ParseTry(forms: seq<Form>, env: Env, fuel: nat) returns (r: Result<Node>)
      modifies this
      ensures Outcome(r, State()) == Spec.ParseTry(h, forms, env, old(State()), fuel)
      decreases fuel, 7, 0
    {
      hide Spec.ParseCatch, Spec.AnalyzeBody, Spec.Blocked, Spec.ClauseOp;
      ClauseOps();
      var bodyEnv := Spec.Blocked(env);
      var bodyForms: seq<Form>, catches: seq<Catch>, fin: seq<Node> := [], [], [];
      var inClauses := false;
      ghost var all := Spec.ParseClauses(h, forms, bodyEnv, State(), fuel, Spec.Clauses([], [], []), false);
      var i := 0;
      assert forms[0..] == forms;
      while i < |forms|
        invariant i <= |forms|
        invariant all == Spec.ParseClauses(h, forms[i..], bodyEnv, State(), fuel, Spec.Clauses(bodyForms, catches, fin), inClauses)
      {
        var f := forms[i];
        var op := Spec.ClauseOp(f);
        assert forms[i..][1..] == forms[i + 1..];
        if op == "" {
          if inClauses { return Failure(ClauseOrder); }
          bodyForms := bodyForms + [f];
        } else {
          inClauses := true;
          if fin != [] { return Failure(ClauseOrder); }
          if op == "catch" {
            var c := ParseCatch(f.items[1..], bodyEnv, fuel);
            if c.Failure? { return Failure(c.e); }
            catches := catches + [c.v];
          } else {
            var n := AnalyzeBody(f.items[1..], bodyEnv.(ctx := Statement), fuel);
            if n.Failure? { return Failure(n.e); }
            fin := [n.v];
          }
        }
        i := i + 1;
      }
      var body := AnalyzeBody(bodyForms, bodyEnv, fuel);
      if body.Failure? { return Failure(body.e); }
      r := Success(Try(body.v, catches, fin));
    }

    method ParseCatch(parts: seq<Form>, env: Env, fuel: nat) returns (r: Result<Catch>)
      modifies this
      ensures Outcome(r, State()) == Spec.ParseCatch(h, parts, env, old(State()), fuel)
      decreases fuel, 5, 1
    {
      if |parts| < 2 || !parts[0].Sym? { return Failure(BadCatch); }
      if !Spec.Simple(parts[1]) { return Failure(BadName); }
      var b := NewSite(parts[1].sym.name, KCatch);
      var body := AnalyzeBody(parts[2..], Spec.WithLocal(env, b), fuel);
      if body.Failure? { return Failure(body.e); }
      r := Success(Catch(parts[0].sym, b, body.v));
    }

    method ParseFnStar(args: seq<Form>, env: Env, fuel: nat) returns (r: Result<Node>)
      modifies this
      ensures Outcome(r, State()) == Spec.ParseFnStar(h, args, env, old(State()), fuel)
      decreases fuel, 7, 0
    {
      var rest := args;
      var self := None;
      var methodEnv := env;
      if |rest| > 0 && rest[0].Sym? {
        if rest[0].sym.ns.Some? { return Failure(BadName); }
        rest := rest[1..];
      }
      rest := Spec.MethodForms(rest);
      if |rest| == 0 { return Failure(NoMethod); }
      if |args| > 0 && args[0].Sym? {
        var b := NewSite(args[0].sym.name, KFn);
        self := Some(b);
        methodEnv := Spec.WithLocal(methodEnv, b);
      }
      var methods := ParseOverloads(rest, methodEnv, fuel);
      if methods.Failure? { return Failure(methods.e); }
      r := Success(Fn(self, methods.v));
    }

    /** The overload checks run on counters: the fixed arities seen, the greatest of them, and how many
        variadic methods there were. */
    method ParseOverloads(rest: seq<Form>, methodEnv: Env, fuel: nat) returns (r: Result<seq<Method>>)
      modifies this
      ensures Outcome(r, State()) ==
              match Spec.ParseMethods(h, rest, methodEnv, old(State()), fuel, Spec.Arities({}, None))
              case Err(e, st1) => Err(e, st1)
              case Ok((methods, a), st1) =>
                if Spec.ArityOrder(a) then Ok(methods, st1) else Err(FixedBeyondVariadic, st1)
      decreases fuel, 6, |rest|
    {
      hide Spec.ParseMethod, Spec.FixedArity;
      var methods: seq<Method> := [];
      var variadicCount, maxFixed, variadicFixed := 0, 0, 0;
      var arities: set<nat> := {};
      ghost var all := Spec.ParseMethods(h, rest, methodEnv, State(), fuel, Spec.Arities({}, None));
      AfterPairNone(methods, Spec.Arities({}, None), State());
      var i := 0;
      assert rest[0..] == rest;
      while i < |rest|
        invariant i <= |rest| && variadicCount <= 1
        invariant IsMax(arities, maxFixed)
        invariant all == AfterPair(methods, Spec.ParseMethods(h, rest[i..], methodEnv, State(), fuel,
                                                               Seen(arities, variadicCount, variadicFixed)))
      {
        if !rest[i].Seq? { return Failure(BadMethod); }
        var m := ParseFnMethod(rest[i].items, methodEnv, fuel);
        if m.Failure? { return Failure(m.e); }
        var fixed := Spec.FixedArity(m.v);
        assert rest[i..][1..] == rest[i + 1..];
        if m.v.variadic {
          variadicCount := variadicCount + 1;
          if variadicCount > 1 { return Failure(TwoVariadic); }
          variadicFixed := fixed;
        } else {
          if fixed in arities { return Failure(SameArity); }
          arities := arities + {fixed};
          if fixed > maxFixed { maxFixed := fixed; }
        }
        AfterPairStep(methods, m.v, Spec.ParseMethods(h, rest[i + 1..], methodEnv, State(), fuel,
                                                      Seen(arities, variadicCount, variadicFixed)));
        methods := methods + [m.v];
        i := i + 1;
      }
      AfterPairNone(methods, Seen(arities, variadicCount, variadicFixed), State());
      if variadicCount > 0 && maxFixed > variadicFixed { return Failure(FixedBeyondVariadic); }
      r := Success(methods);
    }

    method ParseFnMethod(parts: seq<Form>, env: Env, fuel: nat) returns (r: Result<Method>)
      modifies this
      ensures Outcome(r, State()) == Spec.ParseMethod(h, parts, env, old(State()), fuel)
      decreases fuel, 5, 1
    {
      if parts == [] || !parts[0].Vec? { return Failure(BadMethod); }
      var read := ParseParams(parts[0].items, env);
      if read.None? { return Failure(BadParams); }
      var (params, isVariadic, bodyEnv) := read.value;
      alloc := alloc + |params|;
      var n := Gensym();
      var id := LoopId(true, n);
      bodyEnv := bodyEnv.(ctx := Return, frame := Some(Frame(id, |params|, false)));
      var body := AnalyzeBody(parts[1..], bodyEnv, fuel);
      if body.Failure? { return Failure(body.e); }
      r := Success(Method(params, isVariadic, body.v, id));
    }

    /** The parameters, numbered from the next free site; the caller takes the numbers when all are good. */
    method ParseParams(pvec: seq<Form>, env: Env) returns (r: Option<(seq<Binder>, bool, Env)>)
      ensures r == ParamsRead(pvec, env, alloc)
    {
      var bodyEnv := env;
      var params: seq<Binder> := [];
      var isVariadic := false;
      ghost var names: seq<string> := [];
      NamesNone(names, isVariadic, Spec.ParamNames(pvec, 0, false));
      var i := 0;
      while i < |pvec|
        invariant i <= |pvec|
        invariant Spec.ParamNames(pvec, 0, false) == Names(names, Spec.ParamNames(pvec, i, isVariadic))
        invariant params == Spec.Binders(names, KArg, alloc)
        invariant bodyEnv == Spec.WithLocals(env, params)
      {
        if pvec[i] == Sym(Symbol(None, "&")) {
          if isVariadic || i != |pvec| - 2 { return None; }
          isVariadic := true;
        } else {
          if !Spec.Simple(pvec[i]) { return None; }
          var b := Binder(pvec[i].sym.name, KArg, alloc + |params|);
          NamesStep(names, b.name, Spec.ParamNames(pvec, i + 1, isVariadic));
          WithLocalsSnoc(env, params, b);
          names := names + [b.name];
          params := params + [b];
          bodyEnv := Spec.WithLocal(bodyEnv, b);
        }
        i := i + 1;
      }
      NamesNone(names, isVariadic, None);
      r := Some((params, isVariadic, bodyEnv));
    }

    method ParseInvoke(items: seq<Form>, env: Env, fuel: nat) returns (r: Result<Node>)
      requires items != []
      modifies this
      ensures Outcome(r, State()) == Spec.ParseInvoke(h, items, env, old(State()), fuel)
      decreases fuel, 5, 2
    {
      if items[0] == Nil { return Failure(CallNil); }
      var exprEnv := Spec.ExprEnv(env);
      var (call, shape) := Spec.CallShape(h, items);
      match shape {
        case HostCall(children, assignable, maps) =>
          var ns := AnalyzeItems(children, exprEnv, fuel);
          if ns.Failure? { return Failure(ns.e); }
          if maps && !AllMaps(ns.v) { return Failure(HostError); }
          r := Success(Host(ns.v, assignable));
        case NotHost =>
          var fn := AnalyzeForm(call[0], exprEnv, fuel);
          if fn.Failure? { return Failure(fn.e); }
          var args := AnalyzeItems(call[1..], exprEnv, fuel);
          if args.Failure? { return Failure(args.e); }
          r := Success(Invoke(fn.v, args.v));
        case _ => r := Failure(HostError);
      }
    }
  }
}
