/** The converse: a tree that reads the form, with well-placed `recur` and the next numbers in order, is
    the one the analyzer returns.  So acceptance and result are both determined by the properties. */
module AnalyzerExact {
  import opened AnalyzerForms
  import opened AnalyzerSpec
  import opened AnalyzerProps
  import opened AnalyzerShapes
  import opened AnalyzerProofs
  import opened Options

  // ----- enough fuel -----

  function Max(a: nat, b: nat): nat {
    if a < b then b else a
  }

  function Need(n: Node): (k: nat)
    ensures k >= 2
    decreases n, 0
  {
    2 + match n
        case VectorN(items) => NeedAll(items)
        case MapN(items) => NeedAll(items)
        case SetN(items) => NeedAll(items)
        case Do(stmts, ret) => Max(NeedAll(stmts), Need(ret))
        case If(test, thn, els) => Max(Need(test), Max(Need(thn), Need(els)))
        case Def(_, _, init) => NeedAll(init)
        case Let(binds, body) => Max(NeedBinds(binds), Need(body))
        case Loop(binds, body, _) => Max(NeedBinds(binds), Need(body))
        case Fn(_, methods) => NeedMethods(methods)
        case Invoke(fn, args) => Max(Need(fn), NeedAll(args))
        case Recur(exprs, _) => NeedAll(exprs)
        case SetBang(target, val) => Max(Need(target), Need(val))
        case DynBind(_, vals, body) => Max(NeedAll(vals), Need(body))
        case Host(args, _) => NeedAll(args)
        case Throw(ex) => Need(ex)
        case Try(body, catches, fin) => Max(Need(body), Max(NeedCatches(catches), NeedAll(fin)))
        case _ => 0
  }

  function NeedAll(ns: seq<Node>): nat
    decreases ns, 0
  {
    if ns == [] then 0 else Max(Need(ns[0]), NeedAll(ns[1..]))
  }

  function NeedBinds(bs: seq<LetBind>): nat
    decreases bs, 0
  {
    if bs == [] then 0 else assert bs[0].init < bs[0]; Max(Need(bs[0].init), NeedBinds(bs[1..]))
  }

  function NeedMethods(ms: seq<Method>): nat
    decreases ms, 0
  {
    if ms == [] then 0 else assert ms[0].body < ms[0]; Max(Need(ms[0].body), NeedMethods(ms[1..]))
  }

  function NeedCatches(cs: seq<Catch>): nat
    decreases cs, 0
  {
    if cs == [] then 0 else assert cs[0].body < cs[0]; Max(Need(cs[0].body), NeedCatches(cs[1..]))
  }

  // ----- cutting a range of numbers in two -----

  function After(st: St, ids: Nums): St {
    St(st.gensym + |ids.loops|, st.alloc + |ids.sites|)
  }

  lemma RangeCut(xs: seq<nat>, ys: seq<nat>, a: nat, c: nat)
    requires a <= c && xs + ys == Range(a, c)
    ensures a + |xs| <= c && xs == Range(a, a + |xs|) && ys == Range(a + |xs|, c)
  {
    var all := xs + ys;
    assert |all| == c - a;
    assert forall i | 0 <= i < |xs| :: xs[i] == all[i] == a + i;
    assert forall i | 0 <= i < |ys| :: ys[i] == all[|xs| + i] == a + |xs| + i;
  }

  lemma Cut(xs: Nums, ys: Nums, st: St, mid: St, st2: St)
    requires Fresh(Cat(xs, ys), st, st2) && mid == After(st, xs)
    ensures Fresh(xs, st, mid) && Fresh(ys, mid, st2)
  {
    RangeCut(xs.loops, ys.loops, st.gensym + 1, st2.gensym + 1);
    RangeCut(xs.sites, ys.sites, st.alloc, st2.alloc);
  }

  lemma NoIds(st: St, st1: St)
    requires Fresh(Nums([], []), st, st1)
    ensures st1 == st
  {
    assert |Range(st.gensym + 1, st1.gensym + 1)| == 0 && |Range(st.alloc, st1.alloc)| == 0;
  }

  lemma OneSite(id: nat, st: St, st1: St)
    requires Fresh(Nums([], [id]), st, st1)
    ensures id == st.alloc
  {
    assert [id][0] == id;
  }

  lemma OneLoop(id: nat, st: St, st1: St)
    requires Fresh(Nums([id], []), st, st1)
    ensures id == st.gensym + 1
  {
    assert [id][0] == id;
  }

  // ----- one lemma per parser -----

  lemma {:induction false} FormExact(h: Hooks, form: Form, env: Env, st: St, n: Node, st1: St, fuel: nat)
    requires Reads(h, form, env.locals, n) && Placed(n, TargetOf(env), st, st1) && fuel >= Need(n)
    ensures AnalyzeForm(h, form, env, st, fuel) == Ok(n, st1)
    decreases n, 3, 1
  {
    hide *;
    if !(form.Seq? && form.items != []) {
      OtherExact(h, form, env, st, n, st1, fuel);
    } else {
      NeedTwo(n);
      CallIs(h, form.items, env, st, n, fuel);
      match ExpandHead(h, form.items, env.locals, 0)
      case Special(name, f) =>
        SpecialItems(f);
        SpecialExact(h, name, f, env, st, n, st1, fuel - 1);
      case Call(f) => InvokeExact(h, f, env, st, n, st1, fuel - 1);
      case Other(f) => OtherExact(h, f, env, st, n, st1, fuel - 1);
      case Bad(_) => assert false;
    }
  }

  lemma NeedTwo(n: Node)
    ensures Need(n) >= 2
  {
  }

  /** What is not a call needs one step less. */
  lemma {:induction false} OtherExact(h: Hooks, form: Form, env: Env, st: St, n: Node, st1: St, fuel: nat)
    requires Reads(h, form, env.locals, n) && Placed(n, TargetOf(env), st, st1) && fuel + 1 >= Need(n)
    requires !(form.Seq? && form.items != [])
    ensures AnalyzeForm(h, form, env, st, fuel) == Ok(n, st1)
    decreases n, 3, 0
  {
    match form
    case Vec(items) => AllExact(h, items, ExprEnv(env), st, n.items, st1, fuel - 1);
    case Map(items) => AllExact(h, items, ExprEnv(env), st, n.items, st1, fuel - 1);
    case Set(items) => AllExact(h, items, ExprEnv(env), st, n.items, st1, fuel - 1);
    case _ => NoIds(st, st1);
  }

  lemma {:induction false} AllExact(h: Hooks, forms: seq<Form>, env: Env, st: St, ns: seq<Node>, st1: St, fuel: nat)
    requires TargetOf(env).None? && fuel >= NeedAll(ns)
    requires ReadsAll(h, forms, env.locals, ns) && AllPlaced(ns, st, st1)
    ensures AnalyzeAll(h, forms, env, st, fuel) == Ok(ns, st1)
    decreases ns, 3
  {
    if ns == [] {
      NoIds(st, st1);
    } else {
      var mid := After(st, Ids(ns[0]));
      Cut(Ids(ns[0]), IdsAll(ns[1..]), st, mid, st1);
      FormExact(h, forms[0], env, st, ns[0], mid, fuel);
      AllExact(h, forms[1..], env, mid, ns[1..], st1, fuel);
      assert ns == [ns[0]] + ns[1..];
    }
  }

  lemma {:induction false} BodyExact(h: Hooks, body: seq<Form>, env: Env, st: St, n: Node, st1: St, fuel: nat)
    requires ReadsBody(h, body, env.locals, n) && Placed(n, TargetOf(env), st, st1) && fuel + 2 >= Need(n)
    ensures AnalyzeBody(h, body, env, st, fuel) == Ok(n, st1)
    decreases n, 1
  {
    if body == [] {
      NoIds(st, st1);
    } else {
      var mid := After(st, IdsAll(n.stmts));
      Cut(IdsAll(n.stmts), Ids(n.ret), st, mid, st1);
      AllExact(h, body[..|body| - 1], env.(ctx := Statement), st, n.stmts, mid, fuel);
      FormExact(h, body[|body| - 1], env, mid, n.ret, st1, fuel);
    }
  }

  lemma {:induction false} InvokeExact(h: Hooks, items: seq<Form>, env: Env, st: St, n: Node, st1: St, fuel: nat)
    requires items != [] && fuel + 1 >= Need(n)
    requires ReadsCall(h, items, env.locals, n) && Placed(n, TargetOf(env), st, st1)
    ensures ParseInvoke(h, items, env, st, fuel) == Ok(n, st1)
    decreases n, 2
  {
    CallReads(h, items, env.locals, n);
    hide ReadsCall, CallShape, AllMaps;
    var (call, shape) := CallShape(h, items);
    match shape
    case HostCall(children, _, _) => AllExact(h, children, ExprEnv(env), st, n.args, st1, fuel);
    case NotHost =>
      var mid := After(st, Ids(n.fn));
      Cut(Ids(n.fn), IdsAll(n.args), st, mid, st1);
      FormExact(h, call[0], ExprEnv(env), st, n.fn, mid, fuel);
      AllExact(h, call[1..], ExprEnv(env), mid, n.args, st1, fuel);
    case _ =>
  }

  lemma {:induction false} SpecialExact(h: Hooks, name: string, items: seq<Form>, env: Env, st: St, n: Node, st1: St, fuel: nat)
    requires items != [] && fuel + 1 >= Need(n)
    requires ReadsSpecial(h, name, items[1..], env.locals, n) && Placed(n, TargetOf(env), st, st1)
    ensures ParseSpecial(h, name, items, env, st, fuel) == Ok(n, st1)
    decreases n, 2, 1
  {
    hide Reads, ReadsAll, ReadsBody, ReadsBinds, ReadsDynBinds, ReadsClauses, ReadsMethods, Placed, Need, AnalyzeBody,
         ParseLetOrLoop, ParseRecur, ParseIf, ParseTry, ParseFnStar, ParseBinding, ParseSetBang, ParseDef, AnalyzeForm;
    var args := items[1..];
    match n
    case Quote(_) => LeafNode(n, TargetOf(env), st, st1);
    case TheVar(_) => LeafNode(n, TargetOf(env), st, st1);
    case If(_, _, _) => IfExact(h, args, env, st, n, st1, fuel);
    case Do(_, _) => BodyExact(h, args, env, st, n, st1, fuel);
    case Def(_, _, _) => DefExact(h, args, env, st, n, st1, fuel);
    case Let(_, _) => LetExact(h, args, env, st, n, st1, fuel);
    case Loop(_, _, _) => LoopExact(h, args, env, st, n, st1, fuel);
    case Recur(_, _) => RecurExact(h, args, env, st, n, st1, fuel);
    case SetBang(_, _) => SetBangExact(h, args, env, st, n, st1, fuel);
    case DynBind(_, _, _) => BindingExact(h, args, env, st, n, st1, fuel);
    case Fn(_, _) => FnStarExact(h, args, env, st, n, st1, fuel);
    case Throw(_) => ThrowExact(h, args, env, st, n, st1, fuel);
    case Try(_, _, _) => TryExact(h, args, env, st, n, st1, fuel);
    case _ => assert false;
  }

  lemma LeafNode(n: Node, t: Option<Target>, st: St, st1: St)
    requires (n.Quote? || n.TheVar?) && Placed(n, t, st, st1)
    ensures st1 == st
  {
    NoIds(st, st1);
  }

  lemma {:induction false} DefExact(h: Hooks, args: seq<Form>, env: Env, st: St, n: Node, st1: St, fuel: nat)
    requires n.Def? && fuel + 1 >= Need(n)
    requires ReadsSpecial(h, "def", args, env.locals, n) && Placed(n, TargetOf(env), st, st1)
    ensures ParseDef(h, args, env, st, fuel) == Ok(n, st1)
    decreases n, 2, 0
  {
    AllExact(h, if |args| == 1 then [] else [args[|args| - 1]], ExprEnv(env), st, n.init, st1, fuel);
  }

  lemma {:induction false} ThrowExact(h: Hooks, args: seq<Form>, env: Env, st: St, n: Node, st1: St, fuel: nat)
    requires n.Throw? && fuel + 1 >= Need(n)
    requires ReadsSpecial(h, "throw", args, env.locals, n) && Placed(n, TargetOf(env), st, st1)
    ensures |args| == 1 && AnalyzeForm(h, args[0], ExprEnv(env), st, fuel) == Ok(n.ex, st1)
    decreases n, 2, 0
  {
    FormExact(h, args[0], ExprEnv(env), st, n.ex, st1, fuel);
  }

  lemma {:induction false} RecurExact(h: Hooks, args: seq<Form>, env: Env, st: St, n: Node, st1: St, fuel: nat)
    requires n.Recur? && fuel + 1 >= Need(n)
    requires ReadsSpecial(h, "recur", args, env.locals, n) && Placed(n, TargetOf(env), st, st1)
    ensures ParseRecur(h, args, env, st, fuel) == Ok(n, st1)
    decreases n, 2, 0
  {
    AllExact(h, args, env.(ctx := Expr, frame := None), st, n.exprs, st1, fuel);
  }

  lemma {:induction false} IfExact(h: Hooks, args: seq<Form>, env: Env, st: St, n: Node, st1: St, fuel: nat)
    requires n.If? && fuel + 1 >= Need(n)
    requires ReadsSpecial(h, "if", args, env.locals, n) && Placed(n, TargetOf(env), st, st1)
    ensures ParseIf(h, args, env, st, fuel) == Ok(n, st1)
    decreases n, 2, 0
  {
    var a := After(st, Ids(n.test));
    var b := After(a, Ids(n.thn));
    Cut(Cat(Ids(n.test), Ids(n.thn)), Ids(n.els), st, b, st1);
    Cut(Ids(n.test), Ids(n.thn), st, a, b);
    FormExact(h, args[0], ExprEnv(env), st, n.test, a, fuel);
    FormExact(h, args[1], env, a, n.thn, b, fuel);
    if |args| == 3 {
      FormExact(h, args[2], env, b, n.els, st1, fuel);
    } else {
      NoIds(b, st1);
    }
  }

  lemma {:induction false} SetBangExact(h: Hooks, args: seq<Form>, env: Env, st: St, n: Node, st1: St, fuel: nat)
    requires n.SetBang? && fuel + 1 >= Need(n)
    requires ReadsSpecial(h, "set!", args, env.locals, n) && Placed(n, TargetOf(env), st, st1)
    ensures ParseSetBang(h, args, env, st, fuel) == Ok(n, st1)
    decreases n, 2, 0
  {
    var a := After(st, Ids(n.target));
    Cut(Ids(n.target), Ids(n.val), st, a, st1);
    FormExact(h, args[0], ExprEnv(env), st, n.target, a, fuel);
    FormExact(h, args[1], ExprEnv(env), a, n.val, st1, fuel);
  }

  lemma BindsParts(h: Hooks, bvec: seq<Form>, kind: Kind, locals: Locals, st: St, bs: seq<LetBind>, st1: St, a: St, a1: St)
    requires bs != [] && ReadsBinds(h, bvec, kind, locals, bs) && InitsOk(bs) && Fresh(IdsBinds(bs), st, st1)
    requires a == After(st, Ids(bs[0].init)) && a1 == a.(alloc := a.alloc + 1)
    ensures |bvec| == 2 * |bs| && Simple(bvec[0]) && bs[0].binder == Binder(bvec[0].sym.name, kind, a.alloc)
    ensures Reads(h, bvec[1], locals, bs[0].init) && Placed(bs[0].init, None, st, a)
    ensures ReadsBinds(h, bvec[2..], kind, locals[bs[0].binder.name := bs[0].binder], bs[1..])
    ensures InitsOk(bs[1..]) && Fresh(IdsBinds(bs[1..]), a1, st1)
    ensures NeedBinds(bs) == Max(Need(bs[0].init), NeedBinds(bs[1..]))
    ensures bs[0].init < bs[0] && bs == [LetBind(bs[0].binder, bs[0].init)] + bs[1..]
  {
    hide Reads, RecurOk, Ids, Need, Fresh;
    var own := Nums([], [bs[0].binder.id]);
    Cut(Cat(Ids(bs[0].init), own), IdsBinds(bs[1..]), st, a1, st1);
    Cut(Ids(bs[0].init), own, st, a, a1);
    OneSite(bs[0].binder.id, a, a1);
  }

  lemma NoBinds(h: Hooks, bvec: seq<Form>, kind: Kind, locals: Locals, st: St, st1: St)
    requires ReadsBinds(h, bvec, kind, locals, []) && Fresh(IdsBinds([]), st, st1)
    ensures bvec == [] && st1 == st
  {
    NoIds(st, st1);
  }

  lemma {:induction false} BindsExact(h: Hooks, bvec: seq<Form>, kind: Kind, env: Env, st: St, bs: seq<LetBind>, st1: St, fuel: nat)
    requires fuel >= NeedBinds(bs)
    requires ReadsBinds(h, bvec, kind, env.locals, bs) && InitsOk(bs)
    requires Fresh(IdsBinds(bs), st, st1)
    ensures Even(|bvec|)
    ensures ParseBinds(h, bvec, kind, env, st, fuel) == Ok((bs, env.(locals := LetLocals(env.locals, bs))), st1)
    decreases bs, 3
  {
    hide Reads, ReadsBinds, RecurOk, InitsOk, Ids, IdsBinds, Fresh, Need, NeedBinds, Simple, AnalyzeForm;
    if bs == [] {
      NoBinds(h, bvec, kind, env.locals, st, st1);
    } else {
      var init, b, rest := bs[0].init, bs[0].binder, bs[1..];
      var a := After(st, Ids(init));
      var a1 := a.(alloc := a.alloc + 1);
      BindsParts(h, bvec, kind, env.locals, st, bs, st1, a, a1);
      FormExact(h, bvec[1], ExprEnv(env), st, init, a, fuel);
      BindsExact(h, bvec[2..], kind, WithLocal(env, b), a1, rest, st1, fuel);
    }
  }

  lemma {:induction false} LetExact(h: Hooks, args: seq<Form>, env: Env, st: St, n: Node, st1: St, fuel: nat)
    requires n.Let? && fuel + 1 >= Need(n)
    requires ReadsSpecial(h, "let*", args, env.locals, n) && Placed(n, TargetOf(env), st, st1)
    ensures ParseLetOrLoop(h, args, env, st, fuel, false) == Ok(n, st1)
    decreases n, 2, 0
  {
    var a := After(st, IdsBinds(n.binds));
    Cut(IdsBinds(n.binds), Ids(n.body), st, a, st1);
    hide Fresh, IdsBinds, ReadsBinds, Reads, AnalyzeForm, IdsAll, NeedAll, NoRecur, LetLocals;
    BindsExact(h, args[0].items, KLet, env, st, n.binds, a, fuel);
    BodyExact(h, args[1..], env.(locals := LetLocals(env.locals, n.binds)), a, n.body, st1, fuel);
  }

  lemma LoopParts(h: Hooks, args: seq<Form>, locals: Locals, t: Option<Target>, st: St, n: Node, st1: St, a: St, a1: St)
    requires n.Loop? && a == After(st, IdsBinds(n.binds)) && a1 == a.(gensym := a.gensym + 1)
    requires ReadsSpecial(h, "loop*", args, locals, n) && Placed(n, t, st, st1)
    ensures args != [] && args[0].Vec? && n.id == LoopId(false, a1.gensym)
    ensures ReadsBinds(h, args[0].items, KLoop, locals, n.binds) && InitsOk(n.binds) && Fresh(IdsBinds(n.binds), st, a)
    ensures ReadsBody(h, args[1..], LetLocals(locals, n.binds), n.body)
    ensures Placed(n.body, Some(Target(n.id, |n.binds|)), a1, st1)
    ensures Need(n) == 2 + Max(NeedBinds(n.binds), Need(n.body))
  {
    hide ReadsBinds, ReadsBody, NeedBinds, IdsBinds, LetLocals, Fresh;
    var own := Nums([n.id.n], []);
    Cut(Cat(IdsBinds(n.binds), own), Ids(n.body), st, a1, st1);
    Cut(IdsBinds(n.binds), own, st, a, a1);
    OneLoop(n.id.n, a, a1);
  }

  lemma {:induction false} LoopExact(h: Hooks, args: seq<Form>, env: Env, st: St, n: Node, st1: St, fuel: nat)
    requires n.Loop? && fuel + 1 >= Need(n)
    requires ReadsSpecial(h, "loop*", args, env.locals, n) && Placed(n, TargetOf(env), st, st1)
    ensures ParseLetOrLoop(h, args, env, st, fuel, true) == Ok(n, st1)
    decreases n, 2, 0
  {
    hide ReadsSpecial, Placed, Fresh, Ids, IdsBinds, NeedBinds, InitsOk, RecurOk, Need, ReadsBody, AnalyzeBody, ParseBinds,
         ReadsBinds, LetLocals;
    var a := After(st, IdsBinds(n.binds));
    var a1 := a.(gensym := a.gensym + 1);
    LoopParts(h, args, env.locals, TargetOf(env), st, n, st1, a, a1);
    BindsExact(h, args[0].items, KLoop, env, st, n.binds, a, fuel);
    var env1 := env.(locals := LetLocals(env.locals, n.binds), ctx := Return, frame := Some(Frame(n.id, |n.binds|, false)));
    BodyExact(h, args[1..], env1, a1, n.body, st1, fuel);
  }

  lemma {:induction false} DynBindsExact(h: Hooks, bvec: seq<Form>, env: Env, st: St, vars: seq<int>, vals: seq<Node>, st1: St, fuel: nat)
    requires fuel >= NeedAll(vals)
    requires ReadsDynBinds(h, bvec, env.locals, vars, vals) && AllPlaced(vals, st, st1)
    ensures Even(|bvec|)
    ensures ParseDynBinds(h, bvec, env, st, fuel) == Ok((vars, vals), st1)
    decreases vals, 3
  {
    if vals == [] {
      NoIds(st, st1);
    } else {
      var a := After(st, Ids(vals[0]));
      Cut(Ids(vals[0]), IdsAll(vals[1..]), st, a, st1);
      FormExact(h, bvec[1], ExprEnv(env), st, vals[0], a, fuel);
      DynBindsExact(h, bvec[2..], env, a, vars[1..], vals[1..], st1, fuel);
      assert vars == [vars[0]] + vars[1..] && vals == [vals[0]] + vals[1..];
    }
  }

  lemma {:induction false} BindingExact(h: Hooks, args: seq<Form>, env: Env, st: St, n: Node, st1: St, fuel: nat)
    requires n.DynBind? && fuel + 1 >= Need(n)
    requires ReadsSpecial(h, "binding", args, env.locals, n) && Placed(n, TargetOf(env), st, st1)
    ensures ParseBinding(h, args, env, st, fuel) == Ok(n, st1)
    decreases n, 2, 0
  {
    var a := After(st, IdsAll(n.vals));
    Cut(IdsAll(n.vals), Ids(n.body), st, a, st1);
    hide Fresh, IdsAll, Reads, AnalyzeForm, NeedAll, NoRecur;
    DynBindsExact(h, args[0].items, env, st, n.vars, n.vals, a, fuel);
    BodyExact(h, args[1..], Blocked(env), a, n.body, st1, fuel);
  }

  // ----- try -----

  lemma {:induction false} CatchExact(h: Hooks, parts: seq<Form>, env: Env, st: St, c: Catch, st1: St, fuel: nat)
    requires TargetOf(env).None? && fuel >= Need(c.body)
    requires ReadsCatch(h, parts, env.locals, c) && RecurOk(c.body, None)
    requires Fresh(IdsCatch(c), st, st1)
    ensures ParseCatch(h, parts, env, st, fuel) == Ok(c, st1)
    decreases c, 3
  {
    var a := st.(alloc := st.alloc + 1);
    Cut(Nums([], [c.binder.id]), Ids(c.body), st, a, st1);
    OneSite(c.binder.id, st, a);
    BodyExact(h, parts[2..], WithLocal(env, c.binder), a, c.body, st1, fuel);
  }

  /** From the k-th catch on; `forms` starts with a clause or is empty. */
  lemma {:induction false} ClausesExact(h: Hooks, forms: seq<Form>, env: Env, st: St, n: Node, k: nat, st1: St,
                                        acc: Clauses, inClauses: bool, fuel: nat)
    requires n.Try? && k <= |n.catches| && TargetOf(env).None?
    requires fuel >= NeedCatches(n.catches[k..]) && fuel >= NeedAll(n.fin)
    requires ReadsClauses(h, forms, env.locals, n, k) && CatchesOk(n.catches[k..]) && NoRecur(n.fin)
    requires Fresh(Cat(IdsCatches(n.catches[k..]), IdsAll(n.fin)), st, st1)
    requires acc.catches == n.catches[..k] && acc.fin == []
    ensures ParseClauses(h, forms, env, st, fuel, acc, inClauses) == Ok(Clauses(acc.body, n.catches, n.fin), st1)
    decreases n, 1, 2 * (|n.catches| - k) + 1
  {
    if forms == [] {
      CatNone(Nums([], []));
      assert n.catches[..k] == n.catches;
      NoIds(st, st1);
    } else if IsClause(forms[0], "catch") {
      hide *;
      CatchStepExact(h, forms, env, st, n, k, st1, acc, inClauses, fuel);
    } else {
      hide *;
      FinalStepExact(h, forms, env, st, n, k, st1, acc, inClauses, fuel);
    }
  }

  lemma {:induction false} CatchStepExact(h: Hooks, forms: seq<Form>, env: Env, st: St, n: Node, k: nat, st1: St,
                                          acc: Clauses, inClauses: bool, fuel: nat)
    requires n.Try? && k <= |n.catches| && TargetOf(env).None? && forms != [] && IsClause(forms[0], "catch")
    requires fuel >= NeedCatches(n.catches[k..]) && fuel >= NeedAll(n.fin)
    requires ReadsClauses(h, forms, env.locals, n, k) && CatchesOk(n.catches[k..]) && NoRecur(n.fin)
    requires Fresh(Cat(IdsCatches(n.catches[k..]), IdsAll(n.fin)), st, st1)
    requires acc.catches == n.catches[..k] && acc.fin == []
    ensures ParseClauses(h, forms, env, st, fuel, acc, inClauses) == Ok(Clauses(acc.body, n.catches, n.fin), st1)
    decreases n, 1, 2 * (|n.catches| - k)
  {
    hide Reads, ReadsAll, ReadsBody, RecurOk, NoRecur, Need, NeedAll, AnalyzeForm, AnalyzeAll, AnalyzeBody, Ids, IdsAll, Cat, TargetOf;
    var more := n.catches[k..];
    var c := n.catches[k];
    assert more[0] == c && more[1..] == n.catches[k + 1..];
    var a := After(st, IdsCatch(c));
    var rest := Cat(IdsCatches(more[1..]), IdsAll(n.fin));
    CatAssoc(IdsCatch(c), IdsCatches(more[1..]), IdsAll(n.fin));
    Cut(IdsCatch(c), rest, st, a, st1);
    hide Fresh, IdsCatches;
    assert n.catches[..k] + [c] == n.catches[..k + 1];
    CatchExact(h, forms[0].items[1..], env, st, c, a, fuel);
    ClausesExact(h, forms[1..], env, a, n, k + 1, st1, acc.(catches := acc.catches + [c]), true, fuel);
  }

  lemma {:induction false} FinalStepExact(h: Hooks, forms: seq<Form>, env: Env, st: St, n: Node, k: nat, st1: St,
                                          acc: Clauses, inClauses: bool, fuel: nat)
    requires n.Try? && k <= |n.catches| && TargetOf(env).None? && forms != [] && !IsClause(forms[0], "catch")
    requires fuel >= NeedCatches(n.catches[k..]) && fuel >= NeedAll(n.fin)
    requires ReadsClauses(h, forms, env.locals, n, k) && CatchesOk(n.catches[k..]) && NoRecur(n.fin)
    requires Fresh(Cat(IdsCatches(n.catches[k..]), IdsAll(n.fin)), st, st1)
    requires acc.catches == n.catches[..k] && acc.fin == []
    ensures ParseClauses(h, forms, env, st, fuel, acc, inClauses) == Ok(Clauses(acc.body, n.catches, n.fin), st1)
    decreases n, 1, 2 * (|n.catches| - k)
  {
    hide Reads, ReadsAll, ReadsBody, Need, AnalyzeForm, AnalyzeAll, AnalyzeBody;
    var senv := env.(ctx := Statement);
    assert n.catches[k..] == [] && n.fin == [n.fin[0]] && n.fin[1..] == [];
    CatNone(Ids(n.fin[0]));
    BodyExact(h, forms[0].items[1..], senv, st, n.fin[0], st1, fuel);
    assert n.catches[..k] == n.catches;
  }

  /** The body forms are collected first. */
  lemma {:induction false} ClausesSplit(h: Hooks, forms: seq<Form>, env: Env, st: St, fuel: nat, acc: Clauses)
    requires acc.fin == []
    ensures ParseClauses(h, forms, env, st, fuel, acc, false)
         == ParseClauses(h, ClauseForms(forms), env, st, fuel, acc.(body := acc.body + BodyForms(forms)), false)
    decreases |forms|
  {
    hide AnalyzeForm, AnalyzeBody, ParseCatch, ClauseOp, IsClause;
    if forms != [] { ClauseIs(forms[0]); }
    if forms != [] && !StartsClauses(forms[0]) {
      ClausesSplit(h, forms[1..], env, st, fuel, acc.(body := acc.body + [forms[0]]));
      assert acc.body + BodyForms(forms) == acc.body + [forms[0]] + BodyForms(forms[1..]);
    } else {
      assert acc.body + [] == acc.body;
    }
  }

  lemma {:induction false} TryExact(h: Hooks, args: seq<Form>, env: Env, st: St, n: Node, st1: St, fuel: nat)
    requires n.Try? && fuel + 1 >= Need(n)
    requires ReadsSpecial(h, "try", args, env.locals, n) && Placed(n, TargetOf(env), st, st1)
    ensures ParseTry(h, args, env, st, fuel) == Ok(n, st1)
    decreases n, 2, 0
  {
    var all := n.catches[0..];
    assert all == n.catches && n.catches[..0] == [];
    var a := After(st, Cat(IdsCatches(all), IdsAll(n.fin)));
    Cut(Cat(IdsCatches(all), IdsAll(n.fin)), Ids(n.body), st, a, st1);
    hide Fresh, IdsCatches, IdsAll, Reads, ReadsClauses, ReadsBody, AnalyzeForm, AnalyzeBody, ParseClauses, NeedAll, NeedCatches,
         NoRecur, CatchesOk;
    var none, acc := Clauses([], [], []), Clauses(BodyForms(args), [], []);
    assert [] + BodyForms(args) == BodyForms(args);
    ClausesSplit(h, args, Blocked(env), st, fuel, none);
    ClausesExact(h, ClauseForms(args), Blocked(env), st, n, 0, a, acc, false, fuel);
    BodyExact(h, BodyForms(args), Blocked(env), a, n.body, st1, fuel);
  }

  // ----- fn* -----

  lemma {:induction false} MethodExact(h: Hooks, parts: seq<Form>, env: Env, st: St, m: Method, st1: St, fuel: nat)
    requires parts != [] && parts[0].Vec? && m.id.isFn && fuel >= Need(m.body)
    requires ParamShape(parts[0].items, NamesOf(m.params), m.variadic)
    requires forall b <- m.params :: b.kind == KArg
    requires ReadsBody(h, parts[1..], LocalsWith(env.locals, m.params), m.body)
    requires RecurOk(m.body, Some(Target(m.id, |m.params|)))
    requires Fresh(IdsMethod(m), st, st1)
    ensures ParseMethod(h, parts, env, st, fuel) == Ok(m, st1)
    decreases m, 1
  {
    hide Fresh, Ids, IdsMethod, RecurOk, ReadsBody, AnalyzeBody, ParamNames, ParamShape, WithLocals, LocalsWith, Need, Binders,
         NamesOf;
    var ps := parts[0].items;
    ParamsIff(ps, 0, NamesOf(m.params), m.variadic);
    assert ps[0..] == ps;
    var a := St(st.gensym + 1, st.alloc + |m.params|);
    MethodParts(m, st, st1, a);
    WithLocalsIs(env, m.params);
    var env1 := WithLocals(env, m.params).(ctx := Return, frame := Some(Frame(m.id, |m.params|, false)));
    BodyExact(h, parts[1..], env1, a, m.body, st1, fuel);
  }

  lemma MethodParts(m: Method, st: St, st1: St, a: St)
    requires Fresh(IdsMethod(m), st, st1) && a == St(st.gensym + 1, st.alloc + |m.params|)
    requires m.id.isFn && forall b <- m.params :: b.kind == KArg
    ensures m.id == LoopId(true, a.gensym) && Fresh(Ids(m.body), a, st1)
    ensures m.params == Binders(NamesOf(m.params), KArg, st.alloc)
  {
    hide Ids;
    var own := Nums([m.id.n], BinderIds(m.params));
    Cut(own, Ids(m.body), st, a, st1);
    assert [m.id.n][0] == m.id.n;
    ParamsAre(own, m.params, st, a);
  }

  lemma ParamsAre(ids: Nums, ps: seq<Binder>, st: St, a: St)
    requires Fresh(ids, st, a) && ids.sites == BinderIds(ps) && forall b <- ps :: b.kind == KArg
    ensures ps == Binders(NamesOf(ps), KArg, st.alloc)
  {
    forall i | 0 <= i < |ps| ensures ps[i] == Binder(ps[i].name, KArg, st.alloc + i) {
      assert BinderIds(ps)[i] == st.alloc + i && ps[i] in ps;
    }
  }

  lemma {:induction false} MethodsExact(h: Hooks, ms: seq<Form>, env: Env, st: St, ns: seq<Method>, st1: St, fuel: nat, a: Arities)
    requires fuel >= NeedMethods(ns)
    requires ReadsMethods(h, ms, env.locals, ns) && MethodsOk(ns) && Tally(ns, a).Some?
    requires Fresh(IdsMethods(ns), st, st1)
    ensures ParseMethods(h, ms, env, st, fuel, a) == Ok((ns, Tally(ns, a).value), st1)
    decreases ns, 3
  {
    if ns == [] {
      NoIds(st, st1);
    } else {
      var m, rest := ns[0], ns[1..];
      var mid := After(st, IdsMethod(m));
      Cut(IdsMethod(m), IdsMethods(rest), st, mid, st1);
      hide Fresh, IdsMethods, IdsMethod, ReadsBody, Reads, RecurOk, AnalyzeBody, Ids, ParamShape, NamesOf;
      MethodExact(h, ms[0].items, env, st, m, mid, fuel);
      MethodsExact(h, ms[1..], env, mid, rest, st1, fuel, AddArity(a, m).value);
      assert ns == [m] + rest;
    }
  }

  lemma FnParts(h: Hooks, args: seq<Form>, locals: Locals, t: Option<Target>, st: St, n: Node, st1: St, a: St)
    requires n.Fn? && ReadsSpecial(h, "fn*", args, locals, n) && Placed(n, t, st, st1)
    requires a == if n.self.Some? then st.(alloc := st.alloc + 1) else st
    ensures var named := args != [] && args[0].Sym?;
            && (named ==> args[0].sym.ns.None? && n.self == Some(Binder(args[0].sym.name, KFn, st.alloc)))
            && (!named ==> n.self.None?)
            && ReadsMethods(h, MethodForms(if named then args[1..] else args),
                            if named then locals[n.self.value.name := n.self.value] else locals, n.methods)
    ensures n.methods != [] && OverloadsOk(n.methods) && MethodsOk(n.methods) && Fresh(IdsMethods(n.methods), a, st1)
    ensures Need(n) == 2 + NeedMethods(n.methods)
  {
    hide ReadsMethods, OverloadsOk, NeedMethods, IdsMethods, Fresh;
    var own := if n.self.Some? then Nums([], [n.self.value.id]) else Nums([], []);
    Cut(own, IdsMethods(n.methods), st, a, st1);
    if n.self.Some? { OneSite(n.self.value.id, st, a); }
  }

  lemma {:induction false} FnStarExact(h: Hooks, args: seq<Form>, env: Env, st: St, n: Node, st1: St, fuel: nat)
    requires n.Fn? && fuel + 1 >= Need(n)
    requires ReadsSpecial(h, "fn*", args, env.locals, n) && Placed(n, TargetOf(env), st, st1)
    ensures ParseFnStar(h, args, env, st, fuel) == Ok(n, st1)
    decreases n, 2, 0
  {
    hide ReadsSpecial, Placed, Fresh, IdsMethods, MethodsOk, Need, Tally, ParseMethods, OverloadsOk, ReadsMethods, ArityOrder;
    var named := args != [] && args[0].Sym?;
    var a := if n.self.Some? then st.(alloc := st.alloc + 1) else st;
    FnParts(h, args, env.locals, TargetOf(env), st, n, st1, a);
    var ms := MethodForms(if named then args[1..] else args);
    var env1 := if named then WithLocal(env, n.self.value) else env;
    ReadRestNamed(h, ms, env1.locals, n.methods);
    OverloadsExact(n.methods);
    MethodsExact(h, ms, env1, a, n.methods, st1, fuel, Arities({}, None));
    MethodsNonEmpty(h, ms, env1.locals, n.methods);
  }

  lemma MethodsNonEmpty(h: Hooks, ms: seq<Form>, locals: Locals, ns: seq<Method>)
    requires ReadsMethods(h, ms, locals, ns) && ns != []
    ensures ms != []
  {}
}
