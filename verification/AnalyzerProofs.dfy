/** Every form the analyzer accepts becomes a tree that reads it, with well-placed `recur` and numbers
    used once: one lemma per parser. */
module AnalyzerProofs {
  import opened AnalyzerForms
  import opened AnalyzerSpec
  import opened AnalyzerProps
  import opened AnalyzerShapes
  import opened Options

  function TargetOf(env: Env): Option<Target> {
    if env.ctx == Return && env.frame.Some? && !env.frame.value.blocked
    then Some(Target(env.frame.value.id, env.frame.value.arity)) else None
  }

  ghost predicate Placed(n: Node, t: Option<Target>, st: St, st1: St) {
    RecurOk(n, t) && Fresh(Ids(n), st, st1)
  }

  ghost predicate AllPlaced(ns: seq<Node>, st: St, st1: St) {
    NoRecur(ns) && Fresh(IdsAll(ns), st, st1)
  }

  lemma Join(xs: Nums, ys: Nums, st: St, st1: St, st2: St)
    requires Fresh(xs, st, st1) && Fresh(ys, st1, st2)
    ensures Fresh(Cat(xs, ys), st, st2)
  {
    var all := Cat(xs, ys);
    assert all.loops == Range(st.gensym + 1, st2.gensym + 1);
    assert all.sites == Range(st.alloc, st2.alloc);
  }

  lemma CatAssoc(a: Nums, b: Nums, c: Nums)
    ensures Cat(Cat(a, b), c) == Cat(a, Cat(b, c))
  {}

  lemma CatNone(a: Nums)
    ensures Cat(a, Nums([], [])) == a == Cat(Nums([], []), a)
  {
    assert a.loops + [] == a.loops && a.sites + [] == a.sites && [] + a.loops == a.loops && [] + a.sites == a.sites;
  }

  lemma OwnLoop(st: St)
    ensures Fresh(Nums([st.gensym + 1], []), st, st.(gensym := st.gensym + 1))
  {}

  lemma OwnSite(st: St)
    ensures Fresh(Nums([], [st.alloc]), st, st.(alloc := st.alloc + 1))
  {}

  lemma Nothing(st: St)
    ensures Fresh(Nums([], []), st, st)
  {}

  lemma {:induction false} FormGood(h: Hooks, form: Form, env: Env, st: St, fuel: nat)
    ensures var r := AnalyzeForm(h, form, env, st, fuel);
            r.Ok? ==> Reads(h, form, env.locals, r.v) && Placed(r.v, TargetOf(env), st, r.st)
    decreases fuel, 3, 0
  {
    if fuel > 0 {
      if form.Seq? && form.items != [] {
        hide *;
        var r := AnalyzeForm(h, form, env, st, fuel);
        if r.Ok? {
          CallIs(h, form.items, env, st, r.v, fuel);
          match ExpandHead(h, form.items, env.locals, 0)
          case Special(name, f) =>
            SpecialItems(f);
            SpecialGood(h, name, f, env, st, fuel - 1);
          case Call(f) => InvokeGood(h, f, env, st, fuel - 1);
          case Other(f) => FormGood(h, f, env, st, fuel - 1);
          case Bad(_) => assert false;
        }
      } else {
        hide *;
        OtherGood(h, form, env, st, fuel);
      }
    } else {
      NoFuel(h, form, env, st);
    }
  }

  lemma NoFuel(h: Hooks, form: Form, env: Env, st: St)
    ensures !AnalyzeForm(h, form, env, st, 0).Ok?
  {
  }

  lemma SpecialItems(items: seq<Form>)
    ensures SpecialOf(items).Some? ==> items != []
  {
  }

  lemma {:induction false} OtherGood(h: Hooks, form: Form, env: Env, st: St, fuel: nat)
    requires fuel > 0 && !(form.Seq? && form.items != [])
    ensures var r := AnalyzeForm(h, form, env, st, fuel);
            r.Ok? ==> Reads(h, form, env.locals, r.v) && Placed(r.v, TargetOf(env), st, r.st)
    decreases fuel, 2, 0
  {
    if AnalyzeForm(h, form, env, st, fuel).Ok? {
      match form
      case Vec(items) => AllGood(h, items, ExprEnv(env), st, fuel - 1);
      case Map(items) => AllGood(h, items, ExprEnv(env), st, fuel - 1);
      case Set(items) => AllGood(h, items, ExprEnv(env), st, fuel - 1);
      case _ =>
    }
  }

  /** A call is read and analyzed as its expanded head says. */
  lemma CallIs(h: Hooks, items: seq<Form>, env: Env, st: St, n: Node, fuel: nat)
    requires items != [] && fuel > 0
    ensures AnalyzeForm(h, Seq(items), env, st, fuel) ==
            match ExpandHead(h, items, env.locals, 0)
            case Special(name, f) => ParseSpecial(h, name, f, env, st, fuel - 1)
            case Call(f) => ParseInvoke(h, f, env, st, fuel - 1)
            case Other(f) => AnalyzeForm(h, f, env, st, fuel - 1)
            case Bad(e) => Err(e, st)
    ensures Reads(h, Seq(items), env.locals, n) <==>
            match ExpandHead(h, items, env.locals, 0)
            case Special(name, f) => ReadsSpecial(h, name, f[1..], env.locals, n)
            case Call(f) => ReadsCall(h, f, env.locals, n)
            case Other(f) => Reads(h, f, env.locals, n)
            case Bad(_) => false
  {
    hide ReadsAll, ReadsCall, ReadsSpecial, ParseSpecial, ParseInvoke, AnalyzeAll;
  }

  lemma {:induction false} AllGood(h: Hooks, forms: seq<Form>, env: Env, st: St, fuel: nat)
    requires TargetOf(env).None?
    ensures var r := AnalyzeAll(h, forms, env, st, fuel);
            r.Ok? ==> ReadsAll(h, forms, env.locals, r.v) && AllPlaced(r.v, st, r.st)
    decreases fuel, 4, |forms|
  {
    var r := AnalyzeAll(h, forms, env, st, fuel);
    if forms != [] && r.Ok? {
      var r1 := AnalyzeForm(h, forms[0], env, st, fuel);
      FormGood(h, forms[0], env, st, fuel);
      AllGood(h, forms[1..], env, r1.st, fuel);
      var rest := AnalyzeAll(h, forms[1..], env, r1.st, fuel).v;
      assert r.v == [r1.v] + rest && r.v[1..] == rest;
      Join(Ids(r1.v), IdsAll(rest), st, r1.st, r.st);
    }
  }

  lemma {:induction false} BodyGood(h: Hooks, body: seq<Form>, env: Env, st: St, fuel: nat)
    ensures var r := AnalyzeBody(h, body, env, st, fuel);
            r.Ok? ==> ReadsBody(h, body, env.locals, r.v) && Placed(r.v, TargetOf(env), st, r.st)
    decreases fuel, 5, 0
  {
    var r := AnalyzeBody(h, body, env, st, fuel);
    if body != [] && r.Ok? {
      var senv := env.(ctx := Statement);
      var r1 := AnalyzeAll(h, body[..|body| - 1], senv, st, fuel);
      AllGood(h, body[..|body| - 1], senv, st, fuel);
      FormGood(h, body[|body| - 1], env, r1.st, fuel);
      Join(IdsAll(r1.v), Ids(r.v.ret), st, r1.st, r.st);
    }
  }

  lemma {:induction false} SpecialGood(h: Hooks, name: string, items: seq<Form>, env: Env, st: St, fuel: nat)
    requires items != []
    ensures var r := ParseSpecial(h, name, items, env, st, fuel);
            r.Ok? ==> ReadsSpecial(h, name, items[1..], env.locals, r.v) && Placed(r.v, TargetOf(env), st, r.st)
    decreases fuel, 8, 0
  {
    hide Reads, ReadsAll, ReadsBody, ReadsBinds, ReadsDynBinds, ReadsClauses, ReadsMethods, AnalyzeBody, AnalyzeForm,
         ParseLetOrLoop, ParseRecur, ParseIf, ParseTry, ParseFnStar, ParseBinding, ParseSetBang, ParseDef;
    var args := items[1..];
    if name == "if" { IfGood(h, args, env, st, fuel); }
    else if name == "do" { BodyGood(h, args, env, st, fuel); }
    else if name == "def" { DefGood(h, args, env, st, fuel); }
    else if name == "let*" { LetOrLoopGood(h, args, env, st, fuel, false); }
    else if name == "loop*" { LetOrLoopGood(h, args, env, st, fuel, true); }
    else if name == "recur" { RecurGood(h, args, env, st, fuel); }
    else if name == "set!" { SetBangGood(h, args, env, st, fuel); }
    else if name == "binding" { BindingGood(h, args, env, st, fuel); }
    else if name == "fn*" { FnStarGood(h, args, env, st, fuel); }
    else if name == "throw" { if |args| == 1 { FormGood(h, args[0], ExprEnv(env), st, fuel); } }
    else if name == "try" { TryGood(h, args, env, st, fuel); }
  }

  lemma {:induction false} IfGood(h: Hooks, args: seq<Form>, env: Env, st: St, fuel: nat)
    ensures var r := ParseIf(h, args, env, st, fuel);
            r.Ok? ==> ReadsSpecial(h, "if", args, env.locals, r.v) && Placed(r.v, TargetOf(env), st, r.st)
    decreases fuel, 7, 0
  {
    var r := ParseIf(h, args, env, st, fuel);
    if r.Ok? {
      var r1 := AnalyzeForm(h, args[0], ExprEnv(env), st, fuel);
      var r2 := AnalyzeForm(h, args[1], env, r1.st, fuel);
      FormGood(h, args[0], ExprEnv(env), st, fuel);
      FormGood(h, args[1], env, r1.st, fuel);
      if |args| == 3 { FormGood(h, args[2], env, r2.st, fuel); }
      Join(Ids(r1.v), Ids(r2.v), st, r1.st, r2.st);
      Join(Cat(Ids(r1.v), Ids(r2.v)), Ids(r.v.els), st, r2.st, r.st);
    }
  }

  lemma {:induction false} DefGood(h: Hooks, args: seq<Form>, env: Env, st: St, fuel: nat)
    ensures var r := ParseDef(h, args, env, st, fuel);
            r.Ok? ==> ReadsSpecial(h, "def", args, env.locals, r.v) && Placed(r.v, TargetOf(env), st, r.st)
    decreases fuel, 7, 0
  {
    if ParseDef(h, args, env, st, fuel).Ok? {
      AllGood(h, if |args| == 1 then [] else [args[|args| - 1]], ExprEnv(env), st, fuel);
    }
  }

  lemma {:induction false} BindsGood(h: Hooks, bvec: seq<Form>, kind: Kind, env: Env, st: St, fuel: nat)
    requires Even(|bvec|)
    ensures var r := ParseBinds(h, bvec, kind, env, st, fuel);
            r.Ok? ==>
              && ReadsBinds(h, bvec, kind, env.locals, r.v.0)
              && r.v.1 == env.(locals := LetLocals(env.locals, r.v.0))
              && InitsOk(r.v.0) && Fresh(IdsBinds(r.v.0), st, r.st)
    decreases fuel, 6, |bvec|
  {
    hide AnalyzeForm, Reads, IdsAll, NoRecur;
    var r := ParseBinds(h, bvec, kind, env, st, fuel);
    if bvec != [] && r.Ok? {
      var r1 := AnalyzeForm(h, bvec[1], ExprEnv(env), st, fuel);
      FormGood(h, bvec[1], ExprEnv(env), st, fuel);
      var b := Binder(bvec[0].sym.name, kind, r1.st.alloc);
      var st2 := r1.st.(alloc := r1.st.alloc + 1);
      BindsGood(h, bvec[2..], kind, WithLocal(env, b), st2, fuel);
      var rest := ParseBinds(h, bvec[2..], kind, WithLocal(env, b), st2, fuel).v.0;
      assert r.v.0 == [LetBind(b, r1.v)] + rest && r.v.0[1..] == rest;
      var own := Nums([], [b.id]);
      Join(Ids(r1.v), own, st, r1.st, st2);
      Join(Cat(Ids(r1.v), own), IdsBinds(rest), st, st2, r.st);
    }
  }

  lemma {:induction false} LetOrLoopGood(h: Hooks, args: seq<Form>, env: Env, st: St, fuel: nat, isLoop: bool)
    ensures var r := ParseLetOrLoop(h, args, env, st, fuel, isLoop);
            r.Ok? ==> ReadsSpecial(h, if isLoop then "loop*" else "let*", args, env.locals, r.v)
                      && Placed(r.v, TargetOf(env), st, r.st)
    decreases fuel, 7, 0
  {
    hide AnalyzeForm, AnalyzeBody, ParseBinds, Reads, ReadsBody, ReadsBinds, NoRecur, InitsOk, IdsAll, IdsBinds, Fresh, LetLocals;
    var r := ParseLetOrLoop(h, args, env, st, fuel, isLoop);
    if r.Ok? {
      var kind := if isLoop then KLoop else KLet;
      BindsGood(h, args[0].items, kind, env, st, fuel);
      var r1 := ParseBinds(h, args[0].items, kind, env, st, fuel);
      var (binds, env1) := r1.v;
      if isLoop {
        var id := LoopId(false, r1.st.gensym + 1);
        var st2 := r1.st.(gensym := r1.st.gensym + 1);
        BodyGood(h, args[1..], env1.(ctx := Return, frame := Some(Frame(id, |binds|, false))), st2, fuel);
        var own := Nums([id.n], []);
        OwnLoop(r1.st);
        Join(IdsBinds(binds), own, st, r1.st, st2);
        Join(Cat(IdsBinds(binds), own), Ids(r.v.body), st, st2, r.st);
      } else {
        BodyGood(h, args[1..], env1, r1.st, fuel);
        Join(IdsBinds(binds), Ids(r.v.body), st, r1.st, r.st);
      }
    }
  }

  lemma {:induction false} RecurGood(h: Hooks, args: seq<Form>, env: Env, st: St, fuel: nat)
    ensures var r := ParseRecur(h, args, env, st, fuel);
            r.Ok? ==> ReadsSpecial(h, "recur", args, env.locals, r.v) && Placed(r.v, TargetOf(env), st, r.st)
    decreases fuel, 7, 0
  {
    if ParseRecur(h, args, env, st, fuel).Ok? {
      AllGood(h, args, env.(ctx := Expr, frame := None), st, fuel);
    }
  }

  lemma {:induction false} SetBangGood(h: Hooks, args: seq<Form>, env: Env, st: St, fuel: nat)
    ensures var r := ParseSetBang(h, args, env, st, fuel);
            r.Ok? ==> ReadsSpecial(h, "set!", args, env.locals, r.v) && Placed(r.v, TargetOf(env), st, r.st)
    decreases fuel, 7, 0
  {
    var r := ParseSetBang(h, args, env, st, fuel);
    if r.Ok? {
      FormGood(h, args[0], ExprEnv(env), st, fuel);
      var r1 := AnalyzeForm(h, args[0], ExprEnv(env), st, fuel);
      FormGood(h, args[1], ExprEnv(env), r1.st, fuel);
      Join(Ids(r1.v), Ids(r.v.val), st, r1.st, r.st);
    }
  }

  lemma {:induction false} DynBindsGood(h: Hooks, bvec: seq<Form>, env: Env, st: St, fuel: nat)
    requires Even(|bvec|)
    ensures var r := ParseDynBinds(h, bvec, env, st, fuel);
            r.Ok? ==> ReadsDynBinds(h, bvec, env.locals, r.v.0, r.v.1) && AllPlaced(r.v.1, st, r.st)
    decreases fuel, 6, |bvec|
  {
    var r := ParseDynBinds(h, bvec, env, st, fuel);
    if bvec != [] && r.Ok? {
      var r1 := AnalyzeForm(h, bvec[1], ExprEnv(env), st, fuel);
      FormGood(h, bvec[1], ExprEnv(env), st, fuel);
      DynBindsGood(h, bvec[2..], env, r1.st, fuel);
      var (vars, vals) := ParseDynBinds(h, bvec[2..], env, r1.st, fuel).v;
      assert r.v.1 == [r1.v] + vals && r.v.1[1..] == vals && r.v.0[1..] == vars;
      Join(Ids(r1.v), IdsAll(vals), st, r1.st, r.st);
    }
  }

  lemma {:induction false} BindingGood(h: Hooks, args: seq<Form>, env: Env, st: St, fuel: nat)
    ensures var r := ParseBinding(h, args, env, st, fuel);
            r.Ok? ==> ReadsSpecial(h, "binding", args, env.locals, r.v) && Placed(r.v, TargetOf(env), st, r.st)
    decreases fuel, 7, 0
  {
    hide AnalyzeForm, AnalyzeBody, ParseDynBinds, Reads, ReadsBody, ReadsDynBinds, NoRecur, IdsAll, Fresh;
    var r := ParseBinding(h, args, env, st, fuel);
    if r.Ok? {
      DynBindsGood(h, args[0].items, env, st, fuel);
      var r1 := ParseDynBinds(h, args[0].items, env, st, fuel);
      BodyGood(h, args[1..], Blocked(env), r1.st, fuel);
      Join(IdsAll(r.v.vals), Ids(r.v.body), st, r1.st, r.st);
    }
  }

  // ----- try -----

  lemma {:induction false} CatchGood(h: Hooks, parts: seq<Form>, env: Env, st: St, fuel: nat)
    requires TargetOf(env).None?
    ensures var r := ParseCatch(h, parts, env, st, fuel);
            r.Ok? ==> ReadsCatch(h, parts, env.locals, r.v) && RecurOk(r.v.body, None)
                      && Fresh(IdsCatch(r.v), st, r.st)
    decreases fuel, 5, 1
  {
    var r := ParseCatch(h, parts, env, st, fuel);
    if r.Ok? {
      var b := Binder(parts[1].sym.name, KCatch, st.alloc);
      var st1 := st.(alloc := st.alloc + 1);
      BodyGood(h, parts[2..], WithLocal(env, b), st1, fuel);
      OwnSite(st);
      Join(Nums([], [b.id]), Ids(r.v.body), st, st1, r.st);
    }
  }

  /** c is acc with what the forms from here on add to it. */
  ghost predicate Adds(h: Hooks, forms: seq<Form>, locals: Locals, st: St, acc: Clauses, inClauses: bool, body: Node,
                       c: Clauses, st1: St)
  {
    && acc.catches <= c.catches
    && c.body == (if inClauses then acc.body else acc.body + BodyForms(forms))
    && (acc.fin != [] ==> c == acc && ClauseForms(forms) == [] && (inClauses ==> forms == []) && st1 == st)
    && (acc.fin == [] ==>
        var more := c.catches[|acc.catches|..];
        && ReadsClauses(h, if inClauses then forms else ClauseForms(forms), locals, Try(body, c.catches, c.fin), |acc.catches|)
        && CatchesOk(more) && NoRecur(c.fin)
        && Fresh(Cat(IdsCatches(more), IdsAll(c.fin)), st, st1))
  }

  lemma CatchAdds(h: Hooks, forms: seq<Form>, locals: Locals, st: St, acc: Clauses, inClauses: bool, body: Node,
                  m: Catch, mid: St, c: Clauses, st1: St)
    requires forms != [] && IsClause(forms[0], "catch") && acc.fin == []
    requires ReadsCatch(h, forms[0].items[1..], locals, m) && RecurOk(m.body, None)
    requires Fresh(IdsCatch(m), st, mid)
    requires Adds(h, forms[1..], locals, mid, acc.(catches := acc.catches + [m]), true, body, c, st1)
    ensures Adds(h, forms, locals, st, acc, inClauses, body, c, st1)
  {
    hide Reads, ReadsBody, ReadsCatch, Ids, RecurOk, Fresh;
    var more, more1 := c.catches[|acc.catches|..], c.catches[|acc.catches| + 1..];
    assert more == [m] + more1 && more[1..] == more1;
    assert c.catches[|acc.catches|] == m;
    Join(IdsCatch(m), Cat(IdsCatches(more1), IdsAll(c.fin)), st, mid, st1);
    CatAssoc(IdsCatch(m), IdsCatches(more1), IdsAll(c.fin));
    assert acc.body + [] == acc.body;
  }

  lemma FinallyAdds(h: Hooks, forms: seq<Form>, locals: Locals, st: St, acc: Clauses, inClauses: bool, body: Node,
                    n: Node, mid: St, c: Clauses, st1: St)
    requires forms != [] && IsClause(forms[0], "finally") && acc.fin == []
    requires ReadsBody(h, forms[0].items[1..], locals, n) && Placed(n, None, st, mid)
    requires Adds(h, forms[1..], locals, mid, acc.(fin := [n]), true, body, c, st1)
    ensures Adds(h, forms, locals, st, acc, inClauses, body, c, st1)
  {
    hide Reads, ReadsBody, ReadsCatch, Ids, RecurOk, Fresh;
    assert c.fin[1..] == [];
    assert c == acc.(fin := [n]) && c.catches[|acc.catches|..] == [];
    CatNone(Ids(n));
    assert NoRecur(c.fin[1..]);
    assert acc.body + [] == acc.body;
    assert BodyForms(forms) == [];
    var t := Try(body, c.catches, c.fin);
    assert ReadsClauses(h, forms, locals, t, |acc.catches|);
    assert ReadsClauses(h, ClauseForms(forms), locals, t, |acc.catches|);
    assert CatchesOk([]);
    assert NoRecur(c.fin);
    assert Fresh(Cat(IdsCatches([]), IdsAll(c.fin)), st, st1);
  }

  lemma {:induction false} ClausesGood(h: Hooks, forms: seq<Form>, env: Env, st: St, fuel: nat, acc: Clauses,
                                       inClauses: bool, body: Node)
    requires TargetOf(env).None? && (acc.fin != [] ==> inClauses)
    ensures var r := ParseClauses(h, forms, env, st, fuel, acc, inClauses);
            r.Ok? ==> Adds(h, forms, env.locals, st, acc, inClauses, body, r.v, r.st)
    decreases fuel, 6, |forms|
  {
    hide AnalyzeForm, AnalyzeBody, ParseCatch, Reads, ReadsBody, ReadsCatch, RecurOk, Ids, Fresh;
    var r := ParseClauses(h, forms, env, st, fuel, acc, inClauses);
    if forms == [] {
      assert acc.catches[|acc.catches|..] == [];
      CatNone(IdsAll([]));
      Nothing(st);
    } else if r.Ok? {
      hide Adds;
      var f := forms[0];
      var op := ClauseOp(f);
      if op == "" {
        var acc1 := acc.(body := acc.body + [f]);
        ClausesGood(h, forms[1..], env, st, fuel, acc1, false, body);
        FormAdds(h, forms, env.locals, st, acc, body, r.v, r.st);
      } else if op == "catch" {
        var r1 := ParseCatch(h, f.items[1..], env, st, fuel);
        CatchGood(h, f.items[1..], env, st, fuel);
        ClausesGood(h, forms[1..], env, r1.st, fuel, acc.(catches := acc.catches + [r1.v]), true, body);
        CatchAdds(h, forms, env.locals, st, acc, inClauses, body, r1.v, r1.st, r.v, r.st);
      } else {
        var senv := env.(ctx := Statement);
        var r1 := AnalyzeBody(h, f.items[1..], senv, st, fuel);
        BodyGood(h, f.items[1..], senv, st, fuel);
        ClausesGood(h, forms[1..], env, r1.st, fuel, acc.(fin := [r1.v]), true, body);
        FinallyAdds(h, forms, env.locals, st, acc, inClauses, body, r1.v, r1.st, r.v, r.st);
      }
    }
  }

  lemma FormAdds(h: Hooks, forms: seq<Form>, locals: Locals, st: St, acc: Clauses, body: Node, c: Clauses, st1: St)
    requires forms != [] && !StartsClauses(forms[0]) && acc.fin == []
    requires Adds(h, forms[1..], locals, st, acc.(body := acc.body + [forms[0]]), false, body, c, st1)
    ensures Adds(h, forms, locals, st, acc, false, body, c, st1)
  {
    hide ReadsClauses, CatchesOk, NoRecur, IdsCatches, IdsAll, Fresh;
    assert acc.body + BodyForms(forms) == acc.body + [forms[0]] + BodyForms(forms[1..]);
  }

  lemma {:induction false} TryGood(h: Hooks, args: seq<Form>, env: Env, st: St, fuel: nat)
    ensures var r := ParseTry(h, args, env, st, fuel);
            r.Ok? ==> ReadsSpecial(h, "try", args, env.locals, r.v) && Placed(r.v, TargetOf(env), st, r.st)
    decreases fuel, 7, 0
  {
    hide AnalyzeForm, AnalyzeBody, ParseClauses, Reads, ReadsBody, ReadsClauses, BodyForms, ClauseForms, NoRecur, CatchesOk, IdsAll, IdsCatches, Fresh;
    var r := ParseTry(h, args, env, st, fuel);
    if r.Ok? {
      var none := Clauses([], [], []);
      var r1 := ParseClauses(h, args, Blocked(env), st, fuel, none, false);
      ClausesGood(h, args, Blocked(env), st, fuel, none, false, r.v.body);
      BodyGood(h, r1.v.body, Blocked(env), r1.st, fuel);
      assert [] + BodyForms(args) == BodyForms(args);
      assert r1.v.catches[0..] == r1.v.catches;
      Join(Cat(IdsCatches(r1.v.catches), IdsAll(r1.v.fin)), Ids(r.v.body), st, r1.st, r.st);
    }
  }

  // ----- fn* -----

  /** The arities after more methods, or None when one of them clashes. */
  function Tally(ms: seq<Method>, a: Arities): Option<Arities> {
    if ms == [] then Some(a)
    else if AddArity(a, ms[0]).None? then None
    else Tally(ms[1..], AddArity(a, ms[0]).value)
  }

  lemma {:induction false} MethodsGood(h: Hooks, ms: seq<Form>, env: Env, st: St, fuel: nat, a: Arities)
    ensures var r := ParseMethods(h, ms, env, st, fuel, a);
            r.Ok? ==>
              && ReadsMethods(h, ms, env.locals, r.v.0) && Tally(r.v.0, a) == Some(r.v.1)
              && MethodsOk(r.v.0) && Fresh(IdsMethods(r.v.0), st, r.st)
    decreases fuel, 6, |ms|
  {
    var r := ParseMethods(h, ms, env, st, fuel, a);
    if ms != [] && r.Ok? {
      var r1 := ParseMethod(h, ms[0].items, env, st, fuel);
      MethodGood(h, ms[0].items, env, st, fuel);
      var a1 := AddArity(a, r1.v).value;
      MethodsGood(h, ms[1..], env, r1.st, fuel, a1);
      var rest := ParseMethods(h, ms[1..], env, r1.st, fuel, a1).v.0;
      assert r.v.0 == [r1.v] + rest && r.v.0[1..] == rest;
      Join(IdsMethod(r1.v), IdsMethods(rest), st, r1.st, r.st);
    }
  }

  lemma WithLocalsIs(env: Env, bs: seq<Binder>)
    ensures WithLocals(env, bs) == env.(locals := LocalsWith(env.locals, bs))
    decreases bs
  {
    if bs != [] { WithLocalsIs(WithLocal(env, bs[0]), bs[1..]); }
  }

  lemma {:induction false} MethodGood(h: Hooks, parts: seq<Form>, env: Env, st: St, fuel: nat)
    ensures var r := ParseMethod(h, parts, env, st, fuel);
            r.Ok? ==>
              && parts != [] && parts[0].Vec? && r.v.id.isFn
              && ParamShape(parts[0].items, NamesOf(r.v.params), r.v.variadic)
              && (forall b <- r.v.params :: b.kind == KArg)
              && ReadsBody(h, parts[1..], LocalsWith(env.locals, r.v.params), r.v.body)
              && RecurOk(r.v.body, Some(Target(r.v.id, |r.v.params|)))
              && Fresh(IdsMethod(r.v), st, r.st)
    decreases fuel, 5, 1
  {
    hide AnalyzeBody, AnalyzeForm, Reads, ReadsBody, ReadsAll, RecurOk, NoRecur, Ids, ParamNames, ParamShape, LocalsWith;
    var r := ParseMethod(h, parts, env, st, fuel);
    if r.Ok? {
      var (names, variadic) := ParamNames(parts[0].items, 0, false).value;
      var params := Binders(names, KArg, st.alloc);
      assert NamesOf(params) == names;
      var ps := parts[0].items;
      ParamsIff(ps, 0, names, variadic);
      assert ps[0..] == ps;
      WithLocalsIs(env, params);
      var id := LoopId(true, st.gensym + 1);
      var env1 := WithLocals(env, params).(ctx := Return, frame := Some(Frame(id, |params|, false)));
      var st1 := St(st.gensym + 1, st.alloc + |params|);
      BodyGood(h, parts[1..], env1, st1, fuel);
      Join(Nums([id.n], BinderIds(params)), Ids(r.v.body), st, st1, r.st);
    }
  }

  lemma {:induction false} FnStarGood(h: Hooks, args: seq<Form>, env: Env, st: St, fuel: nat)
    ensures var r := ParseFnStar(h, args, env, st, fuel);
            r.Ok? ==> ReadsSpecial(h, "fn*", args, env.locals, r.v) && Placed(r.v, TargetOf(env), st, r.st)
    decreases fuel, 7, 0
  {
    hide AnalyzeForm, ParseMethods, Reads, ReadsMethods, MethodsOk, IdsAll, IdsMethods, Fresh, Tally, OverloadsOk, ArityOrder;
    var r := ParseFnStar(h, args, env, st, fuel);
    if r.Ok? {
      var named := args != [] && args[0].Sym?;
      var ms := MethodForms(if named then args[1..] else args);
      var self := if named then Some(Binder(args[0].sym.name, KFn, st.alloc)) else None;
      var env1 := if named then WithLocal(env, self.value) else env;
      var st1 := if named then st.(alloc := st.alloc + 1) else st;
      MethodsGood(h, ms, env1, st1, fuel, Arities({}, None));
      var (methods, a) := ParseMethods(h, ms, env1, st1, fuel, Arities({}, None)).v;
      ReadRestNamed(h, ms, env1.locals, methods);
      OverloadsExact(methods);
      if named { OwnSite(st); } else { Nothing(st); }
      Join(if named then Nums([], [self.value.id]) else Nums([], []), IdsMethods(methods), st, st1, r.st);
    }
  }

  predicate Distinct(ms: seq<Method>) {
    forall i, j | 0 <= i < j < |ms| ::
      && !(ms[i].variadic && ms[j].variadic)
      && (!ms[i].variadic && !ms[j].variadic ==> FixedArity(ms[i]) != FixedArity(ms[j]))
  }

  predicate NewTo(m: Method, a: Arities) {
    if m.variadic then a.variadic.None? else FixedArity(m) !in a.fixed
  }

  predicate HasFixed(ms: seq<Method>, n: nat) {
    exists m <- ms :: !m.variadic && FixedArity(m) == n
  }

  /** A tally succeeds exactly when the methods differ from each other and from what was there. */
  lemma {:induction false} TallyIff(ms: seq<Method>, a: Arities)
    ensures Tally(ms, a).Some? <==> Distinct(ms) && forall m <- ms :: NewTo(m, a)
  {
    if ms != [] {
      var m, rest := ms[0], ms[1..];
      if NewTo(m, a) {
        var a1 := AddArity(a, m).value;
        TallyIff(rest, a1);
        assert forall x :: NewTo(x, a1) <==>
          NewTo(x, a) && !(m.variadic && x.variadic)
          && (!m.variadic && !x.variadic ==> FixedArity(x) != FixedArity(m));
        hide NewTo, FixedArity, Tally, AddArity;
        if Distinct(rest) && forall x <- rest :: NewTo(x, a1) {
          forall i, j | 0 <= i < j < |ms|
            ensures !(ms[i].variadic && ms[j].variadic)
            ensures !ms[i].variadic && !ms[j].variadic ==> FixedArity(ms[i]) != FixedArity(ms[j])
          {
            assert ms[j] == rest[j - 1] && NewTo(rest[j - 1], a1);
            if i > 0 { assert ms[i] == rest[i - 1]; }
          }
          assert forall x <- ms :: x == m || x in rest;
        }
        if Distinct(ms) && forall x <- ms :: NewTo(x, a) {
          assert forall i | 0 <= i < |rest| :: rest[i] == ms[i + 1];
          assert Distinct(rest);
          forall x <- rest ensures NewTo(x, a1) {
            var j :| 0 <= j < |rest| && rest[j] == x;
            assert ms[0] == m && ms[j + 1] == x && x in ms;
          }
        }
      } else {
        assert AddArity(a, m).None? && m in ms;
      }
    }
  }

  /** What a tally holds. */
  lemma {:induction false} TallyIs(ms: seq<Method>, a: Arities)
    requires Tally(ms, a).Some?
    ensures var b := Tally(ms, a).value;
            && (forall n :: n in b.fixed <==> n in a.fixed || HasFixed(ms, n))
            && (forall m <- ms | m.variadic :: b.variadic == Some(FixedArity(m)))
            && ((forall m <- ms :: !m.variadic) ==> b.variadic == a.variadic)
            && (a.variadic.Some? ==> b.variadic == a.variadic)
  {
    if ms != [] {
      var m, rest := ms[0], ms[1..];
      var a1 := AddArity(a, m).value;
      TallyIs(rest, a1);
      assert forall x <- ms :: x == m || x in rest;
      var b := Tally(ms, a).value;
      assert b == Tally(rest, a1).value;
      hide Tally, FixedArity;
      assert m in ms && forall x <- rest :: x in ms;
      forall n ensures n in b.fixed <==> n in a.fixed || HasFixed(ms, n) {
        assert n in b.fixed <==> n in a1.fixed || HasFixed(rest, n);
        assert HasFixed(ms, n) <==> (!m.variadic && FixedArity(m) == n) || HasFixed(rest, n);
      }
    }
  }

  /** A variadic method has a rest parameter. */
  predicate RestNamed(ms: seq<Method>) {
    forall m <- ms | m.variadic :: m.params != []
  }

  lemma {:induction false} ReadRestNamed(h: Hooks, ms: seq<Form>, locals: Locals, ns: seq<Method>)
    requires ReadsMethods(h, ms, locals, ns)
    ensures RestNamed(ns)
    decreases |ns|
  {
    hide ReadsBody;
    if ns != [] {
      assert |NamesOf(ns[0].params)| == |ns[0].params|;
      ReadRestNamed(h, ms[1..], locals, ns[1..]);
      assert forall m <- ns :: m == ns[0] || m in ns[1..];
    }
  }

  /** The counters of `fn*` accept exactly the method sets the language allows. */
  lemma {:induction false} OverloadsExact(ms: seq<Method>)
    requires RestNamed(ms)
    ensures OverloadsOk(ms) <==>
              var b := Tally(ms, Arities({}, None)); b.Some? && ArityOrder(b.value)
  {
    var none := Arities({}, None);
    TallyIff(ms, none);
    if Tally(ms, none).Some? { TallyIs(ms, none); }
    assert forall m <- ms :: NewTo(m, none);
    if OverloadsOk(ms) {
      assert Distinct(ms);
      var b := Tally(ms, none).value;
      if b.variadic.Some? {
        var i :| 0 <= i < |ms| && ms[i].variadic;
        assert ms[i] in ms;
        forall n <- b.fixed ensures n <= b.variadic.value {
          assert HasFixed(ms, n);
          var j :| 0 <= j < |ms| && !ms[j].variadic && FixedArity(ms[j]) == n;
          assert i < j || j < i;
        }
      }
    } else if Tally(ms, none).Some? && ArityOrder(Tally(ms, none).value) {
      var b := Tally(ms, none).value;
      forall x <- ms | !x.variadic ensures FixedArity(x) in b.fixed {
        assert HasFixed(ms, FixedArity(x));
      }
      assert Distinct(ms);
      forall i, j | 0 <= i < |ms| && 0 <= j < |ms| && ms[i].variadic && !ms[j].variadic
        ensures |ms[j].params| < |ms[i].params|
      {
        assert ms[i] in ms && ms[j] in ms;
      }
      assert OverloadsOk(ms);
    }
  }

  lemma {:induction false} InvokeGood(h: Hooks, items: seq<Form>, env: Env, st: St, fuel: nat)
    requires items != []
    ensures var r := ParseInvoke(h, items, env, st, fuel);
            r.Ok? ==> ReadsCall(h, items, env.locals, r.v) && Placed(r.v, TargetOf(env), st, r.st)
    decreases fuel, 5, 2
  {
    hide AnalyzeForm, AnalyzeAll, Reads, ReadsAll, ReadsCall, CallShape, AllMaps, NoRecur, IdsAll, Fresh;
    var r := ParseInvoke(h, items, env, st, fuel);
    if r.Ok? {
      var (call, shape) := CallShape(h, items);
      CallReads(h, items, env.locals, r.v);
      match shape
      case HostCall(children, _, _) => AllGood(h, children, ExprEnv(env), st, fuel);
      case NotHost =>
        var r1 := AnalyzeForm(h, call[0], ExprEnv(env), st, fuel);
        FormGood(h, call[0], ExprEnv(env), st, fuel);
        AllGood(h, call[1..], ExprEnv(env), r1.st, fuel);
        Join(Ids(r1.v), IdsAll(r.v.args), st, r1.st, r.st);
      case _ =>
    }
  }
}
