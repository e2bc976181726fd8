/** The analyzer as functions: parsers recursive over forms, the environment copied on extension, the
    two counters threaded.  `fuel` bounds the depth of analysis, which macro expansion leaves unbounded. */
module AnalyzerSpec {
  import opened AnalyzerForms
  import opened Options

  const MAX_EXPANSIONS := 1000

  function ExprEnv(env: Env): Env {
    env.(ctx := Expr)
  }

  function WithLocal(env: Env, b: Binder): Env {
    env.(locals := env.locals[b.name := b])
  }

  function WithLocals(env: Env, bs: seq<Binder>): Env
    decreases bs
  {
    if bs == [] then env else WithLocals(WithLocal(env, bs[0]), bs[1..])
  }

  /** The frame stays visible but may not be crossed. */
  function Blocked(env: Env): Env {
    if env.frame.Some? then env.(frame := Some(env.frame.value.(blocked := true))) else env
  }

  const SPECIALS: set<string> := {
    "quote", "if", "do", "def", "let*", "loop*", "recur", "var", "set!", "binding", "fn*", "throw", "try",
    "catch", "finally"
  }

  /** The special a call form names: an unqualified special symbol, or `clojure.core/binding`. */
  function SpecialOf(items: seq<Form>): Option<string> {
    if items != [] && items[0].Sym? && items[0].sym.name in SPECIALS
       && (items[0].sym.ns.None? || (items[0].sym.ns == Some("clojure.core") && items[0].sym.name == "binding"))
    then Some(items[0].sym.name) else None
  }

  // ----- macro expansion to a head that is not a macro -----

  datatype Head = Special(name: string, items: seq<Form>) | Call(items: seq<Form>) | Other(form: Form) | Bad(e: Error)

  /** Specials are looked at before locals and macros, on every round. */
  function ExpandHead(h: Hooks, items: seq<Form>, locals: Locals, i: nat): (head: Head)
    requires items != []
    ensures head.Special? ==> SpecialOf(head.items) == Some(head.name)
    ensures head.Call? ==> head.items != [] && SpecialOf(head.items).None?
    ensures head.Other? ==> !(head.form.Seq? && head.form.items != [])
    decreases MAX_EXPANSIONS - i
  {
    if i >= MAX_EXPANSIONS then Bad(TooManyExpansions)
    else if SpecialOf(items).Some? then Special(SpecialOf(items).value, items)
    else if !h.macros then Call(items)
    else match h.expand(Seq(items), locals)
      case Failed => Bad(ExpansionFailed)
      case Same => Call(items)
      case Expanded(f) =>
        if f.Seq? && f.items != [] then ExpandHead(h, f.items, locals, i + 1) else Other(f)
  }

  // ----- names -----

  predicate HasDot(s: string) {
    '.' in s
  }

  predicate Simple(f: Form) {
    f.Sym? && f.sym.ns.None? && !HasDot(f.sym.name)
  }

  predicate Even(n: nat) {
    n % 2 == 0
  }

  /** Parameter names in order, `&` allowed once and only before the last. */
  function ParamNames(ps: seq<Form>, i: nat, variadic: bool): Option<(seq<string>, bool)>
    requires i <= |ps|
    decreases |ps| - i
  {
    if i == |ps| then Some(([], variadic))
    else if ps[i] == Sym(Symbol(None, "&")) then
      if variadic || i != |ps| - 2 then None else ParamNames(ps, i + 1, true)
    else if !Simple(ps[i]) then None
    else match ParamNames(ps, i + 1, variadic)
      case None => None
      case Some((names, v)) => Some(([ps[i].sym.name] + names, v))
  }

  function Binders(names: seq<string>, kind: Kind, id: nat): (bs: seq<Binder>)
    ensures |bs| == |names|
    ensures forall i | 0 <= i < |names| :: bs[i] == Binder(names[i], kind, id + i)
  {
    seq(|names|, i requires 0 <= i < |names| => Binder(names[i], kind, id + i))
  }

  /** "catch" or "finally" for a clause of `try`, else "". */
  function ClauseOp(f: Form): string {
    if f.Seq? && f.items != [] && f.items[0].Sym? && f.items[0].sym.ns.None?
       && f.items[0].sym.name in {"catch", "finally"}
    then f.items[0].sym.name else ""
  }

  function FixedArity(m: Method): nat {
    if m.variadic && |m.params| > 0 then |m.params| - 1 else |m.params|
  }

  /** What the overloads seen so far allow. */
  datatype Arities = Arities(fixed: set<nat>, variadic: Option<nat>)

  function AddArity(a: Arities, m: Method): Option<Arities> {
    if m.variadic then
      if a.variadic.Some? then None else Some(a.(variadic := Some(FixedArity(m))))
    else if FixedArity(m) in a.fixed then None
    else Some(a.(fixed := a.fixed + {FixedArity(m)}))
  }

  predicate ArityOrder(a: Arities) {
    a.variadic.Some? ==> forall n <- a.fixed :: n <= a.variadic.value
  }

  // ----- the parsers -----

  predicate Grows(st: St, st1: St) {
    st.gensym <= st1.gensym && st.alloc <= st1.alloc
  }

  function AnalyzeForm(h: Hooks, form: Form, env: Env, st: St, fuel: nat): (r: Res<Node>)
    ensures Grows(st, r.st)
    decreases fuel, 3, 0
  {
    if fuel == 0 then Err(OutOfFuel, st)
    else match form
      case Sym(s) => AnalyzeSymbol(h, s, env, st)
      case Vec(items) =>
        (match AnalyzeAll(h, items, ExprEnv(env), st, fuel - 1)
         case Ok(ns, st1) => Ok(VectorN(ns), st1)
         case Err(e, st1) => Err(e, st1))
      case Map(items) =>
        (match AnalyzeAll(h, items, ExprEnv(env), st, fuel - 1)
         case Ok(ns, st1) => Ok(MapN(ns), st1)
         case Err(e, st1) => Err(e, st1))
      case Set(items) =>
        (match AnalyzeAll(h, items, ExprEnv(env), st, fuel - 1)
         case Ok(ns, st1) => Ok(SetN(ns), st1)
         case Err(e, st1) => Err(e, st1))
      case Seq(items) =>
        if items == [] then Ok(Const(form), st)
        else (match ExpandHead(h, items, env.locals, 0)
              case Special(name, f) => ParseSpecial(h, name, f, env, st, fuel - 1)
              case Call(f) => ParseInvoke(h, f, env, st, fuel - 1)
              case Other(f) => AnalyzeForm(h, f, env, st, fuel - 1)
              case Bad(e) => Err(e, st))
      case _ => Ok(Const(form), st)
  }

  /** Locals shadow vars; the host is the last resort, for qualified symbols only. */
  function AnalyzeSymbol(h: Hooks, s: Symbol, env: Env, st: St): (r: Res<Node>)
    ensures Grows(st, r.st)
  {
    if s.ns.None? && s.name in env.locals then Ok(Local(s.name, env.locals[s.name]), st)
    else if h.resolveVar(s).Some? then Ok(VarN(s, h.resolveVar(s).value), st)
    else if s.ns.Some? && h.resolveHost(s).Some? then Ok(HostRef(h.resolveHost(s).value), st)
    else Err(Unresolved, st)
  }

  function AnalyzeAll(h: Hooks, forms: seq<Form>, env: Env, st: St, fuel: nat): (r: Res<seq<Node>>)
    ensures Grows(st, r.st)
    decreases fuel, 4, |forms|
  {
    if forms == [] then Ok([], st)
    else match AnalyzeForm(h, forms[0], env, st, fuel)
      case Err(e, st1) => Err(e, st1)
      case Ok(n, st1) =>
        match AnalyzeAll(h, forms[1..], env, st1, fuel)
        case Err(e, st2) => Err(e, st2)
        case Ok(ns, st2) => Ok([n] + ns, st2)
  }

  /** An implicit `do`: statements, then the value, in the context of the whole. */
  function AnalyzeBody(h: Hooks, body: seq<Form>, env: Env, st: St, fuel: nat): (r: Res<Node>)
    ensures Grows(st, r.st)
    decreases fuel, 5, 0
  {
    if body == [] then Ok(Do([], Const(Nil)), st)
    else match AnalyzeAll(h, body[..|body| - 1], env.(ctx := Statement), st, fuel)
      case Err(e, st1) => Err(e, st1)
      case Ok(stmts, st1) =>
        match AnalyzeForm(h, body[|body| - 1], env, st1, fuel)
        case Err(e, st2) => Err(e, st2)
        case Ok(ret, st2) => Ok(Do(stmts, ret), st2)
  }

  function ParseSpecial(h: Hooks, name: string, items: seq<Form>, env: Env, st: St, fuel: nat): (r: Res<Node>)
    requires items != []
    ensures Grows(st, r.st)
    decreases fuel, 8, 0
  {
    var args := items[1..];
    if name == "quote" then (if |args| == 1 then Ok(Quote(args[0]), st) else Err(BadArity, st))
    else if name == "if" then ParseIf(h, args, env, st, fuel)
    else if name == "do" then AnalyzeBody(h, args, env, st, fuel)
    else if name == "def" then ParseDef(h, args, env, st, fuel)
    else if name == "let*" then ParseLetOrLoop(h, args, env, st, fuel, false)
    else if name == "loop*" then ParseLetOrLoop(h, args, env, st, fuel, true)
    else if name == "recur" then ParseRecur(h, args, env, st, fuel)
    else if name == "var" then
      (if |args| != 1 then Err(BadArity, st)
       else if !args[0].Sym? then Err(NotASymbol, st)
       else if h.resolveVar(args[0].sym).None? then Err(Unresolved, st)
       else Ok(TheVar(h.resolveVar(args[0].sym).value), st))
    else if name == "set!" then ParseSetBang(h, args, env, st, fuel)
    else if name == "binding" then ParseBinding(h, args, env, st, fuel)
    else if name == "fn*" then ParseFnStar(h, args, env, st, fuel)
    else if name == "throw" then
      (if |args| != 1 then Err(BadArity, st)
       else match AnalyzeForm(h, args[0], ExprEnv(env), st, fuel)
         case Ok(n, st1) => Ok(Throw(n), st1)
         case Err(e, st1) => Err(e, st1))
    else if name == "try" then ParseTry(h, args, env, st, fuel)
    else Err(MisplacedClause, st)
  }

  function ParseIf(h: Hooks, args: seq<Form>, env: Env, st: St, fuel: nat): (r: Res<Node>)
    ensures Grows(st, r.st)
    decreases fuel, 7, 0
  {
    if |args| != 2 && |args| != 3 then Err(BadArity, st)
    else match AnalyzeForm(h, args[0], ExprEnv(env), st, fuel)
      case Err(e, st1) => Err(e, st1)
      case Ok(test, st1) =>
        match AnalyzeForm(h, args[1], env, st1, fuel)
        case Err(e, st2) => Err(e, st2)
        case Ok(thn, st2) =>
          if |args| == 2 then Ok(If(test, thn, Const(Nil)), st2)
          else match AnalyzeForm(h, args[2], env, st2, fuel)
            case Err(e, st3) => Err(e, st3)
            case Ok(els, st3) => Ok(If(test, thn, els), st3)
  }

  /** `(def sym)`, `(def sym init)`, `(def sym "doc" init)`. */
  function ParseDef(h: Hooks, args: seq<Form>, env: Env, st: St, fuel: nat): (r: Res<Node>)
    ensures Grows(st, r.st)
    decreases fuel, 7, 0
  {
    if |args| < 1 || |args| > 3 || (|args| == 3 && !args[1].Str?) then Err(BadArity, st)
    else if !args[0].Sym? then Err(NotASymbol, st)
    else if h.internVar(args[0].sym).None? then Err(Unresolved, st)
    else
      var inits := if |args| == 1 then [] else [args[|args| - 1]];
      match AnalyzeAll(h, inits, ExprEnv(env), st, fuel)
      case Err(e, st1) => Err(e, st1)
      case Ok(init, st1) => Ok(Def(args[0].sym, h.internVar(args[0].sym).value, init), st1)
  }

  /** Bindings are sequential: each init sees the names before it. */
  function ParseBinds(h: Hooks, bvec: seq<Form>, kind: Kind, env: Env, st: St, fuel: nat): (r: Res<(seq<LetBind>, Env)>)
    requires Even(|bvec|)
    ensures Grows(st, r.st)
    decreases fuel, 6, |bvec|
  {
    if bvec == [] then Ok(([], env), st)
    else if !Simple(bvec[0]) then Err(BadName, st)
    else match AnalyzeForm(h, bvec[1], ExprEnv(env), st, fuel)
      case Err(e, st1) => Err(e, st1)
      case Ok(init, st1) =>
        var b := Binder(bvec[0].sym.name, kind, st1.alloc);
        match ParseBinds(h, bvec[2..], kind, WithLocal(env, b), st1.(alloc := st1.alloc + 1), fuel)
        case Err(e, st2) => Err(e, st2)
        case Ok((binds, env2), st2) => Ok(([LetBind(b, init)] + binds, env2), st2)
  }

  /** `let*`, and `loop*` whose body is a fresh recur target in return context. */
  function ParseLetOrLoop(h: Hooks, args: seq<Form>, env: Env, st: St, fuel: nat, isLoop: bool): (r: Res<Node>)
    ensures Grows(st, r.st)
    decreases fuel, 7, 0
  {
    if |args| < 1 || !args[0].Vec? || !Even(|args[0].items|) then Err(BadBindings, st)
    else match ParseBinds(h, args[0].items, if isLoop then KLoop else KLet, env, st, fuel)
      case Err(e, st1) => Err(e, st1)
      case Ok((binds, env1), st1) =>
        if isLoop then
          var id := LoopId(false, st1.gensym + 1);
          match AnalyzeBody(h, args[1..], env1.(ctx := Return, frame := Some(Frame(id, |binds|, false))),
                            st1.(gensym := st1.gensym + 1), fuel)
          case Err(e, st2) => Err(e, st2)
          case Ok(body, st2) => Ok(Loop(binds, body, id), st2)
        else
          match AnalyzeBody(h, args[1..], env1, st1, fuel)
          case Err(e, st2) => Err(e, st2)
          case Ok(body, st2) => Ok(Let(binds, body), st2)
  }

  /** Tail position of an unblocked frame of the same arity; arguments see no frame. */
  function ParseRecur(h: Hooks, args: seq<Form>, env: Env, st: St, fuel: nat): (r: Res<Node>)
    ensures Grows(st, r.st)
    decreases fuel, 7, 0
  {
    if env.frame.None? || env.ctx != Return then Err(RecurNotTail, st)
    else if env.frame.value.blocked then Err(RecurAcrossTry, st)
    else if |args| != env.frame.value.arity then Err(RecurArity, st)
    else match AnalyzeAll(h, args, env.(ctx := Expr, frame := None), st, fuel)
      case Err(e, st1) => Err(e, st1)
      case Ok(ns, st1) => Ok(Recur(ns, env.frame.value.id), st1)
  }

  predicate Assignable(n: Node) {
    n.VarN? || (n.Host? && n.assignable)
  }

  function ParseSetBang(h: Hooks, args: seq<Form>, env: Env, st: St, fuel: nat): (r: Res<Node>)
    ensures Grows(st, r.st)
    decreases fuel, 7, 0
  {
    if |args| != 2 then Err(BadArity, st)
    else match AnalyzeForm(h, args[0], ExprEnv(env), st, fuel)
      case Err(e, st1) => Err(e, st1)
      case Ok(target, st1) =>
        if !Assignable(target) then Err(NotAssignable, st1)
        else match AnalyzeForm(h, args[1], ExprEnv(env), st1, fuel)
          case Err(e, st2) => Err(e, st2)
          case Ok(val, st2) => Ok(SetBang(target, val), st2)
  }

  /** Names are vars, whatever the locals say; values see none of the bindings. */
  function ParseDynBinds(h: Hooks, bvec: seq<Form>, env: Env, st: St, fuel: nat): (r: Res<(seq<int>, seq<Node>)>)
    requires Even(|bvec|)
    ensures Grows(st, r.st)
    decreases fuel, 6, |bvec|
  {
    if bvec == [] then Ok(([], []), st)
    else if !bvec[0].Sym? then Err(NotASymbol, st)
    else if h.resolveVar(bvec[0].sym).None? then Err(Unresolved, st)
    else match AnalyzeForm(h, bvec[1], ExprEnv(env), st, fuel)
      case Err(e, st1) => Err(e, st1)
      case Ok(val, st1) =>
        match ParseDynBinds(h, bvec[2..], env, st1, fuel)
        case Err(e, st2) => Err(e, st2)
        case Ok((vars, vals), st2) => Ok(([h.resolveVar(bvec[0].sym).value] + vars, [val] + vals), st2)
  }

  function ParseBinding(h: Hooks, args: seq<Form>, env: Env, st: St, fuel: nat): (r: Res<Node>)
    ensures Grows(st, r.st)
    decreases fuel, 7, 0
  {
    if |args| < 1 || !args[0].Vec? || !Even(|args[0].items|) then Err(BadBindings, st)
    else match ParseDynBinds(h, args[0].items, env, st, fuel)
      case Err(e, st1) => Err(e, st1)
      case Ok((vars, vals), st1) =>
        match AnalyzeBody(h, args[1..], Blocked(env), st1, fuel)
        case Err(e, st2) => Err(e, st2)
        case Ok(body, st2) => Ok(DynBind(vars, vals, body), st2)
  }

  datatype Clauses = Clauses(body: seq<Form>, catches: seq<Catch>, fin: seq<Node>)

  /** Body forms, then catch clauses, then at most one finally, analyzed as they are met. */
  function ParseClauses(h: Hooks, forms: seq<Form>, env: Env, st: St, fuel: nat, acc: Clauses, inClauses: bool): (r: Res<Clauses>)
    ensures Grows(st, r.st)
    decreases fuel, 6, |forms|
  {
    if forms == [] then Ok(acc, st)
    else
      var f := forms[0];
      var op := ClauseOp(f);
      if op == "" then
        if inClauses then Err(ClauseOrder, st)
        else ParseClauses(h, forms[1..], env, st, fuel, acc.(body := acc.body + [f]), false)
      else if acc.fin != [] then Err(ClauseOrder, st)
      else if op == "catch" then
        match ParseCatch(h, f.items[1..], env, st, fuel)
        case Err(e, st1) => Err(e, st1)
        case Ok(c, st1) => ParseClauses(h, forms[1..], env, st1, fuel, acc.(catches := acc.catches + [c]), true)
      else
        match AnalyzeBody(h, f.items[1..], env.(ctx := Statement), st, fuel)
        case Err(e, st1) => Err(e, st1)
        case Ok(n, st1) => ParseClauses(h, forms[1..], env, st1, fuel, acc.(fin := [n]), true)
  }

  function ParseCatch(h: Hooks, parts: seq<Form>, env: Env, st: St, fuel: nat): (r: Res<Catch>)
    ensures Grows(st, r.st)
    decreases fuel, 5, 1
  {
    if |parts| < 2 || !parts[0].Sym? then Err(BadCatch, st)
    else if !Simple(parts[1]) then Err(BadName, st)
    else
      var b := Binder(parts[1].sym.name, KCatch, st.alloc);
      match AnalyzeBody(h, parts[2..], WithLocal(env, b), st.(alloc := st.alloc + 1), fuel)
      case Err(e, st1) => Err(e, st1)
      case Ok(body, st1) => Ok(Catch(parts[0].sym, b, body), st1)
  }

  /** Clauses are analyzed before the body, all under the blocked frame. */
  function ParseTry(h: Hooks, args: seq<Form>, env: Env, st: St, fuel: nat): (r: Res<Node>)
    ensures Grows(st, r.st)
    decreases fuel, 7, 0
  {
    match ParseClauses(h, args, Blocked(env), st, fuel, Clauses([], [], []), false)
    case Err(e, st1) => Err(e, st1)
    case Ok(c, st1) =>
      match AnalyzeBody(h, c.body, Blocked(env), st1, fuel)
      case Err(e, st2) => Err(e, st2)
      case Ok(body, st2) => Ok(Try(body, c.catches, c.fin), st2)
  }

  /** The forms of a `fn*` after its optional name, the one-method shorthand made explicit. */
  function MethodForms(rest: seq<Form>): seq<Form> {
    if rest != [] && rest[0].Vec? then [Seq(rest)] else rest
  }

  function ParseFnStar(h: Hooks, args: seq<Form>, env: Env, st: St, fuel: nat): (r: Res<Node>)
    ensures Grows(st, r.st)
    decreases fuel, 7, 0
  {
    var named := args != [] && args[0].Sym?;
    if named && args[0].sym.ns.Some? then Err(BadName, st)
    else
      var ms := MethodForms(if named then args[1..] else args);
      if ms == [] then Err(NoMethod, st)
      else
        var self := if named then Some(Binder(args[0].sym.name, KFn, st.alloc)) else None;
        var env1 := if named then WithLocal(env, self.value) else env;
        var st1 := if named then st.(alloc := st.alloc + 1) else st;
        match ParseMethods(h, ms, env1, st1, fuel, Arities({}, None))
        case Err(e, st2) => Err(e, st2)
        case Ok((methods, a), st2) =>
          if ArityOrder(a) then Ok(Fn(self, methods), st2) else Err(FixedBeyondVariadic, st2)
  }

  function ParseMethods(h: Hooks, ms: seq<Form>, env: Env, st: St, fuel: nat, a: Arities): (r: Res<(seq<Method>, Arities)>)
    ensures Grows(st, r.st)
    decreases fuel, 6, |ms|
  {
    if ms == [] then Ok(([], a), st)
    else if !ms[0].Seq? then Err(BadMethod, st)
    else match ParseMethod(h, ms[0].items, env, st, fuel)
      case Err(e, st1) => Err(e, st1)
      case Ok(m, st1) =>
        match AddArity(a, m)
        case None => Err(if m.variadic then TwoVariadic else SameArity, st1)
        case Some(a1) =>
          match ParseMethods(h, ms[1..], env, st1, fuel, a1)
          case Err(e, st2) => Err(e, st2)
          case Ok((methods, a2), st2) => Ok(([m] + methods, a2), st2)
  }

  /** Each method is its own recur target, of as many arguments as it has parameters. */
  function ParseMethod(h: Hooks, parts: seq<Form>, env: Env, st: St, fuel: nat): (r: Res<Method>)
    ensures Grows(st, r.st)
    decreases fuel, 5, 1
  {
    if parts == [] || !parts[0].Vec? then Err(BadMethod, st)
    else match ParamNames(parts[0].items, 0, false)
      case None => Err(BadParams, st)
      case Some((names, variadic)) =>
        var params := Binders(names, KArg, st.alloc);
        var id := LoopId(true, st.gensym + 1);
        var env1 := WithLocals(env, params).(ctx := Return, frame := Some(Frame(id, |params|, false)));
        match AnalyzeBody(h, parts[1..], env1, St(st.gensym + 1, st.alloc + |params|), fuel)
        case Err(e, st1) => Err(e, st1)
        case Ok(body, st1) => Ok(Method(params, variadic, body, id), st1)
  }

  /** The call under its final name.  A renamed constructor `->T` is no constructor form itself. */
  function CallShape(h: Hooks, items: seq<Form>): (seq<Form>, HostShape)
    requires items != []
  {
    match h.hostShape(items)
    case Renamed(op) =>
      var renamed := [Sym(op)] + items[1..];
      (renamed, if h.hostShape(renamed).Renamed? then Malformed else h.hostShape(renamed))
    case shape => (items, shape)
  }

  function ParseInvoke(h: Hooks, items: seq<Form>, env: Env, st: St, fuel: nat): (r: Res<Node>)
    requires items != []
    ensures Grows(st, r.st)
    decreases fuel, 5, 2
  {
    if items[0] == Nil then Err(CallNil, st)
    else
      var (call, shape) := CallShape(h, items);
      match shape
      case HostCall(children, assignable, maps) =>
        (match AnalyzeAll(h, children, ExprEnv(env), st, fuel)
         case Err(e, st1) => Err(e, st1)
         case Ok(ns, st1) => if maps && !AllMaps(ns) then Err(HostError, st1) else Ok(Host(ns, assignable), st1))
      case NotHost =>
        (match AnalyzeForm(h, call[0], ExprEnv(env), st, fuel)
         case Err(e, st1) => Err(e, st1)
         case Ok(fn, st1) =>
           match AnalyzeAll(h, call[1..], ExprEnv(env), st1, fuel)
           case Err(e, st2) => Err(e, st2)
           case Ok(args, st2) => Ok(Invoke(fn, args), st2))
      case _ => Err(HostError, st)
  }

  /** A top-level form: no locals, expression context, no frame. */
  function Analyze(h: Hooks, form: Form, st: St, fuel: nat): (r: Res<Node>)
    ensures Grows(st, r.st)
  {
    AnalyzeForm(h, form, Env(map[], Expr, None), st, fuel)
  }
}
