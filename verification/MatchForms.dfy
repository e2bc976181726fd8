/** The forms `-match-compile` emits and what they mean.

    The emitted language is plain clojure.core: `let`, `if`, `and`, zero-argument `fn`, a handful of
    accessors and tests, and user code (guard predicates, actions, match expressions).  User code is
    opaque: it is known by an id and by the symbols it mentions freely, so that capture by an emitted
    `let` is visible in the model. */
module MatchForms {

  datatype Lit = LNil | LBool(b: bool) | LInt(n: int) | LStr(s: string) | LKw(name: string)

  /** The internal marker bound in place of an absent map key. */
  const NOT_FOUND := LKw("clojure.core.match/not-found")

  /** A map is known by its scalar keys: a map pattern can name no other key. */
  datatype Value =
    | Scalar(lit: Lit)
    | Vec(items: seq<Value>)
    | Lst(items: seq<Value>)
    | Map(entries: map<Lit, Value>)

  const ABSENT := Scalar(NOT_FOUND)

  predicate IsSequential(v: Value) {
    v.Vec? || v.Lst?
  }

  predicate Truthy(v: Value) {
    v != Scalar(LNil) && v != Scalar(LBool(false))
  }

  /** `User` symbols come from the clauses; `Gen` symbols from the compiler's counter. */
  datatype Sym = User(name: string) | Gen(prefix: string, n: nat)

  datatype Guard = Guard(pred: nat, free: seq<Sym>, arg: Sym)
  datatype Action = Action(id: nat, free: seq<Sym>)
  datatype Expr = Expr(id: nat, free: seq<Sym>)

  datatype Op =
    | NilP | VectorP | SequentialP | MapP
    | Eq | NotEq | Ge
    | Count | Nth | GetKey | Subvec | Nthrest

  datatype Form =
    | FSym(s: Sym)
    | FLit(lit: Lit)
    | FCall(op: Op, args: seq<Form>)
    | FAnd(args: seq<Form>)
    | FIf(test: Form, thn: Form, els: Form)
    | FLet(binds: seq<Binding>, body: Form)
    | FFn(body: Form)
    | FThunk(s: Sym)
    | FThrow
    | FGuard(guard: Guard)
    | FAction(action: Action)
    | FExpr(expr: Expr)

  datatype Binding = Binding(sym: Sym, form: Form)

  /** `Done` is the observation that an action ran and which values its free symbols had.
      `Stuck` is everything that must not happen: an unbound symbol, an index out of range, a call
      of something that is not a thunk. */
  datatype Result = Val(v: Value) | Done(id: nat, seen: seq<Value>) | NoMatch | Stuck

  /** A zero-argument closure over pure code denotes the result of its body. */
  datatype Den = DVal(v: Value) | DThunk(r: Result)
  type Env = map<Sym, Den>

  /** Guards are pure and total; so are the match expressions. */
  datatype Sem = Sem(truth: (nat, seq<Value>, Value) -> bool, expr: (nat, seq<Value>) -> Value)

  datatype ArgsRes = AVals(vs: seq<Value>) | AStop(r: Result)
  datatype BindRes = BEnv(env: Env) | BStop(r: Result)

  function Bool(b: bool): Value {
    Scalar(LBool(b))
  }

  function GetOr(v: Value, k: Lit, d: Value): Value {
    if v.Map? && k in v.entries then v.entries[k] else d
  }

  function NthRest(v: Value, n: nat): Value
    requires IsSequential(v) && n <= |v.items|
  {
    if n == 0 then v else Lst(v.items[n..])
  }

  function Prim(op: Op, vs: seq<Value>): Result {
    match op
    case NilP => if |vs| == 1 then Val(Bool(vs[0] == Scalar(LNil))) else Stuck
    case VectorP => if |vs| == 1 then Val(Bool(vs[0].Vec?)) else Stuck
    case SequentialP => if |vs| == 1 then Val(Bool(IsSequential(vs[0]))) else Stuck
    case MapP => if |vs| == 1 then Val(Bool(vs[0].Map?)) else Stuck
    case Eq => if |vs| == 2 then Val(Bool(vs[0] == vs[1])) else Stuck
    case NotEq => if |vs| == 2 then Val(Bool(vs[0] != vs[1])) else Stuck
    case Ge =>
      if |vs| == 2 && vs[0].Scalar? && vs[0].lit.LInt? && vs[1].Scalar? && vs[1].lit.LInt?
      then Val(Bool(vs[0].lit.n >= vs[1].lit.n)) else Stuck
    case Count =>
      if |vs| == 1 && IsSequential(vs[0]) then Val(Scalar(LInt(|vs[0].items|))) else Stuck
    case Nth =>
      if |vs| == 2 && IsSequential(vs[0]) && vs[1].Scalar? && vs[1].lit.LInt?
         && 0 <= vs[1].lit.n < |vs[0].items|
      then Val(vs[0].items[vs[1].lit.n]) else Stuck
    case GetKey =>
      if |vs| == 3 && vs[1].Scalar? then Val(GetOr(vs[0], vs[1].lit, vs[2])) else Stuck
    case Subvec =>
      if |vs| == 2 && vs[0].Vec? && vs[1].Scalar? && vs[1].lit.LInt?
         && 0 <= vs[1].lit.n <= |vs[0].items|
      then Val(Vec(vs[0].items[vs[1].lit.n..])) else Stuck
    case Nthrest =>
      if |vs| == 2 && IsSequential(vs[0]) && vs[1].Scalar? && vs[1].lit.LInt?
         && 0 <= vs[1].lit.n <= |vs[0].items|
      then Val(NthRest(vs[0], vs[1].lit.n)) else Stuck
  }

  predicate AllBound(env: Env, syms: seq<Sym>) {
    forall s <- syms :: s in env && env[s].DVal?
  }

  function Lookups(env: Env, syms: seq<Sym>): (r: seq<Value>)
    requires AllBound(env, syms)
    ensures |r| == |syms|
    ensures forall i | 0 <= i < |syms| :: r[i] == env[syms[i]].v
  {
    seq(|syms|, i requires 0 <= i < |syms| => env[syms[i]].v)
  }

  function Eval(sem: Sem, f: Form, env: Env): Result
    decreases f, 1
  {
    match f
    case FSym(s) => if s in env && env[s].DVal? then Val(env[s].v) else Stuck
    case FLit(l) => Val(Scalar(l))
    case FCall(op, args) =>
      (match EvalArgs(sem, args, env)
       case AVals(vs) => Prim(op, vs)
       case AStop(r) => r)
    case FAnd(args) => EvalAnd(sem, args, env)
    case FIf(test, thn, els) =>
      (match Eval(sem, test, env)
       case Val(v) => if Truthy(v) then Eval(sem, thn, env) else Eval(sem, els, env)
       case r => r)
    case FLet(binds, body) =>
      (match EvalBinds(sem, binds, env)
       case BEnv(env1) => Eval(sem, body, env1)
       case BStop(r) => r)
    case FFn(_) => Stuck
    case FThunk(s) => if s in env && env[s].DThunk? then env[s].r else Stuck
    case FThrow => NoMatch
    case FGuard(g) =>
      if AllBound(env, g.free) && AllBound(env, [g.arg])
      then Val(Bool(sem.truth(g.pred, Lookups(env, g.free), env[g.arg].v))) else Stuck
    case FAction(a) =>
      if AllBound(env, a.free) then Done(a.id, Lookups(env, a.free)) else Stuck
    case FExpr(e) =>
      if AllBound(env, e.free) then Val(sem.expr(e.id, Lookups(env, e.free))) else Stuck
  }

  function EvalArgs(sem: Sem, args: seq<Form>, env: Env): ArgsRes
    decreases args, 0
  {
    if args == [] then AVals([])
    else match Eval(sem, args[0], env)
      case Val(v) =>
        (match EvalArgs(sem, args[1..], env)
         case AVals(vs) => AVals([v] + vs)
         case AStop(r) => AStop(r))
      case r => AStop(r)
  }

  /** `and` short-circuits and answers its last value. */
  function EvalAnd(sem: Sem, args: seq<Form>, env: Env): Result
    decreases args, 0
  {
    if args == [] then Val(Bool(true))
    else if |args| == 1 then Eval(sem, args[0], env)
    else match Eval(sem, args[0], env)
      case Val(v) => if Truthy(v) then EvalAnd(sem, args[1..], env) else Val(v)
      case r => r
  }

  /** `let` binds sequentially; a `fn` on the right-hand side becomes a thunk. */
  function EvalBinds(sem: Sem, binds: seq<Binding>, env: Env): BindRes
    decreases binds, 0
  {
    if binds == [] then BEnv(env)
    else
      assert binds[0].form < binds[0];
      var s, f := binds[0].sym, binds[0].form;
      if f.FFn? then EvalBinds(sem, binds[1..], env[s := DThunk(Eval(sem, f.body, env))])
      else match Eval(sem, f, env)
        case Val(v) => EvalBinds(sem, binds[1..], env[s := DVal(v)])
        case r => BStop(r)
  }
}
