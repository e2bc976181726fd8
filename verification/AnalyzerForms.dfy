/** Read forms, the analyzed tree, and the hooks the runtime injects. */
module AnalyzerForms {
  import opened Options

  datatype Symbol = Symbol(ns: Option<string>, name: string)

  datatype Form =
    | Sym(sym: Symbol)
    | Vec(items: seq<Form>)
    | Map(items: seq<Form>) // key, value, key, value ...
    | Set(items: seq<Form>)
    | Seq(items: seq<Form>)
    | Str(text: string)
    | Nil
    | Atom(id: int)

  /** A binding site: `id` stands for the identity of the source's BindingNode. */
  datatype Kind = KLet | KLoop | KArg | KFn | KCatch
  datatype Binder = Binder(name: string, kind: Kind, id: nat)

  datatype LoopId = LoopId(isFn: bool, n: nat)

  datatype Node =
    | Const(value: Form)
    | VectorN(items: seq<Node>)
    | MapN(items: seq<Node>)
    | SetN(items: seq<Node>)
    | VarN(sym: Symbol, v: int)
    | Local(name: string, binder: Binder)
    | Do(stmts: seq<Node>, ret: Node)
    | If(test: Node, thn: Node, els: Node)
    | Def(defined: Symbol, v: int, init: seq<Node>) // at most one
    | Let(binds: seq<LetBind>, body: Node)
    | Loop(binds: seq<LetBind>, body: Node, id: LoopId)
    | Fn(self: Option<Binder>, methods: seq<Method>)
    | Invoke(fn: Node, args: seq<Node>)
    | Quote(datum: Form)
    | Recur(exprs: seq<Node>, id: LoopId)
    | TheVar(v: int)
    | SetBang(target: Node, val: Node)
    | DynBind(vars: seq<int>, vals: seq<Node>, body: Node)
    | HostRef(member: int)
    | Host(args: seq<Node>, assignable: bool)
    | Throw(ex: Node)
    | Try(body: Node, catches: seq<Catch>, fin: seq<Node>) // at most one finally

  datatype LetBind = LetBind(binder: Binder, init: Node)
  datatype Method = Method(params: seq<Binder>, variadic: bool, body: Node, id: LoopId)
  datatype Catch = Catch(cls: Symbol, binder: Binder, body: Node)

  /** The operator of a call as the host layer sees it: not a host form; a host form with these
      expression children, which a struct constructor wants to be maps; the same call under another name
      (`(T. a)` as `(->T a)`); or malformed. */
  datatype HostShape =
    NotHost | HostCall(children: seq<Form>, assignable: bool, maps: bool) | Renamed(op: Symbol) | Malformed

  predicate AllMaps(ns: seq<Node>) {
    forall n <- ns :: n.MapN?
  }

  datatype Expansion = Same | Expanded(form: Form) | Failed

  type Locals = map<string, Binder>

  datatype Hooks = Hooks(
    macros: bool,
    expand: (Form, Locals) -> Expansion,
    resolveVar: Symbol -> Option<int>,
    internVar: Symbol -> Option<int>,
    resolveHost: Symbol -> Option<int>,
    hostShape: seq<Form> -> HostShape)

  datatype Ctx = Expr | Statement | Return

  datatype Frame = Frame(id: LoopId, arity: nat, blocked: bool)

  datatype Env = Env(locals: Locals, ctx: Ctx, frame: Option<Frame>)

  /** `gensym` numbers loops and methods; `alloc` numbers binding sites. */
  datatype St = St(gensym: nat, alloc: nat)

  datatype Error =
    | OutOfFuel | TooManyExpansions | ExpansionFailed
    | Unresolved | BadArity | NotASymbol | BadBindings | BadName
    | RecurNotTail | RecurAcrossTry | RecurArity
    | NotAssignable | CallNil | HostError
    | ClauseOrder | MisplacedClause | BadCatch
    | NoMethod | BadMethod | BadParams | TwoVariadic | SameArity | FixedBeyondVariadic

  datatype Res<T> = Ok(v: T, st: St) | Err(e: Error, st: St)
}
