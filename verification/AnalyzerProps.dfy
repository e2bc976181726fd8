/** What an analyzed tree must be, said of the tree alone: it reads the form with lexical scope, every
    `recur` is well placed, and its numbers are fresh. */
module AnalyzerProps {
  import opened AnalyzerForms
  import opened AnalyzerSpec
  import opened Options

  // ----- recur -----

  /** The frame whose tail position a node is in. */
  datatype Target = Target(id: LoopId, arity: nat)

  /** Each `recur` names the innermost loop or method around it, has its arity, and is reached from it
      only through if-branches, the value of a `do` and the body of a `let`: every other child, and
      everything inside `try`, `catch`, `finally` and `binding`, is checked with no target at all. */
  predicate RecurOk(n: Node, t: Option<Target>)
    decreases n, 0
  {
    match n
    case VectorN(items) => NoRecur(items)
    case MapN(items) => NoRecur(items)
    case SetN(items) => NoRecur(items)
    case Do(stmts, ret) => NoRecur(stmts) && RecurOk(ret, t)
    case If(test, thn, els) => RecurOk(test, None) && RecurOk(thn, t) && RecurOk(els, t)
    case Def(_, _, init) => NoRecur(init)
    case Let(binds, body) => InitsOk(binds) && RecurOk(body, t)
    case Loop(binds, body, id) => InitsOk(binds) && RecurOk(body, Some(Target(id, |binds|)))
    case Fn(_, methods) => MethodsOk(methods)
    case Invoke(fn, args) => RecurOk(fn, None) && NoRecur(args)
    case Recur(exprs, id) => t == Some(Target(id, |exprs|)) && NoRecur(exprs)
    case SetBang(target, val) => RecurOk(target, None) && RecurOk(val, None)
    case DynBind(_, vals, body) => NoRecur(vals) && RecurOk(body, None)
    case Host(args, _) => NoRecur(args)
    case Throw(ex) => RecurOk(ex, None)
    case Try(body, catches, fin) => RecurOk(body, None) && CatchesOk(catches) && NoRecur(fin)
    case _ => true
  }

  predicate NoRecur(ns: seq<Node>)
    decreases ns, 0
  {
    ns == [] || (RecurOk(ns[0], None) && NoRecur(ns[1..]))
  }

  predicate InitsOk(bs: seq<LetBind>)
    decreases bs, 0
  {
    bs == [] || (assert bs[0].init < bs[0]; RecurOk(bs[0].init, None) && InitsOk(bs[1..]))
  }

  predicate MethodsOk(ms: seq<Method>)
    decreases ms, 0
  {
    ms == [] || (assert ms[0].body < ms[0]; RecurOk(ms[0].body, Some(Target(ms[0].id, |ms[0].params|))) && MethodsOk(ms[1..]))
  }

  predicate CatchesOk(cs: seq<Catch>)
    decreases cs, 0
  {
    cs == [] || (assert cs[0].body < cs[0]; RecurOk(cs[0].body, None) && CatchesOk(cs[1..]))
  }

  // ----- fresh numbers -----

  /** Loop numbers and binding-site numbers, in the order analysis makes them. */
  datatype Nums = Nums(loops: seq<nat>, sites: seq<nat>)

  function Cat(a: Nums, b: Nums): Nums {
    Nums(a.loops + b.loops, a.sites + b.sites)
  }

  function Ids(n: Node): Nums
    decreases n, 0
  {
    match n
    case VectorN(items) => IdsAll(items)
    case MapN(items) => IdsAll(items)
    case SetN(items) => IdsAll(items)
    case Do(stmts, ret) => Cat(IdsAll(stmts), Ids(ret))
    case If(test, thn, els) => Cat(Cat(Ids(test), Ids(thn)), Ids(els))
    case Def(_, _, init) => IdsAll(init)
    case Let(binds, body) => Cat(IdsBinds(binds), Ids(body))
    case Loop(binds, body, id) => Cat(Cat(IdsBinds(binds), Nums([id.n], [])), Ids(body))
    case Fn(self, methods) => Cat(if self.Some? then Nums([], [self.value.id]) else Nums([], []), IdsMethods(methods))
    case Invoke(fn, args) => Cat(Ids(fn), IdsAll(args))
    case Recur(exprs, _) => IdsAll(exprs)
    case SetBang(target, val) => Cat(Ids(target), Ids(val))
    case DynBind(_, vals, body) => Cat(IdsAll(vals), Ids(body))
    case Host(args, _) => IdsAll(args)
    case Throw(ex) => Ids(ex)
    case Try(body, catches, fin) => Cat(Cat(IdsCatches(catches), IdsAll(fin)), Ids(body))
    case _ => Nums([], [])
  }

  function IdsAll(ns: seq<Node>): Nums
    decreases ns, 0
  {
    if ns == [] then Nums([], []) else Cat(Ids(ns[0]), IdsAll(ns[1..]))
  }

  function IdsBinds(bs: seq<LetBind>): Nums
    decreases bs, 0
  {
    if bs == [] then Nums([], [])
    else
      assert bs[0].init < bs[0];
      Cat(Cat(Ids(bs[0].init), Nums([], [bs[0].binder.id])), IdsBinds(bs[1..]))
  }

  function BinderIds(bs: seq<Binder>): (r: seq<nat>)
    ensures |r| == |bs| && forall i | 0 <= i < |bs| :: r[i] == bs[i].id
  {
    seq(|bs|, i requires 0 <= i < |bs| => bs[i].id)
  }

  function IdsMethod(m: Method): Nums
    decreases m, 0
  {
    Cat(Nums([m.id.n], BinderIds(m.params)), Ids(m.body))
  }

  function IdsMethods(ms: seq<Method>): Nums
    decreases ms, 0
  {
    if ms == [] then Nums([], []) else Cat(IdsMethod(ms[0]), IdsMethods(ms[1..]))
  }

  function IdsCatch(c: Catch): Nums
    decreases c, 0
  {
    Cat(Nums([], [c.binder.id]), Ids(c.body))
  }

  function IdsCatches(cs: seq<Catch>): Nums
    decreases cs, 0
  {
    if cs == [] then Nums([], []) else Cat(IdsCatch(cs[0]), IdsCatches(cs[1..]))
  }

  function Range(a: nat, b: nat): (r: seq<nat>)
    requires a <= b
    ensures |r| == b - a
    ensures forall i | 0 <= i < |r| :: r[i] == a + i
  {
    seq(b - a, i requires 0 <= i => a + i)
  }

  /** Exactly the numbers handed out between the two states, in order; loops count from one. */
  predicate Fresh(ids: Nums, st: St, st1: St) {
    Grows(st, st1) && ids == Nums(Range(st.gensym + 1, st1.gensym + 1), Range(st.alloc, st1.alloc))
  }

  // ----- how forms are written -----

  /** A symbol without namespace or dot. */
  predicate PlainName(f: Form, s: string) {
    f == Sym(Symbol(None, s)) && '.' !in s
  }

  const AMPERSAND := Sym(Symbol(None, "&"))

  predicate IsParam(f: Form, s: string) {
    PlainName(f, s) && s != "&"
  }

  /** `[a b c]` names three parameters; `[a b & c]` the same three, of which the last takes the rest. */
  predicate ParamShape(ps: seq<Form>, names: seq<string>, variadic: bool) {
    var n := |names|;
    if variadic then
      && n > 0 && |ps| == n + 1 && ps[n - 1] == AMPERSAND && IsParam(ps[n], names[n - 1])
      && forall i | 0 <= i < n - 1 :: IsParam(ps[i], names[i])
    else |ps| == n && forall i | 0 <= i < n :: IsParam(ps[i], names[i])
  }

  /** A clause of `try`: a call of that unqualified name. */
  predicate IsClause(f: Form, name: string) {
    f.Seq? && f.items != [] && f.items[0] == Sym(Symbol(None, name))
  }

  predicate StartsClauses(f: Form) {
    IsClause(f, "catch") || IsClause(f, "finally")
  }

  // ----- the tree reads the form, with lexical scope -----

  function LocalsWith(locals: Locals, bs: seq<Binder>): Locals
    decreases bs
  {
    if bs == [] then locals else LocalsWith(locals[bs[0].name := bs[0]], bs[1..])
  }

  function LetLocals(locals: Locals, bs: seq<LetBind>): Locals
    decreases bs
  {
    if bs == [] then locals else LetLocals(locals[bs[0].binder.name := bs[0].binder], bs[1..])
  }

  /** n is the form, expanded, with every unqualified name in scope read as its innermost binder and every
      other name as a var (or host member); children read the sub-forms in their places, under the scope
      those places have: sequential for `let*` and `loop*`, the self-name and parameters for methods, the
      caught name for `catch`, and no change for `binding`. */
  ghost predicate Reads(h: Hooks, f: Form, locals: Locals, n: Node)
    decreases n, 3, if f.Seq? && f.items != [] then 1 else 0
  {
    match f
    case Sym(s) =>
      if s.ns.None? && s.name in locals then n == Local(s.name, locals[s.name])
      else if h.resolveVar(s).Some? then n == VarN(s, h.resolveVar(s).value)
      else s.ns.Some? && h.resolveHost(s).Some? && n == HostRef(h.resolveHost(s).value)
    case Vec(items) => n.VectorN? && ReadsAll(h, items, locals, n.items)
    case Map(items) => n.MapN? && ReadsAll(h, items, locals, n.items)
    case Set(items) => n.SetN? && ReadsAll(h, items, locals, n.items)
    case Seq(items) =>
      if items == [] then n == Const(f)
      else (match ExpandHead(h, items, locals, 0)
            case Special(name, g) => ReadsSpecial(h, name, g[1..], locals, n)
            case Call(g) => ReadsCall(h, g, locals, n)
            case Other(g) => Reads(h, g, locals, n)
            case Bad(_) => false)
    case _ => n == Const(f)
  }

  ghost predicate ReadsAll(h: Hooks, fs: seq<Form>, locals: Locals, ns: seq<Node>)
    decreases ns, 3
  {
    |fs| == |ns| && (ns == [] || (Reads(h, fs[0], locals, ns[0]) && ReadsAll(h, fs[1..], locals, ns[1..])))
  }

  ghost predicate ReadsBody(h: Hooks, body: seq<Form>, locals: Locals, n: Node)
    decreases n, 1
  {
    n.Do? &&
    if body == [] then n == Do([], Const(Nil))
    else ReadsAll(h, body[..|body| - 1], locals, n.stmts) && Reads(h, body[|body| - 1], locals, n.ret)
  }

  ghost predicate ReadsCall(h: Hooks, items: seq<Form>, locals: Locals, n: Node)
    requires items != []
    decreases n, 2
  {
    && items[0] != Nil
    && match h.hostShape(items)
       case Renamed(op) => ReadsUnder(h, [Sym(op)] + items[1..], locals, n)
       case _ => ReadsUnder(h, items, locals, n)
  }

  /** The call under its final name. */
  ghost predicate ReadsUnder(h: Hooks, items: seq<Form>, locals: Locals, n: Node)
    requires items != []
    decreases n, 1
  {
    match h.hostShape(items)
    case HostCall(children, assignable, maps) =>
      && n.Host? && n.assignable == assignable
      && (maps ==> forall c <- n.args :: c.MapN?) && ReadsAll(h, children, locals, n.args)
    case NotHost => n.Invoke? && Reads(h, items[0], locals, n.fn) && ReadsAll(h, items[1..], locals, n.args)
    case _ => false
  }

  ghost predicate ReadsSpecial(h: Hooks, name: string, args: seq<Form>, locals: Locals, n: Node)
    decreases n, 2
  {
    match n
    case Quote(datum) => name == "quote" && args == [datum]
    case If(test, thn, els) =>
      && name == "if" && (|args| == 2 || |args| == 3)
      && Reads(h, args[0], locals, test) && Reads(h, args[1], locals, thn)
      && (if |args| == 2 then els == Const(Nil) else Reads(h, args[2], locals, els))
    case Do(_, _) => name == "do" && ReadsBody(h, args, locals, n)
    case Def(s, v, init) =>
      && name == "def" && 1 <= |args| <= 3 && (|args| == 3 ==> args[1].Str?)
      && args[0] == Sym(s) && h.internVar(s) == Some(v)
      && (if |args| == 1 then init == [] else ReadsAll(h, [args[|args| - 1]], locals, init))
    case Let(binds, body) =>
      && name == "let*" && |args| >= 1 && args[0].Vec?
      && ReadsBinds(h, args[0].items, KLet, locals, binds)
      && ReadsBody(h, args[1..], LetLocals(locals, binds), body)
    case Loop(binds, body, id) =>
      && name == "loop*" && |args| >= 1 && args[0].Vec? && !id.isFn
      && ReadsBinds(h, args[0].items, KLoop, locals, binds)
      && ReadsBody(h, args[1..], LetLocals(locals, binds), body)
    case Recur(exprs, _) => name == "recur" && ReadsAll(h, args, locals, exprs)
    case TheVar(v) => name == "var" && |args| == 1 && args[0].Sym? && h.resolveVar(args[0].sym) == Some(v)
    case SetBang(target, val) =>
      && name == "set!" && |args| == 2 && Reads(h, args[0], locals, target) && Reads(h, args[1], locals, val)
      && (target.VarN? || (target.Host? && target.assignable))
    case DynBind(vars, vals, body) =>
      && name == "binding" && |args| >= 1 && args[0].Vec?
      && ReadsDynBinds(h, args[0].items, locals, vars, vals)
      && ReadsBody(h, args[1..], locals, body)
    case Fn(self, methods) =>
      && name == "fn*"
      && (if args != [] && args[0].Sym? then
            && args[0].sym.ns.None? && self.Some? && self.value.name == args[0].sym.name && self.value.kind == KFn
            && ReadsFn(h, args[1..], locals[self.value.name := self.value], methods)
          else self.None? && ReadsFn(h, args, locals, methods))
      && methods != [] && OverloadsOk(methods)
    case Throw(ex) => name == "throw" && |args| == 1 && Reads(h, args[0], locals, ex)
    case Try(body, _, _) =>
      && name == "try"
      && ReadsBody(h, BodyForms(args), locals, body)
      && ReadsClauses(h, ClauseForms(args), locals, n, 0)
    case _ => false
  }

  ghost predicate ReadsBinds(h: Hooks, bvec: seq<Form>, kind: Kind, locals: Locals, bs: seq<LetBind>)
    decreases bs, 3
  {
    |bvec| == 2 * |bs| &&
    (bs == [] ||
     (assert bs[0].init < bs[0];
      && PlainName(bvec[0], bs[0].binder.name) && bs[0].binder.kind == kind
      && Reads(h, bvec[1], locals, bs[0].init)
      && ReadsBinds(h, bvec[2..], kind, locals[bs[0].binder.name := bs[0].binder], bs[1..])))
  }

  ghost predicate ReadsDynBinds(h: Hooks, bvec: seq<Form>, locals: Locals, vars: seq<int>, vals: seq<Node>)
    decreases vals, 3
  {
    |bvec| == 2 * |vals| && |vars| == |vals| &&
    (vals == [] ||
     (&& bvec[0].Sym? && h.resolveVar(bvec[0].sym) == Some(vars[0])
      && Reads(h, bvec[1], locals, vals[0])
      && ReadsDynBinds(h, bvec[2..], locals, vars[1..], vals[1..])))
  }

  /** `([x] ...) ([x y] ...)`, or the shorthand `[x] ...` for one method. */
  ghost predicate ReadsFn(h: Hooks, rest: seq<Form>, locals: Locals, ns: seq<Method>)
    decreases ns, 4
  {
    if rest != [] && rest[0].Vec? then ReadsMethods(h, [Seq(rest)], locals, ns) else ReadsMethods(h, rest, locals, ns)
  }

  ghost predicate ReadsMethods(h: Hooks, ms: seq<Form>, locals: Locals, ns: seq<Method>)
    decreases ns, 3
  {
    |ms| == |ns| &&
    (ns == [] ||
     (assert ns[0].body < ns[0];
      && ms[0].Seq? && ms[0].items != [] && ms[0].items[0].Vec? && ns[0].id.isFn
      && ParamShape(ms[0].items[0].items, NamesOf(ns[0].params), ns[0].variadic)
      && (forall b <- ns[0].params :: b.kind == KArg)
      && ReadsBody(h, ms[0].items[1..], LocalsWith(locals, ns[0].params), ns[0].body)
      && ReadsMethods(h, ms[1..], locals, ns[1..])))
  }

  function NamesOf(bs: seq<Binder>): (r: seq<string>)
    ensures |r| == |bs| && forall i | 0 <= i < |bs| :: r[i] == bs[i].name
  {
    seq(|bs|, i requires 0 <= i < |bs| => bs[i].name)
  }

  /** At most one variadic method, others of different lengths, each shorter than the variadic one with its rest
      parameter. */
  predicate OverloadsOk(ms: seq<Method>) {
    forall i, j | 0 <= i < j < |ms| ::
      && !(ms[i].variadic && ms[j].variadic)
      && (!ms[i].variadic && !ms[j].variadic ==> |ms[i].params| != |ms[j].params|)
      && (ms[i].variadic && !ms[j].variadic ==> |ms[j].params| < |ms[i].params|)
      && (!ms[i].variadic && ms[j].variadic ==> |ms[i].params| < |ms[j].params|)
  }

  /** The forms of a `try` before its first clause, and from it on. */
  function BodyForms(fs: seq<Form>): seq<Form> {
    if fs == [] || StartsClauses(fs[0]) then [] else [fs[0]] + BodyForms(fs[1..])
  }

  function ClauseForms(fs: seq<Form>): seq<Form> {
    if fs == [] || StartsClauses(fs[0]) then fs else ClauseForms(fs[1..])
  }

  /** The clauses from the k-th catch on: every `catch` in order, then at most one `finally`, last. */
  ghost predicate ReadsClauses(h: Hooks, fs: seq<Form>, locals: Locals, n: Node, k: nat)
    requires n.Try? && k <= |n.catches|
    decreases n, 1, |n.catches| - k
  {
    if fs == [] then k == |n.catches| && n.fin == []
    else if IsClause(fs[0], "catch") then
      && k < |n.catches|
      && ReadsCatch(h, fs[0].items[1..], locals, n.catches[k])
      && ReadsClauses(h, fs[1..], locals, n, k + 1)
    else
      && IsClause(fs[0], "finally") && fs[1..] == [] && k == |n.catches| && |n.fin| == 1
      && ReadsBody(h, fs[0].items[1..], locals, n.fin[0])
  }

  ghost predicate ReadsCatch(h: Hooks, parts: seq<Form>, locals: Locals, c: Catch)
    decreases c, 3
  {
    && |parts| >= 2 && parts[0] == Sym(c.cls) && PlainName(parts[1], c.binder.name)
    && c.binder.kind == KCatch
    && ReadsBody(h, parts[2..], locals[c.binder.name := c.binder], c.body)
  }
}
