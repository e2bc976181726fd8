/** Parsed patterns and what it means for one row of patterns to match: the reference that the
    decision tree is proved against.  Nothing here knows about constructors, matrices or forms. */
module MatchPattern {
  import opened MatchForms
  import opened Options

  /** A pattern node: `binds` name its own occurrence, `guards` bubble up to the whole row. */
  datatype Pat = Pat(head: Head, binds: seq<Sym>, guards: seq<Guard>)
  datatype Head =
    | HWild
    | HLit(lit: Lit)
    | HSeq(isVec: bool, sub: seq<Pat>, rest: Option<Sym>)
    | HMap(keys: seq<Lit>, vals: seq<Pat>)

  const WILD := Pat(HWild, [], [])

  predicate IsWild(p: Pat) {
    p.head.HWild?
  }

  /** A map value pattern that needs only the presence of its key. */
  predicate IsBare(p: Pat) {
    IsWild(p) && p.guards == []
  }

  /** Keys come from a map form, so they are distinct. */
  ghost predicate WellFormed(p: Pat) {
    match p.head
    case HWild => true
    case HLit(_) => true
    case HSeq(_, sub, _) => forall q | q in sub :: WellFormed(q)
    case HMap(keys, vals) =>
      && |keys| == |vals|
      && NoDup(keys)
      && (forall q | q in vals :: WellFormed(q))
  }

  predicate NoDup<T(==)>(s: seq<T>) {
    forall i, j | 0 <= i < j < |s| :: s[i] != s[j]
  }

  /** An absent key reads as the marker. */
  function Get(v: Value, k: Lit): Value {
    GetOr(v, k, ABSENT)
  }

  /** `[p q]` fixes the count, `[p q & r]` bounds it below; a `:seq` pattern also accepts vectors. */
  predicate SeqShape(isVec: bool, arity: nat, hasRest: bool, v: Value) {
    && (if isVec then v.Vec? else IsSequential(v))
    && (if hasRest then |v.items| >= arity else |v.items| == arity)
  }

  /** The shape of p fits v: everything but the guards. */
  ghost predicate Matches(p: Pat, v: Value) {
    match p.head
    case HWild => true
    case HLit(l) => v == Scalar(l)
    case HSeq(isVec, sub, rest) =>
      && SeqShape(isVec, |sub|, rest.Some?, v)
      && (forall i | 0 <= i < |sub| :: Matches(sub[i], v.items[i]))
    case HMap(keys, vals) =>
      && v.Map?
      && (forall j | 0 <= j < |vals| && j < |keys| ::
            if IsBare(vals[j]) then Get(v, keys[j]) != ABSENT else Matches(vals[j], Get(v, keys[j])))
  }

  /** One name bound to one value; `fromKey` marks the value of a map key, which a guard sees raw
      and an action sees with the absent marker turned into nil. */
  datatype Bound = Bound(sym: Sym, v: Value, fromKey: bool)

  ghost function OwnBinds(syms: seq<Sym>, v: Value, fromKey: bool): set<Bound> {
    set s | s in syms :: Bound(s, v, fromKey)
  }

  function RestValue(isVec: bool, v: Value, n: nat): Value
    requires IsSequential(v) && n <= |v.items|
  {
    if isVec then Vec(v.items[n..]) else NthRest(v, n)
  }

  /** Every name p binds when it matches v. */
  ghost function Binds(p: Pat, v: Value, fromKey: bool): set<Bound>
    decreases p
  {
    OwnBinds(p.binds, v, fromKey) +
    match p.head
    case HWild => {}
    case HLit(_) => {}
    case HSeq(isVec, sub, rest) =>
      if !IsSequential(v) || |v.items| < |sub| then {}
      else (set i, b | 0 <= i < |sub| && b in Binds(sub[i], v.items[i], false) :: b) +
           (if rest.Some? then {Bound(rest.value, RestValue(isVec, v, |sub|), false)} else {})
    case HMap(keys, vals) =>
      set j, b | 0 <= j < |vals| && j < |keys| && b in Binds(vals[j], Get(v, keys[j]), true) :: b
  }

  ghost function Guards(p: Pat): set<Guard> {
    (set g | g in p.guards) +
    match p.head
    case HWild => {}
    case HLit(_) => {}
    case HSeq(_, sub, _) => set q, g | q in sub && g in Guards(q) :: g
    case HMap(_, vals) => set q, g | q in vals && g in Guards(q) :: g
  }

  ghost function Names(p: Pat): set<Sym> {
    (set s | s in p.binds) +
    match p.head
    case HWild => {}
    case HLit(_) => {}
    case HSeq(_, sub, rest) =>
      (set q, s | q in sub && s in Names(q) :: s) + (if rest.Some? then {rest.value} else {})
    case HMap(_, vals) => set q, s | q in vals && s in Names(q) :: s
  }

  // ----- a row of patterns against a row of values -----

  /** A value in a column, with whether it was read out of a map key. */
  datatype Slot = Slot(v: Value, fromKey: bool)

  datatype Cell = Cell(p: Pat, x: Slot)

  function Cells(ps: seq<Pat>, xs: seq<Slot>): (cs: seq<Cell>)
    requires |ps| == |xs|
    ensures |cs| == |ps|
    ensures forall i | 0 <= i < |ps| :: cs[i] == Cell(ps[i], xs[i])
  {
    seq(|ps|, i requires 0 <= i < |ps| => Cell(ps[i], xs[i]))
  }

  /** The union of f over a sequence. */
  ghost function Over<A, B>(xs: seq<A>, f: A -> set<B>): set<B> {
    set x, b | x in xs && b in f(x) :: b
  }

  lemma OverAppend<A, B>(xs: seq<A>, ys: seq<A>, f: A -> set<B>)
    ensures Over(xs + ys, f) == Over(xs, f) + Over(ys, f)
  {
  }

  lemma OverOne<A, B>(x: A, f: A -> set<B>)
    ensures Over([x], f) == f(x)
  {
    assert forall b | b in f(x) :: b in Over([x], f) by {
      assert x in [x];
    }
  }

  lemma OverSame<A, B, C>(xs: seq<A>, f: A -> set<C>, ys: seq<B>, g: B -> set<C>)
    requires |xs| == |ys| && forall i | 0 <= i < |xs| :: f(xs[i]) == g(ys[i])
    ensures Over(xs, f) == Over(ys, g)
  {
    forall c ensures c in Over(xs, f) <==> c in Over(ys, g) {
      if c in Over(xs, f) {
        var i :| 0 <= i < |xs| && c in f(xs[i]);
        assert ys[i] in ys && c in g(ys[i]);
      }
      if c in Over(ys, g) {
        var i :| 0 <= i < |ys| && c in g(ys[i]);
        assert xs[i] in xs && c in f(xs[i]);
      }
    }
  }

  ghost function CellBinds(c: Cell): set<Bound> {
    Binds(c.p, c.x.v, c.x.fromKey)
  }

  ghost predicate MatchCells(cs: seq<Cell>) {
    forall c | c in cs :: Matches(c.p, c.x.v)
  }

  ghost predicate MatchAll(ps: seq<Pat>, xs: seq<Slot>)
    requires |ps| == |xs|
  {
    MatchCells(Cells(ps, xs))
  }

  ghost function BindAll(ps: seq<Pat>, xs: seq<Slot>): set<Bound>
    requires |ps| == |xs|
  {
    Over(Cells(ps, xs), CellBinds)
  }

  ghost function GuardAll(ps: seq<Pat>): set<Guard> {
    Over(ps, Guards)
  }

  ghost function NameAll(ps: seq<Pat>): set<Sym> {
    Over(ps, Names)
  }

  // ----- what a guard and an action see -----

  type Scope = map<Sym, Value>

  /** A name means the row's own binding, else the surrounding scope. */
  ghost function Look(rho: Scope, bs: set<Bound>, s: Sym): Value {
    if exists b :: b in bs && b.sym == s then
      (var b :| b in bs && b.sym == s; b.v)
    else if s in rho then rho[s] else Scalar(LNil)
  }

  /** The same for an action: the marker of an absent key never reaches user code. */
  ghost function ActionLook(rho: Scope, bs: set<Bound>, s: Sym): Value {
    if exists b :: b in bs && b.sym == s then
      (var b :| b in bs && b.sym == s; if b.fromKey && b.v == ABSENT then Scalar(LNil) else b.v)
    else if s in rho then rho[s] else Scalar(LNil)
  }

  ghost predicate GuardHolds(sem: Sem, rho: Scope, bs: set<Bound>, g: Guard) {
    sem.truth(g.pred, seq(|g.free|, i requires 0 <= i < |g.free| => Look(rho, bs, g.free[i])), Look(rho, bs, g.arg))
  }

  ghost function RunAction(rho: Scope, bs: set<Bound>, a: Action): Result {
    Done(a.id, seq(|a.free|, i requires 0 <= i < |a.free| => ActionLook(rho, bs, a.free[i])))
  }

  /** Each name has one value: what a row whose names are all different always gives. */
  ghost predicate Functional(bs: set<Bound>) {
    forall b, c | b in bs && c in bs && b.sym == c.sym :: b == c
  }

  // ----- what emitted code may see -----

  ghost predicate BindsName(bs: set<Bound>, s: Sym) {
    exists b | b in bs :: b.sym == s
  }

  ghost predicate From(bs: set<Bound>, s: Sym, v: Value) {
    exists b | b in bs :: b.sym == s && b.v == v
  }

  /** v is what s means outside the row: in the surrounding scope, or left there by an earlier row. */
  ghost predicate Outside(rho: Scope, before: set<Bound>, s: Sym, v: Value) {
    (s in rho && rho[s] == v) || From(before, s, v)
  }

  /** v is one of the row's own bindings of s, or what s means outside if the row has none. */
  ghost predicate Visible(rho: Scope, before: set<Bound>, bs: set<Bound>, s: Sym, v: Value) {
    if BindsName(bs, s) then From(bs, s, v) else Outside(rho, before, s, v)
  }

  ghost predicate Saw(rho: Scope, before: set<Bound>, bs: set<Bound>, names: seq<Sym>, vs: seq<Value>) {
    |vs| == |names| && forall i | 0 <= i < |names| :: Visible(rho, before, bs, names[i], vs[i])
  }

  ghost predicate KeyNamed(bs: set<Bound>, s: Sym) {
    exists b | b in bs :: b.sym == s && b.fromKey
  }

  /** An action sees the marker of an absent key as nil through the row's own names of map keys. */
  ghost function Unmarked(bs: set<Bound>, s: Sym, v: Value): Value {
    if v == ABSENT && KeyNamed(bs, s) then Scalar(LNil) else v
  }

  ghost function UnmarkedAll(bs: set<Bound>, names: seq<Sym>, vs: seq<Value>): (us: seq<Value>)
    requires |names| == |vs|
    ensures |us| == |vs|
    ensures forall i | 0 <= i < |vs| :: us[i] == Unmarked(bs, names[i], vs[i])
  {
    seq(|vs|, i requires 0 <= i < |vs| => Unmarked(bs, names[i], vs[i]))
  }

  /** The guard was true of values its names may show. */
  ghost predicate GuardSaw(sem: Sem, rho: Scope, before: set<Bound>, bs: set<Bound>, g: Guard) {
    exists vs :: Saw(rho, before, bs, g.free + [g.arg], vs) && sem.truth(g.pred, vs[..|g.free|], vs[|g.free|])
  }

  /** The action ran with values its names may show. */
  ghost predicate ActionSaw(rho: Scope, before: set<Bound>, bs: set<Bound>, a: Action, res: Result) {
    exists vs :: Saw(rho, before, bs, a.free, vs) && res == Done(a.id, UnmarkedAll(bs, a.free, vs))
  }

  lemma VisibleMore(rho: Scope, before: set<Bound>, more: set<Bound>, bs: set<Bound>, s: Sym, v: Value)
    requires Visible(rho, before, bs, s, v) && before <= more
    ensures Visible(rho, more, bs, s, v)
  {
  }

  lemma SawMore(rho: Scope, before: set<Bound>, more: set<Bound>, bs: set<Bound>, names: seq<Sym>, vs: seq<Value>)
    requires Saw(rho, before, bs, names, vs) && before <= more
    ensures Saw(rho, more, bs, names, vs)
  {
    hide Visible;
    forall i | 0 <= i < |names| ensures Visible(rho, more, bs, names[i], vs[i]) {
      VisibleMore(rho, before, more, bs, names[i], vs[i]);
    }
  }

  lemma GuardSawMore(sem: Sem, rho: Scope, before: set<Bound>, more: set<Bound>, bs: set<Bound>, g: Guard)
    requires GuardSaw(sem, rho, before, bs, g) && before <= more
    ensures GuardSaw(sem, rho, more, bs, g)
  {
    hide Visible;
    var vs :| Saw(rho, before, bs, g.free + [g.arg], vs) && sem.truth(g.pred, vs[..|g.free|], vs[|g.free|]);
    SawMore(rho, before, more, bs, g.free + [g.arg], vs);
  }

  lemma ActionSawMore(rho: Scope, before: set<Bound>, more: set<Bound>, bs: set<Bound>, a: Action, res: Result)
    requires ActionSaw(rho, before, bs, a, res) && before <= more
    ensures ActionSaw(rho, more, bs, a, res)
  {
    var vs :| Saw(rho, before, bs, a.free, vs) && res == Done(a.id, UnmarkedAll(bs, a.free, vs));
    SawMore(rho, before, more, bs, a.free, vs);
  }

  /** A name has one meaning: the row's own, or the surrounding scope's if no earlier row left one. */
  ghost predicate Clear(rho: Scope, before: set<Bound>, bs: set<Bound>, s: Sym) {
    BindsName(bs, s) || (s in rho && !BindsName(before, s))
  }

  lemma ClearIs(rho: Scope, before: set<Bound>, bs: set<Bound>, s: Sym, v: Value)
    requires Functional(bs) && Clear(rho, before, bs, s) && Visible(rho, before, bs, s, v)
    ensures v == Look(rho, bs, s) && Unmarked(bs, s, v) == ActionLook(rho, bs, s)
  {
    if BindsName(bs, s) {
      var b :| b in bs && b.sym == s && b.v == v;
      assert forall c | c in bs && c.sym == s :: c == b;
    }
  }

  lemma ClearGuard(sem: Sem, rho: Scope, before: set<Bound>, bs: set<Bound>, g: Guard)
    requires Functional(bs) && (forall s | s in g.free :: Clear(rho, before, bs, s)) && Clear(rho, before, bs, g.arg)
    requires GuardSaw(sem, rho, before, bs, g)
    ensures GuardHolds(sem, rho, bs, g)
  {
    hide Visible, Clear, Look, Functional;
    var vs :| Saw(rho, before, bs, g.free + [g.arg], vs) && sem.truth(g.pred, vs[..|g.free|], vs[|g.free|]);
    forall i | 0 <= i < |g.free| ensures vs[i] == Look(rho, bs, g.free[i]) {
      assert (g.free + [g.arg])[i] == g.free[i] && g.free[i] in g.free;
      ClearIs(rho, before, bs, g.free[i], vs[i]);
    }
    assert (g.free + [g.arg])[|g.free|] == g.arg;
    ClearIs(rho, before, bs, g.arg, vs[|g.free|]);
    assert vs[..|g.free|] == seq(|g.free|, i requires 0 <= i < |g.free| => Look(rho, bs, g.free[i]));
  }

  lemma ClearAction(rho: Scope, before: set<Bound>, bs: set<Bound>, a: Action, res: Result)
    requires Functional(bs) && (forall s | s in a.free :: Clear(rho, before, bs, s)) && ActionSaw(rho, before, bs, a, res)
    ensures res == RunAction(rho, bs, a)
  {
    hide Visible, Clear, ActionLook, Functional, Unmarked;
    var vs :| Saw(rho, before, bs, a.free, vs) && res == Done(a.id, UnmarkedAll(bs, a.free, vs));
    forall i | 0 <= i < |a.free| ensures Unmarked(bs, a.free[i], vs[i]) == ActionLook(rho, bs, a.free[i]) {
      assert a.free[i] in a.free;
      ClearIs(rho, before, bs, a.free[i], vs[i]);
    }
    assert UnmarkedAll(bs, a.free, vs) == seq(|a.free|, i requires 0 <= i < |a.free| => ActionLook(rho, bs, a.free[i]));
  }

  // ----- clauses tried top to bottom -----

  datatype Clause = Clause(pats: seq<Pat>, action: Action)

  ghost predicate ClauseAccepts(sem: Sem, rho: Scope, c: Clause, xs: seq<Slot>)
    requires |c.pats| == |xs|
  {
    && MatchAll(c.pats, xs)
    && forall g | g in GuardAll(c.pats) :: GuardHolds(sem, rho, BindAll(c.pats, xs), g)
  }

  /** The meaning of `match`: the first clause that accepts runs, else the match fails. */
  ghost function FirstClause(sem: Sem, rho: Scope, cs: seq<Clause>, xs: seq<Slot>): Result
    requires forall c | c in cs :: |c.pats| == |xs|
  {
    if cs == [] then NoMatch
    else if ClauseAccepts(sem, rho, cs[0], xs) then RunAction(rho, BindAll(cs[0].pats, xs), cs[0].action)
    else FirstClause(sem, rho, cs[1..], xs)
  }

  // ----- facts about the reference -----

  /** Every binding a pattern makes is for one of its names, */
  lemma {:induction false} BindingHasName(p: Pat, v: Value, fromKey: bool, b: Bound)
    requires b in Binds(p, v, fromKey)
    ensures b.sym in Names(p)
  {
    if b !in OwnBinds(p.binds, v, fromKey) {
      match p.head
      case HSeq(isVec, sub, rest) =>
        if i :| 0 <= i < |sub| && b in Binds(sub[i], v.items[i], false) {
          BindingHasName(sub[i], v.items[i], false, b);
        }
      case HMap(keys, vals) =>
        var j :| 0 <= j < |vals| && j < |keys| && b in Binds(vals[j], Get(v, keys[j]), true);
        BindingHasName(vals[j], Get(v, keys[j]), true, b);
    }
  }

  /** and a matching pattern binds every one of its names. */
  lemma {:induction false} NameHasBinding(p: Pat, v: Value, fromKey: bool, s: Sym) returns (b: Bound)
    requires WellFormed(p) && Matches(p, v) && s in Names(p)
    ensures b in Binds(p, v, fromKey) && b.sym == s
  {
    if s in p.binds {
      b := Bound(s, v, fromKey);
    } else {
      match p.head
      case HSeq(isVec, sub, rest) =>
        if rest.Some? && rest.value == s {
          b := Bound(s, RestValue(isVec, v, |sub|), false);
        } else {
          var q :| q in sub && s in Names(q);
          var i :| 0 <= i < |sub| && sub[i] == q;
          b := NameHasBinding(sub[i], v.items[i], false, s);
        }
      case HMap(keys, vals) =>
        var q :| q in vals && s in Names(q);
        var j :| 0 <= j < |vals| && vals[j] == q;
        b := NameHasBinding(vals[j], Get(v, keys[j]), true, s);
    }
  }

  // ----- names of map keys -----

  /** s names the value pattern of a map key somewhere in p. */
  ghost predicate NamesKey(p: Pat, s: Sym) {
    match p.head
    case HWild => false
    case HLit(_) => false
    case HSeq(_, sub, _) => exists q | q in sub :: NamesKey(q, s)
    case HMap(_, vals) => exists q | q in vals :: s in q.binds || NamesKey(q, s)
  }

  /** p, matched with v, gives s what looking up a map key reads: u, the marker if the key is absent. */
  ghost predicate KeyGives(p: Pat, v: Value, s: Sym, u: Value)
    decreases p
  {
    match p.head
    case HWild => false
    case HLit(_) => false
    case HSeq(_, sub, _) =>
      IsSequential(v) && |v.items| >= |sub| && exists i | 0 <= i < |sub| :: KeyGives(sub[i], v.items[i], s, u)
    case HMap(keys, vals) =>
      exists j | 0 <= j < |vals| && j < |keys| ::
        (s in vals[j].binds && u == Get(v, keys[j])) || KeyGives(vals[j], Get(v, keys[j]), s, u)
  }

  /** Such a reading is one of the pattern's bindings, */
  lemma {:induction false} KeyGivesBinds(p: Pat, v: Value, fromKey: bool, s: Sym, u: Value)
    requires KeyGives(p, v, s, u)
    ensures Bound(s, u, true) in Binds(p, v, fromKey)
    decreases p
  {
    match p.head
    case HSeq(isVec, sub, rest) =>
      var i :| 0 <= i < |sub| && KeyGives(sub[i], v.items[i], s, u);
      KeyGivesBinds(sub[i], v.items[i], false, s, u);
    case HMap(keys, vals) =>
      var j :| 0 <= j < |vals| && j < |keys| && ((s in vals[j].binds && u == Get(v, keys[j])) || KeyGives(vals[j], Get(v, keys[j]), s, u));
      if KeyGives(vals[j], Get(v, keys[j]), s, u) {
        KeyGivesBinds(vals[j], Get(v, keys[j]), true, s, u);
      } else {
        assert Bound(s, u, true) in Binds(vals[j], Get(v, keys[j]), true);
      }
  }

  /** and a matching pattern has one for every name of a map key. */
  lemma {:induction false} NamedKeyGives(p: Pat, v: Value, s: Sym) returns (u: Value)
    requires WellFormed(p) && Matches(p, v) && NamesKey(p, s)
    ensures KeyGives(p, v, s, u)
    decreases p
  {
    match p.head
    case HSeq(isVec, sub, rest) =>
      var q :| q in sub && NamesKey(q, s);
      var i :| 0 <= i < |sub| && sub[i] == q;
      u := NamedKeyGives(sub[i], v.items[i], s);
    case HMap(keys, vals) =>
      var q :| q in vals && (s in q.binds || NamesKey(q, s));
      var j :| 0 <= j < |vals| && vals[j] == q;
      if s in q.binds {
        u := Get(v, keys[j]);
      } else {
        assert !IsBare(q);
        u := NamedKeyGives(vals[j], Get(v, keys[j]), s);
      }
  }
}
