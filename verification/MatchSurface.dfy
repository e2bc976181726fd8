/** `match` from the clauses as written to the evaluated tree: guards, names, `:as` and the order of `:or`. */
module MatchSurface {
  import opened MatchForms
  import opened MatchPattern
  import opened MatchParse
  import opened MatchCompile
  import opened MatchTheorems
  import opened Options

  // ----- readings: a form with every `:or` decided -----

  /** The readings of a form, in the order its alternatives are written. */
  function Readings(s: Surface): seq<Surface>
    decreases s, 0
  {
    match s
    case SSeq(isVec, heads, tail) => Mapped(Cartesian(ReadingsAll(heads)), combo => SSeq(isVec, combo, tail))
    case SMap(keys, vals) => Mapped(Cartesian(ReadingsAll(vals)), combo => SMap(keys, combo))
    case SOr(alts) => Concat(ReadingsAll(alts))
    case SGuard(inner, pred, free) => Mapped(Readings(inner), r => SGuard(r, pred, free))
    case SAs(inner, name) => Mapped(Readings(inner), r => SAs(r, name))
    case _ => [s]
  }

  function ReadingsAll(ss: seq<Surface>): (r: seq<seq<Surface>>)
    ensures |r| == |ss|
    ensures forall i | 0 <= i < |ss| :: r[i] == Readings(ss[i])
    decreases ss, 0
  {
    if ss == [] then [] else [Readings(ss[0])] + ReadingsAll(ss[1..])
  }

  function Mapped<A, B>(xs: seq<A>, f: A -> B): (r: seq<B>)
    ensures |r| == |xs|
    ensures forall i | 0 <= i < |xs| :: r[i] == f(xs[i])
  {
    seq(|xs|, i requires 0 <= i < |xs| => f(xs[i]))
  }

  // ----- what a reading binds and asks -----

  /** Every name a reading binds, to the value it stands at. */
  ghost function SBinds(c: Surface, v: Value, fromKey: bool): set<Bound>
    decreases c
  {
    match c
    case SBind(x) => {Bound(x, v, fromKey)}
    case SSeq(isVec, heads, tail) =>
      if !IsSequential(v) || |v.items| < |heads| then {}
      else (set i, b | 0 <= i < |heads| && b in SBinds(heads[i], v.items[i], false) :: b) +
           (if tail.NamedTail? then {Bound(tail.sym, RestValue(isVec, v, |heads|), false)} else {})
    case SMap(keys, vals) =>
      set j, b | 0 <= j < |vals| && j < |keys| && b in SBinds(vals[j], Get(v, keys[j]), true) :: b
    case SGuard(inner, _, _) => SBinds(inner, v, fromKey)
    case SAs(inner, name) => SBinds(inner, v, fromKey) + {Bound(name, v, fromKey)}
    case _ => {}
  }

  /** Every guard's predicate is true of the value the guard stands at. */
  ghost predicate SHolds(sem: Sem, rho: Scope, bs: set<Bound>, c: Surface, v: Value)
    decreases c
  {
    match c
    case SSeq(_, heads, _) =>
      IsSequential(v) && |v.items| >= |heads| ==> forall i | 0 <= i < |heads| :: SHolds(sem, rho, bs, heads[i], v.items[i])
    case SMap(keys, vals) =>
      forall j | 0 <= j < |vals| && j < |keys| :: SHolds(sem, rho, bs, vals[j], Get(v, keys[j]))
    case SGuard(inner, pred, free) =>
      && SHolds(sem, rho, bs, inner, v)
      && sem.truth(pred, Looks(rho, bs, free), v)
    case SAs(inner, _) => SHolds(sem, rho, bs, inner, v)
    case _ => true
  }

  ghost function Looks(rho: Scope, bs: set<Bound>, free: seq<Sym>): seq<Value> {
    seq(|free|, i requires 0 <= i < |free| => Look(rho, bs, free[i]))
  }

  ghost function TupleBinds(cs: seq<Surface>, vs: seq<Value>): set<Bound>
    requires |cs| == |vs|
  {
    set i, b | 0 <= i < |cs| && b in SBinds(cs[i], vs[i], false) :: b
  }

  /** A reading of a row accepts the values: its shape fits and its guards hold. */
  ghost predicate TupleAccepts(sem: Sem, rho: Scope, cs: seq<Surface>, vs: seq<Value>)
    requires |cs| == |vs|
  {
    && (forall i | 0 <= i < |cs| :: SMatches(cs[i], vs[i]))
    && (forall i | 0 <= i < |cs| :: SHolds(sem, rho, TupleBinds(cs, vs), cs[i], vs[i]))
  }

  // ----- what `match` means -----

  /** One reading of a row, with the clause's action. */
  datatype Reading = Reading(pats: seq<Surface>, action: Action)

  /** The readings of a clause, the last pattern's alternatives varying fastest. */
  function RowReadings(r: SurfaceRow, arity: nat): seq<seq<Surface>> {
    match r
    case Else => [seq(arity, i => SWild)]
    case Pats(ss) => Cartesian(ReadingsAll(ss))
  }

  function ClauseReadings(c: SurfaceClause, arity: nat): seq<Reading> {
    Mapped(RowReadings(c.row, arity), pats => Reading(pats, c.action))
  }

  /** All readings, clause by clause. */
  function AllReadings(cs: seq<SurfaceClause>, arity: nat): seq<Reading> {
    if cs == [] then [] else ClauseReadings(cs[0], arity) + AllReadings(cs[1..], arity)
  }

  /** `match`: the first reading that accepts runs its clause's action. */
  ghost function FirstReading(sem: Sem, rho: Scope, rs: seq<Reading>, vs: seq<Value>): Result {
    if rs == [] then NoMatch
    else if |rs[0].pats| == |vs| && TupleAccepts(sem, rho, rs[0].pats, vs) then
      RunAction(rho, TupleBinds(rs[0].pats, vs), rs[0].action)
    else FirstReading(sem, rho, rs[1..], vs)
  }

  // ----- a parsed pattern renders a reading -----

  /** The names the parser makes up for guards. */
  predicate GuardName(s: Sym) {
    s.Gen? && s.prefix == "g__guard"
  }

  ghost predicate Guarded(q: Pat, pred: nat, free: seq<Sym>, p: Pat) {
    && p.binds != [] && p == q.(binds := p.binds, guards := q.guards + [Guard(pred, free, p.binds[0])])
    && if q.binds != [] then p.binds == q.binds else |p.binds| == 1 && GuardName(p.binds[0])
  }

  ghost predicate Named(q: Pat, name: Sym, p: Pat) {
    p == q.(binds := q.binds + [name])
  }

  ghost predicate Renders(c: Surface, p: Pat)
    decreases c
  {
    match c
    case SWild => p == WILD
    case SBind(x) => p == Pat(HWild, [x], [])
    case SLit(l) => p == Pat(HLit(l), [], [])
    case SSeq(isVec, heads, tail) =>
      && p.head.HSeq? && p == Pat(HSeq(isVec, p.head.sub, TailName(tail)), [], []) && tail != AnonTail
      && |p.head.sub| == |heads| && forall i | 0 <= i < |heads| :: Renders(heads[i], p.head.sub[i])
    case SMap(keys, vals) =>
      && p.head.HMap? && p == Pat(HMap(keys, p.head.vals), [], [])
      && |p.head.vals| == |vals| == |keys| && forall j | 0 <= j < |vals| :: Renders(vals[j], p.head.vals[j])
    case SOr(_) => false
    case SGuard(inner, pred, free) => exists q :: Renders(inner, q) && Guarded(q, pred, free, p)
    case SAs(inner, name) => exists q :: Renders(inner, q) && Named(q, name, p)
  }

  ghost predicate RendersAll(cs: seq<Surface>, ps: seq<Pat>) {
    |cs| == |ps| && forall i | 0 <= i < |cs| :: Renders(cs[i], ps[i])
  }

  // ----- parsing renders the readings, in order -----

  lemma {:induction false} GuardsRender(cs: seq<Surface>, ps: seq<Pat>, pred: nat, free: seq<Sym>, n: nat)
    requires RendersAll(cs, ps)
    ensures RendersAll(Mapped(cs, r => SGuard(r, pred, free)), AddGuards(ps, pred, free, n).alts)
  {
    if ps != [] {
      var (p, n1) := AddGuard(ps[0], pred, free, n);
      GuardsRender(cs[1..], ps[1..], pred, free, n1);
      var rest := AddGuards(ps[1..], pred, free, n1).alts;
      assert Renders(cs[0], ps[0]) && Guarded(ps[0], pred, free, p);
      var all := AddGuards(ps, pred, free, n).alts;
      assert all == [p] + rest;
      var guarded := Mapped(cs, r => SGuard(r, pred, free));
      forall i | 0 <= i < |cs| ensures Renders(guarded[i], all[i]) {
        if i > 0 { assert guarded[i] == Mapped(cs[1..], r => SGuard(r, pred, free))[i - 1]; }
      }
    }
  }

  lemma NamesRender(cs: seq<Surface>, ps: seq<Pat>, name: Sym)
    requires RendersAll(cs, ps)
    ensures RendersAll(Mapped(cs, r => SAs(r, name)), AddName(ps, name))
  {
    var named := Mapped(cs, r => SAs(r, name));
    forall i | 0 <= i < |cs| ensures Renders(named[i], AddName(ps, name)[i]) {
      assert Renders(cs[i], ps[i]) && Named(ps[i], name, AddName(ps, name)[i]);
    }
  }

  /** Combinations on both sides correspond. */
  ghost predicate CombosRender(us: seq<seq<Surface>>, bs: seq<seq<Pat>>) {
    |us| == |bs| && forall k | 0 <= k < |us| :: RendersAll(us[k], bs[k])
  }

  lemma {:induction false} ExtendAllRenders(us: seq<seq<Surface>>, bs: seq<seq<Pat>>, cs: seq<Surface>, ps: seq<Pat>)
    requires CombosRender(us, bs) && RendersAll(cs, ps)
    ensures CombosRender(ExtendAll(us, cs), ExtendAll(bs, ps))
  {
    hide Renders;
    if us != [] {
      ExtendAllRenders(us[1..], bs[1..], cs, ps);
      var x, y := Extend(us[0], cs), Extend(bs[0], ps);
      assert RendersAll(us[0], bs[0]);
      assert CombosRender(x, y);
    }
  }

  lemma {:induction false} CartesianRenders(us: seq<seq<Surface>>, bs: seq<seq<Pat>>)
    requires CombosRender(us, bs)
    ensures CombosRender(Cartesian(us), Cartesian(bs))
  {
    hide Renders;
    if us != [] {
      var n := |us| - 1;
      CartesianRenders(us[..n], bs[..n]);
      assert RendersAll(us[n], bs[n]);
      ExtendAllRenders(Cartesian(us[..n]), Cartesian(bs[..n]), us[n], bs[n]);
    }
  }

  lemma {:induction false} ConcatRenders(us: seq<seq<Surface>>, bs: seq<seq<Pat>>)
    requires CombosRender(us, bs)
    ensures RendersAll(Concat(us), Concat(bs))
  {
    hide Renders;
    if us != [] {
      ConcatRenders(us[1..], bs[1..]);
      assert RendersAll(us[0], bs[0]);
    }
  }

  lemma {:induction false} SinglesCartesian(cols: seq<seq<Pat>>)
    requires forall c <- cols :: |c| == 1
    ensures Cartesian(cols) == [Firsts(cols)]
  {
    if cols != [] {
      var n := |cols| - 1;
      SinglesCartesian(cols[..n]);
      assert cols[n] in cols;
      var before := Firsts(cols[..n]);
      assert Firsts(cols) == before + [cols[n][0]] by {
        hide Cartesian, ExtendAll;
        assert forall i | 0 <= i < n :: cols[..n][i] == cols[i];
      }
      hide Firsts;
      assert ExtendAll([before], cols[n]) == Extend(before, cols[n]) + ExtendAll([before][1..], cols[n]);
      assert Extend(before, cols[n]) == [before + [cols[n][0]]] && [before][1..] == [];
    }
  }

  lemma {:induction false} ParseRenders(s: Surface, n: nat)
    requires Plain(s) && Keyed(s) && ParsePat(s, n).Parsed?
    ensures RendersAll(Readings(s), ParsePat(s, n).alts)
    decreases s, 1
  {
    match s
    case SSeq(isVec, heads, tail) => SeqRenders(s, n);
    case SMap(keys, vals) => MapRenders(s, n);
    case SOr(alts) =>
      AllRender(alts, n);
      ConcatRenders(ReadingsAll(alts), ParseAll(alts, n).cols);
    case SGuard(inner, pred, free) =>
      ParseRenders(inner, n);
      GuardsRender(Readings(inner), ParsePat(inner, n).alts, pred, free, ParsePat(inner, n).n);
    case SAs(inner, name) =>
      ParseRenders(inner, n);
      NamesRender(Readings(inner), ParsePat(inner, n).alts, name);
    case _ =>
  }

  lemma {:induction false} AllRender(ss: seq<Surface>, n: nat)
    requires ParseAll(ss, n).ParsedAll? && forall s | s in ss :: Plain(s) && Keyed(s)
    ensures CombosRender(ReadingsAll(ss), ParseAll(ss, n).cols)
    decreases ss, 0
  {
    hide Renders, Readings, ReadingsAll, Plain, Keyed, ParsePat;
    forall i | 0 <= i < |ss| ensures RendersAll(ReadingsAll(ss)[i], ParseAll(ss, n).cols[i]) {
      ParseAllAt(ss, n, i);
      assert ss[i] in ss;
      ParseRenders(ss[i], CounterAt(ss, n, i));
    }
  }

  lemma {:induction false} SeqRenders(s: Surface, n: nat)
    requires s.SSeq? && Plain(s) && Keyed(s) && ParsePat(s, n).Parsed?
    ensures RendersAll(Readings(s), ParsePat(s, n).alts)
    decreases s, 0
  {
    AllRender(s.heads, n);
    var us, bs := ReadingsAll(s.heads), ParseAll(s.heads, n).cols;
    CartesianRenders(us, bs);
    forall i | 0 <= i < |bs| ensures bs[i] != [] {
      ParseAllAt(s.heads, n, i);
      assert s.heads[i] in s.heads;
      ParseCounts(s.heads[i], CounterAt(s.heads, n, i));
    }
    SomeCombo(bs);
    var combos := Cartesian(bs);
    assert ParsePat(s, n).alts == SeqPats(s.isVec, combos, TailName(s.tail));
    forall k | 0 <= k < |combos| ensures Renders(Readings(s)[k], ParsePat(s, n).alts[k]) {
      assert RendersAll(Cartesian(us)[k], combos[k]);
    }
  }

  lemma {:induction false} MapRenders(s: Surface, n: nat)
    requires s.SMap? && Plain(s) && Keyed(s) && ParsePat(s, n).Parsed?
    ensures RendersAll(Readings(s), ParsePat(s, n).alts)
    decreases s, 0
  {
    hide ParsePat, Readings, ParseAll, ReadingsAll, Cartesian, CombosRender, RendersAll;
    MapIs(s, n);
    AllRender(s.vals, n);
    OneRendered(ReadingsAll(s.vals), ParseAll(s.vals, n).cols, s.keys);
  }

  lemma OneRendered(us: seq<seq<Surface>>, bs: seq<seq<Pat>>, keys: seq<Lit>)
    requires CombosRender(us, bs) && (forall c <- bs :: |c| == 1) && |keys| == |bs|
    ensures RendersAll(Mapped(Cartesian(us), combo => SMap(keys, combo)), [Pat(HMap(keys, Firsts(bs)), [], [])])
  {
    hide Renders;
    CartesianRenders(us, bs);
    SinglesCartesian(bs);
    hide Cartesian;
    assert RendersAll(Cartesian(us)[0], Cartesian(bs)[0]);
    MapRendered(keys, Cartesian(us)[0], Firsts(bs));
  }

  lemma MapIs(s: Surface, n: nat)
    requires s.SMap? && ParsePat(s, n).Parsed? && Keyed(s)
    ensures ParseAll(s.vals, n).ParsedAll? && |s.keys| == |s.vals| && forall c <- ParseAll(s.vals, n).cols :: |c| == 1
    ensures ParsePat(s, n).alts == [Pat(HMap(s.keys, Firsts(ParseAll(s.vals, n).cols)), [], [])]
    ensures Readings(s) == Mapped(Cartesian(ReadingsAll(s.vals)), combo => SMap(s.keys, combo))
  {
  }

  lemma MapRendered(keys: seq<Lit>, cs: seq<Surface>, ps: seq<Pat>)
    requires RendersAll(cs, ps) && |keys| == |ps|
    ensures Renders(SMap(keys, cs), Pat(HMap(keys, ps), [], []))
  {
  }

  // ----- a rendering means its reading -----

  lemma {:induction false} RenderMatches(c: Surface, p: Pat, v: Value)
    requires Renders(c, p)
    ensures Matches(p, v) <==> SMatches(c, v)
    ensures IsBare(p) <==> SBare(c)
    decreases c
  {
    match c
    case SSeq(isVec, heads, tail) =>
      if IsSequential(v) && |v.items| >= |heads| {
        forall i | 0 <= i < |heads| ensures Matches(p.head.sub[i], v.items[i]) <==> SMatches(heads[i], v.items[i]) {
          RenderMatches(heads[i], p.head.sub[i], v.items[i]);
        }
      }
    case SMap(keys, vals) =>
      forall j | 0 <= j < |vals|
        ensures Matches(p.head.vals[j], Get(v, keys[j])) <==> SMatches(vals[j], Get(v, keys[j]))
        ensures IsBare(p.head.vals[j]) <==> SBare(vals[j])
      {
        RenderMatches(vals[j], p.head.vals[j], Get(v, keys[j]));
      }
    case SGuard(inner, pred, free) =>
      var q :| Renders(inner, q) && Guarded(q, pred, free, p);
      RenderMatches(inner, q, v);
    case SAs(inner, name) =>
      var q :| Renders(inner, q) && Named(q, name, p);
      RenderMatches(inner, q, v);
    case _ =>
  }

  /** The form uses only names that can be written. */
  ghost predicate UserForm(c: Surface) {
    match c
    case SBind(x) => x.User?
    case SSeq(_, heads, tail) => (tail.NamedTail? ==> tail.sym.User?) && forall h | h in heads :: UserForm(h)
    case SMap(_, vals) => forall q | q in vals :: UserForm(q)
    case SOr(alts) => forall a | a in alts :: UserForm(a)
    case SGuard(inner, _, free) => UserForm(inner) && forall s | s in free :: s.User?
    case SAs(inner, name) => UserForm(inner) && name.User?
    case _ => true
  }

  ghost predicate BindSame(c: Surface, p: Pat, v: Value, fromKey: bool, b: Bound) {
    b in SBinds(c, v, fromKey) <==> b in Binds(p, v, fromKey) && !GuardName(b.sym)
  }

  lemma SeqBindSame(isVec: bool, heads: seq<Surface>, tail: Tail, sub: seq<Pat>, v: Value, fromKey: bool, b: Bound)
    requires |heads| == |sub| && tail != AnonTail && (tail.NamedTail? ==> !GuardName(tail.sym))
    requires IsSequential(v) && |v.items| >= |heads| ==> forall i | 0 <= i < |heads| :: BindSame(heads[i], sub[i], v.items[i], false, b)
    ensures BindSame(SSeq(isVec, heads, tail), Pat(HSeq(isVec, sub, TailName(tail)), [], []), v, fromKey, b)
  {
    hide GuardName;
  }

  lemma MapBindSame(keys: seq<Lit>, vals: seq<Surface>, qs: seq<Pat>, v: Value, fromKey: bool, b: Bound)
    requires |keys| == |vals| == |qs|
    requires forall j | 0 <= j < |vals| :: BindSame(vals[j], qs[j], Get(v, keys[j]), true, b)
    ensures BindSame(SMap(keys, vals), Pat(HMap(keys, qs), [], []), v, fromKey, b)
  {
    hide GuardName;
  }

  lemma NodeBindSame(c: Surface, inner: Surface, q: Pat, p: Pat, v: Value, fromKey: bool, b: Bound)
    requires BindSame(inner, q, v, fromKey, b) && p.head == q.head
    requires || (c.SGuard? && c.inner == inner && Guarded(q, c.pred, c.free, p))
             || (c.SAs? && c.inner == inner && Named(q, c.name, p) && !GuardName(c.name))
    ensures BindSame(c, p, v, fromKey, b)
  {
    assert forall s | s in q.binds :: s in p.binds;
    MoreBinds(q, p, v, fromKey);
    OwnIn(p, v, fromKey, b);
    OwnIn(q, v, fromKey, b);
    hide Binds;
    assert b in SBinds(c, v, fromKey) <==> b in SBinds(inner, v, fromKey) || (c.SAs? && b == Bound(c.name, v, fromKey));
  }

  lemma OwnIn(p: Pat, v: Value, fromKey: bool, b: Bound)
    ensures b in OwnBinds(p.binds, v, fromKey) <==> b.sym in p.binds && b == Bound(b.sym, v, fromKey)
    ensures OwnBinds(p.binds, v, fromKey) <= Binds(p, v, fromKey)
  {
  }

  /** The names a rendering binds are the reading's and some made up for guards. */
  lemma {:induction false} RenderBinds(c: Surface, p: Pat, v: Value, fromKey: bool, b: Bound)
    requires Renders(c, p) && UserForm(c)
    ensures BindSame(c, p, v, fromKey, b)
    decreases c
  {
    hide BindSame, Guarded, Named;
    match c
    case SSeq(isVec, heads, tail) =>
      var sub := p.head.sub;
      if IsSequential(v) && |v.items| >= |heads| {
        forall i | 0 <= i < |heads| ensures BindSame(heads[i], sub[i], v.items[i], false, b) {
          assert heads[i] in heads;
          RenderBinds(heads[i], sub[i], v.items[i], false, b);
        }
      }
      SeqBindSame(isVec, heads, tail, sub, v, fromKey, b);
    case SMap(keys, vals) =>
      var qs := p.head.vals;
      forall j | 0 <= j < |vals| ensures BindSame(vals[j], qs[j], Get(v, keys[j]), true, b) {
        assert vals[j] in vals;
        RenderBinds(vals[j], qs[j], Get(v, keys[j]), true, b);
      }
      MapBindSame(keys, vals, qs, v, fromKey, b);
    case SGuard(inner, pred, free) =>
      var q :| Renders(inner, q) && Guarded(q, pred, free, p);
      RenderBinds(inner, q, v, fromKey, b);
      GuardedHead(q, pred, free, p);
      NodeBindSame(c, inner, q, p, v, fromKey, b);
    case SAs(inner, name) =>
      var q :| Renders(inner, q) && Named(q, name, p);
      RenderBinds(inner, q, v, fromKey, b);
      NamedHead(q, name, p);
      NodeBindSame(c, inner, q, p, v, fromKey, b);
    case _ => LeafBindSame(c, p, v, fromKey, b);
  }

  lemma LeafBindSame(c: Surface, p: Pat, v: Value, fromKey: bool, b: Bound)
    requires (c.SWild? && p == WILD) || (c.SBind? && p == Pat(HWild, [c.sym], []) && !GuardName(c.sym)) || (c.SLit? && p == Pat(HLit(c.lit), [], []))
    ensures BindSame(c, p, v, fromKey, b)
  {
  }

  lemma GuardedHead(q: Pat, pred: nat, free: seq<Sym>, p: Pat)
    requires Guarded(q, pred, free, p)
    ensures p.head == q.head
  {
  }

  lemma NamedHead(q: Pat, name: Sym, p: Pat)
    requires Named(q, name, p)
    ensures p.head == q.head
  {
  }

  /** Two nodes with the same head differ in their own names and guards. */
  lemma MoreBinds(q: Pat, p: Pat, v: Value, fromKey: bool)
    requires p.head == q.head && forall s | s in q.binds :: s in p.binds
    ensures Binds(p, v, fromKey) == OwnBinds(p.binds, v, fromKey) + Binds(q, v, fromKey)
    ensures Guards(p) - (set g | g in p.guards) <= Guards(q) && Guards(q) <= (set g | g in q.guards) + Guards(p)
  {
  }

  lemma GuardedGuards(q: Pat, pred: nat, free: seq<Sym>, p: Pat)
    requires Guarded(q, pred, free, p)
    ensures Guards(p) == Guards(q) + {Guard(pred, free, p.binds[0])}
  {
    var g := Guard(pred, free, p.binds[0]);
    assert forall x :: x in p.guards <==> x in q.guards || x == g;
  }

  ghost predicate GuardsSame(sem: Sem, rho: Scope, bs: set<Bound>, c: Surface, p: Pat, v: Value) {
    SHolds(sem, rho, bs, c, v) <==> forall g | g in Guards(p) :: GuardHolds(sem, rho, bs, g)
  }

  lemma SeqGuardsSame(sem: Sem, rho: Scope, bs: set<Bound>, isVec: bool, heads: seq<Surface>, tail: Tail, p: Pat, v: Value)
    requires p.head.HSeq? && p.guards == [] && |heads| == |p.head.sub| && IsSequential(v) && |v.items| >= |heads|
    requires forall i | 0 <= i < |heads| :: GuardsSame(sem, rho, bs, heads[i], p.head.sub[i], v.items[i])
    ensures GuardsSame(sem, rho, bs, SSeq(isVec, heads, tail), p, v)
  {
    SeqGuards(p);
    hide GuardHolds, Guards;
  }

  lemma MapGuardsSame(sem: Sem, rho: Scope, bs: set<Bound>, keys: seq<Lit>, vals: seq<Surface>, p: Pat, v: Value)
    requires p.head.HMap? && p.guards == [] && |keys| == |vals| == |p.head.vals|
    requires forall j | 0 <= j < |vals| :: GuardsSame(sem, rho, bs, vals[j], p.head.vals[j], Get(v, keys[j]))
    ensures GuardsSame(sem, rho, bs, SMap(keys, vals), p, v)
  {
    MapGuards(p);
    hide GuardHolds, Guards;
  }

  /** A rendering's guards hold exactly when the reading's predicates are true where they stand. */
  lemma {:induction false} RenderGuards(sem: Sem, rho: Scope, bs: set<Bound>, c: Surface, p: Pat, v: Value, fromKey: bool)
    requires Renders(c, p) && Matches(p, v) && Functional(bs) && Binds(p, v, fromKey) <= bs
    ensures GuardsSame(sem, rho, bs, c, p, v)
    decreases c
  {
    hide GuardHolds, Functional, Named, Guarded, Binds, Matches, Guards;
    match c
    case SSeq(isVec, heads, tail) =>
      var sub := p.head.sub;
      MatchedShape(p, v);
      forall i | 0 <= i < |heads| ensures GuardsSame(sem, rho, bs, heads[i], sub[i], v.items[i]) {
        SubBindsIn(p, v, fromKey, i);
        RenderGuards(sem, rho, bs, heads[i], sub[i], v.items[i], false);
      }
      SeqGuardsSame(sem, rho, bs, isVec, heads, tail, p, v);
    case SMap(keys, vals) =>
      var qs := p.head.vals;
      forall j | 0 <= j < |vals| ensures GuardsSame(sem, rho, bs, vals[j], qs[j], Get(v, keys[j])) {
        ValBindsIn(p, v, fromKey, j);
        RenderGuards(sem, rho, bs, vals[j], qs[j], Get(v, keys[j]), true);
      }
      MapGuardsSame(sem, rho, bs, keys, vals, p, v);
    case SGuard(inner, pred, free) =>
      var q :| Renders(inner, q) && Guarded(q, pred, free, p);
      GuardedKeeps(q, pred, free, p, v, fromKey);
      RenderGuards(sem, rho, bs, inner, q, v, fromKey);
      OwnGuard(sem, rho, bs, Guard(pred, free, p.binds[0]), v, fromKey);
    case SAs(inner, name) =>
      var q :| Renders(inner, q) && Named(q, name, p);
      NamedKeeps(q, name, p, v, fromKey);
      RenderGuards(sem, rho, bs, inner, q, v, fromKey);
    case _ => NoGuards(p);
  }

  lemma NoGuards(p: Pat)
    requires p.guards == [] && (p.head.HWild? || p.head.HLit?)
    ensures Guards(p) == {}
  {
  }

  lemma MatchedShape(p: Pat, v: Value)
    requires p.head.HSeq? && Matches(p, v)
    ensures IsSequential(v) && |v.items| >= |p.head.sub|
  {
  }

  lemma SubBindsIn(p: Pat, v: Value, fromKey: bool, i: nat)
    requires p.head.HSeq? && Matches(p, v) && i < |p.head.sub| && IsSequential(v) && |v.items| >= |p.head.sub|
    ensures Binds(p.head.sub[i], v.items[i], false) <= Binds(p, v, fromKey) && Matches(p.head.sub[i], v.items[i])
  {
  }

  lemma ValBindsIn(p: Pat, v: Value, fromKey: bool, j: nat)
    requires p.head.HMap? && |p.head.keys| == |p.head.vals| && Matches(p, v) && j < |p.head.vals|
    ensures Binds(p.head.vals[j], Get(v, p.head.keys[j]), true) <= Binds(p, v, fromKey) && Matches(p.head.vals[j], Get(v, p.head.keys[j]))
  {
  }

  lemma SeqGuards(p: Pat)
    requires p.head.HSeq? && p.guards == []
    ensures forall g :: g in Guards(p) <==> exists i | 0 <= i < |p.head.sub| :: g in Guards(p.head.sub[i])
  {
  }

  lemma MapGuards(p: Pat)
    requires p.head.HMap? && p.guards == []
    ensures forall g :: g in Guards(p) <==> exists i | 0 <= i < |p.head.vals| :: g in Guards(p.head.vals[i])
  {
  }

  lemma GuardedKeeps(q: Pat, pred: nat, free: seq<Sym>, p: Pat, v: Value, fromKey: bool)
    requires Guarded(q, pred, free, p)
    ensures p.binds != [] && Guards(p) == Guards(q) + {Guard(pred, free, p.binds[0])}
    ensures Matches(p, v) <==> Matches(q, v)
    ensures Binds(q, v, fromKey) <= Binds(p, v, fromKey) && Bound(p.binds[0], v, fromKey) in Binds(p, v, fromKey)
  {
    GuardedGuards(q, pred, free, p);
    MoreBinds(q, p, v, fromKey);
  }

  lemma NamedKeeps(q: Pat, name: Sym, p: Pat, v: Value, fromKey: bool)
    requires Named(q, name, p)
    ensures Guards(p) == Guards(q) && (Matches(p, v) <==> Matches(q, v)) && Binds(q, v, fromKey) <= Binds(p, v, fromKey)
  {
    MoreBinds(q, p, v, fromKey);
  }

  lemma OwnGuard(sem: Sem, rho: Scope, bs: set<Bound>, g: Guard, v: Value, fromKey: bool)
    requires Functional(bs) && Bound(g.arg, v, fromKey) in bs
    ensures GuardHolds(sem, rho, bs, g) <==> sem.truth(g.pred, Looks(rho, bs, g.free), v)
  {
    assert Look(rho, bs, g.arg) == v;
    assert Looks(rho, bs, g.free) == seq(|g.free|, i requires 0 <= i < |g.free| => Look(rho, bs, g.free[i]));
  }

  // ----- names made up for guards are seen by nobody -----

  ghost predicate SameUserBinds(sbs: set<Bound>, bs: set<Bound>) {
    forall b :: b in sbs <==> b in bs && !GuardName(b.sym)
  }

  lemma LookSame(rho: Scope, sbs: set<Bound>, bs: set<Bound>, s: Sym)
    requires Functional(bs) && SameUserBinds(sbs, bs) && !GuardName(s)
    ensures Look(rho, sbs, s) == Look(rho, bs, s) && ActionLook(rho, sbs, s) == ActionLook(rho, bs, s)
  {
    if b :| b in bs && b.sym == s {
      assert b in sbs;
    }
  }

  lemma {:induction false} HoldsSame(sem: Sem, rho: Scope, sbs: set<Bound>, bs: set<Bound>, c: Surface, v: Value)
    requires UserForm(c) && Functional(bs) && SameUserBinds(sbs, bs)
    ensures SHolds(sem, rho, sbs, c, v) <==> SHolds(sem, rho, bs, c, v)
    decreases c
  {
    hide Functional, SameUserBinds, Look;
    match c
    case SSeq(_, heads, _) =>
      if IsSequential(v) && |v.items| >= |heads| {
        forall i | 0 <= i < |heads| ensures SHolds(sem, rho, sbs, heads[i], v.items[i]) <==> SHolds(sem, rho, bs, heads[i], v.items[i]) {
          assert heads[i] in heads;
          HoldsSame(sem, rho, sbs, bs, heads[i], v.items[i]);
        }
      }
    case SMap(keys, vals) =>
      forall j | 0 <= j < |vals| && j < |keys|
        ensures SHolds(sem, rho, sbs, vals[j], Get(v, keys[j])) <==> SHolds(sem, rho, bs, vals[j], Get(v, keys[j]))
      {
        assert vals[j] in vals;
        HoldsSame(sem, rho, sbs, bs, vals[j], Get(v, keys[j]));
      }
    case SGuard(inner, pred, free) =>
      HoldsSame(sem, rho, sbs, bs, inner, v);
      forall i | 0 <= i < |free| ensures Look(rho, sbs, free[i]) == Look(rho, bs, free[i]) {
        assert free[i] in free;
        LookSame(rho, sbs, bs, free[i]);
      }
      assert Looks(rho, sbs, free) == Looks(rho, bs, free);
    case SAs(inner, _) => HoldsSame(sem, rho, sbs, bs, inner, v);
    case _ =>
  }

  // ----- rows -----

  function SlotsOf(vs: seq<Value>): (xs: seq<Slot>)
    ensures |xs| == |vs| && forall i | 0 <= i < |vs| :: xs[i] == Slot(vs[i], false)
  {
    seq(|vs|, i requires 0 <= i < |vs| => Slot(vs[i], false))
  }

  lemma RowBindsSame(cs: seq<Surface>, ps: seq<Pat>, vs: seq<Value>)
    requires RendersAll(cs, ps) && |vs| == |cs| && forall c | c in cs :: UserForm(c)
    ensures SameUserBinds(TupleBinds(cs, vs), BindAll(ps, SlotsOf(vs)))
  {
    hide Renders, UserForm, SBinds, Binds, GuardName;
    var cells := Cells(ps, SlotsOf(vs));
    forall b ensures b in TupleBinds(cs, vs) <==> b in BindAll(ps, SlotsOf(vs)) && !GuardName(b.sym) {
      forall i | 0 <= i < |cs| ensures cells[i] in cells && (b in SBinds(cs[i], vs[i], false) <==> b in CellBinds(cells[i]) && !GuardName(b.sym)) {
        assert cs[i] in cs;
        RenderBinds(cs[i], ps[i], vs[i], false, b);
      }
      assert b in BindAll(ps, SlotsOf(vs)) <==> exists i | 0 <= i < |cells| :: b in CellBinds(cells[i]);
    }
  }

  lemma RowMatchesSame(cs: seq<Surface>, ps: seq<Pat>, vs: seq<Value>)
    requires RendersAll(cs, ps) && |vs| == |cs|
    ensures MatchAll(ps, SlotsOf(vs)) <==> forall i | 0 <= i < |cs| :: SMatches(cs[i], vs[i])
  {
    hide Renders, SMatches, Matches;
    var cells := Cells(ps, SlotsOf(vs));
    forall i | 0 <= i < |cs| ensures Matches(cells[i].p, cells[i].x.v) <==> SMatches(cs[i], vs[i]) {
      RenderMatches(cs[i], ps[i], vs[i]);
    }
    assert MatchAll(ps, SlotsOf(vs)) <==> forall i | 0 <= i < |cells| :: Matches(cells[i].p, cells[i].x.v) by {
      assert forall i | 0 <= i < |cells| :: cells[i] in cells;
    }
  }

  lemma RowGuardsSame(sem: Sem, rho: Scope, cs: seq<Surface>, ps: seq<Pat>, vs: seq<Value>)
    requires RendersAll(cs, ps) && |vs| == |cs| && (forall c | c in cs :: UserForm(c))
    requires MatchAll(ps, SlotsOf(vs)) && Functional(BindAll(ps, SlotsOf(vs)))
    ensures (forall i | 0 <= i < |cs| :: SHolds(sem, rho, TupleBinds(cs, vs), cs[i], vs[i])) <==>
            forall g | g in GuardAll(ps) :: GuardHolds(sem, rho, BindAll(ps, SlotsOf(vs)), g)
  {
    RowBindsSame(cs, ps, vs);
    hide Renders, UserForm, Binds, Matches, Guards, GuardHolds, SHolds, Functional, SameUserBinds;
    var cells, sbs, bs := Cells(ps, SlotsOf(vs)), TupleBinds(cs, vs), BindAll(ps, SlotsOf(vs));
    forall i | 0 <= i < |cs|
      ensures SHolds(sem, rho, sbs, cs[i], vs[i]) <==> forall g | g in Guards(ps[i]) :: GuardHolds(sem, rho, bs, g)
    {
      assert cells[i] in cells && cs[i] in cs;
      assert CellBinds(cells[i]) <= bs;
      HoldsSame(sem, rho, sbs, bs, cs[i], vs[i]);
      RenderGuards(sem, rho, bs, cs[i], ps[i], vs[i], false);
    }
    assert forall g :: g in GuardAll(ps) <==> exists i | 0 <= i < |ps| :: g in Guards(ps[i]);
  }

  /** A row of a clause accepts, and its action sees, what the reading it renders does. */
  lemma RowIsReading(sem: Sem, rho: Scope, cs: seq<Surface>, c: Clause, vs: seq<Value>)
    requires RendersAll(cs, c.pats) && |vs| == |cs| && (forall s | s in cs :: UserForm(s)) && forall s | s in c.action.free :: s.User?
    requires LinearClause(c)
    ensures ClauseAccepts(sem, rho, c, SlotsOf(vs)) <==> TupleAccepts(sem, rho, cs, vs)
    ensures RunAction(rho, BindAll(c.pats, SlotsOf(vs)), c.action) == RunAction(rho, TupleBinds(cs, vs), c.action)
  {
    hide Renders, UserForm, LinearClause, BindAll, MatchAll, GuardAll, TupleBinds, SMatches, SHolds, GuardHolds, Functional, SameUserBinds, RunAction;
    LinearClauseFunctional(c, SlotsOf(vs));
    RowMatchesSame(cs, c.pats, vs);
    if MatchAll(c.pats, SlotsOf(vs)) {
      RowGuardsSame(sem, rho, cs, c.pats, vs);
    }
    RowBindsSame(cs, c.pats, vs);
    ActionSame(rho, TupleBinds(cs, vs), BindAll(c.pats, SlotsOf(vs)), c.action);
  }

  lemma ActionSame(rho: Scope, sbs: set<Bound>, bs: set<Bound>, a: Action)
    requires Functional(bs) && SameUserBinds(sbs, bs) && forall s | s in a.free :: s.User?
    ensures RunAction(rho, bs, a) == RunAction(rho, sbs, a)
  {
    hide Functional, SameUserBinds, ActionLook;
    forall i | 0 <= i < |a.free| ensures ActionLook(rho, sbs, a.free[i]) == ActionLook(rho, bs, a.free[i]) {
      assert a.free[i] in a.free;
      LookSame(rho, sbs, bs, a.free[i]);
    }
  }

  // ----- clauses -----

  /** What the reader and the parser's limits ask of one clause. */
  ghost predicate SurfaceOk(c: SurfaceClause) {
    && (c.row.Pats? ==> forall s | s in c.row.pats :: Plain(s) && Keyed(s) && UserForm(s))
    && forall s | s in c.action.free :: s.User?
  }

  /** Readings of a form that can be written can be written. */
  lemma {:induction false} ReadingsUser(s: Surface)
    requires UserForm(s)
    ensures forall c | c in Readings(s) :: UserForm(c)
    decreases s, 1
  {
    match s
    case SSeq(isVec, heads, tail) =>
      AllUser(heads);
      forall c | c in Readings(s) ensures UserForm(c) {
        assert c == SSeq(isVec, c.heads, tail) && c.heads in Cartesian(ReadingsAll(heads));
        ComboUser(ReadingsAll(heads), c.heads);
      }
    case SMap(keys, vals) =>
      AllUser(vals);
      forall c | c in Readings(s) ensures UserForm(c) {
        assert c == SMap(keys, c.vals) && c.vals in Cartesian(ReadingsAll(vals));
        ComboUser(ReadingsAll(vals), c.vals);
      }
    case SOr(alts) =>
      AllUser(alts);
      forall c | c in Readings(s) ensures UserForm(c) {
        ConcatHas(ReadingsAll(alts), c);
      }
    case SGuard(inner, _, _) => ReadingsUser(inner);
    case SAs(inner, _) => ReadingsUser(inner);
    case _ =>
  }

  lemma {:induction false} AllUser(ss: seq<Surface>)
    requires forall s | s in ss :: UserForm(s)
    ensures forall i, c | 0 <= i < |ss| && c in ReadingsAll(ss)[i] :: UserForm(c)
    decreases ss, 0
  {
    hide UserForm;
    forall i | 0 <= i < |ss| ensures forall c | c in ReadingsAll(ss)[i] :: UserForm(c) {
      assert ss[i] in ss;
      ReadingsUser(ss[i]);
    }
  }

  lemma ComboUser(cols: seq<seq<Surface>>, combo: seq<Surface>)
    requires combo in Cartesian(cols) && forall i, c | 0 <= i < |cols| && c in cols[i] :: UserForm(c)
    ensures |combo| == |cols| && forall c | c in combo :: UserForm(c)
  {
    CartesianIs(cols, combo);
  }

  /** The rows render the readings, in order. */
  ghost predicate RowsRender(rs: seq<Reading>, rows: seq<Clause>) {
    |rs| == |rows| && forall k | 0 <= k < |rs| :: RendersAll(rs[k].pats, rows[k].pats) && rows[k].action == rs[k].action
  }

  ghost predicate UserReading(r: Reading, arity: nat) {
    |r.pats| == arity && (forall s | s in r.pats :: UserForm(s)) && forall s | s in r.action.free :: s.User?
  }

  lemma ClauseRenders(c: SurfaceClause, arity: nat, n: nat)
    requires SurfaceOk(c) && ColumnsOf(c.row, arity, n).ParsedAll?
    ensures RowsRender(ClauseReadings(c, arity), ClausesFor(Cartesian(ColumnsOf(c.row, arity, n).cols), c.action))
    ensures forall r | r in ClauseReadings(c, arity) :: UserReading(r, arity)
  {
    hide Plain, Keyed, Renders, UserForm, Readings, Cartesian, ReadingsAll;
    match c.row
    case Else => WildRow(arity);
    case Pats(ss) =>
      var us, cols := ReadingsAll(ss), ParseAll(ss, n).cols;
      AllRender(ss, n);
      AllUser(ss);
      CartesianRenders(us, cols);
      hide ParseAll;
      forall r | r in Cartesian(us) ensures |r| == arity && forall s | s in r :: UserForm(s) {
        ComboUser(us, r);
      }
  }

  lemma {:induction false} WildRow(arity: nat)
    ensures Cartesian(seq(arity, i => [WILD])) == [seq(arity, i => WILD)]
    ensures RendersAll(seq(arity, i => SWild), seq(arity, i => WILD)) && UserForm(SWild)
  {
    var cols := seq(arity, i => [WILD]);
    SinglesCartesian(cols);
    assert Firsts(cols) == seq(arity, i => WILD);
  }

  /** Parsing clauses gives one row for each reading, in order. */
  lemma {:induction false} ParseClausesRenders(cs: seq<SurfaceClause>, arity: nat, n: nat)
    requires (forall c <- cs :: SurfaceOk(c)) && ParseClauses(cs, arity, n).ParsedClauses?
    ensures RowsRender(AllReadings(cs, arity), ParseClauses(cs, arity, n).rows)
    ensures forall r | r in AllReadings(cs, arity) :: UserReading(r, arity)
  {
    if cs != [] {
      hide Renders, UserForm, SurfaceOk, Cartesian, RendersAll, UserReading, ClausesFor, ClauseReadings, RowsRender;
      var p := ColumnsOf(cs[0].row, arity, n);
      ClauseRenders(cs[0], arity, n);
      ParseClausesRenders(cs[1..], arity, p.n);
      RowsRenderAppend(ClauseReadings(cs[0], arity), ClausesFor(Cartesian(p.cols), cs[0].action),
                       AllReadings(cs[1..], arity), ParseClauses(cs[1..], arity, p.n).rows);
    } else {
      assert RowsRender([], []);
    }
  }

  lemma RowsRenderAppend(rs: seq<Reading>, rows: seq<Clause>, rs1: seq<Reading>, rows1: seq<Clause>)
    requires RowsRender(rs, rows) && RowsRender(rs1, rows1)
    ensures RowsRender(rs + rs1, rows + rows1)
  {
    hide RendersAll;
  }

  /** Trying the rows is trying the readings. */
  lemma {:induction false} RowsAreReadings(sem: Sem, rho: Scope, rs: seq<Reading>, rows: seq<Clause>, vs: seq<Value>)
    requires RowsRender(rs, rows) && (forall r | r in rs :: UserReading(r, |vs|)) && forall c | c in rows :: LinearClause(c)
    ensures forall c | c in rows :: |c.pats| == |vs|
    ensures FirstClause(sem, rho, rows, SlotsOf(vs)) == FirstReading(sem, rho, rs, vs)
  {
    if rs != [] {
      hide Renders, UserForm, LinearClause, ClauseAccepts, TupleAccepts, BindAll, TupleBinds, RunAction;
      assert rs[0] in rs && rows[0] in rows && RendersAll(rs[0].pats, rows[0].pats);
      RowIsReading(sem, rho, rs[0].pats, rows[0], vs);
      RowsAreReadings(sem, rho, rs[1..], rows[1..], vs);
    }
  }
}
