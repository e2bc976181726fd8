/** What a matrix row means over a valuation of the occurrences, and that specialization and the
    default matrix preserve it. */
module MatchRows {
  import opened MatchForms
  import opened MatchPattern
  import opened MatchCompile

  /** The values of the occurrences in scope. */
  type World = map<Sym, Value>

  /** Names only the compiler uses; user names, and the names it gives guarded wildcards, differ. */
  predicate Internal(s: Sym) {
    s.Gen? && s.prefix in {"occ", "v", "s", "m", "fail"}
  }

  predicate SrcOk(src: Src, w: World) {
    src.s in w &&
    match src
    case SrcOcc(_) => true
    case SrcSubvec(s, n) => w[s].Vec? && n <= |w[s].items|
    case SrcNthrest(s, n) => IsSequential(w[s]) && n <= |w[s].items|
  }

  function SrcVal(src: Src, w: World): Value
    requires SrcOk(src, w)
  {
    match src
    case SrcOcc(s) => w[s]
    case SrcSubvec(s, n) => Vec(w[s].items[n..])
    case SrcNthrest(s, n) => NthRest(w[s], n)
  }

  predicate Known(occs: seq<Sym>, w: World) {
    forall o <- occs :: o in w
  }

  function Slots(occs: seq<Sym>, w: World): (xs: seq<Slot>)
    requires Known(occs, w)
    ensures |xs| == |occs|
    ensures forall i | 0 <= i < |occs| :: xs[i] == Slot(w[occs[i]], IsKeyOcc(occs[i]))
  {
    seq(|occs|, i requires 0 <= i < |occs| => Slot(w[occs[i]], IsKeyOcc(occs[i])))
  }

  predicate BindsOk(binds: seq<Bind>, w: World) {
    forall b <- binds :: SrcOk(b.src, w)
  }

  ghost function BindSet(binds: seq<Bind>, w: World): set<Bound>
    requires BindsOk(binds, w)
  {
    set b | b in binds :: Bound(b.sym, SrcVal(b.src, w), FromKey(b.src))
  }

  ghost function RowGuards(r: Row): set<Guard> {
    (set g | g in r.guards) + GuardAll(r.cols)
  }

  ghost function RowNames(r: Row): set<Sym> {
    (set b | b in r.binds :: b.sym) + NameAll(r.cols)
  }

  ghost function FreeOf(gs: set<Guard>, a: Action): set<Sym> {
    (set g, s | g in gs && s in g.free :: s) + (set g | g in gs :: g.arg) + (set s | s in a.free)
  }

  ghost function RowFree(r: Row): set<Sym> {
    FreeOf(RowGuards(r), r.action)
  }

  ghost predicate RowIn(r: Row, occs: seq<Sym>, w: World) {
    && |r.cols| == |occs| && Known(occs, w)
    && (forall p | p in r.cols :: WellFormed(p))
    && BindsOk(r.binds, w)
    && Known(r.presence, w)
    && (forall s | s in RowNames(r) + RowFree(r) :: !Internal(s))
  }

  ghost function RowBinds(r: Row, occs: seq<Sym>, w: World): set<Bound>
    requires RowIn(r, occs, w)
  {
    BindSet(r.binds, w) + BindAll(r.cols, Slots(occs, w))
  }

  ghost predicate RowMatches(r: Row, occs: seq<Sym>, w: World)
    requires RowIn(r, occs, w)
  {
    && MatchAll(r.cols, Slots(occs, w))
    && forall s | s in r.presence :: w[s] != ABSENT
  }

  ghost predicate RowAccepts(sem: Sem, rho: Scope, r: Row, occs: seq<Sym>, w: World)
    requires RowIn(r, occs, w)
  {
    && RowMatches(r, occs, w)
    && forall g | g in RowGuards(r) :: GuardHolds(sem, rho, RowBinds(r, occs, w), g)
  }

  ghost predicate RowsIn(rows: seq<Row>, occs: seq<Sym>, w: World) {
    forall r | r in rows :: RowIn(r, occs, w)
  }

  // ----- what running rows may give -----

  /** The row's shape fits, its guards were true and its action ran, all of values their names may show when
      earlier rows left the bindings `before`. */
  ghost predicate Ran(sem: Sem, rho: Scope, before: set<Bound>, r: Row, occs: seq<Sym>, w: World, res: Result)
    requires RowIn(r, occs, w)
  {
    && RowMatches(r, occs, w)
    && (forall g | g in RowGuards(r) :: GuardSaw(sem, rho, before, RowBinds(r, occs, w), g))
    && ActionSaw(rho, before, RowBinds(r, occs, w), r.action, res)
  }

  /** Some row ran, after those before it. */
  ghost predicate RanSome(sem: Sem, rho: Scope, before: set<Bound>, rows: seq<Row>, occs: seq<Sym>, w: World, res: Result)
    requires RowsIn(rows, occs, w)
    decreases |rows|
  {
    rows != [] &&
    (assert rows[0] in rows;
     Ran(sem, rho, before, rows[0], occs, w, res)
     || RanSome(sem, rho, before + RowBinds(rows[0], occs, w), rows[1..], occs, w, res))
  }

  /** The first row that accepts ran, or none accepts and the result is `fail`. */
  ghost predicate RanFirst(sem: Sem, rho: Scope, before: set<Bound>, rows: seq<Row>, occs: seq<Sym>, w: World, res: Result, fail: Result)
    requires RowsIn(rows, occs, w)
    decreases |rows|
  {
    if rows == [] then res == fail
    else
      assert rows[0] in rows;
      if RowAccepts(sem, rho, rows[0], occs, w) then ActionSaw(rho, before, RowBinds(rows[0], occs, w), rows[0].action, res)
      else RanFirst(sem, rho, before + RowBinds(rows[0], occs, w), rows[1..], occs, w, res, fail)
  }

  ghost function GuardNames(r: Row): set<Sym> {
    (set g, s | g in RowGuards(r) && s in g.free :: s) + (set g | g in RowGuards(r) :: g.arg)
  }

  /** If the row fits, its names have one value each and what its guards mention has one meaning. */
  ghost predicate RowFaithful(rho: Scope, before: set<Bound>, r: Row, occs: seq<Sym>, w: World)
    requires RowIn(r, occs, w)
  {
    RowMatches(r, occs, w) ==>
      && Functional(RowBinds(r, occs, w))
      && forall s | s in GuardNames(r) :: Clear(rho, before, RowBinds(r, occs, w), s)
  }

  ghost predicate Faithful(rho: Scope, before: set<Bound>, rows: seq<Row>, occs: seq<Sym>, w: World)
    requires RowsIn(rows, occs, w)
    decreases |rows|
  {
    rows == [] ||
    (assert rows[0] in rows;
     RowFaithful(rho, before, rows[0], occs, w) && Faithful(rho, before + RowBinds(rows[0], occs, w), rows[1..], occs, w))
  }

  lemma RanMore(sem: Sem, rho: Scope, before: set<Bound>, more: set<Bound>, r: Row, occs: seq<Sym>, w: World, res: Result)
    requires RowIn(r, occs, w) && Ran(sem, rho, before, r, occs, w, res) && before <= more
    ensures Ran(sem, rho, more, r, occs, w, res)
  {
    hide RowMatches, RowBinds, RowGuards, GuardSaw, ActionSaw, RowIn;
    forall g | g in RowGuards(r) ensures GuardSaw(sem, rho, more, RowBinds(r, occs, w), g) {
      GuardSawMore(sem, rho, before, more, RowBinds(r, occs, w), g);
    }
    ActionSawMore(rho, before, more, RowBinds(r, occs, w), r.action, res);
  }

  lemma {:induction false} RanSomeMore(sem: Sem, rho: Scope, before: set<Bound>, more: set<Bound>, rows: seq<Row>, occs: seq<Sym>, w: World, res: Result)
    requires RowsIn(rows, occs, w) && RanSome(sem, rho, before, rows, occs, w, res) && before <= more
    ensures RanSome(sem, rho, more, rows, occs, w, res)
    decreases |rows|
  {
    hide Ran, RowBinds, RowIn;
    assert rows[0] in rows;
    if Ran(sem, rho, before, rows[0], occs, w, res) {
      RanMore(sem, rho, before, more, rows[0], occs, w, res);
    } else {
      var bs := RowBinds(rows[0], occs, w);
      RanSomeMore(sem, rho, before + bs, more + bs, rows[1..], occs, w, res);
    }
  }

  lemma {:induction false} RanFirstMore(sem: Sem, rho: Scope, before: set<Bound>, more: set<Bound>, rows: seq<Row>, occs: seq<Sym>, w: World,
      res: Result, fail: Result)
    requires RowsIn(rows, occs, w) && RanFirst(sem, rho, before, rows, occs, w, res, fail) && before <= more
    ensures RanFirst(sem, rho, more, rows, occs, w, res, fail)
    decreases |rows|
  {
    hide RowAccepts, ActionSaw, RowBinds, RowIn;
    if rows != [] {
      assert rows[0] in rows;
      var bs := RowBinds(rows[0], occs, w);
      if RowAccepts(sem, rho, rows[0], occs, w) {
        ActionSawMore(rho, before, more, bs, rows[0].action, res);
      } else {
        RanFirstMore(sem, rho, before + bs, more + bs, rows[1..], occs, w, res, fail);
      }
    }
  }

  lemma {:induction false} FaithfulLess(rho: Scope, before: set<Bound>, more: set<Bound>, rows: seq<Row>, occs: seq<Sym>, w: World)
    requires RowsIn(rows, occs, w) && Faithful(rho, more, rows, occs, w) && before <= more
    ensures Faithful(rho, before, rows, occs, w)
    decreases |rows|
  {
    if rows != [] {
      hide RowMatches, RowBinds, RowIn, GuardNames, Functional;
      assert rows[0] in rows;
      var bs := RowBinds(rows[0], occs, w);
      FaithfulLess(rho, before + bs, more + bs, rows[1..], occs, w);
    }
  }

  /** Faithful rows run only if they accept. */
  lemma RanAccepts(sem: Sem, rho: Scope, before: set<Bound>, r: Row, occs: seq<Sym>, w: World, res: Result)
    requires RowIn(r, occs, w) && Ran(sem, rho, before, r, occs, w, res) && RowFaithful(rho, before, r, occs, w)
    ensures RowAccepts(sem, rho, r, occs, w) && Functional(RowBinds(r, occs, w))
  {
    hide RowMatches, RowBinds, RowGuards, GuardSaw, ActionSaw, RowIn, Clear, GuardHolds, Functional;
    forall g | g in RowGuards(r) ensures GuardHolds(sem, rho, RowBinds(r, occs, w), g) {
      assert g.arg in GuardNames(r) && forall s | s in g.free :: s in GuardNames(r);
      ClearGuard(sem, rho, before, RowBinds(r, occs, w), g);
    }
  }

  lemma {:induction false} RanSomeAccepts(sem: Sem, rho: Scope, before: set<Bound>, rows: seq<Row>, occs: seq<Sym>, w: World, res: Result)
    requires RowsIn(rows, occs, w) && RanSome(sem, rho, before, rows, occs, w, res) && Faithful(rho, before, rows, occs, w)
    ensures SomeRowAccepts(sem, rho, rows, occs, w)
    decreases |rows|
  {
    hide Ran, RowBinds, RowIn, RowAccepts, RowFaithful, SomeRowAccepts;
    SomeRowStep(sem, rho, rows, occs, w);
    if Ran(sem, rho, before, rows[0], occs, w, res) {
      RanAccepts(sem, rho, before, rows[0], occs, w, res);
    } else {
      RanSomeAccepts(sem, rho, before + RowBinds(rows[0], occs, w), rows[1..], occs, w, res);
    }
  }

  ghost predicate SomeRowAccepts(sem: Sem, rho: Scope, rows: seq<Row>, occs: seq<Sym>, w: World)
    requires RowsIn(rows, occs, w)
  {
    exists r | r in rows :: RowAccepts(sem, rho, r, occs, w)
  }

  lemma SomeRowStep(sem: Sem, rho: Scope, rows: seq<Row>, occs: seq<Sym>, w: World)
    requires RowsIn(rows, occs, w) && rows != []
    ensures RowIn(rows[0], occs, w) && RowsIn(rows[1..], occs, w)
    ensures SomeRowAccepts(sem, rho, rows, occs, w) <==>
            RowAccepts(sem, rho, rows[0], occs, w) || SomeRowAccepts(sem, rho, rows[1..], occs, w)
  {
    hide RowAccepts, RowIn;
    assert forall r :: r in rows <==> r == rows[0] || r in rows[1..];
  }

  /** The failure result does not matter when some row accepts, */
  lemma {:induction false} RanFirstSome(sem: Sem, rho: Scope, before: set<Bound>, rows: seq<Row>, occs: seq<Sym>, w: World, res: Result,
      fail: Result, other: Result)
    requires RowsIn(rows, occs, w) && SomeRowAccepts(sem, rho, rows, occs, w) && RanFirst(sem, rho, before, rows, occs, w, res, fail)
    ensures RanFirst(sem, rho, before, rows, occs, w, res, other)
    decreases |rows|
  {
    hide RowBinds, RowIn, RowAccepts, ActionSaw, SomeRowAccepts;
    NoRowAccepts(sem, rho, occs, w);
    if rows != [] {
      SomeRowStep(sem, rho, rows, occs, w);
      if !RowAccepts(sem, rho, rows[0], occs, w) {
        RanFirstSome(sem, rho, before + RowBinds(rows[0], occs, w), rows[1..], occs, w, res, fail, other);
      }
    }
  }

  lemma NoRowAccepts(sem: Sem, rho: Scope, occs: seq<Sym>, w: World)
    ensures !SomeRowAccepts(sem, rho, [], occs, w)
  {
  }

  /** and is the result when none does. */
  lemma {:induction false} RanFirstNone(sem: Sem, rho: Scope, before: set<Bound>, rows: seq<Row>, occs: seq<Sym>, w: World, res: Result, fail: Result)
    requires RowsIn(rows, occs, w) && !SomeRowAccepts(sem, rho, rows, occs, w)
    ensures RanFirst(sem, rho, before, rows, occs, w, res, fail) <==> res == fail
    decreases |rows|
  {
    hide RowBinds, RowIn, RowAccepts, ActionSaw, SomeRowAccepts;
    if rows != [] {
      SomeRowStep(sem, rho, rows, occs, w);
      RanFirstNone(sem, rho, before + RowBinds(rows[0], occs, w), rows[1..], occs, w, res, fail);
    }
  }

  // ----- columns spliced -----

  lemma AppendAll(a: seq<Pat>, b: seq<Pat>, x: seq<Slot>, y: seq<Slot>)
    requires |a| == |x| && |b| == |y|
    ensures BindAll(a + b, x + y) == BindAll(a, x) + BindAll(b, y)
    ensures MatchAll(a + b, x + y) <==> MatchAll(a, x) && MatchAll(b, y)
    ensures GuardAll(a + b) == GuardAll(a) + GuardAll(b)
    ensures NameAll(a + b) == NameAll(a) + NameAll(b)
  {
    assert Cells(a + b, x + y) == Cells(a, x) + Cells(b, y);
    OverAppend(Cells(a, x), Cells(b, y), CellBinds);
    OverAppend(a, b, Guards);
    OverAppend(a, b, Names);
    MatchAppend(Cells(a, x), Cells(b, y));
  }

  lemma MatchAppend(a: seq<Cell>, b: seq<Cell>)
    ensures MatchCells(a + b) <==> MatchCells(a) && MatchCells(b)
  {
    assert forall c :: c in a + b <==> c in a || c in b;
  }

  /** Replacing column `col` by `mid` replaces its contribution by that of `mid`. */
  lemma SpliceAll(ps: seq<Pat>, xs: seq<Slot>, col: nat, mid: seq<Pat>, ys: seq<Slot>)
    requires |ps| == |xs| && col < |ps| && |mid| == |ys|
    ensures BindAll(SpliceAt(ps, col, mid), SpliceAt(xs, col, ys)) ==
            BindAll(RemoveAt(ps, col), RemoveAt(xs, col)) + BindAll(mid, ys)
    ensures MatchAll(SpliceAt(ps, col, mid), SpliceAt(xs, col, ys)) <==>
            MatchAll(RemoveAt(ps, col), RemoveAt(xs, col)) && MatchAll(mid, ys)
    ensures GuardAll(SpliceAt(ps, col, mid)) == GuardAll(RemoveAt(ps, col)) + GuardAll(mid)
    ensures NameAll(SpliceAt(ps, col, mid)) == NameAll(RemoveAt(ps, col)) + NameAll(mid)
  {
    AppendAll(ps[..col], ps[col + 1..], xs[..col], xs[col + 1..]);
    AppendAll(ps[..col] + mid, ps[col + 1..], xs[..col] + ys, xs[col + 1..]);
    AppendAll(ps[..col], mid, xs[..col], ys);
  }

  /** A column on its own. */
  lemma ColumnAll(ps: seq<Pat>, xs: seq<Slot>, col: nat)
    requires |ps| == |xs| && col < |ps|
    ensures BindAll(ps, xs) == BindAll(RemoveAt(ps, col), RemoveAt(xs, col)) + Binds(ps[col], xs[col].v, xs[col].fromKey)
    ensures MatchAll(ps, xs) <==> MatchAll(RemoveAt(ps, col), RemoveAt(xs, col)) && Matches(ps[col], xs[col].v)
    ensures GuardAll(ps) == GuardAll(RemoveAt(ps, col)) + Guards(ps[col])
    ensures NameAll(ps) == NameAll(RemoveAt(ps, col)) + Names(ps[col])
  {
    assert ps == SpliceAt(ps, col, [ps[col]]);
    assert xs == SpliceAt(xs, col, [xs[col]]);
    SpliceAll(ps, xs, col, [ps[col]], [xs[col]]);
    SingleAll(ps[col], xs[col]);
  }

  lemma SingleAll(p: Pat, x: Slot)
    ensures BindAll([p], [x]) == Binds(p, x.v, x.fromKey)
    ensures MatchAll([p], [x]) <==> Matches(p, x.v)
    ensures GuardAll([p]) == Guards(p)
    ensures NameAll([p]) == Names(p)
  {
    assert Cells([p], [x]) == [Cell(p, x)];
    OverOne(Cell(p, x), CellBinds);
    OverOne(p, Guards);
    OverOne(p, Names);
  }

  // ----- what a dispatched constructor contributes -----

  ghost predicate CtorAccepts(ct: Ctor, v: Value) {
    match ct
    case CLit(l) => v == Scalar(l)
    case CSeq(isVec, arity, hasRest) => SeqShape(isVec, arity, hasRest, v)
    case CMap(_) => v.Map?
  }

  ghost function SubValue(ct: Ctor, v: Value, i: nat): Value
    requires CtorAccepts(ct, v) && i < Width(ct)
  {
    if ct.CSeq? then v.items[i] else Get(v, ct.keys[i])
  }

  ghost function SubSlots(ct: Ctor, v: Value): (ys: seq<Slot>)
    requires CtorAccepts(ct, v)
    ensures |ys| == Width(ct)
    ensures forall i | 0 <= i < |ys| :: ys[i] == Slot(SubValue(ct, v, i), ct.CMap?)
  {
    seq(Width(ct), i requires 0 <= i < Width(ct) => Slot(SubValue(ct, v, i), ct.CMap?))
  }

  lemma WildAll(n: nat, ys: seq<Slot>)
    requires |ys| == n
    ensures BindAll(Wilds(n), ys) == {} && MatchAll(Wilds(n), ys) && GuardAll(Wilds(n)) == {} && NameAll(Wilds(n)) == {}
  {
  }

  lemma {:induction false} ValueForNamed(keys: seq<Lit>, vals: seq<Pat>, j: nat)
    requires NoDup(keys) && |keys| == |vals| && j < |keys|
    ensures ValueFor(keys, vals, keys[j]) == vals[j]
  {
    if j > 0 {
      ValueForNamed(keys[1..], vals[1..], j - 1);
    }
  }

  lemma {:induction false} ValueForOmitted(keys: seq<Lit>, vals: seq<Pat>, k: Lit)
    requires k !in keys
    ensures ValueFor(keys, vals, k) == WILD
  {
    if keys != [] && vals != [] {
      ValueForOmitted(keys[1..], vals[1..], k);
    }
  }

  lemma {:induction false} PresenceIs(cks: seq<Lit>, subOccs: seq<Sym>, keys: seq<Lit>, vals: seq<Pat>, s: Sym)
    requires |cks| == |subOccs|
    ensures s in PresenceFor(cks, subOccs, keys, vals) <==>
            exists i | 0 <= i < |cks| :: subOccs[i] == s && cks[i] in keys && IsBare(ValueFor(keys, vals, cks[i]))
  {
    if cks != [] {
      PresenceIs(cks[1..], subOccs[1..], keys, vals, s);
      var p, q := PresenceFor(cks[1..], subOccs[1..], keys, vals), PresenceFor(cks, subOccs, keys, vals);
      if s in p {
        var i :| 0 <= i < |cks| - 1 && subOccs[1..][i] == s && cks[1..][i] in keys && IsBare(ValueFor(keys, vals, cks[1..][i]));
        assert subOccs[i + 1] == s && cks[i + 1] in keys && IsBare(ValueFor(keys, vals, cks[i + 1]));
      }
      if i :| 0 <= i < |cks| && subOccs[i] == s && cks[i] in keys && IsBare(ValueFor(keys, vals, cks[i])) {
        if i > 0 {
          assert subOccs[1..][i - 1] == s && cks[1..][i - 1] in keys && IsBare(ValueFor(keys, vals, cks[1..][i - 1]));
        }
      }
    }
  }

  /** Key k stands beside pattern p. */
  ghost predicate Paired(ks: seq<Lit>, ps: seq<Pat>, k: Lit, p: Pat) {
    exists i | 0 <= i < |ks| && i < |ps| :: ks[i] == k && ps[i] == p
  }

  lemma RealignPairs(cks: seq<Lit>, keys: seq<Lit>, vals: seq<Pat>)
    requires NoDup(keys) && |keys| == |vals|
    requires forall k | k in keys :: k in cks
    ensures forall i | 0 <= i < |cks| ::
              if cks[i] in keys then Paired(keys, vals, cks[i], ValueFor(keys, vals, cks[i])) else ValueFor(keys, vals, cks[i]) == WILD
    ensures forall j | 0 <= j < |keys| :: Paired(cks, Realign(cks, keys, vals), keys[j], vals[j])
  {
    forall i | 0 <= i < |cks|
      ensures if cks[i] in keys then Paired(keys, vals, cks[i], ValueFor(keys, vals, cks[i])) else ValueFor(keys, vals, cks[i]) == WILD
    {
      if cks[i] in keys {
        var j :| 0 <= j < |keys| && keys[j] == cks[i];
        ValueForNamed(keys, vals, j);
      } else {
        ValueForOmitted(keys, vals, cks[i]);
      }
    }
    forall j | 0 <= j < |keys| ensures Paired(cks, Realign(cks, keys, vals), keys[j], vals[j]) {
      assert keys[j] in cks;
      var i :| 0 <= i < |cks| && cks[i] == keys[j];
      ValueForNamed(keys, vals, j);
      assert Realign(cks, keys, vals)[i] == vals[j];
    }
  }

  /** Asking each named key (presence if bare, its pattern otherwise) is asking each key of the union
      its realigned pattern, and presence of the named bare ones. */
  lemma RealignForall(cks: seq<Lit>, keys: seq<Lit>, vals: seq<Pat>, ok: (Lit, Pat) -> bool, there: Lit -> bool)
    requires NoDup(keys) && |keys| == |vals|
    requires forall k | k in keys :: k in cks
    requires forall k, q | IsWild(q) :: ok(k, q)
    ensures var mid := Realign(cks, keys, vals);
            (forall j | 0 <= j < |keys| :: if IsBare(vals[j]) then there(keys[j]) else ok(keys[j], vals[j]))
            <==>
            && (forall i | 0 <= i < |cks| :: ok(cks[i], mid[i]))
            && (forall i | 0 <= i < |cks| :: cks[i] in keys && IsBare(mid[i]) ==> there(cks[i]))
  {
    var mid := Realign(cks, keys, vals);
    RealignPairs(cks, keys, vals);
    if forall j | 0 <= j < |keys| :: if IsBare(vals[j]) then there(keys[j]) else ok(keys[j], vals[j]) {
      forall i | 0 <= i < |cks| ensures ok(cks[i], mid[i]) && (cks[i] in keys && IsBare(mid[i]) ==> there(cks[i])) {
        if cks[i] in keys {
          var j :| 0 <= j < |keys| && j < |vals| && keys[j] == cks[i] && vals[j] == mid[i];
        }
      }
    }
    if (forall i | 0 <= i < |cks| :: ok(cks[i], mid[i]))
       && (forall i | 0 <= i < |cks| :: cks[i] in keys && IsBare(mid[i]) ==> there(cks[i])) {
      forall j | 0 <= j < |keys| ensures if IsBare(vals[j]) then there(keys[j]) else ok(keys[j], vals[j]) {
        assert Paired(cks, mid, keys[j], vals[j]);
        var i :| 0 <= i < |cks| && i < |mid| && cks[i] == keys[j] && mid[i] == vals[j];
      }
    }
  }

  lemma PresenceTests(cks: seq<Lit>, subOccs: seq<Sym>, keys: seq<Lit>, vals: seq<Pat>, v: Value, w: World)
    requires |cks| == |subOccs| && Known(subOccs, w)
    requires forall i | 0 <= i < |cks| :: w[subOccs[i]] == Get(v, cks[i])
    ensures var pres := PresenceFor(cks, subOccs, keys, vals);
            && Known(pres, w)
            && ((forall s | s in pres :: w[s] != ABSENT) <==>
                forall i | 0 <= i < |cks| ::
                  cks[i] in keys && IsBare(ValueFor(keys, vals, cks[i])) ==> Get(v, cks[i]) != ABSENT)
  {
    var pres := PresenceFor(cks, subOccs, keys, vals);
    forall s | s in pres
      ensures exists i | 0 <= i < |cks| :: subOccs[i] == s && cks[i] in keys && IsBare(ValueFor(keys, vals, cks[i]))
    {
      PresenceIs(cks, subOccs, keys, vals, s);
    }
    forall i | 0 <= i < |cks| && cks[i] in keys && IsBare(ValueFor(keys, vals, cks[i])) ensures subOccs[i] in pres {
      PresenceIs(cks, subOccs, keys, vals, subOccs[i]);
    }
  }

  lemma CellsForall(v: Value, cks: seq<Lit>, mid: seq<Pat>, ok: (Lit, Pat) -> bool)
    requires v.Map? && |mid| == |cks|
    requires forall k, q :: ok(k, q) == Matches(q, Get(v, k))
    ensures MatchAll(mid, SubSlots(CMap(cks), v)) <==> forall i | 0 <= i < |cks| :: ok(cks[i], mid[i])
  {
    var cs := Cells(mid, SubSlots(CMap(cks), v));
    assert forall i | 0 <= i < |cks| :: cs[i] in cs && cs[i] == Cell(mid[i], Slot(Get(v, cks[i]), true));
    assert forall c | c in cs :: exists i | 0 <= i < |cs| :: cs[i] == c;
  }

  lemma MapMatches(p: Pat, v: Value, ok: (Lit, Pat) -> bool, there: Lit -> bool)
    requires p.head.HMap? && WellFormed(p)
    requires forall k, q :: ok(k, q) == Matches(q, Get(v, k))
    requires forall k :: there(k) == (Get(v, k) != ABSENT)
    ensures forall k, q | IsWild(q) :: ok(k, q)
    ensures Matches(p, v) <==>
            && v.Map?
            && forall j | 0 <= j < |p.head.keys| ::
                 if IsBare(p.head.vals[j]) then there(p.head.keys[j]) else ok(p.head.keys[j], p.head.vals[j])
  {
  }

  /** The collapsed map column is exact: over the union of keys, the realigned value patterns and the
      presence tests say what the row's own map pattern says, */
  lemma MapColumnMatches(p: Pat, v: Value, cks: seq<Lit>, subOccs: seq<Sym>, w: World)
    requires p.head.HMap? && WellFormed(p) && v.Map?
    requires forall k | k in p.head.keys :: k in cks
    requires |cks| == |subOccs| && Known(subOccs, w)
    requires forall i | 0 <= i < |cks| :: w[subOccs[i]] == Get(v, cks[i])
    ensures var pres := PresenceFor(cks, subOccs, p.head.keys, p.head.vals);
            && Known(pres, w)
            && (Matches(p, v) <==>
                && MatchAll(Realign(cks, p.head.keys, p.head.vals), SubSlots(CMap(cks), v))
                && forall s | s in pres :: w[s] != ABSENT)
  {
    var ok, there := (k, q) => Matches(q, Get(v, k)), k => Get(v, k) != ABSENT;
    MapMatches(p, v, ok, there);
    RealignForall(cks, p.head.keys, p.head.vals, ok, there);
    PresenceTests(cks, subOccs, p.head.keys, p.head.vals, v, w);
    CellsForall(v, cks, Realign(cks, p.head.keys, p.head.vals), ok);
  }

  ghost function KeyBinds(v: Value, kp: (Lit, Pat)): set<Bound> {
    Binds(kp.1, Get(v, kp.0), true)
  }

  function KeyPairs(ks: seq<Lit>, ps: seq<Pat>): (r: seq<(Lit, Pat)>)
    requires |ks| == |ps|
    ensures |r| == |ks|
    ensures forall i | 0 <= i < |ks| :: r[i] == (ks[i], ps[i])
  {
    seq(|ks|, i requires 0 <= i < |ks| => (ks[i], ps[i]))
  }

  lemma MapBinds(p: Pat, v: Value, fromKey: bool)
    requires p.head.HMap? && WellFormed(p)
    ensures Binds(p, v, fromKey) ==
            OwnBinds(p.binds, v, fromKey) + Over(KeyPairs(p.head.keys, p.head.vals), kp => KeyBinds(v, kp))
  {
    var kps := KeyPairs(p.head.keys, p.head.vals);
    var f := kp => KeyBinds(v, kp);
    forall b | b in Binds(p, v, fromKey) ensures b in OwnBinds(p.binds, v, fromKey) + Over(kps, f) {
      if b !in OwnBinds(p.binds, v, fromKey) {
        var j :| 0 <= j < |p.head.vals| && j < |p.head.keys| &&
                 b in Binds(p.head.vals[j], Get(v, p.head.keys[j]), true);
        assert kps[j] in kps && b in f(kps[j]);
      }
    }
    forall b | b in Over(kps, f) ensures b in Binds(p, v, fromKey) {
      var kp :| kp in kps && b in f(kp);
      var j :| 0 <= j < |kps| && kps[j] == kp;
      assert b in Binds(p.head.vals[j], Get(v, p.head.keys[j]), true);
    }
  }

  lemma RealignOver<B>(cks: seq<Lit>, keys: seq<Lit>, vals: seq<Pat>, f: ((Lit, Pat)) -> set<B>)
    requires NoDup(keys) && |keys| == |vals|
    requires forall k | k in keys :: k in cks
    requires forall k :: f((k, WILD)) == {}
    ensures Over(KeyPairs(keys, vals), f) == Over(KeyPairs(cks, Realign(cks, keys, vals)), f)
  {
    var mid := Realign(cks, keys, vals);
    var xs, ys := KeyPairs(keys, vals), KeyPairs(cks, mid);
    RealignPairs(cks, keys, vals);
    forall y | y in ys && y.1 != WILD ensures y in xs {
      var i :| 0 <= i < |ys| && ys[i] == y;
      var j :| 0 <= j < |keys| && keys[j] == cks[i] && vals[j] == mid[i];
      assert xs[j] == y;
    }
    forall x | x in xs ensures x in ys {
      var j :| 0 <= j < |xs| && xs[j] == x;
      assert Paired(cks, mid, keys[j], vals[j]);
      var i :| 0 <= i < |cks| && i < |mid| && cks[i] == keys[j] && mid[i] == vals[j];
      assert ys[i] == x;
    }
  }

  /** bind what it binds, */
  lemma MapColumnBinds(p: Pat, v: Value, fromKey: bool, cks: seq<Lit>)
    requires p.head.HMap? && WellFormed(p) && v.Map?
    requires forall k | k in p.head.keys :: k in cks
    ensures Binds(p, v, fromKey) ==
            OwnBinds(p.binds, v, fromKey) + BindAll(Realign(cks, p.head.keys, p.head.vals), SubSlots(CMap(cks), v))
  {
    var mid, ys := Realign(cks, p.head.keys, p.head.vals), SubSlots(CMap(cks), v);
    var f := kp => KeyBinds(v, kp);
    MapBinds(p, v, fromKey);
    RealignOver(cks, p.head.keys, p.head.vals, f);
    OverSame(Cells(mid, ys), CellBinds, KeyPairs(cks, mid), f);
  }

  /** and ask its guards. */
  lemma MapColumnStatic(p: Pat, cks: seq<Lit>)
    requires p.head.HMap? && WellFormed(p)
    requires forall k | k in p.head.keys :: k in cks
    ensures var mid := Realign(cks, p.head.keys, p.head.vals);
            && Guards(p) == (set g | g in p.guards) + GuardAll(mid)
            && Names(p) == (set s | s in p.binds) + NameAll(mid)
            && (forall q | q in mid :: WellFormed(q))
  {
    var keys, vals := p.head.keys, p.head.vals;
    var mid := Realign(cks, keys, vals);
    RealignPairs(cks, keys, vals);
    forall q | q in mid && q != WILD ensures q in vals {
      var i :| 0 <= i < |mid| && mid[i] == q;
    }
    forall q | q in vals ensures q in mid {
      var j :| 0 <= j < |vals| && vals[j] == q;
      assert Paired(cks, mid, keys[j], vals[j]);
    }
    assert GuardAll(vals) == GuardAll(mid);
    assert NameAll(vals) == NameAll(mid);
  }

  ghost function Indexed<B>(n: nat, f: nat -> set<B>): set<B> {
    set i: nat, b | i < n && b in f(i) :: b
  }

  lemma IndexedOver<A, B>(xs: seq<A>, f: nat -> set<B>, g: A -> set<B>)
    requires forall i | 0 <= i < |xs| :: f(i) == g(xs[i])
    ensures Indexed(|xs|, f) == Over(xs, g)
  {
    assert forall x | x in xs :: exists i | 0 <= i < |xs| :: xs[i] == x && g(x) == f(i);
    assert forall i | 0 <= i < |xs| :: xs[i] in xs;
  }

  ghost function SubBinds(sub: seq<Pat>, v: Value, i: nat): set<Bound>
    requires IsSequential(v) && |sub| <= |v.items|
  {
    if i < |sub| then Binds(sub[i], v.items[i], false) else {}
  }

  lemma SeqBindsAre(p: Pat, v: Value, fromKey: bool)
    requires p.head.HSeq? && IsSequential(v) && |p.head.sub| <= |v.items|
    ensures Binds(p, v, fromKey) == OwnBinds(p.binds, v, fromKey) + (Indexed(|p.head.sub|, (i: nat) => SubBinds(p.head.sub, v, i)) +
            (if p.head.rest.Some? then {Bound(p.head.rest.value, RestValue(p.head.isVec, v, |p.head.sub|), false)} else {}))
  {
    var sub := p.head.sub;
    var f := (i: nat) => SubBinds(sub, v, i);
    forall b ensures b in Indexed(|sub|, f) <==> exists i | 0 <= i < |sub| :: b in Binds(sub[i], v.items[i], false) {
      if b in Indexed(|sub|, f) {
        var i: nat :| i < |sub| && b in f(i);
        assert b in Binds(sub[i], v.items[i], false);
      }
      if i :| 0 <= i < |sub| && b in Binds(sub[i], v.items[i], false) {
        assert b in f(i);
      }
    }
  }

  lemma SeqColumnBinds(p: Pat, v: Value, fromKey: bool)
    requires p.head.HSeq? && CtorAccepts(CtorOf(p), v)
    ensures Binds(p, v, fromKey) == OwnBinds(p.binds, v, fromKey) + BindAll(p.head.sub, SubSlots(CtorOf(p), v)) +
            (if p.head.rest.Some? then {Bound(p.head.rest.value, RestValue(p.head.isVec, v, |p.head.sub|), false)} else {})
  {
    SeqBindsAre(p, v, fromKey);
    hide Binds, OwnBinds;
    IndexedOver(Cells(p.head.sub, SubSlots(CtorOf(p), v)), (i: nat) => SubBinds(p.head.sub, v, i), CellBinds);
  }

  lemma SeqColumn(p: Pat, v: Value, fromKey: bool)
    requires p.head.HSeq? && WellFormed(p) && CtorAccepts(CtorOf(p), v)
    ensures var ys := SubSlots(CtorOf(p), v); var sub, rest := p.head.sub, p.head.rest;
            && (Matches(p, v) <==> MatchAll(sub, ys))
            && Binds(p, v, fromKey) == OwnBinds(p.binds, v, fromKey) + BindAll(sub, ys) +
                 (if rest.Some? then {Bound(rest.value, RestValue(p.head.isVec, v, |sub|), false)} else {})
            && Guards(p) == (set g | g in p.guards) + GuardAll(sub)
            && Names(p) == (set s | s in p.binds) + NameAll(sub) + (if rest.Some? then {rest.value} else {})
  {
    hide *;
    SeqColumnBinds(p, v, fromKey);
    SeqColumnMatches(p, v);
    SeqColumnStatic(p);
  }

  lemma SeqColumnMatches(p: Pat, v: Value)
    requires p.head.HSeq? && CtorAccepts(CtorOf(p), v)
    ensures Matches(p, v) <==> MatchAll(p.head.sub, SubSlots(CtorOf(p), v))
  {
    var ys, sub := SubSlots(CtorOf(p), v), p.head.sub;
    var cs := Cells(sub, ys);
    assert forall i | 0 <= i < |sub| :: cs[i] in cs && cs[i] == Cell(sub[i], Slot(v.items[i], false));
    assert forall c | c in cs :: exists i | 0 <= i < |cs| :: cs[i] == c;
  }

  lemma SeqColumnStatic(p: Pat)
    requires p.head.HSeq?
    ensures Guards(p) == (set g | g in p.guards) + GuardAll(p.head.sub)
    ensures Names(p) == (set s | s in p.binds) + NameAll(p.head.sub) + (if p.head.rest.Some? then {p.head.rest.value} else {})
  {
  }
}
