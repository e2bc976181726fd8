/** Specializing a matrix, or taking its default, changes no row's meaning and keeps every premise of
    the correctness theorem. */
module MatchSpecialize {
  import opened MatchForms
  import opened MatchPattern
  import opened MatchCompile
  import opened MatchRows
  import opened Options

  /** Two rows that mean the same: same shape test, bindings, guards, names and action. */
  ghost predicate SameRow(r1: Row, occs1: seq<Sym>, w1: World, r2: Row, occs2: seq<Sym>, w2: World) {
    && RowIn(r1, occs1, w1) && RowIn(r2, occs2, w2)
    && (RowMatches(r1, occs1, w1) <==> RowMatches(r2, occs2, w2))
    && RowBinds(r1, occs1, w1) == RowBinds(r2, occs2, w2)
    && RowGuards(r1) == RowGuards(r2)
    && RowNames(r1) == RowNames(r2)
    && r1.action == r2.action
  }

  /** w1 knows what w knows, and the sub-occurrences of v under ct. */
  ghost predicate Expands(w: World, w1: World, ct: Ctor, v: Value, subOccs: seq<Sym>) {
    && CtorAccepts(ct, v)
    && |subOccs| == Width(ct)
    && (forall s | s in w :: s in w1 && w1[s] == w[s])
    && Known(subOccs, w1)
    && (forall i | 0 <= i < |subOccs| :: w1[subOccs[i]] == SubValue(ct, v, i) && IsKeyOcc(subOccs[i]) == ct.CMap?)
  }

  lemma BindSetGrows(binds: seq<Bind>, more: seq<Bind>, w: World, w1: World)
    requires BindsOk(binds, w) && BindsOk(more, w1)
    requires forall s | s in w :: s in w1 && w1[s] == w[s]
    ensures BindsOk(binds + more, w1)
    ensures BindSet(binds + more, w1) == BindSet(binds, w) + BindSet(more, w1)
  {
    assert forall b | b in binds :: SrcVal(b.src, w) == SrcVal(b.src, w1);
    assert forall b :: b in binds + more <==> b in binds || b in more;
  }

  lemma OwnBindSet(syms: seq<Sym>, occ: Sym, w: World)
    requires occ in w
    ensures BindsOk(OwnBindList(syms, occ), w)
    ensures BindSet(OwnBindList(syms, occ), w) == OwnBinds(syms, w[occ], IsKeyOcc(occ))
    ensures (set b | b in OwnBindList(syms, occ) :: b.sym) == set s | s in syms
  {
    var bs := OwnBindList(syms, occ);
    forall s | s in syms ensures Bind(s, SrcOcc(occ)) in bs {
      var i :| 0 <= i < |syms| && syms[i] == s;
      assert bs[i] in bs;
    }
  }

  lemma NamesAppend(a: seq<Bind>, b: seq<Bind>)
    ensures (set x | x in a + b :: x.sym) == (set x | x in a :: x.sym) + (set x | x in b :: x.sym)
  {
  }

  /** What a row's column contributes once the column is known to be `ct`: its replacement columns. */
  ghost function Middle(p: Pat, ct: Ctor): (mid: seq<Pat>)
    requires IsWild(p) || p.head.HMap? == ct.CMap?
    requires !IsWild(p) && !p.head.HMap? ==> CtorOf(p) == ct
    ensures |mid| == Width(ct)
  {
    match p.head
    case HWild => Wilds(Width(ct))
    case HLit(_) => []
    case HSeq(_, sub, _) => sub
    case HMap(keys, vals) => Realign(ct.keys, keys, vals)
  }

  ghost function ExtraBinds(p: Pat, occ: Sym): seq<Bind> {
    OwnBindList(p.binds, occ) + if p.head.HSeq? then RestBind(p.head.isVec, occ, |p.head.sub|, p.head.rest) else []
  }

  ghost function ExtraPresence(p: Pat, ct: Ctor, subOccs: seq<Sym>): seq<Sym>
    requires |subOccs| == Width(ct)
  {
    if p.head.HMap? && ct.CMap? then PresenceFor(ct.keys, subOccs, p.head.keys, p.head.vals) else []
  }

  /** One column: its pattern says what its replacement, extra bindings and presence tests say. */
  ghost predicate ColumnIs(p: Pat, x: Slot, mid: seq<Pat>, ys: seq<Slot>, binds: seq<Bind>, pres: seq<Sym>, w1: World) {
    && |mid| == |ys| && BindsOk(binds, w1) && Known(pres, w1)
    && (Matches(p, x.v) <==> MatchAll(mid, ys) && forall s | s in pres :: w1[s] != ABSENT)
    && Binds(p, x.v, x.fromKey) == BindSet(binds, w1) + BindAll(mid, ys)
    && Guards(p) == (set g | g in p.guards) + GuardAll(mid)
    && Names(p) == (set b | b in binds :: b.sym) + NameAll(mid)
    && (forall q | q in mid :: WellFormed(q))
  }

  lemma WildColumn(p: Pat, n: nat, ys: seq<Slot>, occ: Sym, w1: World)
    requires (IsWild(p) || (p.head.HLit? && n == 0)) && |ys| == n && occ in w1
    requires p.head.HLit? ==> Matches(p, w1[occ])
    ensures ColumnIs(p, Slot(w1[occ], IsKeyOcc(occ)), Wilds(n), ys, OwnBindList(p.binds, occ), [], w1)
  {
    OwnBindSet(p.binds, occ, w1);
    WildAll(n, ys);
  }

  lemma RestBindSet(isVec: bool, occ: Sym, n: nat, rest: Option<Sym>, w: World)
    requires occ in w && SeqShape(isVec, n, rest.Some?, w[occ])
    ensures var rb := RestBind(isVec, occ, n, rest);
            && BindsOk(rb, w)
            && BindSet(rb, w) == (if rest.Some? then {Bound(rest.value, RestValue(isVec, w[occ], n), false)} else {})
            && (set b | b in rb :: b.sym) == (if rest.Some? then {rest.value} else {})
  {
    var rb := RestBind(isVec, occ, n, rest);
    if rest.Some? {
      assert rb[0] in rb;
      assert forall b | b in rb :: b == rb[0];
    }
  }

  lemma Swap<T>(a: set<T>, b: set<T>, c: set<T>)
    ensures a + b + c == (a + c) + b
  {
  }

  lemma SeqColumnIs(p: Pat, ct: Ctor, occ: Sym, w1: World)
    requires p.head.HSeq? && WellFormed(p) && ct == CtorOf(p) && occ in w1 && CtorAccepts(ct, w1[occ])
    ensures ColumnIs(p, Slot(w1[occ], IsKeyOcc(occ)), p.head.sub, SubSlots(ct, w1[occ]), ExtraBinds(p, occ), [], w1)
  {
    SeqColumn(p, w1[occ], IsKeyOcc(occ));
    var own, rb := OwnBindList(p.binds, occ), RestBind(p.head.isVec, occ, |p.head.sub|, p.head.rest);
    OwnBindSet(p.binds, occ, w1);
    RestBindSet(p.head.isVec, occ, |p.head.sub|, p.head.rest, w1);
    BindSetGrows(own, rb, w1, w1);
    NamesAppend(own, rb);
    Swap(BindSet(own, w1), BindAll(p.head.sub, SubSlots(ct, w1[occ])), BindSet(rb, w1));
    Swap(set b | b in own :: b.sym, NameAll(p.head.sub), set b | b in rb :: b.sym);
  }

  lemma ColumnSame(p: Pat, ct: Ctor, occ: Sym, subOccs: seq<Sym>, w: World, w1: World)
    requires occ in w && WellFormed(p) && Expands(w, w1, ct, w[occ], subOccs)
    requires IsWild(p) || p.head.HMap? == ct.CMap?
    requires !IsWild(p) && !p.head.HMap? ==> CtorOf(p) == ct
    requires p.head.HMap? ==> forall k | k in p.head.keys :: k in ct.keys
    ensures ColumnIs(p, Slot(w[occ], IsKeyOcc(occ)), Middle(p, ct), SubSlots(ct, w[occ]), ExtraBinds(p, occ),
                     ExtraPresence(p, ct, subOccs), w1)
  {
    if p.head.HMap? {
      OwnBindSet(p.binds, occ, w1);
      MapColumnMatches(p, w[occ], ct.keys, subOccs, w1);
      MapColumnBinds(p, w[occ], IsKeyOcc(occ), ct.keys);
      MapColumnStatic(p, ct.keys);
      assert ExtraBinds(p, occ) == OwnBindList(p.binds, occ);
    } else if p.head.HSeq? {
      SeqColumnIs(p, ct, occ, w1);
    } else {
      WildColumn(p, Width(ct), SubSlots(ct, w[occ]), occ, w1);
      assert ExtraBinds(p, occ) == OwnBindList(p.binds, occ);
      assert Middle(p, ct) == Wilds(Width(ct));
    }
  }

  ghost predicate Replaced(r: Row, nr: Row, col: nat, occs: seq<Sym>, subOccs: seq<Sym>, w: World, w1: World,
      mid: seq<Pat>, ys: seq<Slot>, binds: seq<Bind>, pres: seq<Sym>) {
    && RowIn(r, occs, w) && col < |occs|
    && (forall s | s in w :: s in w1 && w1[s] == w[s])
    && Known(subOccs, w1) && |subOccs| == |ys| && Slots(subOccs, w1) == ys
    && ColumnIs(r.cols[col], Slots(occs, w)[col], mid, ys, binds, pres, w1)
    && nr == Row(SpliceAt(r.cols, col, mid), r.binds + binds, r.guards + r.cols[col].guards, r.presence + pres, r.action)
  }

  lemma ReplacedSlots(occs: seq<Sym>, col: nat, subOccs: seq<Sym>, w: World, w1: World)
    requires Known(occs, w) && Known(subOccs, w1) && col < |occs|
    requires forall s | s in w :: s in w1 && w1[s] == w[s]
    ensures Known(SpliceAt(occs, col, subOccs), w1)
    ensures Slots(SpliceAt(occs, col, subOccs), w1) == SpliceAt(Slots(occs, w), col, Slots(subOccs, w1))
  {
    var o1 := SpliceAt(occs, col, subOccs);
    forall o | o in o1 ensures o in w1 {
      assert o in occs || o in subOccs;
    }
  }

  lemma ReplacedMatch(r: Row, nr: Row, col: nat, occs: seq<Sym>, subOccs: seq<Sym>, w: World, w1: World,
      mid: seq<Pat>, ys: seq<Slot>, binds: seq<Bind>, pres: seq<Sym>)
    requires Replaced(r, nr, col, occs, subOccs, w, w1, mid, ys, binds, pres)
    ensures Known(nr.presence, w1)
    ensures MatchAll(nr.cols, SpliceAt(Slots(occs, w), col, ys)) && (forall s | s in nr.presence :: w1[s] != ABSENT) <==>
            RowMatches(r, occs, w)
  {
    SpliceAll(r.cols, Slots(occs, w), col, mid, ys);
    ColumnAll(r.cols, Slots(occs, w), col);
    assert forall s :: s in nr.presence <==> s in r.presence || s in pres;
  }

  lemma ReplacedBinds(r: Row, nr: Row, col: nat, occs: seq<Sym>, subOccs: seq<Sym>, w: World, w1: World,
      mid: seq<Pat>, ys: seq<Slot>, binds: seq<Bind>, pres: seq<Sym>)
    requires Replaced(r, nr, col, occs, subOccs, w, w1, mid, ys, binds, pres)
    ensures BindsOk(nr.binds, w1)
    ensures BindSet(nr.binds, w1) + BindAll(nr.cols, SpliceAt(Slots(occs, w), col, ys)) == RowBinds(r, occs, w)
    ensures RowGuards(nr) == RowGuards(r)
    ensures RowNames(nr) == RowNames(r)
  {
    var xs, p := Slots(occs, w), r.cols[col];
    SpliceAll(r.cols, xs, col, mid, ys);
    ColumnAll(r.cols, xs, col);
    BindSetGrows(r.binds, binds, w, w1);
    NamesAppend(r.binds, binds);
    ReplacedSets(r, nr, col, mid, Binds(p, xs[col].v, xs[col].fromKey), Guards(p), Names(p), xs, ys,
                 BindSet(r.binds, w), BindSet(binds, w1), set b | b in r.binds :: b.sym, set b | b in binds :: b.sym,
                 BindSet(nr.binds, w1), p.guards);
  }

  /** A row whose column was replaced by an equivalent one is the same row. */
  lemma ReplacedRow(r: Row, nr: Row, col: nat, occs: seq<Sym>, subOccs: seq<Sym>, w: World, w1: World,
      mid: seq<Pat>, ys: seq<Slot>, binds: seq<Bind>, pres: seq<Sym>)
    requires Replaced(r, nr, col, occs, subOccs, w, w1, mid, ys, binds, pres)
    ensures SameRow(nr, SpliceAt(occs, col, subOccs), w1, r, occs, w)
  {
    ReplacedSlots(occs, col, subOccs, w, w1);
    ReplacedMatch(r, nr, col, occs, subOccs, w, w1, mid, ys, binds, pres);
    ReplacedBinds(r, nr, col, occs, subOccs, w, w1, mid, ys, binds, pres);
    var good := q => WellFormed(q);
    assert forall q | q in nr.cols :: q in r.cols || q in mid;
    RowInFrom(r, nr, occs, SpliceAt(occs, col, subOccs), w, w1, good);
  }

  lemma RowInFrom(r: Row, nr: Row, occs: seq<Sym>, o1: seq<Sym>, w: World, w1: World, good: Pat -> bool)
    requires RowIn(r, occs, w) && |nr.cols| == |o1| && Known(o1, w1)
    requires forall q :: good(q) == WellFormed(q)
    requires forall q | q in nr.cols :: good(q)
    requires BindsOk(nr.binds, w1) && Known(nr.presence, w1)
    requires RowNames(nr) == RowNames(r) && RowGuards(nr) == RowGuards(r) && nr.action == r.action
    ensures RowIn(nr, o1, w1)
  {
  }

  lemma ReplacedSets(r: Row, nr: Row, col: nat, mid: seq<Pat>, pb: set<Bound>, pg: set<Guard>, pn: set<Sym>,
      xs: seq<Slot>, ys: seq<Slot>, rb: set<Bound>, xb: set<Bound>, rn: set<Sym>, xn: set<Sym>, nb: set<Bound>, gs: seq<Guard>)
    requires |r.cols| == |xs| && col < |xs| && |mid| == |ys|
    requires nr.cols == SpliceAt(r.cols, col, mid) && nr.guards == r.guards + gs
    requires BindAll(r.cols, xs) == BindAll(RemoveAt(r.cols, col), RemoveAt(xs, col)) + pb
    requires BindAll(nr.cols, SpliceAt(xs, col, ys)) == BindAll(RemoveAt(r.cols, col), RemoveAt(xs, col)) + BindAll(mid, ys)
    requires pb == xb + BindAll(mid, ys) && nb == rb + xb
    requires GuardAll(r.cols) == GuardAll(RemoveAt(r.cols, col)) + pg
    requires GuardAll(nr.cols) == GuardAll(RemoveAt(r.cols, col)) + GuardAll(mid)
    requires pg == (set g | g in gs) + GuardAll(mid)
    requires NameAll(r.cols) == NameAll(RemoveAt(r.cols, col)) + pn
    requires NameAll(nr.cols) == NameAll(RemoveAt(r.cols, col)) + NameAll(mid)
    requires pn == xn + NameAll(mid)
    ensures nb + BindAll(nr.cols, SpliceAt(xs, col, ys)) == rb + BindAll(r.cols, xs)
    ensures RowGuards(nr) == RowGuards(r)
    ensures rn + xn + NameAll(nr.cols) == rn + NameAll(r.cols)
  {
  }

  lemma SpecializeRowIs(r: Row, col: nat, ct: Ctor, occ: Sym, subOccs: seq<Sym>)
    requires col < |r.cols| && |subOccs| == Width(ct)
    ensures var p := r.cols[col];
            match SpecializeRow(r, col, ct, occ, subOccs)
            case None => !IsWild(p) && (p.head.HMap? ==> !ct.CMap?) && (!p.head.HMap? ==> CtorOf(p) != ct)
            case Some(nr) =>
              && (IsWild(p) || p.head.HMap? == ct.CMap?) && (!IsWild(p) && !p.head.HMap? ==> CtorOf(p) == ct)
              && nr == Row(SpliceAt(r.cols, col, Middle(p, ct)), r.binds + ExtraBinds(p, occ), r.guards + p.guards,
                           r.presence + ExtraPresence(p, ct, subOccs), r.action)
  {
    var p := r.cols[col];
    assert OwnBindList(p.binds, occ) + [] == OwnBindList(p.binds, occ);
    assert r.presence + [] == r.presence;
    assert p.head.HSeq? ==>
      r.binds + OwnBindList(p.binds, occ) + RestBind(p.head.isVec, occ, |p.head.sub|, p.head.rest) == r.binds + ExtraBinds(p, occ);
  }

  /** A specialized row means what the row meant. */
  lemma SpecializeRowSame(r: Row, col: nat, ct: Ctor, occs: seq<Sym>, subOccs: seq<Sym>, w: World, w1: World)
    requires RowIn(r, occs, w) && col < |occs| && Expands(w, w1, ct, w[occs[col]], subOccs)
    requires r.cols[col].head.HMap? && ct.CMap? ==> forall k | k in r.cols[col].head.keys :: k in ct.keys
    ensures match SpecializeRow(r, col, ct, occs[col], subOccs)
            case None => true
            case Some(nr) => SameRow(nr, SpliceAt(occs, col, subOccs), w1, r, occs, w)
  {
    var occ, p := occs[col], r.cols[col];
    match SpecializeRow(r, col, ct, occ, subOccs)
    case None =>
    case Some(nr) =>
      SpecializeRowIs(r, col, ct, occ, subOccs);
      ColumnSame(p, ct, occ, subOccs, w, w1);
      assert Slots(subOccs, w1) == SubSlots(ct, w[occ]);
      ReplacedRow(r, nr, col, occs, subOccs, w, w1, Middle(p, ct), SubSlots(ct, w[occ]), ExtraBinds(p, occ),
                  ExtraPresence(p, ct, subOccs));
  }

  /** A row with a wildcard in the column means the same without it. */
  lemma DefaultRowSame(r: Row, col: nat, occs: seq<Sym>, w: World)
    requires RowIn(r, occs, w) && col < |occs| && IsWild(r.cols[col])
    ensures SameRow(DefaultRow(r, col, occs[col]), RemoveAt(occs, col), w, r, occs, w)
  {
    var occ, p := occs[col], r.cols[col];
    WildColumn(p, 0, [], occ, w);
    assert Wilds(0) == [];
    assert RemoveAt(r.cols, col) == SpliceAt(r.cols, col, []) && RemoveAt(occs, col) == SpliceAt(occs, col, []);
    assert DefaultRow(r, col, occ).presence == r.presence + [];
    ReplacedRow(r, DefaultRow(r, col, occ), col, occs, [], w, w, [], [], OwnBindList(p.binds, occ), []);
  }

  // ----- whole matrices -----

  ghost predicate Origin(nr: Row, r: Row, col: nat, ct: Ctor, occ: Sym, subOccs: seq<Sym>)
    requires col < |r.cols| && |subOccs| == Width(ct)
  {
    SpecializeRow(r, col, ct, occ, subOccs) == Some(nr)
  }

  lemma {:induction false} SpecializeOrigin(rows: seq<Row>, col: nat, ct: Ctor, occ: Sym, subOccs: seq<Sym>, nr: Row)
      returns (r: Row)
    requires (forall r <- rows :: col < |r.cols|) && |subOccs| == Width(ct)
    requires nr in Specialize(rows, col, ct, occ, subOccs)
    ensures r in rows && Origin(nr, r, col, ct, occ, subOccs)
  {
    if SpecializeRow(rows[0], col, ct, occ, subOccs) == Some(nr) {
      r := rows[0];
    } else {
      r := SpecializeOrigin(rows[1..], col, ct, occ, subOccs, nr);
    }
  }

  lemma {:induction false} DefaultOrigin(rows: seq<Row>, col: nat, occ: Sym, nr: Row) returns (r: Row)
    requires forall r <- rows :: col < |r.cols|
    requires nr in DefaultMatrix(rows, col, occ)
    ensures r in rows && IsWild(r.cols[col]) && nr == DefaultRow(r, col, occ)
  {
    if IsWild(rows[0].cols[col]) && DefaultRow(rows[0], col, occ) == nr {
      r := rows[0];
    } else {
      r := DefaultOrigin(rows[1..], col, occ, nr);
    }
  }

  /** ns is rows without some, each kept row the same over the other occurrences; if `exact`, only rows that do
      not match are dropped. */
  ghost predicate Thinned(ns: seq<Row>, o1: seq<Sym>, w1: World, rows: seq<Row>, occs: seq<Sym>, w: World, exact: bool)
    requires RowsIn(rows, occs, w)
    decreases |rows|
  {
    if rows == [] then ns == []
    else
      assert rows[0] in rows;
      || (ns != [] && SameRow(ns[0], o1, w1, rows[0], occs, w) && Thinned(ns[1..], o1, w1, rows[1..], occs, w, exact))
      || ((exact ==> !RowMatches(rows[0], occs, w)) && Thinned(ns, o1, w1, rows[1..], occs, w, exact))
  }

  lemma {:induction false} ThinnedIn(ns: seq<Row>, o1: seq<Sym>, w1: World, rows: seq<Row>, occs: seq<Sym>, w: World, exact: bool)
    requires RowsIn(rows, occs, w) && Thinned(ns, o1, w1, rows, occs, w, exact)
    ensures RowsIn(ns, o1, w1)
    ensures forall nr | nr in ns :: exists r | r in rows :: SameRow(nr, o1, w1, r, occs, w)
    decreases |rows|
  {
    hide SameRow, RowIn, RowMatches;
    if rows != [] {
      assert rows[0] in rows && forall r | r in rows[1..] :: r in rows;
      if ns != [] && SameRow(ns[0], o1, w1, rows[0], occs, w) && Thinned(ns[1..], o1, w1, rows[1..], occs, w, exact) {
        ThinnedIn(ns[1..], o1, w1, rows[1..], occs, w, exact);
        SameRowIn(ns[0], o1, w1, rows[0], occs, w);
        assert forall nr :: nr in ns <==> nr == ns[0] || nr in ns[1..];
      } else {
        ThinnedIn(ns, o1, w1, rows[1..], occs, w, exact);
      }
    }
  }

  lemma SameRowIn(nr: Row, o1: seq<Sym>, w1: World, r: Row, occs: seq<Sym>, w: World)
    requires SameRow(nr, o1, w1, r, occs, w)
    ensures RowIn(nr, o1, w1) && RowIn(r, occs, w) && RowBinds(nr, o1, w1) == RowBinds(r, occs, w) && nr.action == r.action
  {
  }

  lemma SameRan(sem: Sem, rho: Scope, before: set<Bound>, nr: Row, o1: seq<Sym>, w1: World, r: Row, occs: seq<Sym>, w: World, res: Result)
    requires SameRow(nr, o1, w1, r, occs, w)
    ensures Ran(sem, rho, before, nr, o1, w1, res) <==> Ran(sem, rho, before, r, occs, w, res)
    ensures RowAccepts(sem, rho, nr, o1, w1) <==> RowAccepts(sem, rho, r, occs, w)
    ensures RowFaithful(rho, before, nr, o1, w1) <==> RowFaithful(rho, before, r, occs, w)
  {
    hide RowBinds, RowMatches, RowGuards, RowIn, GuardSaw, ActionSaw, GuardHolds, Functional, Clear;
  }

  /** What a row of the thinned matrix gives, the row it came from gives: more rows lie before it there. */
  lemma {:induction false} ThinnedRan(sem: Sem, rho: Scope, before: set<Bound>, ns: seq<Row>, o1: seq<Sym>, w1: World,
      rows: seq<Row>, occs: seq<Sym>, w: World, exact: bool, res: Result)
    requires RowsIn(rows, occs, w) && Thinned(ns, o1, w1, rows, occs, w, exact) && RowsIn(ns, o1, w1)
    requires RanSome(sem, rho, before, ns, o1, w1, res)
    ensures RanSome(sem, rho, before, rows, occs, w, res)
    decreases |rows|
  {
    hide SameRow, RowIn, RowMatches, Ran, RowBinds;
    assert rows[0] in rows;
    var bs := RowBinds(rows[0], occs, w);
    if ns != [] && SameRow(ns[0], o1, w1, rows[0], occs, w) && Thinned(ns[1..], o1, w1, rows[1..], occs, w, exact) {
      SameRowIn(ns[0], o1, w1, rows[0], occs, w);
      SameRan(sem, rho, before, ns[0], o1, w1, rows[0], occs, w, res);
      if !Ran(sem, rho, before, ns[0], o1, w1, res) {
        ThinnedRan(sem, rho, before + bs, ns[1..], o1, w1, rows[1..], occs, w, exact, res);
      }
    } else {
      RanSomeMore(sem, rho, before, before + bs, ns, o1, w1, res);
      ThinnedRan(sem, rho, before + bs, ns, o1, w1, rows[1..], occs, w, exact, res);
    }
  }

  /** When only rows that do not match are dropped, the first that accepts is the same. */
  lemma {:induction false} ThinnedFirst(sem: Sem, rho: Scope, before: set<Bound>, ns: seq<Row>, o1: seq<Sym>, w1: World,
      rows: seq<Row>, occs: seq<Sym>, w: World, res: Result, fail: Result)
    requires RowsIn(rows, occs, w) && Thinned(ns, o1, w1, rows, occs, w, true) && RowsIn(ns, o1, w1)
    requires RanFirst(sem, rho, before, ns, o1, w1, res, fail)
    ensures RanFirst(sem, rho, before, rows, occs, w, res, fail)
    decreases |rows|
  {
    hide SameRow, RowIn, RowMatches, RowBinds, ActionSaw, RowAccepts, RanFirst;
    if rows != [] {
      FirstStep(sem, rho, before, rows, occs, w, res, fail);
      var bs := RowBinds(rows[0], occs, w);
      if ns != [] && SameRow(ns[0], o1, w1, rows[0], occs, w) && Thinned(ns[1..], o1, w1, rows[1..], occs, w, true) {
        FirstStep(sem, rho, before, ns, o1, w1, res, fail);
        SameRowIn(ns[0], o1, w1, rows[0], occs, w);
        SameRan(sem, rho, before, ns[0], o1, w1, rows[0], occs, w, res);
        if !RowAccepts(sem, rho, ns[0], o1, w1) {
          ThinnedFirst(sem, rho, before + bs, ns[1..], o1, w1, rows[1..], occs, w, res, fail);
        }
      } else {
        NoMatchNoAccept(sem, rho, rows[0], occs, w);
        RanFirstMore(sem, rho, before, before + bs, ns, o1, w1, res, fail);
        ThinnedFirst(sem, rho, before + bs, ns, o1, w1, rows[1..], occs, w, res, fail);
      }
    } else {
      NothingFirst(sem, rho, before, o1, w1, occs, w, res, fail);
    }
  }

  lemma FirstStep(sem: Sem, rho: Scope, before: set<Bound>, rows: seq<Row>, occs: seq<Sym>, w: World, res: Result, fail: Result)
    requires RowsIn(rows, occs, w) && rows != []
    ensures RowIn(rows[0], occs, w) && RowsIn(rows[1..], occs, w)
    ensures RanFirst(sem, rho, before, rows, occs, w, res, fail) <==>
            if RowAccepts(sem, rho, rows[0], occs, w) then ActionSaw(rho, before, RowBinds(rows[0], occs, w), rows[0].action, res)
            else RanFirst(sem, rho, before + RowBinds(rows[0], occs, w), rows[1..], occs, w, res, fail)
  {
    hide RowIn, RowBinds, RowAccepts, ActionSaw;
    assert rows[0] in rows;
  }

  lemma NothingFirst(sem: Sem, rho: Scope, before: set<Bound>, o1: seq<Sym>, w1: World, occs: seq<Sym>, w: World, res: Result, fail: Result)
    ensures RanFirst(sem, rho, before, [], o1, w1, res, fail) <==> RanFirst(sem, rho, before, [], occs, w, res, fail)
  {
  }

  lemma NoMatchNoAccept(sem: Sem, rho: Scope, r: Row, occs: seq<Sym>, w: World)
    requires RowIn(r, occs, w)
    ensures RowAccepts(sem, rho, r, occs, w) ==> RowMatches(r, occs, w)
  {
  }

  lemma {:induction false} ThinnedFaithful(rho: Scope, before: set<Bound>, ns: seq<Row>, o1: seq<Sym>, w1: World,
      rows: seq<Row>, occs: seq<Sym>, w: World, exact: bool)
    requires RowsIn(rows, occs, w) && Thinned(ns, o1, w1, rows, occs, w, exact) && RowsIn(ns, o1, w1)
    requires Faithful(rho, before, rows, occs, w)
    ensures Faithful(rho, before, ns, o1, w1)
    decreases |rows|
  {
    hide SameRow, RowIn, RowMatches, RowBinds, RowFaithful;
    if rows != [] {
      assert rows[0] in rows;
      var bs := RowBinds(rows[0], occs, w);
      if ns != [] && SameRow(ns[0], o1, w1, rows[0], occs, w) && Thinned(ns[1..], o1, w1, rows[1..], occs, w, exact) {
        SameRowIn(ns[0], o1, w1, rows[0], occs, w);
        SameRan(Sem((p, vs, x) => false, (id, vs) => ABSENT), rho, before, ns[0], o1, w1, rows[0], occs, w, NoMatch);
        ThinnedFaithful(rho, before + bs, ns[1..], o1, w1, rows[1..], occs, w, exact);
      } else {
        FaithfulLess(rho, before, before + bs, rows[1..], occs, w);
        ThinnedFaithful(rho, before, ns, o1, w1, rows[1..], occs, w, exact);
      }
    }
  }

  lemma {:induction false} SpecializeThins(rows: seq<Row>, col: nat, ct: Ctor, occs: seq<Sym>, subOccs: seq<Sym>, w: World, w1: World, exact: bool)
    requires RowsIn(rows, occs, w) && col < |occs| && |subOccs| == Width(ct)
    requires forall r | r in rows ::
      match SpecializeRow(r, col, ct, occs[col], subOccs)
      case None => exact ==> !RowMatches(r, occs, w)
      case Some(nr) => SameRow(nr, SpliceAt(occs, col, subOccs), w1, r, occs, w)
    ensures Thinned(Specialize(rows, col, ct, occs[col], subOccs), SpliceAt(occs, col, subOccs), w1, rows, occs, w, exact)
    decreases |rows|
  {
    if rows != [] {
      hide SameRow, RowMatches, SpecializeRow;
      assert rows[0] in rows && forall r | r in rows[1..] :: r in rows;
      assert |rows[0].cols| == |occs| by { assert RowIn(rows[0], occs, w); }
      SpecializeThins(rows[1..], col, ct, occs, subOccs, w, w1, exact);
      var rest := Specialize(rows[1..], col, ct, occs[col], subOccs);
      match SpecializeRow(rows[0], col, ct, occs[col], subOccs) {
        case None =>
        case Some(nr) => assert ([nr] + rest)[1..] == rest;
      }
    }
  }

  lemma {:induction false} DefaultThins(rows: seq<Row>, col: nat, occs: seq<Sym>, w: World, exact: bool)
    requires RowsIn(rows, occs, w) && col < |occs|
    requires exact ==> forall r | r in rows && !IsWild(r.cols[col]) :: !RowMatches(r, occs, w)
    ensures Thinned(DefaultMatrix(rows, col, occs[col]), RemoveAt(occs, col), w, rows, occs, w, exact)
    decreases |rows|
  {
    if rows != [] {
      hide SameRow, RowMatches;
      assert rows[0] in rows && forall r | r in rows[1..] :: r in rows;
      DefaultThins(rows[1..], col, occs, w, exact);
      var rest := DefaultMatrix(rows[1..], col, occs[col]);
      if IsWild(rows[0].cols[col]) {
        DefaultRowSame(rows[0], col, occs, w);
        assert ([DefaultRow(rows[0], col, occs[col])] + rest)[1..] == rest;
      }
    }
  }

  // ----- the premises of the theorem -----

  predicate CountsDisjoint(n: nat, nRest: bool, m: nat, mRest: bool) {
    if nRest && mRest then false
    else if nRest then m < n
    else if mRest then n < m
    else n != m
  }

  predicate CtorsDisjoint(a: Ctor, b: Ctor) {
    match (a, b)
    case (CLit(l), CLit(m)) => l != m
    case (CSeq(_, n, nr), CSeq(_, m, mr)) => CountsDisjoint(n, nr, m, mr)
    case (CMap(_), CMap(_)) => false
    case _ => true
  }

  ghost predicate BothAccept(a: Ctor, b: Ctor, v: Value) {
    CtorAccepts(a, v) && CtorAccepts(b, v)
  }

  /** The static test is exact: constructors are disjoint just when no value is both. */
  lemma CtorsDisjointExact(a: Ctor, b: Ctor)
    ensures CtorsDisjoint(a, b) <==> forall v :: !BothAccept(a, b, v)
  {
    if !CtorsDisjoint(a, b) {
      match (a, b)
      case (CLit(l), CLit(m)) => assert BothAccept(a, b, Scalar(l));
      case (CSeq(_, n, nr), CSeq(_, m, mr)) =>
        assert BothAccept(a, b, Vec(seq(if nr && (n < m || !mr) then m else n, i => Scalar(LNil))));
      case (CMap(_), CMap(_)) => assert BothAccept(a, b, Map(map[]));
    }
  }

  /** Hereditarily: different constructors are disjoint, equal ones have compatible sub-patterns, and
      map patterns agree key by key. */
  ghost predicate Compatible(p: Pat, q: Pat)
    requires WellFormed(p) && WellFormed(q)
    decreases p
  {
    if IsWild(p) || IsWild(q) then true
    else if p.head.HMap? && q.head.HMap? then
      forall i, j | 0 <= i < |p.head.keys| && 0 <= j < |q.head.keys| && p.head.keys[i] == q.head.keys[j] ::
        Compatible(p.head.vals[i], q.head.vals[j])
    else if CtorOf(p) == CtorOf(q) then
      p.head.HSeq? ==> forall i | 0 <= i < |p.head.sub| :: Compatible(p.head.sub[i], q.head.sub[i])
    else CtorsDisjoint(CtorOf(p), CtorOf(q))
  }

  ghost predicate CompatibleRows(r: Row, s: Row) {
    forall i | 0 <= i < |r.cols| && i < |s.cols| ::
      WellFormed(r.cols[i]) && WellFormed(s.cols[i]) && Compatible(r.cols[i], s.cols[i])
  }

  ghost predicate CompatibleMatrix(rows: seq<Row>) {
    forall r, s | r in rows && s in rows :: CompatibleRows(r, s)
  }

  /** Value patterns two compatible map patterns give one key are compatible. */
  lemma ValueForCompatible(p: Pat, q: Pat, k: Lit)
    requires p.head.HMap? && q.head.HMap? && WellFormed(p) && WellFormed(q) && Compatible(p, q)
    ensures var x, y := ValueFor(p.head.keys, p.head.vals, k), ValueFor(q.head.keys, q.head.vals, k);
            WellFormed(x) && WellFormed(y) && Compatible(x, y)
  {
    if k !in p.head.keys {
      ValueForOmitted(p.head.keys, p.head.vals, k);
    } else {
      var i :| 0 <= i < |p.head.keys| && p.head.keys[i] == k;
      ValueForNamed(p.head.keys, p.head.vals, i);
    }
    if k !in q.head.keys {
      ValueForOmitted(q.head.keys, q.head.vals, k);
    } else {
      var j :| 0 <= j < |q.head.keys| && q.head.keys[j] == k;
      ValueForNamed(q.head.keys, q.head.vals, j);
    }
  }

  lemma MiddleCompatible(p: Pat, q: Pat, ct: Ctor)
    requires WellFormed(p) && WellFormed(q) && Compatible(p, q)
    requires IsWild(p) || p.head.HMap? == ct.CMap?
    requires !IsWild(p) && !p.head.HMap? ==> CtorOf(p) == ct
    requires IsWild(q) || q.head.HMap? == ct.CMap?
    requires !IsWild(q) && !q.head.HMap? ==> CtorOf(q) == ct
    ensures forall i | 0 <= i < Width(ct) ::
              WellFormed(Middle(p, ct)[i]) && WellFormed(Middle(q, ct)[i]) && Compatible(Middle(p, ct)[i], Middle(q, ct)[i])
  {
    forall i | 0 <= i < Width(ct)
      ensures WellFormed(Middle(p, ct)[i]) && WellFormed(Middle(q, ct)[i]) && Compatible(Middle(p, ct)[i], Middle(q, ct)[i])
    {
      if p.head.HMap? && q.head.HMap? {
        ValueForCompatible(p, q, ct.keys[i]);
      } else if p.head.HMap? {
        ValueForCompatible(p, Pat(HMap([], []), [], []), ct.keys[i]);
      } else if q.head.HMap? {
        ValueForCompatible(q, Pat(HMap([], []), [], []), ct.keys[i]);
      }
    }
  }

  lemma SpecializeCompatible(r: Row, s: Row, nr: Row, ns: Row, k: nat, col: nat, ct: Ctor, occ: Sym, subOccs: seq<Sym>)
    requires |r.cols| == |s.cols| == k && col < k && |subOccs| == Width(ct)
    requires Origin(nr, r, col, ct, occ, subOccs) && Origin(ns, s, col, ct, occ, subOccs)
    requires CompatibleRows(r, s)
    ensures CompatibleRows(nr, ns)
  {
    MiddleCompatible(r.cols[col], s.cols[col], ct);
    var mid, mis := Middle(r.cols[col], ct), Middle(s.cols[col], ct);
    assert nr.cols == SpliceAt(r.cols, col, mid) && ns.cols == SpliceAt(s.cols, col, mis);
    forall i | 0 <= i < |nr.cols|
      ensures WellFormed(nr.cols[i]) && WellFormed(ns.cols[i]) && Compatible(nr.cols[i], ns.cols[i])
    {
      if i < col {
        assert nr.cols[i] == r.cols[i] && ns.cols[i] == s.cols[i];
      } else if i < col + Width(ct) {
        assert nr.cols[i] == mid[i - col] && ns.cols[i] == mis[i - col];
      } else {
        assert nr.cols[i] == r.cols[i - Width(ct) + 1] && ns.cols[i] == s.cols[i - Width(ct) + 1];
      }
    }
  }

  lemma SpecializeKeepsCompatible(rows: seq<Row>, k: nat, col: nat, ct: Ctor, occ: Sym, subOccs: seq<Sym>)
    requires Aligned(rows, k) && col < k && |subOccs| == Width(ct) && CompatibleMatrix(rows)
    ensures CompatibleMatrix(Specialize(rows, col, ct, occ, subOccs))
  {
    var spec := Specialize(rows, col, ct, occ, subOccs);
    forall nr, ns | nr in spec && ns in spec ensures CompatibleRows(nr, ns) {
      var r := SpecializeOrigin(rows, col, ct, occ, subOccs, nr);
      var s := SpecializeOrigin(rows, col, ct, occ, subOccs, ns);
      SpecializeCompatible(r, s, nr, ns, k, col, ct, occ, subOccs);
    }
  }

  lemma DefaultKeepsCompatible(rows: seq<Row>, k: nat, col: nat, occ: Sym)
    requires Aligned(rows, k) && col < k && CompatibleMatrix(rows)
    ensures CompatibleMatrix(DefaultMatrix(rows, col, occ))
  {
    var def := DefaultMatrix(rows, col, occ);
    forall nr, ns | nr in def && ns in def ensures CompatibleRows(nr, ns) {
      var r := DefaultOrigin(rows, col, occ, nr);
      var s := DefaultOrigin(rows, col, occ, ns);
      assert CompatibleRows(r, s);
      forall i | 0 <= i < |nr.cols|
        ensures WellFormed(nr.cols[i]) && WellFormed(ns.cols[i]) && Compatible(nr.cols[i], ns.cols[i])
      {
        var o := if i < col then i else i + 1;
        assert nr.cols[i] == r.cols[o] && ns.cols[i] == s.cols[o];
      }
    }
  }
}
