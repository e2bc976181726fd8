/** From the clauses as written to the evaluated tree: what a clause must satisfy, and that `match` then
    runs the first reading that accepts. */
module MatchSurfaceTheorems {
  import opened MatchForms
  import opened MatchPattern
  import opened MatchParse
  import opened MatchCompile
  import opened MatchRows
  import opened MatchTheorems
  import opened MatchSurface
  import opened Options

  // ----- names of a reading -----

  ghost function SNames(c: Surface): set<Sym> {
    match c
    case SBind(x) => {x}
    case SSeq(_, heads, tail) =>
      (set h, s | h in heads && s in SNames(h) :: s) + (if tail.NamedTail? then {tail.sym} else {})
    case SMap(_, vals) => set q, s | q in vals && s in SNames(q) :: s
    case SGuard(inner, _, _) => SNames(inner)
    case SAs(inner, name) => SNames(inner) + {name}
    case _ => {}
  }

  /** The names its guards' predicates mention. */
  ghost function SFree(c: Surface): set<Sym> {
    match c
    case SSeq(_, heads, _) => set h, s | h in heads && s in SFree(h) :: s
    case SMap(_, vals) => set q, s | q in vals && s in SFree(q) :: s
    case SGuard(inner, _, free) => SFree(inner) + set s | s in free
    case SAs(inner, _) => SFree(inner)
    case _ => {}
  }

  /** No two of the patterns bind a name in common. */
  ghost predicate Apart(cs: seq<Surface>) {
    forall i, j | 0 <= i < j < |cs| :: SNames(cs[i]) !! SNames(cs[j])
  }

  /** Each name is bound once. */
  ghost predicate SLinear(c: Surface) {
    match c
    case SSeq(_, heads, tail) =>
      && (forall h | h in heads :: SLinear(h) && (tail.NamedTail? ==> tail.sym !in SNames(h)))
      && Apart(heads)
    case SMap(_, vals) => (forall q | q in vals :: SLinear(q)) && Apart(vals)
    case SGuard(inner, _, _) => SLinear(inner)
    case SAs(inner, name) => SLinear(inner) && name !in SNames(inner)
    case _ => true
  }

  // ----- names of a rendering -----

  lemma {:induction false} RenderNames(c: Surface, p: Pat, s: Sym)
    requires Renders(c, p) && UserForm(c) && s.User?
    ensures s in Names(p) <==> s in SNames(c)
    decreases c
  {
    match c
    case SSeq(isVec, heads, tail) =>
      forall i | 0 <= i < |heads| ensures s in Names(p.head.sub[i]) <==> s in SNames(heads[i]) {
        assert heads[i] in heads;
        RenderNames(heads[i], p.head.sub[i], s);
      }
    case SMap(keys, vals) =>
      forall i | 0 <= i < |vals| ensures s in Names(p.head.vals[i]) <==> s in SNames(vals[i]) {
        assert vals[i] in vals;
        RenderNames(vals[i], p.head.vals[i], s);
      }
    case SGuard(inner, pred, free) =>
      var q :| Renders(inner, q) && Guarded(q, pred, free, p);
      RenderNames(inner, q, s);
    case SAs(inner, name) =>
      var q :| Renders(inner, q) && Named(q, name, p);
      RenderNames(inner, q, s);
    case _ =>
  }

  function Kids(p: Pat): seq<Pat> {
    match p.head
    case HSeq(_, sub, _) => sub
    case HMap(_, vals) => vals
    case _ => []
  }

  /** Names made up for guards do not meet. */
  ghost predicate GuardsApart(ps: seq<Pat>) {
    forall i, j, s | 0 <= i < j < |ps| && s in Names(ps[i]) && s in Names(ps[j]) :: s.User?
  }

  /** Linear, as far as the names made up for guards go. */
  ghost predicate GLinear(p: Pat)
    decreases p
  {
    && (p.head.HSeq? ==> forall q | q in p.head.sub :: GLinear(q))
    && (p.head.HMap? ==> forall q | q in p.head.vals :: GLinear(q))
    && (forall q, s | q in Kids(p) && s in p.binds && s in Names(q) :: s.User?)
    && GuardsApart(Kids(p))
  }

  lemma SubNames(p: Pat, q: Pat)
    requires q in Kids(p)
    ensures Names(q) <= Names(p)
  {
  }

  /** A rendering of a linear reading is linear. */
  lemma {:induction false} RenderLinear(c: Surface, p: Pat)
    requires Renders(c, p) && UserForm(c) && SLinear(c) && GLinear(p)
    ensures Linear(p)
    decreases c, 1
  {
    hide GLinear, Linear, Names, SNames;
    match c
    case SSeq(isVec, heads, tail) =>
      GLinearKids(p);
      ListLinear(heads, p.head.sub);
      forall q | tail.NamedTail? && q in p.head.sub ensures tail.sym !in Names(q) {
        var i :| 0 <= i < |heads| && p.head.sub[i] == q;
        assert heads[i] in heads;
        RenderNames(heads[i], q, tail.sym);
      }
      NodeLinear(p);
    case SMap(keys, vals) =>
      GLinearKids(p);
      ListLinear(vals, p.head.vals);
      NodeLinear(p);
    case SGuard(inner, pred, free) =>
      var q :| Renders(inner, q) && Guarded(q, pred, free, p);
      GLinearLess(q, p);
      RenderLinear(inner, q);
      RestUser(inner, q);
      MoreLinear(q, p);
    case SAs(inner, name) =>
      var q :| Renders(inner, q) && Named(q, name, p);
      GLinearLess(q, p);
      RenderLinear(inner, q);
      RenderNames(inner, q, name);
      RestUser(inner, q);
      MoreLinear(q, p);
    case _ => LeafLinear(p);
  }

  lemma {:induction false} ListLinear(cs: seq<Surface>, ps: seq<Pat>)
    requires RendersAll(cs, ps) && (forall c | c in cs :: UserForm(c) && SLinear(c)) && Apart(cs)
    requires GuardsApart(ps) && forall p | p in ps :: GLinear(p)
    ensures (forall p | p in ps :: Linear(p)) && forall i, j | 0 <= i < j < |ps| :: Names(ps[i]) !! Names(ps[j])
    decreases cs, 0
  {
    hide Renders, GLinear, Linear, Names, SNames, SLinear, UserForm;
    forall p | p in ps ensures Linear(p) {
      var i :| 0 <= i < |ps| && ps[i] == p;
      assert cs[i] in cs;
      RenderLinear(cs[i], p);
    }
    forall i, j | 0 <= i < j < |ps| ensures Names(ps[i]) !! Names(ps[j]) {
      forall s | s in Names(ps[i]) && s in Names(ps[j]) ensures false {
        assert s.User? && cs[i] in cs && cs[j] in cs;
        RenderNames(cs[i], ps[i], s);
        RenderNames(cs[j], ps[j], s);
      }
    }
  }

  lemma GLinearKids(p: Pat)
    requires GLinear(p)
    ensures GuardsApart(Kids(p)) && forall q | q in Kids(p) :: GLinear(q)
  {
  }

  lemma NodeLinear(p: Pat)
    requires p.binds == [] && (forall q | q in Kids(p) :: Linear(q))
    requires forall i, j | 0 <= i < j < |Kids(p)| :: Names(Kids(p)[i]) !! Names(Kids(p)[j])
    requires p.head.HSeq? && p.head.rest.Some? ==> forall q | q in p.head.sub :: p.head.rest.value !in Names(q)
    ensures Linear(p)
  {
  }

  lemma LeafLinear(p: Pat)
    requires p.head.HWild? || p.head.HLit?
    ensures Linear(p)
  {
  }

  lemma GLinearLess(q: Pat, p: Pat)
    requires p.head == q.head && GLinear(p) && forall s | s in q.binds :: s in p.binds
    ensures GLinear(q)
  {
  }

  lemma {:induction false} RestUser(c: Surface, p: Pat)
    requires Renders(c, p) && UserForm(c)
    ensures p.head.HSeq? && p.head.rest.Some? ==> p.head.rest.value.User? && p.head.rest.value in Names(p)
    decreases c
  {
    match c
    case SGuard(inner, pred, free) =>
      var q :| Renders(inner, q) && Guarded(q, pred, free, p);
      RestUser(inner, q);
    case SAs(inner, name) =>
      var q :| Renders(inner, q) && Named(q, name, p);
      RestUser(inner, q);
    case _ =>
  }

  /** The same node with more names stays linear if they are new, or made up and new to what is below. */
  lemma MoreLinear(q: Pat, p: Pat)
    requires p.head == q.head && Linear(q) && GLinear(p)
    requires forall s | s in p.binds :: s in q.binds || s !in Names(q) || s.Gen?
    requires p.head.HSeq? && p.head.rest.Some? ==> p.head.rest.value.User? && p.head.rest.value in Names(q)
    ensures Linear(p)
  {
    hide Names;
    forall k, s | k in Kids(p) && s in p.binds ensures s !in Names(k) {
      SubNames(q, k);
    }
  }

  // ----- guards of a rendering -----

  /** A guard asks about a name of its own pattern and mentions what was written. */
  lemma {:induction false} RenderFree(c: Surface, p: Pat, g: Guard)
    requires Renders(c, p) && g in Guards(p)
    ensures g.arg in Names(p) && forall s | s in g.free :: s in SFree(c)
    decreases c
  {
    match c
    case SSeq(isVec, heads, tail) =>
      var i :| 0 <= i < |heads| && g in Guards(p.head.sub[i]);
      RenderFree(heads[i], p.head.sub[i], g);
      SubNames(p, p.head.sub[i]);
    case SMap(keys, vals) =>
      var i :| 0 <= i < |vals| && g in Guards(p.head.vals[i]);
      RenderFree(vals[i], p.head.vals[i], g);
      SubNames(p, p.head.vals[i]);
    case SGuard(inner, pred, free) =>
      var q :| Renders(inner, q) && Guarded(q, pred, free, p);
      GuardedGuards(q, pred, free, p);
      if g in Guards(q) {
        RenderFree(inner, q, g);
        assert Names(q) <= Names(p);
      }
    case SAs(inner, name) =>
      var q :| Renders(inner, q) && Named(q, name, p);
      MoreBinds(q, p, Scalar(LNil), false);
      assert g in Guards(q);
      RenderFree(inner, q, g);
    case _ =>
  }

  // ----- the parser's numbering -----

  /** Its made-up names are from the counter's values above lo up to hi, and each is used once. */
  ghost predicate Numbered(p: Pat, lo: nat, hi: nat) {
    GLinear(p) && forall s | s in Names(p) :: s.User? || (GuardName(s) && lo < s.n <= hi)
  }

  ghost predicate AllNumbered(ps: seq<Pat>, lo: nat, hi: nat) {
    forall p | p in ps :: Numbered(p, lo, hi)
  }

  lemma AddGuardNumbered(p: Pat, pred: nat, free: seq<Sym>, lo: nat, n: nat)
    requires Numbered(p, lo, n) && lo <= n
    ensures var (q, n1) := AddGuard(p, pred, free, n); n <= n1 && Numbered(q, lo, n1)
  {
    var (q, n1) := AddGuard(p, pred, free, n);
    assert Names(q) == Names(p) + set s | s in q.binds by {
      NamesOfHead(p, q);
    }
    hide Names;
    forall k, s | k in Kids(q) && s in q.binds && s in Names(k) ensures s.User? {
      SubNames(p, k);
    }
  }

  lemma NamesOfHead(p: Pat, q: Pat)
    requires p.head == q.head && forall s | s in p.binds :: s in q.binds
    ensures Names(q) == Names(p) + set s | s in q.binds
  {
  }

  lemma {:induction false} AddGuardsNumbered(ps: seq<Pat>, pred: nat, free: seq<Sym>, lo: nat, n: nat)
    requires AllNumbered(ps, lo, n) && lo <= n
    ensures var r := AddGuards(ps, pred, free, n); n <= r.n && AllNumbered(r.alts, lo, r.n)
  {
    hide GLinear, Names, GuardName;
    if ps != [] {
      var (p, n1) := AddGuard(ps[0], pred, free, n);
      assert ps[0] in ps;
      AddGuardNumbered(ps[0], pred, free, lo, n);
      forall q | q in ps[1..] ensures Numbered(q, lo, n1) {
        assert q in ps && Numbered(q, lo, n);
      }
      AddGuardsNumbered(ps[1..], pred, free, lo, n1);
    }
  }

  lemma AddNameNumbered(ps: seq<Pat>, name: Sym, lo: nat, hi: nat)
    requires AllNumbered(ps, lo, hi) && name.User?
    ensures AllNumbered(AddName(ps, name), lo, hi)
  {
    forall q | q in AddName(ps, name) ensures Numbered(q, lo, hi) {
      var i :| 0 <= i < |ps| && AddName(ps, name)[i] == q;
      NamesOfHead(ps[i], q);
      hide Names;
      assert ps[i] in ps;
      forall k, s | k in Kids(q) && s in q.binds && s in Names(k) ensures s.User? {
        assert k in Kids(ps[i]);
      }
    }
  }

  /** Columns parsed one after another share no made-up name. */
  ghost predicate ColumnsApart(cols: seq<seq<Pat>>, lo: nat, hi: nat) {
    && (forall i | 0 <= i < |cols| :: AllNumbered(cols[i], lo, hi))
    && forall i, j, p, q, s | 0 <= i < j < |cols| && p in cols[i] && q in cols[j] && s in Names(p) && s in Names(q) :: s.User?
  }

  lemma ComboApart(cols: seq<seq<Pat>>, combo: seq<Pat>, lo: nat, hi: nat)
    requires ColumnsApart(cols, lo, hi) && combo in Cartesian(cols)
    ensures GuardsApart(combo) && AllNumbered(combo, lo, hi)
  {
    hide Numbered, Names;
    CartesianIs(cols, combo);
    forall p | p in combo ensures Numbered(p, lo, hi) {
      var i :| 0 <= i < |combo| && combo[i] == p;
      assert AllNumbered(cols[i], lo, hi);
    }
  }

  lemma NodeNumbered(head: Head, lo: nat, hi: nat)
    requires head.HSeq? || head.HMap?
    requires head.HSeq? && head.rest.Some? ==> head.rest.value.User?
    requires GuardsApart(Kids(Pat(head, [], []))) && AllNumbered(Kids(Pat(head, [], [])), lo, hi)
    ensures Numbered(Pat(head, [], []), lo, hi)
  {
  }

  lemma {:induction false} ParseNumbers(s: Surface, n: nat)
    requires UserForm(s) && ParsePat(s, n).Parsed?
    ensures n <= ParsePat(s, n).n && AllNumbered(ParsePat(s, n).alts, n, ParsePat(s, n).n)
    decreases s, 1
  {
    hide AllNumbered, Numbered;
    var r := ParsePat(s, n);
    match s
    case SSeq(isVec, heads, tail) => SeqNumbers(s, n);
    case SMap(keys, vals) => MapNumbers(s, n);
    case SOr(alts) =>
      AllNumbers(alts, n);
      ConcatNumbered(ParseAll(alts, n).cols, n, r.n);
    case SGuard(inner, pred, free) =>
      ParseNumbers(inner, n);
      AddGuardsNumbered(ParsePat(inner, n).alts, pred, free, n, ParsePat(inner, n).n);
    case SAs(inner, name) =>
      ParseNumbers(inner, n);
      AddNameNumbered(ParsePat(inner, n).alts, name, n, r.n);
    case _ => LeafNumbered(s, n);
  }

  lemma LeafNumbered(s: Surface, n: nat)
    requires UserForm(s) && (s.SWild? || s.SBind? || s.SLit?)
    ensures AllNumbered(ParsePat(s, n).alts, n, n)
  {
  }

  lemma {:induction false} SeqNumbers(s: Surface, n: nat)
    requires s.SSeq? && UserForm(s) && ParsePat(s, n).Parsed?
    ensures n <= ParsePat(s, n).n && AllNumbered(ParsePat(s, n).alts, n, ParsePat(s, n).n)
    decreases s, 0
  {
    hide Numbered, Cartesian;
    AllNumbers(s.heads, n);
    var r := ParsePat(s, n);
    var cols := ParseAll(s.heads, n).cols;
    var combos := if Cartesian(cols) == [] then [[]] else Cartesian(cols);
    assert r.alts == SeqPats(s.isVec, combos, TailName(s.tail));
    forall p | p in r.alts ensures Numbered(p, n, r.n) {
      if p.head.sub != [] {
        ComboApart(cols, p.head.sub, n, r.n);
      }
      NodeNumbered(p.head, n, r.n);
    }
  }

  lemma {:induction false} MapNumbers(s: Surface, n: nat)
    requires s.SMap? && UserForm(s) && ParsePat(s, n).Parsed?
    ensures n <= ParsePat(s, n).n && AllNumbered(ParsePat(s, n).alts, n, ParsePat(s, n).n)
    decreases s, 0
  {
    hide Numbered, Cartesian;
    AllNumbers(s.vals, n);
    var r := ParsePat(s, n);
    var cols := ParseAll(s.vals, n).cols;
    SinglesCartesian(cols);
    ComboApart(cols, Firsts(cols), n, r.n);
    NodeNumbered(r.alts[0].head, n, r.n);
  }

  lemma ConcatNumbered(cols: seq<seq<Pat>>, lo: nat, hi: nat)
    requires ColumnsApart(cols, lo, hi)
    ensures AllNumbered(Concat(cols), lo, hi)
  {
    hide Numbered;
    forall p | p in Concat(cols) ensures Numbered(p, lo, hi) {
      ConcatHas(cols, p);
      var k :| 0 <= k < |cols| && p in cols[k];
      assert AllNumbered(cols[k], lo, hi);
    }
  }

  lemma {:induction false} AllNumbers(ss: seq<Surface>, n: nat)
    requires (forall s | s in ss :: UserForm(s)) && ParseAll(ss, n).ParsedAll?
    ensures n <= ParseAll(ss, n).n && ColumnsApart(ParseAll(ss, n).cols, n, ParseAll(ss, n).n)
    decreases ss, 0
  {
    hide GLinear, Names, UserForm, ParsePat;
    if ss != [] {
      ParseNumbers(ss[0], n);
      var first := ParsePat(ss[0], n);
      AllNumbers(ss[1..], first.n);
      ConsApart(first.alts, ParseAll(ss[1..], first.n).cols, n, first.n, ParseAll(ss, n).n);
    }
  }

  lemma ConsApart(first: seq<Pat>, cols: seq<seq<Pat>>, lo: nat, mid: nat, hi: nat)
    requires lo <= mid <= hi && AllNumbered(first, lo, mid) && ColumnsApart(cols, mid, hi)
    ensures ColumnsApart([first] + cols, lo, hi)
  {
    hide GLinear, Names, GuardName;
    var all := [first] + cols;
    forall i | 0 <= i < |all| ensures AllNumbered(all[i], lo, hi) {
      assert i > 0 ==> AllNumbered(cols[i - 1], mid, hi);
    }
    forall i, j, p, q, s | 0 <= i < j < |all| && p in all[i] && q in all[j] && s in Names(p) && s in Names(q) ensures s.User? {
      assert Numbered(q, mid, hi) by { assert AllNumbered(cols[j - 1], mid, hi); }
      if i == 0 {
        assert Numbered(p, lo, mid);
      } else {
        assert p in cols[i - 1] && q in cols[j - 1];
      }
    }
  }

  // ----- rows of the parsed clauses -----

  /** What parsing makes of a row: patterns as the reader builds them, made-up names used once. */
  ghost predicate RowParsed(c: Clause, arity: nat) {
    && |c.pats| == arity && GuardsApart(c.pats)
    && forall p | p in c.pats :: WellFormed(p) && GLinear(p) && forall s | s in Names(p) :: s.User? || GuardName(s)
  }

  lemma ColumnsParsed(c: SurfaceClause, arity: nat, n: nat)
    requires SurfaceOk(c) && ColumnsOf(c.row, arity, n).ParsedAll?
    ensures n <= ColumnsOf(c.row, arity, n).n
    ensures forall row | row in ClausesFor(Cartesian(ColumnsOf(c.row, arity, n).cols), c.action) :: RowParsed(row, arity)
  {
    hide Cartesian, Plain, Keyed, UserForm, GLinear, WellFormed, Names, GuardName;
    var r := ColumnsOf(c.row, arity, n);
    match c.row {
      case Else => WildNumbered(arity, n);
      case Pats(ss) =>
        AllNumbers(ss, n);
        AllWellFormed(ss, n);
    }
    assert ColumnsApart(r.cols, n, r.n) && forall i, p | 0 <= i < |r.cols| && p in r.cols[i] :: WellFormed(p);
    hide ColumnsOf, ColumnsApart, AllNumbered;
    forall combo | combo in Cartesian(r.cols) ensures RowParsed(Clause(combo, c.action), arity) {
      ComboApart(r.cols, combo, n, r.n);
      CartesianIs(r.cols, combo);
      forall p | p in combo ensures WellFormed(p) && Numbered(p, n, r.n) {
        var i :| 0 <= i < |combo| && combo[i] == p;
        AllNumberedIn(combo, p, n, r.n);
      }
    }
  }

  lemma AllNumberedIn(ps: seq<Pat>, p: Pat, lo: nat, hi: nat)
    requires AllNumbered(ps, lo, hi) && p in ps
    ensures Numbered(p, lo, hi)
  {
  }

  lemma WildNumbered(arity: nat, n: nat)
    ensures ColumnsApart(seq(arity, i => [WILD]), n, n) && WellFormed(WILD)
  {
    assert Names(WILD) == {};
  }

  lemma {:induction false} ParseClausesParsed(cs: seq<SurfaceClause>, arity: nat, n: nat)
    requires (forall c <- cs :: SurfaceOk(c)) && ParseClauses(cs, arity, n).ParsedClauses?
    ensures n <= ParseClauses(cs, arity, n).n
    ensures forall row | row in ParseClauses(cs, arity, n).rows :: RowParsed(row, arity)
  {
    hide RowParsed, SurfaceOk, Cartesian, ColumnsOf;
    if cs != [] {
      var p := ColumnsOf(cs[0].row, arity, n);
      ColumnsParsed(cs[0], arity, n);
      ParseClausesParsed(cs[1..], arity, p.n);
    }
  }

  // ----- what a clause must satisfy -----

  ghost function ReadingNames(r: Reading): set<Sym> {
    set c, s | c in r.pats && s in SNames(c) :: s
  }

  /** What its guards and its action mention. */
  ghost function ReadingFree(r: Reading): set<Sym> {
    (set c, s | c in r.pats && s in SFree(c) :: s) + set s | s in r.action.free
  }

  /** Each name bound once; what is mentioned is bound by the reading or around the form. */
  ghost predicate ReadingOk(rho: Scope, r: Reading) {
    && (forall c | c in r.pats :: SLinear(c)) && Apart(r.pats)
    && forall s | s in ReadingFree(r) :: s in ReadingNames(r) || s in rho
  }

  /** A later reading mentions a name an earlier one binds only if it binds it itself. */
  ghost predicate NoCapturedReadings(rs: seq<Reading>) {
    forall i, j, s | 0 <= i < j < |rs| && s in ReadingFree(rs[j]) && s in ReadingNames(rs[i]) :: s in ReadingNames(rs[j])
  }

  /** The names of the row are the reading's and made-up ones; what it mentions is its own or the reading's. */
  lemma RowNamesAre(r: Reading, c: Clause, arity: nat, s: Sym)
    requires RendersAll(r.pats, c.pats) && c.action == r.action && UserReading(r, arity) && RowParsed(c, arity)
    ensures s in ClauseNames(c) ==> if s.User? then s in ReadingNames(r) else GuardName(s)
    ensures s in ReadingNames(r) && s.User? ==> s in ClauseNames(c)
    ensures s in ClauseFree(c) ==> s in ClauseNames(c) || (s.User? && s in ReadingFree(r))
  {
    hide Renders, UserForm, GLinear, WellFormed, Names, Guards, SNames, SFree, GuardName;
    if s in ClauseNames(c) {
      var p :| p in c.pats && s in Names(p);
      var i :| 0 <= i < |c.pats| && c.pats[i] == p;
      assert r.pats[i] in r.pats;
      if s.User? { RenderNames(r.pats[i], p, s); }
    }
    if s in ReadingNames(r) && s.User? {
      var q :| q in r.pats && s in SNames(q);
      var i :| 0 <= i < |r.pats| && r.pats[i] == q;
      RenderNames(q, c.pats[i], s);
      assert c.pats[i] in c.pats;
    }
    if s in ClauseFree(c) && s !in c.action.free {
      var g :| g in GuardAll(c.pats) && (s == g.arg || s in g.free);
      var p :| p in c.pats && g in Guards(p);
      var i :| 0 <= i < |c.pats| && c.pats[i] == p;
      RenderFree(r.pats[i], p, g);
      assert r.pats[i] in r.pats;
      if s in g.free { FreeIsUser(r.pats[i], s); }
    }
  }

  lemma {:induction false} FreeIsUser(c: Surface, s: Sym)
    requires UserForm(c) && s in SFree(c)
    ensures s.User?
    decreases c
  {
    match c
    case SSeq(_, heads, _) =>
      var h :| h in heads && s in SFree(h);
      FreeIsUser(h, s);
    case SMap(_, vals) =>
      var q :| q in vals && s in SFree(q);
      FreeIsUser(q, s);
    case SGuard(inner, _, free) => if s !in free { FreeIsUser(inner, s); }
    case SAs(inner, _) => FreeIsUser(inner, s);
  }

  /** A reading that satisfies this is rendered by a clause the compiler accepts. */
  lemma RowIsOk(rho: Scope, r: Reading, c: Clause, arity: nat)
    requires RendersAll(r.pats, c.pats) && c.action == r.action && UserReading(r, arity) && RowParsed(c, arity)
    requires ReadingOk(rho, r)
    ensures ClauseOk(rho, c, arity)
  {
    forall s ensures s in ClauseNames(c) + ClauseFree(c) ==> !Internal(s) {
      RowNamesAre(r, c, arity, s);
    }
    forall s | s in ClauseFree(c) - ClauseNames(c) ensures s in rho {
      RowNamesAre(r, c, arity, s);
    }
    hide Renders, UserForm, GLinear, WellFormed, Names, SNames, SFree, GuardName, ClauseNames, ClauseFree, SLinear, Linear, Internal;
    ListLinear(r.pats, c.pats);
  }

  lemma RowsAreOk(rho: Scope, rs: seq<Reading>, rows: seq<Clause>, arity: nat)
    requires RowsRender(rs, rows) && (forall r | r in rs :: UserReading(r, arity) && ReadingOk(rho, r))
    requires (forall c | c in rows :: RowParsed(c, arity)) && NoCapturedReadings(rs)
    ensures ClausesOk(rho, rows, arity) && NoCapturedNames(rows)
  {
    hide Renders, RowParsed, ReadingOk, UserReading, ClauseNames, ClauseFree, ReadingNames, ReadingFree, ClauseOk;
    forall k | 0 <= k < |rows| ensures ClauseOk(rho, rows[k], arity) && |rows[k].pats| == arity {
      assert rs[k] in rs && rows[k] in rows;
      RowIsOk(rho, rs[k], rows[k], arity);
      RowArity(rows[k], arity);
    }
    forall i, j, s | 0 <= i < j < |rows| && s in ClauseFree(rows[j]) && s in ClauseNames(rows[i]) ensures s in ClauseNames(rows[j]) {
      assert rs[i] in rs && rows[i] in rows && rs[j] in rs && rows[j] in rows;
      RowNamesAre(rs[i], rows[i], arity, s);
      RowNamesAre(rs[j], rows[j], arity, s);
    }
  }

  lemma RowArity(c: Clause, arity: nat)
    requires RowParsed(c, arity)
    ensures |c.pats| == arity
  {
  }

  // ----- the theorem -----

  /** The whole of `-match-compile`: names for the match expressions, the parse, the tree. */
  function MatchForm(exprs: seq<Expr>, cs: seq<SurfaceClause>, n: nat): Option<Form> {
    match ParseClauses(cs, |exprs|, n + |exprs|)
    case RejectedClauses => None
    case ParsedClauses(rows, n1) =>
      ParsedAligned(cs, |exprs|, n + |exprs|);
      Some(Emitted(exprs, rows, n, n1))
  }

  lemma {:induction false} ParsedAligned(cs: seq<SurfaceClause>, arity: nat, n: nat)
    requires ParseClauses(cs, arity, n).ParsedClauses?
    ensures Aligned(RowsOf(ParseClauses(cs, arity, n).rows), arity)
  {
    ParsedArity(cs, arity, n);
    var rows := ParseClauses(cs, arity, n).rows;
    forall r | r in RowsOf(rows) ensures |r.cols| == arity {
      var i :| 0 <= i < |rows| && RowsOf(rows)[i] == r;
      assert rows[i] in rows;
    }
  }

  lemma {:induction false} ParsedArity(cs: seq<SurfaceClause>, arity: nat, n: nat)
    requires ParseClauses(cs, arity, n).ParsedClauses?
    ensures forall c | c in ParseClauses(cs, arity, n).rows :: |c.pats| == arity
  {
    if cs != [] {
      hide Cartesian, ColumnsOf;
      var p := ColumnsOf(cs[0].row, arity, n);
      ParsedArity(cs[1..], arity, p.n);
      forall combo | combo in Cartesian(p.cols) ensures |combo| == arity {
        CartesianIs(p.cols, combo);
      }
    }
  }

  ghost function ExprValues(sem: Sem, rho: Scope, exprs: seq<Expr>): (vs: seq<Value>)
    requires ExprsOk(rho, exprs)
    ensures SlotsOf(vs) == Scrutinees(sem, rho, exprs)
  {
    seq(|exprs|, i requires 0 <= i < |exprs| => ExprValue(sem, rho, exprs[i]))
  }

  /** MAIN: evaluating the emitted form is trying the clauses' readings in the order they are written, `:or`
      left to right: the first whose shape fits and whose guards hold of the values they stand at runs its
      clause's action with the names as written. */
  lemma MatchIsFirstReading(sem: Sem, rho: Scope, exprs: seq<Expr>, cs: seq<SurfaceClause>, n: nat)
    requires ExprsOk(rho, exprs) && forall c <- cs :: SurfaceOk(c)
    requires forall r | r in AllReadings(cs, |exprs|) :: ReadingOk(rho, r)
    requires NoCapturedReadings(AllReadings(cs, |exprs|))
    requires ParseClauses(cs, |exprs|, n + |exprs|).ParsedClauses?
    requires DisjointColumns(ParseClauses(cs, |exprs|, n + |exprs|).rows)
    ensures MatchForm(exprs, cs, n).Some?
    ensures Eval(sem, MatchForm(exprs, cs, n).value, ScopeEnv(rho)) ==
            FirstReading(sem, rho, AllReadings(cs, |exprs|), ExprValues(sem, rho, exprs))
  {
    hide *;
    var k, vs := |exprs|, ExprValues(sem, rho, exprs);
    var p, rs := ParseClauses(cs, k, n + k), AllReadings(cs, k);
    ParseClausesRenders(cs, k, n + k);
    ParseClausesParsed(cs, k, n + k);
    RowsAreOk(rho, rs, p.rows, k);
    AreLinear(rho, p.rows, k);
    EmittedIsFirstClause(sem, rho, exprs, p.rows, n, p.n);
    assert |vs| == k by { assert |SlotsOf(vs)| == |vs|; }
    RowsAreReadings(sem, rho, rs, p.rows, vs);
    MatchFormIs(exprs, cs, n);
  }

  lemma MatchFormIs(exprs: seq<Expr>, cs: seq<SurfaceClause>, n: nat)
    requires ParseClauses(cs, |exprs|, n + |exprs|).ParsedClauses?
    ensures var p := ParseClauses(cs, |exprs|, n + |exprs|);
            Aligned(RowsOf(p.rows), |exprs|) && MatchForm(exprs, cs, n) == Some(Emitted(exprs, p.rows, n, p.n))
  {
    ParsedAligned(cs, |exprs|, n + |exprs|);
  }

  lemma AreLinear(rho: Scope, cs: seq<Clause>, k: nat)
    requires ClausesOk(rho, cs, k)
    ensures forall c | c in cs :: LinearClause(c)
  {
  }
}
