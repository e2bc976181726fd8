/** Surface patterns, and their expansion into rows: `:or` becomes row duplication, so the matrix
    compiler never sees an alternative. */
module MatchParse {
  import opened MatchForms
  import opened MatchPattern
  import opened Options

  /** `& name`, `& _` and no `&` at all. */
  datatype Tail = NoTail | AnonTail | NamedTail(sym: Sym)

  datatype Surface =
    | SWild
    | SBind(sym: Sym)
    | SLit(lit: Lit)
    | SSeq(isVec: bool, heads: seq<Surface>, tail: Tail)
    | SMap(keys: seq<Lit>, vals: seq<Surface>)
    | SOr(alts: seq<Surface>)
    | SGuard(inner: Surface, pred: nat, free: seq<Sym>)
    | SAs(inner: Surface, name: Sym)

  // ----- combinations -----

  function Extend<T>(prefix: seq<T>, alts: seq<T>): (r: seq<seq<T>>)
    ensures |r| == |alts|
    ensures forall j | 0 <= j < |alts| :: r[j] == prefix + [alts[j]]
  {
    seq(|alts|, j requires 0 <= j < |alts| => prefix + [alts[j]])
  }

  function ExtendAll<T>(prefixes: seq<seq<T>>, alts: seq<T>): (r: seq<seq<T>>)
    ensures |r| == |prefixes| * |alts|
  {
    if prefixes == [] then [] else Extend(prefixes[0], alts) + ExtendAll(prefixes[1..], alts)
  }

  /** Every choice of one alternative per column, the last column varying fastest. */
  function Cartesian<T>(cols: seq<seq<T>>): seq<seq<T>> {
    if cols == [] then [[]] else ExtendAll(Cartesian(cols[..|cols| - 1]), cols[|cols| - 1])
  }

  lemma {:induction false} ExtendAllAt<T>(prefixes: seq<seq<T>>, alts: seq<T>, i: nat, j: nat)
    requires i < |prefixes| && j < |alts|
    ensures i * |alts| + j < |prefixes| * |alts|
    ensures ExtendAll(prefixes, alts)[i * |alts| + j] == prefixes[i] + [alts[j]]
  {
    assert |prefixes| * |alts| == |alts| + (|prefixes| - 1) * |alts|;
    if i > 0 {
      ExtendAllAt(prefixes[1..], alts, i - 1, j);
      assert i * |alts| == |alts| + (i - 1) * |alts|;
    }
  }

  lemma {:induction false} ExtendAllHas<T>(prefixes: seq<seq<T>>, alts: seq<T>, r: seq<T>)
    ensures r in ExtendAll(prefixes, alts) <==>
            r != [] && r[..|r| - 1] in prefixes && r[|r| - 1] in alts
  {
    if prefixes != [] {
      ExtendAllHas(prefixes[1..], alts, r);
      assert prefixes == [prefixes[0]] + prefixes[1..];
      assert r in Extend(prefixes[0], alts) <==> r != [] && r[..|r| - 1] == prefixes[0] && r[|r| - 1] in alts by {
        if r != [] && r[..|r| - 1] == prefixes[0] && r[|r| - 1] in alts {
          var j :| 0 <= j < |alts| && alts[j] == r[|r| - 1];
          assert Extend(prefixes[0], alts)[j] == r;
        }
      }
    }
  }

  /** The expansion contains exactly the combinations, */
  lemma {:induction false} CartesianIs<T>(cols: seq<seq<T>>, r: seq<T>)
    ensures r in Cartesian(cols) <==> |r| == |cols| && forall i | 0 <= i < |r| :: r[i] in cols[i]
  {
    if cols != [] {
      var n := |cols| - 1;
      if r != [] {
        CartesianIs(cols[..n], r[..|r| - 1]);
      }
      ExtendAllHas(Cartesian(cols[..n]), cols[n], r);
      if |r| == |cols| && forall i | 0 <= i < |r| :: r[i] in cols[i] {
        assert forall i | 0 <= i < n :: r[..n][i] in cols[..n][i];
      }
      if r in Cartesian(cols) {
        forall i | 0 <= i < |r| ensures r[i] in cols[i] {
          if i < n {
            assert r[..n][i] in cols[..n][i];
          }
        }
      }
    }
  }

  /** in lexicographic order: earlier alternatives of earlier columns come first. */
  lemma CartesianOrder<T>(cols: seq<seq<T>>, alts: seq<T>, i: nat, j: nat)
    requires i < |Cartesian(cols)| && j < |alts|
    ensures i * |alts| + j < |Cartesian(cols + [alts])|
    ensures Cartesian(cols + [alts])[i * |alts| + j] == Cartesian(cols)[i] + [alts[j]]
  {
    assert (cols + [alts])[..|cols|] == cols;
    ExtendAllAt(Cartesian(cols), alts, i, j);
  }

  // ----- parsing -----

  datatype Parsed = Rejected | Parsed(alts: seq<Pat>, n: nat)
  datatype ParsedAll = RejectedAll | ParsedAll(cols: seq<seq<Pat>>, n: nat)

  /** The predicate applies to a name of the pattern, a fresh one if it has none. */
  function AddGuard(p: Pat, pred: nat, free: seq<Sym>, n: nat): (Pat, nat) {
    if p.binds != [] then (p.(guards := p.guards + [Guard(pred, free, p.binds[0])]), n)
    else
      var g := Gen("g__guard", n + 1);
      (p.(binds := [g], guards := p.guards + [Guard(pred, free, g)]), n + 1)
  }

  function AddGuards(ps: seq<Pat>, pred: nat, free: seq<Sym>, n: nat): (r: Parsed)
    ensures r.Parsed? && |r.alts| == |ps|
    ensures forall i | 0 <= i < |ps| :: r.alts[i].head == ps[i].head && r.alts[i].guards != []
    ensures forall i | 0 <= i < |ps| :: forall g | g in r.alts[i].guards :: g in ps[i].guards || g.arg in r.alts[i].binds
    ensures forall i | 0 <= i < |ps| :: forall s | s in ps[i].binds :: s in r.alts[i].binds
    decreases ps
  {
    if ps == [] then Parsed([], n)
    else
      var (p, n1) := AddGuard(ps[0], pred, free, n);
      var rest := AddGuards(ps[1..], pred, free, n1);
      Parsed([p] + rest.alts, rest.n)
  }

  function TailName(t: Tail): Option<Sym> {
    if t.NamedTail? then Some(t.sym) else None
  }

  function SeqPats(isVec: bool, combos: seq<seq<Pat>>, rest: Option<Sym>): (r: seq<Pat>)
    ensures |r| == |combos|
    ensures forall i | 0 <= i < |combos| :: r[i] == Pat(HSeq(isVec, combos[i], rest), [], [])
  {
    seq(|combos|, i requires 0 <= i < |combos| => Pat(HSeq(isVec, combos[i], rest), [], []))
  }

  function AddName(ps: seq<Pat>, name: Sym): (r: seq<Pat>)
    ensures |r| == |ps|
    ensures forall i | 0 <= i < |ps| :: r[i] == ps[i].(binds := ps[i].binds + [name])
  {
    seq(|ps|, i requires 0 <= i < |ps| => ps[i].(binds := ps[i].binds + [name]))
  }

  function Firsts(cols: seq<seq<Pat>>): (r: seq<Pat>)
    requires forall c <- cols :: |c| == 1
    ensures |r| == |cols|
    ensures forall i | 0 <= i < |cols| :: cols[i] == [r[i]]
  {
    assert forall i | 0 <= i < |cols| :: cols[i] in cols && |cols[i]| == 1;
    seq(|cols|, i requires 0 <= i < |cols| => cols[i][0])
  }

  function Concat<T>(cols: seq<seq<T>>): seq<T> {
    if cols == [] then [] else cols[0] + Concat(cols[1..])
  }

  /** The alternatives of one pattern form.  `& _` parses as no rest at all; `:or` under a map key is
      refused; a sequence pattern none of whose combinations exist (an `:or` with no alternative inside)
      becomes the empty one. */
  function ParsePat(s: Surface, n: nat): Parsed
    decreases s, 0
  {
    match s
    case SWild => Parsed([WILD], n)
    case SBind(x) => Parsed([Pat(HWild, [x], [])], n)
    case SLit(l) => Parsed([Pat(HLit(l), [], [])], n)
    case SSeq(isVec, heads, tail) =>
      (match ParseAll(heads, n)
       case RejectedAll => Rejected
       case ParsedAll(cols, n1) =>
         var combos := Cartesian(cols);
         Parsed(SeqPats(isVec, if combos == [] then [[]] else combos, TailName(tail)), n1))
    case SMap(keys, vals) =>
      (match ParseAll(vals, n)
       case RejectedAll => Rejected
       case ParsedAll(cols, n1) =>
         if forall c <- cols :: |c| == 1 then Parsed([Pat(HMap(keys, Firsts(cols)), [], [])], n1) else Rejected)
    case SOr(alts) =>
      (match ParseAll(alts, n)
       case RejectedAll => Rejected
       case ParsedAll(cols, n1) => Parsed(Concat(cols), n1))
    case SGuard(inner, pred, free) =>
      (match ParsePat(inner, n)
       case Rejected => Rejected
       case Parsed(ps, n1) => AddGuards(ps, pred, free, n1))
    case SAs(inner, name) =>
      (match ParsePat(inner, n)
       case Rejected => Rejected
       case Parsed(ps, n1) => Parsed(AddName(ps, name), n1))
  }

  function ParseAll(ss: seq<Surface>, n: nat): (r: ParsedAll)
    ensures r.ParsedAll? ==> |r.cols| == |ss|
    decreases ss, 0
  {
    if ss == [] then ParsedAll([], n)
    else match ParsePat(ss[0], n)
      case Rejected => RejectedAll
      case Parsed(alts, n1) =>
        match ParseAll(ss[1..], n1)
        case RejectedAll => RejectedAll
        case ParsedAll(cols, n2) => ParsedAll([alts] + cols, n2)
  }

  // ----- what a surface pattern means -----

  /** An `:or` with no alternative left: it describes nothing and parses to nothing. */
  predicate Empty(s: Surface) {
    match s
    case SOr(alts) => forall a <- alts :: Empty(a)
    case SGuard(inner, _, _) => Empty(inner)
    case SAs(inner, _) => Empty(inner)
    case _ => false
  }

  /** One unguarded name or `_`, through `:as` and `:or`s with one alternative left. */
  predicate SBare(s: Surface) {
    match s
    case SWild => true
    case SBind(_) => true
    case SAs(inner, _) => SBare(inner)
    case SOr(alts) =>
      exists i | 0 <= i < |alts| :: SBare(alts[i]) && forall j | 0 <= j < |alts| && j != i :: Empty(alts[j])
    case _ => false
  }

  /** The shape a surface pattern describes, `:or` as a choice. */
  ghost predicate SMatches(s: Surface, v: Value) {
    match s
    case SWild => true
    case SBind(_) => true
    case SLit(l) => v == Scalar(l)
    case SSeq(isVec, heads, tail) =>
      && SeqShape(isVec, |heads|, tail != NoTail, v)
      && forall i | 0 <= i < |heads| :: SMatches(heads[i], v.items[i])
    case SMap(keys, vals) =>
      && v.Map?
      && forall j | 0 <= j < |vals| && j < |keys| ::
           if SBare(vals[j]) then Get(v, keys[j]) != ABSENT else SMatches(vals[j], Get(v, keys[j]))
    case SOr(alts) => exists i | 0 <= i < |alts| :: SMatches(alts[i], v)
    case SGuard(inner, _, _) => SMatches(inner, v)
    case SAs(inner, _) => SMatches(inner, v)
  }

  /** Map keys as the reader gives them. */
  ghost predicate Keyed(s: Surface) {
    match s
    case SSeq(_, heads, _) => forall h | h in heads :: Keyed(h)
    case SMap(keys, vals) => |keys| == |vals| && NoDup(keys) && forall q | q in vals :: Keyed(q)
    case SOr(alts) => forall a | a in alts :: Keyed(a)
    case SGuard(inner, _, _) => Keyed(inner)
    case SAs(inner, _) => Keyed(inner)
    case _ => true
  }

  /** No sequence pattern with `& _` or a head without alternatives. */
  ghost predicate Plain(s: Surface) {
    match s
    case SSeq(_, heads, tail) => tail != AnonTail && forall h | h in heads :: Plain(h) && !Empty(h)
    case SMap(keys, vals) => |keys| == |vals| && forall q | q in vals :: Plain(q)
    case SOr(alts) => forall a | a in alts :: Plain(a)
    case SGuard(inner, _, _) => Plain(inner)
    case SAs(inner, _) => Plain(inner)
    case _ => true
  }

  ghost predicate AnyMatches(ps: seq<Pat>, v: Value) {
    exists i | 0 <= i < |ps| :: Matches(ps[i], v)
  }

  lemma {:induction false} ConcatMatches(cols: seq<seq<Pat>>, v: Value)
    ensures AnyMatches(Concat(cols), v) <==> exists k | 0 <= k < |cols| :: AnyMatches(cols[k], v)
  {
    if cols != [] {
      ConcatMatches(cols[1..], v);
      var rest := Concat(cols[1..]);
      assert AnyMatches(Concat(cols), v) <==> AnyMatches(cols[0], v) || AnyMatches(rest, v) by {
        AnyAppend(cols[0], rest, v);
      }
      if k :| 0 <= k < |cols| && AnyMatches(cols[k], v) {
        if k > 0 {
          assert AnyMatches(cols[1..][k - 1], v);
        }
      }
      if k :| 0 <= k < |cols| - 1 && AnyMatches(cols[1..][k], v) {
        assert AnyMatches(cols[k + 1], v);
      }
    }
  }

  lemma AnyAppend(a: seq<Pat>, b: seq<Pat>, v: Value)
    ensures AnyMatches(a + b, v) <==> AnyMatches(a, v) || AnyMatches(b, v)
  {
    hide Matches;
    if i :| 0 <= i < |b| && Matches(b[i], v) {
      assert Matches((a + b)[|a| + i], v);
    }
    if i :| 0 <= i < |a| && Matches(a[i], v) {
      assert Matches((a + b)[i], v);
    }
    if i :| 0 <= i < |a + b| && Matches((a + b)[i], v) {
      if i >= |a| {
        assert Matches(b[i - |a|], v);
      } else {
        assert Matches(a[i], v);
      }
    }
  }

  ghost predicate RowMatches(combo: seq<Pat>, vs: seq<Value>) {
    |combo| == |vs| && forall i | 0 <= i < |vs| :: Matches(combo[i], vs[i])
  }

  /** Some combination matches just when every column has a matching alternative. */
  lemma CombosMatch(cols: seq<seq<Pat>>, vs: seq<Value>)
    requires |cols| == |vs|
    ensures (exists combo | combo in Cartesian(cols) :: RowMatches(combo, vs)) <==>
            forall i | 0 <= i < |cols| :: AnyMatches(cols[i], vs[i])
  {
    hide Matches, Cartesian;
    if combo :| combo in Cartesian(cols) && RowMatches(combo, vs) {
      CartesianIs(cols, combo);
      forall i | 0 <= i < |cols| ensures AnyMatches(cols[i], vs[i]) {
        var j :| 0 <= j < |cols[i]| && cols[i][j] == combo[i];
      }
    }
    if forall i | 0 <= i < |cols| :: AnyMatches(cols[i], vs[i]) {
      var combo := seq(|cols|, i requires 0 <= i < |cols| => PickMatch(cols[i], vs[i]));
      CartesianIs(cols, combo);
      assert RowMatches(combo, vs);
    }
  }

  lemma SeqPatMatches(isVec: bool, combo: seq<Pat>, rest: Option<Sym>, v: Value)
    ensures Matches(Pat(HSeq(isVec, combo, rest), [], []), v) <==>
            SeqShape(isVec, |combo|, rest.Some?, v) && RowMatches(combo, v.items[..|combo|])
  {
    var p := Pat(HSeq(isVec, combo, rest), [], []);
    assert Matches(p, v) <==>
      SeqShape(isVec, |combo|, rest.Some?, v) && forall i | 0 <= i < |combo| :: Matches(combo[i], v.items[i]);
  }

  lemma SeqPatsMatch(isVec: bool, cols: seq<seq<Pat>>, rest: Option<Sym>, v: Value)
    ensures AnyMatches(SeqPats(isVec, Cartesian(cols), rest), v) <==>
            && SeqShape(isVec, |cols|, rest.Some?, v)
            && forall i | 0 <= i < |cols| :: AnyMatches(cols[i], v.items[i])
  {
    hide Matches, Cartesian;
    var combos := Cartesian(cols);
    var ps := SeqPats(isVec, combos, rest);
    forall k | 0 <= k < |ps|
      ensures |combos[k]| == |cols|
      ensures Matches(ps[k], v) <==> SeqShape(isVec, |cols|, rest.Some?, v) && RowMatches(combos[k], v.items[..|cols|])
    {
      CartesianIs(cols, combos[k]);
      SeqPatMatches(isVec, combos[k], rest, v);
      assert combos[k] in combos;
    }
    hide RowMatches, AnyMatches;
    if SeqShape(isVec, |cols|, rest.Some?, v) {
      var vs := v.items[..|cols|];
      CombosMatch(cols, vs);
      SeqPatsAny(ps, combos, v, vs);
      assert forall i | 0 <= i < |cols| :: vs[i] == v.items[i];
    } else {
      SeqPatsNone(ps, v);
    }
  }

  lemma SeqPatsAny(ps: seq<Pat>, combos: seq<seq<Pat>>, v: Value, vs: seq<Value>)
    requires |ps| == |combos| && forall k | 0 <= k < |ps| :: Matches(ps[k], v) <==> RowMatches(combos[k], vs)
    ensures AnyMatches(ps, v) <==> exists combo | combo in combos :: RowMatches(combo, vs)
  {
    hide Matches, RowMatches;
    if combo :| combo in combos && RowMatches(combo, vs) {
      var k :| 0 <= k < |combos| && combos[k] == combo;
      assert Matches(ps[k], v);
    }
  }

  lemma SeqPatsNone(ps: seq<Pat>, v: Value)
    requires forall k | 0 <= k < |ps| :: !Matches(ps[k], v)
    ensures !AnyMatches(ps, v)
  {
  }

  ghost function PickMatch(ps: seq<Pat>, v: Value): (p: Pat)
    requires AnyMatches(ps, v)
    ensures p in ps && Matches(p, v)
  {
    var i :| 0 <= i < |ps| && Matches(ps[i], v);
    ps[i]
  }

  /** What is left of a pattern form: nothing, or one bare pattern, as its form says. */
  lemma {:induction false} ParseCounts(s: Surface, n: nat)
    requires ParsePat(s, n).Parsed?
    ensures ParsePat(s, n).alts == [] <==> Empty(s)
    ensures OneBare(ParsePat(s, n).alts) <==> SBare(s)
    decreases s
  {
    match s
    case SOr(ss) =>
      var cols := ParseAll(ss, n).cols;
      forall i | 0 <= i < |ss| ensures (cols[i] == [] <==> Empty(ss[i])) && (OneBare(cols[i]) <==> SBare(ss[i])) {
        ParseAllAt(ss, n, i);
        assert ss[i] in ss;
        ParseCounts(ss[i], CounterAt(ss, n, i));
      }
      OrCounts(s, cols);
    case SGuard(inner, pred, free) => ParseCounts(inner, n);
    case SAs(inner, name) => ParseCounts(inner, n);
    case _ =>
  }

  predicate OneBare(ps: seq<Pat>) {
    |ps| == 1 && IsBare(ps[0])
  }

  lemma OrCounts(s: Surface, cols: seq<seq<Pat>>)
    requires s.SOr? && |cols| == |s.alts|
    requires forall i | 0 <= i < |cols| :: (cols[i] == [] <==> Empty(s.alts[i])) && (OneBare(cols[i]) <==> SBare(s.alts[i]))
    ensures Concat(cols) == [] <==> Empty(s)
    ensures OneBare(Concat(cols)) <==> SBare(s)
  {
    hide OneBare, Concat;
    var ss := s.alts;
    assert Empty(s) <==> forall i | 0 <= i < |ss| :: Empty(ss[i]) by {
      assert forall a <- ss :: exists i | 0 <= i < |ss| :: ss[i] == a;
    }
    ConcatEmpty(cols);
    if SBare(s) {
      var i :| 0 <= i < |ss| && SBare(ss[i]) && forall j | 0 <= j < |ss| && j != i :: Empty(ss[j]);
      ConcatOne(cols, i);
    }
    if OneBare(Concat(cols)) {
      var i := ConcatBare(cols);
      assert SBare(ss[i]);
    }
  }

  lemma {:induction false} ConcatEmpty(cols: seq<seq<Pat>>)
    ensures Concat(cols) == [] <==> forall i | 0 <= i < |cols| :: cols[i] == []
  {
    if cols != [] {
      ConcatEmpty(cols[1..]);
      assert forall i | 0 < i < |cols| :: cols[i] == cols[1..][i - 1];
    }
  }

  lemma {:induction false} ConcatOne(cols: seq<seq<Pat>>, i: nat)
    requires i < |cols| && forall j | 0 <= j < |cols| && j != i :: cols[j] == []
    ensures Concat(cols) == cols[i]
  {
    if i == 0 {
      ConcatEmpty(cols[1..]);
    } else {
      ConcatOne(cols[1..], i - 1);
    }
  }

  lemma {:induction false} ConcatBare(cols: seq<seq<Pat>>) returns (i: nat)
    requires OneBare(Concat(cols))
    ensures i < |cols| && OneBare(cols[i]) && forall j | 0 <= j < |cols| && j != i :: cols[j] == []
  {
    if cols[0] == [] {
      var k := ConcatBare(cols[1..]);
      i := k + 1;
      assert forall j | 0 < j < |cols| :: cols[j] == cols[1..][j - 1];
    } else {
      i := 0;
      ConcatEmpty(cols[1..]);
      assert forall j | 0 < j < |cols| :: cols[j] == cols[1..][j - 1];
    }
  }

  /** The alternatives of a pattern form match exactly the values the form describes. */
  lemma {:induction false} ParseIsExact(s: Surface, n: nat, v: Value)
    requires Plain(s) && ParsePat(s, n).Parsed?
    ensures AnyMatches(ParsePat(s, n).alts, v) <==> SMatches(s, v)
    decreases s, 0
  {
    hide AnyMatches, Matches;
    var alts := ParsePat(s, n).alts;
    match s
    case SWild => OneMatches(WILD, v);
    case SBind(x) => OneMatches(Pat(HWild, [x], []), v);
    case SLit(l) => OneMatches(Pat(HLit(l), [], []), v);
    case SSeq(isVec, heads, tail) => ParseSeqIsExact(s, n, v);
    case SMap(keys, vals) => ParseMapIsExact(s, n, v);
    case SOr(ss) => ParseOrIsExact(s, n, v);
    case SGuard(inner, pred, free) =>
      ParseIsExact(inner, n, v);
      SameHeads(ParsePat(inner, n).alts, alts, v);
    case SAs(inner, name) =>
      ParseIsExact(inner, n, v);
      SameHeads(ParsePat(inner, n).alts, alts, v);
  }

  lemma OneMatches(p: Pat, v: Value)
    requires p.head.HWild? || p.head.HLit?
    ensures AnyMatches([p], v) <==> p.head.HWild? || v == Scalar(p.head.lit)
  {
    assert [p][0] == p;
    assert Matches(p, v) <==> p.head.HWild? || v == Scalar(p.head.lit);
  }

  /** Guards and names do not decide the shape. */
  lemma SameHeads(ps: seq<Pat>, qs: seq<Pat>, v: Value)
    requires |ps| == |qs| && forall i | 0 <= i < |ps| :: ps[i].head == qs[i].head
    ensures AnyMatches(ps, v) <==> AnyMatches(qs, v)
  {
    assert forall i | 0 <= i < |ps| :: Matches(ps[i], v) <==> Matches(qs[i], v);
  }

  /** The counter value with which element i of a list is parsed. */
  ghost function CounterAt(ss: seq<Surface>, n: nat, i: nat): nat
    requires i <= |ss| && ParseAll(ss, n).ParsedAll?
  {
    if i == 0 then n else CounterAt(ss[1..], ParsePat(ss[0], n).n, i - 1)
  }

  lemma {:induction false} ParseAllAt(ss: seq<Surface>, n: nat, i: nat)
    requires i < |ss| && ParseAll(ss, n).ParsedAll?
    ensures ParsePat(ss[i], CounterAt(ss, n, i)).Parsed?
    ensures ParsePat(ss[i], CounterAt(ss, n, i)).alts == ParseAll(ss, n).cols[i]
  {
    if i > 0 {
      ParseAllAt(ss[1..], ParsePat(ss[0], n).n, i - 1);
    }
  }

  lemma {:induction false} ParseSeqIsExact(s: Surface, n: nat, v: Value)
    requires s.SSeq? && Plain(s) && ParsePat(s, n).Parsed?
    ensures AnyMatches(ParsePat(s, n).alts, v) <==> SMatches(s, v)
    decreases s.heads, 1
  {
    if SeqShape(s.isVec, |s.heads|, s.tail != NoTail, v) {
      forall i | 0 <= i < |s.heads| ensures HeadExactAt(s, n, i, v.items[i]) {
        ParseAllAt(s.heads, n, i);
        assert s.heads[i] in s.heads;
        ParseIsExact(s.heads[i], CounterAt(s.heads, n, i), v.items[i]);
      }
    }
    assert forall i | 0 <= i < |s.heads| :: s.heads[i] in s.heads;
    SeqFromHeads(s, n, v);
  }

  ghost predicate HeadExactAt(s: Surface, n: nat, i: nat, v: Value)
    requires s.SSeq? && ParsePat(s, n).Parsed? && i < |s.heads|
  {
    AnyMatches(ParseAll(s.heads, n).cols[i], v) <==> SMatches(s.heads[i], v)
  }

  /** A sequence pattern whose heads all have alternatives is as exact as its heads. */
  lemma SeqFromHeads(s: Surface, n: nat, v: Value)
    requires s.SSeq? && ParsePat(s, n).Parsed? && s.tail != AnonTail
    requires forall i | 0 <= i < |s.heads| :: !Empty(s.heads[i])
    requires SeqShape(s.isVec, |s.heads|, s.tail != NoTail, v) ==>
               forall i | 0 <= i < |s.heads| :: HeadExactAt(s, n, i, v.items[i])
    ensures AnyMatches(ParsePat(s, n).alts, v) <==> SMatches(s, v)
  {
    hide AnyMatches, Matches, Cartesian;
    var cols := ParseAll(s.heads, n).cols;
    forall i | 0 <= i < |cols| ensures cols[i] != [] {
      ParseAllAt(s.heads, n, i);
      ParseCounts(s.heads[i], CounterAt(s.heads, n, i));
    }
    SomeCombo(cols);
    SeqPatsMatch(s.isVec, cols, TailName(s.tail), v);
  }

  lemma SomeCombo(cols: seq<seq<Pat>>)
    requires forall i | 0 <= i < |cols| :: cols[i] != []
    ensures Cartesian(cols) != []
  {
    var r := seq(|cols|, i requires 0 <= i < |cols| => cols[i][0]);
    CartesianIs(cols, r);
  }

  lemma NoCombo(cols: seq<seq<Pat>>)
    ensures Cartesian(cols) != [] ==> forall i | 0 <= i < |cols| :: cols[i] != []
  {
    if Cartesian(cols) != [] {
      var r := Cartesian(cols)[0];
      CartesianIs(cols, r);
      forall i | 0 <= i < |cols| ensures cols[i] != [] {
        assert r[i] in cols[i];
      }
    }
  }

  lemma {:induction false} ParseMapIsExact(s: Surface, n: nat, v: Value)
    requires s.SMap? && Plain(s) && ParsePat(s, n).Parsed?
    ensures AnyMatches(ParsePat(s, n).alts, v) <==> SMatches(s, v)
    decreases s.vals, 1
  {
    var cols, vals, keys := ParseAll(s.vals, n).cols, s.vals, s.keys;
    var ps, p := Firsts(cols), ParsePat(s, n).alts[0];
    assert p == Pat(HMap(keys, ps), [], []);
    forall j | 0 <= j < |vals|
      ensures IsBare(ps[j]) <==> SBare(vals[j])
      ensures Matches(ps[j], Get(v, keys[j])) <==> SMatches(vals[j], Get(v, keys[j]))
    {
      ParseAllAt(vals, n, j);
      assert vals[j] in vals && cols[j] in cols && cols[j] == [ps[j]];
      ParseCounts(vals[j], CounterAt(vals, n, j));
      ParseIsExact(vals[j], CounterAt(vals, n, j), Get(v, keys[j]));
      assert AnyMatches([ps[j]], Get(v, keys[j])) <==> Matches(ps[j], Get(v, keys[j]));
    }
    assert Matches(p, v) <==> SMatches(s, v);
  }

  lemma {:induction false} ParseOrIsExact(s: Surface, n: nat, v: Value)
    requires s.SOr? && Plain(s) && ParsePat(s, n).Parsed?
    ensures AnyMatches(ParsePat(s, n).alts, v) <==> SMatches(s, v)
    decreases s.alts, 1
  {
    var cols, ss := ParseAll(s.alts, n).cols, s.alts;
    forall i | 0 <= i < |ss| ensures AnyMatches(cols[i], v) <==> SMatches(ss[i], v) {
      ParseAllAt(ss, n, i);
      assert ss[i] in ss;
      ParseIsExact(ss[i], CounterAt(ss, n, i), v);
    }
    ConcatMatches(cols, v);
  }

  // ----- where the expansion departs from the form -----

  /** `[p ... & _]` is `[p ...]`: it fixes the count it should only bound. */
  lemma AnonymousRestIsNoRest(isVec: bool, heads: seq<Surface>, n: nat)
    ensures ParsePat(SSeq(isVec, heads, AnonTail), n) == ParsePat(SSeq(isVec, heads, NoTail), n)
  {
  }

  /** so on plain heads it accepts a value of its shape exactly when the count is the number of heads. */
  lemma AnonymousRestIff(isVec: bool, heads: seq<Surface>, n: nat, v: Value)
    requires Plain(SSeq(isVec, heads, NoTail)) && ParsePat(SSeq(isVec, heads, AnonTail), n).Parsed?
    requires SMatches(SSeq(isVec, heads, AnonTail), v)
    ensures AnyMatches(ParsePat(SSeq(isVec, heads, AnonTail), n).alts, v) <==> |v.items| == |heads|
  {
    AnonymousRestIsNoRest(isVec, heads, n);
    ParseIsExact(SSeq(isVec, heads, NoTail), n, v);
  }

  /** A sequence pattern with a head without alternatives describes nothing, yet accepts the empty vector. */
  lemma EmptyHeadMatchesEmpty(s: Surface, n: nat)
    requires s.SSeq? && ParsePat(s, n).Parsed? && exists h <- s.heads :: Empty(h)
    ensures AnyMatches(ParsePat(s, n).alts, Vec([])) && !SMatches(s, Vec([]))
  {
    var cols := ParseAll(s.heads, n).cols;
    var h :| h in s.heads && Empty(h);
    var i :| 0 <= i < |s.heads| && s.heads[i] == h;
    ParseAllAt(s.heads, n, i);
    ParseCounts(h, CounterAt(s.heads, n, i));
    NoCombo(cols);
    assert Matches(ParsePat(s, n).alts[0], Vec([]));
  }

  /** A value the pattern matches. */
  ghost function Example(p: Pat): Value
    requires WellFormed(p)
  {
    match p.head
    case HWild => Scalar(LNil)
    case HLit(l) => Scalar(l)
    case HSeq(_, sub, _) => Vec(seq(|sub|, i requires 0 <= i < |sub| => Example(sub[i])))
    case HMap(keys, vals) => Map(Zipped(keys, seq(|vals|, j requires 0 <= j < |vals| => Example(vals[j]))))
  }

  function Zipped(keys: seq<Lit>, vs: seq<Value>): (m: map<Lit, Value>)
    requires |keys| == |vs| && NoDup(keys)
    ensures forall k :: k in m <==> k in keys
    ensures forall j | 0 <= j < |keys| :: m[keys[j]] == vs[j]
  {
    if keys == [] then map[] else Zipped(keys[1..], vs[1..])[keys[0] := vs[0]]
  }

  lemma {:induction false} ExampleMatches(p: Pat)
    requires WellFormed(p)
    ensures Matches(p, Example(p)) && (IsWild(p) ==> Example(p) != ABSENT)
  {
    match p.head
    case HSeq(_, sub, _) =>
      forall i | 0 <= i < |sub| ensures Matches(sub[i], Example(p).items[i]) {
        ExampleMatches(sub[i]);
      }
    case HMap(keys, vals) =>
      var v := Example(p);
      forall j | 0 <= j < |vals|
        ensures Get(v, keys[j]) == Example(vals[j]) && Matches(vals[j], Example(vals[j]))
        ensures IsWild(vals[j]) ==> Example(vals[j]) != ABSENT
      {
        ExampleMatches(vals[j]);
      }
    case _ =>
  }

  lemma {:induction false} ParsedWellFormed(s: Surface, n: nat)
    requires Keyed(s) && ParsePat(s, n).Parsed?
    ensures forall p | p in ParsePat(s, n).alts :: WellFormed(p)
    decreases s
  {
    var alts := ParsePat(s, n).alts;
    match s
    case SSeq(_, heads, _) =>
      AllWellFormed(heads, n);
      var cols := ParseAll(heads, n).cols;
      forall p | p in alts ensures WellFormed(p) {
        if p.head.sub != [] {
          CartesianIs(cols, p.head.sub);
        }
      }
    case SMap(keys, vals) =>
      AllWellFormed(vals, n);
      var cols := ParseAll(vals, n).cols;
      forall q | q in alts[0].head.vals ensures WellFormed(q) {
        var j :| 0 <= j < |cols| && cols[j] == [q];
      }
    case SOr(ss) =>
      AllWellFormed(ss, n);
      var cols := ParseAll(ss, n).cols;
      forall p | p in alts ensures WellFormed(p) {
        ConcatHas(cols, p);
      }
    case SGuard(inner, pred, free) =>
      ParsedWellFormed(inner, n);
      assert forall i | 0 <= i < |alts| :: WellFormed(ParsePat(inner, n).alts[i]);
    case SAs(inner, name) =>
      ParsedWellFormed(inner, n);
      assert forall i | 0 <= i < |alts| :: WellFormed(ParsePat(inner, n).alts[i]);
    case _ =>
  }

  lemma {:induction false} AllWellFormed(ss: seq<Surface>, n: nat)
    requires ParseAll(ss, n).ParsedAll? && forall s | s in ss :: Keyed(s)
    ensures forall i, p | 0 <= i < |ss| && p in ParseAll(ss, n).cols[i] :: WellFormed(p)
    decreases ss
  {
    forall i, p | 0 <= i < |ss| && p in ParseAll(ss, n).cols[i] ensures WellFormed(p) {
      ParseAllAt(ss, n, i);
      assert ss[i] in ss;
      ParsedWellFormed(ss[i], CounterAt(ss, n, i));
    }
  }

  lemma {:induction false} ConcatHas<T>(cols: seq<seq<T>>, p: T)
    ensures p in Concat(cols) <==> exists k | 0 <= k < |cols| :: p in cols[k]
  {
    if cols != [] {
      ConcatHas(cols[1..], p);
      if k :| 0 <= k < |cols| - 1 && p in cols[1..][k] {
        assert p in cols[k + 1];
      }
      if k :| 0 < k < |cols| && p in cols[k] {
        assert p in cols[1..][k - 1];
      }
    }
  }

  /** Parsed alternatives match what the form describes. */
  ghost predicate Exact(s: Surface, n: nat)
    requires ParsePat(s, n).Parsed?
  {
    forall v :: AnyMatches(ParsePat(s, n).alts, v) <==> SMatches(s, v)
  }

  /** A sequence pattern over exact heads is exact if and only if it has no `& _` and every head has an
      alternative. */
  lemma SeqExactIff(s: Surface, n: nat)
    requires s.SSeq? && Keyed(s) && ParsePat(s, n).Parsed?
    requires forall i, v | 0 <= i < |s.heads| :: HeadExactAt(s, n, i, v)
    ensures Exact(s, n) <==> s.tail != AnonTail && forall h <- s.heads :: !Empty(h)
  {
    hide AnyMatches, SMatches, ParsePat, Empty, Keyed, HeadExactAt;
    if exists h <- s.heads :: Empty(h) {
      EmptyHeadMatchesEmpty(s, n);
    } else if s.tail == AnonTail {
      var v := LongerValue(s, n);
    } else {
      forall v ensures AnyMatches(ParsePat(s, n).alts, v) <==> SMatches(s, v) {
        SeqFromHeads(s, n, v);
      }
    }
  }

  /** One more item than `& _` lets through. */
  lemma LongerValue(s: Surface, n: nat) returns (v: Value)
    requires s.SSeq? && Keyed(s) && ParsePat(s, n).Parsed? && s.tail == AnonTail
    requires forall h <- s.heads :: !Empty(h)
    requires forall i, v | 0 <= i < |s.heads| :: HeadExactAt(s, n, i, v)
    ensures SMatches(s, v) && !AnyMatches(ParsePat(s, n).alts, v)
  {
    var cols := ParseAll(s.heads, n).cols;
    forall i | 0 <= i < |cols| ensures cols[i] != [] && WellFormed(cols[i][0]) && SMatches(s.heads[i], Example(cols[i][0])) {
      ParseAllAt(s.heads, n, i);
      assert s.heads[i] in s.heads;
      ParseCounts(s.heads[i], CounterAt(s.heads, n, i));
      ParsedWellFormed(s.heads[i], CounterAt(s.heads, n, i));
      assert cols[i][0] in cols[i];
      ExampleMatches(cols[i][0]);
      assert HeadExactAt(s, n, i, Example(cols[i][0]));
    }
    v := Vec(seq(|cols|, i requires 0 <= i < |cols| => Example(cols[i][0])) + [Scalar(LNil)]);
    SomeCombo(cols);
    SeqPatsMatch(s.isVec, cols, None, v);
  }

  // ----- clauses -----

  datatype SurfaceRow = Else | Pats(pats: seq<Surface>)
  datatype SurfaceClause = SurfaceClause(row: SurfaceRow, action: Action)
  datatype ParsedClauses = RejectedClauses | ParsedClauses(rows: seq<Clause>, n: nat)

  function ColumnsOf(r: SurfaceRow, arity: nat, n: nat): (p: ParsedAll)
    ensures p.ParsedAll? ==> |p.cols| == arity
  {
    match r
    case Else => ParsedAll(seq(arity, i => [WILD]), n)
    case Pats(ss) => if |ss| != arity then RejectedAll else ParseAll(ss, n)
  }

  function ClausesFor(combos: seq<seq<Pat>>, action: Action): (r: seq<Clause>)
    ensures |r| == |combos|
    ensures forall i | 0 <= i < |combos| :: r[i] == Clause(combos[i], action)
  {
    seq(|combos|, i requires 0 <= i < |combos| => Clause(combos[i], action))
  }

  /** Clause order is kept; the combinations of one clause are consecutive. */
  function ParseClauses(cs: seq<SurfaceClause>, arity: nat, n: nat): ParsedClauses {
    if cs == [] then ParsedClauses([], n)
    else match ColumnsOf(cs[0].row, arity, n)
      case RejectedAll => RejectedClauses
      case ParsedAll(cols, n1) =>
        match ParseClauses(cs[1..], arity, n1)
        case RejectedClauses => RejectedClauses
        case ParsedClauses(rows, n2) => ParsedClauses(ClausesFor(Cartesian(cols), cs[0].action) + rows, n2)
  }

  ghost predicate SurfaceMatches(r: SurfaceRow, vs: seq<Value>) {
    r.Pats? ==> |r.pats| == |vs| && forall i | 0 <= i < |vs| :: SMatches(r.pats[i], vs[i])
  }

  /** One clause's rows cover exactly what the clause describes. */
  lemma RowsOfClauseExact(r: SurfaceRow, arity: nat, n: nat, vs: seq<Value>)
    requires |vs| == arity && ColumnsOf(r, arity, n).ParsedAll?
    requires r.Pats? ==> forall s | s in r.pats :: Plain(s)
    ensures SurfaceMatches(r, vs) <==>
            exists combo | combo in Cartesian(ColumnsOf(r, arity, n).cols) :: RowMatches(combo, vs)
  {
    var cols := ColumnsOf(r, arity, n).cols;
    forall i | 0 <= i < arity
      ensures AnyMatches(cols[i], vs[i]) <==> (r.Pats? ==> SMatches(r.pats[i], vs[i]))
    {
      if r.Pats? {
        ParseAllAt(r.pats, n, i);
        assert r.pats[i] in r.pats;
        ParseIsExact(r.pats[i], CounterAt(r.pats, n, i), vs[i]);
      } else {
        assert Matches(cols[i][0], vs[i]);
      }
    }
    CombosMatch(cols, vs);
  }
}
