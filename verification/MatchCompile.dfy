/** The decision-tree compiler as a function: column choice, specialization, default matrix and
    emission.  The gensym counter is threaded; the imperative form is in MatchCompiler.dfy. */
module MatchCompile {
  import opened MatchForms
  import opened MatchPattern
  import opened Options

  // ----- the clause matrix -----

  /** Where a bound name gets its value: an occurrence, or the tail of one. */
  datatype Src = SrcOcc(s: Sym) | SrcSubvec(s: Sym, n: nat) | SrcNthrest(s: Sym, n: nat)
  datatype Bind = Bind(sym: Sym, src: Src)

  /** `presence` lists the map sub-occurrences that must not be absent; it is tested last. */
  datatype Row = Row(cols: seq<Pat>, binds: seq<Bind>, guards: seq<Guard>, presence: seq<Sym>, action: Action)

  datatype Ctor = CLit(lit: Lit) | CSeq(isVec: bool, arity: nat, hasRest: bool) | CMap(keys: seq<Lit>)

  function FirstRefutable(cols: seq<Pat>): (c: int)
    ensures -1 <= c < |cols|
    ensures c >= 0 ==> !IsWild(cols[c])
    ensures forall i | 0 <= i < |cols| && (c < 0 || i < c) :: IsWild(cols[i])
  {
    if cols == [] then -1
    else if !IsWild(cols[0]) then 0
    else
      var c := FirstRefutable(cols[1..]);
      assert forall i | 1 <= i < |cols| :: cols[i] == cols[1..][i - 1];
      if c < 0 then -1 else c + 1
  }

  function CtorOf(p: Pat): Ctor
    requires !IsWild(p)
  {
    match p.head
    case HLit(l) => CLit(l)
    case HSeq(isVec, sub, rest) => CSeq(isVec, |sub|, rest.Some?)
    case HMap(keys, _) => CMap(keys)
  }

  predicate Aligned(rows: seq<Row>, k: nat) {
    forall r <- rows :: |r.cols| == k
  }

  // ----- deterministic key order -----

  function Digits(n: nat): string {
    if n < 10 then [('0' as int + n) as char] else Digits(n / 10) + [('0' as int + n % 10) as char]
  }

  function PrintString(l: Lit): string {
    match l
    case LNil => "nil"
    case LBool(b) => if b then "true" else "false"
    case LInt(n) => if n < 0 then "-" + Digits(-n) else Digits(n)
    case LStr(s) => "\"" + s + "\""
    case LKw(name) => ":" + name
  }

  predicate Before(a: string, b: string) {
    b != [] && (a == [] || a[0] < b[0] || (a[0] == b[0] && Before(a[1..], b[1..])))
  }

  function InsertKey(k: Lit, ks: seq<Lit>): (r: seq<Lit>)
    ensures forall x :: x in r <==> x == k || x in ks
    ensures NoDup(ks) && k !in ks ==> NoDup(r)
  {
    if ks == [] || Before(PrintString(k), PrintString(ks[0])) then [k] + ks
    else
      var r := InsertKey(k, ks[1..]);
      assert ks == [ks[0]] + ks[1..];
      assert NoDup(ks) ==> NoDup(ks[1..]) && ks[0] !in ks[1..];
      assert forall j | 0 <= j < |r| :: r[j] in r;
      [ks[0]] + r
  }

  function SortKeys(ks: seq<Lit>): (r: seq<Lit>)
    ensures forall x :: x in r <==> x in ks
    ensures NoDup(ks) ==> NoDup(r)
  {
    if ks == [] then []
    else
      assert ks == ks[..|ks| - 1] + [ks[|ks| - 1]];
      InsertKey(ks[|ks| - 1], SortKeys(ks[..|ks| - 1]))
  }

  // ----- the constructors of a column -----

  function UnionKeys(acc: seq<Lit>, ks: seq<Lit>): (r: seq<Lit>)
    ensures forall x :: x in r <==> x in acc || x in ks
    ensures NoDup(acc) ==> NoDup(r)
    decreases ks
  {
    if ks == [] then acc
    else UnionKeys(if ks[0] in acc then acc else acc + [ks[0]], ks[1..])
  }

  /** Constructors in order of first appearance; all map patterns share one placeholder. */
  function Collect(rows: seq<Row>, col: nat, out: seq<Ctor>, keys: seq<Lit>): (seq<Ctor>, seq<Lit>)
    requires forall r <- rows :: col < |r.cols|
    decreases rows
  {
    if rows == [] then (out, keys)
    else
      var p := rows[0].cols[col];
      if IsWild(p) then Collect(rows[1..], col, out, keys)
      else if p.head.HMap? then
        Collect(rows[1..], col, if CMap([]) in out then out else out + [CMap([])], UnionKeys(keys, p.head.keys))
      else
        Collect(rows[1..], col, if CtorOf(p) in out then out else out + [CtorOf(p)], keys)
  }

  function WithKeys(out: seq<Ctor>, keys: seq<Lit>): (r: seq<Ctor>)
    ensures |r| == |out|
    ensures forall i | 0 <= i < |out| :: r[i] == if out[i].CMap? then CMap(SortKeys(keys)) else out[i]
  {
    seq(|out|, i requires 0 <= i < |out| => if out[i].CMap? then CMap(SortKeys(keys)) else out[i])
  }

  function DistinctCtors(rows: seq<Row>, col: nat): seq<Ctor>
    requires forall r <- rows :: col < |r.cols|
  {
    var (out, keys) := Collect(rows, col, [], []);
    WithKeys(out, keys)
  }

  // ----- tests and sub-occurrences -----

  function CtorTest(occ: Sym, ct: Ctor): Form {
    match ct
    case CLit(l) => if l == LNil then FCall(NilP, [FSym(occ)]) else FCall(Eq, [FSym(occ), FLit(l)])
    case CSeq(isVec, arity, hasRest) =>
      FAnd([FCall(if isVec then VectorP else SequentialP, [FSym(occ)]),
            FCall(if hasRest then Ge else Eq, [FCall(Count, [FSym(occ)]), FLit(LInt(arity))])])
    case CMap(_) => FCall(MapP, [FSym(occ)])
  }

  function Width(ct: Ctor): nat {
    match ct
    case CLit(_) => 0
    case CSeq(_, arity, _) => arity
    case CMap(keys) => |keys|
  }

  function SubPrefix(ct: Ctor): string {
    match ct
    case CLit(_) => ""
    case CSeq(isVec, _, _) => if isVec then "v" else "s"
    case CMap(_) => "m"
  }

  function SubOccs(ct: Ctor, n: nat): (r: seq<Sym>)
    ensures |r| == Width(ct)
    ensures forall i | 0 <= i < |r| :: r[i] == Gen(SubPrefix(ct), n + 1 + i)
  {
    seq(Width(ct), i requires 0 <= i < Width(ct) => Gen(SubPrefix(ct), n + 1 + i))
  }

  function Access(occ: Sym, ct: Ctor, i: nat): Form
    requires i < Width(ct)
  {
    match ct
    case CSeq(_, _, _) => FCall(Nth, [FSym(occ), FLit(LInt(i))])
    case CMap(keys) => FCall(GetKey, [FSym(occ), FLit(keys[i]), FLit(NOT_FOUND)])
  }

  function LetPairs(occ: Sym, ct: Ctor, n: nat): (r: seq<Binding>)
    ensures |r| == Width(ct)
    ensures forall i | 0 <= i < |r| :: r[i] == Binding(SubOccs(ct, n)[i], Access(occ, ct, i))
  {
    seq(Width(ct), i requires 0 <= i < Width(ct) => Binding(SubOccs(ct, n)[i], Access(occ, ct, i)))
  }

  // ----- specialization and default -----

  function RemoveAt<T>(xs: seq<T>, i: nat): (r: seq<T>)
    requires i < |xs|
    ensures |r| == |xs| - 1
  {
    xs[..i] + xs[i + 1..]
  }

  function SpliceAt<T>(xs: seq<T>, i: nat, mid: seq<T>): (r: seq<T>)
    requires i < |xs|
    ensures |r| == |xs| - 1 + |mid|
  {
    xs[..i] + mid + xs[i + 1..]
  }

  function Wilds(n: nat): (r: seq<Pat>)
    ensures |r| == n
    ensures forall p | p in r :: p == WILD
  {
    seq(n, i => WILD)
  }

  /** The value pattern a map pattern gives key k: its own, or a wildcard for a key it omits. */
  function ValueFor(keys: seq<Lit>, vals: seq<Pat>, k: Lit): Pat {
    if keys == [] || vals == [] then WILD
    else if keys[0] == k then vals[0]
    else ValueFor(keys[1..], vals[1..], k)
  }

  function Realign(cks: seq<Lit>, keys: seq<Lit>, vals: seq<Pat>): (r: seq<Pat>)
    ensures |r| == |cks|
    ensures forall i | 0 <= i < |cks| :: r[i] == ValueFor(keys, vals, cks[i])
  {
    seq(|cks|, i requires 0 <= i < |cks| => ValueFor(keys, vals, cks[i]))
  }

  /** A named key with a bare value pattern is tested for presence. */
  function PresenceFor(cks: seq<Lit>, subOccs: seq<Sym>, keys: seq<Lit>, vals: seq<Pat>): seq<Sym>
    requires |cks| == |subOccs|
  {
    if cks == [] then []
    else
      (if cks[0] in keys && IsBare(ValueFor(keys, vals, cks[0])) then [subOccs[0]] else []) +
      PresenceFor(cks[1..], subOccs[1..], keys, vals)
  }

  function OwnBindList(syms: seq<Sym>, occ: Sym): (r: seq<Bind>)
    ensures |r| == |syms|
    ensures forall i | 0 <= i < |syms| :: r[i] == Bind(syms[i], SrcOcc(occ))
  {
    seq(|syms|, i requires 0 <= i < |syms| => Bind(syms[i], SrcOcc(occ)))
  }

  function RestBind(isVec: bool, occ: Sym, arity: nat, rest: Option<Sym>): seq<Bind> {
    match rest
    case None => []
    case Some(s) => [Bind(s, if isVec then SrcSubvec(occ, arity) else SrcNthrest(occ, arity))]
  }

  function SpecializeRow(r: Row, col: nat, ct: Ctor, occ: Sym, subOccs: seq<Sym>): (nr: Option<Row>)
    requires col < |r.cols| && |subOccs| == Width(ct)
    ensures nr.Some? ==> |nr.value.cols| == |r.cols| - 1 + Width(ct)
  {
    var p := r.cols[col];
    var binds := r.binds + OwnBindList(p.binds, occ);
    var guards := r.guards + p.guards;
    match p.head
    case HWild =>
      Some(Row(SpliceAt(r.cols, col, Wilds(Width(ct))), binds, guards, r.presence, r.action))
    case HLit(_) =>
      if CtorOf(p) != ct then None
      else Some(Row(SpliceAt(r.cols, col, []), binds, guards, r.presence, r.action))
    case HSeq(isVec, sub, rest) =>
      if CtorOf(p) != ct then None
      else Some(Row(SpliceAt(r.cols, col, sub), binds + RestBind(isVec, occ, |sub|, rest), guards,
                    r.presence, r.action))
    case HMap(keys, vals) =>
      if !ct.CMap? then None
      else Some(Row(SpliceAt(r.cols, col, Realign(ct.keys, keys, vals)), binds, guards,
                    r.presence + PresenceFor(ct.keys, subOccs, keys, vals), r.action))
  }

  function Specialize(rows: seq<Row>, col: nat, ct: Ctor, occ: Sym, subOccs: seq<Sym>): (out: seq<Row>)
    requires (forall r <- rows :: col < |r.cols|) && |subOccs| == Width(ct)
  {
    if rows == [] then []
    else match SpecializeRow(rows[0], col, ct, occ, subOccs)
      case None => Specialize(rows[1..], col, ct, occ, subOccs)
      case Some(nr) => [nr] + Specialize(rows[1..], col, ct, occ, subOccs)
  }

  function DefaultRow(r: Row, col: nat, occ: Sym): Row
    requires col < |r.cols|
  {
    var p := r.cols[col];
    Row(RemoveAt(r.cols, col), r.binds + OwnBindList(p.binds, occ), r.guards + p.guards, r.presence, r.action)
  }

  function DefaultMatrix(rows: seq<Row>, col: nat, occ: Sym): (out: seq<Row>)
    requires forall r <- rows :: col < |r.cols|
  {
    if rows == [] then []
    else if IsWild(rows[0].cols[col]) then
      [DefaultRow(rows[0], col, occ)] + DefaultMatrix(rows[1..], col, occ)
    else DefaultMatrix(rows[1..], col, occ)
  }

  // ----- the termination measure: non-wildcard nodes -----

  function Nodes(p: Pat): nat
    decreases p, 0
  {
    match p.head
    case HWild => 0
    case HLit(_) => 1
    case HSeq(_, sub, _) => 1 + NodesAll(sub)
    case HMap(_, vals) => 1 + NodesAll(vals)
  }

  function NodesAll(ps: seq<Pat>): nat
    decreases ps, 0
  {
    if ps == [] then 0 else Nodes(ps[0]) + NodesAll(ps[1..])
  }

  function Total(rows: seq<Row>): nat {
    if rows == [] then 0 else NodesAll(rows[0].cols) + Total(rows[1..])
  }

  lemma {:induction false} NodesAppend(a: seq<Pat>, b: seq<Pat>)
    ensures NodesAll(a + b) == NodesAll(a) + NodesAll(b)
  {
    if a == [] {
      assert a + b == b;
    } else {
      assert (a + b)[1..] == a[1..] + b;
      NodesAppend(a[1..], b);
    }
  }

  lemma {:induction false} NodesSplit(ps: seq<Pat>, i: nat)
    requires i < |ps|
    ensures NodesAll(ps) == NodesAll(ps[..i]) + Nodes(ps[i]) + NodesAll(ps[i + 1..])
  {
    assert ps == ps[..i] + ps[i..];
    NodesAppend(ps[..i], ps[i..]);
  }

  lemma {:induction false} WildNodes(ps: seq<Pat>)
    requires forall p | p in ps :: IsWild(p)
    ensures NodesAll(ps) == 0
  {
    if ps != [] {
      assert ps[0] in ps;
      WildNodes(ps[1..]);
    }
  }

  /** Spreading value patterns over distinct keys uses each of them at most once. */
  lemma {:induction false} RealignNodes(cks: seq<Lit>, keys: seq<Lit>, vals: seq<Pat>)
    requires NoDup(cks)
    ensures NodesAll(Realign(cks, keys, vals)) <= NodesAll(vals)
    decreases |keys|, |cks|
  {
    if keys == [] || vals == [] {
      WildNodes(Realign(cks, keys, vals));
    } else if keys[0] !in cks {
      assert Realign(cks, keys, vals) == Realign(cks, keys[1..], vals[1..]);
      RealignNodes(cks, keys[1..], vals[1..]);
    } else {
      var i :| 0 <= i < |cks| && cks[i] == keys[0];
      var whole, others := Realign(cks, keys, vals), Realign(cks, keys[1..], vals[1..]);
      RealignNodes(cks, keys[1..], vals[1..]);
      NodesSplit(whole, i);
      NodesSplit(others, i);
      assert whole[..i] == others[..i];
      assert whole[i + 1..] == others[i + 1..];
    }
  }

  predicate KeysNoDup(ct: Ctor) {
    ct.CMap? ==> NoDup(ct.keys)
  }

  /** Some row of the column has this constructor. */
  predicate Heads(rows: seq<Row>, col: nat, ct: Ctor)
    requires forall r <- rows :: col < |r.cols|
  {
    exists r <- rows :: !IsWild(r.cols[col]) && if ct.CMap? then r.cols[col].head.HMap? else CtorOf(r.cols[col]) == ct
  }

  lemma SpecializeRowNodes(r: Row, col: nat, ct: Ctor, occ: Sym, subOccs: seq<Sym>)
    requires col < |r.cols| && |subOccs| == Width(ct) && KeysNoDup(ct)
    ensures match SpecializeRow(r, col, ct, occ, subOccs)
            case None => true
            case Some(nr) =>
              && NodesAll(nr.cols) <= NodesAll(r.cols)
              && (!IsWild(r.cols[col]) ==> NodesAll(nr.cols) < NodesAll(r.cols))
  {
    var p := r.cols[col];
    NodesSplit(r.cols, col);
    match SpecializeRow(r, col, ct, occ, subOccs)
    case None =>
    case Some(nr) =>
      var mid := match p.head
        case HWild => Wilds(Width(ct))
        case HLit(_) => []
        case HSeq(_, sub, _) => sub
        case HMap(keys, vals) => Realign(ct.keys, keys, vals);
      assert nr.cols == r.cols[..col] + mid + r.cols[col + 1..];
      NodesAppend(r.cols[..col] + mid, r.cols[col + 1..]);
      NodesAppend(r.cols[..col], mid);
      if p.head.HWild? {
        WildNodes(mid);
      } else if p.head.HMap? {
        RealignNodes(ct.keys, p.head.keys, p.head.vals);
      }
  }

  /** A specialized matrix is strictly smaller: the dispatched head is gone from some row. */
  lemma {:induction false} SpecializeShrinks(rows: seq<Row>, col: nat, ct: Ctor, occ: Sym, subOccs: seq<Sym>)
    requires (forall r <- rows :: col < |r.cols|) && |subOccs| == Width(ct) && KeysNoDup(ct)
    ensures Total(Specialize(rows, col, ct, occ, subOccs)) <= Total(rows)
    ensures Heads(rows, col, ct) ==> Total(Specialize(rows, col, ct, occ, subOccs)) < Total(rows)
  {
    if rows != [] {
      SpecializeRowNodes(rows[0], col, ct, occ, subOccs);
      SpecializeShrinks(rows[1..], col, ct, occ, subOccs);
      var rest := Specialize(rows[1..], col, ct, occ, subOccs);
      NodesSplit(rows[0].cols, col);
      match SpecializeRow(rows[0], col, ct, occ, subOccs) {
        case None =>
        case Some(nr) => assert ([nr] + rest)[1..] == rest;
      }
      if Heads(rows, col, ct) && !Heads(rows[1..], col, ct) {
        var r :| r in rows && !IsWild(r.cols[col]) && if ct.CMap? then r.cols[col].head.HMap? else CtorOf(r.cols[col]) == ct;
        assert r == rows[0];
      }
    }
  }

  lemma {:induction false} DefaultShrinks(rows: seq<Row>, col: nat, occ: Sym)
    requires forall r <- rows :: col < |r.cols|
    ensures Total(DefaultMatrix(rows, col, occ)) <= Total(rows)
    ensures (exists r <- rows :: !IsWild(r.cols[col])) ==> Total(DefaultMatrix(rows, col, occ)) < Total(rows)
    ensures |DefaultMatrix(rows, col, occ)| <= |rows|
    ensures (exists r <- rows :: !IsWild(r.cols[col])) ==> |DefaultMatrix(rows, col, occ)| < |rows|
  {
    if rows != [] {
      DefaultShrinks(rows[1..], col, occ);
      var r := rows[0];
      NodesSplit(r.cols, col);
      if IsWild(r.cols[col]) {
        var rest := DefaultMatrix(rows[1..], col, occ);
        assert ([DefaultRow(r, col, occ)] + rest)[1..] == rest;
        NodesAppend(r.cols[..col], r.cols[col + 1..]);
      }
    }
  }

  // ----- facts about the constructor list -----

  lemma {:induction false} CollectFacts(rows: seq<Row>, col: nat, out: seq<Ctor>, keys: seq<Lit>)
    requires forall r <- rows :: col < |r.cols|
    requires NoDup(keys)
    requires forall c | c in out :: c.CMap? ==> c == CMap([])
    ensures var (out1, keys1) := Collect(rows, col, out, keys);
            && NoDup(keys1)
            && (forall k | k in keys :: k in keys1)
            && (forall c | c in out :: c in out1)
            && (forall c | c in out1 :: c.CMap? ==> c == CMap([]))
            && (forall c | c in out1 :: c in out || Heads(rows, col, c))
            && (forall r <- rows | !IsWild(r.cols[col]) ::
                  if r.cols[col].head.HMap? then CMap([]) in out1 && (forall k | k in r.cols[col].head.keys :: k in keys1)
                  else CtorOf(r.cols[col]) in out1)
    decreases rows
  {
    if rows != [] {
      var p := rows[0].cols[col];
      if IsWild(p) {
        CollectFacts(rows[1..], col, out, keys);
      } else if p.head.HMap? {
        var out2 := if CMap([]) in out then out else out + [CMap([])];
        CollectFacts(rows[1..], col, out2, UnionKeys(keys, p.head.keys));
        assert CMap([]) in out2;
      } else {
        var out2 := if CtorOf(p) in out then out else out + [CtorOf(p)];
        CollectFacts(rows[1..], col, out2, keys);
        assert CtorOf(p) in out2;
      }
    }
  }

  /** Every listed constructor heads some row; every refutable row's constructor is listed, and the
      one map constructor names every key of every map pattern of the column. */
  lemma DistinctCtorsFacts(rows: seq<Row>, col: nat)
    requires forall r <- rows :: col < |r.cols|
    ensures forall c | c in DistinctCtors(rows, col) :: KeysNoDup(c) && Heads(rows, col, c)
    ensures forall r <- rows | !IsWild(r.cols[col]) && !r.cols[col].head.HMap? ::
              CtorOf(r.cols[col]) in DistinctCtors(rows, col)
    ensures forall r <- rows, c | r.cols[col].head.HMap? && c in DistinctCtors(rows, col) && c.CMap? ::
              forall k | k in r.cols[col].head.keys :: k in c.keys
    ensures forall r <- rows | r.cols[col].head.HMap? :: exists c | c in DistinctCtors(rows, col) :: c.CMap?
  {
    CollectFacts(rows, col, [], []);
    var (out, keys) := Collect(rows, col, [], []);
    var cs := WithKeys(out, keys);
    forall c | c in cs ensures KeysNoDup(c) && Heads(rows, col, c) {
      var i :| 0 <= i < |cs| && cs[i] == c;
      assert out[i] in out;
    }
    forall o | o in out ensures (if o.CMap? then CMap(SortKeys(keys)) else o) in cs {
      var i :| 0 <= i < |out| && out[i] == o;
      assert cs[i] in cs;
    }
  }

  /** Some map pattern of the column names the key. */
  predicate ColumnKey(rows: seq<Row>, col: nat, k: Lit)
    requires forall r <- rows :: col < |r.cols|
  {
    exists r <- rows :: r.cols[col].head.HMap? && k in r.cols[col].head.keys
  }

  lemma {:induction false} CollectDistinct(rows: seq<Row>, col: nat, out: seq<Ctor>, keys: seq<Lit>)
    requires (forall r <- rows :: col < |r.cols|) && NoDup(out)
    requires forall c | c in out :: c.CMap? ==> c == CMap([])
    ensures var (out1, keys1) := Collect(rows, col, out, keys);
            NoDup(out1) && forall k :: k in keys1 <==> k in keys || ColumnKey(rows, col, k)
    decreases rows
  {
    if rows != [] {
      var p := rows[0].cols[col];
      var out2 := if IsWild(p) then out else if CtorHead(p) in out then out else out + [CtorHead(p)];
      var keys2 := if p.head.HMap? then UnionKeys(keys, p.head.keys) else keys;
      CollectDistinct(rows[1..], col, out2, keys2);
      assert forall r :: r in rows <==> r == rows[0] || r in rows[1..];
      assert forall k :: ColumnKey(rows, col, k) <==> (p.head.HMap? && k in p.head.keys) || ColumnKey(rows[1..], col, k);
    }
  }

  function CtorHead(p: Pat): Ctor
    requires !IsWild(p)
  {
    if p.head.HMap? then CMap([]) else CtorOf(p)
  }

  /** The constructors of a column: each once, a map's at most once, with exactly the keys the column names. */
  lemma DistinctCtorsExact(rows: seq<Row>, col: nat)
    requires forall r <- rows :: col < |r.cols|
    ensures var cs := DistinctCtors(rows, col);
            && NoDup(cs)
            && (forall c | c in cs :: KeysNoDup(c))
            && (forall c: Ctor :: !c.CMap? ==> (c in cs <==> exists r <- rows :: !IsWild(r.cols[col]) && !r.cols[col].head.HMap? && CtorOf(r.cols[col]) == c))
            && ((exists c :: c in cs && c.CMap?) <==> exists r <- rows :: r.cols[col].head.HMap?)
            && (forall c, d | c in cs && d in cs && c.CMap? && d.CMap? :: c == d)
            && (forall c, k | c in cs && c.CMap? :: k in c.keys <==> ColumnKey(rows, col, k))
  {
    DistinctCtorsFacts(rows, col);
    CollectFacts(rows, col, [], []);
    CollectDistinct(rows, col, [], []);
    hide Collect, ColumnKey;
    var (out, keys) := Collect(rows, col, [], []);
    var cs := WithKeys(out, keys);
    forall i, j | 0 <= i < j < |cs| ensures cs[i] != cs[j] {
      assert out[i] in out && out[j] in out && out[i] != out[j];
    }
    forall c | c in cs && c.CMap? ensures c == CMap(SortKeys(keys)) {
      var i :| 0 <= i < |cs| && cs[i] == c;
    }
  }

  // ----- emission -----

  predicate IsKeyOcc(s: Sym) {
    s.Gen? && s.prefix == "m"
  }

  function SrcForm(src: Src): Form {
    match src
    case SrcOcc(s) => FSym(s)
    case SrcSubvec(s, n) => FCall(Subvec, [FSym(s), FLit(LInt(n))])
    case SrcNthrest(s, n) => FCall(Nthrest, [FSym(s), FLit(LInt(n))])
  }

  function FromKey(src: Src): bool {
    src.SrcOcc? && IsKeyOcc(src.s)
  }

  function BindPairs(binds: seq<Bind>): (r: seq<Binding>)
    ensures |r| == |binds|
    ensures forall i | 0 <= i < |binds| :: r[i] == Binding(binds[i].sym, SrcForm(binds[i].src))
  {
    seq(|binds|, i requires 0 <= i < |binds| => Binding(binds[i].sym, SrcForm(binds[i].src)))
  }

  function WithLet(binds: seq<Bind>, body: Form): Form {
    if binds == [] then body else FLet(BindPairs(binds), body)
  }

  function UnsentinelPairs(binds: seq<Bind>): seq<Binding> {
    if binds == [] then []
    else
      var s := binds[0].sym;
      (if FromKey(binds[0].src)
       then [Binding(s, FIf(FCall(Eq, [FSym(s), FLit(NOT_FOUND)]), FLit(LNil), FSym(s)))] else []) +
      UnsentinelPairs(binds[1..])
  }

  function Unsentinel(binds: seq<Bind>, action: Action): Form {
    if UnsentinelPairs(binds) == [] then FAction(action)
    else FLet(UnsentinelPairs(binds), FAction(action))
  }

  function ColBinds(cols: seq<Pat>, occs: seq<Sym>): seq<Bind>
    requires |cols| == |occs|
  {
    if cols == [] then [] else OwnBindList(cols[0].binds, occs[0]) + ColBinds(cols[1..], occs[1..])
  }

  function ColGuards(cols: seq<Pat>): seq<Guard> {
    if cols == [] then [] else cols[0].guards + ColGuards(cols[1..])
  }

  function GuardForms(guards: seq<Guard>, presence: seq<Sym>): (r: seq<Form>)
    ensures |r| == |guards| + |presence|
    ensures forall i | 0 <= i < |guards| :: r[i] == FGuard(guards[i])
    ensures forall i | 0 <= i < |presence| :: r[|guards| + i] == FCall(NotEq, [FSym(presence[i]), FLit(NOT_FOUND)])
  {
    seq(|guards|, i requires 0 <= i < |guards| => FGuard(guards[i])) +
    seq(|presence|, i requires 0 <= i < |presence| => FCall(NotEq, [FSym(presence[i]), FLit(NOT_FOUND)]))
  }

  function AndForm(tests: seq<Form>): Form
    requires tests != []
  {
    if |tests| == 1 then tests[0] else FAnd(tests)
  }

  function Chain(occ: Sym, ctors: seq<Ctor>, branches: seq<Form>, tail: Form): Form
    requires |ctors| == |branches|
    decreases ctors
  {
    if ctors == [] then tail
    else FIf(CtorTest(occ, ctors[0]), branches[0], Chain(occ, ctors[1..], branches[1..], tail))
  }

  function WithPairs(pairs: seq<Binding>, body: Form): Form {
    if pairs == [] then body else FLet(pairs, body)
  }

  // ----- the compiler -----

  /** The emitted form, whether `fail` was referenced, and the counter afterwards. */
  datatype Compiled = Compiled(form: Form, used: bool, n: nat)
  datatype Branched = Branched(forms: seq<Form>, used: bool, n: nat)

  function Compile(occs: seq<Sym>, rows: seq<Row>, fail: Form, n: nat): (c: Compiled)
    requires Aligned(rows, |occs|)
    ensures c.n >= n
    decreases Total(rows), |rows|, 1, 0
  {
    if rows == [] then Compiled(fail, true, n)
    else
      var r0 := rows[0];
      var col := FirstRefutable(r0.cols);
      if col < 0 then
        var binds := r0.binds + ColBinds(r0.cols, occs);
        var tests := GuardForms(r0.guards + ColGuards(r0.cols), r0.presence);
        if tests == [] then Compiled(WithLet(binds, Unsentinel(binds, r0.action)), false, n)
        else
          var rest := Compile(occs, rows[1..], fail, n);
          Compiled(WithLet(binds, FIf(AndForm(tests), Unsentinel(binds, r0.action), rest.form)), rest.used, rest.n)
      else
        var occ := occs[col];
        var ctors := DistinctCtors(rows, col);
        DistinctCtorsFacts(rows, col);
        DefaultShrinks(rows, col, occ);
        DefaultAligned(rows, |occs|, col, occ);
        var def := Compile(RemoveAt(occs, col), DefaultMatrix(rows, col, occ), fail, n);
        var thunk := Gen("fail", def.n + 1);
        var br := Branches(occs, rows, col, ctors, FThunk(thunk), def.n + 1);
        var chain := Chain(occ, ctors, br.forms, if br.used then FThunk(thunk) else def.form);
        Compiled(if br.used then FLet([Binding(thunk, FFn(def.form))], chain) else chain, def.used, br.n)
  }

  /** One specialized tree per constructor, left to right. */
  function Branches(occs: seq<Sym>, rows: seq<Row>, col: nat, ctors: seq<Ctor>, fail: Form, n: nat): (b: Branched)
    requires Aligned(rows, |occs|) && col < |occs|
    requires forall c | c in ctors :: KeysNoDup(c) && Heads(rows, col, c)
    ensures |b.forms| == |ctors| && b.n >= n
    decreases Total(rows), |rows|, 0, |ctors|
  {
    if ctors == [] then Branched([], false, n)
    else
      var ct := ctors[0];
      var subOccs := SubOccs(ct, n);
      SpecializeShrinks(rows, col, ct, occs[col], subOccs);
      SpecializeAligned(rows, |occs|, col, ct, occs[col], subOccs);
      var c := Compile(SpliceAt(occs, col, subOccs), Specialize(rows, col, ct, occs[col], subOccs), fail, n + Width(ct));
      var rest := Branches(occs, rows, col, ctors[1..], fail, c.n);
      Branched([WithPairs(LetPairs(occs[col], ct, n), c.form)] + rest.forms, c.used || rest.used, rest.n)
  }

  lemma {:induction false} SpecializeAligned(rows: seq<Row>, k: nat, col: nat, ct: Ctor, occ: Sym, subOccs: seq<Sym>)
    requires Aligned(rows, k) && col < k && |subOccs| == Width(ct)
    ensures Aligned(Specialize(rows, col, ct, occ, subOccs), k - 1 + Width(ct))
  {
    if rows != [] {
      SpecializeAligned(rows[1..], k, col, ct, occ, subOccs);
    }
  }

  lemma {:induction false} DefaultAligned(rows: seq<Row>, k: nat, col: nat, occ: Sym)
    requires Aligned(rows, k) && col < k
    ensures Aligned(DefaultMatrix(rows, col, occ), k - 1)
  {
    if rows != [] {
      DefaultAligned(rows[1..], k, col, occ);
    }
  }

  // ----- the entry -----

  function RowOf(c: Clause): Row {
    Row(c.pats, [], [], [], c.action)
  }

  function RowsOf(cs: seq<Clause>): (r: seq<Row>)
    ensures |r| == |cs|
    ensures forall i | 0 <= i < |cs| :: r[i] == RowOf(cs[i])
  {
    seq(|cs|, i requires 0 <= i < |cs| => RowOf(cs[i]))
  }

  function EntryOccs(k: nat, n: nat): (r: seq<Sym>)
    ensures |r| == k
    ensures forall i | 0 <= i < k :: r[i] == Gen("occ", n + 1 + i)
  {
    seq(k, i requires 0 <= i < k => Gen("occ", n + 1 + i))
  }

  function EntryPairs(exprs: seq<Expr>, n: nat): (r: seq<Binding>)
    ensures |r| == |exprs|
    ensures forall i | 0 <= i < |exprs| :: r[i] == Binding(Gen("occ", n + 1 + i), FExpr(exprs[i]))
  {
    seq(|exprs|, i requires 0 <= i < |exprs| => Binding(Gen("occ", n + 1 + i), FExpr(exprs[i])))
  }

  /** Bind each match expression once, then dispatch. */
  function CompileMatch(exprs: seq<Expr>, cs: seq<Clause>, n: nat): Form
    requires forall c <- cs :: |c.pats| == |exprs|
  {
    var occs := EntryOccs(|exprs|, n);
    WithPairs(EntryPairs(exprs, n), Compile(occs, RowsOf(cs), FThrow, n + |exprs|).form)
  }
}
