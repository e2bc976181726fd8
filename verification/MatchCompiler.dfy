/** The compiler as the source runs it: loops filling local lists, one counter, and the table of map
    sub-occurrences.  Each method is proved to compute the function of the same name in MatchCompile. */
module MatchCompiler {
  import opened MatchForms
  import opened MatchPattern
  import C = MatchCompile
  import P = MatchParse
  import T = MatchCorrect
  import opened Options

  type Row = C.Row
  type Bind = C.Bind
  type Ctor = C.Ctor

  method Cartesian<T>(cols: seq<seq<T>>) returns (out: seq<seq<T>>)
    ensures out == P.Cartesian(cols)
  {
    out := [[]];
    for k := 0 to |cols|
      invariant out == P.Cartesian(cols[..k])
    {
      var next: seq<seq<T>> := [];
      for i := 0 to |out|
        invariant next + P.ExtendAll(out[i..], cols[k]) == P.ExtendAll(out, cols[k])
      {
        ghost var before := next;
        for j := 0 to |cols[k]|
          invariant next == before + P.Extend(out[i], cols[k])[..j]
        {
          next := next + [out[i] + [cols[k][j]]];
        }
        assert out[i..][1..] == out[i + 1..];
        assert P.Extend(out[i], cols[k])[..|cols[k]|] == P.Extend(out[i], cols[k]);
      }
      assert out[|out|..] == [];
      assert cols[..k + 1][..k] == cols[..k];
      out := next;
    }
    assert cols[..|cols|] == cols;
  }

  method FirstRefutable(r: Row) returns (c: int)
    ensures c == C.FirstRefutable(r.cols)
  {
    var i := 0;
    while i < |r.cols|
      invariant 0 <= i <= |r.cols|
      invariant forall j | 0 <= j < i :: IsWild(r.cols[j])
    {
      if !IsWild(r.cols[i]) {
        return i;
      }
      i := i + 1;
    }
    c := -1;
  }

  method DistinctCtors(rows: seq<Row>, col: nat) returns (out: seq<Ctor>)
    requires forall r <- rows :: col < |r.cols|
    ensures out == C.DistinctCtors(rows, col)
  {
    out := [];
    var keys: seq<Lit> := [];
    for i := 0 to |rows|
      invariant C.Collect(rows[i..], col, out, keys) == C.Collect(rows, col, [], [])
      invariant forall c | c in out :: c.CMap? ==> c == C.CMap([])
    {
      var p := rows[i].cols[col];
      assert rows[i..][0] == rows[i] && rows[i..][1..] == rows[i + 1..];
      if IsWild(p) {
        continue;
      }
      if p.head.HMap? {
        ghost var acc := keys;
        for j := 0 to |p.head.keys|
          invariant C.UnionKeys(keys, p.head.keys[j..]) == C.UnionKeys(acc, p.head.keys)
        {
          assert p.head.keys[j..][1..] == p.head.keys[j + 1..];
          if p.head.keys[j] !in keys {
            keys := keys + [p.head.keys[j]];
          }
        }
        if C.CMap([]) !in out {
          out := out + [C.CMap([])];
        }
      } else if C.CtorOf(p) !in out {
        out := out + [C.CtorOf(p)];
      }
    }
    assert rows[|rows|..] == [];
    ghost var collected := out;
    for i := 0 to |out|
      invariant |out| == |collected|
      invariant forall j | 0 <= j < i :: out[j] == C.WithKeys(collected, keys)[j]
      invariant forall j | i <= j < |out| :: out[j] == collected[j]
    {
      if out[i].CMap? {
        out := out[i := C.CMap(C.SortKeys(keys))];
      }
    }
    assert out == C.WithKeys(collected, keys);
  }

  method Specialize(rows: seq<Row>, col: nat, ct: Ctor, occ: Sym, subOccs: seq<Sym>) returns (out: seq<Row>)
    requires (forall r <- rows :: col < |r.cols|) && |subOccs| == C.Width(ct)
    ensures out == C.Specialize(rows, col, ct, occ, subOccs)
  {
    out := [];
    for i := 0 to |rows|
      invariant out + C.Specialize(rows[i..], col, ct, occ, subOccs) == C.Specialize(rows, col, ct, occ, subOccs)
    {
      assert rows[i..][0] == rows[i] && rows[i..][1..] == rows[i + 1..];
      match C.SpecializeRow(rows[i], col, ct, occ, subOccs) {
        case None =>
        case Some(nr) => out := out + [nr];
      }
    }
    assert rows[|rows|..] == [];
  }

  method DefaultMatrix(rows: seq<Row>, col: nat, occ: Sym) returns (out: seq<Row>)
    requires forall r <- rows :: col < |r.cols|
    ensures out == C.DefaultMatrix(rows, col, occ)
  {
    out := [];
    for i := 0 to |rows|
      invariant out + C.DefaultMatrix(rows[i..], col, occ) == C.DefaultMatrix(rows, col, occ)
    {
      assert rows[i..][0] == rows[i] && rows[i..][1..] == rows[i + 1..];
      if IsWild(rows[i].cols[col]) {
        out := out + [C.DefaultRow(rows[i], col, occ)];
      }
    }
    assert rows[|rows|..] == [];
  }

  /** The right-nested chain, from the bottom up. */
  method BuildChain(occ: Sym, ctors: seq<Ctor>, branches: seq<Form>, tail: Form) returns (chain: Form)
    requires |ctors| == |branches|
    ensures chain == C.Chain(occ, ctors, branches, tail)
  {
    chain := tail;
    var i := |ctors|;
    while i > 0
      invariant 0 <= i <= |ctors|
      invariant chain == C.Chain(occ, ctors[i..], branches[i..], tail)
    {
      i := i - 1;
      chain := FIf(C.CtorTest(occ, ctors[i]), branches[i], chain);
      assert ctors[i..][1..] == ctors[i + 1..] && branches[i..][1..] == branches[i + 1..];
    }
  }

  lemma PrefixNotKey(ct: Ctor)
    requires !ct.CMap?
    ensures C.SubPrefix(ct) != "m"
  {
    assert "v"[0] != "m"[0] && "s"[0] != "m"[0] && |""| != |"m"|;
  }

  class Compiler {
    var counter: nat
    var mapSub: set<Sym>
    ghost var made: set<Sym>

    /** The table holds exactly the map sub-occurrences among the symbols made so far. */
    ghost predicate Valid()
      reads this
    {
      forall s :: s in mapSub <==> C.IsKeyOcc(s) && s in made
    }

    ghost predicate Ours(s: Sym)
      reads this
    {
      s in made
    }

    ghost predicate OurRows(rows: seq<Row>)
      reads this
    {
      forall r <- rows :: forall b <- r.binds :: Ours(b.src.s)
    }

    constructor (n: nat)
      ensures Valid() && counter == n && mapSub == {} && made == {}
    {
      counter, mapSub, made := n, {}, {};
    }

    method Gensym(prefix: string) returns (s: Sym)
      requires Valid() && prefix != "m"
      modifies this`counter, this`made
      ensures Valid() && s == Gen(prefix, counter) && counter == old(counter) + 1 && made == old(made) + {s}
    {
      counter := counter + 1;
      s := Gen(prefix, counter);
      made := made + {s};
    }

    /** A map sub-occurrence is entered in the table as it is made. */
    method MapOcc() returns (s: Sym)
      requires Valid()
      modifies this
      ensures Valid() && s == Gen("m", counter) && counter == old(counter) + 1 && made == old(made) + {s}
    {
      counter := counter + 1;
      s := Gen("m", counter);
      mapSub, made := mapSub + {s}, made + {s};
    }

    method ExpandOccs(occ: Sym, ct: Ctor) returns (subOccs: seq<Sym>, pairs: seq<Binding>)
      requires Valid()
      modifies this
      ensures Valid() && counter == old(counter) + C.Width(ct)
      ensures subOccs == C.SubOccs(ct, old(counter))
      ensures made == old(made) + set s | s in subOccs
      ensures pairs == C.LetPairs(occ, ct, old(counter))
    {
      hide C.SubOccs, C.LetPairs, C.Access;
      subOccs, pairs := [], [];
      for i := 0 to C.Width(ct)
        invariant Valid() && counter == old(counter) + i
        invariant subOccs == C.SubOccs(ct, old(counter))[..i]
        invariant made == old(made) + set s | s in subOccs
        invariant pairs == C.LetPairs(occ, ct, old(counter))[..i]
      {
        var g;
        if ct.CMap? {
          g := MapOcc();
        } else {
          PrefixNotKey(ct);
          g := Gensym(C.SubPrefix(ct));
        }
        subOccs := subOccs + [g];
        pairs := pairs + [Binding(g, C.Access(occ, ct, i))];
      }
    }

    /** The table gives the answer the symbol's prefix would. */
    method Unsentinel(binds: seq<Bind>, action: Action) returns (f: Form)
      requires Valid() && forall b <- binds :: Ours(b.src.s)
      ensures f == C.Unsentinel(binds, action)
    {
      var pairs: seq<Binding> := [];
      for i := 0 to |binds|
        invariant pairs + C.UnsentinelPairs(binds[i..]) == C.UnsentinelPairs(binds)
      {
        assert binds[i] in binds && binds[i..][0] == binds[i] && binds[i..][1..] == binds[i + 1..];
        if binds[i].src.SrcOcc? && binds[i].src.s in mapSub {
          var s := binds[i].sym;
          pairs := pairs + [Binding(s, FIf(FCall(Eq, [FSym(s), FLit(NOT_FOUND)]), FLit(LNil), FSym(s)))];
        }
      }
      assert binds[|binds|..] == [];
      f := if pairs == [] then FAction(action) else FLet(pairs, FAction(action));
    }

    method Compile(occs: seq<Sym>, rows: seq<Row>, fail: Form) returns (form: Form, used: bool)
      requires Valid() && C.Aligned(rows, |occs|) && OurRows(rows)
      requires forall o <- occs :: Ours(o)
      modifies this
      ensures Valid() && counter >= old(counter) && old(made) <= made
      ensures C.Compiled(form, used, counter) == C.Compile(occs, rows, fail, old(counter))
      decreases C.Total(rows), |rows|, 1
    {
      if rows == [] {
        return fail, true;
      }
      var r0 := rows[0];
      assert r0 in rows;
      var col := FirstRefutable(r0);
      if col < 0 {
        var binds := r0.binds + C.ColBinds(r0.cols, occs);
        ColBindsOurs(r0.cols, occs);
        var tests := C.GuardForms(r0.guards + C.ColGuards(r0.cols), r0.presence);
        var act := Unsentinel(binds, r0.action);
        if tests == [] {
          return C.WithLet(binds, act), false;
        }
        var rest, restUsed := Compile(occs, rows[1..], fail);
        return C.WithLet(binds, FIf(C.AndForm(tests), act, rest)), restUsed;
      }
      form, used := Dispatch(occs, rows, col, fail);
    }

    method Dispatch(occs: seq<Sym>, rows: seq<Row>, col: nat, fail: Form) returns (form: Form, used: bool)
      requires Valid() && C.Aligned(rows, |occs|) && OurRows(rows)
      requires forall o <- occs :: Ours(o)
      requires rows != [] && col < |occs| && col < |rows[0].cols| && C.FirstRefutable(rows[0].cols) == col
      modifies this
      ensures Valid() && counter >= old(counter) && old(made) <= made
      ensures C.Compiled(form, used, counter) == C.Compile(occs, rows, fail, old(counter))
      decreases C.Total(rows), |rows|, 0
    {
      hide C.Compile, C.Branches, C.Total, C.Specialize, C.DefaultMatrix, C.Chain, C.DistinctCtors, C.Heads, C.FirstRefutable;
      var occ := occs[col];
      T.CompileDispatch(occs, rows, fail, counter);
      var ctors := DistinctCtors(rows, col);
      var defRows := DefaultMatrix(rows, col, occ);
      assert Ours(occ);
      DefaultOurs(rows, col, occ);
      var defForm, defUsed := Compile(C.RemoveAt(occs, col), defRows, fail);
      assert |"fail"| != |"m"|;
      var thunk := Gensym("fail");
      var branches, anyUsed := CompileBranches(occs, rows, col, ctors, FThunk(thunk));
      var chain := BuildChain(occ, ctors, branches, if anyUsed then FThunk(thunk) else defForm);
      form := if anyUsed then FLet([Binding(thunk, FFn(defForm))], chain) else chain;
      used := defUsed;
    }

    /** One specialized tree per constructor. */
    method CompileBranches(occs: seq<Sym>, rows: seq<Row>, col: nat, ctors: seq<Ctor>, fail: Form)
      returns (branches: seq<Form>, anyUsed: bool)
      requires Valid() && C.Aligned(rows, |occs|) && OurRows(rows)
      requires (forall o <- occs :: Ours(o)) && col < |occs|
      requires forall c | c in ctors :: C.KeysNoDup(c) && C.Heads(rows, col, c)
      modifies this
      ensures Valid() && counter >= old(counter) && old(made) <= made
      ensures C.Branched(branches, anyUsed, counter) == C.Branches(occs, rows, col, ctors, fail, old(counter))
      decreases C.Total(rows), |rows|, 0, 0
    {
      hide C.Compile, C.Branches, C.Total, C.Specialize, C.Heads, C.KeysNoDup, C.SubOccs, C.LetPairs, C.Chain, C.CtorTest, C.Width;
      branches, anyUsed := [], false;
      ghost var all := C.Branches(occs, rows, col, ctors, fail, counter);
      for i := 0 to |ctors|
        invariant Valid() && counter >= old(counter) && old(made) <= made
        invariant |branches| == i
        invariant var rest := C.Branches(occs, rows, col, ctors[i..], fail, counter);
                  all.forms == branches + rest.forms && all.used == (anyUsed || rest.used) && all.n == rest.n
      {
        T.BranchesStep(occs, rows, col, ctors[i..], fail, fail, counter);
        assert ctors[i] in ctors && ctors[i..][0] == ctors[i] && ctors[i..][1..] == ctors[i + 1..];
        var bform, bused := CompileBranch(occs, rows, col, ctors[i], fail);
        branches := branches + [bform];
        anyUsed := anyUsed || bused;
      }
      assert ctors[|ctors|..] == [];
      NoBranchesLeft(occs, rows, col, fail, counter);
    }

    static lemma NoBranchesLeft(occs: seq<Sym>, rows: seq<Row>, col: nat, fail: Form, n: nat)
      requires C.Aligned(rows, |occs|) && col < |occs|
      ensures C.Branches(occs, rows, col, [], fail, n) == C.Branched([], false, n)
    {
    }

    method CompileBranch(occs: seq<Sym>, rows: seq<Row>, col: nat, ct: Ctor, fail: Form) returns (form: Form, used: bool)
      requires Valid() && C.Aligned(rows, |occs|) && OurRows(rows)
      requires (forall o <- occs :: Ours(o)) && col < |occs|
      requires (forall r <- rows :: col < |r.cols|)
      requires C.Total(C.Specialize(rows, col, ct, occs[col], C.SubOccs(ct, counter))) < C.Total(rows)
      requires C.Aligned(C.Specialize(rows, col, ct, occs[col], C.SubOccs(ct, counter)), |occs| - 1 + C.Width(ct))
      modifies this
      ensures Valid() && counter >= old(counter) && old(made) <= made
      ensures var subs := C.SubOccs(ct, old(counter));
              var c := C.Compile(C.SpliceAt(occs, col, subs), C.Specialize(rows, col, ct, occs[col], subs), fail, old(counter) + C.Width(ct));
              form == C.WithPairs(C.LetPairs(occs[col], ct, old(counter)), c.form) && used == c.used && counter == c.n
      decreases C.Total(rows), |rows|, 0, 0, 0
    {
      hide C.Compile, C.Total, C.Specialize;
      var occ := occs[col];
      assert Ours(occ);
      var subOccs, pairs := ExpandOccs(occ, ct);
      var specRows := Specialize(rows, col, ct, occ, subOccs);
      SpecializeOurs(rows, col, ct, occ, subOccs);
      assert forall s | s in subOccs :: Ours(s);
      assert forall o | o in C.SpliceAt(occs, col, subOccs) :: o in occs || o in subOccs;
      form, used := Compile(C.SpliceAt(occs, col, subOccs), specRows, fail);
      form := C.WithPairs(pairs, form);
    }

    lemma ColBindsOurs(cols: seq<Pat>, occs: seq<Sym>)
      requires |cols| == |occs| && forall o <- occs :: Ours(o)
      ensures forall b <- C.ColBinds(cols, occs) :: Ours(b.src.s)
    {
      if cols != [] {
        ColBindsOurs(cols[1..], occs[1..]);
      }
    }

    lemma {:induction false} DefaultOurs(rows: seq<Row>, col: nat, occ: Sym)
      requires (forall r <- rows :: col < |r.cols|) && Ours(occ) && OurRows(rows)
      ensures OurRows(C.DefaultMatrix(rows, col, occ))
    {
      if rows != [] {
        assert rows[0] in rows;
        DefaultOurs(rows[1..], col, occ);
        var nr := C.DefaultRow(rows[0], col, occ);
        assert forall b | b in nr.binds :: Ours(b.src.s);
      }
    }

    lemma {:induction false} SpecializeOurs(rows: seq<Row>, col: nat, ct: Ctor, occ: Sym, subOccs: seq<Sym>)
      requires (forall r <- rows :: col < |r.cols|) && |subOccs| == C.Width(ct) && Ours(occ) && OurRows(rows)
      ensures OurRows(C.Specialize(rows, col, ct, occ, subOccs))
    {
      if rows != [] {
        assert rows[0] in rows;
        SpecializeOurs(rows[1..], col, ct, occ, subOccs);
        match C.SpecializeRow(rows[0], col, ct, occ, subOccs) {
          case None =>
          case Some(nr) => assert forall b | b in nr.binds :: Ours(b.src.s);
        }
      }
    }

    static lemma ClauseRows(clauses: seq<Clause>, k: nat)
      requires forall c <- clauses :: |c.pats| == k
      ensures C.Aligned(C.RowsOf(clauses), k) && forall r <- C.RowsOf(clauses) :: r.binds == []
    {
      var rows := C.RowsOf(clauses);
      forall r | r in rows ensures |r.cols| == k && r.binds == [] {
        var i :| 0 <= i < |clauses| && rows[i] == r;
        assert clauses[i] in clauses;
      }
    }

    /** Bind each match expression once, then compile the rows. */
    method CompileMatch(exprs: seq<Expr>, clauses: seq<Clause>) returns (form: Form)
      requires Valid() && forall c <- clauses :: |c.pats| == |exprs|
      modifies this
      ensures Valid()
      ensures form == C.CompileMatch(exprs, clauses, old(counter))
    {
      hide C.Compile;
      var occs: seq<Sym>, pairs: seq<Binding> := [], [];
      for i := 0 to |exprs|
        invariant Valid() && counter == old(counter) + i
        invariant occs == C.EntryOccs(|exprs|, old(counter))[..i]
        invariant pairs == C.EntryPairs(exprs, old(counter))[..i]
        invariant forall o <- occs :: Ours(o)
      {
        assert |"occ"| != |"m"|;
        var g := Gensym("occ");
        occs := occs + [g];
        pairs := pairs + [Binding(g, FExpr(exprs[i]))];
      }
      var rows := C.RowsOf(clauses);
      ClauseRows(clauses, |exprs|);
      assert occs == C.EntryOccs(|exprs|, old(counter)) && pairs == C.EntryPairs(exprs, old(counter));
      var body, used := Compile(occs, rows, FThrow);
      form := C.WithPairs(pairs, body);
    }
  }
}
