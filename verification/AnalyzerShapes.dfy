/** What the analyzer goes by when it looks at a form: parameter vectors, clauses of `try`, expansion to a head. */
module AnalyzerShapes {
  import opened AnalyzerForms
  import opened AnalyzerSpec
  import opened AnalyzerProps
  import opened Options

  // ----- parameter vectors -----

  lemma AfterAmpersand(ps: seq<Form>, names: seq<string>, variadic: bool)
    requires ps != []
    ensures ParamNames(ps, |ps| - 1, true) == Some((names, variadic)) <==>
            variadic && |names| == 1 && IsParam(ps[|ps| - 1], names[0])
  {
    assert ParamNames(ps, |ps|, true) == Some(([], true));
    if |names| == 1 { assert names == [names[0]] + []; }
  }

  lemma ParamFirst(ps: seq<Form>, names: seq<string>, variadic: bool)
    requires ps != [] && ps[0] != AMPERSAND
    ensures ParamShape(ps, names, variadic) <==>
            names != [] && IsParam(ps[0], names[0]) && ParamShape(ps[1..], names[1..], variadic)
  {
    if names != [] {
      var qs, rest := ps[1..], names[1..];
      assert forall i | 0 <= i < |rest| :: rest[i] == names[i + 1];
      assert forall i | 0 <= i < |qs| :: qs[i] == ps[i + 1];
      if ParamShape(qs, rest, variadic) && IsParam(ps[0], names[0]) {
        forall i | 0 <= i < |names| - (if variadic then 1 else 0) ensures IsParam(ps[i], names[i]) {
          if i > 0 { assert ps[i] == qs[i - 1] && names[i] == rest[i - 1]; }
        }
      }
    }
  }

  /** A vector is read as these parameters exactly when it has their shape. */
  lemma {:induction false} ParamsIff(ps: seq<Form>, i: nat, names: seq<string>, variadic: bool)
    requires i <= |ps|
    ensures ParamNames(ps, i, false) == Some((names, variadic)) <==> ParamShape(ps[i..], names, variadic)
    decreases |ps| - i
  {
    var qs := ps[i..];
    if i < |ps| {
      if ps[i] == AMPERSAND {
        if i == |ps| - 2 { AfterAmpersand(ps, names, variadic); }
      } else {
        ParamFirst(qs, names, variadic);
        assert qs[1..] == ps[i + 1..];
        if names != [] {
          ParamsIff(ps, i + 1, names[1..], variadic);
          assert names == [names[0]] + names[1..];
        }
      }
    }
  }

  // ----- clauses and calls -----

  lemma ClauseIs(f: Form)
    ensures ClauseOp(f) == if IsClause(f, "catch") then "catch" else if IsClause(f, "finally") then "finally" else ""
  {}

  lemma CallReads(h: Hooks, items: seq<Form>, locals: Locals, n: Node)
    requires items != []
    ensures var cs := CallShape(h, items);
            && cs.0 != []
            && (ReadsCall(h, items, locals, n) <==>
                && items[0] != Nil
                && if cs.1.HostCall? then
                     && n.Host? && n.assignable == cs.1.assignable && (cs.1.maps ==> AllMaps(n.args))
                     && ReadsAll(h, cs.1.children, locals, n.args)
                   else cs.1.NotHost? && n.Invoke? && Reads(h, cs.0[0], locals, n.fn) && ReadsAll(h, cs.0[1..], locals, n.args))
  {
    hide Reads, ReadsAll;
  }

  // ----- expansion -----

  predicate IsCall(f: Form) {
    f.Seq? && f.items != []
  }

  /** The fifteen unqualified names, and one qualified one. */
  predicate NamesSpecial(f: Form, name: string) {
    || (f == Sym(Symbol(None, name))
        && name in {"quote", "if", "do", "def", "let*", "loop*", "recur", "var", "set!", "binding", "fn*", "throw", "try",
                    "catch", "finally"})
    || (f == Sym(Symbol(Some("clojure.core"), "binding")) && name == "binding")
  }

  /** A call that is none of the specials. */
  predicate IsOpen(f: Form) {
    IsCall(f) && !(f.items[0].Sym? && NamesSpecial(f.items[0], f.items[0].sym.name))
  }

  predicate Expands(h: Hooks, locals: Locals, f: Form) {
    IsOpen(f) && h.macros && h.expand(f, locals).Expanded?
  }

  /** k expansions lead from f to g. */
  ghost predicate Rounds(h: Hooks, locals: Locals, f: Form, k: nat, g: Form)
    decreases k
  {
    if k == 0 then f == g else Expands(h, locals, f) && Rounds(h, locals, h.expand(f, locals).form, k - 1, g)
  }

  /** The head is what is left after the k expansions that lead to g. */
  ghost predicate Settles(h: Hooks, locals: Locals, k: nat, g: Form, head: Head) {
    match head
    case Special(name, items) => k < 1000 && g == Seq(items) && items != [] && NamesSpecial(items[0], name)
    case Call(items) => k < 1000 && g == Seq(items) && IsOpen(g) && (h.macros ==> h.expand(g, locals).Same?)
    case Other(f) => k <= 1000 && g == f && !IsCall(f)
    case Bad(e) =>
      if k == 1000 then IsCall(g) && e == TooManyExpansions
      else k < 1000 && IsOpen(g) && h.macros && h.expand(g, locals).Failed? && e == ExpansionFailed
  }

  ghost predicate SettlesAs(h: Hooks, locals: Locals, f: Form, used: nat, head: Head) {
    exists k: nat, g :: Rounds(h, locals, f, k, g) && Settles(h, locals, used + k, g, head)
  }

  lemma SpecialIs(items: seq<Form>, name: string)
    requires items != []
    ensures SpecialOf(items) == Some(name) <==> NamesSpecial(items[0], name)
    ensures SpecialOf(items).None? <==> IsOpen(Seq(items))
  {}

  lemma {:induction false} HeadSettles(h: Hooks, items: seq<Form>, locals: Locals, used: nat)
    requires items != [] && used <= 1000
    ensures SettlesAs(h, locals, Seq(items), used, ExpandHead(h, items, locals, used))
    decreases 1000 - used
  {
    var f, head := Seq(items), ExpandHead(h, items, locals, used);
    assert Rounds(h, locals, f, 0, f);
    if used < 1000 {
      if SpecialOf(items).Some? { SpecialIs(items, SpecialOf(items).value); } else { SpecialIs(items, ""); }
      if Expands(h, locals, f) {
        var g := h.expand(f, locals).form;
        assert Rounds(h, locals, g, 0, g);
        if IsCall(g) {
          HeadSettles(h, g.items, locals, used + 1);
          var k: nat, e :| Rounds(h, locals, g, k, e) && Settles(h, locals, used + 1 + k, e, head);
          assert Rounds(h, locals, f, k + 1, e) && Settles(h, locals, used + (k + 1), e, head);
        } else {
          assert Rounds(h, locals, f, 1, g) && Settles(h, locals, used + 1, g, head);
        }
      } else {
        assert Settles(h, locals, used + 0, f, head);
      }
    } else {
      assert Settles(h, locals, used + 0, f, head);
    }
  }

  /** The rounds stop at one place only. */
  lemma {:induction false} SettlesOnce(h: Hooks, locals: Locals, f: Form, used: nat, k1: nat, g1: Form, head1: Head,
                                       k2: nat, g2: Form, head2: Head)
    requires Rounds(h, locals, f, k1, g1) && Settles(h, locals, used + k1, g1, head1)
    requires Rounds(h, locals, f, k2, g2) && Settles(h, locals, used + k2, g2, head2)
    ensures head1 == head2
    decreases k1
  {
    if k1 > 0 && k2 > 0 {
      SettlesOnce(h, locals, h.expand(f, locals).form, used + 1, k1 - 1, g1, head1, k2 - 1, g2, head2);
    }
  }

  /** A call is expanded until its head is a special, until it is left as it is, or until it is no call: at most a
      thousand times, specials first on every round. */
  lemma HeadIff(h: Hooks, items: seq<Form>, locals: Locals, head: Head)
    requires items != []
    ensures ExpandHead(h, items, locals, 0) == head <==> SettlesAs(h, locals, Seq(items), 0, head)
  {
    var was := ExpandHead(h, items, locals, 0);
    HeadSettles(h, items, locals, 0);
    var k1: nat, g1 :| Rounds(h, locals, Seq(items), k1, g1) && Settles(h, locals, 0 + k1, g1, was);
    if SettlesAs(h, locals, Seq(items), 0, head) {
      var k2: nat, g2 :| Rounds(h, locals, Seq(items), k2, g2) && Settles(h, locals, 0 + k2, g2, head);
      SettlesOnce(h, locals, Seq(items), 0, k1, g1, was, k2, g2, head);
    }
  }
}
