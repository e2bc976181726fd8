/** What holds of whole analyses, and of every analysis one analyzer performs. */
module AnalyzerTheorems {
  import opened AnalyzerForms
  import opened AnalyzerSpec
  import opened AnalyzerProps
  import opened AnalyzerShapes
  import opened AnalyzerProofs
  import opened AnalyzerExact
  import opened Options

  const NO_LOCALS: Locals := map[]

  /** A top-level form is accepted, with tree n and counters st1, exactly when n reads the form with
      lexical scope, every `recur` in n is in tail position of its own loop or method and nothing else, and
      n's loops and binding sites have the next unused numbers in order. */
  lemma AnalyzeIsExact(h: Hooks, form: Form, st: St, n: Node, st1: St)
    ensures (exists fuel: nat :: Analyze(h, form, st, fuel) == Ok(n, st1))
       <==> Reads(h, form, NO_LOCALS, n) && RecurOk(n, None) && Fresh(Ids(n), st, st1)
  {
    hide Reads, RecurOk, Ids, Fresh;
    var env := Env(NO_LOCALS, Expr, None);
    if fuel: nat :| Analyze(h, form, st, fuel) == Ok(n, st1) {
      FormGood(h, form, env, st, fuel);
    }
    if Reads(h, form, NO_LOCALS, n) && RecurOk(n, None) && Fresh(Ids(n), st, st1) {
      FormExact(h, form, env, st, n, st1, Need(n));
      assert Analyze(h, form, st, Need(n)) == Ok(n, st1);
    }
  }

  /** Analysis is deterministic in more than depth: any two accepted runs agree. */
  lemma FuelDoesNotMatter(h: Hooks, form: Form, st: St, f1: nat, f2: nat)
    requires Analyze(h, form, st, f1).Ok? && Analyze(h, form, st, f2).Ok?
    ensures Analyze(h, form, st, f1) == Analyze(h, form, st, f2)
  {
    hide Reads, RecurOk, Ids, Fresh, AnalyzeForm, Need;
    var env := Env(NO_LOCALS, Expr, None);
    var r1, r2 := Analyze(h, form, st, f1), Analyze(h, form, st, f2);
    FormGood(h, form, env, st, f1);
    FormGood(h, form, env, st, f2);
    var f := Max(Need(r1.v), Need(r2.v));
    FormExact(h, form, env, st, r1.v, r1.st, f);
    FormExact(h, form, env, st, r2.v, r2.st, f);
  }

  // ----- one analyzer's lifetime -----

  datatype Job = Job(form: Form, fuel: nat)

  /** The trees of the accepted forms, in order; a rejected form still uses up numbers. */
  function Session(h: Hooks, jobs: seq<Job>, st: St): seq<Node> {
    if jobs == [] then []
    else
      var r := Analyze(h, jobs[0].form, st, jobs[0].fuel);
      (if r.Ok? then [r.v] else []) + Session(h, jobs[1..], r.st)
  }

  predicate Ascending(xs: seq<nat>, low: nat) {
    (forall i | 0 <= i < |xs| :: low <= xs[i]) && forall i, j | 0 <= i < j < |xs| :: xs[i] < xs[j]
  }

  lemma RangeThen(a: nat, b: nat, xs: seq<nat>)
    requires a <= b && Ascending(xs, b)
    ensures Ascending(Range(a, b) + xs, a)
  {
    var all := Range(a, b) + xs;
    forall i, j | 0 <= i < j < |all| ensures all[i] < all[j] {
      if i < b - a { assert all[i] == a + i; }
    }
  }

  /** Over a whole lifetime, whatever is accepted or rejected, no loop or method number and no binding
      site is used twice: `recur` targets and locals are unambiguous across trees. */
  lemma {:induction false} SessionDistinct(h: Hooks, jobs: seq<Job>, st: St)
    ensures var ids := IdsAll(Session(h, jobs, st));
            Ascending(ids.loops, st.gensym + 1) && Ascending(ids.sites, st.alloc)
  {
    hide Ids, Reads, RecurOk, Analyze, AnalyzeForm, Ascending, Fresh;
    if jobs != [] {
      var r := Analyze(h, jobs[0].form, st, jobs[0].fuel);
      var rest := Session(h, jobs[1..], r.st);
      SessionDistinct(h, jobs[1..], r.st);
      if r.Ok? {
        AnalyzeFresh(h, jobs[0].form, st, jobs[0].fuel);
        FreshThen(Ids(r.v), IdsAll(rest), st, r.st);
        assert ([r.v] + rest)[1..] == rest;
      } else {
        assert [] + rest == rest;
        Later(IdsAll(rest), st, r.st);
      }
    } else {
      assert Ascending([], st.gensym + 1) && Ascending([], st.alloc) by { NoneAscend(st); }
    }
  }

  lemma NoneAscend(st: St)
    ensures Ascending([], st.gensym + 1) && Ascending([], st.alloc)
  {}

  lemma AnalyzeFresh(h: Hooks, form: Form, st: St, fuel: nat)
    ensures var r := Analyze(h, form, st, fuel); r.Ok? ==> Fresh(Ids(r.v), st, r.st)
  {
    hide Ids, Reads, RecurOk, AnalyzeForm, Fresh;
    FormGood(h, form, Env(NO_LOCALS, Expr, None), st, fuel);
  }

  lemma FreshThen(ids: Nums, rest: Nums, st: St, st1: St)
    requires Fresh(ids, st, st1) && Ascending(rest.loops, st1.gensym + 1) && Ascending(rest.sites, st1.alloc)
    ensures Ascending(Cat(ids, rest).loops, st.gensym + 1) && Ascending(Cat(ids, rest).sites, st.alloc)
  {
    RangeThen(st.gensym + 1, st1.gensym + 1, rest.loops);
    RangeThen(st.alloc, st1.alloc, rest.sites);
  }

  lemma Later(rest: Nums, st: St, st1: St)
    requires Grows(st, st1) && Ascending(rest.loops, st1.gensym + 1) && Ascending(rest.sites, st1.alloc)
    ensures Ascending(rest.loops, st.gensym + 1) && Ascending(rest.sites, st.alloc)
  {}

  // ----- specials -----

  /** A call whose head is a special's name is analyzed as that special, whatever the locals and macros are. */
  lemma SpecialsNotShadowed(h: Hooks, name: string, args: seq<Form>, env: Env, st: St, fuel: nat)
    requires name in {"quote", "if", "do", "def", "let*", "loop*", "recur", "var", "set!", "binding", "fn*", "throw", "try",
                      "catch", "finally"}
    ensures var r := AnalyzeForm(h, Seq([Sym(Symbol(None, name))] + args), env, st, fuel);
            r.Ok? ==> ReadsSpecial(h, name, args, env.locals, r.v)
  {
    hide ReadsSpecial, RecurOk, Ids, Fresh;
    var items := [Sym(Symbol(None, name))] + args;
    FormGood(h, Seq(items), env, st, fuel);
    SpecialIs(items, name);
    assert ExpandHead(h, items, env.locals, 0) == Special(name, items) && items[1..] == args;
  }
}
