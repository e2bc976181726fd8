/** Whole-namespace refer through a cached snapshot against the per-symbol loop
    (pkg/corelib/builtins.go, over pkg/lang/namespace.go). */
module Refer {
  import opened Options

  type NsId = nat
  type Name = string

  /** A var by identity, or any other mapped value. */
  datatype Val = Var(id: nat) | Host(id: nat)

  /** What a var is for good: the namespace and symbol it was interned under. */
  datatype Vars = Vars(owner: nat -> NsId, symbol: nat -> Name)

  type Table = map<Name, Val>

  // ----- the per-symbol reference -----

  /** A var interned in the namespace under the name. */
  predicate Interned(vars: Vars, ns: NsId, n: Name, v: Val) {
    v.Var? && vars.owner(v.id) == ns && vars.symbol(v.id) == n
  }

  /** Namespace.Refer: a free name is mapped; the namespace's own var, and the same var, stay; anything else
      is replaced. */
  function Referred(vars: Vars, ns: NsId, t: Table, n: Name, v: nat): Table {
    if n in t && (Interned(vars, ns, n, t[n]) || t[n] == Var(v)) then t else t[n := Var(v)]
  }

  /** A mapping a refer of `from` hands on: a public var interned in `from`. */
  predicate Eligible(vars: Vars, from: NsId, public: set<nat>, v: Val) {
    v.Var? && vars.owner(v.id) == from && v.id in public
  }

  function EligibleOf(vars: Vars, from: NsId, public: set<nat>, src: Table): Table {
    map n | n in src && Eligible(vars, from, public, src[n]) :: src[n]
  }

  /** What the loop makes of the target: every chosen mapping referred, everything else as it was. */
  ghost predicate IsLoopResult(vars: Vars, ns: NsId, t: Table, chosen: Table, r: Table) {
    && r.Keys == t.Keys + chosen.Keys
    && (forall n | n in t && n !in chosen :: r[n] == t[n])
    && (forall n | n in chosen :: r[n] == if n in t && (Interned(vars, ns, n, t[n]) || t[n] == chosen[n]) then t[n] else chosen[n])
  }

  lemma LoopResultUnique(vars: Vars, ns: NsId, t: Table, chosen: Table, r: Table, r1: Table)
    requires IsLoopResult(vars, ns, t, chosen, r) && IsLoopResult(vars, ns, t, chosen, r1)
    ensures r == r1
  {
    forall n | n in r ensures r[n] == r1[n] { if n in chosen {} else { assert n in t; } }
    assert r.Keys == r1.Keys;
  }

  /** The names passing :only and :exclude. */
  predicate Wanted(only: Option<set<Name>>, exclude: set<Name>, n: Name) {
    (only.Some? ==> n in only.value) && n !in exclude
  }

  function ChosenOf(elig: Table, only: Option<set<Name>>, exclude: set<Name>): Table {
    map n | n in elig && Wanted(only, exclude, n) :: elig[n]
  }

  /** A mapping of the source that the call asks for: a public var of the source's own, under a name that is in `:only`
      if there is one and not in `:exclude`. */
  predicate AskedFor(vars: Vars, from: NsId, public: set<nat>, only: Option<set<Name>>, exclude: set<Name>, src: Table, n: Name) {
    && n in src && src[n].Var? && vars.owner(src[n].id) == from && src[n].id in public
    && (only == None || n in only.value) && n !in exclude
  }

  /** What becomes of a name: the target's own var and the very same var stay, any other entry gives way to the var asked
      for, and a name nobody asked for is left alone. */
  ghost predicate NameRight(vars: Vars, ns: NsId, from: NsId, public: set<nat>, only: Option<set<Name>>, exclude: set<Name>,
                            src: Table, t: Table, r: Table, n: Name)
  {
    if !AskedFor(vars, from, public, only, exclude, src, n) then (n in r <==> n in t) && (n in t ==> r[n] == t[n])
    else
      && n in r
      && r[n] == if n in t && t[n].Var? && (t[n] == src[n] || (vars.owner(t[n].id) == ns && vars.symbol(t[n].id) == n))
                 then t[n] else src[n]
  }

  /** The loop's table, name by name. */
  lemma LoopResultIff(vars: Vars, ns: NsId, from: NsId, public: set<nat>, only: Option<set<Name>>, exclude: set<Name>,
                      src: Table, t: Table, r: Table)
    ensures IsLoopResult(vars, ns, t, ChosenOf(EligibleOf(vars, from, public, src), only, exclude), r) <==>
            forall n :: NameRight(vars, ns, from, public, only, exclude, src, t, r, n)
  {
    var chosen := ChosenOf(EligibleOf(vars, from, public, src), only, exclude);
    forall n ensures n in chosen <==> AskedFor(vars, from, public, only, exclude, src, n) {}
    forall n | n in chosen ensures chosen[n] == src[n] && chosen[n].Var? {}
    hide EligibleOf, ChosenOf, AskedFor;
    if IsLoopResult(vars, ns, t, chosen, r) {
      forall n ensures NameRight(vars, ns, from, public, only, exclude, src, t, r, n) {
        assert n in r <==> n in t.Keys + chosen.Keys;
      }
    }
    if forall n :: NameRight(vars, ns, from, public, only, exclude, src, t, r, n) {
      forall n ensures n in r <==> n in t.Keys + chosen.Keys {
        assert NameRight(vars, ns, from, public, only, exclude, src, t, r, n);
      }
      assert r.Keys == t.Keys + chosen.Keys;
      forall n | n in chosen
        ensures r[n] == if n in t && (Interned(vars, ns, n, t[n]) || t[n] == chosen[n]) then t[n] else chosen[n]
      {
        assert NameRight(vars, ns, from, public, only, exclude, src, t, r, n);
      }
      forall n | n in t && n !in chosen ensures r[n] == t[n] {
        assert NameRight(vars, ns, from, public, only, exclude, src, t, r, n);
      }
    }
  }

  // ----- the bulk refer -----

  /** No entry of the target needs the loop's judgement. */
  predicate NoConflict(vars: Vars, ns: NsId, t: Table, m: Table) {
    forall n | n in t && n in m :: t[n].Var? && (t[n] == m[n] || Interned(vars, ns, n, t[n]))
  }

  /** The snapshot and what is eligible now lead to the same table: on names not excluded they agree where the
      target is free, and an entry of the target missing from the snapshot is one a refer leaves alone. */
  predicate SnapshotServes(vars: Vars, ns: NsId, t: Table, snap: Table, elig: Table, exclude: set<Name>) {
    && (forall n | n in snap && n !in exclude && n !in t :: n in elig && elig[n] == snap[n])
    && (forall n | n in elig && n !in exclude && n !in t :: n in snap && snap[n] == elig[n])
    && (forall n | n in elig && n !in exclude && n in t :: Interned(vars, ns, n, t[n]) || t[n] == elig[n])
  }

  /** A successful bulk refer gives the loop's table exactly when the snapshot serves. */
  lemma BulkIffServes(vars: Vars, ns: NsId, t: Table, snap: Table, elig: Table, exclude: set<Name>)
    requires NoConflict(vars, ns, t, ChosenOf(snap, None, exclude))
    ensures IsLoopResult(vars, ns, t, ChosenOf(elig, None, exclude), ChosenOf(snap, None, exclude) + t)
       <==> SnapshotServes(vars, ns, t, snap, elig, exclude)
  {
    var chosen, m := ChosenOf(elig, None, exclude), ChosenOf(snap, None, exclude);
    var r := m + t;
    if SnapshotServes(vars, ns, t, snap, elig, exclude) {
      forall n ensures n in r <==> n in t.Keys + chosen.Keys {}
      assert r.Keys == t.Keys + chosen.Keys;
    }
    if IsLoopResult(vars, ns, t, chosen, r) {
      forall n | n in snap && n !in exclude && n !in t ensures n in elig && elig[n] == snap[n] {
        assert n in m && n in r;
        assert n in t.Keys + chosen.Keys;
      }
      forall n | n in elig && n !in exclude && n !in t ensures n in snap && snap[n] == elig[n] {
        assert n in chosen && n in t.Keys + chosen.Keys;
      }
      forall n | n in elig && n !in exclude && n in t ensures Interned(vars, ns, n, t[n]) || t[n] == elig[n] {
        assert n in chosen && r[n] == t[n];
      }
    }
  }

  /** A snapshot of the same table taken under the same public statuses serves whenever the bulk refer
      succeeds. */
  lemma FreshServes(vars: Vars, ns: NsId, t: Table, elig: Table, exclude: set<Name>)
    requires NoConflict(vars, ns, t, ChosenOf(elig, None, exclude))
    ensures SnapshotServes(vars, ns, t, elig, elig, exclude)
  {
    forall n | n in elig && n !in exclude && n in t ensures Interned(vars, ns, n, t[n]) || t[n] == elig[n] {
      assert n in ChosenOf(elig, None, exclude);
    }
  }

  /** A var made private after the snapshot was taken is still referred by the bulk path: the cache sees
      only the identity of the mapping table. */
  lemma StaleSnapshot(vars: Vars, ns: NsId, from: NsId, v: nat, n: Name)
    requires vars.owner(v) == from
    ensures var src: Table := map[n := Var(v)];
            var snap, elig := EligibleOf(vars, from, {v}, src), EligibleOf(vars, from, {}, src);
            && NoConflict(vars, ns, map[], ChosenOf(snap, None, {}))
            && !SnapshotServes(vars, ns, map[], snap, elig, {})
  {
    var src: Table := map[n := Var(v)];
    var snap := EligibleOf(vars, from, {v}, src);
    assert n in snap;
  }

  // ----- the running system -----

  /** A mapping table as an object: tables are immutable, so one identity has one content. */
  datatype TableRef = TableRef(id: nat, entries: Table)

  datatype Snapshot = Snapshot(src: TableRef, snap: Table)

  class Runtime {
    const vars: Vars
    var tables: map<NsId, TableRef>
    var public: set<nat>
    var snapshots: map<NsId, Snapshot>
    var nextId: nat

    ghost predicate Valid()
      reads this
    {
      && (forall ns <- tables :: tables[ns].id < nextId)
      && (forall ns <- snapshots :: snapshots[ns].src.id < nextId)
      && (forall ns <- snapshots | ns in tables :: snapshots[ns].src.id == tables[ns].id ==> snapshots[ns].src == tables[ns])
    }

    function Elig(from: NsId): Table
      requires from in tables
      reads this
    {
      EligibleOf(vars, from, public, tables[from].entries)
    }

    /** No status changed since the snapshot of the table `from` still has. */
    ghost predicate Fresh(from: NsId)
      requires from in tables
      reads this
    {
      from in snapshots && snapshots[from].src.id == tables[from].id ==> snapshots[from].snap == Elig(from)
    }

    constructor (vars: Vars)
      ensures Valid() && this.vars == vars && tables == map[] && snapshots == map[]
    {
      this.vars, tables, public, snapshots, nextId := vars, map[], {}, map[], 0;
    }

    /** Any change of a namespace's mappings is a new table. */
    method SetTable(ns: NsId, entries: Table)
      requires Valid()
      modifies this`tables, this`nextId
      ensures Valid() && ns in tables && tables[ns].entries == entries && tables == old(tables)[ns := tables[ns]]
      ensures ns !in old(tables) || tables[ns].id != old(tables)[ns].id
      ensures forall from | from in old(tables) && from != ns && old(Fresh(from)) :: Fresh(from)
    {
      tables, nextId := tables[ns := TableRef(nextId, entries)], nextId + 1;
    }

    /** Changing a var's status leaves every mapping table, and so every snapshot, as it is. */
    method SetPublic(v: nat, on: bool)
      requires Valid()
      modifies this`public
      ensures Valid() && public == if on then old(public) + {v} else old(public) - {v}
    {
      public := if on then public + {v} else public - {v};
    }

    method NewRefer(ns: NsId, n: Name, v: nat)
      requires Valid() && ns in tables
      modifies this`tables, this`nextId
      ensures Valid() && tables.Keys == old(tables).Keys && tables[ns].entries == Referred(vars, ns, old(tables)[ns].entries, n, v)
      ensures forall m | m in tables && m != ns :: tables[m] == old(tables)[m]
    {
      var t := tables[ns].entries;
      if n in t && (Interned(vars, ns, n, t[n]) || t[n] == Var(v)) { return; }
      SetTable(ns, t[n := Var(v)]);
    }

    /** The cached snapshot when the table is still the one it was taken from, else a new one. */
    method PublicReferMap(from: NsId) returns (snap: Table)
      requires Valid() && from in tables
      modifies this`snapshots
      ensures Valid() && old(Fresh(from)) ==> snap == Elig(from)
      ensures Valid() && (old(Fresh(from)) ==> Fresh(from))
      ensures forall n | n in tables && n != from && old(Fresh(n)) :: Fresh(n)
    {
      var cur := tables[from];
      if from in snapshots && snapshots[from].src.id == cur.id { return snapshots[from].snap; }
      snap := map[];
      var names := cur.entries.Keys;
      while names != {}
        invariant names <= cur.entries.Keys
        invariant snap == map n | n in cur.entries && n !in names && Eligible(vars, from, public, cur.entries[n]) :: cur.entries[n]
        decreases |names|
      {
        var n: Name :| n in names;
        names := names - {n};
        if Eligible(vars, from, public, cur.entries[n]) { snap := snap[n := cur.entries[n]]; }
      }
      snapshots := snapshots[from := Snapshot(cur, snap)];
    }

    /** One compare-and-set, or nothing.  `rival` is the table another thread gives the target after its mappings
        were read, if one does: the compare-and-set then fails and the rival's table stands. */
    method ReferBulk(ns: NsId, from: NsId, exclude: set<Name>, rival: Option<Table>) returns (ok: bool)
      requires Valid() && ns in tables && from in tables && ns != from
      modifies this`tables, this`nextId, this`snapshots
      ensures Valid() && tables.Keys == old(tables).Keys && forall m | m in tables && m != ns :: tables[m] == old(tables)[m]
      ensures public == old(public) && (old(Fresh(from)) ==> Fresh(from))
      ensures !ok && rival.None? ==> tables == old(tables)
      ensures rival.Some? ==> !ok && tables[ns].entries == rival.value
      ensures ok && old(Fresh(from)) ==>
                IsLoopResult(vars, ns, old(tables)[ns].entries, ChosenOf(old(Elig(from)), None, exclude), tables[ns].entries)
    {
      hide IsLoopResult, SnapshotServes, NoConflict, EligibleOf, ChosenOf;
      var cur := tables[ns];
      if rival.Some? { SetTable(ns, rival.value); }
      var m := PublicReferMap(from);
      var r := Overlay(vars, ns, cur.entries, ChosenOf(m, None, exclude));
      if r.None? { return false; }
      ok := tables[ns].id == cur.id;
      if ok {
        if old(Fresh(from)) {
          FreshServes(vars, ns, cur.entries, m, exclude);
          BulkIffServes(vars, ns, cur.entries, m, m, exclude);
        }
        SetTable(ns, r.value);
      }
    }

    /** refer: the bulk path when it can, else symbol by symbol, over what a rival made of the target meanwhile. */
    method ReferSelected(ns: NsId, from: NsId, only: Option<set<Name>>, exclude: set<Name>, rival: Option<Table>)
      requires Valid() && ns in tables && from in tables && Fresh(from)
      modifies this`tables, this`nextId, this`snapshots
      ensures Valid() && tables.Keys == old(tables).Keys && forall m | m in tables && m != ns :: tables[m] == old(tables)[m]
      ensures var base := if only.None? && ns != from && rival.Some? then rival.value else old(tables)[ns].entries;
              IsLoopResult(vars, ns, base, ChosenOf(old(Elig(from)), only, exclude), tables[ns].entries)
    {
      hide IsLoopResult, EligibleOf, ChosenOf;
      if only.None? && ns != from {
        var done := ReferBulk(ns, from, exclude, rival);
        if done { return; }
      }
      ReferLoop(ns, from, only, exclude);
    }

    method ReferLoop(ns: NsId, from: NsId, only: Option<set<Name>>, exclude: set<Name>)
      requires Valid() && ns in tables && from in tables
      modifies this`tables, this`nextId
      ensures Valid() && tables.Keys == old(tables).Keys && forall m | m in tables && m != ns :: tables[m] == old(tables)[m]
      ensures IsLoopResult(vars, ns, old(tables)[ns].entries, ChosenOf(old(Elig(from)), only, exclude), tables[ns].entries)
    {
      hide IsLoopResult, EligibleOf, ChosenOf, Referred, Rest;
      var src := tables[from].entries;
      ghost var t0 := tables[ns].entries;
      ghost var chosen := ChosenOf(Elig(from), only, exclude);
      var names := src.Keys;
      LoopStart(vars, ns, t0, chosen, names, src, from, public, only, exclude);
      while names != {}
        invariant Valid() && names <= src.Keys && tables.Keys == old(tables).Keys
        invariant forall m | m in tables && m != ns :: tables[m] == old(tables)[m]
        invariant IsLoopResult(vars, ns, t0, Rest(chosen, names), tables[ns].entries)
        decreases |names|
      {
        var n: Name :| n in names;
        ghost var r := tables[ns].entries;
        ChosenIs(vars, from, public, src, only, exclude, n);
        if Eligible(vars, from, public, src[n]) && Wanted(only, exclude, n) {
          NewRefer(ns, n, src[n].id);
          RestStep(chosen, names, n);
          LoopStep(vars, ns, t0, Rest(chosen, names), r, n, src[n].id);
        } else {
          RestStep(chosen, names, n);
        }
        names := names - {n};
      }
      RestAll(chosen);
    }
  }

  /** The part of a table whose names are no longer waiting. */
  function Rest(chosen: Table, names: set<Name>): Table {
    map n | n in chosen && n !in names :: chosen[n]
  }

  lemma RestStep(chosen: Table, names: set<Name>, n: Name)
    requires n in names
    ensures n !in Rest(chosen, names)
    ensures Rest(chosen, names - {n}) == if n in chosen then Rest(chosen, names)[n := chosen[n]] else Rest(chosen, names)
  {}

  lemma RestAll(chosen: Table)
    ensures Rest(chosen, {}) == chosen
  {}

  lemma ChosenIs(vars: Vars, from: NsId, public: set<nat>, src: Table, only: Option<set<Name>>, exclude: set<Name>, n: Name)
    requires n in src
    ensures var chosen := ChosenOf(EligibleOf(vars, from, public, src), only, exclude);
            && (n in chosen <==> Eligible(vars, from, public, src[n]) && Wanted(only, exclude, n))
            && (n in chosen ==> chosen[n] == src[n])
  {}

  lemma LoopStart(vars: Vars, ns: NsId, t: Table, chosen: Table, names: set<Name>, src: Table, from: NsId, public: set<nat>,
                  only: Option<set<Name>>, exclude: set<Name>)
    requires names == src.Keys && chosen == ChosenOf(EligibleOf(vars, from, public, src), only, exclude)
    ensures IsLoopResult(vars, ns, t, Rest(chosen, names), t)
  {
    assert Rest(chosen, names) == map[];
  }

  lemma LoopStep(vars: Vars, ns: NsId, t: Table, before: Table, r: Table, n: Name, v: nat)
    requires IsLoopResult(vars, ns, t, before, r) && n !in before
    ensures IsLoopResult(vars, ns, t, before[n := Var(v)], Referred(vars, ns, r, n, v))
  {
    var after, r1 := before[n := Var(v)], Referred(vars, ns, r, n, v);
    assert n in r <==> n in t;
    assert r1.Keys == t.Keys + after.Keys;
  }

  /** The entries of the target laid over the chosen ones, or None at the first conflict. */
  method Overlay(vars: Vars, ns: NsId, cur: Table, chosen: Table) returns (r: Option<Table>)
    ensures r.Some? <==> NoConflict(vars, ns, cur, chosen)
    ensures r.Some? ==> r.value == chosen + cur
  {
    var m := chosen;
    var names := cur.Keys;
    assert m == chosen + Rest(cur, names);
    while names != {}
      invariant names <= cur.Keys && m == chosen + Rest(cur, names)
      invariant forall n | n in cur && n !in names && n in chosen :: cur[n].Var? && (cur[n] == chosen[n] || Interned(vars, ns, n, cur[n]))
      decreases |names|
    {
      var n: Name :| n in names;
      RestStep(cur, names, n);
      if n in m {
        assert m[n] == chosen[n];
        if !cur[n].Var? || (cur[n] != m[n] && !Interned(vars, ns, n, cur[n])) { return None; }
      }
      m := m[n := cur[n]];
      names := names - {n};
    }
    RestAll(cur);
    r := Some(m);
  }
}
