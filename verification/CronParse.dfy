/** The five-field cron parser. */
module CronParse {
  import opened Text
  import opened Options

  datatype Error = FieldCount | BadStep | BadRange | BadValue | OutOfRange | EmptyField | NoFire

  datatype Result<T> = Ok(v: T) | Err(e: Error)

  // ----- one field -----

  /** Every step-th value from lo to hi. */
  datatype Item = Item(lo: int, hi: int, step: int)

  predicate Int64(v: int) {
    MIN_INT <= v <= MAX_INT
  }

  /** One part of a list: `*`, `a`, `a-b`, each with an optional `/step`. */
  function ParseItem(part: string, min: int, max: int): (r: Result<Item>)
    requires 0 <= min <= max <= 59
    ensures r.Ok? ==> Int64(r.v.lo) && Int64(r.v.hi) && 1 <= r.v.step <= MAX_INT
  {
    var slash := Index(part, '/');
    var rng := part[..slash];
    var step := if slash < |part| then Atoi(part[slash + 1..]) else Some(1);
    if step.None? || step.value < 1 then Err(BadStep)
    else if rng == "*" then Ok(Item(min, max, step.value))
    else
      var dash := Index(rng, '-');
      if dash < |rng| then
        var a, b := Atoi(rng[..dash]), Atoi(rng[dash + 1..]);
        if a.None? || b.None? then Err(BadRange) else Ok(Item(a.value, b.value, step.value))
      else
        var v := Atoi(rng);
        if v.None? then Err(BadValue) else Ok(Item(v.value, v.value, step.value))
  }

  /** Day 7 of the week is day 0. */
  function Fold(v: int, dow: bool): int {
    if dow && v == 7 then 0 else v
  }

  /** 64-bit addition of a positive step. */
  function Plus(v: int, step: int): int {
    if v + step > MAX_INT then v + step - 0x1_0000_0000_0000_0000 else v + step
  }

  /** The values from v on, added to those there are. */
  function Fill(f: set<int>, v: int, hi: int, step: int, min: int, max: int, dow: bool): Result<set<int>>
    requires 0 <= min <= max <= 59 && Int64(v) && Int64(hi) && 1 <= step <= MAX_INT
    decreases if v < 0 then 0 else 1, hi - v
  {
    if v > hi then Ok(f)
    else if !(min <= Fold(v, dow) <= max) then Err(OutOfRange)
    else Fill(f + {Fold(v, dow)}, Plus(v, step), hi, step, min, max, dow)
  }

  function FillParts(f: set<int>, parts: seq<string>, min: int, max: int, dow: bool): Result<set<int>>
    requires 0 <= min <= max <= 59
    decreases parts
  {
    if parts == [] then Ok(f)
    else match ParseItem(parts[0], min, max)
      case Err(e) => Err(e)
      case Ok(it) =>
        match Fill(f, it.lo, it.hi, it.step, min, max, dow)
        case Err(e) => Err(e)
        case Ok(g) => FillParts(g, parts[1..], min, max, dow)
  }

  function FieldOf(spec: string, min: int, max: int, dow: bool): Result<set<int>>
    requires 0 <= min <= max <= 59
  {
    match FillParts({}, Split(spec, ','), min, max, dow)
    case Err(e) => Err(e)
    case Ok(f) => if f == {} then Err(EmptyField) else Ok(f)
  }

  /** The parser as it runs: two loops adding to one set. */
  method ParseField(spec: string, min: int, max: int, dow: bool) returns (r: Result<set<int>>)
    requires 0 <= min <= max <= 59
    ensures r == FieldOf(spec, min, max, dow)
  {
    var f: set<int> := {};
    var parts := Split(spec, ',');
    var i := 0;
    assert parts[0..] == parts;
    while i < |parts|
      invariant i <= |parts|
      invariant FillParts({}, parts, min, max, dow) == FillParts(f, parts[i..], min, max, dow)
    {
      assert parts[i..][1..] == parts[i + 1..];
      var item := ParseItem(parts[i], min, max);
      if item.Err? { return Err(item.e); }
      var v, hi, step := item.v.lo, item.v.hi, item.v.step;
      ghost var start := f;
      while v <= hi
        invariant Int64(v) && Int64(hi) && 1 <= step <= MAX_INT
        invariant Fill(start, item.v.lo, hi, step, min, max, dow) == Fill(f, v, hi, step, min, max, dow)
        decreases if v < 0 then 0 else 1, hi - v
      {
        var nv := Fold(v, dow);
        if nv < min || nv > max { return Err(OutOfRange); }
        f := f + {nv};
        v := Plus(v, step);
      }
      i := i + 1;
    }
    r := if f == {} then Err(EmptyField) else Ok(f);
  }

  // ----- what a field means -----

  /** u is one of the values from v to hi in steps. */
  ghost predicate Reaches(v: int, hi: int, step: int, u: int) {
    u <= hi && exists k: nat :: u == v + k * step
  }

  /** The value is in range, and the one after it is still a 64-bit number. */
  predicate Allowed(u: int, step: int, min: int, max: int, dow: bool) {
    min <= Fold(u, dow) <= max && u + step <= MAX_INT
  }

  /** Every value is. */
  ghost predicate Sound(v: int, hi: int, step: int, min: int, max: int, dow: bool) {
    forall u | Reaches(v, hi, step, u) :: Allowed(u, step, min, max, dow)
  }

  lemma ReachesStep(v: int, hi: int, step: int, u: int)
    requires step >= 1
    ensures Reaches(v, hi, step, u) <==> (v <= hi && u == v) || Reaches(v + step, hi, step, u)
  {
    if Reaches(v, hi, step, u) {
      var k: nat :| u == v + k * step;
      if k > 0 {
        assert u == v + step + (k - 1) * step;
      }
    }
    if u == v && v <= hi { assert u == v + 0 * step; }
    if Reaches(v + step, hi, step, u) {
      var k: nat :| u == v + step + k * step;
      assert u == v + (k + 1) * step;
    }
  }

  lemma ReachesFrom(v: int, hi: int, step: int, u: int)
    requires step >= 1 && Reaches(v, hi, step, u)
    ensures v <= u <= hi
  {
    var k: nat :| u == v + k * step;
    assert k * step >= 0;
  }

  lemma NothingReached(v: int, hi: int, step: int)
    requires step >= 1 && v > hi
    ensures forall u :: !Reaches(v, hi, step, u)
  {
    forall u ensures !Reaches(v, hi, step, u) {
      if Reaches(v, hi, step, u) { ReachesFrom(v, hi, step, u); }
    }
  }

  lemma FirstReached(v: int, hi: int, step: int)
    requires step >= 1 && v <= hi
    ensures forall u :: Reaches(v, hi, step, u) <==> u == v || Reaches(v + step, hi, step, u)
    ensures Reaches(v, hi, step, v)
  {
    forall u ensures Reaches(v, hi, step, u) <==> u == v || Reaches(v + step, hi, step, u) {
      ReachesStep(v, hi, step, u);
    }
  }

  lemma SoundStep(v: int, hi: int, step: int, min: int, max: int, dow: bool)
    requires step >= 1 && v <= hi
    ensures Sound(v, hi, step, min, max, dow) <==>
            Allowed(v, step, min, max, dow) && Sound(v + step, hi, step, min, max, dow)
  {
    hide Reaches, Allowed;
    FirstReached(v, hi, step);
  }

  lemma {:induction false} FillIs(f: set<int>, v: int, hi: int, step: int, min: int, max: int, dow: bool)
    requires 0 <= min <= max <= 59 && Int64(v) && Int64(hi) && 1 <= step <= MAX_INT
    ensures var r := Fill(f, v, hi, step, min, max, dow);
            && (r.Ok? <==> Sound(v, hi, step, min, max, dow))
            && (r.Ok? ==> forall x :: x in r.v <==> x in f || exists u :: Reaches(v, hi, step, u) && Fold(u, dow) == x)
    decreases if v < 0 then 0 else 1, hi - v
  {
    assert min <= Fold(v, dow) ==> v >= 0;
    hide Reaches, Fold;
    if v > hi {
      NothingReached(v, hi, step);
    } else {
      SoundStep(v, hi, step, min, max, dow);
      if min <= Fold(v, dow) <= max {
        var w := Plus(v, step);
        FillIs(f + {Fold(v, dow)}, w, hi, step, min, max, dow);
        if v + step > MAX_INT {
          LowIsUnsound(w, hi, step, min, max, dow);
        } else {
          hide Sound, Plus;
          FirstReached(v, hi, step);
        }
      }
    }
  }

  /** A counter that wrapped is out of range. */
  lemma LowIsUnsound(w: int, hi: int, step: int, min: int, max: int, dow: bool)
    requires step >= 1 && w < 0 <= min && w <= hi
    ensures !Sound(w, hi, step, min, max, dow)
  {
    hide Reaches;
    FirstReached(w, hi, step);
  }

  /** x comes from one of the parts. */
  ghost predicate FromPart(parts: seq<string>, min: int, max: int, dow: bool, x: int)
    requires 0 <= min <= max <= 59
  {
    exists part, u ::
      && part in parts && ParseItem(part, min, max).Ok?
      && Reaches(ParseItem(part, min, max).v.lo, ParseItem(part, min, max).v.hi, ParseItem(part, min, max).v.step, u)
      && Fold(u, dow) == x
  }

  ghost predicate GivesSome(parts: seq<string>, min: int, max: int, dow: bool)
    requires 0 <= min <= max <= 59
  {
    exists x :: FromPart(parts, min, max, dow, x)
  }

  ghost predicate PartOk(part: string, min: int, max: int, dow: bool)
    requires 0 <= min <= max <= 59
  {
    var it := ParseItem(part, min, max);
    it.Ok? && Sound(it.v.lo, it.v.hi, it.v.step, min, max, dow)
  }

  lemma {:induction false} FillPartsIs(f: set<int>, parts: seq<string>, min: int, max: int, dow: bool)
    requires 0 <= min <= max <= 59
    ensures var r := FillParts(f, parts, min, max, dow);
            && (r.Ok? <==> forall p <- parts :: PartOk(p, min, max, dow))
            && (r.Ok? ==> forall x :: x in r.v <==> x in f || FromPart(parts, min, max, dow, x))
    decreases parts
  {
    if parts != [] {
      var p, rest := parts[0], parts[1..];
      assert forall q :: q in parts <==> q == p || q in rest;
      var it := ParseItem(p, min, max);
      if it.Ok? {
        FillIs(f, it.v.lo, it.v.hi, it.v.step, min, max, dow);
        var g := Fill(f, it.v.lo, it.v.hi, it.v.step, min, max, dow);
        if g.Ok? {
          hide Fill, ParseItem, Reaches, Sound, Fold;
          FillPartsIs(g.v, rest, min, max, dow);
        } else {
          assert !PartOk(p, min, max, dow);
        }
      } else {
        assert !PartOk(p, min, max, dow);
      }
    }
  }

  /** A field parses exactly when every part does, stays in range (7 folded to 0 for the day of the week)
      and does not run past 64 bits, and some part gives a value; it then holds the parts' values and no
      others. */
  lemma FieldIsUnion(spec: string, min: int, max: int, dow: bool)
    requires 0 <= min <= max <= 59
    ensures var r, parts := FieldOf(spec, min, max, dow), Split(spec, ',');
            && (r.Ok? <==> (forall p <- parts :: PartOk(p, min, max, dow)) && GivesSome(parts, min, max, dow))
            && (r.Ok? ==> r.v != {} && forall x :: x in r.v <==> FromPart(parts, min, max, dow, x))
            && (r.Ok? ==> forall x <- r.v :: min <= x <= max)
  {
    hide FillParts, Split, PartOk, FromPart;
    var r, parts := FieldOf(spec, min, max, dow), Split(spec, ',');
    FillPartsIs({}, parts, min, max, dow);
    var g := FillParts({}, parts, min, max, dow);
    if g.Ok? {
      if g.v != {} {
        var x := AnyOf(g.v);
        assert FromPart(parts, min, max, dow, x);
      }
      if x :| FromPart(parts, min, max, dow, x) { assert x in g.v; }
      forall x <- g.v ensures min <= x <= max { FromPartInRange(parts, min, max, dow, x); }
      assert (forall p <- parts :: PartOk(p, min, max, dow)) && (r.Ok? <==> g.v != {});
      assert g.v != {} <==> GivesSome(parts, min, max, dow);
    } else {
      assert !(forall p <- parts :: PartOk(p, min, max, dow)) && r.Err?;
    }
  }

  lemma AnyOf<T>(s: set<T>) returns (x: T)
    requires s != {}
    ensures x in s
  {
    x :| x in s;
  }

  lemma FromPartInRange(parts: seq<string>, min: int, max: int, dow: bool, x: int)
    requires 0 <= min <= max <= 59 && FromPart(parts, min, max, dow, x)
    requires forall p <- parts :: PartOk(p, min, max, dow)
    ensures min <= x <= max
  {
    hide ParseItem, Reaches;
    var part, u :| part in parts && ParseItem(part, min, max).Ok?
      && Reaches(ParseItem(part, min, max).v.lo, ParseItem(part, min, max).v.hi, ParseItem(part, min, max).v.step, u)
      && Fold(u, dow) == x;
    assert PartOk(part, min, max, dow);
  }

  lemma FieldInRange(spec: string, min: int, max: int, dow: bool)
    requires 0 <= min <= max <= 59
    ensures var r := FieldOf(spec, min, max, dow); r.Ok? ==> r.v != {} && forall x <- r.v :: min <= x <= max
  {
    hide FieldOf;
    FieldIsUnion(spec, min, max, dow);
  }

  lemma StarIsFull(min: int, max: int, dow: bool)
    requires 0 <= min <= max <= 59 && (dow ==> max < 7)
    ensures FieldOf("*", min, max, dow).Ok? && forall x :: x in FieldOf("*", min, max, dow).v <==> min <= x <= max
  {
    var parts := Split("*", ',');
    assert parts == ["*"] by { assert Index("*", ',') == 1; }
    assert Index("*", '/') == 1 && "*"[..1] == "*";
    assert ParseItem("*", min, max) == Ok(Item(min, max, 1));
    assert forall u {:trigger Reaches(min, max, 1, u)} :: Reaches(min, max, 1, u) <==> min <= u <= max by {
      forall u ensures Reaches(min, max, 1, u) <==> min <= u <= max {
        if min <= u <= max { assert u == min + (u - min) * 1; }
        if Reaches(min, max, 1, u) { ReachesFrom(min, max, 1, u); }
      }
    }
    FillPartsIs({}, parts, min, max, dow);
    assert PartOk("*", min, max, dow);
    var g := FillParts({}, parts, min, max, dow);
    forall x ensures x in g.v <==> min <= x <= max {
      if min <= x <= max { assert Reaches(min, max, 1, x) && Fold(x, dow) == x; assert FromPart(parts, min, max, dow, x); }
    }
    assert min in g.v;
  }

  // ----- the expression -----

  datatype Spec = Spec(minute: set<int>, hour: set<int>, dom: set<int>, month: set<int>, dow: set<int>, domStar: bool, dowStar: bool)

  function SpecOf(expr: string): Result<Spec> {
    var parts := Fields(expr);
    if |parts| != 5 then Err(FieldCount)
    else match FieldOf(parts[0], 0, 59, false)
      case Err(e) => Err(e)
      case Ok(minute) =>
        match FieldOf(parts[1], 0, 23, false)
        case Err(e) => Err(e)
        case Ok(hour) =>
          match FieldOf(parts[2], 1, 31, false)
          case Err(e) => Err(e)
          case Ok(dom) =>
            match FieldOf(parts[3], 1, 12, false)
            case Err(e) => Err(e)
            case Ok(month) =>
              match FieldOf(parts[4], 0, 6, true)
              case Err(e) => Err(e)
              case Ok(dow) => Ok(Spec(minute, hour, dom, month, dow, parts[2] == "*", parts[4] == "*"))
  }

  method ParseCron(expr: string) returns (r: Result<Spec>)
    ensures r == SpecOf(expr)
  {
    var parts := Fields(expr);
    if |parts| != 5 { return Err(FieldCount); }
    var minute := ParseField(parts[0], 0, 59, false);
    if minute.Err? { return Err(minute.e); }
    var hour := ParseField(parts[1], 0, 23, false);
    if hour.Err? { return Err(hour.e); }
    var dom := ParseField(parts[2], 1, 31, false);
    if dom.Err? { return Err(dom.e); }
    var month := ParseField(parts[3], 1, 12, false);
    if month.Err? { return Err(month.e); }
    var dow := ParseField(parts[4], 0, 6, true);
    if dow.Err? { return Err(dow.e); }
    r := Ok(Spec(minute.v, hour.v, dom.v, month.v, dow.v, parts[2] == "*", parts[4] == "*"));
  }

  /** What every parsed expression is. */
  predicate WellFormed(c: Spec) {
    && c.minute != {} && (forall x <- c.minute :: 0 <= x <= 59)
    && c.hour != {} && (forall x <- c.hour :: 0 <= x <= 23)
    && c.dom != {} && (forall x <- c.dom :: 1 <= x <= 31)
    && c.month != {} && (forall x <- c.month :: 1 <= x <= 12)
    && c.dow != {} && (forall x <- c.dow :: 0 <= x <= 6)
    && (c.domStar ==> forall x | 1 <= x <= 31 :: x in c.dom)
    && (c.dowStar ==> forall x | 0 <= x <= 6 :: x in c.dow)
  }

  lemma SpecIsWellFormed(expr: string)
    ensures SpecOf(expr).Ok? ==> WellFormed(SpecOf(expr).v)
  {
    hide FieldOf, Fields;
    if SpecOf(expr).Ok? {
      var parts := Fields(expr);
      FieldInRange(parts[0], 0, 59, false);
      FieldInRange(parts[1], 0, 23, false);
      FieldInRange(parts[2], 1, 31, false);
      FieldInRange(parts[3], 1, 12, false);
      FieldInRange(parts[4], 0, 6, true);
      StarIsFull(1, 31, false);
      StarIsFull(0, 6, true);
    }
  }
}
