/** What a cron expression says, read off its words, and when it is due. */
module CronText {
  import opened Text
  import opened CronParse
  import CronSearch
  import Calendar
  import opened Options

  // ----- numbers -----

  /** Decimal figures, with at most one sign, of a 64-bit number. */
  predicate Denotes(s: string, v: int) {
    var figures := if s != "" && s[0] in {'+', '-'} then s[1..] else s;
    && figures != "" && AllDigits(figures) && -0x8000_0000_0000_0000 <= v <= 0x7fff_ffff_ffff_ffff
    && (if s[0] == '-' then v + Value(figures) == 0 else v == Value(figures))
  }

  lemma AtoiIff(s: string, v: int)
    ensures Atoi(s) == Some(v) <==> Denotes(s, v)
  {}

  lemma {:induction false} FiguresCount(s: string)
    requires s != "" && AllDigits(s)
    ensures AllDigits(s[..|s| - 1]) && s[|s| - 1] in "0123456789"
    ensures exists d | 0 <= d < 10 :: "0123456789"[d] == s[|s| - 1] && Value(s) == 10 * Value(s[..|s| - 1]) + d
  {
    var c := s[|s| - 1];
    assert IsDigit(c);
    var d := c as int - '0' as int;
    assert 0 <= d < 10 && "0123456789"[d] == c;
  }

  // ----- one part of a field -----

  /** `rng` or `rng/step`. */
  ghost predicate Stepped(part: string, rng: string, step: int) {
    '/' !in rng && ((part == rng && step == 1) || exists st :: part == rng + "/" + st && Denotes(st, step) && step >= 1)
  }

  /** `*`, `a` or `a-b`. */
  ghost predicate RangeSays(rng: string, min: int, max: int, lo: int, hi: int) {
    || (rng == "*" && lo == min && hi == max)
    || ('-' !in rng && Denotes(rng, lo) && hi == lo)
    || exists a, b :: '-' !in a && rng == a + "-" + b && Denotes(a, lo) && Denotes(b, hi)
  }

  ghost predicate PartSays(part: string, min: int, max: int, lo: int, hi: int, step: int) {
    exists rng :: Stepped(part, rng, step) && RangeSays(rng, min, max, lo, hi)
  }

  lemma Absent(s: string, c: char)
    ensures Index(s, c) == |s| <==> c !in s
  {
    if Index(s, c) == |s| { assert s[..|s|] == s; }
  }

  lemma Cut(a: string, c: char, b: string)
    requires c !in a
    ensures var s := a + [c] + b;
            Index(s, c) == |a| && s[..|a|] == a && s[|a| + 1..] == b
  {
    var s := a + [c] + b;
    assert s[..|a|] == a;
    IndexIs(s, c, |a|);
  }

  /** The text before the step and the step. */
  function StepOf(part: string): (string, Option<int>) {
    var slash := Index(part, '/');
    (part[..slash], if slash < |part| then Atoi(part[slash + 1..]) else Some(1))
  }

  lemma SteppedIff(part: string, rng: string, step: int)
    ensures Stepped(part, rng, step) <==> StepOf(part) == (rng, Some(step)) && step >= 1
  {
    hide Denotes, Atoi;
    var slash := Index(part, '/');
    if StepOf(part) == (rng, Some(step)) && step >= 1 {
      if slash < |part| {
        AtoiIff(part[slash + 1..], step);
        assert part == rng + "/" + part[slash + 1..];
      }
    }
    if Stepped(part, rng, step) {
      if part == rng && step == 1 {
        Absent(part, '/');
        assert part[..|part|] == part;
      } else {
        var st :| part == rng + "/" + st && Denotes(st, step);
        Cut(rng, '/', st);
        AtoiIff(st, step);
      }
    }
  }

  function RangeOf(rng: string, min: int, max: int): Option<(int, int)> {
    if rng == "*" then Some((min, max))
    else
      var dash := Index(rng, '-');
      if dash < |rng| then
        var a, b := Atoi(rng[..dash]), Atoi(rng[dash + 1..]);
        if a.None? || b.None? then None else Some((a.value, b.value))
      else
        var v := Atoi(rng);
        if v.None? then None else Some((v.value, v.value))
  }

  lemma StarIsNoNumber(v: int)
    ensures !Denotes("*", v)
  {
    assert !IsDigit("*"[0]);
  }

  lemma RangeIff(rng: string, min: int, max: int, lo: int, hi: int)
    ensures RangeSays(rng, min, max, lo, hi) <==> RangeOf(rng, min, max) == Some((lo, hi))
  {
    hide Denotes, Atoi;
    StarIsNoNumber(lo);
    Absent(rng, '-');
    AtoiIff(rng, lo);
    var dash := Index(rng, '-');
    if RangeOf(rng, min, max) == Some((lo, hi)) && rng != "*" && dash < |rng| {
      AtoiIff(rng[..dash], lo);
      AtoiIff(rng[dash + 1..], hi);
      assert rng == rng[..dash] + "-" + rng[dash + 1..];
    }
    if a, b :| '-' !in a && rng == a + "-" + b && Denotes(a, lo) && Denotes(b, hi) {
      Cut(a, '-', b);
      AtoiIff(a, lo);
      AtoiIff(b, hi);
      assert rng[|a|] == '-';
    }
  }

  lemma ItemIs(part: string, min: int, max: int)
    requires 0 <= min <= max <= 59
    ensures var (rng, step) := StepOf(part);
            var range := RangeOf(rng, min, max);
            (ParseItem(part, min, max).Ok? <==> step.Some? && step.value >= 1 && range.Some?)
            && (ParseItem(part, min, max).Ok? ==>
                  ParseItem(part, min, max).v == Item(range.value.0, range.value.1, step.value))
  {}

  /** A part is read as the numbers it is written with, and refused when it is written otherwise. */
  lemma ItemIff(part: string, min: int, max: int, lo: int, hi: int, step: int)
    requires 0 <= min <= max <= 59
    ensures ParseItem(part, min, max) == Ok(Item(lo, hi, step)) <==> PartSays(part, min, max, lo, hi, step)
  {
    hide ParseItem, Stepped, RangeSays, RangeOf, StepOf;
    ItemIs(part, min, max);
    var rng := StepOf(part).0;
    SteppedIff(part, rng, step);
    RangeIff(rng, min, max, lo, hi);
    if r :| Stepped(part, r, step) && RangeSays(r, min, max, lo, hi) {
      SteppedIff(part, r, step);
    }
  }

  // ----- a field -----

  /** u is lo, lo + step, and so on up to hi. */
  predicate OnSteps(lo: int, hi: int, step: int, u: int)
    requires step >= 1
  {
    lo <= u <= hi && (u - lo) % step == 0
  }

  lemma ReachesIff(lo: int, hi: int, step: int, u: int)
    requires step >= 1
    ensures Reaches(lo, hi, step, u) <==> OnSteps(lo, hi, step, u)
  {
    if Reaches(lo, hi, step, u) {
      var k: nat :| u == lo + k * step;
      ReachesFrom(lo, hi, step, u);
      Multiple(k, step);
    }
    if OnSteps(lo, hi, step, u) {
      var k: nat := (u - lo) / step;
      assert u == lo + k * step;
    }
  }

  lemma Multiple(k: nat, step: int)
    requires step >= 1
    ensures k * step % step == 0
  {
    var a := k * step;
    assert a == step * (a / step) + a % step;
    var d := k - a / step;
    assert step * d == a % step;
    AtLeast(step, d);
  }

  lemma AtLeast(step: int, d: int)
    requires step >= 1
    ensures d >= 1 ==> step * d >= step
    ensures d <= -1 ==> step * d <= -step
  {}

  /** The part lists the value, Sunday being 7 as well as 0 where the days of the week are meant. */
  ghost predicate Lists(part: string, min: int, max: int, dow: bool, x: int) {
    exists lo, hi, step, u ::
      && step >= 1 && PartSays(part, min, max, lo, hi, step) && OnSteps(lo, hi, step, u)
      && x == if dow && u == 7 then 0 else u
  }

  /** Some part between the commas lists the value. */
  ghost predicate FieldSays(word: string, min: int, max: int, dow: bool, x: int) {
    exists part <- Split(word, ',') :: Lists(part, min, max, dow, x)
  }

  /** A part that is well written, lists nothing outside the range, and stays clear of the largest number. */
  ghost predicate PartStands(part: string, min: int, max: int, dow: bool) {
    exists lo, hi, step ::
      && step >= 1 && PartSays(part, min, max, lo, hi, step)
      && forall u | OnSteps(lo, hi, step, u) ::
           min <= (if dow && u == 7 then 0 else u) <= max && u + step <= 0x7fff_ffff_ffff_ffff
  }

  ghost predicate FieldStands(word: string, min: int, max: int, dow: bool) {
    && (forall part <- Split(word, ',') :: PartStands(part, min, max, dow))
    && exists x :: FieldSays(word, min, max, dow, x)
  }

  lemma ListsIff(part: string, min: int, max: int, dow: bool, x: int)
    requires 0 <= min <= max <= 59
    ensures Lists(part, min, max, dow, x) <==> FromPart([part], min, max, dow, x)
  {
    hide ParseItem, PartSays, Reaches, OnSteps;
    if Lists(part, min, max, dow, x) {
      var lo, hi, step, u :| step >= 1 && PartSays(part, min, max, lo, hi, step) && OnSteps(lo, hi, step, u)
                             && x == if dow && u == 7 then 0 else u;
      ItemIff(part, min, max, lo, hi, step);
      ReachesIff(lo, hi, step, u);
      assert part in [part] && Fold(u, dow) == x;
    }
    if FromPart([part], min, max, dow, x) {
      var q, u :| q in [part] && ParseItem(q, min, max).Ok?
        && Reaches(ParseItem(q, min, max).v.lo, ParseItem(q, min, max).v.hi, ParseItem(q, min, max).v.step, u)
        && Fold(u, dow) == x;
      var it := ParseItem(part, min, max).v;
      ItemIff(part, min, max, it.lo, it.hi, it.step);
      ReachesIff(it.lo, it.hi, it.step, u);
    }
  }

  lemma FromOnePart(parts: seq<string>, min: int, max: int, dow: bool, x: int)
    requires 0 <= min <= max <= 59
    ensures FromPart(parts, min, max, dow, x) <==> exists part <- parts :: FromPart([part], min, max, dow, x)
  {
    hide ParseItem, Reaches, Fold;
    if FromPart(parts, min, max, dow, x) {
      var part, u :| part in parts && ParseItem(part, min, max).Ok?
        && Reaches(ParseItem(part, min, max).v.lo, ParseItem(part, min, max).v.hi, ParseItem(part, min, max).v.step, u)
        && Fold(u, dow) == x;
      assert part in [part];
      assert FromPart([part], min, max, dow, x);
    }
    if part :| part in parts && FromPart([part], min, max, dow, x) {
      var q, u :| q in [part] && ParseItem(q, min, max).Ok?
        && Reaches(ParseItem(q, min, max).v.lo, ParseItem(q, min, max).v.hi, ParseItem(q, min, max).v.step, u)
        && Fold(u, dow) == x;
      assert q == part;
    }
  }

  lemma StandsIff(part: string, min: int, max: int, dow: bool)
    requires 0 <= min <= max <= 59
    ensures PartStands(part, min, max, dow) <==> PartOk(part, min, max, dow)
  {
    hide ParseItem, PartSays, Reaches, OnSteps;
    if PartStands(part, min, max, dow) {
      var lo, hi, step :| step >= 1 && PartSays(part, min, max, lo, hi, step)
        && forall u | OnSteps(lo, hi, step, u) ::
             min <= (if dow && u == 7 then 0 else u) <= max && u + step <= 0x7fff_ffff_ffff_ffff;
      ItemIff(part, min, max, lo, hi, step);
      forall u | Reaches(lo, hi, step, u) ensures min <= Fold(u, dow) <= max && u + step <= MAX_INT {
        ReachesIff(lo, hi, step, u);
      }
    }
    if PartOk(part, min, max, dow) {
      var it := ParseItem(part, min, max).v;
      ItemIff(part, min, max, it.lo, it.hi, it.step);
      forall u | OnSteps(it.lo, it.hi, it.step, u)
        ensures min <= (if dow && u == 7 then 0 else u) <= max && u + it.step <= 0x7fff_ffff_ffff_ffff
      {
        ReachesIff(it.lo, it.hi, it.step, u);
      }
    }
  }

  /** A field is accepted when its parts stand, and holds what they list. */
  lemma FieldIff(word: string, min: int, max: int, dow: bool)
    requires 0 <= min <= max <= 59
    ensures FieldOf(word, min, max, dow).Ok? <==> FieldStands(word, min, max, dow)
    ensures FieldOf(word, min, max, dow).Ok? ==>
              forall x :: x in FieldOf(word, min, max, dow).v <==> FieldSays(word, min, max, dow, x)
  {
    hide FieldOf, Split, PartOk, PartStands, Lists, FromPart;
    var parts := Split(word, ',');
    FieldIsUnion(word, min, max, dow);
    forall part | part in parts ensures PartStands(part, min, max, dow) <==> PartOk(part, min, max, dow) {
      StandsIff(part, min, max, dow);
    }
    forall x ensures FromPart(parts, min, max, dow, x) <==> FieldSays(word, min, max, dow, x) {
      FromOnePart(parts, min, max, dow, x);
      forall part | part in parts ensures Lists(part, min, max, dow, x) <==> FromPart([part], min, max, dow, x) {
        ListsIff(part, min, max, dow, x);
      }
    }
  }

  // ----- the words -----

  predicate Blank(s: string) {
    forall c <- s :: IsSpace(c)
  }

  /** Words with white space between them, and perhaps before and after. */
  ghost predicate Spaced(s: string, words: seq<string>)
    decreases |words|
  {
    if words == [] then Blank(s)
    else exists i: nat, j: nat :: WordAt(s, i, j, words[0]) && Spaced(s[j..], words[1..])
  }

  predicate WordAt(s: string, i: nat, j: nat, word: string) {
    && i < j <= |s| && Blank(s[..i]) && s[i..j] == word && (forall c <- word :: !IsSpace(c))
    && (j < |s| ==> IsSpace(s[j]))
  }

  lemma {:induction false} WordLengthIs(s: string, n: nat)
    requires n <= |s| && (forall c <- s[..n] :: !IsSpace(c)) && (n < |s| ==> IsSpace(s[n]))
    ensures WordLength(s) == n
  {
    hide IsSpace;
    if n > 0 {
      assert s[..n][0] == s[0] && s[..n][1..] == s[1..][..n - 1];
      WordLengthIs(s[1..], n - 1);
    }
  }

  lemma {:induction false} BlankFields(s: string, i: nat)
    requires i <= |s| && Blank(s[..i])
    ensures Fields(s) == Fields(s[i..])
  {
    hide IsSpace;
    if i > 0 {
      assert s[..i][0] == s[0] && s[..i][1..] == s[1..][..i - 1];
      BlankFields(s[1..], i - 1);
      assert s[1..][i - 1..] == s[i..];
    } else {
      assert s[0..] == s;
    }
  }

  lemma FirstWord(s: string, i: nat, j: nat, word: string)
    requires WordAt(s, i, j, word)
    ensures Fields(s) == [word] + Fields(s[j..])
  {
    hide IsSpace;
    BlankFields(s, i);
    var t := s[i..];
    assert t[..j - i] == word && t[j - i..] == s[j..] && word[0] == s[i];
    WordLengthIs(t, j - i);
  }

  /** The words of a text are what stands between its white space. */
  lemma {:induction false} WordsAre(s: string, words: seq<string>)
    requires Spaced(s, words)
    ensures Fields(s) == words
    decreases |words|
  {
    hide IsSpace;
    if words == [] {
      assert s[..|s|] == s && s[|s|..] == "";
      BlankFields(s, |s|);
    } else {
      var i: nat, j: nat :| WordAt(s, i, j, words[0]) && Spaced(s[j..], words[1..]);
      FirstWord(s, i, j, words[0]);
      WordsAre(s[j..], words[1..]);
    }
  }

  // ----- the expression -----

  /** The day rule on the words: with both day fields other than `*` either may name the day, else both must. */
  ghost predicate DayDue(ws: seq<string>, date: Calendar.Date, weekday: int)
    requires |ws| == 5
  {
    var dom, dow := FieldSays(ws[2], 1, 31, false, date.day), FieldSays(ws[4], 0, 6, true, weekday);
    FieldSays(ws[3], 1, 12, false, date.month) && if ws[2] != "*" && ws[4] != "*" then dom || dow else dom && dow
  }

  /** The local minute shows what the five words say: minute, hour, day of the month, month, day of the week. */
  ghost predicate Due(ws: seq<string>, local: int)
    requires |ws| == 5
  {
    && FieldSays(ws[0], 0, 59, false, local % 60)
    && FieldSays(ws[1], 0, 23, false, local / 60 % 24)
    && DayDue(ws, Calendar.Civil(719_528 + local / 1440), (local / 1440 + 4) % 7)
  }

  ghost predicate AllStand(ws: seq<string>) {
    && |ws| == 5 && FieldStands(ws[0], 0, 59, false) && FieldStands(ws[1], 0, 23, false)
    && FieldStands(ws[2], 1, 31, false) && FieldStands(ws[3], 1, 12, false) && FieldStands(ws[4], 0, 6, true)
  }

  /** The five fields are those of the five words. */
  predicate Holds(c: Spec, ws: seq<string>) {
    && |ws| == 5
    && FieldOf(ws[0], 0, 59, false) == Ok(c.minute)
    && FieldOf(ws[1], 0, 23, false) == Ok(c.hour)
    && FieldOf(ws[2], 1, 31, false) == Ok(c.dom)
    && FieldOf(ws[3], 1, 12, false) == Ok(c.month)
    && FieldOf(ws[4], 0, 6, true) == Ok(c.dow)
    && (c.domStar <==> ws[2] == "*") && (c.dowStar <==> ws[4] == "*")
  }

  lemma HeldFields(c: Spec, ws: seq<string>)
    requires Holds(c, ws)
    ensures forall x :: x in c.minute <==> FieldSays(ws[0], 0, 59, false, x)
    ensures forall x :: x in c.hour <==> FieldSays(ws[1], 0, 23, false, x)
    ensures forall x :: x in c.dom <==> FieldSays(ws[2], 1, 31, false, x)
    ensures forall x :: x in c.month <==> FieldSays(ws[3], 1, 12, false, x)
    ensures forall x :: x in c.dow <==> FieldSays(ws[4], 0, 6, true, x)
  {
    hide FieldOf, FieldSays, FieldStands;
    FieldIff(ws[0], 0, 59, false);
    FieldIff(ws[1], 0, 23, false);
    FieldIff(ws[2], 1, 31, false);
    FieldIff(ws[3], 1, 12, false);
    FieldIff(ws[4], 0, 6, true);
  }

  lemma FiresReads(c: Spec, ws: seq<string>, offset: int, k: int)
    requires Holds(c, ws)
    ensures CronSearch.Fires(c, offset, k) <==> Due(ws, (60 * k + offset) / 60)
  {
    hide *;
    HeldFields(c, ws);
    StarsHeld(c, ws);
    var local := (60 * k + offset) / 60;
    FiresIs(c, offset, k, local);
    DueIs(ws, local);
  }

  lemma FiresIs(c: Spec, offset: int, k: int, local: int)
    requires local == (60 * k + offset) / 60
    ensures CronSearch.Fires(c, offset, k) <==>
            var date, weekday := Calendar.Civil(719_528 + local / 1440), (local / 1440 + 4) % 7;
            && local % 60 in c.minute && local / 60 % 24 in c.hour && date.month in c.month
            && if !c.domStar && !c.dowStar then date.day in c.dom || weekday in c.dow else date.day in c.dom && weekday in c.dow
  {
    hide Calendar.Civil;
    WeekdayIs(local);
  }

  lemma WeekdayIs(local: int)
    ensures Calendar.Weekday(CronSearch.DayOf(local)) == (local / 1440 + 4) % 7
  {}

  lemma DueIs(ws: seq<string>, local: int)
    requires |ws| == 5
    ensures Due(ws, local) <==>
            var date, weekday := Calendar.Civil(719_528 + local / 1440), (local / 1440 + 4) % 7;
            var dom, dow := FieldSays(ws[2], 1, 31, false, date.day), FieldSays(ws[4], 0, 6, true, weekday);
            && FieldSays(ws[0], 0, 59, false, local % 60) && FieldSays(ws[1], 0, 23, false, local / 60 % 24)
            && FieldSays(ws[3], 1, 12, false, date.month)
            && if ws[2] != "*" && ws[4] != "*" then dom || dow else dom && dow
  {
    hide FieldSays, Calendar.Civil;
  }

  lemma StarsHeld(c: Spec, ws: seq<string>)
    requires Holds(c, ws)
    ensures |ws| == 5 && (c.domStar <==> ws[2] == "*") && (c.dowStar <==> ws[4] == "*")
  {}

  /** Which word goes where. */
  lemma SpecReads(expr: string)
    ensures var ws := Fields(expr);
            SpecOf(expr).Ok? <==>
            && |ws| == 5 && FieldOf(ws[0], 0, 59, false).Ok? && FieldOf(ws[1], 0, 23, false).Ok?
            && FieldOf(ws[2], 1, 31, false).Ok? && FieldOf(ws[3], 1, 12, false).Ok? && FieldOf(ws[4], 0, 6, true).Ok?
    ensures var ws := Fields(expr);
            SpecOf(expr).Ok? ==> Holds(SpecOf(expr).v, ws)
  {
    hide FieldOf, Fields, FieldSays;
  }

  /** Five words in their order: the expression is accepted when each stands in its own range, and fires at the minutes
      whose local clock and date they name. */
  lemma FiresAsWritten(expr: string, ws: seq<string>, offset: int, k: int)
    requires Spaced(expr, ws)
    ensures SpecOf(expr).Ok? <==> AllStand(ws)
    ensures SpecOf(expr).Ok? ==> (CronSearch.Fires(SpecOf(expr).v, offset, k) <==> Due(ws, (60 * k + offset) / 60))
  {
    hide Spaced, FieldOf, FieldStands, FieldSays, Calendar.Civil, SpecOf, Fields, CronSearch.Fires, Due;
    WordsAre(expr, ws);
    SpecReads(expr);
    if SpecOf(expr).Ok? { FiresReads(SpecOf(expr).v, ws, offset, k); }
    if |ws| == 5 {
      FieldIff(ws[0], 0, 59, false);
      FieldIff(ws[1], 0, 23, false);
      FieldIff(ws[2], 1, 31, false);
      FieldIff(ws[3], 1, 12, false);
      FieldIff(ws[4], 0, 6, true);
    }
  }

  // ----- once a day -----

  lemma NumberSays(word: string, min: int, max: int, v: int)
    requires 0 <= min <= v <= max <= 59 && word != "" && AllDigits(word) && Value(word) == v
    ensures FieldStands(word, min, max, false) && forall x :: FieldSays(word, min, max, false, x) <==> x == v
  {
    hide PartSays, Split, Value;
    assert forall c <- word :: IsDigit(c);
    assert ',' !in word && '/' !in word && '-' !in word;
    OnlyPart(word);
    assert word[0] in word && Denotes(word, v);
    NumberPart(word, min, max, v);
    forall x ensures FieldSays(word, min, max, false, x) <==> x == v {
      if x == v { assert OnSteps(v, v, 1, v); assert Lists(word, min, max, false, v); }
    }
    assert FieldSays(word, min, max, false, v);
    assert PartStands(word, min, max, false) by { assert PartSays(word, min, max, v, v, 1); }
  }

  lemma OnlyPart(word: string)
    requires ',' !in word
    ensures Split(word, ',') == [word]
  {
    Absent(word, ',');
  }

  lemma NumberPart(word: string, min: int, max: int, v: int)
    requires 0 <= min <= max <= 59 && '/' !in word && '-' !in word && Denotes(word, v)
    ensures forall lo, hi, step :: PartSays(word, min, max, lo, hi, step) <==> lo == v && hi == v && step == 1
  {
    hide ParseItem;
    StarIsNoNumber(v);
    assert Stepped(word, word, 1) && RangeSays(word, min, max, v, v);
    forall lo, hi, step ensures PartSays(word, min, max, lo, hi, step) <==> lo == v && hi == v && step == 1 {
      ItemIff(word, min, max, lo, hi, step);
      ItemIff(word, min, max, v, v, 1);
    }
  }

  lemma StarSays(min: int, max: int, dow: bool)
    requires 0 <= min <= max <= 59 && (dow ==> max < 7)
    ensures FieldStands("*", min, max, dow) && forall x :: FieldSays("*", min, max, dow, x) <==> min <= x <= max
  {
    hide FieldOf, FieldStands, FieldSays;
    StarIsFull(min, max, dow);
    FieldIff("*", min, max, dow);
  }

  /** `mi h * * *` fires each day when the local clock shows h:mi, and at no other minute. */
  lemma DailyFires(expr: string, a: string, b: string, mi: int, h: int, offset: int, k: int)
    requires Spaced(expr, [a, b, "*", "*", "*"])
    requires a != "" && AllDigits(a) && Value(a) == mi && mi < 60
    requires b != "" && AllDigits(b) && Value(b) == h && h < 24
    ensures SpecOf(expr).Ok?
    ensures CronSearch.Fires(SpecOf(expr).v, offset, k) <==> (60 * k + offset) / 60 % 1440 == 60 * h + mi
  {
    hide Spaced, SpecOf, CronSearch.Fires, FieldStands, FieldSays, Calendar.Civil, Value;
    FiresAsWritten(expr, [a, b, "*", "*", "*"], offset, k);
    NumberSays(a, 0, 59, mi);
    NumberSays(b, 0, 23, h);
    StarSays(1, 31, false);
    StarSays(1, 12, false);
    StarSays(0, 6, true);
    ClockTime((60 * k + offset) / 60, h, mi);
  }

  lemma ClockTime(local: int, h: int, mi: int)
    requires 0 <= h < 24 && 0 <= mi < 60
    ensures local % 60 == mi && local / 60 % 24 == h <==> local % 1440 == 60 * h + mi
  {}

  lemma LeadingSpace(s: string, words: seq<string>)
    requires words != [] && Spaced(s, words)
    ensures Spaced(" " + s, words)
  {
    hide IsSpace;
    var i: nat, j: nat :| WordAt(s, i, j, words[0]) && Spaced(s[j..], words[1..]);
    var t := " " + s;
    SpaceIsSpace();
    assert t[..i + 1] == " " + s[..i] && t[i + 1..j + 1] == s[i..j] && t[j + 1..] == s[j..];
    assert WordAt(t, i + 1, j + 1, words[0]);
  }

  lemma SpaceIsSpace()
    ensures IsSpace(' ')
  {}

  predicate Solid(word: string) {
    word != "" && forall c <- word :: !IsSpace(c)
  }

  lemma LastWord(word: string)
    requires Solid(word)
    ensures Spaced(word, [word])
  {
    hide IsSpace;
    var words := [word];
    assert word[0..|word|] == word && WordAt(word, 0, |word|, words[0]);
    assert words[1..] == [] && Spaced(word[|word|..], []);
  }

  lemma WordBefore(word: string, s: string, words: seq<string>)
    requires Solid(word) && words != [] && Spaced(s, words)
    ensures Spaced(word + " " + s, [word] + words)
  {
    hide IsSpace;
    var t, all := word + " " + s, [word] + words;
    SpaceIsSpace();
    LeadingSpace(s, words);
    assert t[0..|word|] == word && t[|word|..] == " " + s && t[|word|] == ' ' && all[0] == word && all[1..] == words;
    assert WordAt(t, 0, |word|, all[0]);
  }

  /** Five words one space apart are spaced. */
  lemma SpacedBySpaces(a: string, b: string, c: string, d: string, e: string)
    requires Solid(a) && Solid(b) && Solid(c) && Solid(d) && Solid(e)
    ensures Spaced(a + " " + b + " " + c + " " + d + " " + e, [a, b, c, d, e])
  {
    hide *;
    var three, four := d + " " + e, c + " " + (d + " " + e);
    LastWord(e);
    WordBefore(d, e, [e]);
    assert [d] + [e] == [d, e];
    WordBefore(c, three, [d, e]);
    assert [c] + [d, e] == [c, d, e];
    WordBefore(b, four, [c, d, e]);
    assert [b] + [c, d, e] == [b, c, d, e];
    WordBefore(a, b + " " + four, [b, c, d, e]);
    assert [a] + [b, c, d, e] == [a, b, c, d, e];
    assert a + " " + b + " " + c + " " + d + " " + e == a + " " + (b + " " + four);
  }
}
