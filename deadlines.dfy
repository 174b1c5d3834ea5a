/** Deadline checks over the conference settings (`settingsAfter`,
    `deadlinesAfter`, `deadlinesBetween`) and the bucketing of a remaining
    time into a readable amount (`printableInterval`). */
module Deadlines {
  import opened Util

  /** The conference settings with integer values; a missing name is NULL. */
  type Settings = map<string, int>

  /** `settingsAfter`: the setting is set, positive, and not later than `now`. */
  predicate SettingsAfter(s: Settings, name: string, now: int) {
    name in s && s[name] > 0 && s[name] <= now
  }

  /** Once a setting's time has come it stays come. */
  lemma SettingsAfterStays(s: Settings, name: string, now: int, later: int)
    requires SettingsAfter(s, name, now) && now <= later
    ensures SettingsAfter(s, name, later)
  {
  }

  /** The grace condition of both deadline checks: a truthy grace name whose
      setting is set and non-zero. */
  predicate GraceApplies(s: Settings, grace: Option<string>) {
    grace.Some? && PhpTruthy(grace.value) && grace.value in s && s[grace.value] != 0
  }

  /** The value a deadline setting has after its grace is added: a set,
      positive setting is moved by `extra`; any other keeps its value. */
  function Deadline(s: Settings, name: string, extra: int): (t: Option<int>)
    ensures t.Some? <==> name in s
    ensures name in s && s[name] <= 0 ==> t == Some(s[name])
    ensures name in s && s[name] > 0 ==> t == Some(s[name] + extra)
  {
    if name !in s then None
    else if s[name] > 0 then Some(s[name] + extra)
    else Some(s[name])
  }

  /** What the code adds as grace: the grace setting's NAME taken as a
      number, which is 0 for any name that does not start with digits. */
  function GraceAsWritten(s: Settings, grace: Option<string>): int {
    if GraceApplies(s, grace) then IntCast(grace.value) else 0
  }

  /** The grace the checks evidently mean to add: the grace setting's value. */
  function GraceValue(s: Settings, grace: Option<string>): (g: int)
    ensures g != 0 ==> GraceApplies(s, grace) && g == s[grace.value]
  {
    if GraceApplies(s, grace) then s[grace.value] else 0
  }

  /** `deadlinesAfter` as written. */
  predicate DeadlinesAfterAsWritten(s: Settings, name: string, grace: Option<string>, now: int) {
    var t := Deadline(s, name, GraceAsWritten(s, grace));
    t.Some? && t.value > 0 && t.value <= now
  }

  /** `deadlinesBetween` as written: the first deadline has passed (when
      named) and the second, with grace, has not. */
  predicate DeadlinesBetweenAsWritten(s: Settings, name1: string, name2: string, grace: Option<string>, now: int) {
    && (PhpTruthy(name1) ==> SettingsAfter(s, name1, now))
    && var t := Deadline(s, name2, GraceAsWritten(s, grace));
       t.None? || t.value <= 0 || t.value >= now
  }

  /** `deadlinesAfter` with the grace setting's value added. */
  predicate DeadlinesAfter(s: Settings, name: string, grace: Option<string>, now: int) {
    var t := Deadline(s, name, GraceValue(s, grace));
    t.Some? && t.value > 0 && t.value <= now
  }

  /** `deadlinesBetween` with the grace setting's value added. */
  predicate DeadlinesBetween(s: Settings, name1: string, name2: string, grace: Option<string>, now: int) {
    && (PhpTruthy(name1) ==> SettingsAfter(s, name1, now))
    && var t := Deadline(s, name2, GraceValue(s, grace));
       t.None? || t.value <= 0 || t.value >= now
  }

  /** As written, a grace setting whose name does not start with digits
      changes nothing: both checks behave as if no grace were given. */
  lemma GraceNameIgnored(s: Settings, name: string, name1: string, grace: Option<string>, now: int)
    requires grace.Some? ==> IntCast(grace.value) == 0
    ensures DeadlinesAfterAsWritten(s, name, grace, now) <==> SettingsAfter(s, name, now)
    ensures DeadlinesBetweenAsWritten(s, name1, name, grace, now)
        <==> DeadlinesBetween(s, name1, name, None, now)
  {
  }

  /** A submission deadline of 100 with a grace period of 50: at time 120
      the code already reports the deadline as passed. */
  lemma GraceCounterexample()
    ensures DeadlinesAfterAsWritten(map["sub_sub" := 100, "sub_grace" := 50], "sub_sub", Some("sub_grace"), 120)
    ensures !DeadlinesAfter(map["sub_sub" := 100, "sub_grace" := 50], "sub_sub", Some("sub_grace"), 120)
    ensures !DeadlinesBetweenAsWritten(map["sub_sub" := 100, "sub_grace" := 50], "", "sub_sub", Some("sub_grace"), 120)
    ensures DeadlinesBetween(map["sub_sub" := 100, "sub_grace" := 50], "", "sub_sub", Some("sub_grace"), 120)
  {
    var s := map["sub_sub" := 100, "sub_grace" := 50];
    assert IntCast("sub_grace") == 0 by {
      assert !IsDigit("sub_grace"[0]);
    }
    assert s["sub_sub"] == 100 && s["sub_grace"] == 50;
  }

  /** With a non-negative grace, a deadline only passes after its setting's
      time has come, and no later than the time plus the grace. */
  lemma GraceDelays(s: Settings, name: string, grace: Option<string>, now: int)
    requires GraceValue(s, grace) >= 0
    ensures DeadlinesAfter(s, name, grace, now) ==> SettingsAfter(s, name, now)
    ensures SettingsAfter(s, name, now - GraceValue(s, grace)) ==> DeadlinesAfter(s, name, grace, now)
  {
  }

  /** A passed deadline stays passed. */
  lemma DeadlinesAfterStays(s: Settings, name: string, grace: Option<string>, now: int, later: int)
    requires DeadlinesAfter(s, name, grace, now) && now <= later
    ensures DeadlinesAfter(s, name, grace, later)
  {
  }

  /** Between two deadlines means: the first has passed (when named) and
      the second, with grace, has not, or falls exactly at `now`. */
  lemma BetweenIsAfterAndNotAfter(s: Settings, name1: string, name2: string, grace: Option<string>, now: int)
    ensures DeadlinesBetween(s, name1, name2, grace, now)
        <==> (PhpTruthy(name1) ==> SettingsAfter(s, name1, now))
             && (DeadlinesAfter(s, name2, grace, now) ==> Deadline(s, name2, GraceValue(s, grace)) == Some(now))
  {
  }

  /** The unit `printableInterval` names. */
  datatype Unit = Day | Hour | Minute | Second

  /** What `printableInterval` hands to `plural`: "past", or an amount of a
      unit. The amount is kept in halves, since the band between one and
      eight hours counts half hours. */
  datatype Interval = Past | Span(halves: nat, unit: Unit)

  function UnitSeconds(u: Unit): nat {
    match u
    case Day => 86400
    case Hour => 3600
    case Minute => 60
    case Second => 1
  }

  /** `ceil(a / b)` for positive operands. */
  function CeilDiv(a: int, b: int): (q: int)
    requires a > 0 && b > 0
    ensures q > 0
  {
    (a + b - 1) / b
  }

  lemma {:induction false} CeilDivBounds(a: int, b: int)
    requires a > 0 && b > 0
    ensures a <= b * CeilDiv(a, b) < a + b
  {
    var q, r := (a + b - 1) / b, (a + b - 1) % b;
    assert a + b - 1 == b * q + r && 0 <= r < b;
  }

  lemma {:induction false} CeilDivMono(a: int, c: int, b: int)
    requires 0 < a <= c && b > 0
    ensures CeilDiv(a, b) <= CeilDiv(c, b)
  {
    var qa, qc := CeilDiv(a, b), CeilDiv(c, b);
    CeilDivBounds(a, b);
    CeilDivBounds(c, b);
    assert b * qa < b * (qc + 1);
    MulCancel(b, qa, qc + 1);
  }

  lemma MulCancel(b: int, u: int, v: int)
    requires b > 0 && b * u < b * v
    ensures u < v
  {
  }

  /** `printableInterval` on a whole number of seconds. */
  function PrintableInterval(amt: int): Interval {
    if amt > 259200 then Span(2 * CeilDiv(amt, 86400), Day)
    else if amt > 28800 then Span(2 * CeilDiv(amt, 3600), Hour)
    else if amt > 3600 then Span(CeilDiv(amt, 1800), Hour)
    else if amt > 180 then Span(2 * CeilDiv(amt, 60), Minute)
    else if amt > 0 then Span(2 * amt, Second)
    else Past
  }

  /** The number of seconds an interval reads as. */
  function Shown(r: Interval): int {
    match r
    case Past => 0
    case Span(h, u) => h * UnitSeconds(u) / 2
  }

  /** The rounding step of the band `amt` falls in. */
  function Step(amt: int): int {
    if amt > 259200 then 86400
    else if amt > 28800 then 3600
    else if amt > 3600 then 1800
    else if amt > 180 then 60
    else 1
  }

  lemma {:induction false} ShownIsRoundedUp(amt: int)
    requires amt > 0
    ensures Shown(PrintableInterval(amt)) == Step(amt) * CeilDiv(amt, Step(amt))
  {
    var g := Step(amt);
    if amt <= 180 {
      assert CeilDiv(amt, 1) == amt;
    }
  }

  /** A time still to come reads as itself rounded up to its band's step,
      never less and by less than one step more; no time left reads "past". */
  lemma {:induction false} IntervalRoundsUp(amt: int)
    ensures PrintableInterval(amt).Past? <==> amt <= 0
    ensures amt > 0 ==> amt <= Shown(PrintableInterval(amt)) < amt + Step(amt)
  {
    if amt > 0 {
      ShownIsRoundedUp(amt);
      CeilDivBounds(amt, Step(amt));
    }
  }

  /** Each unit is used only for amounts of its own size: at least four
      days, between one and a half and seventy-two hours, between four and
      sixty minutes, or at most three minutes' worth of seconds. */
  lemma {:induction false} IntervalUnits(amt: int)
    requires amt > 0
    ensures var r := PrintableInterval(amt);
      && (r.unit == Day ==> r.halves >= 8)
      && (r.unit == Hour ==> 3 <= r.halves <= 144)
      && (r.unit == Minute ==> 8 <= r.halves <= 120)
      && (r.unit == Second ==> 2 <= r.halves <= 360)
  {
    var g := Step(amt);
    CeilDivBounds(amt, g);
    if amt > 259200 {
      assert CeilDiv(amt, g) >= 4;
    } else if amt > 28800 {
      CeilDivMono(amt, 259200, g);
      assert CeilDiv(259200, g) == 72;
    } else if amt > 3600 {
      CeilDivMono(amt, 28800, g);
      assert CeilDiv(28800, g) == 16;
    } else if amt > 180 {
      CeilDivMono(amt, 3600, g);
      assert CeilDiv(3600, g) == 60;
    }
  }

  /** More time left never reads as less. */
  lemma {:induction false} IntervalMonotone(a: int, b: int)
    requires a <= b
    ensures Shown(PrintableInterval(a)) <= Shown(PrintableInterval(b))
  {
    if a > 0 {
      IntervalRoundsUp(b);
      ShownIsRoundedUp(a);
      ShownIsRoundedUp(b);
      var ga, gb := Step(a), Step(b);
      if ga == gb {
        CeilDivMono(a, b, ga);
      } else {
        // a's band ends at a multiple of its step, which b exceeds
        var top := if a > 28800 then 259200 else if a > 3600 then 28800 else if a > 180 then 3600 else 180;
        assert a <= top < b && top % ga == 0;
        CeilDivMono(a, top, ga);
        assert CeilDiv(top, ga) * ga == top;
      }
    }
  }
}
