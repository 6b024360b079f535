/** When a timed handler rolls over next, in UTC: the computation step by step, and what it means. */
module RolloverClock {
  import opened Wrappers

  const MINUTE := 60
  const HOUR := 3600
  const DAY := 86400
  const WEEK := 604800

  /** The accepted values of `when`. */
  datatype When = Seconds | Minutes | Hours | Days | Midnight | Weekday(day: int)

  /** `atTime`, to the second. */
  datatype TimeOfDay = TimeOfDay(hour: int, minute: int, second: int)

  predicate ValidTime(t: TimeOfDay) {
    0 <= t.hour < 24 && 0 <= t.minute < 60 && 0 <= t.second < 60
  }

  datatype Clock = Clock(when: When, multiplier: int, atTime: Option<TimeOfDay>)

  /** A clock the constructor accepts, with a positive number of units. */
  predicate ValidClock(c: Clock) {
    && c.multiplier >= 1
    && (c.when.Weekday? ==> 0 <= c.when.day <= 6)
    && (c.atTime.Some? ==> ValidTime(c.atTime.value))
  }

  function Upper(s: string): string {
    if s == [] then [] else [if 'a' <= s[0] <= 'z' then (s[0] as int - 32) as char else s[0]] + Upper(s[1..])
  }

  /** How a `when` is written; days are 0 for Monday to 6. */
  function Spelling(w: When): string {
    match w
    case Seconds => "S"
    case Minutes => "M"
    case Hours => "H"
    case Days => "D"
    case Midnight => "MIDNIGHT"
    case Weekday(day) => if 0 <= day <= 6 then ['W', "0123456"[day]] else ""
  }

  predicate ValidWhen(w: When) {
    w.Weekday? ==> 0 <= w.day <= 6
  }

  /** The `when` argument: accepted exactly if it spells a `when`, in either case; anything else
      raises a ValueError. */
  function ParseWhen(arg: string): (r: Option<When>)
    ensures r.Some? ==> ValidWhen(r.value) && Upper(arg) == Spelling(r.value)
    ensures forall w :: ValidWhen(w) && Upper(arg) == Spelling(w) ==> r == Some(w)
  {
    var s := Upper(arg);
    if s == "S" then Some(Seconds)
    else if s == "M" then Some(Minutes)
    else if s == "H" then Some(Hours)
    else if s == "D" then Some(Days)
    else if s == "MIDNIGHT" then Some(Midnight)
    else if |s| == 2 && s[0] == 'W' && '0' <= s[1] <= '6' then Some(Weekday(s[1] as int - '0' as int))
    else None
  }

  /** The length of one unit. */
  function Unit(w: When): (u: int)
    ensures u >= 1
  {
    match w
    case Seconds => 1
    case Minutes => MINUTE
    case Hours => HOUR
    case Days => DAY
    case Midnight => DAY
    case Weekday(_) => WEEK
  }

  function Interval(c: Clock): int {
    Unit(c.when) * c.multiplier
  }

  // ----- broken-down UTC time

  datatype Broken = Broken(hour: int, minute: int, second: int, weekday: int)

  /** `gmtime`: 1970-01-01 was a Thursday; Monday is 0. */
  function GmTime(t: int): Broken {
    var s := t % DAY;
    Broken(s / HOUR, s % HOUR / MINUTE, s % HOUR % MINUTE, WeekdayOf(t / DAY))
  }

  /** The weekday of a day counted from the epoch. */
  function WeekdayOf(day: int): int {
    (day + 3) % 7
  }

  lemma SecondsOfDay(t: int)
    ensures (GmTime(t).hour * 60 + GmTime(t).minute) * 60 + GmTime(t).second == t % DAY
  {
  }

  lemma DayOf(x: int, day: int, second: int)
    requires x == day * DAY + second && 0 <= second < DAY
    ensures x / DAY == day && x % DAY == second
  {
  }

  /** A time is that many days, hours, minutes and seconds after the epoch. */
  lemma GmTimeIs(t: int)
    ensures var g := GmTime(t);
      && 0 <= g.hour < 24 && 0 <= g.minute < 60 && 0 <= g.second < 60 && 0 <= g.weekday < 7
      && exists day: int :: t == day * 86400 + g.hour * 3600 + g.minute * 60 + g.second
  {
    SecondsOfDay(t);
    assert t == t / DAY * 86400 + GmTime(t).hour * 3600 + GmTime(t).minute * 60 + GmTime(t).second;
  }

  /** Day 0 was a Thursday, which is 3. */
  lemma WeekdaysAre(day: int, w: int)
    requires 0 <= w < 7
    ensures WeekdayOf(day) == w <==> exists weeks: int :: day == 7 * weeks + w - 3
  {
    if WeekdayOf(day) == w {
      assert day == 7 * ((day + 3) / 7) + w - 3;
    }
  }

  // ----- the computation

  /** The time of day of a rollover, in seconds; midnight counts as the end of a day. */
  function RotateSeconds(c: Clock): int {
    match c.atTime
    case None => DAY
    case Some(t) => (t.hour * 60 + t.minute) * 60 + t.second
  }

  function DaysToWait(day: int, target: int): int {
    if day == target then 0
    else if day < target then target - day
    else 6 - day + target + 1
  }

  /** `computeRollover(t) - t`. */
  function Wait(c: Clock, t: int): int {
    if !c.when.Midnight? && !c.when.Weekday? then Interval(c)
    else
      var now := GmTime(t);
      var r := RotateSeconds(c) - ((now.hour * 60 + now.minute) * 60 + now.second);
      var passed := r < 0;
      var r1 := if passed then r + DAY else r;
      var day := if passed then (now.weekday + 1) % 7 else now.weekday;
      if c.when.Weekday? then r1 + DaysToWait(day, c.when.day) * DAY else r1
  }

  /** An instant at which a MIDNIGHT or weekly clock may roll over. */
  predicate Qualifies(c: Clock, x: int) {
    match c.atTime
    case None => x % DAY == 0 && (c.when.Weekday? ==> WeekdayOf(x / DAY - 1) == c.when.day)
    case Some(_) => x % DAY == RotateSeconds(c) && (c.when.Weekday? ==> WeekdayOf(x / DAY) == c.when.day)
  }

  /** The instants at the time of day that is asked for, on the weekday that is asked for if any: without
      a time, at the midnight that ends it. */
  lemma QualifiesExactly(c: Clock, x: int)
    requires ValidClock(c)
    ensures Qualifies(c, x) <==>
      && x % 86400 == (match c.atTime case None => 0 case Some(t) => t.hour * 3600 + t.minute * 60 + t.second)
      && (c.when.Weekday? ==>
           var day := if c.atTime.None? then x / 86400 - 1 else x / 86400;
           exists weeks: int :: day == 7 * weeks + c.when.day - 3)
  {
    if c.when.Weekday? {
      WeekdaysAre(if c.atTime.None? then x / DAY - 1 else x / DAY, c.when.day);
    }
  }

  /** With `atTime` the present instant counts, without it only later ones do. */
  predicate NotBefore(c: Clock, t: int, x: int) {
    if c.atTime.None? then t < x else t <= x
  }

  predicate Calendar(c: Clock) {
    c.when.Midnight? || c.when.Weekday?
  }

  lemma RotateSecondsRange(c: Clock)
    requires ValidClock(c)
    ensures if c.atTime.None? then RotateSeconds(c) == DAY else 0 <= RotateSeconds(c) < DAY
  {
  }

  /** Days are counted forward to the next target weekday. */
  lemma DaysToWaitLeast(day: int, target: int, k: int)
    requires 0 <= day <= 6 && 0 <= target <= 6
    ensures 0 <= DaysToWait(day, target) <= 6 && (day + DaysToWait(day, target)) % 7 == target
    ensures 0 <= k && (day + k) % 7 == target ==> DaysToWait(day, target) <= k
  {
  }

  /** The day from which the rollover's time of day is still ahead. */
  function FirstDay(c: Clock, t: int): int {
    if RotateSeconds(c) < t % DAY then t / DAY + 1 else t / DAY
  }

  /** The day on which the rollover falls. */
  function LandingDay(c: Clock, t: int): int {
    FirstDay(c, t) + if c.when.Weekday? then DaysToWait(WeekdayOf(FirstDay(c, t)), c.when.day) else 0
  }

  lemma WaitLands(c: Clock, t: int)
    requires Calendar(c)
    ensures t + Wait(c, t) == LandingDay(c, t) * DAY + RotateSeconds(c)
  {
    SecondsOfDay(t);
    NextWeekday(t / DAY);
    assert t == t / DAY * DAY + t % DAY;
  }

  lemma NextWeekday(day: int)
    ensures WeekdayOf(day + 1) == (WeekdayOf(day) + 1) % 7
  {
  }

  /** No earlier day from the first one on has the right weekday. */
  lemma LandingDayLeast(c: Clock, t: int, e: int)
    requires ValidClock(c)
    ensures LandingDay(c, t) >= FirstDay(c, t) && (c.when.Weekday? ==> WeekdayOf(LandingDay(c, t)) == c.when.day)
    ensures e >= FirstDay(c, t) && (c.when.Weekday? ==> WeekdayOf(e) == c.when.day) ==> LandingDay(c, t) <= e
  {
    if c.when.Weekday? {
      var f := FirstDay(c, t);
      WeekdayPlus(f, DaysToWait(WeekdayOf(f), c.when.day));
      WeekdayPlus(f, e - f);
      DaysToWaitLeast(WeekdayOf(f), c.when.day, e - f);
    }
  }

  lemma WeekdayPlus(day: int, k: int)
    ensures WeekdayOf(day + k) == (WeekdayOf(day) + k) % 7
  {
  }

  /** The qualifying instants, by day. */
  lemma QualifiesByDay(c: Clock, x: int) returns (e: int)
    requires ValidClock(c) && Qualifies(c, x)
    ensures x == e * DAY + RotateSeconds(c) && (c.when.Weekday? ==> WeekdayOf(e) == c.when.day)
  {
    RotateSecondsRange(c);
    e := if c.atTime.None? then x / DAY - 1 else x / DAY;
  }

  lemma DayQualifies(c: Clock, e: int)
    requires ValidClock(c) && (c.when.Weekday? ==> WeekdayOf(e) == c.when.day)
    ensures Qualifies(c, e * DAY + RotateSeconds(c))
  {
    RotateSecondsRange(c);
    if c.atTime.None? {
      DayOf(e * DAY + RotateSeconds(c), e + 1, 0);
    } else {
      DayOf(e * DAY + RotateSeconds(c), e, RotateSeconds(c));
    }
  }

  /** An instant of day `e` is not before `t` exactly from the first day on. */
  lemma NotBeforeByDay(c: Clock, t: int, e: int)
    requires ValidClock(c)
    ensures NotBefore(c, t, e * DAY + RotateSeconds(c)) <==> FirstDay(c, t) <= e
  {
    RotateSecondsRange(c);
    assert t == t / DAY * DAY + t % DAY;
  }

  /** `computeRollover` of a calendar clock is the least qualifying instant. */
  lemma ComputeRolloverIsLeast(c: Clock, t: int)
    requires ValidClock(c) && Calendar(c)
    ensures Qualifies(c, t + Wait(c, t)) && NotBefore(c, t, t + Wait(c, t))
    ensures forall x :: Qualifies(c, x) && NotBefore(c, t, x) ==> t + Wait(c, t) <= x
  {
    WaitLands(c, t);
    var d := LandingDay(c, t);
    LandingDayLeast(c, t, d);
    DayQualifies(c, d);
    NotBeforeByDay(c, t, d);
    forall x | Qualifies(c, x) && NotBefore(c, t, x)
      ensures t + Wait(c, t) <= x
    {
      var e := QualifiesByDay(c, x);
      NotBeforeByDay(c, t, e);
      LandingDayLeast(c, t, e);
    }
  }

  /** Every clock waits for at least 0 seconds, and a non-calendar clock for its interval. */
  lemma WaitIsForward(c: Clock, t: int)
    requires ValidClock(c)
    ensures Wait(c, t) >= 0 && Interval(c) >= 1
    ensures Wait(c, t) == 0 ==> Calendar(c) && c.atTime.Some?
  {
    if Calendar(c) {
      ComputeRolloverIsLeast(c, t);
    }
    assert Unit(c.when) * c.multiplier >= 1 by {
      Positive(Unit(c.when), c.multiplier);
    }
  }

  lemma Positive(a: int, b: int)
    requires a >= 1 && b >= 1
    ensures a * b >= a
  {
  }
}
