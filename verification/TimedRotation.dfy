/** Rotation by time, in UTC: dated backups, the next rollover, and whole runs. */
module TimedRotation {
  import opened Wrappers
  import opened Folds
  import opened FileSystem
  import opened RolloverClock

  /** `stamp` is the date suffix as a function of the period it names: a second, minute, hour or day
      counted from the epoch. */
  datatype Config = Config(base: string, clock: Clock, delay: bool, pruning: bool, stamp: int -> string)

  ghost predicate ValidConfig(c: Config) {
    ValidClock(c.clock) && forall p, q :: c.stamp(p) == c.stamp(q) ==> p == q
  }

  /** The granularity of the suffix. */
  function Granularity(w: When): (g: int)
    ensures g >= 1
  {
    match w
    case Seconds => 1
    case Minutes => MINUTE
    case Hours => HOUR
    case _ => DAY
  }

  function Period(c: Clock, t: int): int {
    t / Granularity(c.when)
  }

  function Dated(c: Config, p: int): (s: string)
    ensures s != c.base
  {
    c.base + "." + c.stamp(p)
  }

  lemma DatedInjective(c: Config, p: int, q: int)
    requires ValidConfig(c) && Dated(c, p) == Dated(c, q)
    ensures p == q
  {
    assert Dated(c, p)[|c.base| + 1..] == c.stamp(p);
    assert Dated(c, q)[|c.base| + 1..] == c.stamp(q);
  }

  // ----- the next rollover

  /** `computeRollover(now)` and the catch-up loop after it. */
  function NextRollover(c: Clock, now: int): int {
    if Wait(c, now) > 0 then now + Wait(c, now) else now + Interval(c)
  }

  /** Moving by whole intervals keeps a calendar clock on qualifying instants. */
  lemma IntervalKeepsQualifying(c: Clock, x: int)
    requires ValidClock(c) && Calendar(c) && Qualifies(c, x)
    ensures Qualifies(c, x + Interval(c))
  {
    var e := QualifiesByDay(c, x);
    var days := if c.when.Weekday? then 7 * c.multiplier else c.multiplier;
    assert Interval(c) == days * DAY;
    WeekdayPlus(e, days);
    assert x + Interval(c) == (e + days) * DAY + RotateSeconds(c);
    DayQualifies(c, e + days);
  }

  /** The next rollover lies strictly ahead; a calendar clock stays aligned, and when the present
      instant does not itself qualify nothing qualifying is passed over. */
  lemma NextRolloverAhead(c: Clock, now: int)
    requires ValidClock(c)
    ensures NextRollover(c, now) > now
    ensures Calendar(c) ==> Qualifies(c, NextRollover(c, now))
    ensures Calendar(c) && !(c.atTime.Some? && Qualifies(c, now)) ==>
      forall x :: Qualifies(c, x) && now < x ==> NextRollover(c, now) <= x
    ensures !Calendar(c) || (c.atTime.Some? && Qualifies(c, now)) ==> NextRollover(c, now) == now + Interval(c)
  {
    WaitIsForward(c, now);
    if Calendar(c) {
      ComputeRolloverIsLeast(c, now);
      if Wait(c, now) == 0 {
        IntervalKeepsQualifying(c, now);
      }
    }
  }

  // ----- the handler

  /** The directory, the stream, and `rollover_at`.  Only the first `rollover_at` can have a
      fraction, from the modification time of an existing file. */
  datatype State = State(files: Files, open: bool, rolloverAt: real)

  /** One `emit`: the line, the two clock readings, and the backups that pruning selects. */
  datatype Event = Event(line: Line, checked: int, rolled: int, victims: set<string>)

  predicate IsDue(c: Config, s: State, now: int) {
    !(c.base in s.files && s.files[c.base].Special?) && now as real >= s.rolloverAt
  }

  /** The period of the backup that a rollover makes. */
  function BackupPeriod(c: Config, s: State): int {
    Period(c.clock, s.rolloverAt.Floor - Interval(c.clock))
  }

  function Renamed(files: Files, source: string, dest: string): Files {
    if source in files then (files - {dest} - {source})[dest := files[source]] else files - {dest}
  }

  /** The destination takes over the source's file, or is gone if there is none; the source is gone. */
  lemma RenamedExactly(files: Files, source: string, dest: string, f: string)
    requires source != dest
    ensures At(Renamed(files, source, dest), f) ==
      if f == dest then At(files, source) else if f == source then None else At(files, f)
  {
  }

  function AfterRollover(c: Config, s: State, e: Event): State {
    var renamed := Renamed(s.files, c.base, Dated(c, BackupPeriod(c, s)));
    var pruned := if c.pruning then renamed - e.victims else renamed;
    State(if c.delay then pruned else Opened(pruned, c.base, true), !c.delay, NextRollover(c.clock, e.rolled) as real)
  }

  function Ready(c: Config, s: State): State {
    if s.open then s else s.(files := Opened(s.files, c.base, true), open := true)
  }

  function AfterEmit(c: Config, s: State, e: Event): State {
    var t := Ready(c, if IsDue(c, s, e.checked) then AfterRollover(c, s, e) else s);
    if c.base in t.files then t.(files := Written(t.files, c.base, e.line)) else t
  }

  /** The first `rollover_at`, from the file's modification time or the clock. */
  function FirstRollover(c: Clock, t: real): real {
    t + Wait(c, t.Floor) as real
  }

  /** A new handler: the stream is open unless delayed, and an existing file's modification time
      counts, the one just opened included. */
  function Created(c: Config, files: Files, mtime: real, now: int): State {
    var there := if c.delay then files else Opened(files, c.base, true);
    State(there, !c.delay, FirstRollover(c.clock, if c.base in there then mtime else now as real))
  }

  class TimedRotatingFileHandler {
    const config: Config
    const dir: Directory
    var stream: bool
    var rolloverAt: real

    ghost predicate Valid()
      reads this, dir
    {
      (stream ==> config.base in dir.files) && ValidClock(config.clock)
    }

    ghost function View(): State
      reads this, dir
    {
      State(dir.files, stream, rolloverAt)
    }

    constructor (dir: Directory, config: Config, mtime: real, now: int)
      requires ValidClock(config.clock)
      modifies dir
      ensures Valid() && this.dir == dir && this.config == config
      ensures View() == Created(config, old(dir.files), mtime, now)
      ensures rolloverAt ==
        FirstRollover(config.clock, if !config.delay || config.base in old(dir.files) then mtime else now as real)
    {
      this.dir := dir;
      this.config := config;
      stream := !config.delay;
      rolloverAt := 0.0;
      new;
      if !config.delay {
        dir.Open(config.base, true);
      }
      var started := now as real;
      if config.base in dir.files {
        started := mtime;
      }
      rolloverAt := FirstRollover(config.clock, started);
    }

    method DoRollover(e: Event)
      requires Valid()
      modifies this`stream, this`rolloverAt, dir
      ensures Valid() && View() == AfterRollover(config, old(View()), e)
    {
      stream := false;
      var dfn := Dated(config, Period(config.clock, rolloverAt.Floor - Interval(config.clock)));
      MoveTo(dfn);
      if config.pruning {
        Prune(e.victims);
      }
      if !config.delay {
        dir.Open(config.base, true);
        stream := true;
      }
      var next := CatchUp(e.rolled);
      rolloverAt := next as real;
    }

    /** The current file takes the dated name, over any file that has it. */
    method MoveTo(dfn: string)
      requires dfn != config.base
      modifies dir
      ensures dir.files == Renamed(old(dir.files), config.base, dfn)
    {
      if dfn in dir.files {
        dir.Remove(dfn);
      }
      if config.base in dir.files {
        dir.Rename(config.base, dfn);
      }
    }

    /** `computeRollover` and the loop that catches up with the clock. */
    method CatchUp(now: int) returns (next: int)
      requires ValidClock(config.clock)
      ensures next == NextRollover(config.clock, now)
    {
      WaitIsForward(config.clock, now);
      next := now + Wait(config.clock, now);
      while next <= now
        invariant next == now + Wait(config.clock, now) || next == NextRollover(config.clock, now)
        invariant next == now || next == NextRollover(config.clock, now)
        decreases now - next
      {
        next := next + Interval(config.clock);
      }
    }

    /** `os.remove` on each selected backup. */
    method Prune(victims: set<string>)
      modifies dir
      ensures dir.files == old(dir.files) - victims
    {
      var rest := victims;
      while rest != {}
        invariant rest <= victims && dir.files == old(dir.files) - (victims - rest)
        decreases rest
      {
        var f :| f in rest;
        if f in dir.files {
          dir.Remove(f);
        }
        rest := rest - {f};
      }
    }

    method Emit(e: Event)
      requires Valid()
      modifies this`stream, this`rolloverAt, dir
      ensures Valid() && stream && View() == AfterEmit(config, old(View()), e)
    {
      var special := config.base in dir.files && dir.files[config.base].Special?;
      if !special && e.checked as real >= rolloverAt {
        DoRollover(e);
      }
      if !stream {
        dir.Open(config.base, true);
        stream := true;
      }
      dir.Write(config.base, e.line);
    }
  }

  // ----- runs

  /** The second clock reading of an emit is not before the first. */
  predicate Timely(e: Event) {
    e.checked <= e.rolled
  }

  ghost predicate AllTimely(es: seq<Event>) {
    forall e :: e in es ==> Timely(e)
  }

  /** A calendar clock's `rollover_at` is a qualifying instant, up to the first fraction. */
  ghost predicate Aligned(c: Config, s: State) {
    Calendar(c.clock) ==> Qualifies(c.clock, s.rolloverAt.Floor)
  }

  lemma FirstIsAligned(c: Config, s: State, t: real)
    requires ValidConfig(c) && s.rolloverAt == FirstRollover(c.clock, t)
    ensures Aligned(c, s)
  {
    assert s.rolloverAt.Floor == t.Floor + Wait(c.clock, t.Floor);
    if Calendar(c.clock) {
      ComputeRolloverIsLeast(c.clock, t.Floor);
    }
  }

  /** A rollover moves `rollover_at` strictly ahead, and the next backup to a later period. */
  lemma RolloverAdvances(c: Config, s: State, e: Event)
    requires ValidConfig(c) && Aligned(c, s) && IsDue(c, s, e.checked) && Timely(e)
    ensures var t := AfterRollover(c, s, e);
      Aligned(c, t) && t.rolloverAt > s.rolloverAt && BackupPeriod(c, t) > BackupPeriod(c, s)
  {
    var k, now, next := c.clock, s.rolloverAt.Floor, NextRollover(c.clock, e.rolled);
    NextRolloverAhead(k, e.rolled);
    assert (next as real).Floor == next;
    assert now <= e.rolled;
    if Calendar(k) {
      SameTimeOfDay(k, now, next);
      LaterPeriod(now - Interval(k), next - Interval(k), DAY);
    } else {
      Positive(Unit(k.when), k.multiplier);
      LaterPeriod(now - Interval(k), e.rolled, Granularity(k.when));
    }
  }

  /** Two qualifying instants are whole days apart. */
  lemma SameTimeOfDay(c: Clock, x: int, y: int)
    requires ValidClock(c) && Qualifies(c, x) && Qualifies(c, y) && x < y
    ensures y - x >= DAY
  {
    var d := QualifiesByDay(c, x);
    var e := QualifiesByDay(c, y);
  }

  lemma LaterPeriod(x: int, y: int, g: int)
    requires g in {1, MINUTE, HOUR, DAY} && y - x >= g
    ensures y / g > x / g
  {
  }

  /** The state, and for every rollover so far when it was due, the period of its backup and the lines
      moved there. */
  datatype Tracked = Tracked(s: State, dues: seq<real>, periods: seq<int>, saved: seq<seq<Line>>)

  function TrackedRollover(c: Config, t: Tracked, e: Event): Tracked {
    Tracked(AfterRollover(c, t.s, e), t.dues + [t.s.rolloverAt], t.periods + [BackupPeriod(c, t.s)],
            t.saved + [Lines(t.s.files, c.base)])
  }

  function TrackedEmit(c: Config, t: Tracked, e: Event): Tracked {
    var u := if IsDue(c, t.s, e.checked) then TrackedRollover(c, t, e) else t;
    u.(s := AfterEmit(c, t.s, e))
  }

  function Emitting(c: Config): (Tracked, Event) -> Tracked {
    (t, e) => TrackedEmit(c, t, e)
  }

  function Run(c: Config, s: State, es: seq<Event>): Tracked {
    Iterate(Emitting(c), Tracked(s, [], [], []), es, |es|)
  }

  function Emitted(es: seq<Event>): seq<Line> {
    if es == [] then [] else Emitted(es[..|es| - 1]) + [es[|es| - 1].line]
  }

  function Joined(parts: seq<seq<Line>>): seq<Line> {
    if parts == [] then [] else Joined(parts[..|parts| - 1]) + parts[|parts| - 1]
  }

  ghost predicate Increasing(ps: seq<int>) {
    forall i, j :: 0 <= i < j < |ps| ==> ps[i] < ps[j]
  }

  lemma IncreasingNext(ps: seq<int>, p: int)
    requires Increasing(ps) && forall q :: q in ps ==> q < p
    ensures Increasing(ps + [p])
  {
    forall i, j | 0 <= i < j < |ps + [p]|
      ensures (ps + [p])[i] < (ps + [p])[j]
    {
      assert ps[i] in ps;
    }
  }

  // ----- names, over any run

  /** Past backups have increasing periods, all before the next one's. */
  ghost predicate Dates(c: Config, t: Tracked) {
    Aligned(c, t.s) && Increasing(t.periods) && forall p :: p in t.periods ==> p < BackupPeriod(c, t.s)
  }

  lemma RolloverDates(c: Config, t: Tracked, e: Event)
    requires ValidConfig(c) && Dates(c, t) && IsDue(c, t.s, e.checked) && Timely(e)
    ensures Dates(c, TrackedRollover(c, t, e))
  {
    RolloverAdvances(c, t.s, e);
    IncreasingNext(t.periods, BackupPeriod(c, t.s));
  }

  lemma EmitDates(c: Config, t: Tracked, e: Event)
    requires ValidConfig(c) && Dates(c, t) && Timely(e)
    ensures Dates(c, TrackedEmit(c, t, e))
  {
    if IsDue(c, t.s, e.checked) {
      RolloverDates(c, t, e);
    }
  }

  ghost predicate NamesDiffer(c: Config, ps: seq<int>) {
    forall i, j :: 0 <= i < j < |ps| ==> Dated(c, ps[i]) != Dated(c, ps[j])
  }

  lemma IncreasingNamesDiffer(c: Config, ps: seq<int>)
    requires ValidConfig(c) && Increasing(ps)
    ensures NamesDiffer(c, ps)
  {
    forall i, j | 0 <= i < j < |ps|
      ensures Dated(c, ps[i]) != Dated(c, ps[j])
    {
      if Dated(c, ps[i]) == Dated(c, ps[j]) {
        DatedInjective(c, ps[i], ps[j]);
      }
    }
  }

  /** Over any run, on any directory, pruning or not, the rollovers of a handler name strictly
      increasing periods, and no two of them compute the same destination. */
  lemma NamesNeverRepeat(c: Config, s: State, es: seq<Event>)
    requires ValidConfig(c) && Aligned(c, s) && AllTimely(es)
    ensures Increasing(Run(c, s, es).periods) && NamesDiffer(c, Run(c, s, es).periods)
  {
    var inv := (t: Tracked, i: nat) => Dates(c, t);
    forall t: Tracked, i: nat | i < |es| && inv(t, i)
      ensures inv(Emitting(c)(t, es[i]), i + 1)
    {
      assert es[i] in es;
      EmitDates(c, t, es[i]);
    }
    IterateKeeps(Emitting(c), Tracked(s, [], [], []), es, |es|, inv);
    IncreasingNamesDiffer(c, Run(c, s, es).periods);
  }

  // ----- which period a backup names

  /** The period `p` of granularity `Granularity` begins one interval before `due`. */
  ghost predicate NamesPeriodOf(c: Clock, due: real, p: int) {
    (p * Granularity(c.when) + Interval(c)) as real <= due < ((p + 1) * Granularity(c.when) + Interval(c)) as real
  }

  ghost predicate AllNamed(c: Config, t: Tracked) {
    |t.dues| == |t.periods| && forall k :: 0 <= k < |t.dues| ==> NamesPeriodOf(c.clock, t.dues[k], t.periods[k])
  }

  /** The units of the clocks; a suffix is as fine as the unit, and no coarser than a day. */
  lemma UnitsAre(c: Clock)
    ensures c.when == Seconds ==> Interval(c) == c.multiplier && Granularity(c.when) == 1
    ensures c.when == Minutes ==> Interval(c) == 60 * c.multiplier && Granularity(c.when) == 60
    ensures c.when == Hours ==> Interval(c) == 60 * 60 * c.multiplier && Granularity(c.when) == 60 * 60
    ensures c.when in {Days, Midnight} ==>
      Interval(c) == 24 * 60 * 60 * c.multiplier && Granularity(c.when) == 24 * 60 * 60
    ensures c.when.Weekday? ==>
      Interval(c) == 7 * 24 * 60 * 60 * c.multiplier && Granularity(c.when) == 24 * 60 * 60
  {
  }

  lemma Quotient(x: int, g: int)
    requires g >= 1
    ensures x / g * g <= x < (x / g + 1) * g
  {
    assert x == x / g * g + x % g;
    assert (x / g + 1) * g == x / g * g + g;
  }

  lemma PeriodIsNamed(c: Config, s: State)
    ensures NamesPeriodOf(c.clock, s.rolloverAt, BackupPeriod(c, s))
  {
    Quotient(s.rolloverAt.Floor - Interval(c.clock), Granularity(c.clock.when));
  }

  lemma EmitNamed(c: Config, t: Tracked, e: Event)
    requires AllNamed(c, t)
    ensures AllNamed(c, TrackedEmit(c, t, e))
  {
    PeriodIsNamed(c, t.s);
  }

  /** Over any run, every backup names the period that begins one interval before its rollover was due. */
  lemma BackupsNameTheirPeriods(c: Config, s: State, es: seq<Event>)
    ensures AllNamed(c, Run(c, s, es))
  {
    var inv := (t: Tracked, i: nat) => AllNamed(c, t);
    forall t: Tracked, i: nat | i < |es| && inv(t, i)
      ensures inv(Emitting(c)(t, es[i]), i + 1)
    {
      EmitNamed(c, t, es[i]);
    }
    IterateKeeps(Emitting(c), Tracked(s, [], [], []), es, |es|, inv);
  }

  /** Of a daily clock that rolls over at midnight, the named day is the one that ends then; of a weekly
      one, it is the first day of the week that ends then. */
  lemma MidnightEndsTheNamedDay(c: Config, s: State)
    requires Calendar(c.clock) && c.clock.atTime.None? && c.clock.multiplier == 1 && Aligned(c, s)
    ensures c.clock.when.Midnight? ==> s.rolloverAt.Floor == (BackupPeriod(c, s) + 1) * (24 * 60 * 60)
    ensures c.clock.when.Weekday? ==> s.rolloverAt.Floor == (BackupPeriod(c, s) + 7) * (24 * 60 * 60)
  {
    PeriodIsNamed(c, s);
  }

  // ----- when a rollover happens

  /** On a regular or missing file a rollover happens exactly if the clock has reached `rollover_at`,
      which then moves past the second reading of the clock; otherwise it stays where it is. */
  lemma RollsWhenDue(c: Config, t: Tracked, e: Event)
    requires ValidConfig(c) && Sane(c, t.s) && Timely(e)
    ensures var u := TrackedEmit(c, t, e);
      && u.dues == (if e.checked as real >= t.s.rolloverAt then t.dues + [t.s.rolloverAt] else t.dues)
      && |u.periods| - |t.periods| == |u.dues| - |t.dues|
      && (if e.checked as real >= t.s.rolloverAt then u.s.rolloverAt > e.rolled as real
          else u.s.rolloverAt == t.s.rolloverAt)
      && e.checked as real < u.s.rolloverAt
  {
    NextRolloverAhead(c.clock, e.rolled);
  }

  /** A file that is not regular is never rolled over. */
  lemma SpecialNeverRolls(c: Config, t: Tracked, e: Event)
    requires c.base in t.s.files && t.s.files[c.base].Special?
    ensures TrackedEmit(c, t, e).periods == t.periods && TrackedEmit(c, t, e).s.files == t.s.files
  {
  }

  /** The first rollover: after the interval, or at the least qualifying instant with the fraction of
      the file's time. */
  lemma FirstRolloverIs(c: Clock, t: real)
    requires ValidClock(c)
    ensures !Calendar(c) ==> FirstRollover(c, t) == t + Interval(c) as real
    ensures Calendar(c) ==>
      var x := FirstRollover(c, t).Floor;
      && FirstRollover(c, t) - x as real == t - t.Floor as real
      && Qualifies(c, x) && NotBefore(c, t.Floor, x)
      && forall y :: Qualifies(c, y) && NotBefore(c, t.Floor, y) ==> x <= y
  {
    assert FirstRollover(c, t).Floor == t.Floor + Wait(c, t.Floor);
    if Calendar(c) {
      ComputeRolloverIsLeast(c, t.Floor);
    }
  }

  lemma RunNext(c: Config, s: State, es: seq<Event>, k: nat)
    requires k < |es|
    ensures Run(c, s, es[..k + 1]) == TrackedEmit(c, Run(c, s, es[..k]), es[k])
  {
    SamePrefix(Emitting(c), Tracked(s, [], [], []), es[..k], es[..k + 1], k);
  }

  lemma {:induction false} SamePrefix<S, M>(step: (S, M) -> S, s: S, ms: seq<M>, ns: seq<M>, k: nat)
    requires k <= |ms| && k <= |ns| && ms[..k] == ns[..k]
    ensures Iterate(step, s, ms, k) == Iterate(step, s, ns, k)
  {
    if k > 0 {
      assert ms[..k - 1] == ms[..k][..k - 1] && ns[..k - 1] == ns[..k][..k - 1];
      assert ms[k - 1] == ms[..k][k - 1] && ns[k - 1] == ns[..k][k - 1];
      SamePrefix(step, s, ms, ns, k - 1);
    }
  }

  /** Over any run on such a file, event by event: a rollover exactly when the clock has reached
      `rollover_at`, and no line is written at or after the instant its file is due. */
  lemma RunRollsWhenDue(c: Config, s: State, es: seq<Event>, k: nat)
    requires ValidConfig(c) && Aligned(c, s) && Sane(c, s) && AllTimely(es) && k < |es|
    ensures var (t, u) := (Run(c, s, es[..k]), Run(c, s, es[..k + 1]));
      && (|u.periods| == |t.periods| + 1 <==> es[k].checked as real >= t.s.rolloverAt)
      && (u.periods == t.periods <==> es[k].checked as real < t.s.rolloverAt)
      && es[k].checked as real < u.s.rolloverAt
  {
    assert es[k] in es && forall e :: e in es[..k] ==> e in es;
    RunKeeps(c, s, es[..k]);
    RunNext(c, s, es, k);
    RollsWhenDue(c, Run(c, s, es[..k]), es[k]);
  }

  // ----- contents, over any run

  /** The backup of rollover `i` holds what was moved there, or has been pruned. */
  ghost predicate Holds(c: Config, t: Tracked, i: nat)
    requires |t.saved| == |t.periods| && i < |t.periods|
  {
    var f := Dated(c, t.periods[i]);
    (f in t.s.files || !c.pruning) ==> Lines(t.s.files, f) == t.saved[i]
  }

  ghost predicate AllHold(c: Config, t: Tracked) {
    |t.saved| == |t.periods| && forall i :: 0 <= i < |t.periods| ==> Holds(c, t, i)
  }

  /** The handler's file is regular or missing, and there if the stream is open. */
  ghost predicate Sane(c: Config, s: State) {
    (s.open ==> c.base in s.files) && (c.base in s.files ==> s.files[c.base].Regular?)
  }

  /** The invariant, over everything written to the handler's file so far. */
  ghost predicate Inv(c: Config, t: Tracked, h: seq<Line>) {
    Dates(c, t) && Sane(c, t.s) && AllHold(c, t) && Joined(t.saved) + Lines(t.s.files, c.base) == h
  }

  lemma ReadyKeeps(c: Config, t: Tracked, h: seq<Line>)
    requires Inv(c, t, h)
    ensures Inv(c, t.(s := Ready(c, t.s)), h) && Ready(c, t.s).open
  {
    var u := t.(s := Ready(c, t.s));
    forall i | 0 <= i < |t.periods|
      ensures Holds(c, u, i)
    {
      assert Holds(c, t, i);
    }
  }

  lemma WriteKeeps(c: Config, t: Tracked, h: seq<Line>, line: Line)
    requires Inv(c, t, h) && t.s.open
    ensures Inv(c, t.(s := t.s.(files := Written(t.s.files, c.base, line))), h + [line])
  {
    var f := t.s.files;
    assert Joined(t.saved) + (Lines(f, c.base) + [line]) == (Joined(t.saved) + Lines(f, c.base)) + [line];
    WriteHolds(c, t, t.(s := t.s.(files := Written(f, c.base, line))));
  }

  /** What changes the handler's file alone changes no backup. */
  lemma WriteHolds(c: Config, t: Tracked, u: Tracked)
    requires AllHold(c, t) && u.periods == t.periods && u.saved == t.saved
    requires forall f :: f != c.base ==> At(u.s.files, f) == At(t.s.files, f)
    ensures AllHold(c, u)
  {
    forall i | 0 <= i < |t.periods|
      ensures Holds(c, u, i)
    {
      assert Holds(c, t, i) && At(u.s.files, Dated(c, t.periods[i])) == At(t.s.files, Dated(c, t.periods[i]));
    }
  }

  /** The directory right after the renaming, and after pruning. */
  function Pruned(c: Config, s: State, e: Event): Files {
    var renamed := Renamed(s.files, c.base, Dated(c, BackupPeriod(c, s)));
    if c.pruning then renamed - e.victims else renamed
  }

  /** The renaming overwrites no backup of an earlier rollover. */
  lemma RenameHolds(c: Config, t: Tracked, e: Event, u: Tracked)
    requires ValidConfig(c) && Dates(c, t) && Sane(c, t.s) && AllHold(c, t)
    requires u == TrackedRollover(c, t, e).(s := State(Pruned(c, t.s, e), false, AfterRollover(c, t.s, e).rolloverAt))
    ensures AllHold(c, u)
  {
    var n, p0 := |t.periods|, BackupPeriod(c, t.s);
    forall i | 0 <= i < n + 1
      ensures Holds(c, u, i)
    {
      if i < n {
        assert Holds(c, t, i) && t.periods[i] in t.periods;
        if Dated(c, t.periods[i]) == Dated(c, p0) {
          DatedInjective(c, t.periods[i], p0);
        }
      }
    }
  }

  lemma RolloverKeeps(c: Config, t: Tracked, h: seq<Line>, e: Event)
    requires ValidConfig(c) && Inv(c, t, h) && IsDue(c, t.s, e.checked) && Timely(e)
    ensures Inv(c, TrackedRollover(c, t, e), h)
  {
    var u := TrackedRollover(c, t, e).(s := State(Pruned(c, t.s, e), false, AfterRollover(c, t.s, e).rolloverAt));
    RolloverDates(c, t, e);
    RenameHolds(c, t, e, u);
    assert u.saved[..|u.saved| - 1] == t.saved;
    assert Lines(u.s.files, c.base) == [] && Joined(u.saved) + [] == Joined(u.saved);
    assert Inv(c, u, h);
    ReadyKeeps(c, u, h);
  }

  lemma EmitKeeps(c: Config, t: Tracked, h: seq<Line>, e: Event)
    requires ValidConfig(c) && Inv(c, t, h) && Timely(e)
    ensures Inv(c, TrackedEmit(c, t, e), h + [e.line])
  {
    var u := t;
    if IsDue(c, t.s, e.checked) {
      RolloverKeeps(c, t, h, e);
      u := TrackedRollover(c, t, e);
    }
    ReadyKeeps(c, u, h);
    WriteKeeps(c, u.(s := Ready(c, u.s)), h, e.line);
  }

  lemma EmittedNext(h: seq<Line>, es: seq<Event>, i: nat)
    requires i < |es|
    ensures h + Emitted(es[..i + 1]) == (h + Emitted(es[..i])) + [es[i].line]
  {
    assert es[..i + 1][..i] == es[..i];
  }

  /** The invariant after `i` events, over the lines `h` that were there at the start. */
  ghost predicate RunInv(c: Config, h: seq<Line>, es: seq<Event>, t: Tracked, i: nat) {
    i <= |es| && Inv(c, t, h + Emitted(es[..i]))
  }

  lemma RunStep(c: Config, h: seq<Line>, es: seq<Event>, t: Tracked, i: nat)
    requires ValidConfig(c) && i < |es| && AllTimely(es) && RunInv(c, h, es, t, i)
    ensures RunInv(c, h, es, TrackedEmit(c, t, es[i]), i + 1)
  {
    assert es[i] in es;
    EmitKeeps(c, t, h + Emitted(es[..i]), es[i]);
    EmittedNext(h, es, i);
  }

  lemma RunStarts(c: Config, s: State, es: seq<Event>)
    requires Aligned(c, s) && Sane(c, s)
    ensures RunInv(c, Lines(s.files, c.base), es, Tracked(s, [], [], []), 0)
  {
    var h := Lines(s.files, c.base);
    assert es[..0] == [] && h + [] == h && [] + h == h;
  }

  lemma RunKeeps(c: Config, s: State, es: seq<Event>)
    requires ValidConfig(c) && Aligned(c, s) && Sane(c, s) && AllTimely(es)
    ensures Inv(c, Run(c, s, es), Lines(s.files, c.base) + Emitted(es))
  {
    var h := Lines(s.files, c.base);
    var inv := (t: Tracked, i: nat) => RunInv(c, h, es, t, i);
    forall t: Tracked, i: nat | i < |es| && inv(t, i)
      ensures inv(Emitting(c)(t, es[i]), i + 1)
    {
      RunStep(c, h, es, t, i);
    }
    RunStarts(c, s, es);
    IterateKeeps(Emitting(c), Tracked(s, [], [], []), es, |es|, inv);
    assert es[..|es|] == es;
  }

  /** Over any run, on any directory, pruning or not: what was in the file and everything emitted falls
      into consecutive stretches, one per rollover, and the current file; and a backup of the handler
      that is still on disk holds exactly its stretch, so no later rollover has overwritten it. */
  lemma BackupsHoldTheirLines(c: Config, s: State, es: seq<Event>)
    requires ValidConfig(c) && Aligned(c, s) && Sane(c, s) && AllTimely(es)
    ensures var t := Run(c, s, es);
      && Joined(t.saved) + Lines(t.s.files, c.base) == Lines(s.files, c.base) + Emitted(es)
      && |t.saved| == |t.periods|
      && forall i :: 0 <= i < |t.periods| && Dated(c, t.periods[i]) in t.s.files ==>
           Lines(t.s.files, Dated(c, t.periods[i])) == t.saved[i]
  {
    RunKeeps(c, s, es);
    var t := Run(c, s, es);
    forall i | 0 <= i < |t.periods| && Dated(c, t.periods[i]) in t.s.files
      ensures Lines(t.s.files, Dated(c, t.periods[i])) == t.saved[i]
    {
      assert Holds(c, t, i);
    }
  }

  /** The dated backups in the order they were made. */
  function Backups(c: Config, files: Files, periods: seq<int>): seq<Line> {
    if periods == [] then []
    else Backups(c, files, periods[..|periods| - 1]) + Lines(files, Dated(c, periods[|periods| - 1]))
  }

  lemma {:induction false} BackupsAreSaved(c: Config, t: Tracked, k: nat)
    requires !c.pruning && AllHold(c, t) && k <= |t.periods|
    ensures Backups(c, t.s.files, t.periods[..k]) == Joined(t.saved[..k])
  {
    if k > 0 {
      BackupsAreSaved(c, t, k - 1);
      assert Holds(c, t, k - 1);
      assert t.periods[..k][..k - 1] == t.periods[..k - 1] && t.saved[..k][..k - 1] == t.saved[..k - 1];
    }
  }

  /** Without pruning nothing is lost either: the backups a handler has made, in the order of their
      periods, and then the current file read as what was there and everything emitted since. */
  lemma RunLosesNothing(c: Config, s: State, es: seq<Event>)
    requires ValidConfig(c) && !c.pruning && Aligned(c, s) && Sane(c, s) && AllTimely(es)
    ensures var t := Run(c, s, es);
      Backups(c, t.s.files, t.periods) + Lines(t.s.files, c.base) == Lines(s.files, c.base) + Emitted(es)
  {
    RunKeeps(c, s, es);
    var t := Run(c, s, es);
    BackupsAreSaved(c, t, |t.periods|);
    assert t.periods[..|t.periods|] == t.periods && t.saved[..|t.saved|] == t.saved;
  }

  /** A handler as the constructor leaves it, on a directory where its file is regular or missing,
      is in the scope of these theorems. */
  lemma CreatedIsInScope(c: Config, files: Files, mtime: real, now: int)
    requires ValidConfig(c) && (c.base in files ==> files[c.base].Regular?)
    ensures Aligned(c, Created(c, files, mtime, now)) && Sane(c, Created(c, files, mtime, now))
  {
    var s := Created(c, files, mtime, now);
    FirstIsAligned(c, s, if c.base in s.files then mtime else now as real);
  }
}
