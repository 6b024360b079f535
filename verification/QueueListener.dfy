/** The queue listener as a protocol: producers, the monitor thread and the thread that starts and
    stops it, interleaved step by step over an unbounded queue and handlers that do not raise. */
module QueueListener {
  import opened Selection

  datatype Record = Record(id: nat, levelno: int)

  datatype Item = Message(record: Record) | Sentinel

  /** Where the monitor thread is: not running, waiting for the queue, holding the sentinel, handing
      a record to handler `next`, or returned. */
  datatype Monitor = Absent | Waiting | HoldsSentinel | Handing(record: Record, next: nat) | Returned

  /** Where the caller of `stop` is: not in it, or waiting in `join`. */
  datatype Caller = Outside | Joining

  /** The handlers' levels, and whether the listener respects them. */
  datatype Config = Config(levels: seq<int>, respect: bool)

  /** `enqueued` is everything ever put on the queue, `received` what each handler was given. */
  datatype State = State(
    enqueued: seq<Item>, queue: seq<Item>, unfinished: int,
    monitor: Monitor, attached: bool, caller: Caller, received: seq<seq<Record>>)

  datatype Step =
    | Produce(record: Record)  // QueueHandler.emit on any thread
    | Start                    // start()
    | StopBegin                // stop(): enqueue_sentinel, then join
    | StopEnd                  // stop(): join has returned
    | MonitorStep              // the next step of the monitor thread
    | StrayStop                // stop() without a running listener: the sentinel stays behind

  function Initial(c: Config): State {
    State([], [], 0, Absent, false, Outside, seq(|c.levels|, _ => []))
  }

  predicate Processes(c: Config, h: nat, r: Record)
    requires h < |c.levels|
  {
    !c.respect || r.levelno >= c.levels[h]
  }

  predicate Enabled(c: Config, s: State, step: Step) {
    match step
    case Produce(_) => true
    case Start => !s.attached && s.caller.Outside?
    case StopBegin => s.attached && s.caller.Outside?
    case StopEnd => s.caller.Joining? && s.monitor.Returned?
    case MonitorStep =>
      (s.monitor.Waiting? && s.queue != []) || s.monitor.HoldsSentinel? ||
      (s.monitor.Handing? && |s.received| == |c.levels|)
    case StrayStop => !s.attached && s.caller.Outside?
  }

  function Put(s: State, item: Item): State {
    s.(enqueued := s.enqueued + [item], queue := s.queue + [item], unfinished := s.unfinished + 1)
  }

  /** The next step of `_monitor`: get, hand to the next handler, or mark the task done. */
  function MonitorNext(c: Config, s: State): State
    requires Enabled(c, s, MonitorStep)
  {
    match s.monitor
    case Waiting =>
      s.(queue := s.queue[1..],
         monitor := match s.queue[0] case Sentinel => HoldsSentinel case Message(r) => Handing(r, 0))
    case HoldsSentinel => s.(unfinished := s.unfinished - 1, monitor := Returned)
    case Handing(r, next) =>
      if next < |c.levels| then
        s.(received := if Processes(c, next, r) then s.received[next := s.received[next] + [r]] else s.received,
           monitor := Handing(r, next + 1))
      else s.(unfinished := s.unfinished - 1, monitor := Waiting)
  }

  function Next(c: Config, s: State, step: Step): State
    requires Enabled(c, s, step)
  {
    match step
    case Produce(r) => Put(s, Message(r))
    case Start => s.(attached := true, monitor := Waiting)
    case StopBegin => Put(s, Sentinel).(caller := Joining)
    case StopEnd => s.(caller := Outside, attached := false, monitor := Absent)
    case MonitorStep => MonitorNext(c, s)
    case StrayStop => Put(s, Sentinel)
  }

  // ----- what the queue history says

  function Messages(items: seq<Item>): seq<Record> {
    if items == [] then []
    else match items[|items| - 1]
      case Sentinel => Messages(items[..|items| - 1])
      case Message(r) => Messages(items[..|items| - 1]) + [r]
  }

  /** The records that handler `h` is to be given, in order. */
  function Accepted(c: Config, h: nat, rs: seq<Record>): seq<Record>
    requires h < |c.levels|
  {
    if rs == [] then []
    else
      var front := Accepted(c, h, rs[..|rs| - 1]);
      if Processes(c, h, rs[|rs| - 1]) then front + [rs[|rs| - 1]] else front
  }

  /** What has been taken off the queue. */
  function Taken(s: State): seq<Item>
    requires |s.queue| <= |s.enqueued|
  {
    s.enqueued[..|s.enqueued| - |s.queue|]
  }

  /** What has been taken and handed to handler `h`: all but the record in flight before its turn. */
  function HandedTo(s: State, h: nat): seq<Item>
    requires |s.queue| <= |s.enqueued|
  {
    var t := Taken(s);
    if s.monitor.Handing? && s.monitor.next <= h && t != [] then t[..|t| - 1] else t
  }

  /** The monitor has taken a sentinel and will take nothing more. */
  predicate Leaving(m: Monitor) {
    m.HoldsSentinel? || m.Returned?
  }

  /** The monitor holds the last item taken. */
  predicate HoldsLast(s: State)
    requires |s.queue| <= |s.enqueued|
  {
    var t := Taken(s);
    match s.monitor
    case Handing(r, next) => t != [] && t[|t| - 1] == Message(r)
    case HoldsSentinel => t != [] && t[|t| - 1] == Sentinel
    case Returned => t != [] && t[|t| - 1] == Sentinel
    case _ => true
  }

  function InFlight(m: Monitor): int {
    if m.Handing? || m.HoldsSentinel? then 1 else 0
  }

  ghost predicate Inv(c: Config, s: State) {
    && |s.received| == |c.levels|
    && |s.queue| <= |s.enqueued| && s.queue == s.enqueued[|s.enqueued| - |s.queue|..]
    && s.unfinished == |s.queue| + InFlight(s.monitor)
    && (s.monitor.Absent? <==> !s.attached) && (s.caller.Joining? ==> s.attached)
    && (s.monitor.Handing? ==> s.monitor.next <= |c.levels|)
    && HoldsLast(s) && (s.caller.Joining? && !Leaving(s.monitor) ==> Sentinel in s.queue)
    && forall h :: 0 <= h < |c.levels| ==> s.received[h] == Accepted(c, h, Messages(HandedTo(s, h)))
  }

  lemma InitialInv(c: Config)
    ensures Inv(c, Initial(c))
  {
  }

  lemma MessagesLast(items: seq<Item>, item: Item)
    ensures Messages(items + [item]) == Messages(items) + (if item.Message? then [item.record] else [])
  {
    assert (items + [item])[..|items|] == items;
    assert Messages(items) + [] == Messages(items);
  }

  lemma AcceptedLast(c: Config, h: nat, rs: seq<Record>, r: Record)
    requires h < |c.levels|
    ensures Accepted(c, h, rs + [r]) == Accepted(c, h, rs) + (if Processes(c, h, r) then [r] else [])
  {
    assert (rs + [r])[..|rs|] == rs;
    assert Accepted(c, h, rs) + [] == Accepted(c, h, rs);
  }

  lemma PutKeepsTaken(s: State, item: Item)
    requires |s.queue| <= |s.enqueued|
    ensures Taken(Put(s, item)) == Taken(s)
    ensures forall h :: HandedTo(Put(s, item), h) == HandedTo(s, h)
  {
  }

  lemma PutInv(c: Config, s: State, item: Item)
    requires Inv(c, s)
    ensures Inv(c, Put(s, item))
    ensures item.Sentinel? && s.attached ==> Inv(c, Put(s, item).(caller := Joining))
  {
    PutKeepsTaken(s, item);
    assert Taken(Put(s, item).(caller := Joining)) == Taken(s);
  }

  /** Taking the front of the queue. */
  lemma GetTakes(s: State)
    requires |s.queue| <= |s.enqueued| && s.queue == s.enqueued[|s.enqueued| - |s.queue|..] && s.queue != []
    ensures var t := s.(queue := s.queue[1..]);
      && Taken(t) == Taken(s) + [s.queue[0]] && Taken(t)[..|Taken(t)| - 1] == Taken(s)
      && t.queue == t.enqueued[|t.enqueued| - |t.queue|..]
  {
    assert s.queue == [s.queue[0]] + s.queue[1..];
  }

  lemma GetInv(c: Config, s: State)
    requires Inv(c, s) && s.monitor.Waiting? && s.queue != []
    ensures Inv(c, MonitorNext(c, s))
  {
    var t := MonitorNext(c, s);
    GetTakes(s);
    assert Taken(t) == Taken(s.(queue := s.queue[1..]));
    MessagesLast(Taken(s), s.queue[0]);
    assert Messages(Taken(s)) + [] == Messages(Taken(s));
    forall h | 0 <= h < |c.levels|
      ensures t.received[h] == Accepted(c, h, Messages(HandedTo(t, h)))
    {
      assert Messages(HandedTo(t, h)) == Messages(HandedTo(s, h));
    }
  }

  /** Before and after its turn, a handler has what was taken without and with the record in flight. */
  lemma HandOne(c: Config, s: State, k: nat)
    requires |s.queue| <= |s.enqueued| && HoldsLast(s) && s.monitor.Handing? && k < |c.levels|
    ensures var (all, r) := (Taken(s), s.monitor.record);
      all != [] && Accepted(c, k, Messages(all)) ==
        Accepted(c, k, Messages(all[..|all| - 1])) + (if Processes(c, k, r) then [r] else [])
  {
    var all, r := Taken(s), s.monitor.record;
    assert all == all[..|all| - 1] + [Message(r)];
    MessagesLast(all[..|all| - 1], Message(r));
    AcceptedLast(c, k, Messages(all[..|all| - 1]), r);
  }

  /** What handler `h` has once the next handler has had its turn. */
  lemma HandReceives(c: Config, s: State, h: nat)
    requires Inv(c, s) && s.monitor.Handing? && s.monitor.next < |c.levels| && h < |c.levels|
    ensures var t := MonitorNext(c, s);
      |t.received| == |c.levels| && t.received[h] == Accepted(c, h, Messages(HandedTo(t, h)))
  {
    var t, all := MonitorNext(c, s), Taken(s);
    assert Taken(t) == all;
    if h == s.monitor.next {
      HandOne(c, s, h);
      assert HandedTo(s, h) == all[..|all| - 1] && HandedTo(t, h) == all;
      assert s.received[h] + [] == s.received[h];
    } else {
      assert HandedTo(t, h) == HandedTo(s, h) && t.received[h] == s.received[h];
    }
  }

  /** Handing the record in flight to the next handler. */
  lemma HandInv(c: Config, s: State)
    requires Inv(c, s) && s.monitor.Handing? && s.monitor.next < |c.levels|
    ensures Inv(c, MonitorNext(c, s))
  {
    var t := MonitorNext(c, s);
    assert Taken(t) == Taken(s);
    forall h | 0 <= h < |c.levels|
      ensures t.received[h] == Accepted(c, h, Messages(HandedTo(t, h)))
    {
      HandReceives(c, s, h);
    }
  }

  lemma MonitorInv(c: Config, s: State)
    requires Inv(c, s) && Enabled(c, s, MonitorStep)
    ensures Inv(c, MonitorNext(c, s))
  {
    if s.monitor.Waiting? {
      GetInv(c, s);
    } else if s.monitor.Handing? && s.monitor.next < |c.levels| {
      HandInv(c, s);
    } else {
      assert Taken(MonitorNext(c, s)) == Taken(s);
    }
  }

  /** Every step keeps the invariant, in every interleaving, a stray `stop` included. */
  lemma StepInv(c: Config, s: State, step: Step)
    requires Inv(c, s) && Enabled(c, s, step)
    ensures Inv(c, Next(c, s, step))
  {
    match step
    case Produce(r) => PutInv(c, s, Message(r));
    case StopBegin => PutInv(c, s, Sentinel);
    case StrayStop => PutInv(c, s, Sentinel);
    case MonitorStep => MonitorInv(c, s);
    case Start => assert Taken(Next(c, s, step)) == Taken(s);
    case StopEnd => assert Taken(Next(c, s, step)) == Taken(s);
  }

  // ----- runs

  ghost predicate IsRun(c: Config, s: State, steps: seq<Step>, t: State)
    decreases |steps|
  {
    if steps == [] then t == s
    else Enabled(c, s, steps[0]) && IsRun(c, Next(c, s, steps[0]), steps[1..], t)
  }

  lemma {:induction false} RunInv(c: Config, s: State, steps: seq<Step>, t: State)
    requires Inv(c, s) && IsRun(c, s, steps, t)
    ensures Inv(c, t)
    decreases |steps|
  {
    if steps != [] {
      StepInv(c, s, steps[0]);
      RunInv(c, Next(c, s, steps[0]), steps[1..], t);
    }
  }

  /** The record in flight, if any. */
  function Flying(s: State): seq<Record> {
    if s.monitor.Handing? then [s.monitor.record] else []
  }

  lemma {:induction false} MessagesConcat(a: seq<Item>, b: seq<Item>)
    ensures Messages(a + b) == Messages(a) + Messages(b)
  {
    if b == [] {
      assert a + b == a;
    } else {
      assert (a + b)[..|a + b| - 1] == a + b[..|b| - 1];
      MessagesConcat(a, b[..|b| - 1]);
    }
  }

  /** What every handler that respects no levels has, plus the record in flight that it has not seen
      yet, plus the queue, is everything ever enqueued, in order; and a level only filters. */
  lemma NothingLostOrDuplicated(c: Config, steps: seq<Step>, s: State, h: nat)
    requires IsRun(c, Initial(c), steps, s) && h < |c.levels|
    ensures Inv(c, s)
    ensures var seen := Messages(HandedTo(s, h));
      && s.received[h] == Accepted(c, h, seen)
      && Messages(s.enqueued) ==
           seen + (if s.monitor.Handing? && s.monitor.next <= h then Flying(s) else []) + Messages(s.queue)
      && s.unfinished == |s.queue| + InFlight(s.monitor)
  {
    InitialInv(c);
    RunInv(c, Initial(c), steps, s);
    var t := Taken(s);
    assert s.enqueued == t + s.queue;
    MessagesConcat(t, s.queue);
    if s.monitor.Handing? && s.monitor.next <= h {
      assert t == t[..|t| - 1] + [t[|t| - 1]];
      MessagesLast(t[..|t| - 1], t[|t| - 1]);
    }
    assert Messages(t) + [] == Messages(t);
  }

  /** The records at `level` and above. */
  function LevelFrom(level: int): Record -> bool {
    (r: Record) => r.levelno >= level
  }

  function Itself(): Record -> Record {
    (r: Record) => r
  }

  lemma AcceptedNext(c: Config, h: nat, rs: seq<Record>, r: Record)
    requires h < |c.levels|
    ensures Accepted(c, h, rs + [r]) ==
      if !c.respect || r.levelno >= c.levels[h] then Accepted(c, h, rs) + [r] else Accepted(c, h, rs)
  {
    assert (rs + [r])[..|rs|] == rs;
  }

  lemma {:induction false} AcceptsAll(c: Config, h: nat, rs: seq<Record>)
    requires h < |c.levels| && !c.respect
    ensures Accepted(c, h, rs) == rs
  {
    if rs != [] {
      AcceptsAll(c, h, rs[..|rs| - 1]);
      assert rs == rs[..|rs| - 1] + [rs[|rs| - 1]];
    }
  }

  lemma AcceptsByLevel(c: Config, h: nat, rs: seq<Record>)
    requires h < |c.levels| && c.respect
    ensures Picks(rs, LevelFrom(c.levels[h]), Itself(), Accepted(c, h, rs))
  {
    var filter := (qs: seq<Record>) => Accepted(c, h, qs);
    forall qs: seq<Record>, r: Record
      ensures filter(qs + [r]) == if LevelFrom(c.levels[h])(r) then filter(qs) + [Itself()(r)] else filter(qs)
    {
      AcceptedNext(c, h, qs, r);
    }
    FilterPicks(rs, LevelFrom(c.levels[h]), Itself(), filter);
  }

  /** In any run, of the records handed to it a handler has all if levels are not respected, and else
      exactly those at its level and above, in order. */
  lemma ReceivedExactly(c: Config, steps: seq<Step>, s: State, h: nat)
    requires IsRun(c, Initial(c), steps, s) && h < |c.levels|
    ensures Inv(c, s)
    ensures !c.respect ==> s.received[h] == Messages(HandedTo(s, h))
    ensures c.respect ==> Picks(Messages(HandedTo(s, h)), LevelFrom(c.levels[h]), Itself(), s.received[h])
  {
    NothingLostOrDuplicated(c, steps, s, h);
    if c.respect {
      AcceptsByLevel(c, h, Messages(HandedTo(s, h)));
    } else {
      AcceptsAll(c, h, Messages(HandedTo(s, h)));
    }
  }

  // ----- stop returns

  /** How far ahead of the front of the queue the first sentinel is. */
  function UntilSentinel(q: seq<Item>): (n: nat)
    ensures n <= |q|
  {
    if q == [] || q[0].Sentinel? then 0 else 1 + UntilSentinel(q[1..])
  }

  lemma {:induction false} UntilSentinelIs(q: seq<Item>)
    ensures UntilSentinel(q) < |q| <==> Sentinel in q
  {
    if q != [] && !q[0].Sentinel? {
      UntilSentinelIs(q[1..]);
      assert q == [q[0]] + q[1..];
    }
  }

  /** Monitor steps left before a joining `stop` can return. */
  function Work(c: Config, s: State): nat {
    match s.monitor
    case Waiting => UntilSentinel(s.queue) * (|c.levels| + 2) + 2
    case HoldsSentinel => 1
    case Handing(_, next) =>
      UntilSentinel(s.queue) * (|c.levels| + 2) + 2 + (if next <= |c.levels| then |c.levels| - next + 1 else 0)
    case _ => 0
  }

  lemma {:induction false} UntilSentinelStable(q: seq<Item>, item: Item)
    requires Sentinel in q || item.Sentinel?
    ensures UntilSentinel(q + [item]) == UntilSentinel(q)
  {
    if q != [] && !q[0].Sentinel? {
      assert (q + [item])[1..] == q[1..] + [item];
      UntilSentinelStable(q[1..], item);
    }
  }

  /** While `stop` joins and the monitor has not returned, the monitor can step, each of its steps
      brings the return nearer, and no producer puts it off. */
  lemma StopProgresses(c: Config, s: State, r: Record)
    requires Inv(c, s) && s.caller.Joining? && !s.monitor.Returned?
    ensures Enabled(c, s, MonitorStep)
    ensures Work(c, MonitorNext(c, s)) < Work(c, s)
    ensures Work(c, Next(c, s, Produce(r))) == Work(c, s)
  {
    if !s.monitor.HoldsSentinel? {
      assert Sentinel in s.queue;
      UntilSentinelStable(s.queue, Message(r));
      if s.monitor.Waiting? {
        WaitingProgresses(c, s);
      }
    }
  }

  lemma WaitingProgresses(c: Config, s: State)
    requires Enabled(c, s, MonitorStep) && s.monitor.Waiting?
    ensures Work(c, MonitorNext(c, s)) < Work(c, s)
  {
    WorkUnit(UntilSentinel(s.queue[1..]), |c.levels| + 2);
  }

  lemma WorkUnit(k: nat, unit: nat)
    ensures (1 + k) * unit == k * unit + unit
  {
  }

  // ----- what stop drains

  /** How many items will have been taken when the monitor returns. */
  function LastTaken(s: State): int
  {
    |s.enqueued| - |s.queue| + if Leaving(s.monitor) then 0 else UntilSentinel(s.queue) + 1
  }

  /** What a `stop` called now would leave on the queue: everything behind the first sentinel, or
      everything if the monitor has already taken one. */
  function Behind(s: State): seq<Item> {
    if Leaving(s.monitor) then s.queue
    else s.queue[if UntilSentinel(s.queue) < |s.queue| then UntilSentinel(s.queue) + 1 else |s.queue|..]
  }

  predicate NoMessage(items: seq<Item>) {
    forall item :: item in items ==> item.Sentinel?
  }

  lemma {:induction false} MessagesNone(items: seq<Item>)
    ensures Messages(items) == [] <==> NoMessage(items)
  {
    if items != [] {
      var front, last := items[..|items| - 1], items[|items| - 1];
      assert items == front + [last];
      MessagesNone(front);
      MessagesLast(front, last);
      assert NoMessage(items) <==> NoMessage(front) && last.Sentinel?;
    }
  }

  /** While `stop` joins, neither producers nor the monitor move the place where the monitor returns. */
  lemma JoiningStep(c: Config, s: State, step: Step)
    requires Inv(c, s) && s.caller.Joining? && Enabled(c, s, step) && !step.StopEnd?
    ensures var t := Next(c, s, step);
      t.caller.Joining? && LastTaken(t) == LastTaken(s) && s.enqueued <= t.enqueued
  {
    if step.Produce? && !Leaving(s.monitor) {
      UntilSentinelStable(s.queue, Message(step.record));
    }
  }

  lemma {:induction false} JoiningRun(c: Config, s: State, steps: seq<Step>, t: State)
    requires Inv(c, s) && s.caller.Joining? && IsRun(c, s, steps, t) && StopEnd !in steps
    ensures t.caller.Joining? && LastTaken(t) == LastTaken(s) && s.enqueued <= t.enqueued
    decreases |steps|
  {
    if steps != [] {
      assert steps[0] in steps;
      JoiningStep(c, s, steps[0]);
      StepInv(c, s, steps[0]);
      JoiningRun(c, Next(c, s, steps[0]), steps[1..], t);
    }
  }

  /** Where a `stop` begun in `b` will find the monitor returned. */
  lemma BehindSplits(c: Config, b: State)
    requires Inv(c, b) && Enabled(c, b, StopBegin)
    ensures var n := LastTaken(Next(c, b, StopBegin));
      && 0 <= n <= |b.enqueued| + 1
      && if n <= |b.enqueued| then b.enqueued[n..] == Behind(b) else Behind(b) == []
  {
    if !Leaving(b.monitor) {
      UntilSentinelStable(b.queue, Sentinel);
    }
  }

  /** All messages up to `p`, when the first `n` items have been taken. */
  lemma MessagesSplit(items: seq<Item>, n: nat, p: nat)
    requires p < |items| && n <= p + 1 && items[p] == Sentinel
    ensures Messages(items[..p]) == Messages(items[..n]) + (if n <= p then Messages(items[n..p]) else [])
  {
    if n <= p {
      assert items[..p] == items[..n] + items[n..p];
      MessagesConcat(items[..n], items[n..p]);
    } else {
      assert items[..n] == items[..p] + [Sentinel];
      MessagesLast(items[..p], Sentinel);
      assert Messages(items[..p]) + [] == Messages(items[..p]);
    }
  }

  /** When a `stop` begun in `b` returns, in terms of the history. */
  lemma StopReaches(c: Config, before: seq<Step>, b: State, during: seq<Step>, s: State)
    requires IsRun(c, Initial(c), before, b) && Enabled(c, b, StopBegin)
    requires IsRun(c, Next(c, b, StopBegin), during, s) && StopEnd !in during && Enabled(c, s, StopEnd)
    ensures Inv(c, b) && Inv(c, s) && b.enqueued + [Sentinel] <= s.enqueued
    ensures |Taken(s)| == LastTaken(Next(c, b, StopBegin))
  {
    InitialInv(c);
    RunInv(c, Initial(c), before, b);
    StepInv(c, b, StopBegin);
    RunInv(c, Next(c, b, StopBegin), during, s);
    JoiningRun(c, Next(c, b, StopBegin), during, s);
  }

  /** What `stop` drains, in any run, stray calls included.  A `stop` begun in `b` puts its sentinel at
      position `|b.enqueued|` of the history.  When it returns, every handler has been given exactly
      what was taken, the rest is still queued and is all that is unfinished; and everything queued
      before the sentinel has been taken if and only if no message lay behind the first sentinel of
      the queue in `b`.  The messages that did are the ones left behind, in order. */
  lemma StopDrains(c: Config, before: seq<Step>, b: State, during: seq<Step>, s: State)
    requires IsRun(c, Initial(c), before, b) && Enabled(c, b, StopBegin)
    requires IsRun(c, Next(c, b, StopBegin), during, s) && StopEnd !in during && Enabled(c, s, StopEnd)
    ensures Inv(c, s) && b.enqueued + [Sentinel] <= s.enqueued
    ensures Delivered(c, s)
    ensures Messages(b.enqueued) == Messages(Taken(s)) + Messages(Behind(b))
    ensures Messages(Taken(s)) == Messages(b.enqueued) <==> NoMessage(Behind(b))
  {
    StopReaches(c, before, b, during, s);
    BehindSplits(c, b);
    HistorySplits(b.enqueued, s.enqueued, |Taken(s)|, Behind(b));
    MessagesNone(Behind(b));
  }

  /** After the `stop` that returns in `s`: what was taken has been delivered, the rest is queued. */
  ghost predicate Delivered(c: Config, s: State)
    requires Enabled(c, s, StopEnd) && Inv(c, s)
  {
    var t, taken := Next(c, s, StopEnd), Taken(s);
    && t.queue == s.enqueued[|taken|..] && t.unfinished == |t.queue|
    && forall h :: 0 <= h < |c.levels| ==> t.received[h] == Accepted(c, h, Messages(taken))
  }

  lemma HistorySplits(queued: seq<Item>, all: seq<Item>, n: nat, behind: seq<Item>)
    requires queued + [Sentinel] <= all && n <= |queued| + 1
    requires if n <= |queued| then queued[n..] == behind else behind == []
    ensures Messages(queued) == Messages(all[..n]) + Messages(behind)
  {
    var p := |queued|;
    assert all[..p + 1] == queued + [Sentinel];
    assert all[p] == all[..p + 1][p] && all[..p] == all[..p + 1][..p] == queued;
    MessagesSplit(all, n, p);
    if n <= p {
      assert all[n..p] == queued[n..];
    }
    assert Messages(all[..n]) + [] == Messages(all[..n]);
  }

  // ----- runs without stray stops

  ghost predicate Orderly(steps: seq<Step>) {
    StrayStop !in steps
  }

  function Sentinels(items: seq<Item>): nat {
    multiset(items)[Sentinel]
  }

  /** The sentinel of the `stop` in progress, and no other, is outstanding. */
  predicate SentinelsInOrder(s: State) {
    && Sentinels(s.queue) == (if s.caller.Joining? && !Leaving(s.monitor) then 1 else 0)
    && (Leaving(s.monitor) ==> s.caller.Joining?)
  }

  lemma SentinelsTail(q: seq<Item>)
    requires q != []
    ensures Sentinels(q) == Sentinels(q[1..]) + (if q[0].Sentinel? then 1 else 0)
  {
    assert q == [q[0]] + q[1..];
  }

  lemma SentinelsPut(q: seq<Item>, item: Item)
    ensures Sentinels(q + [item]) == Sentinels(q) + (if item.Sentinel? then 1 else 0)
  {
  }

  lemma OrderlyStep(c: Config, s: State, step: Step)
    requires Inv(c, s) && SentinelsInOrder(s) && Enabled(c, s, step) && !step.StrayStop?
    ensures SentinelsInOrder(Next(c, s, step))
  {
    match step
    case MonitorStep =>
      if s.monitor.Waiting? {
        SentinelsTail(s.queue);
      }
    case Produce(r) => SentinelsPut(s.queue, Message(r));
    case StopBegin => SentinelsPut(s.queue, Sentinel);
    case _ =>
  }

  lemma {:induction false} OrderlyRun(c: Config, s: State, steps: seq<Step>, t: State)
    requires Inv(c, s) && SentinelsInOrder(s) && IsRun(c, s, steps, t) && Orderly(steps)
    ensures SentinelsInOrder(t)
    decreases |steps|
  {
    if steps != [] {
      assert steps[0] in steps;
      OrderlyStep(c, s, steps[0]);
      StepInv(c, s, steps[0]);
      OrderlyRun(c, Next(c, s, steps[0]), steps[1..], t);
    }
  }

  lemma OrderlyStopLeavesNothing(c: Config, before: seq<Step>, b: State)
    requires IsRun(c, Initial(c), before, b) && Orderly(before) && Enabled(c, b, StopBegin)
    ensures Behind(b) == [] && LastTaken(Next(c, b, StopBegin)) == |b.enqueued| + 1
  {
    InitialInv(c);
    OrderlyRun(c, Initial(c), before, b);
    UntilSentinelIs(b.queue);
    UntilSentinelStable(b.queue, Sentinel);
  }

  /** If every `stop` so far met a running listener, this one drains: when it returns, everything
      queued before its sentinel has been given to every handler once and in order, and exactly what
      was queued after it is left. */
  lemma OrderlyStopDrains(c: Config, before: seq<Step>, b: State, during: seq<Step>, s: State, h: nat)
    requires IsRun(c, Initial(c), before, b) && Orderly(before) && Enabled(c, b, StopBegin)
    requires IsRun(c, Next(c, b, StopBegin), during, s) && StopEnd !in during && Enabled(c, s, StopEnd)
    requires h < |c.levels|
    ensures Inv(c, s) && b.enqueued + [Sentinel] <= s.enqueued
    ensures Next(c, s, StopEnd).received[h] == Accepted(c, h, Messages(b.enqueued))
    ensures Next(c, s, StopEnd).queue == s.enqueued[|b.enqueued| + 1..]
  {
    OrderlyStopLeavesNothing(c, before, b);
    StopDrains(c, before, b, during, s);
    StopReaches(c, before, b, during, s);
  }

  // ----- a stop that should not have been called

  /** A `stop` on a listener that is not running leaves its sentinel behind; the next listener
      returns at once, and the `stop` after that returns with a record unhandled. */
  lemma StrayStopStrandsRecords(r: Record)
    ensures var c := Config([0], false);
      exists steps, s ::
        && IsRun(c, Initial(c), steps, s) && Enabled(c, s, StopEnd)
        && s.enqueued == [Sentinel, Message(r), Sentinel] && s.received == [[]]
  {
    var c := Config([0], false);
    var s0 := Initial(c);
    var s1 := Next(c, s0, StrayStop);
    var s2 := Next(c, s1, Start);
    var s3 := Next(c, s2, MonitorStep);
    var s4 := Next(c, s3, MonitorStep);
    var s5 := Next(c, s4, Produce(r));
    var s6 := Next(c, s5, StopBegin);
    RunOf1(c, s5, StopBegin, [], s6);
    RunOf1(c, s4, Produce(r), [StopBegin], s6);
    RunOf1(c, s3, MonitorStep, [Produce(r), StopBegin], s6);
    RunOf1(c, s2, MonitorStep, [MonitorStep, Produce(r), StopBegin], s6);
    RunOf1(c, s1, Start, [MonitorStep, MonitorStep, Produce(r), StopBegin], s6);
    RunOf1(c, s0, StrayStop, [Start, MonitorStep, MonitorStep, Produce(r), StopBegin], s6);
  }

  lemma RunOf1(c: Config, s: State, step: Step, rest: seq<Step>, t: State)
    requires Enabled(c, s, step) && IsRun(c, Next(c, s, step), rest, t)
    ensures IsRun(c, s, [step] + rest, t)
  {
    assert ([step] + rest)[1..] == rest;
  }
}
