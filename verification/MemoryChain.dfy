/** Chains of buffering handlers: each holds records back from its target until it is full, a severe
    record arrives, or it is closed. */
module MemoryChain {
  datatype Record = Record(id: nat, levelno: int)

  /** A handler with everything it passes records to; `Unset` is a missing target. */
  datatype Chain =
    | Unset
    | Sink(output: seq<Record>)
    | Memory(capacity: int, flushLevel: int, flushOnClose: bool, buffer: seq<Record>, target: Chain)

  function Depth(c: Chain): nat {
    if c.Memory? then 1 + Depth(c.target) else 0
  }

  /** `handle`: a sink keeps the record, a memory handler buffers it and may flush. */
  function Handle(c: Chain, r: Record): (d: Chain)
    ensures Depth(d) == Depth(c)
    decreases Depth(c), 1, 0
  {
    match c
    case Unset => Unset
    case Sink(output) => Sink(output + [r])
    case Memory(capacity, flushLevel, _, buffer, target) =>
      var held := c.(buffer := buffer + [r]);
      if |held.buffer| >= capacity || r.levelno >= flushLevel then Flushed(held) else held
  }

  /** `flush`: with a target, the buffer goes to it and is cleared; without one nothing happens. */
  function Flushed(c: Chain): (d: Chain)
    requires c.Memory?
    ensures d.Memory? && Depth(d) == Depth(c)
    decreases Depth(c), 0, 0
  {
    if c.target.Unset? then c else c.(buffer := [], target := HandleAll(c.target, c.buffer))
  }

  function HandleAll(c: Chain, rs: seq<Record>): (d: Chain)
    ensures Depth(d) == Depth(c)
    decreases Depth(c), 2, |rs|
  {
    if rs == [] then c else Handle(HandleAll(c, rs[..|rs| - 1]), rs[|rs| - 1])
  }

  /** The chain ends in a sink. */
  predicate Attached(c: Chain) {
    match c
    case Unset => false
    case Sink(_) => true
    case Memory(_, _, _, _, target) => Attached(target)
  }

  /** Every record that entered the chain: the output, then the buffers from deepest to outermost. */
  function Total(c: Chain): seq<Record> {
    match c
    case Unset => []
    case Sink(output) => output
    case Memory(_, _, _, buffer, target) => Total(target) + buffer
  }

  /** A buffer below its capacity; a capacity below 1 leaves it empty. */
  predicate Small(c: Chain) {
    c.Memory? ==> (|c.buffer| < c.capacity || c.buffer == []) && Small(c.target)
  }

  /** The same handlers with the same settings. */
  predicate SameSettings(c: Chain, d: Chain) {
    match c
    case Unset => d.Unset?
    case Sink(_) => d.Sink?
    case Memory(capacity, flushLevel, flushOnClose, _, target) =>
      d.Memory? && d.capacity == capacity && d.flushLevel == flushLevel && d.flushOnClose == flushOnClose &&
      SameSettings(target, d.target)
  }

  lemma {:induction false} SettingsTransitive(a: Chain, b: Chain, c: Chain)
    requires SameSettings(a, b) && SameSettings(b, c)
    ensures SameSettings(a, c)
  {
    if a.Memory? {
      SettingsTransitive(a.target, b.target, c.target);
    }
  }

  lemma {:induction false} SettingsReflexive(a: Chain)
    ensures SameSettings(a, a)
  {
    if a.Memory? {
      SettingsReflexive(a.target);
    }
  }

  lemma {:induction false} SettingsAttached(a: Chain, b: Chain)
    requires SameSettings(a, b)
    ensures Attached(a) == Attached(b)
  {
    if a.Memory? {
      SettingsAttached(a.target, b.target);
    }
  }

  /** One record through a chain of any length, ending in a sink or in a handler without a target:
      nothing is lost, duplicated or reordered. */
  lemma {:induction false} HandleConserves(c: Chain, r: Record)
    requires !c.Unset?
    ensures Total(Handle(c, r)) == Total(c) + [r] && SameSettings(c, Handle(c, r))
    decreases Depth(c), 1, 0
  {
    if c.Memory? {
      var held := c.(buffer := c.buffer + [r]);
      SettingsReflexive(c.target);
      assert Total(c.target) + (c.buffer + [r]) == (Total(c.target) + c.buffer) + [r];
      if |held.buffer| >= c.capacity || r.levelno >= c.flushLevel {
        FlushConserves(held);
      }
    }
  }

  lemma {:induction false} FlushConserves(c: Chain)
    requires c.Memory?
    ensures Total(Flushed(c)) == Total(c) && SameSettings(c, Flushed(c))
    ensures !c.target.Unset? ==> Flushed(c).buffer == []
    decreases Depth(c), 0, 0
  {
    if c.target.Unset? {
      SettingsReflexive(c);
    } else {
      HandleAllConserves(c.target, c.buffer);
      assert Total(Flushed(c).target) + [] == Total(Flushed(c).target);
    }
  }

  lemma {:induction false} HandleAllConserves(c: Chain, rs: seq<Record>)
    requires !c.Unset?
    ensures Total(HandleAll(c, rs)) == Total(c) + rs && SameSettings(c, HandleAll(c, rs))
    decreases Depth(c), 2, |rs|
  {
    if rs == [] {
      SettingsReflexive(c);
      assert Total(c) + [] == Total(c);
    } else {
      var front, last := rs[..|rs| - 1], rs[|rs| - 1];
      HandleAllConserves(c, front);
      HandleConserves(HandleAll(c, front), last);
      SettingsTransitive(c, HandleAll(c, front), HandleAll(c, rs));
      assert front + [last] == rs;
      assert Total(c) + rs == (Total(c) + front) + [last];
    }
  }

  /** With a target, a record empties the buffer exactly if it fills it or is severe, and then the target
      has got the old buffer and the record; otherwise the record waits and the target is untouched. */
  lemma FlushesExactly(c: Chain, r: Record)
    requires c.Memory? && !c.target.Unset?
    ensures var (d, full) := (Handle(c, r), |c.buffer| + 1 >= c.capacity || r.levelno >= c.flushLevel);
      && d.Memory? && (d.buffer == [] <==> full)
      && (full ==> Total(d.target) == Total(c.target) + c.buffer + [r])
      && (!full ==> d.buffer == c.buffer + [r] && d.target == c.target)
  {
    HandleAllConserves(c.target, c.buffer + [r]);
    assert Total(c.target) + (c.buffer + [r]) == Total(c.target) + c.buffer + [r];
  }

  /** No buffer holds a record at or above its handler's flush level. */
  ghost predicate Mild(c: Chain) {
    c.Memory? ==> (forall r :: r in c.buffer ==> r.levelno < c.flushLevel) && Mild(c.target)
  }

  lemma {:induction false} HandleKeepsMild(c: Chain, r: Record)
    requires Attached(c) && Mild(c)
    ensures Mild(Handle(c, r))
    decreases Depth(c), 1, 0
  {
    if c.Memory? {
      var held := c.(buffer := c.buffer + [r]);
      if |held.buffer| >= c.capacity || r.levelno >= c.flushLevel {
        HandleAllKeepsMild(c.target, held.buffer);
      }
    }
  }

  lemma {:induction false} HandleAllKeepsMild(c: Chain, rs: seq<Record>)
    requires Attached(c) && Mild(c)
    ensures Mild(HandleAll(c, rs))
    decreases Depth(c), 2, |rs|
  {
    if rs != [] {
      var front := rs[..|rs| - 1];
      HandleAllKeepsMild(c, front);
      HandleAllConserves(c, front);
      SettingsAttached(c, HandleAll(c, front));
      HandleKeepsMild(HandleAll(c, front), rs[|rs| - 1]);
    }
  }

  lemma {:induction false} EmptyMild(c: Chain)
    requires Empty(c)
    ensures Mild(c)
  {
    if c.Memory? {
      EmptyMild(c.target);
    }
  }

  /** Over any run through an attached chain no severe record ever waits in a buffer. */
  lemma SevereNeverWaits(c: Chain, rs: seq<Record>)
    requires Attached(c) && Empty(c)
    ensures Mild(HandleAll(c, rs))
  {
    EmptyMild(c);
    HandleAllKeepsMild(c, rs);
  }

  /** The record is severe for every handler of the chain. */
  ghost predicate Severe(c: Chain, r: Record) {
    c.Memory? ==> r.levelno >= c.flushLevel && Severe(c.target, r)
  }

  lemma {:induction false} SettingsSevere(a: Chain, b: Chain, r: Record)
    requires SameSettings(a, b)
    ensures Severe(a, r) == Severe(b, r)
  {
    if a.Memory? {
      SettingsSevere(a.target, b.target, r);
    }
  }

  ghost predicate NothingWaits(c: Chain) {
    c.Memory? ==> c.buffer == [] && NothingWaits(c.target)
  }

  /** A record that is severe for all of them leaves nothing waiting anywhere: it and everything before
      it have been delivered. */
  lemma {:induction false} SevereDeliversAll(c: Chain, r: Record)
    requires Attached(c) && Severe(c, r)
    ensures NothingWaits(Handle(c, r)) && Total(Handle(c, r)) == Total(c) + [r]
    decreases Depth(c)
  {
    HandleConserves(c, r);
    if c.Memory? {
      var rs := c.buffer + [r];
      assert rs[..|rs| - 1] == c.buffer;
      var d := HandleAll(c.target, c.buffer);
      HandleAllConserves(c.target, c.buffer);
      SettingsAttached(c.target, d);
      SettingsSevere(c.target, d, r);
      SevereDeliversAll(d, r);
      assert Handle(c, r).target == HandleAll(c.target, rs) == Handle(d, r);
    }
  }

  /** After every record each buffer is below its capacity again. */
  lemma {:induction false} HandleKeepsSmall(c: Chain, r: Record)
    requires Attached(c) && Small(c)
    ensures Small(Handle(c, r))
    decreases Depth(c), 1, 0
  {
    if c.Memory? {
      var held := c.(buffer := c.buffer + [r]);
      if |held.buffer| >= c.capacity || r.levelno >= c.flushLevel {
        HandleAllKeepsSmall(c.target, held.buffer);
      }
    }
  }

  lemma {:induction false} HandleAllKeepsSmall(c: Chain, rs: seq<Record>)
    requires Attached(c) && Small(c)
    ensures Small(HandleAll(c, rs))
    decreases Depth(c), 2, |rs|
  {
    if rs != [] {
      var front := rs[..|rs| - 1];
      HandleAllKeepsSmall(c, front);
      HandleAllConserves(c, front);
      SettingsAttached(c, HandleAll(c, front));
      HandleKeepsSmall(HandleAll(c, front), rs[|rs| - 1]);
    }
  }

  /** A chain as it is built: nothing buffered, nothing delivered. */
  predicate Empty(c: Chain) {
    match c
    case Unset => true
    case Sink(output) => output == []
    case Memory(_, _, _, buffer, target) => buffer == [] && Empty(target)
  }

  lemma {:induction false} EmptyTotal(c: Chain)
    requires Empty(c)
    ensures Total(c) == [] && Small(c)
  {
    if c.Memory? {
      EmptyTotal(c.target);
    }
  }

  /** Any records through any chain: output and buffers, deepest first, are what was emitted; and if
      the chain ends in a sink each buffer stays below its capacity. */
  lemma EmittedIsConserved(c: Chain, rs: seq<Record>)
    requires !c.Unset? && Empty(c)
    ensures Total(HandleAll(c, rs)) == rs && (Attached(c) ==> Small(HandleAll(c, rs)) && Attached(HandleAll(c, rs)))
  {
    EmptyTotal(c);
    HandleAllConserves(c, rs);
    if Attached(c) {
      HandleAllKeepsSmall(c, rs);
      SettingsAttached(c, HandleAll(c, rs));
    }
    assert [] + rs == rs;
  }

  // ----- closing

  /** `close`: flush if so configured, then drop the target; the buffer itself is not cleared. */
  function Closed(c: Chain): Chain
    requires c.Memory?
  {
    var d := if c.flushOnClose then Flushed(c) else c;
    d.(target := Unset)
  }

  /** What `close` passes on: the former target after it. */
  function TargetAfterClose(c: Chain): Chain
    requires c.Memory?
  {
    (if c.flushOnClose then Flushed(c) else c).target
  }

  /** Closing one handler delivers its buffer exactly if it flushes on close or has nothing to flush. */
  lemma CloseDelivers(c: Chain)
    requires c.Memory? && Attached(c)
    ensures Total(TargetAfterClose(c)) == Total(c) <==> c.flushOnClose || c.buffer == []
    ensures Total(TargetAfterClose(c)) + Closed(c).buffer == Total(c)
    ensures Attached(TargetAfterClose(c)) && SameSettings(c.target, TargetAfterClose(c))
    ensures Closed(c).Memory? && Closed(c).target.Unset?
  {
    SettingsReflexive(c.target);
    if c.flushOnClose {
      FlushConserves(c);
      SettingsAttached(c, Flushed(c));
      assert Total(Flushed(c).target) + [] == Total(Flushed(c).target);
    } else {
      assert |Total(c)| == |Total(c.target)| + |c.buffer|;
      assert Total(c.target) + [] == Total(c.target);
    }
  }

  /** The sink's output once the handlers have been closed from outermost to deepest. */
  function CloseAll(c: Chain): (d: Chain)
    decreases Depth(c)
  {
    if c.Memory? then
      var t := TargetAfterClose(c);
      assert c.flushOnClose ==> Depth(Flushed(c)) == Depth(c);
      CloseAll(t)
    else c
  }

  predicate AllFlush(c: Chain) {
    c.Memory? ==> c.flushOnClose && AllFlush(c.target)
  }

  lemma {:induction false} SettingsAllFlush(a: Chain, b: Chain)
    requires SameSettings(a, b)
    ensures AllFlush(a) == AllFlush(b)
  {
    if a.Memory? {
      SettingsAllFlush(a.target, b.target);
    }
  }

  /** Closing from outermost to deepest with flushOnClose everywhere delivers everything to the sink. */
  lemma {:induction false} CloseAllDelivers(c: Chain)
    requires Attached(c) && AllFlush(c)
    ensures CloseAll(c).Sink? && CloseAll(c).output == Total(c)
    decreases Depth(c)
  {
    if c.Memory? {
      CloseDelivers(c);
      SettingsAllFlush(c.target, TargetAfterClose(c));
      assert Depth(TargetAfterClose(c)) < Depth(c) by {
        assert Depth(Flushed(c)) == Depth(c);
      }
      CloseAllDelivers(TargetAfterClose(c));
    }
  }

  // ----- chains that end without a target

  lemma UnsetTargetAppends(c: Chain, r: Record)
    requires c.Memory? && c.target.Unset?
    ensures Handle(c, r) == c.(buffer := c.buffer + [r])
  {}

  /** Without a target a memory handler keeps every record of a run, capacity or not, also through
      `close`. */
  lemma {:induction false} UnsetTargetOnlyBuffers(c: Chain, rs: seq<Record>)
    requires c.Memory? && c.target.Unset?
    ensures HandleAll(c, rs) == c.(buffer := c.buffer + rs) && Closed(HandleAll(c, rs)) == HandleAll(c, rs)
    decreases |rs|
  {
    if rs == [] {
      assert c.buffer + [] == c.buffer;
    } else {
      var front, last := rs[..|rs| - 1], rs[|rs| - 1];
      UnsetTargetOnlyBuffers(c, front);
      var d := c.(buffer := c.buffer + front);
      UnsetTargetAppends(d, last);
      assert HandleAll(c, rs) == Handle(d, last);
      assert c.buffer + rs == d.buffer + [last];
    }
  }

  /** What small buffers can hold at most. */
  function Room(c: Chain): nat {
    if c.Memory? then Room(c.target) + (if c.capacity > 0 then c.capacity else 0) else 0
  }

  lemma {:induction false} SmallHoldsLittle(c: Chain)
    requires Small(c) && !Attached(c)
    ensures |Total(c)| <= Room(c)
  {
    if c.Memory? {
      SmallHoldsLittle(c.target);
    }
  }

  lemma {:induction false} SettingsRoom(a: Chain, b: Chain)
    requires SameSettings(a, b)
    ensures Room(a) == Room(b)
  {
    if a.Memory? {
      SettingsRoom(a.target, b.target);
    }
  }

  /** More records than a chain without a sink has room for. */
  lemma UnattachedOverflows(c: Chain, rs: seq<Record>)
    requires c.Memory? && !Attached(c) && |rs| > Room(c)
    ensures !Small(HandleAll(c, rs))
  {
    var d := HandleAll(c, rs);
    HandleAllConserves(c, rs);
    SettingsAttached(c, d);
    SettingsRoom(c, d);
    if Small(d) {
      SmallHoldsLittle(d);
    }
  }

  /** Every run keeps the buffers below their capacities exactly if the chain ends in a sink. */
  lemma SmallExactlyIfAttached(c: Chain)
    requires c.Memory? && Small(c)
    ensures (forall rs :: Small(HandleAll(c, rs))) <==> Attached(c)
  {
    if Attached(c) {
      forall rs
        ensures Small(HandleAll(c, rs))
      {
        HandleAllKeepsSmall(c, rs);
      }
    } else {
      var rs := seq(Room(c) + 1, _ => Record(0, 0));
      UnattachedOverflows(c, rs);
    }
  }

  // ----- the handler objects

  class SinkHandler {
    var output: seq<Record>

    method Handle(r: Record)
      modifies this
      ensures output == old(output) + [r]
    {
      output := output + [r];
    }
  }

  datatype Target = NoTarget | ToMemory(memory: MemoryHandler) | ToSink(sink: SinkHandler)

  class MemoryHandler {
    var capacity: int
    var flushLevel: int
    var flushOnClose: bool
    var buffer: seq<Record>
    var target: Target
    ghost var Repr: set<object>

    ghost predicate Valid()
      reads this, Repr
      decreases Repr
    {
      && this in Repr
      && match target
         case NoTarget => true
         case ToSink(s) => s in Repr && (s as object) != this
         case ToMemory(h) => h in Repr && h.Repr <= Repr && this !in h.Repr && h.Valid()
    }

    /** The handler and what lies behind it, as a value. */
    ghost function View(): (c: Chain)
      requires Valid()
      reads this, Repr
      ensures c.Memory?
      decreases Repr, 1
    {
      Memory(capacity, flushLevel, flushOnClose, buffer, TargetView())
    }

    ghost function TargetView(): Chain
      requires Valid()
      reads this, Repr
      decreases Repr, 0
    {
      match target
      case NoTarget => Unset
      case ToSink(s) => Sink(s.output)
      case ToMemory(h) => h.View()
    }

    constructor (capacity: int, flushLevel: int, target: Target, flushOnClose: bool)
      requires target.ToMemory? ==> target.memory.Valid()
      ensures Valid() && this.target == target
      ensures View() == Memory(capacity, flushLevel, flushOnClose, [], TargetView())
      ensures Repr == {this} +
        match target case NoTarget => {} case ToSink(s) => {s as object} case ToMemory(h) => h.Repr
    {
      this.capacity, this.flushLevel, this.flushOnClose := capacity, flushLevel, flushOnClose;
      buffer := [];
      this.target := target;
      Repr := {this} + match target case NoTarget => {} case ToSink(s) => {s as object} case ToMemory(h) => h.Repr;
    }

    /** `emit`, which `handle` reaches under the handler's lock. */
    method Emit(r: Record)
      requires Valid()
      modifies Repr
      ensures Valid() && Repr == old(Repr) && View() == Handle(old(View()), r)
      ensures var full := |old(buffer)| + 1 >= capacity || r.levelno >= flushLevel;
        buffer == if full && !target.NoTarget? then [] else old(buffer) + [r]
      decreases Repr, 2
    {
      buffer := buffer + [r];
      if |buffer| >= capacity || r.levelno >= flushLevel {
        Flush();
      }
    }

    method Flush()
      requires Valid()
      modifies Repr
      ensures Valid() && Repr == old(Repr) && View() == Flushed(old(View()))
      ensures target == old(target) && (target.NoTarget? ==> unchanged(old(Repr)))
      decreases Repr, 1
    {
      if !target.NoTarget? {
        ghost var t0 := TargetView();
        var i := 0;
        while i < |buffer|
          invariant i <= |buffer| && Valid() && Repr == old(Repr)
          invariant capacity == old(capacity) && flushLevel == old(flushLevel) && flushOnClose == old(flushOnClose)
          invariant buffer == old(buffer) && target == old(target)
          invariant TargetView() == HandleAll(t0, buffer[..i])
        {
          HandleAllNext(t0, buffer, i);
          Pass(buffer[i]);
          i := i + 1;
        }
        assert buffer[..|buffer|] == buffer;
        buffer := [];
      }
    }

    /** `self.target.handle(record)`. */
    method Pass(r: Record)
      requires Valid() && !target.NoTarget?
      modifies Repr - {this}
      ensures Valid() && TargetView() == Handle(old(TargetView()), r)
      decreases Repr, 0
    {
      match target {
        case ToSink(s) => s.Handle(r);
        case ToMemory(h) => h.Emit(r);
      }
    }

    /** `close`: the target is dropped, and with it the chance to deliver what is still buffered. */
    method Close()
      requires Valid()
      modifies Repr
      ensures Valid() && Repr == old(Repr) && View() == Closed(old(View())) && target.NoTarget?
      ensures buffer == if flushOnClose && !old(target).NoTarget? then [] else old(buffer)
      ensures match old(target)
        case NoTarget => true
        case ToSink(s) => Sink(s.output) == TargetAfterClose(old(View()))
        case ToMemory(h) => h.Valid() && h.View() == TargetAfterClose(old(View()))
    {
      if flushOnClose {
        Flush();
      }
      label flushed:
      target := NoTarget;
      Flush();
    }
  }

  lemma HandleAllNext(c: Chain, rs: seq<Record>, i: nat)
    requires i < |rs|
    ensures HandleAll(c, rs[..i + 1]) == Handle(HandleAll(c, rs[..i]), rs[i])
  {
    assert rs[..i + 1][..i] == rs[..i];
  }
}
