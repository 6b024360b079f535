/** The logger objects themselves: mutable, linked through `parent` and `children`, each method
    proved against the value-level functions of LoggerGraph and LoggerRegistry. */
module LoggerObjects {
  import opened Wrappers
  import opened LoggerGraph

  /** The argument of `setLevel`. */
  datatype LevelArg = IntLevel(n: int) | NamedLevel(s: string) | OtherArg

  datatype LevelError = ValueError | TypeError

  /** The table of level names; any other name is rejected. */
  function LevelByName(s: string): Option<Level> {
    if s == "DEBUG" then Some(DEBUG)
    else if s == "INFO" then Some(INFO)
    else if s == "WARNING" then Some(WARNING)
    else if s == "ERROR" then Some(ERROR)
    else if s == "CRITICAL" then Some(CRITICAL)
    else if s == "NOTSET" then Some(NOTSET)
    else None
  }

  /** A Python integer masked to an unsigned short. */
  function Masked(n: int): Level {
    n % LEVELS
  }

  function ArgLevel(arg: LevelArg): Result<Level, LevelError> {
    match arg
    case IntLevel(n) => Ok(Masked(n))
    case NamedLevel(s) => if LevelByName(s).Some? then Ok(LevelByName(s).value) else Err(ValueError)
    case OtherArg => Err(TypeError)
  }

  /** Accepted are integers, of which the lowest 16 bits count, and six names. */
  lemma ArgLevelExactly(arg: LevelArg, v: Level)
    ensures ArgLevel(arg) == Ok(v) <==>
      match arg
      case IntLevel(n) => exists high: int :: n == high * 65536 + v
      case NamedLevel(s) => (s, v as int) in
        {("DEBUG", 10), ("INFO", 20), ("WARNING", 30), ("ERROR", 40), ("CRITICAL", 50), ("NOTSET", 0)}
      case OtherArg => false
    ensures arg.NamedLevel? && ArgLevel(arg).Err? ==> ArgLevel(arg).error == ValueError
    ensures arg.OtherArg? ==> ArgLevel(arg) == Err(TypeError)
  {
    match arg {
      case IntLevel(n) => LowBits(n, v);
      case _ =>
    }
  }

  lemma LowBits(n: int, v: Level)
    ensures Masked(n) == v <==> exists high: int :: n == high * 65536 + v
  {
    assert n == n / 65536 * 65536 + n % 65536;
    if high: int :| n == high * 65536 + v {
      assert n % 65536 == v;
    }
  }

  class Logger {
    const name: string
    var level: Level
    var effectiveLevel: Level
    var enabledForDebug: bool
    var enabledForInfo: bool
    var enabledForWarning: bool
    var enabledForError: bool
    var enabledForCritical: bool
    var parent: Logger?
    var children: seq<Logger>
    var propagate: bool
    var disabled: bool
    var handlers: seq<Handler>

    /** The logger's fields as a value. */
    ghost function Record(): Rec<Logger>
      reads this
    {
      Rec(name, level, effectiveLevel,
          Flags(enabledForDebug, enabledForInfo, enabledForWarning, enabledForError, enabledForCritical),
          if parent == null then None else Some(parent), children, propagate, disabled, handlers)
    }

    /** `Logger(name, level)`: no parent yet, so the effective level is the logger's own. */
    constructor (name: string, level: Level)
      ensures Record() == Rec(name, level, level, EnabledFlags(level), None, [], true, false, [])
    {
      this.name := name;
      this.level := level;
      effectiveLevel := level;
      enabledForDebug, enabledForInfo, enabledForWarning := false, false, false;
      enabledForError, enabledForCritical := false, false;
      parent := null;
      children := [];
      propagate := true;
      disabled := false;
      handlers := [];
      new;
      SetEnabledBasedOnEffectiveLevel();
    }

    method FindEffectiveLevelFromParents(ghost root: Logger, ghost all: set<Logger>) returns (r: Level)
      requires this in all && Graph<Logger>(root, View(all))
      ensures r == Walk<Logger>(root, View(all), this)
    {
      var logger: Logger? := this;
      while logger != null
        invariant logger != null ==>
          logger in all && Walk<Logger>(root, View(all), logger) == Walk<Logger>(root, View(all), this)
        invariant logger == null ==> Walk<Logger>(root, View(all), this) == NOTSET
        decreases if logger == null then 0 else Rank<Logger>(root, View(all), logger) + 1
      {
        assert View(all)[logger] == logger.Record();
        if logger.level > 0 {
          return logger.level;
        }
        logger := logger.parent;
      }
      return NOTSET;
    }

    method SetEnabledBasedOnEffectiveLevel()
      modifies this
      ensures Record() == old(Record()).(flags := EnabledFlags(effectiveLevel))
    {
      enabledForDebug := false;
      enabledForInfo := false;
      enabledForWarning := false;
      enabledForError := false;
      enabledForCritical := false;
      var on := effectiveLevel == DEBUG;
      if on {
        enabledForDebug := true;
      }
      on := on || effectiveLevel == INFO;
      if on {
        enabledForInfo := true;
      }
      on := on || effectiveLevel == WARNING;
      if on {
        enabledForWarning := true;
      }
      on := on || effectiveLevel == ERROR;
      if on {
        enabledForError := true;
      }
      on := on || effectiveLevel == CRITICAL;
      if on {
        enabledForCritical := true;
      }
    }

    /** The recursive push: it overwrites exactly the loggers of `Reach`. */
    method SetEffectiveLevelOfChildren(newLevel: Level, ghost root: Logger, ghost all: set<Logger>)
      requires this in all && Graph<Logger>(root, View(all))
      modifies all
      ensures View(all) == Overwrite<Logger>(old(View(all)), Reach<Logger>(root, old(View(all)), this), newLevel)
      decreases Below<Logger>(root, View(all), this), 0
    {
      ghost var v0 := View(all);
      assert v0[this] == Record();
      OverwriteNone(v0, newLevel);
      var i := 0;
      while i < |children|
        invariant children == v0[this].children && i <= |children|
        invariant View(all) == Overwrite<Logger>(v0, ReachUpTo<Logger>(root, v0, this, i), newLevel)
        decreases |v0[this].children| - i
      {
        var child := children[i];
        ghost var done := ReachUpTo<Logger>(root, v0, this, i);
        ReachUpToNext(root, v0, this, i);
        PushSame(root, v0, View(all), child, done, newLevel);
        BelowShrinks<Logger>(root, v0, this, child);
        assert Below<Logger>(root, View(all), child) < Below<Logger>(root, v0, this);
        child.PushTo(newLevel, root, all);
        OverwriteMore(v0, done, Pushed(root, v0, child), newLevel);
        OverwriteShape(v0, done + Pushed(root, v0, child), newLevel);
        assert View(all)[this] == Record();
        i := i + 1;
      }
      assert Reach<Logger>(root, v0, this) == ReachUpTo<Logger>(root, v0, this, |v0[this].children|);
    }

    /** The body of the loop: an unset child takes the level and pushes it on. */
    method PushTo(newLevel: Level, ghost root: Logger, ghost all: set<Logger>)
      requires this in all && Graph<Logger>(root, View(all))
      modifies all
      ensures View(all) == Overwrite<Logger>(old(View(all)), Pushed(root, old(View(all)), this), newLevel)
      decreases Below<Logger>(root, View(all), this), 1
    {
      ghost var v0 := View(all);
      assert v0[this] == Record();
      OverwriteNone(v0, newLevel);
      if level == NOTSET {
        TakeLevel(newLevel, all);
        OverwriteOne(v0, v0, {}, this, newLevel);
        PushSame(root, v0, View(all), this, {this}, newLevel);
        SetEffectiveLevelOfChildren(newLevel, root, all);
        OverwriteMore(v0, {this}, Reach<Logger>(root, v0, this), newLevel);
      }
    }

    /** `setLevel(level)`: rejected arguments change nothing. */
    method SetLevel(arg: LevelArg, ghost root: Logger, ghost all: set<Logger>) returns (r: Result<(), LevelError>)
      requires this in all && Graph<Logger>(root, View(all))
      modifies all
      ensures match ArgLevel(arg)
        case Ok(v) => r == Ok(()) && View(all) == LoggerGraph.SetLevel<Logger>(root, old(View(all)), this, v)
        case Err(e) => r == Err(e) && View(all) == old(View(all))
    {
      match arg {
        case IntLevel(n) =>
          AcceptLevel(Masked(n), root, all);
        case NamedLevel(s) =>
          var byName := LevelByName(s);
          if byName == None {
            return Err(ValueError);
          }
          AcceptLevel(byName.value, root, all);
        case OtherArg =>
          return Err(TypeError);
      }
      return Ok(());
    }

    /** An accepted level: store it, cache it, push it down. */
    method AcceptLevel(v: Level, ghost root: Logger, ghost all: set<Logger>)
      requires this in all && Graph<Logger>(root, View(all))
      modifies all
      ensures View(all) == LoggerGraph.SetLevel<Logger>(root, old(View(all)), this, v)
    {
      ghost var v0 := View(all);
      LevelShape(root, v0, this, v);
      StoreLevel(v, all);
      ghost var v1 := v0[this := v0[this].(level := v)];
      PushSame(root, v1, View(all), this, {this}, v);
      SetEffectiveLevelOfChildren(v, root, all);
      OverwriteMore(v1, {this}, Reach<Logger>(root, v1, this), v);
    }

    /** The logger's own level and cache. */
    method StoreLevel(v: Level, ghost all: set<Logger>)
      requires this in all
      modifies this
      ensures View(all) == Overwrite<Logger>(old(View(all))[this := old(Record()).(level := v)], {this}, v)
    {
      ghost var v1 := View(all)[this := Record().(level := v)];
      level := v;
      assert View(all) == v1;
      TakeLevel(v, all);
      OverwriteThis(v1, this, v);
    }

    /** `parent = value`. */
    method SetParent(value: Logger, ghost root: Logger, ghost all: set<Logger>)
      requires this in all && value in all && Graph<Logger>(root, View(all)) &&
        Above<Logger>(root, View(all), value, this)
      modifies this, value
      ensures View(all) == LoggerGraph.SetParent<Logger>(root, old(View(all)), this, value)
    {
      ghost var v0 := View(all);
      LinkGraph<Logger>(root, v0, this, value);
      LinkTo(value, all);
      var found := FindEffectiveLevelFromParents(root, all);
      TakeLevel(found, all);
    }

    /** The link both ways, without the rescan. */
    method LinkTo(value: Logger, ghost all: set<Logger>)
      requires this in all && value in all && this != value
      modifies this, value
      ensures View(all) == Link<Logger>(old(View(all)), this, value)
    {
      ghost var v0 := View(all);
      parent := value;
      assert View(all) == v0[this := v0[this].(parent := Some(value))];
      value.AddChild(this, all);
    }

    /** Append to the children list unless already there. */
    method AddChild(child: Logger, ghost all: set<Logger>)
      requires this in all
      modifies this
      ensures View(all) == var v := old(View(all));
        if child in v[this].children then v else v[this := v[this].(children := v[this].children + [child])]
    {
      assert View(all)[this] == Record();
      if child !in children {
        children := children + [child];
      }
    }

    /** `isEnabledFor(level)`. */
    method IsEnabledFor(n: int) returns (r: bool)
      ensures r <==> !disabled && effectiveLevel <= Masked(n)
    {
      if disabled || Masked(n) < effectiveLevel {
        return false;
      }
      return true;
    }

    /** The gate of `debug()` to `critical()`. */
    predicate Gate(standard: Level)
      requires standard in {DEBUG, INFO, WARNING, ERROR, CRITICAL}
      reads this
    {
      !disabled &&
      FlagFor(Flags(enabledForDebug, enabledForInfo, enabledForWarning, enabledForError, enabledForCritical), standard)
    }

    /** `debug()` to `critical()`: where the record goes, or None if it is dropped at the gate. */
    method LogStandard(standard: Level, accepted: bool, ghost root: Logger, ghost all: set<Logger>)
      returns (r: Option<seq<Sink>>)
      requires standard in {DEBUG, INFO, WARNING, ERROR, CRITICAL}
      requires this in all && Graph<Logger>(root, View(all))
      ensures r.None? <==> disabled || !FlagFor(Record().flags, standard)
      ensures r.Some? ==> r.value == if accepted then Dispatch<Logger>(root, View(all), this, standard) else []
    {
      if !Gate(standard) {
        return None;
      }
      var sinks := LogAndHandle(standard, accepted, root, all);
      return Some(sinks);
    }

    /** `log(level, ...)`: gated by the effective level itself. */
    method Log(n: int, accepted: bool, ghost root: Logger, ghost all: set<Logger>) returns (r: Option<seq<Sink>>)
      requires this in all && Graph<Logger>(root, View(all))
      ensures r == if disabled || effectiveLevel > Masked(n) then None
                   else if !accepted then Some([]) else Some(Dispatch<Logger>(root, View(all), this, Masked(n)))
    {
      if disabled || effectiveLevel > Masked(n) {
        return None;
      }
      var sinks := LogAndHandle(Masked(n), accepted, root, all);
      return Some(sinks);
    }

    /** The dispatch loop; `accepted` is the verdict of the logger's filters on the record. */
    method LogAndHandle(levelno: Level, accepted: bool, ghost root: Logger, ghost all: set<Logger>)
      returns (sinks: seq<Sink>)
      requires this in all && Graph<Logger>(root, View(all))
      ensures sinks == if accepted then Dispatch<Logger>(root, View(all), this, levelno) else []
    {
      if !accepted {
        return [];
      }
      sinks := [];
      var found := 0;
      var cur := this;
      var hasParent := true;
      ghost var v, met, rest := View(all), [], OnPath<Logger>(root, View(all), this);
      while hasParent
        invariant cur in all && v == View(all)
        invariant OnPath<Logger>(root, v, this) == met + rest
        invariant rest == if hasParent then OnPath<Logger>(root, v, cur) else []
        invariant sinks == Admitted(met, levelno) && found == |met|
        decreases hasParent, Rank<Logger>(root, v, cur)
      {
        assert v[cur] == cur.Record();
        var here := cur.Offer(levelno);
        AdmittedAppend(met, cur.handlers, levelno);
        PathStep(root, v, cur, met);
        found, sinks := found + |cur.handlers|, sinks + here;
        met, rest := met + cur.handlers, Ahead(root, v, cur);
        if !cur.propagate || cur.parent == null {
          hasParent := false;
        } else {
          cur := cur.parent;
        }
      }
      assert met + [] == met;
      if found == 0 {
        sinks := [Fallback];
      }
    }

    /** The inner loop: this logger's own handlers, gated by their levels. */
    method Offer(levelno: Level) returns (sinks: seq<Sink>)
      ensures sinks == Admitted(handlers, levelno)
    {
      sinks := [];
      for i := 0 to |handlers|
        invariant sinks == Admitted(handlers[..i], levelno)
      {
        AdmittedAppend(handlers[..i], [handlers[i]], levelno);
        assert handlers[..i + 1] == handlers[..i] + [handlers[i]];
        if levelno >= handlers[i].level {
          sinks := sinks + [Attached(handlers[i])];
        }
      }
      assert handlers[..|handlers|] == handlers;
    }

    /** `effective_level = level` and the flags rescanned, on one logger of `all`. */
    method TakeLevel(newLevel: Level, ghost all: set<Logger>)
      requires this in all
      modifies this
      ensures View(all) ==
        old(View(all))[this := old(Record()).(effective := newLevel, flags := EnabledFlags(newLevel))]
    {
      effectiveLevel := newLevel;
      SetEnabledBasedOnEffectiveLevel();
    }
  }

  /** The fields of a set of loggers as a value. */
  ghost function View(all: set<Logger>): (v: map<Logger, Rec<Logger>>)
    reads all
    ensures v.Keys == all
  {
    map l | l in all :: l.Record()
  }

  /** What one turn of the push overwrites: an unset child and what it reaches. */
  ghost function Pushed(root: Logger, recs: map<Logger, Rec<Logger>>, c: Logger): set<Logger>
    requires Graph<Logger>(root, recs) && c in recs
  {
    if recs[c].level == NOTSET then {c} + Reach<Logger>(root, recs, c) else {}
  }

  lemma OverwriteNone(v0: map<Logger, Rec<Logger>>, level: Level)
    ensures Overwrite<Logger>(v0, {}, level) == v0
  {
  }

  lemma OverwriteShape(v0: map<Logger, Rec<Logger>>, xs: set<Logger>, level: Level)
    ensures SameShape<Logger>(v0, Overwrite<Logger>(v0, xs, level))
  {
  }

  lemma OverwriteOne(v0: map<Logger, Rec<Logger>>, v1: map<Logger, Rec<Logger>>, xs: set<Logger>, c: Logger,
          level: Level)
    requires v1 == Overwrite<Logger>(v0, xs, level) && c in v0
    ensures v1[c := v1[c].(effective := level, flags := EnabledFlags(level))] == Overwrite<Logger>(v0, xs + {c}, level)
  {
  }

  lemma OverwriteThis(v0: map<Logger, Rec<Logger>>, c: Logger, level: Level)
    requires c in v0
    ensures v0[c := v0[c].(effective := level, flags := EnabledFlags(level))] == Overwrite<Logger>(v0, {c}, level)
  {
  }

  lemma OverwriteMore(v0: map<Logger, Rec<Logger>>, xs: set<Logger>, ys: set<Logger>, level: Level)
    ensures Overwrite<Logger>(Overwrite<Logger>(v0, xs, level), ys, level) == Overwrite<Logger>(v0, xs + ys, level)
  {
  }

  /** Overwriting caches changes neither the shape nor what a push would reach. */
  lemma PushSame(root: Logger, v0: map<Logger, Rec<Logger>>, v1: map<Logger, Rec<Logger>>, c: Logger,
          xs: set<Logger>, level: Level)
    requires Graph<Logger>(root, v0) && c in v0 && v1 == Overwrite<Logger>(v0, xs, level)
    ensures SameShape<Logger>(v0, v1) && Graph<Logger>(root, v1)
    ensures Reach<Logger>(root, v1, c) == Reach<Logger>(root, v0, c) && Pushed(root, v1, c) == Pushed(root, v0, c)
    ensures Below<Logger>(root, v1, c) == Below<Logger>(root, v0, c)
  {
    SameShapeGraph<Logger>(root, v0, v1);
    ReachUpToSame<Logger>(root, v0, v1, c, |v0[c].children|);
    assert v1[c].name == v0[c].name;
    forall y | y in v0
      ensures Above<Logger>(root, v0, c, y) <==> Above<Logger>(root, v1, c, y)
    {
      assert v1[y].name == v0[y].name;
    }
  }

  lemma ReachUpToNext(root: Logger, v0: map<Logger, Rec<Logger>>, x: Logger, i: nat)
    requires Graph<Logger>(root, v0) && x in v0 && i < |v0[x].children|
    ensures var c := v0[x].children[i];
      c in v0 && Above<Logger>(root, v0, x, c) &&
      ReachUpTo<Logger>(root, v0, x, i + 1) ==
        ReachUpTo<Logger>(root, v0, x, i) + Pushed(root, v0, c)
  {
    var c := v0[x].children[i];
    assert c in v0[x].children;
    BelowShrinks<Logger>(root, v0, x, c);
  }

  /** A new level on `x` alone changes nothing that a push from `x` depends on. */
  lemma LevelShape(root: Logger, v0: map<Logger, Rec<Logger>>, x: Logger, level: Level)
    requires Graph<Logger>(root, v0) && x in v0
    ensures var v1 := v0[x := v0[x].(level := level)];
      && SameShape<Logger>(v0, v1) && Graph<Logger>(root, v1) &&
         Reach<Logger>(root, v1, x) == Reach<Logger>(root, v0, x)
  {
    var v1 := v0[x := v0[x].(level := level)];
    SameShapeGraph<Logger>(root, v0, v1);
    ReachUpToSame<Logger>(root, v0, v1, x, |v0[x].children|);
  }

  /** The path after one more logger has been met. */
  ghost function Ahead(root: Logger, v: map<Logger, Rec<Logger>>, c: Logger): seq<Handler>
    requires Graph<Logger>(root, v) && c in v
  {
    if !v[c].propagate || v[c].parent.None? then [] else OnPath<Logger>(root, v, v[c].parent.value)
  }

  lemma PathStep(root: Logger, v: map<Logger, Rec<Logger>>, c: Logger, met: seq<Handler>)
    requires Graph<Logger>(root, v) && c in v
    ensures met + OnPath<Logger>(root, v, c) == (met + v[c].handlers) + Ahead(root, v, c)
  {
    assert OnPath<Logger>(root, v, c) == v[c].handlers + Ahead(root, v, c);
  }
}
