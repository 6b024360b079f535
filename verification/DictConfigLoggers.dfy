/** The logger pass of a dictionary configuration, on the manager's own loggers. */
module DictConfigLoggers {
  import opened Wrappers
  import opened Names
  import opened LoggerGraph
  import opened LoggerObjects
  import opened LoggerManager
  import opened ExistingLoggers
  import R = LoggerRegistry
  import T = LoggerTree

  /** What the configuration says of a logger; handlers are given by name. */
  datatype LoggerConfig = LoggerConfig(level: Option<LevelArg>, handlers: seq<string>, propagate: Option<bool>)

  datatype Failure = BadLogger(name: string) | NotALogger(name: string)

  /** The settings of a logger that a configuration can change. */
  datatype Settings = Settings(level: Level, handlers: seq<Handler>, propagate: bool, disabled: bool)

  /** The settings of some loggers. */
  type Snapshot = map<Logger, Settings>

  type HandlerTable = map<string, Handler>

  /** The configured handlers by name, and the level names of the `logging` package: its own table,
      with WARN, FATAL and whatever has been added, not the one `Logger.setLevel` looks names up in. */
  datatype Env = Env(handlers: HandlerTable, levelNames: map<string, int>)

  /** `_checkLevel`. */
  function CheckLevel(env: Env, arg: LevelArg): Result<int, LevelError> {
    match arg
    case IntLevel(n) => Ok(n)
    case NamedLevel(s) => if s in env.levelNames then Ok(env.levelNames[s]) else Err(ValueError)
    case OtherArg => Err(TypeError)
  }

  function RecSettings(r: Rec<Logger>): Settings {
    Settings(r.level, r.handlers, r.propagate, r.disabled)
  }

  ghost function SettingsOf(l: Logger): Settings
    reads l
  {
    Settings(l.level, l.handlers, l.propagate, l.disabled)
  }

  /** The first `k` named handlers, each attached once; None if a name is unknown. */
  function Attached(table: HandlerTable, names: seq<string>, k: nat): Option<seq<Handler>>
    requires k <= |names|
  {
    if k == 0 then Some([])
    else
      match Attached(table, names, k - 1)
      case None => None
      case Some(hs) => if names[k - 1] in table then Some(R.Append(hs, table[names[k - 1]])) else None
  }

  /** The configuration can be carried out. */
  predicate Good(env: Env, c: LoggerConfig) {
    (c.level.Some? ==> CheckLevel(env, c.level.value).Ok?) && Attached(env.handlers, c.handlers, |c.handlers|).Some?
  }

  /** The settings of a configured logger: named handlers only, and enabled. */
  function Configured(env: Env, c: LoggerConfig, s: Settings): Settings {
    Settings(
      if c.level.Some? && CheckLevel(env, c.level.value).Ok? then Masked(CheckLevel(env, c.level.value).value)
        else s.level,
      Attached(env.handlers, c.handlers, |c.handlers|).GetOr([]),
      c.propagate.GetOr(s.propagate),
      false)
  }

  /** A logger as `getLogger` makes it. */
  function NewSettings(): Settings {
    Settings(NOTSET, [], true, false)
  }

  /** The settings of a logger that is not configured but below one that is. */
  function Reset(s: Settings): Settings {
    Settings(NOTSET, [], true, s.disabled)
  }

  // ----- what an entry says, spelled out

  /** The first place at which `names` names the handler `h`. */
  ghost predicate FirstNamed(table: HandlerTable, names: seq<string>, h: Handler, i: nat) {
    && i < |names| && names[i] in table && table[names[i]] == h
    && forall j :: 0 <= j < i ==> names[j] !in table || table[names[j]] != h
  }

  /** `hs` are the handlers that are named, each once, in the order in which they are first named. */
  ghost predicate AttachedAs(table: HandlerTable, names: seq<string>, hs: seq<Handler>) {
    && (forall n :: n in names ==> n in table)
    && (forall h :: h in hs <==> exists n :: n in names && n in table && table[n] == h)
    && (forall a, b :: 0 <= a < b < |hs| ==> hs[a] != hs[b])
    && InOrder(table, names, hs)
  }

  ghost predicate InOrder(table: HandlerTable, names: seq<string>, hs: seq<Handler>) {
    forall a, b, i: nat, j: nat ::
      0 <= a < b < |hs| && FirstNamed(table, names, hs[a], i) && FirstNamed(table, names, hs[b], j) ==> i < j
  }

  /** A checked level, of which the lowest 16 bits count; without one the level stays. */
  ghost predicate IsLevelOf(env: Env, arg: Option<LevelArg>, before: Level, after: Level) {
    match arg
    case None => after == before
    case Some(IntLevel(n)) => exists high: int :: n == high * 65536 + after
    case Some(NamedLevel(name)) =>
      name in env.levelNames && exists high: int :: env.levelNames[name] == high * 65536 + after
    case Some(OtherArg) => false
  }

  /** `t` are the settings `s` as the entry `c` changes them. */
  ghost predicate IsConfigured(env: Env, c: LoggerConfig, s: Settings, t: Settings) {
    && IsLevelOf(env, c.level, s.level, t.level) && AttachedAs(env.handlers, c.handlers, t.handlers)
    && t.propagate == (match c.propagate case None => s.propagate case Some(p) => p) && !t.disabled
  }

  lemma AttachedNone(table: HandlerTable)
    ensures AttachedAs(table, [], [])
  {
  }

  lemma {:induction false} AttachedExactly(table: HandlerTable, names: seq<string>, k: nat)
    requires k <= |names|
    ensures Attached(table, names, k).Some? <==> forall n :: n in names[..k] ==> n in table
    ensures Attached(table, names, k).Some? ==> AttachedAs(table, names[..k], Attached(table, names, k).value)
  {
    if k == 0 {
      AttachedNone(table);
    } else {
      AttachedExactly(table, names, k - 1);
      assert names[..k] == names[..k - 1] + [names[k - 1]];
      if Attached(table, names, k - 1).Some? && names[k - 1] in table {
        AttachedMore(table, names[..k - 1], Attached(table, names, k - 1).value, names[k - 1]);
      }
    }
  }

  /** The first place stays the first when more names follow. */
  lemma FirstStays(table: HandlerTable, names: seq<string>, name: string, h: Handler, i: nat)
    requires FirstNamed(table, names + [name], h, i) && exists n :: n in names && n in table && table[n] == h
    ensures FirstNamed(table, names, h, i)
  {
    var n :| n in names && n in table && table[n] == h;
    var k :| 0 <= k < |names| && names[k] == n;
    assert (names + [name])[k] == n;
    forall j | 0 <= j < i
      ensures names[j] !in table || table[names[j]] != h
    {
      assert (names + [name])[j] == names[j];
    }
  }

  lemma InOrderMore(table: HandlerTable, names: seq<string>, hs: seq<Handler>, name: string)
    requires AttachedAs(table, names, hs) && name in table
    ensures InOrder(table, names + [name], R.Append(hs, table[name]))
  {
    var h, more := table[name], R.Append(hs, table[name]);
    forall a, b, i: nat, j: nat | 0 <= a < b < |more| &&
        FirstNamed(table, names + [name], more[a], i) && FirstNamed(table, names + [name], more[b], j)
      ensures i < j
    {
      assert more[a] == hs[a] && hs[a] in hs;
      FirstStays(table, names, name, more[a], i);
      if b < |hs| {
        assert more[b] == hs[b] && hs[b] in hs;
        FirstStays(table, names, name, more[b], j);
      } else {
        assert more[b] == h && h !in hs;
      }
    }
  }

  lemma NamedMore(table: HandlerTable, names: seq<string>, hs: seq<Handler>, name: string, h: Handler)
    requires AttachedAs(table, names, hs) && name in table
    ensures h in R.Append(hs, table[name]) <==> exists n :: n in names + [name] && n in table && table[n] == h
  {
    assert name in names + [name];
    if h in hs {
      var n :| n in names && n in table && table[n] == h;
      assert n in names + [name];
    }
  }

  lemma AttachedMore(table: HandlerTable, names: seq<string>, hs: seq<Handler>, name: string)
    requires AttachedAs(table, names, hs) && name in table
    ensures AttachedAs(table, names + [name], R.Append(hs, table[name]))
  {
    InOrderMore(table, names, hs, name);
    forall h
      ensures h in R.Append(hs, table[name]) <==> exists n :: n in names + [name] && n in table && table[n] == h
    {
      NamedMore(table, names, hs, name, h);
    }
  }

  /** An entry is good exactly if its level is an integer or a known name and every handler is there. */
  lemma GoodExactly(env: Env, c: LoggerConfig)
    ensures Good(env, c) <==>
      && (forall n :: n in c.handlers ==> n in env.handlers)
      && match c.level
         case None => true
         case Some(IntLevel(_)) => true
         case Some(NamedLevel(name)) => name in env.levelNames
         case Some(OtherArg) => false
  {
    AttachedExactly(env.handlers, c.handlers, |c.handlers|);
    assert c.handlers[..|c.handlers|] == c.handlers;
  }

  lemma ConfiguredExactly(env: Env, c: LoggerConfig, s: Settings)
    requires Good(env, c)
    ensures IsConfigured(env, c, s, Configured(env, c, s))
  {
    AttachedExactly(env.handlers, c.handlers, |c.handlers|);
    assert c.handlers[..|c.handlers|] == c.handlers;
    if c.level.Some? {
      var n := CheckLevel(env, c.level.value).value;
      LowBits(n, Masked(n));
    }
  }

  // ----- writing one logger's settings

  /** Of the loggers `all`, the links are as before, and the settings of all but `l`. */
  twostate predicate OnlySettings(all: set<Logger>, new l: Logger)
    reads all
  {
    && (forall x :: x in all ==> x.parent == old(x.parent) && x.children == old(x.children))
    && (forall x :: x in all && x != l ==> SettingsOf(x) == old(SettingsOf(x)))
  }

  twostate lemma RecordsAre(all: set<Logger>, new v0: map<Logger, Rec<Logger>>, new v1: map<Logger, Rec<Logger>>)
    requires v0 == old(View(all)) && v1 == View(all)
    ensures forall x :: x in all ==> v1[x] == x.Record() && v0[x] == old(x.Record())
  {
  }

  /** A level change in the records is one in the objects. */
  twostate lemma RecordsSeen(all: set<Logger>, new v0: map<Logger, Rec<Logger>>, new v1: map<Logger, Rec<Logger>>,
          new l: Logger)
    requires v0 == old(View(all)) && v1 == View(all) && l in all
    ensures SameShape<Logger>(v0, v1) && (forall x :: x in all - {l} ==> RecSettings(v1[x]) == RecSettings(v0[x])) ==>
      OnlySettings(all, l)
    ensures SettingsOf(l) == RecSettings(v1[l]) && old(SettingsOf(l)) == RecSettings(v0[l])
  {
    RecordsAre(all, v0, v1);
    if SameShape<Logger>(v0, v1) {
      forall x | x in all
        ensures x.parent == old(x.parent) && x.children == old(x.children)
      {
        assert v1[x].parent == v0[x].parent && v1[x].children == v0[x].children;
      }
    }
  }

  lemma SetLevelChanges(root: Logger, recs: map<Logger, Rec<Logger>>, l: Logger, v: Level)
    requires Graph<Logger>(root, recs) && l in recs
    ensures SameShape<Logger>(recs, LoggerGraph.SetLevel<Logger>(root, recs, l, v))
    ensures var r := LoggerGraph.SetLevel<Logger>(root, recs, l, v);
      && RecSettings(r[l]) == RecSettings(recs[l]).(level := v)
      && forall x :: x in recs && x != l ==> RecSettings(r[x]) == RecSettings(recs[x])
  {
  }

  /** `logger.setLevel(level)`, seen in the objects. */
  method SetLevelOf(l: Logger, arg: LevelArg, ghost root: Logger, ghost all: set<Logger>) returns (ok: bool)
    requires l in all && Graph<Logger>(root, View(all))
    modifies all
    ensures OnlySettings(all, l)
    ensures ok <==> ArgLevel(arg).Ok?
    ensures SettingsOf(l) == if ok then old(SettingsOf(l)).(level := ArgLevel(arg).value) else old(SettingsOf(l))
  {
    ghost var v0 := View(all);
    var r := l.SetLevel(arg, root, all);
    ok := r.Ok?;
    if ok {
      SetLevelChanges(root, v0, l, ArgLevel(arg).value);
    }
    RecordsSeen(all, v0, View(all), l);
  }

  /** Remove the old handlers, one by one, and add the named ones; an unknown name raises. */
  method ReplaceOf(l: Logger, table: HandlerTable, names: seq<string>) returns (ok: bool)
    modifies l`handlers
    ensures ok <==> Attached(table, names, |names|).Some?
    ensures ok ==> l.handlers == Attached(table, names, |names|).value
  {
    RemoveHandlers(l);
    ok := AddHandlers(l, table, names);
  }

  method RemoveHandlers(l: Logger)
    modifies l`handlers
    ensures l.handlers == []
  {
    var copy := l.handlers;
    for i := 0 to |copy|
      invariant l.handlers == copy[i..]
    {
      l.handlers := RemoveFirst(l.handlers, copy[i]);
    }
  }

  method AddHandlers(l: Logger, table: HandlerTable, names: seq<string>) returns (ok: bool)
    requires l.handlers == []
    modifies l`handlers
    ensures ok <==> Attached(table, names, |names|).Some?
    ensures ok ==> l.handlers == Attached(table, names, |names|).value
  {
    for i := 0 to |names|
      invariant Attached(table, names, i) == Some(l.handlers)
    {
      if names[i] !in table {
        NoneAfter(table, names, i + 1);
        return false;
      }
      var h := table[names[i]];
      if h !in l.handlers {
        l.handlers := l.handlers + [h];
      }
    }
    return true;
  }

  lemma {:induction false} NoneAfter(table: HandlerTable, names: seq<string>, i: nat)
    requires i <= |names| && Attached(table, names, i).None?
    ensures Attached(table, names, |names|).None?
    decreases |names| - i
  {
    if i < |names| {
      NoneAfter(table, names, i + 1);
    }
  }

  /** Everything `configure_logger` does to the logger it has found. */
  method ApplyConfig(l: Logger, env: Env, c: LoggerConfig, ghost root: Logger, ghost all: set<Logger>)
    returns (ok: bool)
    requires l in all && Graph<Logger>(root, View(all))
    modifies all
    ensures OnlySettings(all, l)
    ensures ok <==> Good(env, c)
    ensures ok ==> SettingsOf(l) == Configured(env, c, old(SettingsOf(l)))
  {
    ok := true;
    if c.level.Some? {
      var checked := CheckLevel(env, c.level.value);
      if checked.Err? {
        return false;
      }
      ok := SetLevelOf(l, IntLevel(checked.value), root, all);
    }
    ok := ReplaceOf(l, env.handlers, c.handlers);
    if !ok {
      return;
    }
    EnableLogger(l, c.propagate);
  }

  method EnableLogger(l: Logger, propagate: Option<bool>)
    modifies l`disabled, l`propagate
    ensures !l.disabled && l.propagate == propagate.GetOr(old(l.propagate))
  {
    l.disabled := false;
    if propagate.Some? {
      l.propagate := propagate.value;
    }
  }

  // ----- one entry of the configuration

  lemma Registration(m: Manager, x: Logger)
    requires m.Valid() && x in m.loggers && x != m.root
    ensures x.name in m.loggerDict && m.loggerDict[x.name] == LoggerNode(x)
  {
    assert View(m.loggers)[x] == x.Record();
    assert m.State().recs[x].name == x.name;
    assert m.DictView()[x.name] == R.Known(x);
  }

  lemma RegisteredLogger(m: Manager, name: string)
    requires m.Valid() && name in m.loggerDict && m.loggerDict[name].LoggerNode?
    ensures m.loggerDict[name].logger in m.loggers && m.loggerDict[name].logger != m.root
    ensures m.loggerDict[name].logger.name == name
  {
    var x := m.loggerDict[name].logger;
    assert m.DictView()[name] == R.Known(x);
    assert x in m.State().recs && m.State().recs[x].name == name;
    assert View(m.loggers)[x] == x.Record();
  }

  /** Names only change from placeholders to loggers, and only those in `promoted`. */
  predicate DictGrown(dict: map<string, Node>, dict': map<string, Node>, promoted: seq<string>) {
    && (forall p :: p in dict ==> p in dict')
    && (forall p :: p in dict && dict[p].LoggerNode? ==> dict'[p] == dict[p])
    && (forall p :: p in dict && dict[p].PlaceholderNode? && p !in promoted ==> dict'[p].PlaceholderNode?)
  }

  /** Loggers and placeholders are only added. */
  twostate predicate Grown(m: Manager)
    reads m
  {
    && (forall l :: l in old(m.loggers) ==> l in m.loggers)
    && (forall l :: l in m.loggers ==> l in old(m.loggers) || fresh(l))
    && (forall p :: p in m.placeholders ==> p in old(m.placeholders) || fresh(p))
  }

  /** What a registry keeps when a logger is looked up. */
  ghost predicate Extends(reg: R.Registry<Logger>, reg': R.Registry<Logger>, name: string) {
    && (forall x :: x in reg.recs ==> x in reg'.recs)
    && (forall x {:trigger reg'.recs[x]} :: x in reg.recs ==> RecSettings(reg'.recs[x]) == RecSettings(reg.recs[x]))
    && (forall p :: p in reg.dict ==> p in reg'.dict)
    && (forall p :: p in reg.dict && reg.dict[p].Known? ==> reg'.dict[p] == reg.dict[p])
    && (forall p :: p in reg.dict && reg.dict[p].Placeholder? && p != name ==> reg'.dict[p].Placeholder?)
  }

  lemma GetLoggerExtends(reg: R.Registry<Logger>, name: string, a: Logger)
    requires R.Sound<Logger>(reg) && a !in reg.recs && !R.IsKnown<Logger>(reg.dict, name)
    ensures Extends(reg, R.GetLogger<Logger>(reg, name, a), name)
    ensures R.IsKnown<Logger>(R.GetLogger<Logger>(reg, name, a).dict, name)
    ensures R.GetLogger<Logger>(reg, name, a).dict[name].logger == a
    ensures a in R.GetLogger<Logger>(reg, name, a).recs
    ensures RecSettings(R.GetLogger<Logger>(reg, name, a).recs[a]) == NewSettings()
    ensures R.GetLogger<Logger>(reg, name, a).recs.Keys == reg.recs.Keys + {a}
  {
    T.LinkedSettings<Logger>(reg, name, a);
    T.KnownAfter<Logger>(reg, name, a);
    var r := R.GetLogger<Logger>(reg, name, a);
    forall x | x in reg.recs
      ensures x in r.recs && RecSettings(r.recs[x]) == RecSettings(reg.recs[x])
    {
      assert r.recs[x].level == reg.recs[x].level && r.recs[x].handlers == reg.recs[x].handlers;
      assert r.recs[x].propagate == reg.recs[x].propagate && r.recs[x].disabled == reg.recs[x].disabled;
    }
    forall p | p in reg.dict
      ensures p in r.dict && (reg.dict[p].Known? ==> r.dict[p] == reg.dict[p])
      ensures reg.dict[p].Placeholder? && p != name ==> r.dict[p].Placeholder?
    {
      assert R.IsKnown<Logger>(r.dict, p) <==> R.IsKnown<Logger>(reg.dict, p) || p == name;
    }
  }

  /** The same, in the objects. */
  twostate predicate Extended(m: Manager, name: string)
    reads m, m.loggers
  {
    && (forall x :: x in old(m.loggers) ==> x in m.loggers && SettingsOf(x) == old(SettingsOf(x)))
    && (forall p :: p in old(m.loggerDict) ==> p in m.loggerDict)
    && (forall p :: p in old(m.loggerDict) && old(m.loggerDict)[p].LoggerNode? ==>
         m.loggerDict[p] == old(m.loggerDict)[p])
    && (forall p :: p in old(m.loggerDict) && old(m.loggerDict)[p].PlaceholderNode? && p != name ==>
         m.loggerDict[p].PlaceholderNode?)
  }

  twostate lemma ExtendsSeen(m: Manager, new reg: R.Registry<Logger>, new reg': R.Registry<Logger>, new name: string)
    requires old(m.Nodes()) && m.Nodes() && reg == old(m.State()) && reg' == m.State()
    ensures Extends(reg, reg', name) ==> Extended(m, name)
  {
    if Extends(reg, reg', name) {
      forall x | x in old(m.loggers)
        ensures x in m.loggers && SettingsOf(x) == old(SettingsOf(x))
      {
        assert reg'.recs[x] == x.Record() && reg.recs[x] == old(x.Record());
      }
      forall p | p in old(m.loggerDict)
        ensures p in m.loggerDict
        ensures old(m.loggerDict)[p].LoggerNode? ==> m.loggerDict[p] == old(m.loggerDict)[p]
        ensures old(m.loggerDict)[p].PlaceholderNode? && p != name ==> m.loggerDict[p].PlaceholderNode?
      {
        assert p in reg.dict && p in reg'.dict;
      }
    }
  }

  /** The registry after a lookup, whichever way it went. */
  lemma LookupExtends(reg: R.Registry<Logger>, reg': R.Registry<Logger>, name: string, l: Logger)
    requires R.Sound<Logger>(reg) && Named(reg, reg', Some(name), l)
    ensures Extends(reg, reg', name)
    ensures if RootName(name) then l == reg.root
      else R.IsKnown<Logger>(reg'.dict, name) && reg'.dict[name].logger == l
    ensures l !in reg.recs ==> l in reg'.recs && RecSettings(reg'.recs[l]) == NewSettings()
    ensures forall x :: x in reg'.recs ==> x in reg.recs || x == l
  {
    if !RootName(name) && !R.IsKnown<Logger>(reg.dict, name) {
      GetLoggerExtends(reg, name, l);
    }
  }

  method Lookup(m: Manager, name: string) returns (l: Logger)
    requires m.Valid()
    modifies m`loggerDict, m`loggers, m`placeholders, m.loggers, m.placeholders
    ensures m.Valid() && l in m.loggers && Grown(m)
    ensures Extends(old(m.State()), m.State(), name)
    ensures if RootName(name) then l == m.root
      else R.IsKnown<Logger>(m.DictView(), name) && m.DictView()[name].logger == l
    ensures l !in old(m.loggers) ==> SettingsOf(l) == NewSettings()
    ensures forall x :: x in m.loggers ==> x in old(m.loggers) || x == l
  {
    ghost var reg := m.State();
    l := m.NamedLogger(Some(name));
    LookupExtends(reg, m.State(), name, l);
    assert View(m.loggers)[l] == l.Record();
  }

  lemma FoundIsNamed(m: Manager, name: string, l: Logger)
    requires m.Valid() && (if RootName(name) then l == m.root else name in m.loggerDict)
    requires !RootName(name) ==> m.loggerDict[name] == LoggerNode(l)
    ensures if RootName(name) then l == m.root else l.name == name
  {
    if !RootName(name) {
      RegisteredLogger(m, name);
    }
  }

  /** And no other logger of that name is among those of `s`. */
  method FindAlone(m: Manager, name: string, ghost s: Snapshot) returns (l: Logger)
    requires m.Valid() && Within(m, s) && SettingsAre(s)
    modifies m`loggerDict, m`loggers, m`placeholders, m.loggers, m.placeholders
    ensures m.Valid() && Grown(m) && DictGrown(old(m.loggerDict), m.loggerDict, [name]) && l in m.loggers
    ensures SettingsAre(s) && forall x :: x in s ==> (x.name == name && !RootName(name) <==> x == l)
    ensures !RootName(name) ==> name in m.loggerDict && m.loggerDict[name] == LoggerNode(l)
    ensures l !in old(m.loggers) ==> SettingsOf(l) == NewSettings()
    ensures forall x :: x in m.loggers - {m.root} ==> x in old(m.loggers) || (x.name == name && !RootName(name))
  {
    l := FindLogger(m, name, s);
    FoundAlone(m, name, l, s);
    FoundIsNamed(m, name, l);
  }

  /** `getLogger(name)`, seen in the objects. */
  method FindLogger(m: Manager, name: string, ghost s: Snapshot) returns (l: Logger)
    requires m.Valid() && Within(m, s) && SettingsAre(s)
    modifies m`loggerDict, m`loggers, m`placeholders, m.loggers, m.placeholders
    ensures m.Valid() && Grown(m) && DictGrown(old(m.loggerDict), m.loggerDict, [name]) && l in m.loggers
    ensures SettingsAre(s)
    ensures if RootName(name) then l == m.root else name in m.loggerDict && m.loggerDict[name] == LoggerNode(l)
    ensures l !in old(m.loggers) ==> SettingsOf(l) == NewSettings()
    ensures forall x :: x in m.loggers ==> x in old(m.loggers) || x == l
  {
    ghost var reg := m.State();
    l := Lookup(m, name);
    ExtendsSeen(m, reg, m.State(), name);
  }

  /** The settings of some loggers, as they are. */
  ghost predicate SettingsAre(s: Snapshot)
    reads s.Keys
  {
    forall x :: x in s ==> SettingsOf(x) == s[x]
  }

  /** They are loggers of the manager other than the root. */
  ghost predicate Within(m: Manager, s: Snapshot)
    reads m
  {
    m.root !in s && forall x :: x in s ==> x in m.loggers
  }

  /** The settings after one logger has been configured: a name of the root does not reach a logger
      that bears it beside the root. */
  ghost function OneConfigured(s: Snapshot, env: Env, name: string, c: LoggerConfig): Snapshot {
    map x | x in s :: if x.name == name && !RootName(name) then Configured(env, c, s[x]) else s[x]
  }

  /** The logger found is the only one of that name, or the root. */
  lemma FoundAlone(m: Manager, name: string, l: Logger, s: Snapshot)
    requires m.Valid() && Within(m, s)
    requires if RootName(name) then l == m.root else name in m.loggerDict && m.loggerDict[name] == LoggerNode(l)
    ensures forall x :: x in s ==> (x.name == name && !RootName(name) <==> x == l)
  {
    ManagerKnows(m);
    forall x | x in s
      ensures x.name == name && !RootName(name) <==> x == l
    {
      assert x in m.loggers - {m.root};
    }
  }

  /** One entry: `configure_logger(name, config)`. */
  method ConfigureLogger(m: Manager, env: Env, name: string, c: LoggerConfig, ghost s: Snapshot)
    returns (ok: bool, ghost l: Logger)
    requires m.Valid() && Within(m, s) && SettingsAre(s)
    modifies m`loggerDict, m`loggers, m`placeholders, m.loggers, m.placeholders
    ensures m.Valid() && Grown(m) && DictGrown(old(m.loggerDict), m.loggerDict, [name])
    ensures ok <==> Good(env, c)
    ensures ok ==> SettingsAre(OneConfigured(s, env, name, c))
    ensures !RootName(name) ==> name in m.loggerDict && m.loggerDict[name] == LoggerNode(l)
    ensures ok && l !in old(m.loggers) ==> l in m.loggers && SettingsOf(l) == Configured(env, c, NewSettings())
    ensures forall x :: x in m.loggers - {m.root} ==> x in old(m.loggers) || (x.name == name && !RootName(name))
  {
    var found := FindAlone(m, name, s);
    l := found;
    ok := ApplyTo(m, found, env, name, c, s);
  }

  method ApplyTo(m: Manager, l: Logger, env: Env, name: string, c: LoggerConfig, ghost s: Snapshot)
    returns (ok: bool)
    requires m.Valid() && l in m.loggers && Within(m, s) && SettingsAre(s)
    requires forall x :: x in s ==> (x.name == name && !RootName(name) <==> x == l)
    modifies m.loggers
    ensures m.Valid()
    ensures ok <==> Good(env, c)
    ensures ok ==> SettingsAre(OneConfigured(s, env, name, c))
    ensures ok ==> SettingsOf(l) == Configured(env, c, old(SettingsOf(l)))
  {
    ok := ApplyConfig(l, env, c, m.root, m.loggers);
    m.LinksKept();
  }

  // ----- the loggers that are not configured

  method ResetLogger(l: Logger, ghost root: Logger, ghost all: set<Logger>)
    requires l in all && Graph<Logger>(root, View(all))
    modifies all
    ensures OnlySettings(all, l) && SettingsOf(l) == Reset(old(SettingsOf(l)))
  {
    var ok := SetLevelOf(l, IntLevel(NOTSET), root, all);
    l.handlers := [];
    l.propagate := true;
  }

  /** The settings of a remaining logger afterwards. */
  function Handled(isChild: bool, disableExisting: bool, s: Settings): Settings {
    if isChild then Reset(s) else s.(disabled := disableExisting)
  }

  /** The dictionary's loggers are the `others`, each under its own name. */
  ghost predicate Knows(dict: map<string, Node>, others: set<Logger>) {
    && (forall p :: p in dict && dict[p].LoggerNode? ==> dict[p].logger in others && dict[p].logger.name == p)
    && (forall x :: x in others ==> x.name in dict && dict[x.name] == LoggerNode(x))
  }

  lemma ManagerKnows(m: Manager)
    requires m.Valid()
    ensures Knows(m.loggerDict, m.loggers - {m.root})
  {
    forall p | p in m.loggerDict && m.loggerDict[p].LoggerNode?
      ensures m.loggerDict[p].logger in m.loggers - {m.root} && m.loggerDict[p].logger.name == p
    {
      RegisteredLogger(m, p);
    }
    forall x | x in m.loggers - {m.root}
      ensures x.name in m.loggerDict && m.loggerDict[x.name] == LoggerNode(x)
    {
      Registration(m, x);
    }
  }

  method HandleLogger(l: Logger, isChild: bool, disableExisting: bool, ghost root: Logger, ghost all: set<Logger>)
    requires l in all && Graph<Logger>(root, View(all))
    modifies all
    ensures OnlySettings(all, l) && SettingsOf(l) == Handled(isChild, disableExisting, old(SettingsOf(l)))
  {
    if isChild {
      ResetLogger(l, root, all);
    } else {
      l.disabled := disableExisting;
    }
  }

  twostate predicate LinksSame(all: set<Logger>)
    reads all
  {
    forall x :: x in all ==> x.parent == old(x.parent) && x.children == old(x.children)
  }

  twostate lemma GraphKept(all: set<Logger>, new v0: map<Logger, Rec<Logger>>, new root: Logger)
    requires v0 == old(View(all))
    ensures Graph<Logger>(root, v0) && LinksSame(all) ==> Graph<Logger>(root, View(all))
  {
    if Graph<Logger>(root, v0) && LinksSame(all) {
      RecordsAre(all, v0, View(all));
      SameShapeGraph<Logger>(root, v0, View(all));
    }
  }

  /** One turn of `_handle_existing_loggers`: a placeholder has no `setLevel`. */
  method HandleOne(dict: map<string, Node>, log: string, isChild: bool, disableExisting: bool,
                   ghost root: Logger, ghost all: set<Logger>, ghost s: Snapshot) returns (ok: bool)
    requires Graph<Logger>(root, View(all)) && Knows(dict, all - {root}) && log in dict
    requires s.Keys <= all - {root} && SettingsAre(s)
    modifies all
    ensures LinksSame(all) && Graph<Logger>(root, View(all))
    ensures ok <==> (isChild ==> dict[log].LoggerNode?)
    ensures ok ==> SettingsAre(OneHandled(s, log, isChild, disableExisting))
  {
    ghost var v0 := View(all);
    match dict[log] {
      case LoggerNode(l) =>
        HandleLogger(l, isChild, disableExisting, root, all);
        GraphKept(all, v0, root);
        return true;
      case PlaceholderNode(_) =>
        return !isChild;
    }
  }

  ghost function OneHandled(s: Snapshot, log: string, isChild: bool, disableExisting: bool): Snapshot {
    map x | x in s :: if x.name == log then Handled(isChild, disableExisting, s[x]) else s[x]
  }

  /** The settings after the names `done` have been handled. */
  ghost function HandledAll(s: Snapshot, done: seq<string>, childLoggers: seq<string>,
          disableExisting: bool): Snapshot {
    map x | x in s :: if x.name in done then Handled(x.name in childLoggers, disableExisting, s[x]) else s[x]
  }

  lemma HandledNext(s: Snapshot, done: seq<string>, log: string, childLoggers: seq<string>, disableExisting: bool)
    requires log !in done
    ensures OneHandled(HandledAll(s, done, childLoggers, disableExisting), log, log in childLoggers, disableExisting)
         == HandledAll(s, done + [log], childLoggers, disableExisting)
  {
  }

  /** `_handle_existing_loggers`, over a dictionary that does not change. */
  method HandleAll(dict: map<string, Node>, existing: seq<string>, childLoggers: seq<string>, disableExisting: bool,
                   ghost root: Logger, ghost all: set<Logger>, ghost s: Snapshot) returns (r: Result<(), Failure>)
    requires s.Keys <= all - {root} && SettingsAre(s)
    requires Graph<Logger>(root, View(all)) && Knows(dict, all - {root})
    requires Sorted(existing) && forall p :: p in existing ==> p in dict
    modifies all
    ensures LinksSame(all)
    ensures match r
      case Ok(_) => forall p :: p in existing && p in childLoggers ==> dict[p].LoggerNode?
      case Err(e) => e.NotALogger? && e.name in existing && e.name in childLoggers && dict[e.name].PlaceholderNode?
    ensures r.Ok? ==> SettingsAre(HandledAll(s, existing, childLoggers, disableExisting))
  {
    for i := 0 to |existing|
      invariant Graph<Logger>(root, View(all)) && LinksSame(all)
      invariant forall p :: p in existing[..i] && p in childLoggers ==> dict[p].LoggerNode?
      invariant SettingsAre(HandledAll(s, existing[..i], childLoggers, disableExisting))
    {
      NotBefore(existing, i);
      ghost var now := HandledAll(s, existing[..i], childLoggers, disableExisting);
      HandledNext(s, existing[..i], existing[i], childLoggers, disableExisting);
      var ok := HandleOne(dict, existing[i], existing[i] in childLoggers, disableExisting, root, all, now);
      if !ok {
        return Err(NotALogger(existing[i]));
      }
    }
    assert existing[..|existing|] == existing;
    return Ok(());
  }

  method HandleExisting(m: Manager, existing: seq<string>, childLoggers: seq<string>, disableExisting: bool,
          ghost s: Snapshot)
    returns (r: Result<(), Failure>)
    requires Within(m, s) && SettingsAre(s)
    requires m.Valid() && Sorted(existing) && forall p :: p in existing ==> p in m.loggerDict
    modifies m.loggers
    ensures m.Valid()
    ensures match r
      case Ok(_) => forall p :: p in existing && p in childLoggers ==> m.loggerDict[p].LoggerNode?
      case Err(e) =>
        e.NotALogger? && e.name in existing && e.name in childLoggers && m.loggerDict[e.name].PlaceholderNode?
    ensures r.Ok? ==> SettingsAre(HandledAll(s, existing, childLoggers, disableExisting))
  {
    ManagerKnows(m);
    r := HandleAll(m.loggerDict, existing, childLoggers, disableExisting, m.root, m.loggers, s);
    m.LinksKept();
  }

  lemma NotBefore(s: seq<string>, i: nat)
    requires Sorted(s) && i < |s|
    ensures s[i] !in s[..i] && s[..i + 1] == s[..i] + [s[i]]
  {
    forall k | 0 <= k < i
      ensures s[k] != s[i]
    {
      LessTotal(s[k], s[i]);
    }
  }

  // ----- the whole pass

  class DictConfigurator {
    const manager: Manager
    const order: seq<string>
    const loggers: map<string, LoggerConfig>
    const env: Env
    const disableExisting: bool

    /** The configured names, in the order of the dictionary, each once. */
    predicate Listed() {
      (forall i, j :: 0 <= i < j < |order| ==> order[i] != order[j]) && forall n :: n in order ==> n in loggers
    }

    constructor (manager: Manager, order: seq<string>, loggers: map<string, LoggerConfig>, env: Env,
            disableExisting: bool)
      ensures this.manager == manager && this.order == order && this.loggers == loggers
      ensures this.env == env && this.disableExisting == disableExisting
    {
      this.manager, this.order, this.loggers := manager, order, loggers;
      this.env, this.disableExisting := env, disableExisting;
    }

    /** What its entry makes of a logger that existed; a logger beside the root that bears the root's
        name, or none, is not reached. */
    ghost function Entered(name: string, s: Settings): Settings
      requires Listed() && name in order
    {
      if RootName(name) then s else Configured(env, loggers[name], s)
    }

    /** The settings after the entries `done`. */
    ghost function AfterEntries(s0: Snapshot, done: seq<string>): Snapshot
      requires Listed() && forall n :: n in done ==> n in order
    {
      map x | x in s0 :: if x.name in done then Entered(x.name, s0[x]) else s0[x]
    }

    lemma Entry(i: nat)
      requires Listed() && i < |order|
      ensures order[..i + 1] == order[..i] + [order[i]] && order[i] !in order[..i]
      ensures order[..i + 1][..i] == order[..i]
    {
    }

    lemma EntriesNext(s0: Snapshot, i: nat)
      requires Listed() && i < |order|
      ensures OneConfigured(AfterEntries(s0, order[..i]), env, order[i], loggers[order[i]]) ==
        AfterEntries(s0, order[..i + 1])
    {
      Entry(i);
    }

    lemma DictGrownNext(dict0: map<string, Node>, dict1: map<string, Node>, dict2: map<string, Node>, i: nat)
      requires Listed() && i < |order| && DictGrown(dict0, dict1, order[..i]) && DictGrown(dict1, dict2, [order[i]])
      ensures DictGrown(dict0, dict2, order[..i + 1])
    {
      Entry(i);
    }

    /** The settings of all loggers but the root. */
    ghost function Current(): (s: Snapshot)
      reads manager, manager.loggers
      ensures s.Keys == manager.loggers - {manager.root}
    {
      map x | x in manager.loggers && x != manager.root :: SettingsOf(x)
    }

    lemma CurrentAre()
      ensures Within(manager, Current()) && SettingsAre(Current())
    {
    }

    /** The names `done` stand for loggers, which if they are not among `old0` are new and configured;
        and there are no other new ones. */
    ghost predicate Made(dict: map<string, Node>, cur: Snapshot, old0: set<Logger>, done: seq<string>)
      requires Listed() && forall n :: n in done ==> n in order
    {
      && (forall n :: n in done && !RootName(n) ==> MadeAs(dict, cur, old0, n))
      && forall x :: x in cur ==> x in old0 || (x.name in done && !RootName(x.name))
    }

    ghost predicate MadeAs(dict: map<string, Node>, cur: Snapshot, old0: set<Logger>, n: string)
      requires Listed() && n in order
    {
      && n in dict && dict[n].LoggerNode? && dict[n].logger in cur && dict[n].logger.name == n
      && (dict[n].logger !in old0 ==> cur[dict[n].logger] == Configured(env, loggers[n], NewSettings()))
    }

    /** One entry, seen in all loggers: the one of that name is configured, new or not. */
    ghost predicate OneMade(dict: map<string, Node>, cur: Snapshot, dict': map<string, Node>, cur': Snapshot,
                            name: string)
      requires name in loggers
    {
      && DictGrown(dict, dict', [name])
      && (forall x :: x in cur ==> x in cur' && cur'[x] == OneConfigured(cur, env, name, loggers[name])[x])
      && (forall x :: x in cur' ==> x in cur || (x.name == name && !RootName(name)))
      && (!RootName(name) ==>
           && name in dict' && dict'[name].LoggerNode? && dict'[name].logger in cur'
           && dict'[name].logger.name == name
           && (dict'[name].logger !in cur ==>
                cur'[dict'[name].logger] == Configured(env, loggers[name], NewSettings())))
    }

    lemma MadeNext(dict: map<string, Node>, cur: Snapshot, dict': map<string, Node>, cur': Snapshot,
                   old0: set<Logger>, i: nat)
      requires Listed() && i < |order| && Made(dict, cur, old0, order[..i])
      requires OneMade(dict, cur, dict', cur', order[i])
      ensures Made(dict', cur', old0, order[..i + 1])
    {
      Entry(i);
      forall n | n in order[..i + 1] && !RootName(n)
        ensures MadeAs(dict', cur', old0, n)
      {
        if n in order[..i] {
          assert MadeAs(dict, cur, old0, n);
        } else {
          var l := dict'[n].logger;
          assert l in cur ==> l in old0;
        }
      }
    }

    /** `configure_logger` on one entry. */
    method ConfigureOne(i: nat, ghost dict: map<string, Node>, ghost cur: Snapshot) returns (ok: bool)
      requires manager.Valid() && Listed() && i < |order| && dict == manager.loggerDict && cur == Current()
      modifies manager`loggerDict, manager`loggers, manager`placeholders, manager.loggers, manager.placeholders
      ensures manager.Valid() && Grown(manager)
      ensures ok <==> Good(env, loggers[order[i]])
      ensures ok ==> OneMade(dict, cur, manager.loggerDict, Current(), order[i])
    {
      CurrentAre();
      ghost var l;
      ok, l := ConfigureLogger(manager, env, order[i], loggers[order[i]], cur);
      ManagerKnows(manager);
    }

    /** After the first `k` entries: which names became loggers, which loggers are configured. */
    ghost predicate Progress(s0: Snapshot, dict0: map<string, Node>, dict: map<string, Node>, cur: Snapshot, k: nat)
      requires Listed() && k <= |order|
    {
      && DictGrown(dict0, dict, order[..k]) && (forall n :: n in order[..k] ==> Good(env, loggers[n]))
      && Made(dict, cur, s0.Keys, order[..k])
      && forall x :: x in s0 ==> x in cur && cur[x] == AfterEntries(s0, order[..k])[x]
    }

    lemma ProgressNext(s0: Snapshot, dict0: map<string, Node>, dict: map<string, Node>, cur: Snapshot,
                       dict': map<string, Node>, cur': Snapshot, i: nat)
      requires Listed() && i < |order| && Progress(s0, dict0, dict, cur, i)
      requires OneMade(dict, cur, dict', cur', order[i]) && Good(env, loggers[order[i]])
      ensures Progress(s0, dict0, dict', cur', i + 1)
    {
      Entry(i);
      EntriesNext(s0, i);
      DictGrownNext(dict0, dict, dict', i);
      MadeNext(dict, cur, dict', cur', s0.Keys, i);
      forall x | x in s0
        ensures x in cur' && cur'[x] == AfterEntries(s0, order[..i + 1])[x]
      {
        assert cur'[x] == OneConfigured(cur, env, order[i], loggers[order[i]])[x];
        assert AfterEntries(s0, order[..i + 1])[x] ==
          OneConfigured(AfterEntries(s0, order[..i]), env, order[i], loggers[order[i]])[x];
      }
    }

    /** So far, as the objects are. */
    ghost predicate Reached(s0: Snapshot, dict0: map<string, Node>, k: nat)
      requires Listed() && k <= |order|
      reads manager, manager.loggers
    {
      Progress(s0, dict0, manager.loggerDict, Current(), k)
    }

    predicate ScannedTo(existing0: seq<string>, existing: seq<string>, childLoggers: seq<string>, k: nat)
      requires k <= |order|
    {
      (existing, childLoggers) == Scanned(existing0, order[..k]) && Sorted(existing)
    }

    /** The body of the loop: the entry's name is scanned for and struck off, its logger configured. */
    method Turn(i: nat, existing: seq<string>, childLoggers: seq<string>,
                ghost existing0: seq<string>, ghost s0: Snapshot, ghost dict0: map<string, Node>)
      returns (ok: bool, rest: seq<string>, marked: seq<string>)
      requires manager.Valid() && Listed() && i < |order| && Reached(s0, dict0, i)
      requires ScannedTo(existing0, existing, childLoggers, i)
      modifies manager`loggerDict, manager`loggers, manager`placeholders, manager.loggers, manager.placeholders
      ensures manager.Valid() && Grown(manager)
      ensures ok <==> Good(env, loggers[order[i]])
      ensures ok ==> Reached(s0, dict0, i + 1) && ScannedTo(existing0, rest, marked, i + 1)
    {
      Entry(i);
      rest, marked := Visit(existing, childLoggers, order[i]);
      ghost var dict, cur := manager.loggerDict, Current();
      ok := ConfigureOne(i, dict, cur);
      if ok {
        ProgressNext(s0, dict0, dict, cur, manager.loggerDict, Current(), i);
      }
    }

    /** The loop over the configured loggers, up to the first one that cannot be configured. */
    method ConfigureNamed(existing0: seq<string>, ghost s0: Snapshot)
      returns (bad: Option<string>, existing: seq<string>, childLoggers: seq<string>)
      requires manager.Valid() && Listed() && Reached(s0, manager.loggerDict, 0) && Sorted(existing0)
      modifies manager`loggerDict, manager`loggers, manager`placeholders, manager.loggers, manager.placeholders
      ensures manager.Valid() && Grown(manager)
      ensures bad.Some? ==> bad.value in order && !Good(env, loggers[bad.value])
      ensures bad.None? ==>
        Reached(s0, old(manager.loggerDict), |order|) && ScannedTo(existing0, existing, childLoggers, |order|)
    {
      existing, childLoggers := existing0, [];
      ghost var dict0 := manager.loggerDict;
      for i := 0 to |order|
        invariant manager.Valid() && Grown(manager) && Reached(s0, dict0, i)
        invariant ScannedTo(existing0, existing, childLoggers, i)
      {
        var ok;
        ok, existing, childLoggers := Turn(i, existing, childLoggers, existing0, s0, dict0);
        if !ok {
          return Some(order[i]), existing, childLoggers;
        }
      }
      bad := None;
    }

    /** What a reconfiguration makes of a logger that existed before: configured and enabled, or
        reset because it is below a configured one that existed, or else enabled or disabled as told. */
    ghost function Final(known: set<string>, name: string, s: Settings): Settings
      requires Listed()
    {
      if name in order then Entered(name, s)
      else if BelowKnown(known, order, name) then Reset(s)
      else s.(disabled := disableExisting)
    }

    /** A placeholder that would have to be reset. */
    ghost predicate Stray(dict: map<string, Node>, p: string) {
      p in dict && dict[p].PlaceholderNode? && p !in order && BelowKnown(dict.Keys, order, p)
    }

    lemma HandledIsFinal(dict0: map<string, Node>, existing: seq<string>, childLoggers: seq<string>, name: string,
            s: Settings)
      requires Listed() && Classifies(dict0.Keys, order, existing, childLoggers) && name in dict0
      ensures var s1 := if name in order then Entered(name, s) else s;
        (if name in existing then Handled(name in childLoggers, disableExisting, s1) else s1) ==
        Final(dict0.Keys, name, s)
    {
    }

    /** The names, sorted and scanned, and the configured loggers. */
    method ConfigureAndScan(ghost s0: Snapshot)
      returns (bad: Option<string>, existing: seq<string>, childLoggers: seq<string>)
      requires manager.Valid() && Listed() && Reached(s0, manager.loggerDict, 0)
      modifies manager`loggerDict, manager`loggers, manager`placeholders, manager.loggers, manager.placeholders
      ensures manager.Valid() && Grown(manager)
      ensures bad.Some? ==> bad.value in order && !Good(env, loggers[bad.value])
      ensures bad.None? ==>
        Reached(s0, old(manager.loggerDict), |order|) &&
          Classifies(old(manager.loggerDict).Keys, order, existing, childLoggers)
    {
      var existing0 := SortNames(manager.loggerDict.Keys);
      ScanClassifies(manager.loggerDict.Keys, existing0, order);
      bad, existing, childLoggers := ConfigureNamed(existing0, s0);
      assert order[..|order|] == order;
    }

    /** In a registry grown by `getLogger` alone the scan finds whatever is below a configured name. */
    lemma ClosedFromTree()
      requires manager.Nodes() && T.PrefixClosed<Logger>(manager.DictView()) && "" !in manager.loggerDict
      ensures ClosedNames(manager.loggerDict.Keys)
      ensures forall x :: x in manager.loggerDict ==>
        (BelowKnown(manager.loggerDict.Keys, order, x) <==> BelowAny(order, x))
    {
      var known := manager.loggerDict.Keys;
      forall x, c | x in known && IsAncestor(c, x)
        ensures c in known
      {
        assert x in manager.DictView() && Dot(x, |c|) && x[..|c|] == c;
      }
      forall x | x in known
        ensures BelowKnown(known, order, x) <==> BelowAny(order, x)
      {
        BelowIfClosed(known, order, x);
      }
    }

    /** The final settings of the loggers that existed. */
    ghost function FinalAll(known: set<string>, s0: Snapshot): Snapshot
      requires Listed()
    {
      map x | x in s0 :: Final(known, x.name, s0[x])
    }

    ghost predicate Named(s0: Snapshot, dict0: map<string, Node>) {
      forall x :: x in s0 ==> x.name in dict0
    }

    /** The names left over: all known, those to be reset marked. */
    ghost predicate RestReady(existing: seq<string>, childLoggers: seq<string>, dict0: map<string, Node>,
                              dict: map<string, Node>)
    {
      && Sorted(existing) && (forall p :: p in existing ==> p in dict)
      && (forall p {:trigger Stray(dict0, p)} ::
            Stray(dict0, p) <==> p in existing && p in childLoggers && dict[p].PlaceholderNode?)
    }

    lemma RestIsReady(existing: seq<string>, childLoggers: seq<string>, s0: Snapshot, dict0: map<string, Node>,
                      dict: map<string, Node>, cur: Snapshot)
      requires Listed() && Classifies(dict0.Keys, order, existing, childLoggers) && Named(s0, dict0)
      requires Progress(s0, dict0, dict, cur, |order|)
      ensures RestReady(existing, childLoggers, dict0, dict)
      ensures Completed(dict0.Keys, s0, dict, HandledAll(cur, existing, childLoggers, disableExisting))
    {
      assert order[..|order|] == order;
      StraysAre(existing, childLoggers, dict0, dict);
      Completes(existing, childLoggers, s0, dict0, dict, cur);
    }

    /** The loggers left over after the configured ones. */
    method HandleRest(existing: seq<string>, childLoggers: seq<string>, ghost dict0: map<string, Node>,
                      ghost cur: Snapshot)
      returns (r: Result<(), Failure>)
      requires manager.Valid() && RestReady(existing, childLoggers, dict0, manager.loggerDict)
      requires Within(manager, cur) && SettingsAre(cur)
      modifies manager.loggers
      ensures manager.Valid()
      ensures r.Ok? ==> forall p :: !Stray(dict0, p)
      ensures r.Err? ==> r.error.NotALogger? && Stray(dict0, r.error.name)
      ensures r.Ok? ==> SettingsAre(HandledAll(cur, existing, childLoggers, disableExisting))
    {
      r := HandleExisting(manager, existing, childLoggers, disableExisting, cur);
    }

    /** And so the pass is complete. */
    method Finish(existing: seq<string>, childLoggers: seq<string>, ghost s0: Snapshot, ghost dict0: map<string, Node>)
      returns (r: Result<(), Failure>)
      requires manager.Valid() && Listed() && Reached(s0, dict0, |order|)
      requires Classifies(dict0.Keys, order, existing, childLoggers) && Named(s0, dict0)
      modifies manager.loggers
      ensures manager.Valid()
      ensures r.Ok? ==> forall p :: !Stray(dict0, p)
      ensures r.Err? ==> r.error.NotALogger? && Stray(dict0, r.error.name)
      ensures r.Ok? ==> Completed(dict0.Keys, s0, manager.loggerDict, Current())
    {
      ghost var cur := Current();
      CurrentAre();
      RestIsReady(existing, childLoggers, s0, dict0, manager.loggerDict, cur);
      r := HandleRest(existing, childLoggers, dict0, cur);
      if r.Ok? {
        CurrentIs(HandledAll(cur, existing, childLoggers, disableExisting));
      }
    }

    lemma CurrentIs(s: Snapshot)
      requires SettingsAre(s) && s.Keys == manager.loggers - {manager.root}
      ensures Current() == s
    {
    }

    /** The loggers that existed have their final settings, the new ones their entries'. */
    ghost predicate Completed(known: set<string>, s0: Snapshot, dict: map<string, Node>, cur: Snapshot)
      requires Listed()
    {
      && (forall x :: x in s0 ==> x in cur && cur[x] == FinalAll(known, s0)[x])
      && Made(dict, cur, s0.Keys, order)
    }

    lemma Completes(existing: seq<string>, childLoggers: seq<string>, s0: Snapshot, dict0: map<string, Node>,
                    dict: map<string, Node>, cur: Snapshot)
      requires Listed() && Classifies(dict0.Keys, order, existing, childLoggers) && Named(s0, dict0)
      requires Progress(s0, dict0, dict, cur, |order|)
      ensures Completed(dict0.Keys, s0, dict, HandledAll(cur, existing, childLoggers, disableExisting))
    {
      assert order[..|order|] == order;
      var done := HandledAll(cur, existing, childLoggers, disableExisting);
      FinishedIs(existing, childLoggers, s0, dict0);
      forall x | x in s0
        ensures x in done && done[x] == FinalAll(dict0.Keys, s0)[x]
      {
        assert done[x] == HandledAll(AfterEntries(s0, order), existing, childLoggers, disableExisting)[x];
      }
      forall n | n in order && !RootName(n)
        ensures MadeAs(dict, done, s0.Keys, n)
      {
        assert MadeAs(dict, cur, s0.Keys, n) && n !in existing;
      }
    }

    lemma StraysAre(existing: seq<string>, childLoggers: seq<string>, dict0: map<string, Node>, dict: map<string, Node>)
      requires Classifies(dict0.Keys, order, existing, childLoggers) && DictGrown(dict0, dict, order)
      ensures forall p {:trigger Stray(dict0, p)} ::
        Stray(dict0, p) <==> p in existing && p in childLoggers && dict[p].PlaceholderNode?
      ensures forall p :: p in existing ==> p in dict
    {
    }

    lemma FinishedIs(existing: seq<string>, childLoggers: seq<string>, s0: Snapshot, dict0: map<string, Node>)
      requires Listed() && Classifies(dict0.Keys, order, existing, childLoggers) && Named(s0, dict0)
      ensures HandledAll(AfterEntries(s0, order), existing, childLoggers, disableExisting) == FinalAll(dict0.Keys, s0)
    {
      forall x | x in s0
        ensures HandledAll(AfterEntries(s0, order), existing, childLoggers, disableExisting)[x] ==
          FinalAll(dict0.Keys, s0)[x]
      {
        HandledIsFinal(dict0, existing, childLoggers, x.name, s0[x]);
      }
    }

    /** The logger pass of `configure`.  It succeeds exactly when every configured logger can be
        configured and no placeholder would have to be reset, whatever the order of the entries. */
    method Configure() returns (r: Result<(), Failure>)
      requires manager.Valid() && Listed()
      modifies manager`loggerDict, manager`loggers, manager`placeholders, manager.loggers, manager.placeholders
      ensures manager.Valid()
      ensures r.Ok? ==>
        (forall n :: n in order ==> Good(env, loggers[n])) && (forall p :: !Stray(old(manager.loggerDict), p))
      ensures r.Err? && r.error.BadLogger? ==> r.error.name in order && !Good(env, loggers[r.error.name])
      ensures r.Err? && r.error.NotALogger? ==> Stray(old(manager.loggerDict), r.error.name)
      ensures r.Ok? ==> forall x :: x in old(manager.loggers) && x != manager.root ==>
        Reconfigured(old(manager.loggerDict).Keys, x.name, old(SettingsOf(x)), SettingsOf(x))
      ensures r.Ok? ==> forall n :: n in order && !RootName(n) ==>
        && n in manager.loggerDict && manager.loggerDict[n].LoggerNode?
        && var x := manager.loggerDict[n].logger;
           x.name == n && (x !in old(manager.loggers) ==>
             IsConfigured(env, loggers[n], Settings(0, [], true, false), SettingsOf(x)))
    {
      ghost var dict0, s0 := manager.loggerDict, Current();
      ManagerKnows(manager);
      Starts(s0, dict0);
      var bad, existing, childLoggers := ConfigureAndScan(s0);
      if bad.Some? {
        return Err(BadLogger(bad.value));
      }
      assert order[..|order|] == order;
      r := Finish(existing, childLoggers, s0, dict0);
      if r.Ok? {
        FinalSettings(dict0.Keys, s0, manager.loggerDict, Current());
      }
    }

    /** What becomes of a logger that existed: it has what its entry says, or is reset, or is dis- or
        enabled; an entry with a name of the root does not reach a logger beside the root. */
    ghost predicate Reconfigured(known: set<string>, name: string, s: Settings, t: Settings)
      requires Listed()
    {
      if name in order then if RootName(name) then t == s else IsConfigured(env, loggers[name], s, t)
      else if BelowKnown(known, order, name) then t == Settings(0, [], true, s.disabled)
      else t == Settings(s.level, s.handlers, s.propagate, disableExisting)
    }

    lemma FinalSettings(known: set<string>, s0: Snapshot, dict: map<string, Node>, cur: Snapshot)
      requires Listed() && Completed(known, s0, dict, cur) && forall n :: n in order ==> Good(env, loggers[n])
      ensures forall x :: x in s0 ==> x in cur && Reconfigured(known, x.name, s0[x], cur[x])
      ensures forall n :: n in order && !RootName(n) ==>
        && n in dict && dict[n].LoggerNode? && dict[n].logger.name == n && dict[n].logger in cur
        && (dict[n].logger !in s0 ==>
             IsConfigured(env, loggers[n], Settings(0, [], true, false), cur[dict[n].logger]))
    {
      forall x | x in s0
        ensures x in cur && Reconfigured(known, x.name, s0[x], cur[x])
      {
        assert cur[x] == Final(known, x.name, s0[x]);
        if x.name in order {
          ConfiguredExactly(env, loggers[x.name], s0[x]);
        }
      }
      forall n | n in order && !RootName(n)
        ensures
          && n in dict && dict[n].LoggerNode? && dict[n].logger.name == n && dict[n].logger in cur
          && (dict[n].logger !in s0 ==>
               IsConfigured(env, loggers[n], Settings(0, [], true, false), cur[dict[n].logger]))
      {
        assert MadeAs(dict, cur, s0.Keys, n);
        ConfiguredExactly(env, loggers[n], NewSettings());
      }
    }

    lemma Starts(s0: Snapshot, dict0: map<string, Node>)
      requires Listed() && s0 == Current() && dict0 == manager.loggerDict &&
        Knows(dict0, manager.loggers - {manager.root})
      ensures Reached(s0, dict0, 0) && Named(s0, dict0)
    {
    }
  }
}
