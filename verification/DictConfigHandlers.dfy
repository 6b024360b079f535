/** The handler pass of a dictionary configuration: memory handlers whose target is not there yet
    are put off and configured in a second round. */
module DictConfigHandlers {
  import opened Wrappers
  import opened Names
  import opened ExistingLoggers
  import opened Folds

  /** A configuration value: a string, a handler, or something else. */
  datatype Value = Str(s: string) | Obj(handler: Built) | Other(n: int)

  /** A key of a settings dictionary: one that is treated specially, or any other. */
  datatype Key = Formatter | Level | Filters | Factory | Class | Target | Props | Keyword(name: string)

  type Items = map<Key, Value>

  /** A handler, given by the factory and everything that was passed to it or set on it. */
  datatype Built = Built(
    factory: Value, kwargs: map<Key, Value>,
    formatter: Option<Value>, level: Option<Value>, filters: Option<Value>, props: Option<Value>)

  /** What a class name resolves to. */
  datatype Kind = Memory | Plain

  /** The configured formatters, the resolution of class names, and whether the factory call and
      the settings made afterwards go through. */
  datatype Env = Env(formatters: set<string>, resolve: Value -> Option<Kind>, accepts: Built -> bool)

  /** An entry of the handlers dictionary: still a dictionary, or already a handler. */
  datatype Slot = Raw(items: Items) | Made(handler: Built)

  datatype Verdict = Ready(handler: Built) | NotYet | Broken

  function Get(items: Items, key: Key): Option<Value> {
    if key in items then Some(items[key]) else None
  }

  predicate Truthy(v: Option<Value>) {
    v.Some? && v.value != Str("") && v.value != Other(0)
  }

  predicate IdentStart(c: char) {
    'a' <= c <= 'z' || 'A' <= c <= 'Z' || c == '_'
  }

  predicate ValidIdent(k: string) {
    k != "" && IdentStart(k[0]) && forall i :: 0 < i < |k| ==> IdentStart(k[i]) || '0' <= k[i] <= '9'
  }

  /** `valid_ident`: of the special keys, "()" and "." are no identifiers. */
  predicate ValidKey(k: Key) {
    k != Factory && k != Props && (k.Keyword? ==> ValidIdent(k.name))
  }

  // ----- one handler

  predicate FormatterMissing(env: Env, formatter: Option<Value>) {
    Truthy(formatter) && !(formatter.value.Str? && formatter.value.s in env.formatters)
  }

  /** The handler from what is left of the settings after the special ones have been taken. */
  function Construct(env: Env, settings: Items, factory: Value, rest: Items): Verdict {
    Accepted(env, Built(
      factory, rest - {Props},
      Get(settings, Formatter), Get(settings, Level), Get(settings, Filters), Get(rest, Props)))
  }

  function Accepted(env: Env, b: Built): Verdict {
    if (forall k :: k in b.kwargs ==> ValidKey(k)) && env.accepts(b) then Ready(b) else Broken
  }

  /** The kind of the class that is named, if the settings name one and no factory. */
  function ClassOf(env: Env, settings: Items): Option<Kind> {
    if Factory in settings || Class !in settings then None else env.resolve(settings[Class])
  }

  /** The name of the handler that a memory handler is to flush to. */
  function TargetOf(env: Env, settings: Items): Option<Value> {
    if ClassOf(env, settings) == Some(Memory) then Get(settings, Target) else None
  }

  function Remaining(settings: Items, factory: Key): Items {
    settings - {Formatter, Level, Filters} - {factory}
  }

  /** The settings once the class has been taken and the target replaced by its handler. */
  datatype Search = Missing(verdict: Verdict) | Rest(items: Items)

  function FindClass(env: Env, slots: map<string, Slot>, settings: Items): Search {
    if ClassOf(env, settings).None? then Missing(Broken)
    else
      match TargetOf(env, settings)
      case None => Rest(Remaining(settings, Class))
      case Some(t) =>
        if !t.Str? || t.s !in slots then Missing(Broken)
        else if slots[t.s].Raw? then Missing(NotYet)
        else Rest(Remaining(settings, Class)[Target := Obj(slots[t.s].handler)])
  }

  /** Only what has been configured matters to the search. */
  predicate SameHandlers(slots: map<string, Slot>, slots': map<string, Slot>) {
    slots.Keys == slots'.Keys && forall n :: n in slots ==> slots[n] == slots'[n] || (slots[n].Raw? && slots'[n].Raw?)
  }

  /** The settings left for the constructor, whether a factory or a class is given. */
  function Seek(env: Env, slots: map<string, Slot>, settings: Items): Search {
    if Factory in settings then Rest(Remaining(settings, Factory)) else FindClass(env, slots, settings)
  }

  lemma SeekSame(env: Env, slots: map<string, Slot>, slots': map<string, Slot>, settings: Items)
    requires SameHandlers(slots, slots')
    ensures Seek(env, slots, settings) == Seek(env, slots', settings)
  {
  }

  function Maker(settings: Items): Option<Value> {
    if Factory in settings then Some(settings[Factory]) else Get(settings, Class)
  }

  /** `configure_handler`. */
  function Attempt(env: Env, slots: map<string, Slot>, settings: Items): Verdict {
    if FormatterMissing(env, Get(settings, Formatter)) then Broken
    else
      match Seek(env, slots, settings)
      case Missing(v) => v
      case Rest(items) => Construct(env, settings, Maker(settings).GetOr(Str("")), items)
  }

  // ----- what one attempt comes to, spelled out

  /** The special keys that are popped, one of them to make the handler. */
  predicate IsPopped(settings: Items, k: Key) {
    k in {Formatter, Level, Filters, Props} || (if Factory in settings then k == Factory else k == Class)
  }

  /** The target that a memory handler waits for: a name that is still a dictionary. */
  predicate WaitsForTarget(env: Env, slots: map<string, Slot>, settings: Items) {
    && Factory !in settings && Class in settings && env.resolve(settings[Class]) == Some(Memory)
    && Target in settings && settings[Target].Str? && settings[Target].s in slots && slots[settings[Target].s].Raw?
  }

  predicate IsMemory(env: Env, settings: Items) {
    Factory !in settings && Class in settings && env.resolve(settings[Class]) == Some(Memory)
  }

  /** The handler is put off exactly if its formatter is there and its target is not made yet. */
  lemma PutOffExactly(env: Env, slots: map<string, Slot>, settings: Items)
    ensures Attempt(env, slots, settings) == NotYet <==>
      !FormatterMissing(env, Get(settings, Formatter)) && WaitsForTarget(env, slots, settings)
  {
  }

  /** A handler that is made comes from its factory or class; everything else in the settings but the
      special keys is passed on, the target of a memory handler as the handler of that name; and what
      was special is set on it. */
  lemma MadeExactly(env: Env, slots: map<string, Slot>, settings: Items, b: Built)
    requires Attempt(env, slots, settings) == Ready(b)
    ensures if Factory in settings then b.factory == settings[Factory]
            else Class in settings && b.factory == settings[Class] && env.resolve(settings[Class]).Some?
    ensures forall k :: k in b.kwargs <==> k in settings && !IsPopped(settings, k)
    ensures forall k :: k in b.kwargs && !(k == Target && IsMemory(env, settings)) ==> b.kwargs[k] == settings[k]
    ensures IsMemory(env, settings) && Target in settings ==>
      && settings[Target].Str? && settings[Target].s in slots && slots[settings[Target].s].Made?
      && b.kwargs[Target] == Obj(slots[settings[Target].s].handler)
    ensures b.formatter == Get(settings, Formatter) && b.level == Get(settings, Level)
    ensures b.filters == Get(settings, Filters) && b.props == Get(settings, Props)
    ensures Truthy(b.formatter) ==> b.formatter.value.Str? && b.formatter.value.s in env.formatters
    ensures forall k :: k in b.kwargs && k.Keyword? ==> ValidIdent(k.name)
  {
  }

  // ----- the two rounds

  /** The dictionary, the names put off, and the name that could not be configured, if any. */
  datatype Round = Round(slots: map<string, Slot>, deferred: seq<string>, failed: Option<string>)

  type Step = (Round, string) -> Round

  /** One name; in the second round nothing can be put off any more. */
  function Turn(env: Env, second: bool, r: Round, n: string): Round {
    if r.failed.Some? then r
    else if n !in r.slots || r.slots[n].Made? then r.(failed := Some(n))
    else
      match Attempt(env, r.slots, r.slots[n].items)
      case Ready(b) => r.(slots := r.slots[n := Made(b)])
      case NotYet => if second then r.(failed := Some(n)) else r.(deferred := r.deferred + [n])
      case Broken => r.(failed := Some(n))
  }

  function Turning(env: Env, second: bool): Step {
    (r, n) => Turn(env, second, r, n)
  }

  /** `step` is one turn of the round. */
  ghost predicate Takes(step: Step, env: Env, second: bool) {
    forall r, n {:trigger Turn(env, second, r, n)} :: step(r, n) == Turn(env, second, r, n)
  }

  /** A round over the names, in order. */
  function RoundOf(env: Env, second: bool, slots: map<string, Slot>, names: seq<string>): Round {
    Iterate(Turning(env, second), Round(slots, [], None), names, |names|)
  }

  /** The sorted names first, and then, if none of them failed, those that were put off. */
  function BothRounds(env: Env, slots: map<string, Slot>, names: seq<string>): Round {
    var first := RoundOf(env, false, slots, names);
    if first.failed.Some? then first else RoundOf(env, true, first.slots, first.deferred)
  }

  lemma {:induction false} FailureStays(env: Env, second: bool, step: Step, r: Round, names: seq<string>, k: nat)
    requires Takes(step, env, second) && k <= |names| && Iterate(step, r, names, k).failed.Some?
    ensures Iterate(step, r, names, |names|).failed == Iterate(step, r, names, k).failed
    decreases |names| - k
  {
    if k < |names| {
      var now := Iterate(step, r, names, k);
      assert step(now, names[k]) == Turn(env, second, now, names[k]);
      FailureStays(env, second, step, r, names, k + 1);
    }
  }

  predicate IsRaw(slots: map<string, Slot>, n: string) {
    n in slots && slots[n].Raw?
  }

  lemma StillRaw(env: Env, second: bool, step: Step, r: Round, names: seq<string>, i: nat)
    requires Takes(step, env, second)
    requires AllDifferent(names) && i < |names| && forall k :: i <= k < |names| ==> IsRaw(r.slots, names[k])
    ensures forall k :: i < k < |names| ==> IsRaw(step(r, names[i]).slots, names[k])
  {
    assert step(r, names[i]) == Turn(env, second, r, names[i]);
  }

  /** What has been put off is still there to be configured. */
  lemma {:induction false} DeferredAreRaw(env: Env, slots: map<string, Slot>, names: seq<string>, k: nat)
    requires AllDifferent(names) && k <= |names| && forall n :: n in names ==> IsRaw(slots, n)
    ensures var r := Iterate(Turning(env, false), Round(slots, [], None), names, k);
      && (forall i :: k <= i < |names| ==> IsRaw(r.slots, names[i]))
      && (forall n :: n in r.deferred ==> n in names[..k] && IsRaw(r.slots, n))
      && AllDifferent(r.deferred)
  {
    if k > 0 {
      DeferredAreRaw(env, slots, names, k - 1);
      var r := Iterate(Turning(env, false), Round(slots, [], None), names, k - 1);
      StillRaw(env, false, Turning(env, false), r, names, k - 1);
      assert names[..k] == names[..k - 1] + [names[k - 1]];
      assert names[k - 1] !in names[..k - 1];
    }
  }

  lemma SortedAllDifferent(s: seq<string>)
    requires Sorted(s)
    ensures AllDifferent(s)
  {
    forall i, j | 0 <= i < j < |s|
      ensures s[i] != s[j]
    {
      LessTotal(s[i], s[j]);
    }
  }

  /** A settings dictionary, updated in place. */
  class ConfigDict {
    var items: Items

    constructor (items: Items)
      ensures this.items == items
    {
      this.items := items;
    }

    /** `pop(key, None)`. */
    method Pop(key: Key) returns (v: Option<Value>)
      modifies this
      ensures v == Get(old(items), key) && items == old(items) - {key}
    {
      v := Get(items, key);
      items := items - {key};
    }

    method Update(other: Items)
      modifies this
      ensures items == old(items) + other
    {
      items := items + other;
    }
  }

  datatype Node = RawNode(dict: ConfigDict) | MadeNode(handler: Built)

  class HandlerConfigurator {
    const env: Env
    var handlers: map<string, Node>
    ghost const dicts: set<ConfigDict>

    /** Every settings dictionary belongs to one name. */
    ghost predicate Valid()
      reads this
    {
      && (forall n :: n in handlers && handlers[n].RawNode? ==> handlers[n].dict in dicts)
      && (forall n, m :: n in handlers && m in handlers && handlers[n].RawNode? && handlers[n] == handlers[m] ==>
           n == m)
    }

    ghost function Slots(): (r: map<string, Slot>)
      requires Valid()
      reads this, dicts
    {
      map n | n in handlers :: match handlers[n] case RawNode(d) => Raw(d.items) case MadeNode(b) => Made(b)
    }

    constructor (env: Env, handlers: map<string, Node>, ghost dicts: set<ConfigDict>)
      requires forall n :: n in handlers && handlers[n].RawNode? ==> handlers[n].dict in dicts
      requires forall n, m :: n in handlers && m in handlers && handlers[n].RawNode? && handlers[n] == handlers[m] ==>
        n == m
      ensures Valid() && this.env == env && this.handlers == handlers && this.dicts == dicts
    {
      this.env, this.handlers, this.dicts := env, handlers, dicts;
    }

    /** `configure_handler`: it takes the settings apart, and puts them back if the target is not there yet. */
    method ConfigureHandler(config: ConfigDict) returns (r: Verdict)
      requires Valid() && config in dicts
      modifies config
      ensures r == Attempt(env, old(Slots()), old(config.items))
      ensures r.NotYet? ==> config.items == old(config.items)
    {
      ghost var slots := Slots();
      var copy := config.items;
      var formatter := config.Pop(Formatter);
      if FormatterMissing(env, formatter) {
        return Broken;
      }
      var level := config.Pop(Level);
      var filters := config.Pop(Filters);
      SeekSame(env, slots, Slots(), copy);
      var factory, missing := TakeMaker(config, copy);
      if missing.Some? {
        return missing.value;
      }
      r := Complete(config, factory.value, formatter, level, filters);
    }

    method Complete(config: ConfigDict, factory: Value, formatter: Option<Value>, level: Option<Value>,
            filters: Option<Value>)
      returns (r: Verdict)
      modifies config
      ensures r == Accepted(env, Built(
        factory, old(config.items) - {Props}, formatter, level, filters, Get(old(config.items), Props)))
    {
      var props := config.Pop(Props);
      r := Build(factory, config.items, formatter, level, filters, props);
    }

    /** The factory, if there is one; else the class. */
    method TakeMaker(config: ConfigDict, copy: Items) returns (factory: Option<Value>, missing: Option<Verdict>)
      requires Valid() && config in dicts && config.items == copy - {Formatter} - {Level} - {Filters}
      modifies config
      ensures match Seek(env, old(Slots()), copy)
        case Missing(v) => missing == Some(v) && (v.NotYet? ==> config.items == copy)
        case Rest(items) => missing == None && config.items == items && factory.Some? && factory == Maker(copy)
    {
      if Factory in config.items {
        factory := config.Pop(Factory);
        assert config.items == Remaining(copy, Factory);
        missing := None;
      } else {
        factory, missing := TakeClass(config, copy);
      }
    }

    /** The class and, for a memory handler, the target: NotYet if that is still a dictionary. */
    method TakeClass(config: ConfigDict, copy: Items) returns (factory: Option<Value>, missing: Option<Verdict>)
      requires Valid() && config in dicts && Factory !in copy &&
        config.items == copy - {Formatter} - {Level} - {Filters}
      modifies config
      ensures match FindClass(env, old(Slots()), copy)
        case Missing(v) => missing == Some(v) && (v.NotYet? ==> config.items == copy)
        case Rest(items) => missing == None && config.items == items && Class in copy && factory == Some(copy[Class])
    {
      factory := config.Pop(Class);
      missing := Some(Broken);
      if factory.None? {
        return;
      }
      var kind := env.resolve(factory.value);
      if kind.None? {
        return;
      }
      assert config.items == Remaining(copy, Class);
      if kind.value.Memory? && Target in config.items {
        missing := TakeTarget(config, copy);
      } else {
        missing := None;
      }
    }

    method TakeTarget(config: ConfigDict, copy: Items) returns (missing: Option<Verdict>)
      requires Valid() && config in dicts && config.items == Remaining(copy, Class) && Target in config.items
      modifies config
      ensures var t := copy[Target]; var slots := old(Slots());
        if !t.Str? || t.s !in slots then missing == Some(Broken)
        else if slots[t.s].Raw? then missing == Some(NotYet) && config.items == copy
        else missing == None && config.items == Remaining(copy, Class)[Target := Obj(slots[t.s].handler)]
    {
      var target := config.items[Target];
      if !target.Str? || target.s !in handlers {
        return Some(Broken);
      }
      match handlers[target.s] {
        case RawNode(_) =>
          config.Update(copy);
          return Some(NotYet);
        case MadeNode(b) =>
          config.Update(map[Target := Obj(b)]);
          return None;
      }
    }

    method Build(factory: Value, kwargs: Items, formatter: Option<Value>, level: Option<Value>,
            filters: Option<Value>, props: Option<Value>)
      returns (r: Verdict)
      ensures r == Accepted(env, Built(factory, kwargs, formatter, level, filters, props))
    {
      var b := Built(factory, kwargs, formatter, level, filters, props);
      if (exists k :: k in kwargs && !ValidKey(k)) || !env.accepts(b) {
        return Broken;
      }
      return Ready(b);
    }

    /** One turn of either loop; the dictionary entry becomes the handler if there is one. */
    method ConfigureName(n: string) returns (r: Verdict)
      requires Valid() && IsRaw(Slots(), n)
      modifies this`handlers, dicts
      ensures Valid() && r == Attempt(env, old(Slots()), old(Slots())[n].items)
      ensures r.Ready? ==> Slots() == old(Slots())[n := Made(r.handler)]
      ensures r.NotYet? ==> Slots() == old(Slots())
    {
      var config := handlers[n].dict;
      ghost var slots := Slots();
      assert slots[n] == Raw(config.items);
      r := ConfigureHandler(config);
      if r.Ready? {
        handlers := handlers[n := MadeNode(r.handler)];
      }
    }

    method ConfigureTurn(n: string, second: bool, before: seq<string>, ghost step: Step)
      returns (deferred: seq<string>, failed: Option<string>)
      requires Valid() && IsRaw(Slots(), n) && Takes(step, env, second)
      modifies this`handlers, dicts
      ensures Valid() && failed == step(Round(old(Slots()), before, None), n).failed
      ensures failed.None? ==> step(Round(old(Slots()), before, None), n) == Round(Slots(), deferred, None)
    {
      ghost var r := Round(Slots(), before, None);
      assert step(r, n) == Turn(env, second, r, n);
      deferred, failed := before, None;
      var verdict := ConfigureName(n);
      match verdict {
        case Ready(_) =>
        case NotYet =>
          if second {
            failed := Some(n);
          } else {
            deferred := deferred + [n];
          }
        case Broken =>
          failed := Some(n);
      }
    }

    /** A loop over names: the sorted ones first, then the deferred ones. */
    method ConfigureNames(names: seq<string>, second: bool, ghost step: Step)
      returns (deferred: seq<string>, failed: Option<string>)
      requires Valid() && AllDifferent(names) && Takes(step, env, second) &&
        forall n :: n in names ==> IsRaw(Slots(), n)
      modifies this`handlers, dicts
      ensures Valid() && failed == Iterate(step, Round(old(Slots()), [], None), names, |names|).failed
      ensures failed.None? ==>
        Round(Slots(), deferred, None) == Iterate(step, Round(old(Slots()), [], None), names, |names|)
    {
      deferred, failed := [], None;
      ghost var start := Round(Slots(), [], None);
      for i := 0 to |names|
        invariant Valid() && Round(Slots(), deferred, None) == Iterate(step, start, names, i)
        invariant failed.None? && forall k :: i <= k < |names| ==> IsRaw(Slots(), names[k])
      {
        StillRaw(env, second, step, Round(Slots(), deferred, None), names, i);
        deferred, failed := ConfigureTurn(names[i], second, deferred, step);
        if failed.Some? {
          FailureStays(env, second, step, start, names, i + 1);
          return;
        }
      }
    }

    /** The handler pass of `configure`: all names in order, then the ones that were put off. */
    method Configure() returns (names: seq<string>, failed: Option<string>)
      requires Valid() && forall n :: n in Slots() ==> Slots()[n].Raw?
      modifies this`handlers, dicts
      ensures Valid() && Sorted(names) && forall n :: n in names <==> n in old(Slots())
      ensures failed == BothRounds(env, old(Slots()), names).failed
      ensures failed.None? ==> Slots() == BothRounds(env, old(Slots()), names).slots
    {
      names := SortNames(handlers.Keys);
      ghost var slots := Slots();
      SortedAllDifferent(names);
      DeferredAreRaw(env, slots, names, |names|);
      var deferred;
      deferred, failed := ConfigureNames(names, false, Turning(env, false));
      if failed.None? {
        var none;
        none, failed := ConfigureNames(deferred, true, Turning(env, true));
      }
    }
  }
}
