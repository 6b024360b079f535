/** The manager object: the dictionary of loggers and placeholders, and the two fix-up loops that
    link a new logger into the tree. */
module LoggerManager {
  import opened Wrappers
  import opened Names
  import opened Folds
  import opened LoggerGraph
  import opened LoggerObjects
  import R = LoggerRegistry
  import T = LoggerTree

  lemma SoundSameShape(reg: R.Registry<Logger>, recs: map<Logger, Rec<Logger>>)
    requires R.Sound<Logger>(reg) && SameShape<Logger>(reg.recs, recs)
    ensures R.Sound<Logger>(reg.(recs := recs))
  {
    SameShapeGraph<Logger>(reg.root, reg.recs, recs);
    forall p, m | p in reg.dict && reg.dict[p].Placeholder? && m in reg.dict[p].members
      ensures m in recs && IsAncestor(p, recs[m].name)
    {
      assert recs[m].name == reg.recs[m].name;
    }
    forall p | p in reg.dict && reg.dict[p].Known?
      ensures reg.dict[p].logger in recs && recs[reg.dict[p].logger].name == p
    {
      assert recs[reg.dict[p].logger].name == reg.recs[reg.dict[p].logger].name;
    }
    assert recs[reg.root].name == reg.recs[reg.root].name;
  }

  class Placeholder {
    var loggerMap: seq<Logger>

    constructor (alogger: Logger)
      ensures loggerMap == [alogger]
    {
      loggerMap := [alogger];
    }

    method Append(alogger: Logger)
      modifies this
      ensures loggerMap == R.Append<Logger>(old(loggerMap), alogger)
    {
      if alogger !in loggerMap {
        loggerMap := loggerMap + [alogger];
      }
    }
  }

  /** The names that the package's `getLogger` takes for the root. */
  predicate RootName(name: string) {
    name == "" || name == "root"
  }

  /** `rv` is what the package's `getLogger` returns, and `reg'` the registry afterwards. */
  ghost predicate Named(reg: R.Registry<Logger>, reg': R.Registry<Logger>, name: Option<string>, rv: Logger)
    requires R.Sound<Logger>(reg)
  {
    if name.None? || RootName(name.value) then rv == reg.root && reg' == reg
    else if R.IsKnown<Logger>(reg.dict, name.value) then rv == reg.dict[name.value].logger && reg' == reg
    else rv !in reg.recs && reg' == R.GetLogger<Logger>(reg, name.value, rv)
  }

  datatype Node = LoggerNode(logger: Logger) | PlaceholderNode(ph: Placeholder)

  class Manager {
    const root: Logger
    var loggerDict: map<string, Node>
    ghost var loggers: set<Logger>
    ghost var placeholders: set<Placeholder>

    /** Every placeholder object stands for one name. */
    ghost predicate Nodes()
      reads this
    {
      && (forall n {:trigger loggerDict[n]} :: n in loggerDict && loggerDict[n].PlaceholderNode? ==>
            loggerDict[n].ph in placeholders)
      && (forall n, m {:trigger loggerDict[n], loggerDict[m]} ::
            n in loggerDict && m in loggerDict && loggerDict[n].PlaceholderNode? && loggerDict[n] == loggerDict[m] ==>
              n == m)
    }

    /** The dictionary as a value. */
    ghost function DictView(): (d: map<string, R.Entry<Logger>>)
      requires Nodes()
      reads this, placeholders
      ensures d.Keys == loggerDict.Keys
    {
      map n | n in loggerDict ::
        match loggerDict[n]
        case LoggerNode(l) => R.Known(l)
        case PlaceholderNode(ph) => R.Placeholder(ph.loggerMap)
    }

    ghost function State(): R.Registry<Logger>
      requires Nodes()
      reads this, loggers, placeholders
    {
      R.Registry(root, View(loggers), DictView())
    }

    ghost predicate Valid()
      reads this, loggers, placeholders
    {
      Nodes() && R.Sound<Logger>(State())
    }

    /** The manager of a fresh root logger. */
    constructor (root: Logger)
      requires root.Record() == Rec("root", root.level, root.level, EnabledFlags(root.level), None, [], true, false, [])
      ensures this.root == root && Valid() && loggers == {root} && placeholders == {} && loggerDict == map[]
    {
      this.root := root;
      loggerDict := map[];
      loggers, placeholders := {root}, {};
      new;
      assert View(loggers)[root] == root.Record();
    }

    /** `getLogger(name)`: the logger of that name, created, entered and linked if there is none. */
    method GetLogger(name: string) returns (rv: Logger)
      requires Valid()
      modifies this`loggerDict, this`loggers, this`placeholders, loggers, placeholders
      ensures Valid() && rv in loggers && old(loggers) <= loggers
      ensures forall l :: l in loggers ==> l in old(loggers) || fresh(l)
      ensures forall p :: p in placeholders ==> p in old(placeholders) || fresh(p)
      ensures if R.IsKnown<Logger>(old(DictView()), name)
        then State() == old(State()) && rv == old(DictView())[name].logger
        else fresh(rv) && rv !in old(loggers) && State() == R.GetLogger<Logger>(old(State()), name, rv)
    {
      if name in loggerDict {
        match loggerDict[name] {
          case LoggerNode(l) =>
            rv := l;
          case PlaceholderNode(ph) =>
            rv := Promote(name, ph);
        }
      } else {
        rv := Create(name);
      }
    }

    /** The package's `getLogger(name=None)`: no name, the empty name and the root's own name mean the root. */
    method NamedLogger(name: Option<string>) returns (rv: Logger)
      requires Valid()
      modifies this`loggerDict, this`loggers, this`placeholders, loggers, placeholders
      ensures Valid() && rv in loggers && old(loggers) <= loggers
      ensures forall l :: l in loggers ==> l in old(loggers) || fresh(l)
      ensures forall p :: p in placeholders ==> p in old(placeholders) || fresh(p)
      ensures Named(old(State()), State(), name, rv)
      ensures name == None || name == Some("") || name == Some("root") ==> rv == root && State() == old(State())
      ensures rv == root ==> name == None || name == Some("") || name == Some("root")
    {
      assert View(loggers)[root] == root.Record();
      if name.None? || name.value == "" || name.value == root.name {
        return root;
      }
      rv := GetLogger(name.value);
    }

    /** A placeholder becomes a logger: its members first, then the parents. */
    method Promote(name: string, ph: Placeholder) returns (rv: Logger)
      requires Valid() && name in loggerDict && loggerDict[name] == PlaceholderNode(ph)
      modifies this`loggerDict, this`loggers, this`placeholders, loggers, placeholders
      ensures Valid() && loggers == old(loggers) + {rv} && fresh(rv)
      ensures (forall p :: p in placeholders ==> p in old(placeholders) || fresh(p))
      ensures State() == R.GetLogger<Logger>(old(State()), name, rv)
    {
      ghost var reg := State();
      var members := ph.loggerMap;
      rv := Enter(name);
      Adopt(name, members, rv, reg);
      Link(name, rv, reg);
    }

    method Adopt(name: string, members: seq<Logger>, rv: Logger, ghost reg: R.Registry<Logger>)
      requires R.Sound<Logger>(reg) && rv !in reg.recs && !R.IsKnown<Logger>(reg.dict, name) && name in reg.dict
      requires Nodes() && root == reg.root && rv in loggers && members == reg.dict[name].members
      requires View(loggers) == R.Enter<Logger>(reg, name, rv).recs && DictView() == R.Enter<Logger>(reg, name, rv).dict
      modifies loggers
      ensures Nodes() && placeholders == old(placeholders)
      ensures DictView() == old(DictView()) && View(loggers) == R.Adopted<Logger>(reg, name, rv)
    {
      R.EnterGraph<Logger>(reg, name, rv);
      FixupChildren(members, rv, root, loggers);
      DictKept();
    }

    /** A name met for the first time. */
    method Create(name: string) returns (rv: Logger)
      requires Valid() && name !in loggerDict
      modifies this`loggerDict, this`loggers, this`placeholders, loggers, placeholders
      ensures Valid() && loggers == old(loggers) + {rv} && fresh(rv)
      ensures (forall p :: p in placeholders ==> p in old(placeholders) || fresh(p))
      ensures State() == R.GetLogger<Logger>(old(State()), name, rv)
    {
      ghost var reg := State();
      rv := Enter(name);
      Link(name, rv, reg);
    }

    /** `self.cls(name)` entered in the dictionary. */
    method Enter(name: string) returns (rv: Logger)
      requires Nodes() && !R.IsKnown<Logger>(DictView(), name)
      modifies this`loggerDict, this`loggers
      ensures fresh(rv) && rv.name == name && loggers == old(loggers) + {rv} && Nodes()
      ensures placeholders == old(placeholders)
      ensures View(loggers) == old(View(loggers))[rv := R.NewRec(name)]
      ensures DictView() == old(DictView())[name := R.Known(rv)]
    {
      rv := new Logger(name, NOTSET);
      Register(name, rv);
      ViewGrown(rv);
    }

    twostate lemma ViewGrown(new rv: Logger)
      requires rv !in old(loggers) && loggers == old(loggers) + {rv}
      requires forall l :: l in old(loggers) ==> l.Record() == old(l.Record())
      ensures View(loggers) == old(View(loggers))[rv := rv.Record()]
    {
    }

    method Register(name: string, rv: Logger)
      requires Nodes()
      modifies this`loggerDict, this`loggers
      ensures loggers == old(loggers) + {rv}
      ensures Nodes() && DictView() == old(DictView())[name := R.Known(rv)]
    {
      loggerDict := loggerDict[name := LoggerNode(rv)];
      loggers := loggers + {rv};
    }

    /** The last step of a creation: the parents, which completes the registry. */
    method Link(name: string, rv: Logger, ghost reg: R.Registry<Logger>)
      requires R.Sound<Logger>(reg) && rv !in reg.recs && !R.IsKnown<Logger>(reg.dict, name)
      requires Nodes() && rv.name == name && root == reg.root && rv in loggers
      requires View(loggers) == R.Adopted<Logger>(reg, name, rv) && DictView() == R.Enter<Logger>(reg, name, rv).dict
      modifies this`loggerDict, this`placeholders, loggers, placeholders
      ensures Valid() && (forall p :: p in placeholders ==> p in old(placeholders) || fresh(p))
      ensures State() == R.GetLogger<Logger>(reg, name, rv)
    {
      R.ScannedParentAbove<Logger>(reg, name, rv);
      T.GetLoggerSound<Logger>(reg, name, rv);
      FixupParents(rv);
    }

    /** `_fixupParents`. */
    method FixupParents(alogger: Logger)
      requires Nodes() && alogger in loggers && Graph<Logger>(root, View(loggers))
      requires ParentOf(alogger) in loggers && Above<Logger>(root, View(loggers), ParentOf(alogger), alogger)
      modifies this`loggerDict, this`placeholders, loggers, placeholders
      ensures Nodes() && (forall p :: p in placeholders ==> p in old(placeholders) || fresh(p))
      ensures DictView() ==
        R.ScanUp<Logger>(old(DictView()), alogger, alogger.name, RFindDot(alogger.name, |alogger.name|)).0
      ensures View(loggers) == LoggerGraph.SetParent<Logger>(root, old(View(loggers)), alogger, old(ParentOf(alogger)))
    {
      var loggerParent := ScanParents(alogger);
      if loggerParent == null {
        loggerParent := root;
      }
      Attach(alogger, loggerParent);
    }

    /** The assignment `alogger.parent = logger_parent` leaves the dictionary alone. */
    method Attach(alogger: Logger, loggerParent: Logger)
      requires Nodes() && alogger in loggers && loggerParent in loggers
      requires Graph<Logger>(root, View(loggers)) && Above<Logger>(root, View(loggers), loggerParent, alogger)
      modifies alogger, loggerParent
      ensures Nodes() && DictView() == old(DictView())
      ensures View(loggers) == LoggerGraph.SetParent<Logger>(root, old(View(loggers)), alogger, loggerParent)
    {
      alogger.SetParent(loggerParent, root, loggers);
      DictKept();
    }

    twostate lemma DictKept()
      requires old(Nodes()) && loggerDict == old(loggerDict) && placeholders == old(placeholders)
      requires forall p :: p in placeholders ==> p.loggerMap == old(p.loggerMap)
      ensures Nodes() && DictView() == old(DictView())
    {
    }

    twostate lemma ViewKept()
      requires loggers == old(loggers)
      requires forall l :: l in loggers ==> l.Record() == old(l.Record())
      ensures View(loggers) == old(View(loggers))
    {
    }

    /** What is written to loggers other than their links keeps the manager valid. */
    twostate lemma LinksKept()
      requires old(Valid()) && loggerDict == old(loggerDict) && loggers == old(loggers) &&
        placeholders == old(placeholders)
      requires forall p :: p in placeholders ==> p.loggerMap == old(p.loggerMap)
      requires forall l :: l in loggers ==> l.parent == old(l.parent) && l.children == old(l.children)
      ensures Valid()
    {
      DictKept();
      SoundSameShape(old(State()), View(loggers));
    }

    /** The parent the upward scan will find. */
    ghost function ParentOf(alogger: Logger): Logger
      requires Nodes()
      reads this, placeholders
    {
      var par := R.ScanUp<Logger>(DictView(), alogger, alogger.name, RFindDot(alogger.name, |alogger.name|)).1;
      if par.None? then root else par.value
    }

    /** The loop of `_fixupParents`: placeholders from the name's last dot up to the first logger,
        which is returned. */
    method ScanParents(alogger: Logger) returns (loggerParent: Logger?)
      requires Nodes()
      modifies this`loggerDict, this`placeholders, placeholders
      ensures Nodes() && (forall p :: p in placeholders ==> p in old(placeholders) || fresh(p))
      ensures View(loggers) == old(View(loggers))
      ensures (DictView(), if loggerParent == null then None else Some(loggerParent)) ==
        R.ScanUp<Logger>(old(DictView()), alogger, alogger.name, RFindDot(alogger.name, |alogger.name|))
    {
      var name := alogger.name;
      var i := RFindDot(name, |name|);
      loggerParent := null;
      ghost var goal := R.ScanUp<Logger>(DictView(), alogger, name, i);
      while i > 0 && loggerParent == null
        invariant i < |name| && (i == -1 || (0 <= i && name[i] == '.'))
        invariant Nodes() && (forall p :: p in placeholders ==> p in old(placeholders) || fresh(p))
        invariant View(loggers) == old(View(loggers))
        invariant goal == if loggerParent == null then R.ScanUp<Logger>(DictView(), alogger, name, i)
                          else (DictView(), Some(loggerParent))
        decreases i
      {
        var substr := name[..i];
        if substr !in loggerDict || loggerDict[substr].PlaceholderNode? {
          NotePrefix(substr, alogger);
        } else {
          loggerParent := loggerDict[substr].logger;
        }
        i := RFindDot(name, i - 1);
      }
    }

    /** A prefix without a logger: a new placeholder, or one more member of the existing one. */
    method NotePrefix(substr: string, alogger: Logger)
      requires Nodes() && !R.IsKnown<Logger>(DictView(), substr)
      modifies this`loggerDict, this`placeholders, placeholders
      ensures Nodes() && (forall p :: p in placeholders ==> p in old(placeholders) || fresh(p))
      ensures View(loggers) == old(View(loggers))
      ensures DictView() ==
        old(DictView())[substr := R.Placeholder(R.MembersWith<Logger>(old(DictView()), substr, alogger))]
    {
      if substr !in loggerDict {
        NewPlaceholder(substr, alogger);
      } else {
        var ph := loggerDict[substr].ph;
        ph.Append(alogger);
        assert forall p :: p in placeholders && p != ph ==> p.loggerMap == old(p.loggerMap);
      }
      ViewKept();
    }

    method NewPlaceholder(substr: string, alogger: Logger)
      requires Nodes() && substr !in loggerDict
      modifies this`loggerDict, this`placeholders
      ensures Nodes() && (forall p :: p in placeholders ==> p in old(placeholders) || fresh(p))
      ensures DictView() == old(DictView())[substr := R.Placeholder([alogger])]
    {
      var ph := new Placeholder(alogger);
      loggerDict := loggerDict[substr := PlaceholderNode(ph)];
      placeholders := placeholders + {ph};
    }

    /** `_fixupChildren` over the members of a placeholder: every member whose parent is not named
        below `alogger` is adopted. */
    static method FixupChildren(members: seq<Logger>, alogger: Logger, ghost root: Logger, ghost all: set<Logger>)
      requires alogger in all && Graph<Logger>(root, View(all))
      requires R.MembersBelow<Logger>(root, View(all), alogger, members)
      modifies all
      ensures View(all) == R.AdoptAll<Logger>(root, old(View(all)), alogger, members)
    {
      ghost var v0 := View(all);
      var i := 0;
      while i < |members|
        invariant i <= |members|
        invariant View(all) == Iterate(R.Adopting<Logger>(root, alogger), v0, members, i)
      {
        AdoptMember(members, i, alogger, v0, root, all);
        i := i + 1;
      }
    }

    /** The body of the loop. */
    static method AdoptMember(members: seq<Logger>, i: nat, alogger: Logger, ghost v0: map<Logger, Rec<Logger>>,
                              ghost root: Logger, ghost all: set<Logger>)
      requires i < |members| && alogger in v0 && Graph<Logger>(root, v0) &&
        R.MembersBelow<Logger>(root, v0, alogger, members)
      requires View(all) == Iterate(R.Adopting<Logger>(root, alogger), v0, members, i)
      modifies all
      ensures View(all) == Iterate(R.Adopting<Logger>(root, alogger), v0, members, i + 1)
    {
      var c := members[i];
      ghost var r2 := Iterate(R.Adopting<Logger>(root, alogger), v0, members, i + 1);
      R.TurnSpelledOut<Logger>(root, v0, alogger, members, i, View(all), r2);
      assert View(all)[c] == c.Record();
      if R.Take(c.parent.name, |alogger.name|) != alogger.name {
        Reparent(c, alogger, root, all);
      }
    }

    /** The two assignments: `alogger` goes under the member's parent, the member under `alogger`. */
    static method Reparent(c: Logger, alogger: Logger, ghost root: Logger, ghost all: set<Logger>)
      requires c in all && alogger in all && c.parent != null && c.parent in all
      requires Graph<Logger>(root, View(all)) && Above<Logger>(root, View(all), c.parent, alogger)
      requires var r1 := LoggerGraph.SetParent<Logger>(root, View(all), alogger, c.parent);
        Graph<Logger>(root, r1) && Above<Logger>(root, r1, alogger, c)
      modifies all
      ensures View(all) == LoggerGraph.SetParent<Logger>(
        root, LoggerGraph.SetParent<Logger>(root, old(View(all)), alogger, old(c.parent)), c, alogger)
    {
      alogger.SetParent(c.parent, root, all);
      c.SetParent(alogger, root, all);
    }
  }
}
