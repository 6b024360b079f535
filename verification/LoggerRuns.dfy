/** Whole runs of `getLogger` and `setLevel`, the gates of the logging methods, and the exact point
    where children lists stop being exact. */
module LoggerRuns {
  import opened Wrappers
  import opened Names
  import opened Folds
  import opened LoggerGraph
  import opened LoggerRegistry
  import opened LoggerTree
  import opened LoggerCoherence

  /** The registry as the package creates it: a root logger at WARNING. */
  ghost function Initial<I>(root: I): Registry<I> {
    Registry(root, map[root := Rec("root", WARNING, WARNING, EnabledFlags(WARNING), None, [], true, false, [])], map[])
  }

  lemma InitialIsTree<I>(root: I)
    ensures Tree(Initial(root)) && Coherent(root, Initial(root).recs) && Exact(Initial(root).recs)
  {
    var reg := Initial(root);
    assert reg.recs.Keys == {root};
    assert Graph(root, reg.recs);
  }

  // ----- setLevel in the registry

  ghost function WithLevel<I>(reg: Registry<I>, x: I, v: Level): Registry<I>
    requires Graph(reg.root, reg.recs) && x in reg.recs
  {
    reg.(recs := SetLevel(reg.root, reg.recs, x, v))
  }

  lemma WithLevelSound<I>(reg: Registry<I>, x: I, v: Level)
    requires Sound(reg) && x in reg.recs
    ensures Sound(WithLevel(reg, x, v))
    ensures Tree(reg) ==> Tree(WithLevel(reg, x, v))
    ensures Exact(reg.recs) ==> Exact(WithLevel(reg, x, v).recs)
  {
    SetLevelShape(reg.root, reg.recs, x, v);
    var r := WithLevel(reg, x, v).recs;
    assert forall y {:trigger r[y].name} :: y in r ==> r[y].name == reg.recs[y].name;
    assert forall y {:trigger r[y].parent} :: y in r ==> r[y].parent == reg.recs[y].parent;
    SameNamesRegistered(reg.root, reg.recs, r, reg.dict);
    if Tree(reg) {
      SameNamesTree(reg.root, reg.recs, r, reg.dict);
    }
  }

  lemma SameNamesRegistered<I>(root: I, recs: map<I, Rec<I>>, r: map<I, Rec<I>>, dict: Dict<I>)
    requires SameShape(recs, r) && Registered(root, recs, dict)
    ensures Registered(root, r, dict)
  {
    assert r[root].name == recs[root].name;
    forall p | p in dict && dict[p].Known?
      ensures dict[p].logger in r && dict[p].logger != root && r[dict[p].logger].name == p
    {
    }
    forall p, m | p in dict && dict[p].Placeholder? && m in dict[p].members
      ensures m in r && m != root && IsAncestor(p, r[m].name)
    {
      assert r[m].name == recs[m].name;
    }
    forall x | x in r && x != root
      ensures r[x].name in dict && dict[r[x].name] == Known(x)
    {
      assert r[x].name == recs[x].name;
    }
  }

  lemma SameNamesTree<I>(root: I, recs: map<I, Rec<I>>, r: map<I, Rec<I>>, dict: Dict<I>)
    requires SameShape(recs, r) && Complete(root, recs, dict) && NearestParents(root, recs, dict)
    ensures Complete(root, r, dict) && NearestParents(root, r, dict)
  {
    forall p, x | p in dict && dict[p].Placeholder? && x in r && x != root &&
        IsAncestor(p, r[x].name) && Nearest(dict, r[x].name) < |p|
      ensures x in dict[p].members
    {
      assert r[x].name == recs[x].name && IsAncestor(p, recs[x].name);
    }
    forall x | x in r && x != root
      ensures r[x].parent == Some(NearestLogger(root, dict, r[x].name))
    {
      assert r[x].name == recs[x].name && r[x].parent == recs[x].parent;
    }
  }

  // ----- runs

  /** One call: `getLogger(name)`, with the logger object it would create, or `x.setLevel(v)`. */
  datatype Op<I> = Get(name: string, a: I) | Set(x: I, v: Level)

  ghost function Apply<I>(reg: Registry<I>, op: Op<I>): (r: Registry<I>)
    requires Sound(reg) && InScope(reg, op)
    ensures Sound(r) && r.root == reg.root
  {
    match op
    case Get(name, a) =>
      GetLoggerSound(reg, name, a);
      GetLogger(reg, name, a)
    case Set(x, v) =>
      WithLevelSound(reg, x, v);
      WithLevel(reg, x, v)
  }

  /** The call refers to loggers that exist, and creates one that does not. */
  ghost predicate InScope<I>(reg: Registry<I>, op: Op<I>) {
    match op
    case Get(name, a) => a !in reg.recs
    case Set(x, v) => x in reg.recs
  }

  /** The call satisfies the condition under which it keeps every cache right. */
  ghost predicate Careful<I>(reg: Registry<I>, op: Op<I>)
    requires Sound(reg)
  {
    InScope(reg, op) &&
    match op
    case Get(name, a) => LevelsAgree(reg, name, a)
    case Set(x, v) => SetLevelGuard(reg.root, reg.recs, x, v)
  }

  /** The call satisfies the condition under which it also keeps the tree. */
  ghost predicate Tidy<I>(reg: Registry<I>, op: Op<I>)
    requires Sound(reg)
  {
    InScope(reg, op) &&
    match op
    case Get(name, a) => Plain(name) && !ConfusedWithRoot(reg.dict, name)
    case Set(x, v) => SetLevelGuard(reg.root, reg.recs, x, v)
  }

  /** The call promotes no placeholder and sets no level to NOTSET. */
  ghost predicate Quiet<I>(reg: Registry<I>, op: Op<I>) {
    InScope(reg, op) &&
    match op
    case Get(name, a) => name in reg.dict ==> reg.dict[name].Known?
    case Set(x, v) => v > NOTSET
  }

  ghost predicate CarefulRun<I>(reg: Registry<I>, ops: seq<Op<I>>)
    requires Sound(reg)
    decreases |ops|
  {
    ops == [] || (Careful(reg, ops[0]) && CarefulRun(Apply(reg, ops[0]), ops[1..]))
  }

  ghost predicate TidyRun<I>(reg: Registry<I>, ops: seq<Op<I>>)
    requires Sound(reg)
    decreases |ops|
  {
    ops == [] || (Tidy(reg, ops[0]) && TidyRun(Apply(reg, ops[0]), ops[1..]))
  }

  ghost predicate QuietRun<I>(reg: Registry<I>, ops: seq<Op<I>>)
    requires Sound(reg)
    decreases |ops|
  {
    ops == [] || (Quiet(reg, ops[0]) && QuietRun(Apply(reg, ops[0]), ops[1..]))
  }

  ghost predicate ScopedRun<I>(reg: Registry<I>, ops: seq<Op<I>>)
    requires Sound(reg)
    decreases |ops|
  {
    ops == [] || (InScope(reg, ops[0]) && ScopedRun(Apply(reg, ops[0]), ops[1..]))
  }

  ghost function Run<I>(reg: Registry<I>, ops: seq<Op<I>>): (r: Registry<I>)
    requires Sound(reg) && ScopedRun(reg, ops)
    ensures Sound(r) && r.root == reg.root
    decreases |ops|
  {
    if ops == [] then reg else Run(Apply(reg, ops[0]), ops[1..])
  }

  /** Every cache is right before the run and after each of its calls. */
  ghost predicate CoherentThroughout<I>(reg: Registry<I>, ops: seq<Op<I>>)
    requires Sound(reg) && ScopedRun(reg, ops)
    decreases |ops|
  {
    Coherent(reg.root, reg.recs) && (ops == [] || CoherentThroughout(Apply(reg, ops[0]), ops[1..]))
  }

  /** A call from any sound state with right caches leaves right caches exactly if it is careful. */
  lemma CarefulIsExact<I>(reg: Registry<I>, op: Op<I>)
    requires Sound(reg) && Coherent(reg.root, reg.recs) && InScope(reg, op)
    ensures Coherent(reg.root, Apply(reg, op).recs) <==> Careful(reg, op)
  {
    match op
    case Get(name, a) => GetLoggerCoherent(reg, name, a);
    case Set(x, v) => SetLevelCoherence(reg.root, reg.recs, x, v);
  }

  /** Over any run at all, whatever the names, the caches are right throughout exactly if each call is
      careful in the state in which it is made. */
  lemma {:induction false} CarefulRunCoherent<I>(reg: Registry<I>, ops: seq<Op<I>>)
    requires Sound(reg) && Coherent(reg.root, reg.recs) && ScopedRun(reg, ops)
    ensures CoherentThroughout(reg, ops) <==> CarefulRun(reg, ops)
    ensures CarefulRun(reg, ops) ==> Coherent(reg.root, Run(reg, ops).recs)
    decreases |ops|
  {
    if ops != [] {
      CarefulIsExact(reg, ops[0]);
      if Careful(reg, ops[0]) {
        CarefulRunCoherent(Apply(reg, ops[0]), ops[1..]);
      }
    }
  }

  // ----- runs that keep the tree

  /** A call from a state with a right tree and right caches leaves such a state exactly if it is tidy. */
  lemma TidyIsExact<I>(reg: Registry<I>, op: Op<I>)
    requires Tree(reg) && Coherent(reg.root, reg.recs) && InScope(reg, op)
    requires op.Get? ==> Plain(op.name)
    ensures Tree(Apply(reg, op)) && Coherent(reg.root, Apply(reg, op).recs) <==> Tidy(reg, op)
  {
    CarefulIsExact(reg, op);
    match op
    case Get(name, a) =>
      GetLoggerTree(reg, name, a);
      TreeHidesGetLogger(reg, name, a);
    case Set(x, v) => WithLevelSound(reg, x, v);
  }

  /** Over any tidy run, promotions included, the tree and every cache stay right. */
  lemma {:induction false} TidyRunCoherent<I>(reg: Registry<I>, ops: seq<Op<I>>)
    requires Tree(reg) && Coherent(reg.root, reg.recs) && TidyRun(reg, ops)
    ensures ScopedRun(reg, ops) && Tree(Run(reg, ops)) && Coherent(reg.root, Run(reg, ops).recs)
    decreases |ops|
  {
    if ops != [] {
      TidyIsExact(reg, ops[0]);
      TidyRunCoherent(Apply(reg, ops[0]), ops[1..]);
    }
  }

  // ----- exact children lists

  lemma EnteredExact<I>(reg: Registry<I>, name: string, a: I)
    requires Sound(reg) && Exact(reg.recs) && a !in reg.recs && !IsKnown(reg.dict, name)
    ensures Exact(Enter(reg, name, a).recs) && Enter(reg, name, a).recs[a].parent.None?
  {
    var r0 := Enter(reg, name, a).recs;
    EnterGraph(reg, name, a);
    forall x, c | x in r0 && c in r0[x].children
      ensures c in r0 && r0[c].parent == Some(x)
    {
      assert c in reg.recs[x].children;
    }
  }

  /** Adoption of members none of which moves does nothing. */
  lemma AdoptNone<I>(root: I, recs: map<I, Rec<I>>, a: I, ms: seq<I>)
    requires a in recs && forall m :: m in ms ==> !Moves(recs, m, recs[a].name)
    ensures AdoptAll(root, recs, a, ms) == recs
  {
    var inv := (r: map<I, Rec<I>>, i: nat) => r == recs;
    forall r: map<I, Rec<I>>, i: nat | i < |ms| && inv(r, i)
      ensures inv(Adopting(root, a)(r, ms[i]), i + 1)
    {
      assert ms[i] in ms;
    }
    IterateKeeps(Adopting(root, a), recs, ms, |ms|, inv);
  }

  lemma NoneAdopted<I>(reg: Registry<I>, name: string, a: I)
    requires Sound(reg) && a !in reg.recs && !IsKnown(reg.dict, name)
    requires forall x :: x in reg.recs ==> !IsMoved(reg, name, x)
    ensures Adopted(reg, name, a) == Enter(reg, name, a).recs
  {
    if name in reg.dict {
      var ms := reg.dict[name].members;
      forall m | m in ms
        ensures !Moves(Enter(reg, name, a).recs, m, name)
      {
        assert m in reg.recs;
        MovesEntered(reg, name, a, m);
      }
      AdoptNone(reg.root, Enter(reg, name, a).recs, a, ms);
    }
  }

  lemma ExactWithoutMoves<I>(reg: Registry<I>, name: string, a: I)
    requires Sound(reg) && Exact(reg.recs) && a !in reg.recs && !IsKnown(reg.dict, name)
    requires forall x :: x in reg.recs ==> !IsMoved(reg, name, x)
    ensures Exact(GetLogger(reg, name, a).recs)
  {
    var r0 := Enter(reg, name, a).recs;
    EnteredExact(reg, name, a);
    NoneAdopted(reg, name, a);
    LinkedRecords(reg, name, a);
    EnterGraph(reg, name, a);
    SetParentListed(reg.root, r0, a, ScannedParent(reg, name, a));
  }

  /** Assigning a parent takes no logger off any list. */
  lemma SetParentKeepsChildren<I>(root: I, recs: map<I, Rec<I>>, x: I, p: I, q: I, c: I)
    requires Graph(root, recs) && x in recs && p in recs && Above(root, recs, p, x)
    requires q in recs && c in recs[q].children
    ensures c in SetParent(root, recs, x, p)[q].children
  {
    LinkGraph(root, recs, x, p);
    LinkChildren(recs, x, p);
    SetParentShape(root, recs, x, p);
  }

  ghost predicate KeepsChild<I>(root: I, recs: map<I, Rec<I>>, r: map<I, Rec<I>>, q: I, c: I) {
    AdoptInv(root, recs, r) && q in r && c in r[q].children
  }

  lemma AdoptKeepsChild<I>(root: I, recs: map<I, Rec<I>>, r: map<I, Rec<I>>, a: I, m: I, q: I, c: I)
    requires KeepsChild(root, recs, r, q, c) && MemberBelow(root, recs, a, m)
    ensures KeepsChild(root, recs, Adopt(root, r, a, m), q, c)
  {
    AdoptInvStep(root, recs, r, a, m);
    if Detached(r, m, r[a].name) {
      var p := r[m].parent.value;
      DetachedIsAbove(root, r, a, m);
      SetParentKeepsChildren(root, r, a, p, q, c);
      SetParentGraph(root, r, a, p);
      SetParentSettings(root, r, a, p);
      MemberStaysBelow(root, r, SetParent(root, r, a, p), a, m);
      SetParentKeepsChildren(root, SetParent(root, r, a, p), m, a, q, c);
    }
  }

  lemma AdoptAllKeepsChild<I>(root: I, recs: map<I, Rec<I>>, a: I, ms: seq<I>, q: I, c: I)
    requires Graph(root, recs) && MembersBelow(root, recs, a, ms) && q in recs && c in recs[q].children
    ensures KeepsChild(root, recs, AdoptAll(root, recs, a, ms), q, c)
  {
    var inv := (r: map<I, Rec<I>>, i: nat) => KeepsChild(root, recs, r, q, c);
    forall r: map<I, Rec<I>>, i: nat | i < |ms| && inv(r, i)
      ensures inv(Adopting(root, a)(r, ms[i]), i + 1)
    {
      assert ms[i] in ms;
      AdoptKeepsChild(root, recs, r, a, ms[i], q, c);
    }
    IterateKeeps(Adopting(root, a), recs, ms, |ms|, inv);
  }

  /** Every moved logger stays on the list of the parent it leaves. */
  lemma MoveLeavesStaleChild<I>(reg: Registry<I>, name: string, a: I, y: I)
    requires Sound(reg) && a !in reg.recs && IsMoved(reg, name, y)
    ensures y in reg.recs && reg.recs[y].parent.Some? && reg.recs[y].parent.value in reg.recs
    ensures var (r, q) := (GetLogger(reg, name, a).recs, reg.recs[y].parent.value);
      && y in r && q in r && a in r && q != a && r[y].parent == Some(a) && y in r[q].children
  {
    var r0, q, ms := Enter(reg, name, a).recs, reg.recs[y].parent.value, reg.dict[name].members;
    EnterGraph(reg, name, a);
    LinksAfter(reg, name, a);
    LinkedRecords(reg, name, a);
    assert y in r0[q].children;
    AdoptAllKeepsChild(reg.root, r0, a, ms, q, y);
    ScannedParentAbove(reg, name, a);
    SetParentKeepsChildren(reg.root, Adopted(reg, name, a), a, ScannedParent(reg, name, a), q, y);
  }

  /** From exact children lists, `getLogger` leaves exact lists exactly when it moves no logger. */
  lemma ExactUntilMove<I>(reg: Registry<I>, name: string, a: I)
    requires Sound(reg) && Exact(reg.recs) && a !in reg.recs
    ensures Exact(GetLogger(reg, name, a).recs) <==> forall x :: x in reg.recs ==> !IsMoved(reg, name, x)
  {
    if y :| y in reg.recs && IsMoved(reg, name, y) {
      MoveLeavesStaleChild(reg, name, a, y);
    } else if !IsKnown(reg.dict, name) {
      ExactWithoutMoves(reg, name, a);
    }
  }

  lemma QuietStep<I>(reg: Registry<I>, op: Op<I>)
    requires Sound(reg) && Exact(reg.recs) && Quiet(reg, op)
    ensures Careful(reg, op) && Exact(Apply(reg, op).recs)
  {
    match op
    case Get(name, a) => ExactUntilMove(reg, name, a);
    case Set(x, v) =>
      WithLevelSound(reg, x, v);
      ExactPassesGuard(reg.root, reg.recs, x, v);
  }

  /** Without promotions and NOTSET, no further condition is needed: every such run, whatever the
      names, is careful, so every cached level is always the level of the walk. */
  lemma {:induction false} QuietRunCoherent<I>(reg: Registry<I>, ops: seq<Op<I>>)
    requires Sound(reg) && Coherent(reg.root, reg.recs) && Exact(reg.recs) && QuietRun(reg, ops)
    ensures ScopedRun(reg, ops) && CarefulRun(reg, ops)
    ensures Exact(Run(reg, ops).recs) && Coherent(reg.root, Run(reg, ops).recs)
    decreases |ops|
  {
    if ops != [] {
      QuietStep(reg, ops[0]);
      CarefulIsExact(reg, ops[0]);
      QuietRunCoherent(Apply(reg, ops[0]), ops[1..]);
    }
  }

  // ----- the gates

  /** In a coherent registry the method of a standard level logs exactly if the walk admits it,
      wherever the walk ends at a standard level or above CRITICAL. */
  lemma GatesDecideAsWalk<I>(root: I, recs: map<I, Rec<I>>, x: I)
    requires Graph(root, recs) && Coherent(root, recs) && x in recs
    ensures Gateable(Walk(root, recs, x)) <==> GatesRight(root, recs, x)
  {
    assert CoherentAt(root, recs, x);
    FlagsAreThresholds(Walk(root, recs, x));
  }

  /** Levels at which the gates can decide right: the root is set, and every set level is a standard
      one or above CRITICAL. */
  ghost predicate Gated<I>(root: I, recs: map<I, Rec<I>>) {
    && root in recs && recs[root].level > NOTSET
    && forall x {:trigger recs[x].level} :: x in recs ==> recs[x].level == NOTSET || Gateable(recs[x].level)
  }

  lemma {:induction false} GatedWalk<I>(root: I, recs: map<I, Rec<I>>, x: I)
    requires Graph(root, recs) && HasParents(root, recs) && Gated(root, recs) && x in recs
    ensures Gateable(Walk(root, recs, x))
    decreases Rank(root, recs, x)
  {
    if recs[x].level == NOTSET {
      GatedWalk(root, recs, recs[x].parent.value);
    }
  }

  /** Every level set is a standard one or above CRITICAL. */
  ghost predicate GateableLevels<I>(ops: seq<Op<I>>) {
    forall op :: op in ops && op.Set? ==> Gateable(op.v)
  }

  lemma GatedStep<I>(reg: Registry<I>, op: Op<I>)
    requires Sound(reg) && InScope(reg, op) && Gated(reg.root, reg.recs) && (op.Set? ==> Gateable(op.v))
    ensures Gated(reg.root, Apply(reg, op).recs)
  {
    match op
    case Get(name, a) =>
      if !IsKnown(reg.dict, name) {
        GatedEntered(reg, name, a);
      }
    case Set(x, v) => GatedSet(reg.root, reg.recs, x, v);
  }

  lemma GatedSet<I>(root: I, recs: map<I, Rec<I>>, x: I, v: Level)
    requires Graph(root, recs) && x in recs && Gated(root, recs) && Gateable(v)
    ensures Gated(root, SetLevel(root, recs, x, v))
  {
    var r := SetLevel(root, recs, x, v);
    forall y | y in r
      ensures r[y].level == if y == x then v else recs[y].level
    {
    }
  }

  lemma GatedEntered<I>(reg: Registry<I>, name: string, a: I)
    requires Sound(reg) && a !in reg.recs && !IsKnown(reg.dict, name) && Gated(reg.root, reg.recs)
    ensures Gated(reg.root, GetLogger(reg, name, a).recs)
  {
    var r0, r := Enter(reg, name, a).recs, GetLogger(reg, name, a).recs;
    LinkedSettings(reg, name, a);
    forall x | x in r
      ensures r[x].level == if x == a then NOTSET else reg.recs[x].level
    {
      assert r[x].level == r0[x].level;
    }
  }

  lemma {:induction false} GatedRun<I>(reg: Registry<I>, ops: seq<Op<I>>)
    requires Sound(reg) && Gated(reg.root, reg.recs) && ScopedRun(reg, ops) && GateableLevels(ops)
    ensures Gated(reg.root, Run(reg, ops).recs)
    decreases |ops|
  {
    if ops != [] {
      assert ops[0] in ops && forall op :: op in ops[1..] ==> op in ops;
      GatedStep(reg, ops[0]);
      GatedRun(Apply(reg, ops[0]), ops[1..]);
    }
  }

  /** The method of every standard level logs exactly if the walk admits it. */
  ghost predicate GatesRight<I>(root: I, recs: map<I, Rec<I>>, x: I)
    requires x in recs
  {
    forall level: Level | level in {DEBUG, INFO, WARNING, ERROR, CRITICAL} ::
      FlagFor(recs[x].flags, level) == (Walk(root, recs, x) <= level)
  }

  /** Over any careful run whose levels are standard or above CRITICAL, whatever the names, every gate
      of every logger decides as the walk does; without promotions every such run is careful. */
  lemma GatesRightOverRuns<I>(reg: Registry<I>, ops: seq<Op<I>>, x: I)
    requires Sound(reg) && Coherent(reg.root, reg.recs) && Gated(reg.root, reg.recs) && GateableLevels(ops)
    requires ScopedRun(reg, ops) && x in Run(reg, ops).recs
    requires CarefulRun(reg, ops) || (Exact(reg.recs) && QuietRun(reg, ops))
    ensures GatesRight(reg.root, Run(reg, ops).recs, x)
  {
    if QuietRun(reg, ops) && Exact(reg.recs) {
      QuietRunCoherent(reg, ops);
    }
    CarefulRunCoherent(reg, ops);
    GatedRun(reg, ops);
    GatedWalk(reg.root, Run(reg, ops).recs, x);
    GatesDecideAsWalk(reg.root, Run(reg, ops).recs, x);
  }

  /** Where every run begins. */
  lemma InitialIsGated<I>(root: I)
    ensures Gated(root, Initial(root).recs)
  {
  }

  // ----- promotions that break a cache

  /** The promoted logger set to `u`: `y` is unset, under `a`, and still on the list of `q`. */
  lemma StaleAfterSet<I>(reg: Registry<I>, g: Registry<I>, a: I, u: Level, q: I, y: I)
    requires Sound(g) && g.root == reg.root && a in g.recs && q in g.recs && y in g.recs && y != a && a != q
    requires y in g.recs[q].children && g.recs[y].parent == Some(a) && g.recs[y].level == NOTSET
    ensures var s := WithLevel(g, a, u).recs;
      && Graph(reg.root, s) && q in s && y in s && a in s
      && y in s[q].children && s[y].parent == Some(a) && s[y].level == NOTSET && s[a].level == u
  {
    SetLevelShape(g.root, g.recs, a, u);
    var s := WithLevel(g, a, u).recs;
    assert s[q].children == g.recs[q].children && s[y].parent == g.recs[y].parent;
  }

  /** After a promotion two `setLevel` calls, each to a set level, leave a wrong cache for any moved
      logger that is unset: the push from its former parent reaches past the logger now between. */
  lemma PushPastMoved<I>(reg: Registry<I>, name: string, a: I, y: I, u: Level, v: Level)
    requires Sound(reg) && a !in reg.recs && IsMoved(reg, name, y) && reg.recs[y].level == NOTSET
    requires NOTSET < u && NOTSET < v && u != v
    ensures var (g, q) := (GetLogger(reg, name, a), reg.recs[y].parent.value);
      && Sound(g) && a in g.recs && Sound(WithLevel(g, a, u)) && q in WithLevel(g, a, u).recs
      && !Coherent(reg.root, WithLevel(WithLevel(g, a, u), q, v).recs)
  {
    var q, g := reg.recs[y].parent.value, GetLogger(reg, name, a);
    MoveLeavesStaleChild(reg, name, a, y);
    GetLoggerSound(reg, name, a);
    SettingsUnseen(reg, name, a, y);
    StaleAfterSet(reg, g, a, u, q, y);
    WithLevelSound(g, a, u);
    StaleChildBreaksPush(g.root, WithLevel(g, a, u).recs, q, a, y, v);
  }

  /** An unset logger `y` on the list of `q` but under a logger set to another level. */
  lemma StaleChildBreaksPush<I>(root: I, recs: map<I, Rec<I>>, q: I, a: I, y: I, v: Level)
    requires Graph(root, recs) && q in recs && a in recs && y in recs && a != q && v > NOTSET
    requires y in recs[q].children && recs[y].level == NOTSET && recs[y].parent == Some(a)
    requires recs[a].level != NOTSET && recs[a].level != v
    ensures Graph(root, SetLevel(root, recs, q, v)) && !Coherent(root, SetLevel(root, recs, q, v))
  {
    SetLevelShape(root, recs, q, v);
    ReachIsLeastClosed(root, recs, q);
    var r := SetLevel(root, recs, q, v);
    assert y in Reach(root, recs, q);
    assert y != q && r[y].effective == v && r[y].level == NOTSET && r[y].parent == Some(a);
    assert r[a].level == recs[a].level;
    assert Walk(root, r, y) == recs[a].level;
    assert !CoherentAt(root, r, y);
  }
}
