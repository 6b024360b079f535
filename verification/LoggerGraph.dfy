/** The logger graph as a value: what each logger caches, how a level is looked up through `parent`
    links, and how a new level is pushed down through `children` lists.  Loggers are identified by
    values of any type `I`; the heap model uses object references. */
module LoggerGraph {
  import opened Wrappers
  import opened Names

  const LEVELS := 0x1_0000

  /** C's `unsigned short`. */
  type Level = v: int | 0 <= v < LEVELS

  const NOTSET: Level := 0
  const DEBUG: Level := 10
  const INFO: Level := 20
  const WARNING: Level := 30
  const ERROR: Level := 40
  const CRITICAL: Level := 50

  /** The five cached `enabledFor...` booleans. */
  datatype Flags = Flags(debug: bool, info: bool, warning: bool, error: bool, critical: bool)

  const NO_FLAGS := Flags(false, false, false, false, false)

  /** The flag that gates the logging method of a standard level. */
  function FlagFor(f: Flags, level: Level): bool
    requires level in {DEBUG, INFO, WARNING, ERROR, CRITICAL}
  {
    if level == DEBUG then f.debug
    else if level == INFO then f.info
    else if level == WARNING then f.warning
    else if level == ERROR then f.error
    else f.critical
  }

  /** The fall-through `switch`: only the five standard levels enable anything. */
  function EnabledFlags(effective: Level): (f: Flags)
  {
    if effective == DEBUG then Flags(true, true, true, true, true)
    else if effective == INFO then Flags(false, true, true, true, true)
    else if effective == WARNING then Flags(false, false, true, true, true)
    else if effective == ERROR then Flags(false, false, false, true, true)
    else if effective == CRITICAL then Flags(false, false, false, false, true)
    else NO_FLAGS
  }

  /** Effective levels at which the cached flags decide as a comparison would. */
  predicate Gateable(effective: Level) {
    effective in {DEBUG, INFO, WARNING, ERROR, CRITICAL} || effective > CRITICAL
  }

  /** The flags are the thresholds `effective <= level` exactly at the gateable levels. */
  lemma FlagsAreThresholds(effective: Level)
    ensures Gateable(effective) <==>
      forall level: Level | level in {DEBUG, INFO, WARNING, ERROR, CRITICAL} ::
        FlagFor(EnabledFlags(effective), level) == (effective <= level)
  {
    if !Gateable(effective) {
      assert !FlagFor(EnabledFlags(effective), CRITICAL) && effective <= CRITICAL;
    }
  }

  datatype Handler = Handler(id: nat, level: Level)

  datatype Rec<+I> = Rec(
    name: string, level: Level, effective: Level, flags: Flags,
    parent: Option<I>, children: seq<I>,
    propagate: bool, disabled: bool, handlers: seq<Handler>)

  /** `p` may be above `x`: it is the root, or its name is a dotted prefix of the name of `x`. */
  ghost predicate Above<I>(root: I, recs: map<I, Rec<I>>, p: I, x: I)
    requires p in recs && x in recs
  {
    x != root && (p == root || IsAncestor(recs[p].name, recs[x].name))
  }

  /** Parents lie above, children lists hold only loggers below; the root has no parent. */
  ghost predicate Graph<I>(root: I, recs: map<I, Rec<I>>) {
    && root in recs && recs[root].parent.None?
    && (forall x {:trigger recs[x].parent} :: x in recs && recs[x].parent.Some? ==>
          recs[x].parent.value in recs && Above(root, recs, recs[x].parent.value, x))
    && (forall x, c {:trigger c in recs[x].children} :: x in recs && c in recs[x].children ==>
         c in recs && Above(root, recs, x, c))
  }

  ghost function Rank<I>(root: I, recs: map<I, Rec<I>>, x: I): nat
    requires x in recs
  {
    if x == root then 0 else |recs[x].name| + 1
  }

  /** The reference meaning of a level: the first set level on the way up, 0 if there is none.
      (In a graph the rank always drops; the test only makes the function total.) */
  ghost function Walk<I>(root: I, recs: map<I, Rec<I>>, x: I): Level
    requires x in recs
    decreases Rank(root, recs, x)
  {
    if recs[x].level > 0 then recs[x].level
    else match recs[x].parent
      case None => NOTSET
      case Some(p) => if p in recs && Rank(root, recs, p) < Rank(root, recs, x) then Walk(root, recs, p) else NOTSET
  }

  ghost predicate CoherentAt<I>(root: I, recs: map<I, Rec<I>>, x: I)
    requires x in recs
  {
    recs[x].effective == Walk(root, recs, x) && recs[x].flags == EnabledFlags(recs[x].effective)
  }

  /** Every cache agrees with the walk. */
  ghost predicate Coherent<I>(root: I, recs: map<I, Rec<I>>) {
    forall x :: x in recs ==> CoherentAt(root, recs, x)
  }

  /** Every logger is listed among its parent's children. */
  ghost predicate Listed<I>(recs: map<I, Rec<I>>) {
    forall x {:trigger recs[x].parent} :: x in recs && recs[x].parent.Some? ==>
      recs[x].parent.value in recs && x in recs[recs[x].parent.value].children
  }

  /** A children list holds only loggers whose parent it is. */
  ghost predicate Exact<I>(recs: map<I, Rec<I>>) {
    forall x, c {:trigger c in recs[x].children} :: x in recs && c in recs[x].children ==>
      c in recs && recs[c].parent == Some(x)
  }

  // ----- the push down through children lists

  /** The loggers strictly below `x`; a bound on the recursion of the push. */
  ghost function Below<I>(root: I, recs: map<I, Rec<I>>, x: I): set<I>
    requires x in recs
  {
    set y | y in recs && Above(root, recs, x, y)
  }

  lemma BelowShrinks<I>(root: I, recs: map<I, Rec<I>>, x: I, c: I)
    requires x in recs && c in recs && Above(root, recs, x, c)
    ensures Below(root, recs, c) < Below(root, recs, x)
  {
    forall y | y in Below(root, recs, c)
      ensures y in Below(root, recs, x)
    {
      if x != root {
        AncestorTransitive(recs[x].name, recs[c].name, recs[y].name);
      }
    }
    assert c in Below(root, recs, x) && c !in Below(root, recs, c);
  }

  /** The loggers overwritten by a push over the first `i` children of `x`. */
  ghost function ReachUpTo<I>(root: I, recs: map<I, Rec<I>>, x: I, i: nat): (r: set<I>)
    requires Graph(root, recs) && x in recs && i <= |recs[x].children|
    ensures r <= Below(root, recs, x)
    decreases Below(root, recs, x), i
  {
    if i == 0 then {}
    else
      var c := recs[x].children[i - 1];
      assert c in recs[x].children;
      BelowShrinks(root, recs, x, c);
      ReachUpTo(root, recs, x, i - 1) +
      if recs[c].level == NOTSET then {c} + Reach(root, recs, c) else {}
  }

  /** The loggers overwritten by a push from `x`. */
  ghost function Reach<I>(root: I, recs: map<I, Rec<I>>, x: I): (r: set<I>)
    requires Graph(root, recs) && x in recs
    ensures r <= Below(root, recs, x)
    decreases Below(root, recs, x), |recs[x].children| + 1
  {
    ReachUpTo(root, recs, x, |recs[x].children|)
  }

  /** `r` holds the unset children of `x` and is closed under unset children. */
  ghost predicate Closed<I>(recs: map<I, Rec<I>>, x: I, r: set<I>)
    requires x in recs
  {
    && r <= recs.Keys
    && (forall c :: c in recs[x].children && c in recs && recs[c].level == NOTSET ==> c in r)
    && (forall y, c :: y in r && c in recs[y].children && c in recs && recs[c].level == NOTSET ==> c in r)
  }

  lemma {:induction false} ReachUpToClosed<I>(root: I, recs: map<I, Rec<I>>, x: I, i: nat)
    requires Graph(root, recs) && x in recs && i <= |recs[x].children|
    ensures var r := ReachUpTo(root, recs, x, i);
      && (forall c :: c in recs[x].children[..i] && c in recs && recs[c].level == NOTSET ==> c in r)
      && (forall y, c :: y in r && c in recs[y].children && c in recs && recs[c].level == NOTSET ==> c in r)
      && (forall y :: y in r ==> y in recs && recs[y].level == NOTSET)
    decreases Below(root, recs, x), i
  {
    if i > 0 {
      var c := recs[x].children[i - 1];
      assert c in recs[x].children;
      BelowShrinks(root, recs, x, c);
      ReachUpToClosed(root, recs, x, i - 1);
      assert recs[x].children[..i] == recs[x].children[..i - 1] + [c];
      ReachUpToClosed(root, recs, c, |recs[c].children|);
      assert recs[c].children[..|recs[c].children|] == recs[c].children;
    }
  }

  lemma {:induction false} ReachUpToLeast<I>(root: I, recs: map<I, Rec<I>>, x: I, i: nat, r: set<I>)
    requires Graph(root, recs) && x in recs && i <= |recs[x].children|
    requires Closed(recs, x, r)
    ensures ReachUpTo(root, recs, x, i) <= r
    decreases Below(root, recs, x), i
  {
    if i > 0 {
      var c := recs[x].children[i - 1];
      assert c in recs[x].children;
      BelowShrinks(root, recs, x, c);
      ReachUpToLeast(root, recs, x, i - 1, r);
      if recs[c].level == NOTSET {
        ReachUpToLeast(root, recs, c, |recs[c].children|, r);
      }
    }
  }

  /** The push overwrites exactly the loggers reachable through unset children: the least set that
      is closed under them; all of these are unset and lie below `x`. */
  lemma ReachIsLeastClosed<I>(root: I, recs: map<I, Rec<I>>, x: I)
    requires Graph(root, recs) && x in recs
    ensures Closed(recs, x, Reach(root, recs, x))
    ensures forall r :: Closed(recs, x, r) ==> Reach(root, recs, x) <= r
    ensures forall y :: y in Reach(root, recs, x) ==> recs[y].level == NOTSET && y != x
  {
    var all := |recs[x].children|;
    ReachUpToClosed(root, recs, x, all);
    assert recs[x].children[..all] == recs[x].children;
    forall r | Closed(recs, x, r)
      ensures Reach(root, recs, x) <= r
    {
      ReachUpToLeast(root, recs, x, all, r);
    }
  }

  /** The records after every logger in `xs` has cached `v`. */
  ghost function Overwrite<I>(recs: map<I, Rec<I>>, xs: set<I>, v: Level): (r: map<I, Rec<I>>)
    ensures r.Keys == recs.Keys
  {
    map x | x in recs :: if x in xs then recs[x].(effective := v, flags := EnabledFlags(v)) else recs[x]
  }

  /** The records after `x.setLevel(v)` with an accepted level. */
  ghost function SetLevel<I>(root: I, recs: map<I, Rec<I>>, x: I, v: Level): (r: map<I, Rec<I>>)
    requires Graph(root, recs) && x in recs
    ensures r.Keys == recs.Keys
  {
    Overwrite(recs[x := recs[x].(level := v)], {x} + Reach(root, recs, x), v)
  }

  /** Same names, parents and children everywhere: what a level change leaves alone. */
  ghost predicate SameShape<I>(r0: map<I, Rec<I>>, r1: map<I, Rec<I>>) {
    && r0.Keys == r1.Keys
    && (forall x {:trigger r1[x].name} :: x in r0 ==> r1[x].name == r0[x].name)
    && (forall x {:trigger r1[x].parent} :: x in r0 ==> r1[x].parent == r0[x].parent)
    && (forall x {:trigger r1[x].children} :: x in r0 ==> r1[x].children == r0[x].children)
  }

  lemma SameShapeGraph<I>(root: I, r0: map<I, Rec<I>>, r1: map<I, Rec<I>>)
    requires SameShape(r0, r1) && Graph(root, r0)
    ensures Graph(root, r1)
    ensures Listed(r0) ==> Listed(r1)
    ensures Exact(r0) ==> Exact(r1)
  {
  }

  /** The push depends only on the shape and on the levels below `x`. */
  lemma {:induction false} ReachUpToSame<I>(root: I, r0: map<I, Rec<I>>, r1: map<I, Rec<I>>, x: I, i: nat)
    requires SameShape(r0, r1) && Graph(root, r0) && Graph(root, r1)
    requires x in r0 && i <= |r0[x].children|
    requires forall y :: y in Below(root, r0, x) ==> r0[y].level == r1[y].level
    ensures ReachUpTo(root, r0, x, i) == ReachUpTo(root, r1, x, i)
    decreases Below(root, r0, x), i
  {
    if i > 0 {
      var c := r0[x].children[i - 1];
      assert c in r0[x].children;
      BelowShrinks(root, r0, x, c);
      ReachUpToSame(root, r0, r1, x, i - 1);
      ReachUpToSame(root, r0, r1, c, |r0[c].children|);
    }
  }

  // ----- when does setLevel keep the caches coherent?

  /** Where the walk from `y` stops if `x` counts as set. */
  ghost function Stop<I>(root: I, recs: map<I, Rec<I>>, x: I, y: I): (z: Option<I>)
    requires Graph(root, recs) && y in recs
    ensures z.Some? ==> z.value in recs && (z.value == x || recs[z.value].level > 0)
    decreases Rank(root, recs, y)
  {
    if y == x || recs[y].level > 0 then Some(y)
    else if recs[y].parent.None? then None
    else Stop(root, recs, x, recs[y].parent.value)
  }

  /** A real chain of unset loggers up to `x` is found by the push: it never misses a logger. */
  lemma {:induction false} PushMissesNothing<I>(root: I, recs: map<I, Rec<I>>, x: I, y: I)
    requires Graph(root, recs) && Listed(recs) && x in recs && y in recs
    requires Stop(root, recs, x, y) == Some(x) && y != x
    ensures y in Reach(root, recs, x)
    decreases Rank(root, recs, y)
  {
    ReachIsLeastClosed(root, recs, x);
    var p := recs[y].parent.value;
    if p != x {
      PushMissesNothing(root, recs, x, p);
    }
  }

  /** After `x` takes level `v`: what the walk from `y` returns, in terms of the state before. */
  lemma {:induction false} WalkAfterSetLevel<I>(root: I, recs: map<I, Rec<I>>, x: I, v: Level, y: I)
    requires Graph(root, recs) && x in recs && y in recs
    requires Graph(root, SetLevel(root, recs, x, v))
    ensures Stop(root, recs, x, y) != Some(x) ==> Walk(root, SetLevel(root, recs, x, v), y) == Walk(root, recs, y)
    ensures Stop(root, recs, x, y) == Some(x) ==>
      Walk(root, SetLevel(root, recs, x, v), y) == Walk(root, SetLevel(root, recs, x, v), x)
    ensures Stop(root, recs, x, y) != Some(x) ==>
      Walk(root, recs, y) == match Stop(root, recs, x, y) case None => NOTSET case Some(z) => recs[z].level
    decreases Rank(root, recs, y)
  {
    if y != x && recs[y].level == NOTSET && recs[y].parent.Some? {
      WalkAfterSetLevel(root, recs, x, v, recs[y].parent.value);
    }
  }

  /** Level 0 on `x` resolves to 0: nothing above `x` is set. */
  ghost predicate ClearAbove<I>(root: I, recs: map<I, Rec<I>>, x: I, v: Level)
    requires Graph(root, recs) && x in recs
  {
    v == NOTSET && recs[x].parent.Some? ==> Walk(root, recs, recs[x].parent.value) == NOTSET
  }

  /** The cache of `y`, if `x.setLevel(v)` overwrites it, will be right: `y` resolves through unset
      loggers to `x`, or already resolves to the pushed level. */
  ghost predicate GuardAt<I>(root: I, recs: map<I, Rec<I>>, x: I, v: Level, y: I)
    requires Graph(root, recs) && x in recs && y in recs
  {
    match Stop(root, recs, x, y)
    case None => v == NOTSET
    case Some(z) => if z == x then ClearAbove(root, recs, x, v) else recs[z].level == v
  }

  /** Checked before the call, on every logger the call would overwrite. */
  ghost predicate SetLevelGuard<I>(root: I, recs: map<I, Rec<I>>, x: I, v: Level)
    requires Graph(root, recs) && x in recs
  {
    forall y :: y in {x} + Reach(root, recs, x) ==> GuardAt(root, recs, x, v, y)
  }

  lemma SetLevelShape<I>(root: I, recs: map<I, Rec<I>>, x: I, v: Level)
    requires Graph(root, recs) && x in recs
    ensures SameShape(recs, SetLevel(root, recs, x, v))
    ensures Graph(root, SetLevel(root, recs, x, v))
    ensures Listed(recs) ==> Listed(SetLevel(root, recs, x, v))
    ensures Exact(recs) ==> Exact(SetLevel(root, recs, x, v))
  {
    SameShapeGraph(root, recs, SetLevel(root, recs, x, v));
  }

  lemma WalkAboveUnchanged<I>(root: I, recs: map<I, Rec<I>>, x: I, v: Level)
    requires Graph(root, recs) && x in recs && recs[x].parent.Some?
    requires Graph(root, SetLevel(root, recs, x, v))
    ensures Walk(root, SetLevel(root, recs, x, v), recs[x].parent.value) == Walk(root, recs, recs[x].parent.value)
  {
    var p := recs[x].parent.value;
    StopStaysAbove(root, recs, x, p);
    WalkAfterSetLevel(root, recs, x, v, p);
  }

  lemma {:induction false} StopStaysAbove<I>(root: I, recs: map<I, Rec<I>>, x: I, y: I)
    requires Graph(root, recs) && x in recs && y in recs && Rank(root, recs, y) < Rank(root, recs, x)
    ensures Stop(root, recs, x, y) != Some(x)
    decreases Rank(root, recs, y)
  {
    if recs[y].level == NOTSET && recs[y].parent.Some? {
      StopStaysAbove(root, recs, x, recs[y].parent.value);
    }
  }

  lemma SetLevelCoherentAt<I>(root: I, recs: map<I, Rec<I>>, x: I, v: Level, y: I)
    requires Graph(root, recs) && Listed(recs) && x in recs && y in recs && CoherentAt(root, recs, y)
    requires Graph(root, SetLevel(root, recs, x, v))
    ensures CoherentAt(root, SetLevel(root, recs, x, v), y) <==>
      (y in {x} + Reach(root, recs, x) ==> GuardAt(root, recs, x, v, y))
  {
    WalkAfterSetLevel(root, recs, x, v, y);
    if recs[x].parent.Some? {
      WalkAboveUnchanged(root, recs, x, v);
    }
    if Stop(root, recs, x, y) == Some(x) && y != x {
      PushMissesNothing(root, recs, x, y);
    }
    ReachIsLeastClosed(root, recs, x);
  }

  /** From a coherent graph, `x.setLevel(v)` leaves a coherent graph exactly when the guard holds. */
  lemma SetLevelCoherence<I>(root: I, recs: map<I, Rec<I>>, x: I, v: Level)
    requires Graph(root, recs) && Listed(recs) && Coherent(root, recs) && x in recs
    ensures Graph(root, SetLevel(root, recs, x, v))
    ensures Coherent(root, SetLevel(root, recs, x, v)) <==> SetLevelGuard(root, recs, x, v)
  {
    SetLevelShape(root, recs, x, v);
    forall y | y in recs
      ensures CoherentAt(root, SetLevel(root, recs, x, v), y) <==>
        (y in {x} + Reach(root, recs, x) ==> GuardAt(root, recs, x, v, y))
    {
      SetLevelCoherentAt(root, recs, x, v, y);
    }
  }

  lemma {:induction false} ExactReachStops<I>(root: I, recs: map<I, Rec<I>>, x: I, i: nat)
    requires Graph(root, recs) && Exact(recs) && x in recs && i <= |recs[x].children|
    ensures forall y :: y in ReachUpTo(root, recs, x, i) ==> Stop(root, recs, x, y) == Some(x)
    decreases Below(root, recs, x), i
  {
    if i > 0 {
      var c := recs[x].children[i - 1];
      assert c in recs[x].children;
      BelowShrinks(root, recs, x, c);
      ExactReachStops(root, recs, x, i - 1);
      ExactReachStops(root, recs, c, |recs[c].children|);
      forall y | recs[c].level == NOTSET && y in Reach(root, recs, c)
        ensures Stop(root, recs, x, y) == Some(x)
      {
        StopVia(root, recs, x, c, y);
      }
    }
  }

  lemma {:induction false} StopVia<I>(root: I, recs: map<I, Rec<I>>, x: I, c: I, y: I)
    requires Graph(root, recs) && x in recs && c in recs && y in recs
    requires recs[c].parent == Some(x) && recs[c].level == NOTSET && c != x
    requires Stop(root, recs, c, y) == Some(c) && recs[y].level == NOTSET
    ensures Stop(root, recs, x, y) == Some(x)
    decreases Rank(root, recs, y)
  {
    if y != c && y != x {
      StopVia(root, recs, x, c, recs[y].parent.value);
    }
  }

  /** Where children lists are exact, every level above 0 passes the guard. */
  lemma ExactPassesGuard<I>(root: I, recs: map<I, Rec<I>>, x: I, v: Level)
    requires Graph(root, recs) && Exact(recs) && x in recs && v > NOTSET
    ensures SetLevelGuard(root, recs, x, v)
  {
    ExactReachStops(root, recs, x, |recs[x].children|);
  }

  // ----- assigning a parent

  /** `x.parent = p` before the levels are rescanned. */
  ghost function Link<I>(recs: map<I, Rec<I>>, x: I, p: I): (r: map<I, Rec<I>>)
    requires x in recs && p in recs && x != p
    ensures r.Keys == recs.Keys
    ensures forall y {:trigger r[y].name} :: y in recs ==> r[y].name == recs[y].name
    ensures forall y {:trigger r[y].parent} :: y in recs ==> r[y].parent == if y == x then Some(p) else recs[y].parent
    ensures forall y {:trigger r[y].children} :: y in recs ==> 
      r[y].children == if y == p && x !in recs[p].children then recs[p].children + [x] else recs[y].children
  {
    var linked := recs[x := recs[x].(parent := Some(p))];
    if x in recs[p].children then linked
    else linked[p := linked[p].(children := linked[p].children + [x])]
  }

  lemma LinkChildren<I>(recs: map<I, Rec<I>>, x: I, p: I)
    requires x in recs && p in recs && x != p
    ensures forall y, c :: y in recs && c in Link(recs, x, p)[y].children ==>
      c in recs[y].children || (y == p && c == x)
    ensures forall y, c :: y in recs && c in recs[y].children ==> c in Link(recs, x, p)[y].children
    ensures x in Link(recs, x, p)[p].children
  {
  }

  lemma LinkGraph<I>(root: I, recs: map<I, Rec<I>>, x: I, p: I)
    requires Graph(root, recs) && x in recs && p in recs && Above(root, recs, p, x)
    ensures x != p && Graph(root, Link(recs, x, p))
  {
    assert p != x;
    LinkChildren(recs, x, p);
    var r := Link(recs, x, p);
    forall y | y in r && r[y].parent.Some?
      ensures r[y].parent.value in r && Above(root, r, r[y].parent.value, y)
    {
    }
    forall y, c | y in r && c in r[y].children
      ensures c in r && Above(root, r, y, c)
    {
      assert c in recs[y].children || (y == p && c == x);
    }
  }

  /** The records after `x.parent = p`: `x` is listed under `p` (and stays listed under its former
      parent), and its own level, not that of its children, is rescanned. */
  ghost function SetParent<I>(root: I, recs: map<I, Rec<I>>, x: I, p: I): (r: map<I, Rec<I>>)
    requires x in recs && p in recs && x != p
    ensures r.Keys == recs.Keys
    ensures forall y :: y in recs && y != x && y != p ==> r[y] == recs[y]
    ensures r[x].parent == Some(p)
    ensures r[p].parent == recs[p].parent && r[p].effective == recs[p].effective && r[p].flags == recs[p].flags
  {
    var linked := Link(recs, x, p);
    var v := Walk(root, linked, x);
    linked[x := linked[x].(effective := v, flags := EnabledFlags(v))]
  }

  lemma SetParentShape<I>(root: I, recs: map<I, Rec<I>>, x: I, p: I)
    requires x in recs && p in recs && x != p
    ensures SameShape(Link(recs, x, p), SetParent(root, recs, x, p))
  {
  }

  lemma SetParentGraph<I>(root: I, recs: map<I, Rec<I>>, x: I, p: I)
    requires Graph(root, recs) && x in recs && p in recs && Above(root, recs, p, x)
    ensures x != p && SameShape(Link(recs, x, p), SetParent(root, recs, x, p))
    ensures Graph(root, SetParent(root, recs, x, p))
  {
    LinkGraph(root, recs, x, p);
    SetParentShape(root, recs, x, p);
    SameShapeGraph(root, Link(recs, x, p), SetParent(root, recs, x, p));
  }

  lemma SetParentSettings<I>(root: I, recs: map<I, Rec<I>>, x: I, p: I)
    requires x in recs && p in recs && x != p
    ensures SameSettings(recs, SetParent(root, recs, x, p))
  {
  }

  /** Everything but the links and the caches is the same. */
  ghost predicate SameSettings<I>(r0: map<I, Rec<I>>, r1: map<I, Rec<I>>) {
    && r0.Keys == r1.Keys
    && (forall x {:trigger r1[x].name} :: x in r0 ==> r1[x].name == r0[x].name)
    && (forall x {:trigger r1[x].level} :: x in r0 ==> r1[x].level == r0[x].level)
    && (forall x {:trigger r1[x].propagate} :: x in r0 ==> r1[x].propagate == r0[x].propagate)
    && (forall x {:trigger r1[x].disabled} :: x in r0 ==> r1[x].disabled == r0[x].disabled)
    && (forall x {:trigger r1[x].handlers} :: x in r0 ==> r1[x].handlers == r0[x].handlers)
    && (forall x {:trigger r1[x].parent} :: x in r0 && r0[x].parent.Some? ==> r1[x].parent.Some?)
  }

  lemma SettingsTransitive<I>(r0: map<I, Rec<I>>, r1: map<I, Rec<I>>, r2: map<I, Rec<I>>)
    requires SameSettings(r0, r1) && SameSettings(r1, r2)
    ensures SameSettings(r0, r2)
  {
  }

  lemma SetParentListed<I>(root: I, recs: map<I, Rec<I>>, x: I, p: I)
    requires x in recs && p in recs && x != p && Listed(recs)
    ensures Listed(SetParent(root, recs, x, p))
    ensures Exact(recs) && recs[x].parent in {None, Some(p)} ==> Exact(SetParent(root, recs, x, p))
  {
    SetParentShape(root, recs, x, p);
    LinkChildren(recs, x, p);
    var linked := Link(recs, x, p);
    assert Listed(linked);
    if Exact(recs) && recs[x].parent in {None, Some(p)} {
      forall y, c | y in linked && c in linked[y].children
        ensures c in linked && linked[c].parent == Some(y)
      {
        assert c in recs[y].children || (y == p && c == x);
      }
    }
  }

  /** The rescan caches what the walk finds. */
  lemma SetParentCoherentAt<I>(root: I, recs: map<I, Rec<I>>, x: I, p: I)
    requires Graph(root, recs) && x in recs && p in recs && Above(root, recs, p, x)
    ensures Graph(root, SetParent(root, recs, x, p))
    ensures CoherentAt(root, SetParent(root, recs, x, p), x)
  {
    LinkGraph(root, recs, x, p);
    SetParentGraph(root, recs, x, p);
    SameWalk(root, Link(recs, x, p), SetParent(root, recs, x, p), x);
  }

  lemma {:induction false} SameWalk<I>(root: I, r0: map<I, Rec<I>>, r1: map<I, Rec<I>>, x: I)
    requires SameShape(r0, r1) && Graph(root, r0) && Graph(root, r1) && x in r0
    requires forall y :: y in r0 ==> r0[y].level == r1[y].level
    ensures Walk(root, r0, x) == Walk(root, r1, x)
    decreases Rank(root, r0, x)
  {
    if r0[x].level == NOTSET && r0[x].parent.Some? {
      SameWalk(root, r0, r1, r0[x].parent.value);
    }
  }

  // ----- moving loggers under another one

  /** `x` is under `a` now, and its former parent is above `a`. */
  ghost predicate MovedUnder<I>(root: I, r0: map<I, Rec<I>>, r1: map<I, Rec<I>>, a: I, x: I)
    requires a in r0 && x in r0 && x in r1
  {
    && r1[x].parent == Some(a) && r0[x].parent.Some? && r0[x].parent.value in r0
    && Above(root, r0, r0[x].parent.value, a)
  }

  /** `r1` differs from `r0` in the parent of `a`, which nobody had as parent, and in that some
      loggers have moved under it. */
  ghost predicate Interposed<I>(root: I, r0: map<I, Rec<I>>, r1: map<I, Rec<I>>, a: I) {
    && SameSettings(r0, r1) && a in r0 && a != root && r1[a].parent.Some?
    && (forall x {:trigger r0[x].parent} :: x in r0 ==> r0[x].parent != Some(a))
    && (forall x {:trigger r1[x].parent} :: x in r0 && x != a ==>
          r1[x].parent == r0[x].parent || MovedUnder(root, r0, r1, a, x))
  }

  /** Nothing changes above `a`. */
  lemma {:induction false} AboveKept<I>(root: I, r0: map<I, Rec<I>>, r1: map<I, Rec<I>>, a: I, x: I)
    requires Graph(root, r0) && Graph(root, r1) && Interposed(root, r0, r1, a)
    requires x in r0 && Rank(root, r0, x) < Rank(root, r0, a)
    ensures Walk(root, r1, x) == Walk(root, r0, x)
    decreases Rank(root, r0, x)
  {
    assert r1[x].parent == r0[x].parent by {
      assert r1[x].name == r0[x].name && r1[a].name == r0[a].name;
    }
    if r0[x].parent.Some? {
      AboveKept(root, r0, r1, a, r0[x].parent.value);
    }
  }

  /** Every unset logger moved under `a` had a parent that resolves to the level `a` resolves to now. */
  ghost predicate SameLevelAbove<I>(root: I, r0: map<I, Rec<I>>, r1: map<I, Rec<I>>, a: I)
    requires Graph(root, r1) && Interposed(root, r0, r1, a)
  {
    forall x {:trigger r1[x].parent} :: x in r0 && x != a && r1[x].parent == Some(a) && r0[x].level == NOTSET ==>
      Walk(root, r0, r0[x].parent.value) == Walk(root, r0, r1[a].parent.value)
  }

  lemma {:induction false} WalkThroughInterposed<I>(root: I, r0: map<I, Rec<I>>, r1: map<I, Rec<I>>, a: I, x: I)
    requires Graph(root, r0) && Graph(root, r1) && Interposed(root, r0, r1, a)
    requires r0[a].level == NOTSET && SameLevelAbove(root, r0, r1, a) && x in r0 && x != a
    ensures Walk(root, r1, x) == Walk(root, r0, x)
    decreases Rank(root, r0, x)
  {
    if r0[x].level == NOTSET && r0[x].parent.Some? {
      if r1[x].parent == r0[x].parent {
        WalkThroughInterposed(root, r0, r1, a, r0[x].parent.value);
      } else {
        WalkOfMoved(root, r0, r1, a, x);
      }
    }
  }

  /** A moved unset logger resolves to what the parent of `a` resolves to. */
  lemma WalkOfMoved<I>(root: I, r0: map<I, Rec<I>>, r1: map<I, Rec<I>>, a: I, x: I)
    requires Graph(root, r0) && Graph(root, r1) && Interposed(root, r0, r1, a)
    requires r0[a].level == NOTSET && x in r0 && x != a && r0[x].level == NOTSET && r1[x].parent == Some(a)
    ensures Walk(root, r1, x) == Walk(root, r0, r1[a].parent.value)
    ensures r0[x].parent.Some? && Walk(root, r0, x) == Walk(root, r0, r0[x].parent.value)
  {
    var p := r1[a].parent.value;
    assert r1[p].name == r0[p].name && r1[a].name == r0[a].name;
    AboveKept(root, r0, r1, a, p);
    assert Walk(root, r1, x) == Walk(root, r1, a) == Walk(root, r1, p);
  }

  /** Every logger but `a` resolves to the level it resolved to. */
  ghost predicate SameWalks<I>(root: I, r0: map<I, Rec<I>>, r1: map<I, Rec<I>>, a: I) {
    r0.Keys <= r1.Keys && forall x :: x in r0 && x != a ==> Walk(root, r1, x) == Walk(root, r0, x)
  }

  /** Moving loggers under an unset one changes no walk exactly if none of the moved ones that are
      unset had a parent resolving to another level. */
  lemma WalkInterposed<I>(root: I, r0: map<I, Rec<I>>, r1: map<I, Rec<I>>, a: I)
    requires Graph(root, r0) && Graph(root, r1) && Interposed(root, r0, r1, a) && r0[a].level == NOTSET
    ensures SameWalks(root, r0, r1, a) <==> SameLevelAbove(root, r0, r1, a)
  {
    if SameLevelAbove(root, r0, r1, a) {
      forall x | x in r0 && x != a
        ensures Walk(root, r1, x) == Walk(root, r0, x)
      {
        WalkThroughInterposed(root, r0, r1, a, x);
      }
    } else {
      var x :| x in r0 && x != a && r1[x].parent == Some(a) && r0[x].level == NOTSET &&
        Walk(root, r0, r0[x].parent.value) != Walk(root, r0, r1[a].parent.value);
      WalkOfMoved(root, r0, r1, a, x);
    }
  }

  // ----- dispatch of an accepted record

  datatype Sink = Attached(handler: Handler) | Fallback

  /** The handlers met on the way up, nearest first, as far as the first that does not propagate. */
  ghost function OnPath<I>(root: I, recs: map<I, Rec<I>>, x: I): seq<Handler>
    requires Graph(root, recs) && x in recs
    decreases Rank(root, recs, x)
  {
    recs[x].handlers +
    if !recs[x].propagate || recs[x].parent.None? then [] else OnPath(root, recs, recs[x].parent.value)
  }

  /** Those of `hs` whose own level admits the record. */
  function Admitted(hs: seq<Handler>, level: Level): (r: seq<Sink>)
    ensures |r| <= |hs|
  {
    if hs == [] then []
    else if level >= hs[0].level then [Attached(hs[0])] + Admitted(hs[1..], level)
    else Admitted(hs[1..], level)
  }

  lemma {:induction false} AdmittedAppend(hs: seq<Handler>, gs: seq<Handler>, level: Level)
    ensures Admitted(hs + gs, level) == Admitted(hs, level) + Admitted(gs, level)
  {
    if hs == [] {
      assert hs + gs == gs;
    } else {
      assert (hs + gs)[1..] == hs[1..] + gs;
      AdmittedAppend(hs[1..], gs, level);
    }
  }

  /** Where a record of `level` logged on `x` is handled.  The fallback handler has level 0. */
  ghost function Dispatch<I>(root: I, recs: map<I, Rec<I>>, x: I, level: Level): seq<Sink>
    requires Graph(root, recs) && x in recs
  {
    if OnPath(root, recs, x) == [] then [Fallback] else Admitted(OnPath(root, recs, x), level)
  }

  lemma {:induction false} PathAboveKept<I>(root: I, r0: map<I, Rec<I>>, r1: map<I, Rec<I>>, a: I, x: I)
    requires Graph(root, r0) && Graph(root, r1) && Interposed(root, r0, r1, a)
    requires x in r0 && Rank(root, r0, x) < Rank(root, r0, a)
    ensures OnPath(root, r1, x) == OnPath(root, r0, x)
    decreases Rank(root, r0, x)
  {
    assert r1[x].parent == r0[x].parent by {
      assert r1[x].name == r0[x].name && r1[a].name == r0[a].name;
    }
    if r0[x].parent.Some? {
      PathAboveKept(root, r0, r1, a, r0[x].parent.value);
    }
  }

  /** Every propagating logger moved under `a` had a parent with the path that the parent of `a` has. */
  ghost predicate SamePathAbove<I>(root: I, r0: map<I, Rec<I>>, r1: map<I, Rec<I>>, a: I)
    requires Graph(root, r0) && Graph(root, r1) && Interposed(root, r0, r1, a)
  {
    forall x {:trigger r1[x].parent} :: x in r0 && x != a && r1[x].parent == Some(a) && r0[x].propagate ==>
      OnPath(root, r0, r0[x].parent.value) == OnPath(root, r0, r1[a].parent.value)
  }

  lemma {:induction false} PathThroughInterposed<I>(root: I, r0: map<I, Rec<I>>, r1: map<I, Rec<I>>, a: I, x: I)
    requires Graph(root, r0) && Graph(root, r1) && Interposed(root, r0, r1, a)
    requires r0[a].propagate && r0[a].handlers == [] && SamePathAbove(root, r0, r1, a) && x in r0 && x != a
    ensures OnPath(root, r1, x) == OnPath(root, r0, x)
    decreases Rank(root, r0, x)
  {
    if r0[x].propagate && r0[x].parent.Some? {
      if r1[x].parent == r0[x].parent {
        PathThroughInterposed(root, r0, r1, a, r0[x].parent.value);
      } else {
        PathOfMoved(root, r0, r1, a, x);
      }
    }
  }

  lemma PathOfMoved<I>(root: I, r0: map<I, Rec<I>>, r1: map<I, Rec<I>>, a: I, x: I)
    requires Graph(root, r0) && Graph(root, r1) && Interposed(root, r0, r1, a)
    requires r0[a].propagate && r0[a].handlers == []
    requires x in r0 && x != a && r0[x].propagate && r1[x].parent == Some(a)
    ensures OnPath(root, r1, x) == r0[x].handlers + OnPath(root, r0, r1[a].parent.value)
    ensures r0[x].parent.Some? && OnPath(root, r0, x) == r0[x].handlers + OnPath(root, r0, r0[x].parent.value)
  {
    var p := r1[a].parent.value;
    assert r1[p].name == r0[p].name && r1[a].name == r0[a].name;
    PathAboveKept(root, r0, r1, a, p);
    assert OnPath(root, r1, a) == OnPath(root, r1, p);
  }

  /** Every logger but `a` has the dispatch path it had. */
  ghost predicate SamePaths<I>(root: I, r0: map<I, Rec<I>>, r1: map<I, Rec<I>>, a: I)
    requires Graph(root, r0) && Graph(root, r1)
  {
    r0.Keys <= r1.Keys && forall x :: x in r0 && x != a ==> OnPath(root, r1, x) == OnPath(root, r0, x)
  }

  /** Moving loggers under a propagating one without handlers changes no path exactly if none of the
      moved ones that propagate had a parent with another path. */
  lemma PathInterposed<I>(root: I, r0: map<I, Rec<I>>, r1: map<I, Rec<I>>, a: I)
    requires Graph(root, r0) && Graph(root, r1) && Interposed(root, r0, r1, a)
    requires r0[a].propagate && r0[a].handlers == []
    ensures SamePaths(root, r0, r1, a) <==> SamePathAbove(root, r0, r1, a)
  {
    if SamePathAbove(root, r0, r1, a) {
      forall x | x in r0 && x != a
        ensures OnPath(root, r1, x) == OnPath(root, r0, x)
      {
        PathThroughInterposed(root, r0, r1, a, x);
      }
    } else {
      var x :| x in r0 && x != a && r1[x].parent == Some(a) && r0[x].propagate &&
        OnPath(root, r0, r0[x].parent.value) != OnPath(root, r0, r1[a].parent.value);
      PathOfMoved(root, r0, r1, a, x);
      var k := |r0[x].handlers|;
      assert OnPath(root, r0, x)[k..] == OnPath(root, r0, r0[x].parent.value);
      assert OnPath(root, r1, x)[k..] == OnPath(root, r0, r1[a].parent.value);
    }
  }

  lemma {:induction false} AllAdmitted(hs: seq<Handler>)
    ensures |Admitted(hs, LEVELS - 1)| == |hs|
    ensures forall i :: 0 <= i < |hs| ==> Admitted(hs, LEVELS - 1)[i] == Attached(hs[i])
  {
    if hs != [] {
      AllAdmitted(hs[1..]);
    }
  }

  /** Where records of all levels go determines the path. */
  lemma DispatchShowsPath<I>(root: I, r0: map<I, Rec<I>>, r1: map<I, Rec<I>>, x: I)
    requires Graph(root, r0) && Graph(root, r1) && x in r0 && x in r1
    ensures (forall level: Level :: Dispatch(root, r1, x, level) == Dispatch(root, r0, x, level)) <==>
      OnPath(root, r1, x) == OnPath(root, r0, x)
  {
    var p0, p1, top: Level := OnPath(root, r0, x), OnPath(root, r1, x), LEVELS - 1;
    AllAdmitted(p0);
    AllAdmitted(p1);
    if Dispatch(root, r1, x, top) == Dispatch(root, r0, x, top) {
      forall i | 0 <= i < |p0| && 0 <= i < |p1|
        ensures p0[i] == p1[i]
      {
        assert Admitted(p0, top)[i] == Attached(p0[i]) && Admitted(p1, top)[i] == Attached(p1[i]);
      }
    }
  }
}
