/** Where a logged record goes and which level counts, spelled out along the chain of parents. */
module LoggerDispatch {
  import opened Wrappers
  import opened Selection
  import opened LoggerGraph

  // ----- the chain of parents

  /** `chain` begins at `x` and goes from each logger to its parent. */
  ghost predicate Climbs<I>(recs: map<I, Rec<I>>, x: I, chain: seq<I>) {
    && chain != [] && chain[0] == x && (forall i :: 0 <= i < |chain| ==> chain[i] in recs)
    && forall i :: 0 <= i < |chain| - 1 ==> recs[chain[i]].parent == Some(chain[i + 1])
  }

  lemma ClimbsOn<I>(recs: map<I, Rec<I>>, x: I, chain: seq<I>)
    requires Climbs(recs, x, chain) && |chain| > 1
    ensures x in recs && recs[x].parent == Some(chain[1]) && Climbs(recs, chain[1], chain[1..])
  {
    forall i | 0 <= i < |chain[1..]| - 1
      ensures recs[chain[1..][i]].parent == Some(chain[1..][i + 1])
    {
      assert recs[chain[i + 1]].parent == Some(chain[i + 2]);
    }
  }

  /** The walk is the level of the first logger upwards whose level is set, 0 if there is none. */
  lemma {:induction false} WalkIsFirstSet<I>(root: I, recs: map<I, Rec<I>>, x: I, chain: seq<I>)
    requires Graph(root, recs) && Climbs(recs, x, chain)
    requires forall i :: 0 <= i < |chain| - 1 ==> recs[chain[i]].level == 0
    requires recs[chain[|chain| - 1]].level > 0 || recs[chain[|chain| - 1]].parent.None?
    ensures Walk(root, recs, x) == recs[chain[|chain| - 1]].level
    decreases |chain|
  {
    if |chain| > 1 {
      ClimbsOn(recs, x, chain);
      forall i | 0 <= i < |chain[1..]| - 1
        ensures recs[chain[1..][i]].level == 0
      {
        assert recs[chain[i + 1]].level == 0;
      }
      WalkIsFirstSet(root, recs, chain[1], chain[1..]);
      assert recs[chain[0]].level == 0;
    }
  }

  /** The chain goes as far as records do: up to the first logger that does not propagate, or the last. */
  ghost predicate IsRoute<I>(recs: map<I, Rec<I>>, x: I, route: seq<I>) {
    && Climbs(recs, x, route) && (forall i :: 0 <= i < |route| - 1 ==> recs[route[i]].propagate)
    && (!recs[route[|route| - 1]].propagate || recs[route[|route| - 1]].parent.None?)
  }

  lemma {:induction false} RouteExists<I>(root: I, recs: map<I, Rec<I>>, x: I) returns (route: seq<I>)
    requires Graph(root, recs) && x in recs
    ensures IsRoute(recs, x, route)
    decreases Rank(root, recs, x)
  {
    if recs[x].propagate && recs[x].parent.Some? {
      var rest := RouteExists(root, recs, recs[x].parent.value);
      route := [x] + rest;
    } else {
      route := [x];
    }
  }

  lemma RouteGoesOn<I>(recs: map<I, Rec<I>>, x: I, route: seq<I>)
    requires IsRoute(recs, x, route) && |route| > 1
    ensures x in recs && recs[x].propagate && recs[x].parent == Some(route[1])
    ensures IsRoute(recs, route[1], route[1..])
  {
    ClimbsOn(recs, x, route);
    forall i | 0 <= i < |route[1..]| - 1
      ensures recs[route[1..][i]].propagate
    {
      assert recs[route[i + 1]].propagate;
    }
    assert recs[route[0]].propagate;
  }

  /** The handlers of some loggers, one logger after the other. */
  ghost function Along<I>(recs: map<I, Rec<I>>, route: seq<I>): seq<Handler>
    requires forall i :: 0 <= i < |route| ==> route[i] in recs
  {
    if route == [] then [] else recs[route[0]].handlers + Along(recs, route[1..])
  }

  lemma {:induction false} PathIsAlongRoute<I>(root: I, recs: map<I, Rec<I>>, x: I, route: seq<I>)
    requires Graph(root, recs) && IsRoute(recs, x, route)
    ensures OnPath(root, recs, x) == Along(recs, route)
    decreases |route|
  {
    if |route| > 1 {
      RouteGoesOn(recs, x, route);
      PathIsAlongRoute(root, recs, route[1], route[1..]);
    } else {
      assert Along(recs, route[1..]) == [];
    }
  }

  lemma {:induction false} AlongIsEmpty<I>(recs: map<I, Rec<I>>, route: seq<I>)
    requires forall i :: 0 <= i < |route| ==> route[i] in recs
    ensures Along(recs, route) == [] <==> forall i :: 0 <= i < |route| ==> recs[route[i]].handlers == []
  {
    if route != [] {
      AlongIsEmpty(recs, route[1..]);
      assert forall i :: 0 < i < |route| ==> route[i] == route[1..][i - 1];
      assert forall i :: 0 <= i < |route[1..]| ==> route[1..][i] == route[i + 1];
    }
  }

  // ----- who gets the record

  /** The handlers whose own level is at most the record's. */
  function LevelsUpTo(level: Level): Handler -> bool {
    (h: Handler) => h.level <= level
  }

  function Attaching(): Handler -> Sink {
    (h: Handler) => Attached(h)
  }

  lemma AdmittedPicks(hs: seq<Handler>, level: Level)
    ensures Picks(hs, LevelsUpTo(level), Attaching(), Admitted(hs, level))
  {
    var filter := (gs: seq<Handler>) => Admitted(gs, level);
    forall s: seq<Handler>, x: Handler
      ensures filter(s + [x]) == if LevelsUpTo(level)(x) then filter(s) + [Attaching()(x)] else filter(s)
    {
      AdmittedAppend(s, [x], level);
    }
    FilterPicks(hs, LevelsUpTo(level), Attaching(), filter);
  }

  /** Along the route from `x`: the fallback handler exactly if no logger there has a handler, and
      otherwise, in order, exactly the handlers whose own level is at most the record's. */
  lemma DispatchExactly<I>(root: I, recs: map<I, Rec<I>>, x: I, level: Level, route: seq<I>)
    requires Graph(root, recs) && IsRoute(recs, x, route)
    ensures x in recs
    ensures var (none, sinks) :=
        (forall i :: 0 <= i < |route| ==> recs[route[i]].handlers == [], Dispatch(root, recs, x, level));
      && (none <==> Fallback in sinks) && (none ==> sinks == [Fallback])
      && (!none ==>
           Picks(Along(recs, route), LevelsUpTo(level), Attaching(), sinks))
  {
    PathIsAlongRoute(root, recs, x, route);
    AlongIsEmpty(recs, route);
    AdmittedPicks(Along(recs, route), level);
    NoFallback(Along(recs, route), level);
  }

  lemma {:induction false} NoFallback(hs: seq<Handler>, level: Level)
    ensures Fallback !in Admitted(hs, level)
  {
    if hs != [] {
      NoFallback(hs[1..], level);
    }
  }

  lemma {:induction false} AdmittedCounts(hs: seq<Handler>, level: Level, h: Handler)
    ensures multiset(Admitted(hs, level))[Attached(h)] == if h.level <= level then multiset(hs)[h] else 0
  {
    if hs != [] {
      AdmittedCounts(hs[1..], level, h);
      assert hs == [hs[0]] + hs[1..];
    }
  }

  /** Each handler gets the record as often as it is on the route if its level admits it, else never. */
  lemma DispatchCounts<I>(root: I, recs: map<I, Rec<I>>, x: I, level: Level, route: seq<I>, h: Handler)
    requires Graph(root, recs) && IsRoute(recs, x, route)
    ensures x in recs
    ensures multiset(Dispatch(root, recs, x, level))[Attached(h)] ==
      if h.level <= level then multiset(Along(recs, route))[h] else 0
  {
    PathIsAlongRoute(root, recs, x, route);
    AdmittedCounts(Along(recs, route), level, h);
  }

  // ----- levels and flags in numbers

  /** Only the five standard levels switch anything on, each from its own method up. */
  lemma FlagsExactly(effective: Level)
    ensures var f := EnabledFlags(effective);
      && (f.debug <==> effective == 10) && (f.info <==> effective in {10, 20})
      && (f.warning <==> effective in {10, 20, 30}) && (f.error <==> effective in {10, 20, 30, 40})
      && (f.critical <==> effective in {10, 20, 30, 40, 50})
  {
  }
}
