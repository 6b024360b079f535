/** When the two rounds of handler configuration succeed, and in which order the handlers are made. */
module DictConfigTargets {
  import opened Wrappers
  import opened Folds
  import opened ExistingLoggers
  import opened DictConfigHandlers

  /** The target a handler's settings name. */
  function TargetName(env: Env, settings: Items): Option<string> {
    match TargetOf(env, settings)
    case Some(Str(s)) => Some(s)
    case _ => None
  }

  /** Nothing is wrong with any settings: every target is the name of a handler, and whatever the
      state of the dictionary a handler is either made or put off. */
  ghost predicate Clean(env: Env, s0: map<string, Items>) {
    forall n, slots: map<string, Slot> {:trigger Attempt(env, slots, s0[n])} ::
      n in s0 && slots.Keys == s0.Keys ==> !Attempt(env, slots, s0[n]).Broken?
  }

  /** The handler's target is this handler. */
  predicate Linked(b: Built, target: Built) {
    Target in b.kwargs && b.kwargs[Target] == Obj(target)
  }

  lemma AttemptFollowsTarget(env: Env, slots: map<string, Slot>, settings: Items)
    requires !Attempt(env, slots, settings).Broken?
    ensures var v, t := Attempt(env, slots, settings), TargetName(env, settings);
      && (t.Some? ==> t.value in slots)
      && (v.NotYet? <==> t.Some? && slots[t.value].Raw?)
      && (v.Ready? && t.Some? ==> Linked(v.handler, slots[t.value].handler))
  {
  }

  /** The target each name's settings give, if any. */
  type Targets = map<string, Option<string>>

  function TargetsOf(env: Env, s0: map<string, Items>): Targets {
    map n | n in s0 :: TargetName(env, s0[n])
  }

  /** Settings not yet used are the original ones, and every target is the handler configured
      under its name. */
  ghost predicate Consistent(targets: Targets, s0: map<string, Items>, slots: map<string, Slot>) {
    && slots.Keys == s0.Keys == targets.Keys
    && (forall n :: n in s0 && slots[n].Raw? ==> slots[n].items == s0[n])
    && (forall n {:trigger slots[n]} :: n in s0 && slots[n].Made? && targets[n].Some? ==>
          var t := targets[n].value; t in slots && slots[t].Made? && Linked(slots[n].handler, slots[t].handler))
  }

  /** The target is still to be configured. */
  predicate Waits(target: Option<string>, slots: map<string, Slot>) {
    target.Some? && IsRaw(slots, target.value)
  }

  /** One turn, when nothing is wrong: the name is put off (in the second round, fails) exactly if
      its target is still to be configured, and is configured otherwise. */
  ghost predicate Turned(targets: Targets, second: bool, s0: map<string, Items>, r: Round, n: string, r': Round)
    requires n in targets
  {
    && (targets[n].Some? ==> targets[n].value in s0)
    && if Waits(targets[n], r.slots)
       then r' == if second then r.(failed := Some(n)) else r.(deferred := r.deferred + [n])
       else
         && r' == r.(slots := r'.slots) && Consistent(targets, s0, r'.slots) && n in r'.slots && r'.slots[n].Made?
         && forall m :: m in r.slots && m != n ==> m in r'.slots && r'.slots[m] == r.slots[m]
  }

  ghost predicate Ready(targets: Targets, s0: map<string, Items>, r: Round, n: string) {
    r.failed.None? && Consistent(targets, s0, r.slots) && IsRaw(r.slots, n)
  }

  lemma TurnClean(env: Env, second: bool, s0: map<string, Items>, r: Round, n: string)
    requires Clean(env, s0) && Ready(TargetsOf(env, s0), s0, r, n)
    ensures Turned(TargetsOf(env, s0), second, s0, r, n, Turn(env, second, r, n))
  {
    var v, targets := Attempt(env, r.slots, s0[n]), TargetsOf(env, s0);
    AttemptFollowsTarget(env, r.slots, s0[n]);
    if v.Ready? {
      var slots' := r.slots[n := Made(v.handler)];
      forall m | m in s0 && slots'[m].Made? && targets[m].Some?
        ensures var t := targets[m].value;
          t in slots' && slots'[t].Made? && Linked(slots'[m].handler, slots'[t].handler)
      {
        assert r.slots[m].Made? || m == n;
      }
    }
  }

  /** `step` behaves like a turn when nothing is wrong. */
  ghost predicate CleanStep(step: Step, targets: Targets, second: bool, s0: map<string, Items>) {
    forall r, n {:trigger step(r, n)} ::
      n in targets && Ready(targets, s0, r, n) ==> Turned(targets, second, s0, r, n, step(r, n))
  }

  lemma TurningIsClean(env: Env, second: bool, s0: map<string, Items>)
    requires Clean(env, s0)
    ensures CleanStep(Turning(env, second), TargetsOf(env, s0), second, s0)
  {
    forall r, n | n in s0 && Ready(TargetsOf(env, s0), s0, r, n)
      ensures Turned(TargetsOf(env, s0), second, s0, r, n, Turning(env, second)(r, n))
    {
      TurnClean(env, second, s0, r, n);
    }
  }

  // ----- the first round

  /** The names of the dictionary, each once. */
  ghost predicate Lists(names: seq<string>, targets: Targets) {
    AllDifferent(names) && forall n :: n in names <==> n in targets
  }

  /** The name at `i` is put off: it has a target, and that is not one of the earlier names, or was
      put off itself. */
  predicate PutOff(names: seq<string>, targets: Targets, i: nat)
    requires i < |names| && forall n :: n in names ==> n in targets
    decreases i
  {
    targets[names[i]].Some? &&
    forall j :: 0 <= j < i && names[j] == targets[names[i]].value ==> PutOff(names, targets, j)
  }

  /** Those of the first `k` names that are put off, or those that are not. */
  function Select(names: seq<string>, targets: Targets, off: bool, k: nat): seq<string>
    requires k <= |names| && forall n :: n in names ==> n in targets
  {
    if k == 0 then []
    else Select(names, targets, off, k - 1) + (if PutOff(names, targets, k - 1) == off then [names[k - 1]] else [])
  }

  ghost predicate AfterFirst(targets: Targets, s0: map<string, Items>, names: seq<string>, k: nat, r: Round)
    requires k <= |names| && forall n :: n in names ==> n in targets
  {
    && r.failed.None? && Consistent(targets, s0, r.slots) && r.deferred == Select(names, targets, true, k)
    && forall i :: 0 <= i < |names| ==> (IsRaw(r.slots, names[i]) <==> i >= k || PutOff(names, targets, i))
  }

  lemma WaitsIffPutOff(targets: Targets, s0: map<string, Items>, names: seq<string>, k: nat, r: Round)
    requires Lists(names, targets) && k < |names| && AfterFirst(targets, s0, names, k, r)
    requires targets[names[k]].Some? ==> targets[names[k]].value in targets
    ensures Waits(targets[names[k]], r.slots) <==> PutOff(names, targets, k)
  {
    if targets[names[k]].Some? {
      var j :| 0 <= j < |names| && names[j] == targets[names[k]].value;
      assert forall i :: 0 <= i < k && names[i] == names[j] ==> i == j;
    }
  }

  lemma FirstTurn(targets: Targets, s0: map<string, Items>, names: seq<string>, k: nat, r: Round, r': Round)
    requires Lists(names, targets) && k < |names| && AfterFirst(targets, s0, names, k, r)
    requires Turned(targets, false, s0, r, names[k], r') && targets.Keys == s0.Keys
    ensures AfterFirst(targets, s0, names, k + 1, r')
  {
    WaitsIffPutOff(targets, s0, names, k, r);
    forall i | 0 <= i < |names|
      ensures IsRaw(r'.slots, names[i]) <==> i >= k + 1 || PutOff(names, targets, i)
    {
      assert i != k ==> names[i] != names[k];
    }
  }

  lemma {:induction false} FirstRound(step: Step, targets: Targets, s0: map<string, Items>, names: seq<string>, k: nat)
    requires CleanStep(step, targets, false, s0) && Lists(names, targets) && targets.Keys == s0.Keys && k <= |names|
    ensures AfterFirst(targets, s0, names, k, Iterate(step, Round(RawSlots(s0), [], None), names, k))
  {
    if k == 0 {
      FirstStart(targets, s0, names);
    } else {
      var r := Iterate(step, Round(RawSlots(s0), [], None), names, k - 1);
      FirstRound(step, targets, s0, names, k - 1);
      assert names[k - 1] in names && Ready(targets, s0, r, names[k - 1]);
      FirstTurn(targets, s0, names, k - 1, r, step(r, names[k - 1]));
    }
  }

  lemma FirstStart(targets: Targets, s0: map<string, Items>, names: seq<string>)
    requires Lists(names, targets) && targets.Keys == s0.Keys
    ensures AfterFirst(targets, s0, names, 0, Round(RawSlots(s0), [], None))
  {
  }

  function RawSlots(s0: map<string, Items>): map<string, Slot> {
    map n | n in s0 :: Raw(s0[n])
  }

  // ----- the second round

  /** A name whose target comes later among those put off, or is itself. */
  predicate Stuck(d: seq<string>, targets: Targets, k: nat)
    requires k < |d| && forall n :: n in d ==> n in targets
  {
    targets[d[k]].Some? && targets[d[k]].value in d[k..]
  }

  ghost predicate AfterSecond(targets: Targets, s0: map<string, Items>, d: seq<string>, k: nat, r: Round)
    requires k <= |d|
  {
    r.failed.None? && Consistent(targets, s0, r.slots) && forall n :: n in s0 ==> (IsRaw(r.slots, n) <==> n in d[k..])
  }

  lemma SecondTurn(targets: Targets, s0: map<string, Items>, d: seq<string>, k: nat, r: Round, r': Round)
    requires AllDifferent(d) && (forall n :: n in d ==> n in targets) && targets.Keys == s0.Keys && k < |d|
    requires AfterSecond(targets, s0, d, k, r) && Turned(targets, true, s0, r, d[k], r')
    ensures Stuck(d, targets, k) ==> r'.failed == Some(d[k])
    ensures !Stuck(d, targets, k) ==> AfterSecond(targets, s0, d, k + 1, r')
  {
    assert d[k..] == [d[k]] + d[k + 1..];
    assert d[k] !in d[k + 1..];
  }

  /** Up to the first stuck name everything is configured. */
  lemma {:induction false} SecondRound(step: Step, targets: Targets, s0: map<string, Items>, d: seq<string>,
          r0: Round, k: nat)
    requires CleanStep(step, targets, true, s0) && targets.Keys == s0.Keys
    requires AllDifferent(d) && (forall n :: n in d ==> n in targets) && k <= |d|
    requires AfterSecond(targets, s0, d, 0, r0) && forall i :: 0 <= i < k ==> !Stuck(d, targets, i)
    ensures AfterSecond(targets, s0, d, k, Iterate(step, r0, d, k))
  {
    if k > 0 {
      SecondRound(step, targets, s0, d, r0, k - 1);
      SecondTurn(targets, s0, d, k - 1, Iterate(step, r0, d, k - 1), step(Iterate(step, r0, d, k - 1), d[k - 1]));
    }
  }

  lemma SecondFails(env: Env, targets: Targets, s0: map<string, Items>, d: seq<string>, r0: Round, k: nat)
    requires CleanStep(Turning(env, true), targets, true, s0) && targets.Keys == s0.Keys
    requires AllDifferent(d) && (forall n :: n in d ==> n in targets) && k < |d|
    requires AfterSecond(targets, s0, d, 0, r0) && Stuck(d, targets, k) &&
      forall i :: 0 <= i < k ==> !Stuck(d, targets, i)
    ensures Iterate(Turning(env, true), r0, d, |d|).failed == Some(d[k])
  {
    var step := Turning(env, true);
    SecondRound(step, targets, s0, d, r0, k);
    SecondTurn(targets, s0, d, k, Iterate(step, r0, d, k), step(Iterate(step, r0, d, k), d[k]));
    FailureStays(env, true, step, r0, d, k + 1);
  }

  lemma {:induction false} FirstStuck(d: seq<string>, targets: Targets, k: nat) returns (first: nat)
    requires k < |d| && (forall n :: n in d ==> n in targets) && Stuck(d, targets, k)
    ensures first < |d| && Stuck(d, targets, first) && forall i :: 0 <= i < first ==> !Stuck(d, targets, i)
    decreases k
  {
    if i: nat :| i < k && Stuck(d, targets, i) {
      first := FirstStuck(d, targets, i);
    } else {
      first := k;
    }
  }

  // ----- both rounds

  lemma {:induction false} Selected(names: seq<string>, targets: Targets, off: bool, k: nat)
    requires k <= |names| && AllDifferent(names) && forall n :: n in names ==> n in targets
    ensures forall i :: 0 <= i < k && PutOff(names, targets, i) == off ==> names[i] in Select(names, targets, off, k)
    ensures forall n :: n in Select(names, targets, off, k) ==> n in names[..k]
    ensures forall i :: 0 <= i < |names| && PutOff(names, targets, i) != off ==>
      names[i] !in Select(names, targets, off, k)
    ensures AllDifferent(Select(names, targets, off, k))
  {
    if k > 0 {
      Selected(names, targets, off, k - 1);
      assert names[..k] == names[..k - 1] + [names[k - 1]];
      assert names[k - 1] !in names[..k - 1];
    }
  }

  /** The second round starts where the first one ends. */
  lemma BetweenRounds(targets: Targets, s0: map<string, Items>, names: seq<string>, r: Round)
    requires Lists(names, targets) && targets.Keys == s0.Keys && AfterFirst(targets, s0, names, |names|, r)
    ensures AllDifferent(r.deferred) && forall n :: n in r.deferred ==> n in targets
    ensures AfterSecond(targets, s0, r.deferred, 0, r.(deferred := []))
  {
    var d := Select(names, targets, true, |names|);
    Selected(names, targets, true, |names|);
    assert names[..|names|] == names && d[0..] == d;
    forall n | n in s0
      ensures IsRaw(r.slots, n) <==> n in d
    {
      var i :| 0 <= i < |names| && names[i] == n;
    }
  }

  /** A round over the names put off fails exactly at the first stuck one; else all are configured. */
  ghost predicate Outcome(targets: Targets, s0: map<string, Items>, d: seq<string>, end: Round) {
    && (forall n :: n in d ==> n in targets)
    && (end.failed.None? <==> forall k :: 0 <= k < |d| ==> !Stuck(d, targets, k))
    && (end.failed.Some? ==> exists k :: 0 <= k < |d| && FailsAt(d, targets, k, end.failed.value))
    && (end.failed.None? ==> Consistent(targets, s0, end.slots) && forall n :: n in s0 ==> !IsRaw(end.slots, n))
  }

  ghost predicate FailsAt(d: seq<string>, targets: Targets, k: nat, name: string)
    requires k < |d| && forall n :: n in d ==> n in targets
  {
    name == d[k] && Stuck(d, targets, k) && forall i :: 0 <= i < k ==> !Stuck(d, targets, i)
  }

  lemma SecondOutcome(env: Env, targets: Targets, s0: map<string, Items>, d: seq<string>, r0: Round)
    requires CleanStep(Turning(env, true), targets, true, s0) && targets.Keys == s0.Keys
    requires AllDifferent(d) && (forall n :: n in d ==> n in targets) && AfterSecond(targets, s0, d, 0, r0)
    ensures Outcome(targets, s0, d, Iterate(Turning(env, true), r0, d, |d|))
  {
    if k :| 0 <= k < |d| && Stuck(d, targets, k) {
      var at := FirstStuck(d, targets, k);
      SecondFails(env, targets, s0, d, r0, at);
      assert FailsAt(d, targets, at, d[at]);
    } else {
      SecondRound(Turning(env, true), targets, s0, d, r0, |d|);
    }
  }

  /** With nothing else wrong, configuration fails exactly when some name that is put off has a
      target that is put off and does not come before it, and the first such name is reported.
      On success every entry is a handler, and every target is the handler of that name. */
  lemma HandlersConfigured(env: Env, s0: map<string, Items>, names: seq<string>)
    requires Clean(env, s0) && Lists(names, TargetsOf(env, s0))
    ensures Outcome(
      TargetsOf(env, s0), s0, Select(names, TargetsOf(env, s0), true, |names|), BothRounds(env, RawSlots(s0), names))
  {
    var targets := TargetsOf(env, s0);
    TurningIsClean(env, false, s0);
    TurningIsClean(env, true, s0);
    FirstRound(Turning(env, false), targets, s0, names, |names|);
    var first := RoundOf(env, false, RawSlots(s0), names);
    BetweenRounds(targets, s0, names, first);
    SecondOutcome(env, targets, s0, first.deferred, first.(deferred := []));
  }

  // ----- the order

  /** The order in which handlers are made. */
  function MadeOrder(names: seq<string>, targets: Targets): seq<string>
    requires forall n :: n in names ==> n in targets
  {
    Select(names, targets, false, |names|) + Select(names, targets, true, |names|)
  }

  /** Every name comes after its target. */
  ghost predicate Ordered(order: seq<string>, targets: Targets) {
    forall i :: 0 <= i < |order| ==>
      order[i] in targets && (targets[order[i]].Some? ==> targets[order[i]].value in order[..i])
  }

  lemma OrderedNext(order: seq<string>, n: string, targets: Targets)
    requires Ordered(order, targets) && n in targets && (targets[n].Some? ==> targets[n].value in order)
    ensures Ordered(order + [n], targets)
  {
    forall i | 0 <= i < |order + [n]|
      ensures (order + [n])[i] in targets
      ensures targets[(order + [n])[i]].Some? ==> targets[(order + [n])[i]].value in (order + [n])[..i]
    {
      assert (order + [n])[..i] == order[..i];
    }
  }

  lemma {:induction false} FirstOnesOrdered(names: seq<string>, targets: Targets, k: nat)
    requires k <= |names| && Lists(names, targets)
    ensures Ordered(Select(names, targets, false, k), targets)
  {
    if k > 0 {
      FirstOnesOrdered(names, targets, k - 1);
      var before := Select(names, targets, false, k - 1);
      assert before + [] == before && names[k - 1] in names;
      if !PutOff(names, targets, k - 1) {
        TargetSelected(names, targets, k - 1);
        OrderedNext(before, names[k - 1], targets);
      }
    }
  }

  /** A name that is not put off has its target among the ones before it. */
  lemma TargetSelected(names: seq<string>, targets: Targets, k: nat)
    requires k < |names| && Lists(names, targets) && !PutOff(names, targets, k)
    ensures targets[names[k]].Some? ==> targets[names[k]].value in Select(names, targets, false, k)
  {
    Selected(names, targets, false, k);
    if targets[names[k]].Some? {
      var j :| 0 <= j < k && names[j] == targets[names[k]].value && !PutOff(names, targets, j);
    }
  }

  lemma {:induction false} PutOffOrdered(c: seq<string>, d: seq<string>, targets: Targets, k: nat)
    requires k <= |d| && (forall n :: n in c + d ==> n in targets) && Ordered(c, targets)
    requires forall n :: n in d && targets[n].Some? ==> targets[n].value in c + d
    requires forall i :: 0 <= i < |d| ==> d[i] in targets && !Stuck(d, targets, i)
    ensures Ordered(c + d[..k], targets)
  {
    if k == 0 {
      assert c + d[..0] == c;
    } else {
      PutOffOrdered(c, d, targets, k - 1);
      var n := d[k - 1];
      assert d == d[..k - 1] + d[k - 1..];
      assert targets[n].Some? ==> targets[n].value in c + d[..k - 1];
      OrderedNext(c + d[..k - 1], n, targets);
      assert c + d[..k] == c + d[..k - 1] + [n];
    }
  }

  /** On success the handlers are made in a topological order of the targets: every name once, its
      target before it. */
  lemma SuccessIsTopological(env: Env, s0: map<string, Items>, names: seq<string>)
    requires Clean(env, s0) && Lists(names, TargetsOf(env, s0)) && BothRounds(env, RawSlots(s0), names).failed.None?
    ensures var order := MadeOrder(names, TargetsOf(env, s0));
      AllDifferent(order) && (forall n :: n in order <==> n in s0) && Ordered(order, TargetsOf(env, s0))
  {
    var targets := TargetsOf(env, s0);
    HandlersConfigured(env, s0, names);
    forall n | n in targets && targets[n].Some?
      ensures targets[n].value in targets
    {
      assert !Attempt(env, RawSlots(s0), s0[n]).Broken?;
      AttemptFollowsTarget(env, RawSlots(s0), s0[n]);
    }
    TargetsComeFirst(names, targets);
  }

  lemma TargetsComeFirst(names: seq<string>, targets: Targets)
    requires Lists(names, targets) && forall n :: n in targets && targets[n].Some? ==> targets[n].value in targets
    requires var d := Select(names, targets, true, |names|);
      (forall n :: n in d ==> n in targets) && forall k :: 0 <= k < |d| ==> !Stuck(d, targets, k)
    ensures Ordered(MadeOrder(names, targets), targets)
    ensures AllDifferent(MadeOrder(names, targets)) && forall n :: n in MadeOrder(names, targets) <==> n in targets
  {
    var c, d := Select(names, targets, false, |names|), Select(names, targets, true, |names|);
    FirstOnesOrdered(names, targets, |names|);
    EachIsSelected(names, targets, c, d);
    assert d[..|d|] == d;
    assert forall n :: n in d ==> n in c + d;
    PutOffOrdered(c, d, targets, |d|);
  }

  lemma EachIsSelected(names: seq<string>, targets: Targets, c: seq<string>, d: seq<string>)
    requires Lists(names, targets)
    requires c == Select(names, targets, false, |names|) && d == Select(names, targets, true, |names|)
    ensures forall n :: n in c + d <==> n in targets
    ensures AllDifferent(c + d)
  {
    Selected(names, targets, false, |names|);
    Selected(names, targets, true, |names|);
    assert names[..|names|] == names;
    forall n | n in targets
      ensures n in c + d && !(n in c && n in d)
    {
      var i :| 0 <= i < |names| && names[i] == n;
    }
    forall i, j | 0 <= i < j < |c + d|
      ensures (c + d)[i] != (c + d)[j]
    {
      assert (c + d)[i] in c + d;
    }
  }
}
