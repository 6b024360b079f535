/** What creating or promoting a logger does to the loggers already there.  Their caches never change;
    their levels and dispatch paths do exactly if a promotion moves one of them away from a parent
    that resolves otherwise than the parent found for the new logger.  In a tree that cannot happen. */
module LoggerCoherence {
  import opened Wrappers
  import opened Names
  import opened Folds
  import opened LoggerGraph
  import opened LoggerRegistry
  import opened LoggerTree

  // ----- the walk and the dispatch path do not see a fresh logger

  lemma {:induction false} FreshUnseen<I>(root: I, recs: map<I, Rec<I>>, r0: map<I, Rec<I>>, a: I, x: I)
    requires Graph(root, recs) && Graph(root, r0) && a !in recs && x in recs
    requires recs.Keys <= r0.Keys && forall y {:trigger r0[y]} :: y in recs ==> r0[y] == recs[y]
    ensures Walk(root, r0, x) == Walk(root, recs, x)
    ensures OnPath(root, r0, x) == OnPath(root, recs, x)
    decreases Rank(root, recs, x)
  {
    if recs[x].parent.Some? {
      FreshUnseen(root, recs, r0, a, recs[x].parent.value);
    }
  }

  /** `a` is an unset logger that is not linked yet. */
  ghost predicate Unlinked<I>(root: I, r0: map<I, Rec<I>>, a: I) {
    && Graph(root, r0) && a in r0 && a != root && r0[a].level == NOTSET && r0[a].parent.None?
    && forall y {:trigger r0[y].parent} :: y in r0 ==> r0[y].parent != Some(a)
  }

  lemma RehomedInterposes<I>(root: I, r0: map<I, Rec<I>>, r: map<I, Rec<I>>, a: I, done: seq<I>)
    requires Unlinked(root, r0, a) && MembersBelow(root, r0, a, done) && Rehomed(root, r0, r, a, done)
    requires r[a].parent.Some?
    ensures Interposed(root, r0, r, a)
  {
    forall x | x in r0 && x != a
      ensures r[x].parent == r0[x].parent || MovedUnder(root, r0, r, a, x)
    {
      if x in done && Moves(r0, x, r0[a].name) {
        assert MemberBelow(root, r0, a, x);
        DetachedIsAbove(root, r0, a, x);
      }
    }
  }

  /** The caches of all loggers but `a` are as in `recs`. */
  ghost predicate SameCaches<I>(recs: map<I, Rec<I>>, r: map<I, Rec<I>>, a: I) {
    recs.Keys <= r.Keys &&
    forall x {:trigger r[x].effective} {:trigger r[x].flags} :: x in recs && x != a ==>
      r[x].effective == recs[x].effective && r[x].flags == recs[x].flags
  }

  lemma AdoptRescans<I>(root: I, r: map<I, Rec<I>>, a: I, m: I)
    requires Graph(root, r) && MemberBelow(root, r, a, m) && Detached(r, m, r[a].name)
    ensures Graph(root, Adopt(root, r, a, m)) && m in Adopt(root, r, a, m)
    ensures CoherentAt(root, Adopt(root, r, a, m), m)
  {
    var p := r[m].parent.value;
    DetachedIsAbove(root, r, a, m);
    SetParentGraph(root, r, a, p);
    SetParentSettings(root, r, a, p);
    MemberStaysBelow(root, r, SetParent(root, r, a, p), a, m);
    SetParentCoherentAt(root, SetParent(root, r, a, p), m, a);
  }

  /** A moved logger's rescan finds the level cached before. */
  lemma RescanFinds<I>(root: I, r0: map<I, Rec<I>>, r1: map<I, Rec<I>>, a: I, m: I)
    requires Graph(root, r0) && Graph(root, r1) && Interposed(root, r0, r1, a) && r0[a].level == NOTSET
    requires m in r0 && m != a && r1[m].parent == Some(a) && r1[a].parent == r0[m].parent
    requires CoherentAt(root, r0, m) && CoherentAt(root, r1, m)
    ensures r1[m].effective == r0[m].effective && r1[m].flags == r0[m].flags
  {
    if r0[m].level == NOTSET {
      WalkOfMoved(root, r0, r1, a, m);
    } else {
      assert r1[m].level == r0[m].level;
    }
  }

  /** While members are adopted, no cache but that of the new logger changes. */
  ghost predicate AdoptingInv<I>(root: I, r0: map<I, Rec<I>>, a: I, r: map<I, Rec<I>>, done: seq<I>) {
    Rehomed(root, r0, r, a, done) && SameCaches(r0, r, a)
  }

  /** One adoption that moves its member. */
  lemma AdoptingMove<I>(root: I, r0: map<I, Rec<I>>, a: I, r: map<I, Rec<I>>, m: I)
    requires Graph(root, r0) && Graph(root, r) && SameSettings(r0, r) && SameCaches(r0, r, a)
    requires MemberBelow(root, r0, a, m) && MemberBelow(root, r, a, m) && r[m].parent == r0[m].parent
    requires Moves(r0, m, r0[a].name) && r0[a].level == NOTSET && CoherentAt(root, r0, m)
    requires Graph(root, Adopt(root, r, a, m)) && Interposed(root, r0, Adopt(root, r, a, m), a)
    ensures SameCaches(r0, Adopt(root, r, a, m), a)
  {
    AdoptOne(root, r0, r, a, m);
    assert r[r[m].parent.value].name == r0[r0[m].parent.value].name && r[a].name == r0[a].name;
    AdoptRescans(root, r, a, m);
    RescanFinds(root, r0, Adopt(root, r, a, m), a, m);
  }

  lemma AdoptingStep<I>(root: I, r0: map<I, Rec<I>>, a: I, r: map<I, Rec<I>>, done: seq<I>, m: I)
    requires Unlinked(root, r0, a) && MembersBelow(root, r0, a, done + [m]) && m !in done
    requires AdoptingInv(root, r0, a, r, done) && m in r0 && CoherentAt(root, r0, m)
    ensures AdoptingInv(root, r0, a, Adopt(root, r, a, m), done + [m])
  {
    assert m in done + [m] && forall x :: x in done ==> x in done + [m];
    var r1 := Adopt(root, r, a, m);
    RehomedStep(root, r0, r, a, done, m);
    MemberStaysBelow(root, r0, r, a, m);
    AdoptOne(root, r0, r, a, m);
    if Moves(r0, m, r0[a].name) {
      RehomedInterposes(root, r0, r1, a, done + [m]);
      AdoptingMove(root, r0, a, r, m);
    }
  }

  lemma AdoptingAll<I>(root: I, r0: map<I, Rec<I>>, a: I, ms: seq<I>)
    requires Unlinked(root, r0, a) && MembersBelow(root, r0, a, ms) && Distinct(ms)
    requires forall m :: m in ms ==> m in r0 && CoherentAt(root, r0, m)
    ensures AdoptingInv(root, r0, a, AdoptAll(root, r0, a, ms), ms)
  {
    var inv := (r: map<I, Rec<I>>, i: nat) => i <= |ms| && AdoptingInv(root, r0, a, r, ms[..i]);
    forall r: map<I, Rec<I>>, i: nat | i < |ms| && inv(r, i)
      ensures inv(Adopting(root, a)(r, ms[i]), i + 1)
    {
      TakeNext(ms, i);
      assert ms[i] in ms && forall x :: x in ms[..i + 1] ==> x in ms;
      AdoptingStep(root, r0, a, r, ms[..i], ms[i]);
    }
    assert ms[..0] == [] && ms[..|ms|] == ms;
    IterateKeeps(Adopting(root, a), r0, ms, |ms|, inv);
  }

  // ----- the whole call

  lemma EnteredUnlinked<I>(reg: Registry<I>, name: string, a: I)
    requires Sound(reg) && a !in reg.recs && !IsKnown(reg.dict, name)
    ensures Unlinked(reg.root, Enter(reg, name, a).recs, a)
  {
    EnterGraph(reg, name, a);
  }

  lemma EnteredChains<I>(reg: Registry<I>, name: string, a: I, x: I)
    requires Sound(reg) && a !in reg.recs && !IsKnown(reg.dict, name) && x in reg.recs
    ensures var r0 := Enter(reg, name, a).recs;
      && Graph(reg.root, r0) && x in r0 && r0[x] == reg.recs[x]
      && Walk(reg.root, r0, x) == Walk(reg.root, reg.recs, x)
      && OnPath(reg.root, r0, x) == OnPath(reg.root, reg.recs, x)
  {
    EnterGraph(reg, name, a);
    FreshUnseen(reg.root, reg.recs, Enter(reg, name, a).recs, a, x);
  }

  lemma MovesEntered<I>(reg: Registry<I>, name: string, a: I, x: I)
    requires Sound(reg) && a !in reg.recs && x in reg.recs
    ensures Moves(Enter(reg, name, a).recs, x, name) <==> Moves(reg.recs, x, name)
  {
    if reg.recs[x].parent.Some? {
      assert reg.recs[x].parent.value in reg.recs;
    }
  }

  /** A member of the placeholder that `getLogger(name)` promotes, and moves under the new logger. */
  ghost predicate IsMoved<I>(reg: Registry<I>, name: string, x: I) {
    && name in reg.dict && reg.dict[name].Placeholder? && x in reg.dict[name].members
    && Moves(reg.recs, x, name)
  }

  /** Without any hypothesis on names or parents: only the moved loggers have another parent, and no
      cache but the new logger's has changed. */
  lemma AdoptedExactly<I>(reg: Registry<I>, name: string, a: I)
    requires Sound(reg) && a !in reg.recs && !IsKnown(reg.dict, name)
    ensures var (r0, r1) := (Enter(reg, name, a).recs, Adopted(reg, name, a));
      && ParentsMoved(reg, name, a, r1)
      && (Coherent(reg.root, reg.recs) ==> SameCaches(r0, r1, a))
  {
    var r0, r1 := Enter(reg, name, a).recs, Adopted(reg, name, a);
    EnterGraph(reg, name, a);
    if name in reg.dict {
      var ms := reg.dict[name].members;
      AdoptAllRehomes(reg.root, r0, a, ms);
      forall x | x in reg.recs
        ensures r1[x].parent == if IsMoved(reg, name, x) then Some(a) else reg.recs[x].parent
      {
        MovesEntered(reg, name, a, x);
        assert r0[x] == reg.recs[x];
      }
      if Coherent(reg.root, reg.recs) {
        AdoptedCaches(reg, name, a);
      }
    }
  }

  lemma AdoptedCaches<I>(reg: Registry<I>, name: string, a: I)
    requires Sound(reg) && Coherent(reg.root, reg.recs) && a !in reg.recs
    requires name in reg.dict && reg.dict[name].Placeholder?
    ensures SameCaches(Enter(reg, name, a).recs, Adopted(reg, name, a), a)
  {
    var r0, ms := Enter(reg, name, a).recs, reg.dict[name].members;
    EnterGraph(reg, name, a);
    EnteredUnlinked(reg, name, a);
    forall m | m in ms
      ensures m in r0 && CoherentAt(reg.root, r0, m)
    {
      assert m in reg.recs;
      EnteredChains(reg, name, a, m);
      assert CoherentAt(reg.root, reg.recs, m);
    }
    AdoptingAll(reg.root, r0, a, ms);
  }

  lemma LinkedRecords<I>(reg: Registry<I>, name: string, a: I)
    requires Sound(reg) && a !in reg.recs && !IsKnown(reg.dict, name)
    ensures var (p, r1) := (ScannedParent(reg, name, a), Adopted(reg, name, a));
      && p in reg.recs && r1.Keys == reg.recs.Keys + {a} && p != a
      && GetLogger(reg, name, a).recs == SetParent(reg.root, r1, a, p)
  {
    ScannedParentAbove(reg, name, a);
  }

  /** The parents after the call, from any sound registry. */
  lemma LinksAfter<I>(reg: Registry<I>, name: string, a: I)
    requires Sound(reg) && a !in reg.recs && !IsKnown(reg.dict, name)
    ensures var r := GetLogger(reg, name, a).recs;
      && r.Keys == reg.recs.Keys + {a} && ScannedParent(reg, name, a) in reg.recs
      && ParentsMoved(reg, name, a, r) && r[a].parent == Some(ScannedParent(reg, name, a))
  {
    var p, r1 := ScannedParent(reg, name, a), Adopted(reg, name, a);
    AdoptedExactly(reg, name, a);
    LinkedRecords(reg, name, a);
    LinkedParents(reg.root, r1, a, p);
    assert ParentsMoved(reg, name, a, r1);
    SameParentsMoved(reg, name, a, r1, SetParent(reg.root, r1, a, p));
  }

  /** The moved loggers have the new one as parent, all others have the parent they had. */
  ghost predicate ParentsMoved<I>(reg: Registry<I>, name: string, a: I, r: map<I, Rec<I>>) {
    reg.recs.Keys <= r.Keys &&
    forall x {:trigger r[x].parent} :: x in reg.recs ==>
      r[x].parent == if IsMoved(reg, name, x) then Some(a) else reg.recs[x].parent
  }

  lemma SameParentsMoved<I>(reg: Registry<I>, name: string, a: I, r1: map<I, Rec<I>>, r: map<I, Rec<I>>)
    requires ParentsMoved(reg, name, a, r1) && a !in reg.recs && r1.Keys <= r.Keys
    requires forall x {:trigger r[x].parent} :: x in r1 && x != a ==> r[x].parent == r1[x].parent
    ensures ParentsMoved(reg, name, a, r)
  {
  }

  lemma LinkedParents<I>(root: I, r: map<I, Rec<I>>, a: I, p: I)
    requires a in r && p in r && a != p
    ensures var s := SetParent(root, r, a, p);
      s[a].parent == Some(p) && forall x {:trigger s[x].parent} :: x in r && x != a ==> s[x].parent == r[x].parent
  {
  }

  /** And the caches: the new one is right, the others have not changed. */
  lemma CachesAfter<I>(reg: Registry<I>, name: string, a: I)
    requires Sound(reg) && Coherent(reg.root, reg.recs) && a !in reg.recs && !IsKnown(reg.dict, name)
    ensures var r := GetLogger(reg, name, a).recs;
      a in r && CoherentAt(reg.root, r, a) && SameCaches(Enter(reg, name, a).recs, r, a)
  {
    var p, r1 := ScannedParent(reg, name, a), Adopted(reg, name, a);
    AdoptedExactly(reg, name, a);
    ScannedParentAbove(reg, name, a);
    SetParentCoherentAt(reg.root, r1, a, p);
    LinkedCaches(reg.root, r1, a, p);
  }

  lemma LinkedCaches<I>(root: I, r: map<I, Rec<I>>, a: I, p: I)
    requires a in r && p in r && a != p
    ensures SameCaches(r, SetParent(root, r, a, p), a)
  {
  }

  /** The call interposes the new logger. */
  lemma GetLoggerInterposes<I>(reg: Registry<I>, name: string, a: I)
    requires Sound(reg) && a !in reg.recs && !IsKnown(reg.dict, name)
    ensures Interposed(reg.root, Enter(reg, name, a).recs, GetLogger(reg, name, a).recs, a)
  {
    var r0, r := Enter(reg, name, a).recs, GetLogger(reg, name, a).recs;
    LinkedSettings(reg, name, a);
    LinksAfter(reg, name, a);
    EnteredUnlinked(reg, name, a);
    forall x | x in r0 && x != a
      ensures r[x].parent == r0[x].parent || MovedUnder(reg.root, r0, r, a, x)
    {
      assert r0[x] == reg.recs[x];
      if IsMoved(reg, name, x) {
        EnterGraph(reg, name, a);
        MovesEntered(reg, name, a, x);
        assert MemberBelow(reg.root, r0, a, x);
        DetachedIsAbove(reg.root, r0, a, x);
      }
    }
  }

  // ----- what the other loggers see

  /** The level that the former parent of a moved logger resolves to, if the logger is unset, is that
      of the parent found for the new one. */
  ghost predicate LevelsAgree<I>(reg: Registry<I>, name: string, a: I)
    requires Sound(reg) && a !in reg.recs
  {
    IsKnown(reg.dict, name) || (
      ScannedParentAbove(reg, name, a);
      forall x :: x in reg.recs && IsMoved(reg, name, x) && reg.recs[x].level == NOTSET ==>
        Walk(reg.root, reg.recs, reg.recs[x].parent.value) == Walk(reg.root, reg.recs, ScannedParent(reg, name, a)))
  }

  /** The same of the dispatch paths, where the moved logger propagates. */
  ghost predicate PathsAgree<I>(reg: Registry<I>, name: string, a: I)
    requires Sound(reg) && a !in reg.recs
  {
    IsKnown(reg.dict, name) || (
      ScannedParentAbove(reg, name, a);
      forall x :: x in reg.recs && IsMoved(reg, name, x) && reg.recs[x].propagate ==>
        OnPath(reg.root, reg.recs, reg.recs[x].parent.value) ==
        OnPath(reg.root, reg.recs, ScannedParent(reg, name, a)))
  }

  lemma LevelsAgreeEntered<I>(reg: Registry<I>, name: string, a: I)
    requires Sound(reg) && a !in reg.recs && !IsKnown(reg.dict, name)
    requires Interposed(reg.root, Enter(reg, name, a).recs, GetLogger(reg, name, a).recs, a)
    ensures LevelsAgree(reg, name, a) <==>
      SameLevelAbove(reg.root, Enter(reg, name, a).recs, GetLogger(reg, name, a).recs, a)
  {
    var r0, r, p := Enter(reg, name, a).recs, GetLogger(reg, name, a).recs, ScannedParent(reg, name, a);
    LinksAfter(reg, name, a);
    EnteredUnlinked(reg, name, a);
    EnteredChains(reg, name, a, p);
    forall x | x in reg.recs && r[x].parent == Some(a)
      ensures IsMoved(reg, name, x) && r0[x] == reg.recs[x] && reg.recs[x].parent.value in reg.recs
      ensures Walk(reg.root, r0, r0[x].parent.value) == Walk(reg.root, reg.recs, reg.recs[x].parent.value)
    {
      EnteredChains(reg, name, a, x);
      EnteredChains(reg, name, a, reg.recs[x].parent.value);
    }
    forall x | IsMoved(reg, name, x)
      ensures x in reg.recs && r[x].parent == Some(a)
    {
    }
  }

  lemma PathsAgreeEntered<I>(reg: Registry<I>, name: string, a: I)
    requires Sound(reg) && a !in reg.recs && !IsKnown(reg.dict, name) && Graph(reg.root, Enter(reg, name, a).recs)
    requires Interposed(reg.root, Enter(reg, name, a).recs, GetLogger(reg, name, a).recs, a)
    ensures PathsAgree(reg, name, a) <==>
      SamePathAbove(reg.root, Enter(reg, name, a).recs, GetLogger(reg, name, a).recs, a)
  {
    var r0, r, p := Enter(reg, name, a).recs, GetLogger(reg, name, a).recs, ScannedParent(reg, name, a);
    LinksAfter(reg, name, a);
    EnteredUnlinked(reg, name, a);
    EnteredChains(reg, name, a, p);
    forall x | x in reg.recs && r[x].parent == Some(a)
      ensures IsMoved(reg, name, x) && r0[x] == reg.recs[x] && reg.recs[x].parent.value in reg.recs
      ensures OnPath(reg.root, r0, r0[x].parent.value) == OnPath(reg.root, reg.recs, reg.recs[x].parent.value)
    {
      EnteredChains(reg, name, a, x);
      EnteredChains(reg, name, a, reg.recs[x].parent.value);
    }
    forall x | IsMoved(reg, name, x)
      ensures x in reg.recs && r[x].parent == Some(a)
    {
    }
  }

  /** Seen from the records before the call, `r` does to all but `a` what it does to `r0`. */
  lemma BeyondFresh<I>(root: I, recs: map<I, Rec<I>>, r0: map<I, Rec<I>>, r: map<I, Rec<I>>, a: I)
    requires Graph(root, recs) && Graph(root, r0) && Graph(root, r)
    requires a !in recs && r0.Keys == recs.Keys + {a} && r.Keys == r0.Keys
    requires forall x {:trigger r0[x]} :: x in recs ==> r0[x] == recs[x]
    ensures SameWalks(root, recs, r, a) <==> SameWalks(root, r0, r, a)
    ensures SamePaths(root, recs, r, a) <==> SamePaths(root, r0, r, a)
  {
    forall x | x in recs
      ensures Walk(root, r0, x) == Walk(root, recs, x) && OnPath(root, r0, x) == OnPath(root, recs, x)
    {
      FreshUnseen(root, recs, r0, a, x);
    }
  }

  lemma BeyondEntered<I>(reg: Registry<I>, name: string, a: I)
    requires Sound(reg) && a !in reg.recs && !IsKnown(reg.dict, name)
    ensures var (r0, r) := (Enter(reg, name, a).recs, GetLogger(reg, name, a).recs);
      && Graph(reg.root, r0) && a in r0 && r0[a] == NewRec(name)
      && (SameWalks(reg.root, reg.recs, r, a) <==> SameWalks(reg.root, r0, r, a))
      && (SamePaths(reg.root, reg.recs, r, a) <==> SamePaths(reg.root, r0, r, a))
  {
    EnterGraph(reg, name, a);
    LinksAfter(reg, name, a);
    BeyondFresh(reg.root, reg.recs, Enter(reg, name, a).recs, GetLogger(reg, name, a).recs, a);
  }

  /** Every logger resolves to its former level exactly if the levels agree. */
  lemma WalksAfter<I>(reg: Registry<I>, name: string, a: I)
    requires Sound(reg) && a !in reg.recs
    ensures SameWalks(reg.root, reg.recs, GetLogger(reg, name, a).recs, a) <==> LevelsAgree(reg, name, a)
  {
    if !IsKnown(reg.dict, name) {
      BeyondEntered(reg, name, a);
      GetLoggerInterposes(reg, name, a);
      LevelsAgreeEntered(reg, name, a);
      WalkInterposed(reg.root, Enter(reg, name, a).recs, GetLogger(reg, name, a).recs, a);
    }
  }

  /** Every logger keeps its dispatch path exactly if the paths agree. */
  lemma PathsAfter<I>(reg: Registry<I>, name: string, a: I)
    requires Sound(reg) && a !in reg.recs
    ensures SamePaths(reg.root, reg.recs, GetLogger(reg, name, a).recs, a) <==> PathsAgree(reg, name, a)
  {
    if !IsKnown(reg.dict, name) {
      BeyondEntered(reg, name, a);
      GetLoggerInterposes(reg, name, a);
      PathsAgreeEntered(reg, name, a);
      PathInterposed(reg.root, Enter(reg, name, a).recs, GetLogger(reg, name, a).recs, a);
    }
  }

  /** From any sound registry with right caches, `getLogger` leaves right caches exactly if the
      levels agree: no cache changes, so each is right exactly if the level it stands for is the same. */
  lemma GetLoggerCoherent<I>(reg: Registry<I>, name: string, a: I)
    requires Sound(reg) && Coherent(reg.root, reg.recs) && a !in reg.recs
    ensures Coherent(reg.root, GetLogger(reg, name, a).recs) <==> LevelsAgree(reg, name, a)
  {
    WalksAfter(reg, name, a);
    if !IsKnown(reg.dict, name) {
      var r0, r := Enter(reg, name, a).recs, GetLogger(reg, name, a).recs;
      LinksAfter(reg, name, a);
      CachesAfter(reg, name, a);
      CoherentExactly(reg.root, reg.recs, r, a);
    }
  }

  /** Where the caches are the same, they are right exactly if the walks are the same. */
  lemma CoherentExactly<I>(root: I, recs: map<I, Rec<I>>, r: map<I, Rec<I>>, a: I)
    requires Coherent(root, recs) && SameCaches(recs, r, a) && a !in recs
    requires r.Keys == recs.Keys + {a} && CoherentAt(root, r, a)
    ensures Coherent(root, r) <==> SameWalks(root, recs, r, a)
  {
    forall x | x in recs
      ensures CoherentAt(root, r, x) <==> Walk(root, r, x) == Walk(root, recs, x)
    {
      assert CoherentAt(root, recs, x);
    }
  }

  /** Everything a logging call on `x` reads: settings, caches, and where its records go. */
  ghost predicate SeesNoChange<I>(root: I, recs: map<I, Rec<I>>, r: map<I, Rec<I>>, x: I)
    requires Graph(root, recs) && Graph(root, r) && x in recs && x in r
  {
    && r[x].level == recs[x].level && r[x].effective == recs[x].effective && r[x].flags == recs[x].flags
    && r[x].disabled == recs[x].disabled && r[x].propagate == recs[x].propagate && r[x].handlers == recs[x].handlers
    && Walk(root, r, x) == Walk(root, recs, x)
    && forall level: Level :: Dispatch(root, r, x, level) == Dispatch(root, recs, x, level)
  }

  lemma SettingsUnseen<I>(reg: Registry<I>, name: string, a: I, x: I)
    requires Sound(reg) && a !in reg.recs && !IsKnown(reg.dict, name) && x in reg.recs
    ensures var r := GetLogger(reg, name, a).recs;
      && x in r && r[x].level == reg.recs[x].level && r[x].disabled == reg.recs[x].disabled
      && r[x].propagate == reg.recs[x].propagate && r[x].handlers == reg.recs[x].handlers
    ensures Coherent(reg.root, reg.recs) ==> var r := GetLogger(reg, name, a).recs;
      r[x].effective == reg.recs[x].effective && r[x].flags == reg.recs[x].flags
  {
    LinkedSettings(reg, name, a);
    assert Enter(reg, name, a).recs[x] == reg.recs[x];
    if Coherent(reg.root, reg.recs) {
      CachesAfter(reg, name, a);
    }
  }

  lemma SeenExactly<I>(reg: Registry<I>, name: string, a: I, x: I)
    requires Sound(reg) && Coherent(reg.root, reg.recs) && a !in reg.recs && x in reg.recs
    ensures var r := GetLogger(reg, name, a).recs;
      x in r && (SeesNoChange(reg.root, reg.recs, r, x) <==>
        Walk(reg.root, r, x) == Walk(reg.root, reg.recs, x) && OnPath(reg.root, r, x) == OnPath(reg.root, reg.recs, x))
  {
    GetLoggerSound(reg, name, a);
    DispatchShowsPath(reg.root, reg.recs, GetLogger(reg, name, a).recs, x);
    if !IsKnown(reg.dict, name) {
      SettingsUnseen(reg, name, a, x);
    }
  }

  ghost predicate NobodySees<I>(root: I, recs: map<I, Rec<I>>, r: map<I, Rec<I>>)
    requires Graph(root, recs) && Graph(root, r)
  {
    recs.Keys <= r.Keys && forall x :: x in recs ==> SeesNoChange(root, recs, r, x)
  }

  /** Creating or promoting a logger is invisible to all loggers that existed before exactly if both
      agree; settings and caches never show it. */
  lemma GetLoggerInvisible<I>(reg: Registry<I>, name: string, a: I)
    requires Sound(reg) && Coherent(reg.root, reg.recs) && a !in reg.recs
    ensures NobodySees(reg.root, reg.recs, GetLogger(reg, name, a).recs) <==>
      LevelsAgree(reg, name, a) && PathsAgree(reg, name, a)
  {
    WalksAfter(reg, name, a);
    PathsAfter(reg, name, a);
    var r := GetLogger(reg, name, a).recs;
    forall x | x in reg.recs
      ensures x in r
      ensures SeesNoChange(reg.root, reg.recs, r, x) <==>
        Walk(reg.root, r, x) == Walk(reg.root, reg.recs, x) && OnPath(reg.root, r, x) == OnPath(reg.root, reg.recs, x)
    {
      SeenExactly(reg, name, a, x);
    }
  }

  // ----- in a tree

  /** In a tree every moved logger leaves the parent that the new logger gets. */
  lemma MovedInTree<I>(reg: Registry<I>, name: string, a: I, x: I)
    requires Tree(reg) && a !in reg.recs && IsMoved(reg, name, x)
    ensures reg.recs[x].parent == Some(ScannedParent(reg, name, a))
    ensures Nearest(reg.dict, reg.recs[x].name) < |name|
  {
    var n := reg.recs[x].name;
    var s := Nearest(reg.dict, n);
    NearestEntered(reg, name, a);
    assert x in reg.recs && x != reg.root && IsAncestor(name, n);
    assert reg.recs[x].parent == Some(NearestLogger(reg.root, reg.dict, n));
    if s >= |name| {
      assert reg.recs[reg.recs[x].parent.value].name == n[..s];
      PrefixOfPrefix(n, |name|, s);
    }
    NearestOfPrefix(reg.dict, name, n);
  }

  /** In a tree nobody sees a call, whatever the name, and every cache stays right. */
  lemma TreeHidesGetLogger<I>(reg: Registry<I>, name: string, a: I)
    requires Tree(reg) && a !in reg.recs
    ensures LevelsAgree(reg, name, a) && PathsAgree(reg, name, a)
  {
    if !IsKnown(reg.dict, name) {
      forall x | IsMoved(reg, name, x)
        ensures reg.recs[x].parent == Some(ScannedParent(reg, name, a))
      {
        MovedInTree(reg, name, a, x);
      }
    }
  }

  /** In a tree a promotion moves some logger exactly if the placeholder's name is no prefix of "root". */
  lemma PromotionMoves<I>(reg: Registry<I>, name: string)
    requires Tree(reg) && name in reg.dict && reg.dict[name].Placeholder?
    ensures (exists x :: IsMoved(reg, name, x)) <==> !ConfusedWithRoot(reg.dict, name)
  {
    if ConfusedWithRoot(reg.dict, name) {
      forall x | x in reg.dict[name].members
        ensures !IsMoved(reg, name, x)
      {
        ConfusedStays(reg, name, x);
      }
    } else {
      var m := reg.dict[name].members[0];
      assert m in reg.dict[name].members;
      var y := TopMember(reg, name, m);
      MovesIffNearestAbove(reg, name, y);
      assert IsMoved(reg, name, y);
    }
  }

  lemma ConfusedStays<I>(reg: Registry<I>, name: string, x: I)
    requires Tree(reg) && ConfusedWithRoot(reg.dict, name) && x in reg.dict[name].members
    ensures !IsMoved(reg, name, x)
  {
    var n := reg.recs[x].name;
    var s := Nearest(reg.dict, n);
    assert x in reg.recs && x != reg.root && IsAncestor(name, n);
    assert reg.recs[x].parent == Some(NearestLogger(reg.root, reg.dict, n));
    if s >= |name| {
      PrefixOfPrefix(n, |name|, s);
    } else {
      NearestOfPrefix(reg.dict, name, n);
      NoDotInRoot(reg.dict, name);
    }
  }
}
