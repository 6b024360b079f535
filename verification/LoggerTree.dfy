/** What `getLogger` keeps: registration and linking always; the dotted-name tree as long as no
    placeholder named by a prefix of "root" is promoted. */
module LoggerTree {
  import opened Wrappers
  import opened Names
  import opened Folds
  import opened LoggerGraph
  import opened LoggerRegistry

  // ----- registration

  /** The dictionary after the scan knows one more logger; everything known stays known. */
  lemma KnownAfter<I>(reg: Registry<I>, name: string, a: I)
    requires !IsKnown(reg.dict, name)
    ensures var d := Scan(reg, name, a).0;
      && name in d && d[name] == Known(a)
      && (forall p :: IsKnown(d, p) <==> IsKnown(reg.dict, p) || p == name)
      && (forall p :: IsKnown(reg.dict, p) ==> d[p] == reg.dict[p])
      && (forall p :: p in reg.dict ==> p in d)
      && (forall p :: p in d ==> p in reg.dict || p == name || IsAncestor(p, name))
  {
    var d0, d := Enter(reg, name, a).dict, Scan(reg, name, a).0;
    assert name in d0;
    forall p | p in d
      ensures IsKnown(d, p) <==> IsKnown(d0, p)
      ensures IsKnown(d0, p) ==> d[p] == d0[p]
      ensures p in d0 || IsAncestor(p, name)
    {
    }
    forall p | p in d0
      ensures p in d
    {
    }
    assert forall p :: IsKnown(d0, p) <==> IsKnown(reg.dict, p) || p == name;
  }

  lemma AppendDistinct<I>(ms: seq<I>, a: I)
    requires Distinct(ms)
    ensures Distinct(Append(ms, a)) && Append(ms, a) != []
  {
  }

  /** A placeholder after the scan: as before, or with the new logger added. */
  lemma PlaceholderAfter<I>(reg: Registry<I>, name: string, a: I, p: string)
    requires p in Scan(reg, name, a).0 && Scan(reg, name, a).0[p].Placeholder?
    ensures p != name || IsKnown(reg.dict, name)
    ensures
      || (p in reg.dict && Scan(reg, name, a).0[p] == reg.dict[p])
      || (IsAncestor(p, name) && !IsKnown(reg.dict, p) &&
           Scan(reg, name, a).0[p] == Placeholder(MembersWith(reg.dict, p, a)))
  {
    var d0, d := Enter(reg, name, a).dict, Scan(reg, name, a).0;
    assert (p in d0 && d[p] == d0[p]) || (IsAncestor(p, name) && d[p] == Placeholder(MembersWith(d0, p, a)));
    assert name in d0 && d0[name] == Known(a);
  }

  lemma PlaceholderRegistered<I>(reg: Registry<I>, name: string, a: I, recs: map<I, Rec<I>>, p: string)
    requires Registered(reg.root, reg.recs, reg.dict) && a !in reg.recs && !IsKnown(reg.dict, name)
    requires SameSettings(Enter(reg, name, a).recs, recs)
    requires p in Scan(reg, name, a).0 && Scan(reg, name, a).0[p].Placeholder?
    ensures var ms := Scan(reg, name, a).0[p].members;
      && ms != [] && Distinct(ms)
      && forall m :: m in ms ==> m in recs && m != reg.root && IsAncestor(p, recs[m].name)
  {
    PlaceholderAfter(reg, name, a, p);
    var ms := Scan(reg, name, a).0[p].members;
    if p in reg.dict {
      AppendDistinct(reg.dict[p].members, a);
    }
    forall m | m in ms
      ensures m in recs && m != reg.root && IsAncestor(p, recs[m].name)
    {
      assert recs[m].name == Enter(reg, name, a).recs[m].name by {
        assert m == a || m in reg.dict[p].members;
      }
    }
  }

  lemma ScanRegistered<I>(reg: Registry<I>, name: string, a: I, recs: map<I, Rec<I>>)
    requires Registered(reg.root, reg.recs, reg.dict) && a !in reg.recs && !IsKnown(reg.dict, name)
    requires SameSettings(Enter(reg, name, a).recs, recs)
    ensures Registered(reg.root, recs, Scan(reg, name, a).0)
  {
    var d := Scan(reg, name, a).0;
    KnownAfter(reg, name, a);
    forall p | p in d && d[p].Placeholder?
      ensures d[p].members != [] && Distinct(d[p].members)
      ensures forall m :: m in d[p].members ==> m in recs && m != reg.root && IsAncestor(p, recs[m].name)
    {
      PlaceholderRegistered(reg, name, a, recs, p);
    }
    forall p | p in d && d[p].Known?
      ensures d[p].logger in recs && d[p].logger != reg.root && recs[d[p].logger].name == p
    {
      assert IsKnown(d, p);
    }
    forall x | x in recs && x != reg.root
      ensures recs[x].name in d && d[recs[x].name] == Known(x)
    {
      if x != a {
        assert recs[x].name == reg.recs[x].name;
        assert IsKnown(reg.dict, reg.recs[x].name);
      }
    }
    assert recs[reg.root].name == reg.recs[reg.root].name;
  }

  lemma AdoptedListed<I>(reg: Registry<I>, name: string, a: I)
    requires Sound(reg) && a !in reg.recs && !IsKnown(reg.dict, name)
    ensures Listed(Adopted(reg, name, a))
    ensures forall x :: x in reg.recs && x != reg.root ==> Adopted(reg, name, a)[x].parent.Some?
  {
    var r0, r1 := Enter(reg, name, a).recs, Adopted(reg, name, a);
    EnterGraph(reg, name, a);
    if name in reg.dict {
      AdoptAllInv(reg.root, r0, a, reg.dict[name].members);
    }
    forall x | x in reg.recs && x != reg.root
      ensures r1[x].parent.Some?
    {
      assert r0[x].parent == reg.recs[x].parent;
    }
  }

  /** The new logger linked to its parent: the settings of all others are as before. */
  lemma LinkedSettings<I>(reg: Registry<I>, name: string, a: I)
    requires Sound(reg) && a !in reg.recs && !IsKnown(reg.dict, name)
    ensures SameSettings(Enter(reg, name, a).recs, GetLogger(reg, name, a).recs)
    ensures Listed(GetLogger(reg, name, a).recs) && HasParents(reg.root, GetLogger(reg, name, a).recs)
  {
    var p, r1 := ScannedParent(reg, name, a), Adopted(reg, name, a);
    ScannedParentAbove(reg, name, a);
    AdoptedListed(reg, name, a);
    SetParentGraph(reg.root, r1, a, p);
    SetParentSettings(reg.root, r1, a, p);
    SetParentListed(reg.root, r1, a, p);
    SettingsTransitive(Enter(reg, name, a).recs, r1, SetParent(reg.root, r1, a, p));
  }

  /** `getLogger` keeps the registry sound, whatever the name. */
  lemma GetLoggerSound<I>(reg: Registry<I>, name: string, a: I)
    requires Sound(reg) && a !in reg.recs
    ensures Sound(GetLogger(reg, name, a))
    ensures GetLogger(reg, name, a).recs.Keys == reg.recs.Keys + (if IsKnown(reg.dict, name) then {} else {a})
    ensures var r := GetLogger(reg, name, a);
      IsKnown(r.dict, name) && r.dict[name].logger == Found(reg, name, a) && r.recs[Found(reg, name, a)].name == name
  {
    if !IsKnown(reg.dict, name) {
      LinkedSettings(reg, name, a);
      ScanRegistered(reg, name, a, GetLogger(reg, name, a).recs);
      KnownAfter(reg, name, a);
    }
  }

  // ----- the tree

  /** Every registered name is plain and has all its dotted prefixes registered. */
  ghost predicate PrefixClosed<I>(dict: Dict<I>) {
    && (forall p :: p in dict ==> Plain(p))
    && (forall p, j {:trigger Dot(p, j)} :: p in dict && Dot(p, j) ==> p[..j] in dict)
  }

  /** A placeholder holds every logger whose nearest ancestor logger lies above it. */
  ghost predicate Complete<I>(root: I, recs: map<I, Rec<I>>, dict: Dict<I>) {
    forall p, x {:trigger IsAncestor(p, recs[x].name)} ::
      p in dict && dict[p].Placeholder? && x in recs && x != root &&
      IsAncestor(p, recs[x].name) && Nearest(dict, recs[x].name) < |p|
      ==> x in dict[p].members
  }

  /** Every parent is the nearest registered ancestor logger, or the root. */
  ghost predicate NearestParents<I>(root: I, recs: map<I, Rec<I>>, dict: Dict<I>) {
    forall x {:trigger recs[x].parent} :: x in recs && x != root ==>
      recs[x].parent == Some(NearestLogger(root, dict, recs[x].name))
  }

  ghost predicate Tree<I>(reg: Registry<I>) {
    && Sound(reg) && PrefixClosed(reg.dict) && Complete(reg.root, reg.recs, reg.dict)
    && NearestParents(reg.root, reg.recs, reg.dict)
  }

  /** The one call that loses the tree: promoting a placeholder named by a prefix of "root". */
  ghost predicate ConfusedWithRoot<I>(dict: Dict<I>, name: string) {
    name in dict && dict[name].Placeholder? && Take("root", |name|) == name
  }

  lemma NearestUnique<I>(dict: Dict<I>, n: string, s: int)
    requires s == 0 || (0 < s && Dot(n, s) && IsKnown(dict, n[..s]))
    requires forall k :: s < k && Dot(n, k) ==> !IsKnown(dict, n[..k])
    ensures Nearest(dict, n) == s
  {
  }

  /** How one more known name changes the nearest ancestor of a name. */
  lemma NearestAfter<I>(dict: Dict<I>, d: Dict<I>, q: string, n: string)
    requires !IsKnown(dict, q) && forall p :: IsKnown(d, p) <==> IsKnown(dict, p) || p == q
    ensures Nearest(d, n) == if IsAncestor(q, n) && Nearest(dict, n) < |q| then |q| else Nearest(dict, n)
  {
    if IsAncestor(q, n) && Nearest(dict, n) < |q| {
      NearestUnique(d, n, |q|);
    } else {
      var s := Nearest(dict, n);
      forall k | s < k && Dot(n, k)
        ensures !IsKnown(d, n[..k])
      {
        AncestorAt(n, k);
      }
      NearestUnique(d, n, s);
    }
  }

  /** Below `q`, a name whose nearest logger lies above `q` has the same one as `q`. */
  lemma NearestOfPrefix<I>(dict: Dict<I>, q: string, n: string)
    requires IsAncestor(q, n) && Nearest(dict, n) < |q|
    ensures Nearest(dict, q) == Nearest(dict, n)
    ensures Nearest(dict, n) > 0 ==> q[..Nearest(dict, q)] == n[..Nearest(dict, n)]
  {
    var s := Nearest(dict, n);
    forall k | Dot(q, k)
      ensures Dot(n, k) && q[..k] == n[..k]
    {
      PrefixDots(n, |q|, k);
    }
    if s > 0 {
      PrefixDots(n, |q|, s);
    }
    NearestUnique(dict, q, s);
  }

  lemma ClosedAfter<I>(reg: Registry<I>, name: string, a: I)
    requires PrefixClosed(reg.dict) && Plain(name) && !IsKnown(reg.dict, name)
    ensures PrefixClosed(Scan(reg, name, a).0)
  {
    var d := Scan(reg, name, a).0;
    KnownAfter(reg, name, a);
    forall j | Dot(name, j)
      ensures name[..j] in d
    {
      PrefixRegistered(reg, name, a, j);
    }
    forall p | p in d
      ensures Plain(p)
    {
      if IsAncestor(p, name) {
        PrefixIsPlain(name, |p|);
      }
    }
    forall p, j | p in d && Dot(p, j)
      ensures p[..j] in d
    {
      if IsAncestor(p, name) {
        PrefixDots(name, |p|, j);
      }
    }
  }

  /** After the scan every dotted prefix of the new name is registered. */
  lemma PrefixRegistered<I>(reg: Registry<I>, name: string, a: I, j: int)
    requires PrefixClosed(reg.dict) && Plain(name) && !IsKnown(reg.dict, name) && Dot(name, j)
    ensures name[..j] in Scan(reg, name, a).0
    ensures Nearest(reg.dict, name) < j ==>
      Scan(reg, name, a).0[name[..j]] == Placeholder(MembersWith(reg.dict, name[..j], a))
  {
    var i := RFindDot(name, |name|);
    var d0 := Enter(reg, name, a).dict;
    ScanUpEffect(d0, a, name, i);
    KnownAfter(reg, name, a);
    NearestEntered(reg, name, a);
    var s := Nearest(reg.dict, name);
    assert name[..j] != name;
    if s < j {
      assert j <= i;
    } else if j < s {
      PrefixDots(name, s, j);
      assert name[..s] in reg.dict && Dot(name[..s], j);
    }
  }

  /** The scan and the entered dictionary agree with the nearest logger of the name before the call. */
  lemma NearestEntered<I>(reg: Registry<I>, name: string, a: I)
    requires Plain(name) && !IsKnown(reg.dict, name)
    ensures var i := RFindDot(name, |name|);
      NearestDot(Enter(reg, name, a).dict, name, if i < 0 then 0 else i) == Nearest(reg.dict, name)
    ensures ScannedParent(reg, name, a) == NearestLogger(reg.root, reg.dict, name)
  {
    var i, d0, s := RFindDot(name, |name|), Enter(reg, name, a).dict, Nearest(reg.dict, name);
    forall k | Dot(name, k)
      ensures k <= i && (IsKnown(d0, name[..k]) <==> IsKnown(reg.dict, name[..k]))
    {
      assert name[..k] != name;
    }
    NearestIs(d0, name, if i < 0 then 0 else i, s);
    ScanUpEffect(d0, a, name, i);
    if s > 0 {
      assert name[..s] != name;
    }
  }

  lemma CompleteAfter<I>(reg: Registry<I>, name: string, a: I)
    requires Tree(reg) && a !in reg.recs && Plain(name) && !IsKnown(reg.dict, name)
    ensures Complete(reg.root, GetLogger(reg, name, a).recs, Scan(reg, name, a).0)
  {
    var d, r := Scan(reg, name, a).0, GetLogger(reg, name, a).recs;
    LinkedSettings(reg, name, a);
    KnownAfter(reg, name, a);
    forall p, x | p in d && d[p].Placeholder? && x in r && x != reg.root &&
        IsAncestor(p, r[x].name) && Nearest(d, r[x].name) < |p|
      ensures x in d[p].members
    {
      NearestAfter(reg.dict, d, name, r[x].name);
      PlaceholderAfter(reg, name, a, p);
      assert r[x].name == Enter(reg, name, a).recs[x].name;
      if x == a {
        PrefixRegistered(reg, name, a, |p|);
      } else {
        assert r[x].name == reg.recs[x].name;
        assert reg.recs[x].name in reg.dict && Dot(reg.recs[x].name, |p|);
        assert p in reg.dict;
        assert x in reg.dict[p].members;
      }
    }
  }

  // ----- adopting the members of a promoted placeholder

  /** `r` is `recs` with exactly the moving loggers of `done` under `a`, and `a` under a former
      parent of one of them. */
  ghost predicate Rehomed<I>(root: I, recs: map<I, Rec<I>>, r: map<I, Rec<I>>, a: I, done: seq<I>) {
    && AdoptInv(root, recs, r) && a in recs
    && (forall x {:trigger r[x].parent} :: x in recs && x != a ==>
          r[x].parent == if x in done && Moves(recs, x, recs[a].name) then Some(a) else recs[x].parent)
    && ((r[a].parent == recs[a].parent && forall m :: m in done ==> !Moves(recs, m, recs[a].name)) ||
        exists m :: m in done && Moves(recs, m, recs[a].name) && r[a].parent == recs[m].parent)
  }

  lemma AdoptOne<I>(root: I, recs: map<I, Rec<I>>, r: map<I, Rec<I>>, a: I, m: I)
    requires Graph(root, recs) && Graph(root, r) && SameSettings(recs, r)
    requires MemberBelow(root, recs, a, m) && MemberBelow(root, r, a, m) && r[m].parent == recs[m].parent
    ensures Moves(recs, m, recs[a].name) ==>
      Adopt(root, r, a, m)[m].parent == Some(a) && Adopt(root, r, a, m)[a].parent == recs[m].parent
    ensures !Moves(recs, m, recs[a].name) ==> Adopt(root, r, a, m) == r
    ensures forall x {:trigger Adopt(root, r, a, m)[x]} :: x in r && x != a && x != m ==>
      Adopt(root, r, a, m)[x].parent == r[x].parent &&
      Adopt(root, r, a, m)[x].effective == r[x].effective && Adopt(root, r, a, m)[x].flags == r[x].flags
  {
    var p := recs[m].parent.value;
    assert r[p].name == recs[p].name && r[a].name == recs[a].name;
    if Detached(r, m, r[a].name) {
      DetachedIsAbove(root, r, a, m);
      SetParentGraph(root, r, a, p);
      SetParentSettings(root, r, a, p);
      MemberStaysBelow(root, r, SetParent(root, r, a, p), a, m);
    }
  }

  lemma RehomedNext<I>(root: I, recs: map<I, Rec<I>>, r: map<I, Rec<I>>, r1: map<I, Rec<I>>, a: I, done: seq<I>, m: I)
    requires Rehomed(root, recs, r, a, done) && AdoptInv(root, recs, r1) && m in recs && m != a && m !in done
    requires Moves(recs, m, recs[a].name) ==> r1[m].parent == Some(a) && r1[a].parent == recs[m].parent
    requires !Moves(recs, m, recs[a].name) ==> r1 == r
    requires forall x {:trigger r1[x]} :: x in recs && x != a && x != m ==> r1[x].parent == r[x].parent
    ensures Rehomed(root, recs, r1, a, done + [m])
  {
    if Moves(recs, m, recs[a].name) {
      assert m in done + [m];
    } else if w0 :| w0 in done && Moves(recs, w0, recs[a].name) {
      var w :| w in done && Moves(recs, w, recs[a].name) && r[a].parent == recs[w].parent;
      assert w in done + [m];
    }
  }

  lemma RehomedStep<I>(root: I, recs: map<I, Rec<I>>, r: map<I, Rec<I>>, a: I, done: seq<I>, m: I)
    requires Graph(root, recs) && Rehomed(root, recs, r, a, done) && MemberBelow(root, recs, a, m) && m !in done
    ensures Rehomed(root, recs, Adopt(root, r, a, m), a, done + [m])
  {
    AdoptInvStep(root, recs, r, a, m);
    assert r[m].parent == recs[m].parent;
    AdoptOne(root, recs, r, a, m);
    RehomedNext(root, recs, r, Adopt(root, r, a, m), a, done, m);
  }

  lemma TakeNext<I>(ms: seq<I>, k: nat)
    requires k < |ms| && Distinct(ms)
    ensures ms[..k + 1] == ms[..k] + [ms[k]] && ms[k] !in ms[..k]
  {
  }

  /** Adoption changes the parent of a member exactly if it passes the test, and of nothing else. */
  lemma AdoptAllRehomes<I>(root: I, recs: map<I, Rec<I>>, a: I, ms: seq<I>)
    requires Graph(root, recs) && a in recs && MembersBelow(root, recs, a, ms) && Distinct(ms)
    ensures Rehomed(root, recs, AdoptAll(root, recs, a, ms), a, ms)
  {
    var inv := (r: map<I, Rec<I>>, i: nat) => i <= |ms| && Rehomed(root, recs, r, a, ms[..i]);
    forall r: map<I, Rec<I>>, i: nat | i < |ms| && inv(r, i)
      ensures inv(Adopting(root, a)(r, ms[i]), i + 1)
    {
      assert ms[i] in ms;
      TakeNext(ms, i);
      RehomedStep(root, recs, r, a, ms[..i], ms[i]);
    }
    assert ms[..0] == [];
    IterateKeeps(Adopting(root, a), recs, ms, |ms|, inv);
    assert ms[..|ms|] == ms;
  }

  // ----- adoption in a tree

  /** In a tree, a logger below `name` moves exactly if its nearest logger lies above `name`. */
  lemma MovesIffNearestAbove<I>(reg: Registry<I>, name: string, x: I)
    requires Tree(reg) && x in reg.recs && x != reg.root && !IsKnown(reg.dict, name)
    requires IsAncestor(name, reg.recs[x].name) && !ConfusedWithRoot(reg.dict, name)
    ensures Moves(reg.recs, x, name) <==> Nearest(reg.dict, reg.recs[x].name) < |name|
  {
    var n := reg.recs[x].name;
    var s := Nearest(reg.dict, n);
    assert n in reg.dict && Dot(n, |name|);
    assert name in reg.dict;
    var p := reg.recs[x].parent.value;
    assert p == NearestLogger(reg.root, reg.dict, n);
    if s > 0 {
      assert reg.recs[p].name == n[..s];
      if |name| <= s {
        PrefixOfPrefix(n, |name|, s);
      }
    }
  }

  /** A member of the promoted placeholder moves exactly if its nearest logger lies above it, and
      every logger with that property is a member. */
  lemma AdoptedInTree<I>(reg: Registry<I>, name: string, a: I)
    requires Tree(reg) && a !in reg.recs && !IsKnown(reg.dict, name) && !ConfusedWithRoot(reg.dict, name)
    ensures forall x {:trigger Adopted(reg, name, a)[x].parent} :: x in reg.recs && x != reg.root ==>
      Adopted(reg, name, a)[x].parent ==
        if IsAncestor(name, reg.recs[x].name) && Nearest(reg.dict, reg.recs[x].name) < |name| then Some(a)
        else reg.recs[x].parent
    ensures Adopted(reg, name, a)[a].parent in {None, Some(NearestLogger(reg.root, reg.dict, name))}
  {
    var r0, r1 := Enter(reg, name, a).recs, Adopted(reg, name, a);
    EnterGraph(reg, name, a);
    if name in reg.dict {
      var ms := reg.dict[name].members;
      AdoptAllRehomes(reg.root, r0, a, ms);
      forall x | x in reg.recs && x != reg.root
        ensures r1[x].parent ==
          if IsAncestor(name, reg.recs[x].name) && Nearest(reg.dict, reg.recs[x].name) < |name| then Some(a)
          else reg.recs[x].parent
      {
        MoveInTree(reg, name, a, x);
      }
      if r1[a].parent != r0[a].parent {
        var m :| m in ms && Moves(r0, m, name) && r1[a].parent == r0[m].parent;
        MoveInTree(reg, name, a, m);
        NearestOfPrefix(reg.dict, name, reg.recs[m].name);
        assert reg.recs[m].parent == Some(NearestLogger(reg.root, reg.dict, reg.recs[m].name));
      }
    } else {
      forall x | x in reg.recs && x != reg.root
        ensures !IsAncestor(name, reg.recs[x].name)
      {
        assert reg.recs[x].name in reg.dict;
        assert !Dot(reg.recs[x].name, |name|) || reg.recs[x].name[..|name|] != name;
      }
    }
  }

  lemma MoveInTree<I>(reg: Registry<I>, name: string, a: I, x: I)
    requires Tree(reg) && a !in reg.recs && !IsKnown(reg.dict, name) && !ConfusedWithRoot(reg.dict, name)
    requires x in reg.recs && x != reg.root && name in reg.dict
    ensures x in reg.dict[name].members && Moves(Enter(reg, name, a).recs, x, name) <==>
      IsAncestor(name, reg.recs[x].name) && Nearest(reg.dict, reg.recs[x].name) < |name|
  {
    var r0 := Enter(reg, name, a).recs;
    assert r0[x] == reg.recs[x];
    assert reg.recs[x].parent.Some? && reg.recs[x].parent.value in reg.recs;
    assert r0[reg.recs[x].parent.value] == reg.recs[reg.recs[x].parent.value];
    assert Moves(r0, x, name) <==> Moves(reg.recs, x, name);
    if IsAncestor(name, reg.recs[x].name) {
      MovesIffNearestAbove(reg, name, x);
    }
  }

  // ----- getLogger in a tree

  /** The parents after `getLogger`, in terms of the tree before it. */
  lemma ParentsAfter<I>(reg: Registry<I>, name: string, a: I)
    requires Tree(reg) && a !in reg.recs && !IsKnown(reg.dict, name) && Plain(name)
    requires !ConfusedWithRoot(reg.dict, name)
    ensures var r := GetLogger(reg, name, a).recs;
      && r[a].parent == Some(NearestLogger(reg.root, reg.dict, name))
      && forall x {:trigger r[x].parent} :: x in reg.recs && x != reg.root ==>
           r[x].parent ==
             if IsAncestor(name, reg.recs[x].name) && Nearest(reg.dict, reg.recs[x].name) < |name| then Some(a)
             else reg.recs[x].parent
  {
    ScannedParentAbove(reg, name, a);
    NearestEntered(reg, name, a);
    AdoptedInTree(reg, name, a);
    var r1, r2 := Adopted(reg, name, a), GetLogger(reg, name, a).recs;
    forall x | x in reg.recs && x != reg.root
      ensures r2[x].parent == r1[x].parent
    {
    }
  }

  lemma NearestParentsAfter<I>(reg: Registry<I>, name: string, a: I)
    requires Tree(reg) && a !in reg.recs && !IsKnown(reg.dict, name) && Plain(name)
    requires !ConfusedWithRoot(reg.dict, name)
    ensures NearestParents(reg.root, GetLogger(reg, name, a).recs, Scan(reg, name, a).0)
  {
    var r, d := GetLogger(reg, name, a).recs, Scan(reg, name, a).0;
    ParentsAfter(reg, name, a);
    LinkedSettings(reg, name, a);
    KnownAfter(reg, name, a);
    forall x | x in r && x != reg.root
      ensures r[x].parent == Some(NearestLogger(reg.root, d, r[x].name))
    {
      assert r[x].name == Enter(reg, name, a).recs[x].name;
      NearestAfter(reg.dict, d, name, r[x].name);
      var s := Nearest(reg.dict, r[x].name);
      if s > 0 {
        assert IsKnown(reg.dict, r[x].name[..s]);
      }
      if x != a {
        assert reg.recs[x].parent == Some(NearestLogger(reg.root, reg.dict, reg.recs[x].name));
      }
    }
  }

  /** `getLogger` keeps the tree exactly when it does not promote a placeholder that is a prefix of
      "root": then the members whose parent is the root pass for descendants and stay there. */
  lemma GetLoggerTree<I>(reg: Registry<I>, name: string, a: I)
    requires Tree(reg) && a !in reg.recs && Plain(name)
    ensures Tree(GetLogger(reg, name, a)) <==> !ConfusedWithRoot(reg.dict, name)
  {
    GetLoggerSound(reg, name, a);
    if IsKnown(reg.dict, name) {
    } else if !ConfusedWithRoot(reg.dict, name) {
      ClosedAfter(reg, name, a);
      CompleteAfter(reg, name, a);
      NearestParentsAfter(reg, name, a);
    } else {
      ConfusionShows(reg, name, a);
    }
  }

  /** Some member of any placeholder has its nearest logger above it. */
  lemma {:induction false} TopMember<I>(reg: Registry<I>, name: string, x: I) returns (y: I)
    requires Tree(reg) && name in reg.dict && reg.dict[name].Placeholder?
    requires x in reg.recs && x != reg.root && IsAncestor(name, reg.recs[x].name)
    ensures y in reg.recs && y != reg.root && IsAncestor(name, reg.recs[y].name)
    ensures Nearest(reg.dict, reg.recs[y].name) < |name|
    decreases |reg.recs[x].name|
  {
    var n := reg.recs[x].name;
    var s := Nearest(reg.dict, n);
    if s <= |name| {
      assert s != |name|;
      y := x;
    } else {
      var p := reg.dict[n[..s]].logger;
      AncestorsNest(name, n[..s], n);
      y := TopMember(reg, name, p);
    }
  }

  lemma ConfusionShows<I>(reg: Registry<I>, name: string, a: I)
    requires Tree(reg) && a !in reg.recs && Plain(name) && ConfusedWithRoot(reg.dict, name)
    ensures !NearestParents(reg.root, GetLogger(reg, name, a).recs, GetLogger(reg, name, a).dict)
  {
    var m := reg.dict[name].members[0];
    assert m in reg.dict[name].members;
    var y := TopMember(reg, name, m);
    var n := reg.recs[y].name;
    NearestOfPrefix(reg.dict, name, n);
    NoDotInRoot(reg.dict, name);
    assert reg.recs[y].parent == Some(reg.root);
    EnterGraph(reg, name, a);
    var r0, r := Enter(reg, name, a).recs, GetLogger(reg, name, a).recs;
    AdoptAllRehomes(reg.root, r0, a, reg.dict[name].members);
    assert !Moves(r0, y, name);
    assert Adopted(reg, name, a)[y].parent == Some(reg.root);
    ScannedParentAbove(reg, name, a);
    assert r[y].parent == Some(reg.root);
    LinkedSettings(reg, name, a);
    assert r[y].name == r0[y].name;
    KnownAfter(reg, name, a);
    NearestAfter(reg.dict, Scan(reg, name, a).0, name, n);
    assert NearestLogger(reg.root, Scan(reg, name, a).0, n) == a;
  }

  lemma NoDotInRoot<I>(dict: Dict<I>, name: string)
    requires Take("root", |name|) == name
    ensures Nearest(dict, name) == 0
  {
    assert forall k :: 0 <= k < |name| ==> name[k] == "root"[k];
  }
}
