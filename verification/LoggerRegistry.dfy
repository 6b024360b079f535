/** The manager's registry as a value: a dictionary from names to loggers and placeholders, and what
    `getLogger` does to it.  `Sound` holds after any calls at all; `Tree`, that every parent is the
    nearest registered ancestor, holds as long as no placeholder named by a prefix of "root" is
    promoted. */
module LoggerRegistry {
  import opened Wrappers
  import opened Names
  import opened Folds
  import opened LoggerGraph

  /** A dictionary entry: a logger, or a placeholder with the loggers appended to it. */
  datatype Entry<+I> = Known(logger: I) | Placeholder(members: seq<I>)

  type Dict<I> = map<string, Entry<I>>

  datatype Registry<I> = Registry(root: I, recs: map<I, Rec<I>>, dict: map<string, Entry<I>>)

  /** A logger as the class creates it. */
  function NewRec<I>(name: string): Rec<I> {
    Rec(name, NOTSET, NOTSET, NO_FLAGS, None, [], true, false, [])
  }

  /** A placeholder keeps each appended logger once. */
  function Append<I(==)>(ms: seq<I>, a: I): (r: seq<I>)
    ensures a in r && (forall m :: m in ms ==> m in r) && (forall m :: m in r ==> m in ms + [a])
  {
    if a in ms then ms else ms + [a]
  }

  ghost predicate Distinct<I>(s: seq<I>) {
    forall i, j :: 0 <= i < j < |s| ==> s[i] != s[j]
  }

  /** The members of the placeholder at `p` once `a` has been added to it. */
  ghost function MembersWith<I>(dict: Dict<I>, p: string, a: I): seq<I> {
    if p in dict && dict[p].Placeholder? then Append(dict[p].members, a) else [a]
  }

  ghost predicate IsKnown<I>(dict: Dict<I>, p: string) {
    p in dict && dict[p].Known?
  }

  // ----- the upward scan of a new name

  /** The scan of `_fixupParents` from dot `i` of `name`: the dictionary with `a` added to every
      placeholder up to the first logger found, and that logger. */
  ghost function ScanUp<I>(dict: Dict<I>, a: I, name: string, i: int): (r: (Dict<I>, Option<I>))
    requires i < |name| && (i == -1 || (0 <= i && name[i] == '.'))
    ensures forall p {:trigger r.0[p]} {:trigger p in r.0} :: p in r.0 ==>
      (p in dict && r.0[p] == dict[p]) ||
      (IsAncestor(p, name) && |p| <= i && !IsKnown(dict, p) && r.0[p] == Placeholder(MembersWith(dict, p, a)))
    ensures forall p :: p in dict ==> p in r.0
    ensures r.1.Some? ==> exists j :: Dot(name, j) && name[..j] in dict && dict[name[..j]] == Known(r.1.value)
    decreases i
  {
    if i <= 0 then (dict, None)
    else
      var p := name[..i];
      AncestorAt(name, i);
      if IsKnown(dict, p) then (dict, Some(dict[p].logger))
      else ScanUp(dict[p := Placeholder(MembersWith(dict, p, a))], a, name, RFindDot(name, i - 1))
  }

  /** The largest dot `j <= i` of `name` whose prefix names a logger, or 0. */
  ghost function NearestDot<I>(dict: Dict<I>, name: string, i: int): (j: int)
    requires i < |name| || i == 0
    ensures 0 <= j && (j == 0 || (j <= i && Dot(name, j) && IsKnown(dict, name[..j])))
    ensures forall k :: j < k <= i && Dot(name, k) ==> !IsKnown(dict, name[..k])
  {
    if i <= 0 then 0
    else if Dot(name, i) && IsKnown(dict, name[..i]) then i
    else NearestDot(dict, name, i - 1)
  }

  ghost function Nearest<I>(dict: Dict<I>, name: string): (j: int)
    ensures 0 <= j && (j == 0 || (Dot(name, j) && IsKnown(dict, name[..j])))
    ensures forall k :: j < k && Dot(name, k) ==> !IsKnown(dict, name[..k])
  {
    if name == "" then 0 else NearestDot(dict, name, |name| - 1)
  }

  /** The nearest registered ancestor logger of a name, or the root. */
  ghost function NearestLogger<I>(root: I, dict: Dict<I>, name: string): I {
    var j := Nearest(dict, name);
    if j == 0 then root else dict[name[..j]].logger
  }

  lemma NearestIs<I>(dict: Dict<I>, name: string, i: int, s: int)
    requires i < |name| || i == 0
    requires s == 0 || (0 < s <= i && Dot(name, s) && IsKnown(dict, name[..s]))
    requires forall k :: s < k <= i && Dot(name, k) ==> !IsKnown(dict, name[..k])
    ensures NearestDot(dict, name, i) == s
  {
  }

  /** One placeholder on the way up does not change which logger is nearest. */
  lemma NearestSkips<I>(dict: Dict<I>, dict1: Dict<I>, name: string, i: int, next: int)
    requires 0 <= next < i < |name|
    requires !IsKnown(dict, name[..i])
    requires forall k :: next < k < i ==> !Dot(name, k)
    requires forall p :: |p| < i ==> (IsKnown(dict, p) <==> IsKnown(dict1, p))
    ensures NearestDot(dict, name, i) == NearestDot(dict1, name, next)
  {
    NearestIs(dict, name, i, NearestDot(dict1, name, next));
  }

  /** What a completed scan has done: `par` is the nearest logger and `a` is in every placeholder below it. */
  ghost predicate Scanned<I>(dict: Dict<I>, a: I, name: string, i: int, d: Dict<I>, par: Option<I>)
    requires 0 <= i && (i < |name| || i == 0)
  {
    var s := NearestDot(dict, name, i);
    && par == (if s == 0 then None else Some(dict[name[..s]].logger))
    && forall j :: s < j <= i && Dot(name, j) ==>
         name[..j] in d && d[name[..j]] == Placeholder(MembersWith(dict, name[..j], a))
  }

  lemma ScannedStep<I>(dict: Dict<I>, a: I, name: string, i: int, next: int, d: Dict<I>, par: Option<I>)
    requires 0 <= next < i < |name| && Dot(name, i) && !IsKnown(dict, name[..i])
    requires forall k :: next < k < i ==> !Dot(name, k)
    requires Scanned(dict[name[..i] := Placeholder(MembersWith(dict, name[..i], a))], a, name, next, d, par)
    requires name[..i] in d && d[name[..i]] == Placeholder(MembersWith(dict, name[..i], a))
    ensures Scanned(dict, a, name, i, d, par)
  {
    var dict1 := dict[name[..i] := Placeholder(MembersWith(dict, name[..i], a))];
    NearestSkips(dict, dict1, name, i, next);
    forall j | NearestDot(dict, name, i) < j <= i && Dot(name, j)
      ensures name[..j] in d && d[name[..j]] == Placeholder(MembersWith(dict, name[..j], a))
    {
      if j < i {
        assert |name[..j]| != |name[..i]|;
        assert j <= next;
      }
    }
  }

  /** On a plain name the scan finds the nearest logger and touches exactly the prefixes below it. */
  lemma {:induction false} ScanUpEffect<I>(dict: Dict<I>, a: I, name: string, i: int)
    requires i < |name| && (i == -1 || (0 <= i && name[i] == '.')) && Plain(name)
    ensures Scanned(dict, a, name, if i < 0 then 0 else i, ScanUp(dict, a, name, i).0, ScanUp(dict, a, name, i).1)
    decreases i
  {
    if i > 0 && !IsKnown(dict, name[..i]) {
      var next := RFindDot(name, i - 1);
      var dict1 := dict[name[..i] := Placeholder(MembersWith(dict, name[..i], a))];
      ScanUpEffect(dict1, a, name, next);
      var (d, par) := ScanUp(dict1, a, name, next);
      assert i > 1 ==> name[i - 1] != '.';
      assert |name[..i]| > next;
      ScannedStep(dict, a, name, i, if next < 0 then 0 else next, d, par);
    } else if i > 0 {
      NearestIs(dict, name, i, i);
    }
  }

  // ----- the state and the operations

  /** Python's `s[:n]`. */
  function Take(s: string, n: nat): string {
    if n <= |s| then s[..n] else s
  }

  /** Entries are loggers under their own names or placeholders holding descendants, and every
      logger but the root is registered and has a parent. */
  ghost predicate Registered<I>(root: I, recs: map<I, Rec<I>>, dict: Dict<I>)
  {
    && root in recs && recs[root].name == "root"
    && (forall p {:trigger dict[p]} :: p in dict && dict[p].Known? ==>
          dict[p].logger in recs && dict[p].logger != root && recs[dict[p].logger].name == p)
    && (forall x {:trigger recs[x].name} :: x in recs && x != root ==>
          recs[x].name in dict && dict[recs[x].name] == Known(x))
    && (forall p {:trigger dict[p]} :: p in dict && dict[p].Placeholder? ==>
          dict[p].members != [] && Distinct(dict[p].members))
    && (forall p, m {:trigger m in dict[p].members} :: p in dict && dict[p].Placeholder? && m in dict[p].members ==>
          m in recs && m != root && IsAncestor(p, recs[m].name))
  }

  ghost predicate HasParents<I>(root: I, recs: map<I, Rec<I>>)
  {
    forall x {:trigger recs[x].parent} :: x in recs && x != root ==> recs[x].parent.Some?
  }

  /** What any sequence of calls keeps. */
  ghost predicate Sound<I>(reg: Registry<I>) {
    && Graph(reg.root, reg.recs) && Listed(reg.recs)
    && Registered(reg.root, reg.recs, reg.dict) && HasParents(reg.root, reg.recs)
  }

  /** A new logger, entered in the dictionary but not yet linked. */
  ghost function Enter<I>(reg: Registry<I>, name: string, a: I): Registry<I> {
    reg.(recs := reg.recs[a := NewRec(name)], dict := reg.dict[name := Known(a)])
  }

  /** `m` is a linked logger below `a`. */
  ghost predicate MemberBelow<I>(root: I, recs: map<I, Rec<I>>, a: I, m: I) {
    && a in recs && a != root && m in recs && m != a && m != root
    && recs[m].parent.Some? && IsAncestor(recs[a].name, recs[m].name)
  }

  ghost predicate MembersBelow<I>(root: I, recs: map<I, Rec<I>>, a: I, ms: seq<I>) {
    forall m :: m in ms ==> MemberBelow(root, recs, a, m)
  }

  /** The test of `_fixupChildren`: the member's parent is not named with the prefix `name`. */
  ghost predicate Detached<I>(recs: map<I, Rec<I>>, m: I, name: string)
    requires m in recs && recs[m].parent.Some? && recs[m].parent.value in recs
  {
    Take(recs[recs[m].parent.value].name, |name|) != name
  }

  lemma PrefixOfPrefix(n: string, i: nat, j: nat)
    requires i <= j <= |n|
    ensures n[..j][..i] == n[..i]
  {
  }

  lemma DetachedIsAbove<I>(root: I, recs: map<I, Rec<I>>, a: I, m: I)
    requires Graph(root, recs) && a in recs && m in recs && a != root && m != root && recs[m].parent.Some?
    requires IsAncestor(recs[a].name, recs[m].name) && Detached(recs, m, recs[a].name)
    ensures Above(root, recs, recs[m].parent.value, a)
  {
    var p := recs[m].parent.value;
    if p != root {
      var q, n := recs[a].name, recs[m].name;
      assert IsAncestor(recs[p].name, n);
      if |q| <= |recs[p].name| {
        PrefixOfPrefix(n, |q|, |recs[p].name|);
      }
      AncestorsNest(recs[p].name, q, n);
    }
  }

  /** The member `x` will be adopted by a logger called `name`. */
  ghost predicate Moves<I>(recs: map<I, Rec<I>>, x: I, name: string) {
    x in recs && recs[x].parent.Some? && recs[x].parent.value in recs && Detached(recs, x, name)
  }

  /** One turn of `_fixupChildren`. */
  ghost function Adopt<I>(root: I, recs: map<I, Rec<I>>, a: I, m: I): map<I, Rec<I>> {
    if a in recs && m != a && Moves(recs, m, recs[a].name) then
      SetParent(root, SetParent(root, recs, a, recs[m].parent.value), m, a)
    else recs
  }

  lemma MemberStaysBelow<I>(root: I, r0: map<I, Rec<I>>, r1: map<I, Rec<I>>, a: I, m: I)
    requires MemberBelow(root, r0, a, m) && SameSettings(r0, r1)
    ensures MemberBelow(root, r1, a, m)
  {
    assert r1[a].name == r0[a].name && r1[m].name == r0[m].name && r1[m].parent.Some?;
  }

  /** One turn, spelled out: what its two assignments need, and what they amount to. */
  lemma AdoptTurn<I>(root: I, recs: map<I, Rec<I>>, a: I, m: I)
    requires Graph(root, recs) && MemberBelow(root, recs, a, m)
    ensures recs[m].parent.value in recs
    ensures !Detached(recs, m, recs[a].name) ==> Adopt(root, recs, a, m) == recs
    ensures Detached(recs, m, recs[a].name) ==>
      var p := recs[m].parent.value;
      && Above(root, recs, p, a)
      && var r1 := SetParent(root, recs, a, p);
         Graph(root, r1) && Above(root, r1, a, m) && Adopt(root, recs, a, m) == SetParent(root, r1, m, a)
  {
    if Detached(recs, m, recs[a].name) {
      DetachedIsAbove(root, recs, a, m);
      var p := recs[m].parent.value;
      SetParentGraph(root, recs, a, p);
      SetParentSettings(root, recs, a, p);
      MemberStaysBelow(root, recs, SetParent(root, recs, a, p), a, m);
    }
  }

  lemma AdoptSettings<I>(root: I, recs: map<I, Rec<I>>, a: I, m: I)
    requires Graph(root, recs) && MemberBelow(root, recs, a, m)
    ensures Graph(root, Adopt(root, recs, a, m)) && SameSettings(recs, Adopt(root, recs, a, m))
    ensures Listed(recs) ==> Listed(Adopt(root, recs, a, m))
  {
    AdoptTurn(root, recs, a, m);
    if Detached(recs, m, recs[a].name) {
      var r1 := SetParent(root, recs, a, recs[m].parent.value);
      TwoSetParents(root, recs, r1, a, recs[m].parent.value, m);
    }
  }

  lemma TwoSetParents<I>(root: I, recs: map<I, Rec<I>>, r1: map<I, Rec<I>>, a: I, p: I, m: I)
    requires a in recs && p in recs && m in recs && a != p && m != a && r1 == SetParent(root, recs, a, p)
    requires Graph(root, r1) && Above(root, r1, a, m)
    ensures Graph(root, SetParent(root, r1, m, a)) && SameSettings(recs, SetParent(root, r1, m, a))
    ensures Listed(recs) ==> Listed(SetParent(root, r1, m, a))
  {
    SetParentGraph(root, r1, m, a);
    SetParentSettings(root, recs, a, p);
    SetParentSettings(root, r1, m, a);
    SettingsTransitive(recs, r1, SetParent(root, r1, m, a));
    if Listed(recs) {
      SetParentListed(root, recs, a, p);
      SetParentListed(root, r1, m, a);
    }
  }

  ghost function Adopting<I>(root: I, a: I): (map<I, Rec<I>>, I) -> map<I, Rec<I>> {
    (r, m) => Adopt(root, r, a, m)
  }

  /** `_fixupChildren` over all members of a placeholder. */
  ghost function AdoptAll<I>(root: I, recs: map<I, Rec<I>>, a: I, ms: seq<I>): map<I, Rec<I>> {
    Iterate(Adopting(root, a), recs, ms, |ms|)
  }

  ghost predicate AdoptInv<I>(root: I, recs: map<I, Rec<I>>, r: map<I, Rec<I>>) {
    Graph(root, r) && SameSettings(recs, r) && (Listed(recs) ==> Listed(r))
  }

  lemma AdoptInvStep<I>(root: I, recs: map<I, Rec<I>>, r: map<I, Rec<I>>, a: I, m: I)
    requires AdoptInv(root, recs, r) && MemberBelow(root, recs, a, m)
    ensures MemberBelow(root, r, a, m) && AdoptInv(root, recs, Adopt(root, r, a, m))
  {
    MemberStaysBelow(root, recs, r, a, m);
    AdoptSettings(root, r, a, m);
    SettingsTransitive(recs, r, Adopt(root, r, a, m));
  }

  lemma AdoptAllInv<I>(root: I, recs: map<I, Rec<I>>, a: I, ms: seq<I>)
    requires Graph(root, recs) && MembersBelow(root, recs, a, ms)
    ensures AdoptInv(root, recs, AdoptAll(root, recs, a, ms))
  {
    var inv := (r: map<I, Rec<I>>, i: nat) => AdoptInv(root, recs, r);
    forall r: map<I, Rec<I>>, i: nat | i < |ms| && inv(r, i)
      ensures inv(Adopting(root, a)(r, ms[i]), i + 1)
    {
      assert ms[i] in ms;
      AdoptInvStep(root, recs, r, a, ms[i]);
    }
    IterateKeeps(Adopting(root, a), recs, ms, |ms|, inv);
  }

  /** The state before turn `k` of `_fixupChildren`. */
  lemma BeforeTurn<I>(root: I, recs: map<I, Rec<I>>, a: I, ms: seq<I>, k: nat)
    requires Graph(root, recs) && MembersBelow(root, recs, a, ms) && k < |ms|
    ensures var r := Iterate(Adopting(root, a), recs, ms, k);
      && Graph(root, r) && MemberBelow(root, r, a, ms[k])
      && Iterate(Adopting(root, a), recs, ms, k + 1) == Adopt(root, r, a, ms[k])
  {
    var inv := (r: map<I, Rec<I>>, i: nat) => AdoptInv(root, recs, r);
    forall r: map<I, Rec<I>>, i: nat | i < |ms| && inv(r, i)
      ensures inv(Adopting(root, a)(r, ms[i]), i + 1)
    {
      assert ms[i] in ms;
      AdoptInvStep(root, recs, r, a, ms[i]);
    }
    IterateKeeps(Adopting(root, a), recs, ms, k, inv);
    assert ms[k] in ms;
    MemberStaysBelow(root, recs, Iterate(Adopting(root, a), recs, ms, k), a, ms[k]);
  }

  /** Turn `k` of `_fixupChildren`, spelled out as its two assignments. */
  lemma TurnSpelledOut<I>(root: I, recs: map<I, Rec<I>>, a: I, ms: seq<I>, k: nat, r: map<I, Rec<I>>,
          r2: map<I, Rec<I>>)
    requires Graph(root, recs) && MembersBelow(root, recs, a, ms) && k < |ms|
    requires r == Iterate(Adopting(root, a), recs, ms, k) && r2 == Iterate(Adopting(root, a), recs, ms, k + 1)
    ensures var m := ms[k];
      && Graph(root, r) && a in r && m in r && r[m].parent.Some? && r[m].parent.value in r
      && if Take(r[r[m].parent.value].name, |r[a].name|) != r[a].name
         then var p := r[m].parent.value;
           && Above(root, r, p, a)
           && var r1 := SetParent(root, r, a, p);
              Graph(root, r1) && Above(root, r1, a, m) && r2 == SetParent(root, r1, m, a)
         else r2 == r
  {
    BeforeTurn(root, recs, a, ms, k);
    AdoptTurn(root, r, a, ms[k]);
  }

  lemma EnterGraph<I>(reg: Registry<I>, name: string, a: I)
    requires Sound(reg) && a !in reg.recs && !IsKnown(reg.dict, name)
    ensures Graph(reg.root, Enter(reg, name, a).recs)
    ensures Listed(Enter(reg, name, a).recs)
    ensures forall x :: x in reg.recs ==> a !in reg.recs[x].children && reg.recs[x].parent != Some(a)
    ensures name in reg.dict ==> MembersBelow(reg.root, Enter(reg, name, a).recs, a, reg.dict[name].members)
  {
    var r := Enter(reg, name, a).recs;
    forall x, c | x in r && c in r[x].children
      ensures c in r && Above(reg.root, r, x, c)
    {
      assert c in reg.recs[x].children;
    }
    if name in reg.dict {
      forall m | m in reg.dict[name].members
        ensures MemberBelow(reg.root, r, a, m)
      {
        assert m in reg.recs && reg.recs[m].parent.Some?;
      }
    }
  }

  /** The records once a promoted placeholder's members have been adopted. */
  ghost function Adopted<I>(reg: Registry<I>, name: string, a: I): (r: map<I, Rec<I>>)
    requires Sound(reg) && a !in reg.recs && !IsKnown(reg.dict, name)
    ensures Graph(reg.root, r) && SameSettings(Enter(reg, name, a).recs, r)
  {
    EnterGraph(reg, name, a);
    var r := Enter(reg, name, a).recs;
    if name in reg.dict then
      AdoptAllInv(reg.root, r, a, reg.dict[name].members);
      AdoptAll(reg.root, r, a, reg.dict[name].members)
    else r
  }

  /** What the upward scan of a newly entered name yields. */
  ghost function Scan<I>(reg: Registry<I>, name: string, a: I): (r: (Dict<I>, Option<I>))
  {
    ScanUp(Enter(reg, name, a).dict, a, name, RFindDot(name, |name|))
  }

  ghost function ScannedParent<I>(reg: Registry<I>, name: string, a: I): I
  {
    var par := Scan(reg, name, a).1;
    if par.None? then reg.root else par.value
  }

  lemma ScannedParentAbove<I>(reg: Registry<I>, name: string, a: I)
    requires Sound(reg) && a !in reg.recs && !IsKnown(reg.dict, name)
    ensures ScannedParent(reg, name, a) in reg.recs
    ensures Above(reg.root, Adopted(reg, name, a), ScannedParent(reg, name, a), a)
  {
    var par := Scan(reg, name, a).1;
    assert a != reg.root;
    var r := Adopted(reg, name, a);
    assert r[a].name == name;
    if par.Some? {
      var d := Enter(reg, name, a).dict;
      var j :| Dot(name, j) && name[..j] in d && d[name[..j]] == Known(par.value);
      AncestorAt(name, j);
      assert |name[..j]| != |name|;
      assert reg.dict[name[..j]] == Known(par.value);
      assert r[par.value].name == name[..j];
    }
  }

  /** `Manager.getLogger(name)`, where `a` is the logger object it creates if it has to. */
  ghost function GetLogger<I>(reg: Registry<I>, name: string, a: I): (r: Registry<I>)
    requires Sound(reg) && a !in reg.recs
    ensures r.root == reg.root && Graph(r.root, r.recs)
  {
    if IsKnown(reg.dict, name) then reg
    else
      ScannedParentAbove(reg, name, a);
      SetParentGraph(reg.root, Adopted(reg, name, a), a, ScannedParent(reg, name, a));
      Registry(
        reg.root,
        SetParent(reg.root, Adopted(reg, name, a), a, ScannedParent(reg, name, a)),
        Scan(reg, name, a).0)
  }

  /** The logger `getLogger(name)` returns. */
  ghost function Found<I>(reg: Registry<I>, name: string, a: I): I {
    if IsKnown(reg.dict, name) then reg.dict[name].logger else a
  }
}
