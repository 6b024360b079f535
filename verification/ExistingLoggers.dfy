/** The names of the loggers that exist before a reconfiguration: sorted, scanned for the
    descendants of every configured name, and struck off as they are configured. */
module ExistingLoggers {
  import opened Names
  import opened LoggerRegistry

  /** In Python's string order, each name once. */
  predicate Sorted(s: seq<string>) {
    forall i, j :: 0 <= i < j < |s| ==> Less(s[i], s[j])
  }

  /** `x[:pflen] == prefixed`, where `prefixed` is the name and a dot. */
  predicate Prefixed(x: string, name: string) {
    Take(x, |name + "."|) == name + "."
  }

  lemma PrefixedIsBelow(x: string, name: string)
    ensures Prefixed(x, name) ==> Less(name, x)
    ensures name != "" ==> (Prefixed(x, name) <==> IsAncestor(name, x))
  {
    var n := |name|;
    if Prefixed(x, name) {
      assert x[..n + 1] == name + ".";
      assert x[..n] == x[..n + 1][..n] == name && x[n] == x[..n + 1][n];
      PrefixIsLess(name, x);
    }
    if IsAncestor(name, x) {
      assert x[..n + 1] == x[..n] + [x[n]];
    }
  }

  // ----- sorting

  function Insert(s: seq<string>, n: string): seq<string> {
    if s == [] || Less(n, s[0]) then [n] + s else [s[0]] + Insert(s[1..], n)
  }

  lemma {:induction false} InsertKeepsSorted(s: seq<string>, n: string)
    requires Sorted(s) && n !in s
    ensures Sorted(Insert(s, n)) && forall x :: x in Insert(s, n) <==> x in s || x == n
  {
    if s != [] {
      LessTotal(n, s[0]);
      if Less(n, s[0]) {
        forall j | 0 <= j < |s|
          ensures Less(n, s[j])
        {
          if j > 0 {
            LessTransitive(n, s[0], s[j]);
          }
        }
      } else {
        InsertKeepsSorted(s[1..], n);
        var rest := Insert(s[1..], n);
        forall j | 0 <= j < |rest|
          ensures Less(s[0], rest[j])
        {
          assert rest[j] in rest;
          if rest[j] != n {
            var k :| 0 <= k < |s[1..]| && s[1..][k] == rest[j];
            assert Less(s[0], s[k + 1]);
          }
        }
      }
    }
  }

  /** `existing.sort()` over the dictionary's keys, in whatever order they come. */
  method SortNames(names: set<string>) returns (s: seq<string>)
    ensures Sorted(s) && forall n :: n in s <==> n in names
  {
    s := [];
    var rest := names;
    while rest != {}
      invariant Sorted(s) && rest <= names && forall n :: n in s <==> n in names && n !in rest
      decreases |rest|
    {
      var n :| n in rest;
      InsertKeepsSorted(s, n);
      s := Insert(s, n);
      rest := rest - {n};
    }
  }

  // ----- one configured name

  /** `list.remove`, on a list that may not hold the element. */
  function RemoveFirst<T(==)>(s: seq<T>, x: T): seq<T> {
    if s == [] then [] else if s[0] == x then s[1..] else [s[0]] + RemoveFirst(s[1..], x)
  }

  lemma {:induction false} RemoveFromSorted(s: seq<string>, name: string)
    requires Sorted(s)
    ensures Sorted(RemoveFirst(s, name)) && forall x :: x in RemoveFirst(s, name) <==> x in s && x != name
  {
    if s != [] {
      forall x | x in s[1..]
        ensures Less(s[0], x) && x != s[0]
      {
        var k :| 0 <= k < |s[1..]| && s[1..][k] == x;
        assert Less(s[0], s[k + 1]);
        LessTotal(s[0], x);
      }
      RemoveFromSorted(s[1..], name);
    }
  }

  /** The names of `s` that are wanted, in order. */
  function Filter(s: seq<string>, wanted: string -> bool): seq<string> {
    if s == [] then [] else Filter(s[..|s| - 1], wanted) + (if wanted(s[|s| - 1]) then [s[|s| - 1]] else [])
  }

  lemma {:induction false} FilterMembers(s: seq<string>, wanted: string -> bool)
    ensures forall x :: x in Filter(s, wanted) <==> x in s && wanted(x)
    ensures (forall x :: x in s ==> !wanted(x)) ==> Filter(s, wanted) == []
  {
    if s != [] {
      FilterMembers(s[..|s| - 1], wanted);
      assert s == s[..|s| - 1] + [s[|s| - 1]];
    }
  }

  function BelowIn(s: seq<string>, name: string): seq<string> {
    Filter(s, x => Prefixed(x, name))
  }

  method IndexOf(s: seq<string>, name: string) returns (i: nat)
    requires name in s
    ensures i < |s| && s[i] == name
  {
    i := 0;
    while s[i] != name
      invariant i < |s| && name in s[i..]
      decreases |s| - i
    {
      i := i + 1;
    }
  }

  /** The scan of the names sorted after `name` finds every name below it. */
  method MarkChildren(existing: seq<string>, name: string, childLoggers: seq<string>) returns (marked: seq<string>)
    requires Sorted(existing) && name in existing
    ensures marked == childLoggers + BelowIn(existing, name)
  {
    var i := IndexOf(existing, name);
    NoneBefore(existing, i);
    marked := MarkFrom(existing, i + 1, x => Prefixed(x, name), childLoggers);
  }

  method MarkFrom(existing: seq<string>, start: nat, wanted: string -> bool, childLoggers: seq<string>)
    returns (marked: seq<string>)
    requires start <= |existing| && Filter(existing[..start], wanted) == []
    ensures marked == childLoggers + Filter(existing, wanted)
  {
    marked := childLoggers;
    var i := start;
    while i < |existing|
      invariant i <= |existing| && marked == childLoggers + Filter(existing[..i], wanted)
    {
      assert existing[..i + 1][..i] == existing[..i];
      if wanted(existing[i]) {
        marked := marked + [existing[i]];
      }
      i := i + 1;
    }
    assert existing[..|existing|] == existing;
  }

  /** No name up to the configured one is below it. */
  lemma NoneBefore(s: seq<string>, at: nat)
    requires Sorted(s) && at < |s|
    ensures BelowIn(s[..at + 1], s[at]) == []
  {
    forall x | x in s[..at + 1]
      ensures !Prefixed(x, s[at])
    {
      PrefixedIsBelow(x, s[at]);
      var k :| 0 <= k < at + 1 && s[..at + 1][k] == x;
      LessTotal(s[k], s[at]);
    }
    FilterMembers(s[..at + 1], x => Prefixed(x, s[at]));
  }

  /** One entry of the configuration: its descendants are marked, and it is struck off. */
  function Visited(existing: seq<string>, childLoggers: seq<string>, name: string): (seq<string>, seq<string>) {
    if name in existing then (RemoveFirst(existing, name), childLoggers + BelowIn(existing, name))
      else (existing, childLoggers)
  }

  method Visit(existing: seq<string>, childLoggers: seq<string>, name: string)
    returns (rest: seq<string>, marked: seq<string>)
    requires Sorted(existing)
    ensures (rest, marked) == Visited(existing, childLoggers, name) && Sorted(rest)
  {
    rest, marked := existing, childLoggers;
    if name in existing {
      marked := MarkChildren(existing, name, childLoggers);
      RemoveFromSorted(existing, name);
      rest := RemoveFirst(existing, name);
    }
  }

  // ----- all configured names

  /** The remaining and the marked names after the entries `configured`. */
  function Scanned(existing: seq<string>, configured: seq<string>): (seq<string>, seq<string>) {
    if configured == [] then (existing, [])
    else
      var (rest, marked) := Scanned(existing, configured[..|configured| - 1]);
      Visited(rest, marked, configured[|configured| - 1])
  }

  ghost predicate BelowAny(configured: seq<string>, x: string) {
    exists c :: c in configured && IsAncestor(c, x)
  }

  predicate AllDifferent(s: seq<string>) {
    forall i, j :: 0 <= i < j < |s| ==> s[i] != s[j]
  }

  /** Below a configured name that was known: what the scan looks for. */
  ghost predicate BelowKnown(known: set<string>, configured: seq<string>, x: string) {
    exists c :: c in configured && c in known && Prefixed(x, c)
  }

  ghost predicate Lists(all: seq<string>, known: set<string>) {
    Sorted(all) && forall n :: n in all <==> n in known
  }

  /** The names `rest` are those not configured, and of these exactly the ones below a configured name
      that was known are marked. */
  ghost predicate Classifies(known: set<string>, configured: seq<string>, rest: seq<string>, marked: seq<string>) {
    && Sorted(rest) && (forall x :: x in rest <==> x in known && x !in configured)
    && (forall x :: x in rest ==> (x in marked <==> BelowKnown(known, configured, x)))
  }

  /** For any names at all, whatever the order of the entries. */
  lemma {:induction false} ScanClassifies(known: set<string>, all: seq<string>, configured: seq<string>)
    requires Lists(all, known) && AllDifferent(configured)
    ensures Classifies(known, configured, Scanned(all, configured).0, Scanned(all, configured).1)
  {
    if configured != [] {
      var before, name := configured[..|configured| - 1], configured[|configured| - 1];
      ScanClassifies(known, all, before);
      assert configured == before + [name];
      VisitClassifies(known, before, name, Scanned(all, before).0, Scanned(all, before).1);
    }
  }

  lemma VisitClassifies(known: set<string>, before: seq<string>, name: string, existing: seq<string>,
          childLoggers: seq<string>)
    requires name !in before && Classifies(known, before, existing, childLoggers)
    ensures var (rest, marked) := Visited(existing, childLoggers, name);
      Classifies(known, before + [name], rest, marked)
  {
    RemoveFromSorted(existing, name);
    FilterMembers(existing, x => Prefixed(x, name));
    var (rest, marked) := Visited(existing, childLoggers, name);
    forall x | x in rest
      ensures x in marked <==> BelowKnown(known, before + [name], x)
    {
      BelowOneMore(known, before, name, x);
    }
  }

  lemma BelowOneMore(known: set<string>, before: seq<string>, name: string, x: string)
    ensures BelowKnown(known, before + [name], x) <==>
      BelowKnown(known, before, x) || (name in known && Prefixed(x, name))
  {
    assert name in before + [name];
    if BelowKnown(known, before, x) {
      var c :| c in before && c in known && Prefixed(x, c);
      assert c in before + [name];
    }
  }

  /** The order of the entries does not matter. */
  lemma OrderDoesNotMatter(known: set<string>, all: seq<string>, order: seq<string>, order': seq<string>, x: string)
    requires Lists(all, known) && AllDifferent(order) && AllDifferent(order')
    requires forall n :: n in order <==> n in order'
    ensures x in Scanned(all, order).0 <==> x in Scanned(all, order').0
    ensures x in Scanned(all, order).0 ==> (x in Scanned(all, order).1 <==> x in Scanned(all, order').1)
  {
    ScanClassifies(known, all, order);
    ScanClassifies(known, all, order');
    assert BelowKnown(known, order, x) <==> BelowKnown(known, order', x);
  }

  // ----- which names have their descendants found

  /** Every dotted prefix of a name is there, and the empty name, if there, has nothing below it. */
  ghost predicate ClosedNames(known: set<string>) {
    && (forall x, c {:trigger IsAncestor(c, x)} :: x in known && IsAncestor(c, x) ==> c in known)
    && ("" in known ==> forall x :: x in known ==> !Prefixed(x, ""))
  }

  /** Of the remaining names exactly those below a configured one are marked, known or not. */
  ghost predicate MarksBelow(all: seq<string>, configured: seq<string>) {
    forall x :: x in Scanned(all, configured).0 ==> (x in Scanned(all, configured).1 <==> BelowAny(configured, x))
  }

  lemma BelowIfClosed(known: set<string>, configured: seq<string>, x: string)
    requires ClosedNames(known) && x in known
    ensures BelowKnown(known, configured, x) <==> BelowAny(configured, x)
  {
    if c :| c in configured && c in known && Prefixed(x, c) {
      PrefixedIsBelow(x, c);
    }
    if c :| c in configured && IsAncestor(c, x) {
      PrefixedIsBelow(x, c);
    }
  }

  /** A missing prefix, configured, has descendants that are not marked. */
  lemma MissesBelow(known: set<string>, all: seq<string>, c: string, x: string)
    requires Lists(all, known) && x in known && IsAncestor(c, x) && c !in known
    ensures !MarksBelow(all, [c])
  {
    ScanClassifies(known, all, [c]);
    assert c in [c] && BelowAny([c], x) && !BelowKnown(known, [c], x);
  }

  /** The empty name, configured, has names marked that are not below it. */
  lemma MarksTooMuch(known: set<string>, all: seq<string>, x: string)
    requires Lists(all, known) && "" in known && x in known && Prefixed(x, "")
    ensures !MarksBelow(all, [""])
  {
    ScanClassifies(known, all, [""]);
    assert x != "" by {
      PrefixedIsBelow(x, "");
    }
    assert "" in [""] && BelowKnown(known, [""], x) && !BelowAny([""], x);
  }

  /** The scan marks what is below the configured names, for all configurations, exactly if the names
      are closed. */
  lemma MarksBelowExactly(known: set<string>, all: seq<string>)
    requires Lists(all, known)
    ensures (forall configured :: AllDifferent(configured) ==> MarksBelow(all, configured)) <==> ClosedNames(known)
  {
    if ClosedNames(known) {
      forall configured | AllDifferent(configured)
        ensures MarksBelow(all, configured)
      {
        ScanClassifies(known, all, configured);
        forall x | x in Scanned(all, configured).0
          ensures x in Scanned(all, configured).1 <==> BelowAny(configured, x)
        {
          BelowIfClosed(known, configured, x);
        }
      }
    } else if x, c :| x in known && IsAncestor(c, x) && c !in known {
      MissesBelow(known, all, c, x);
      assert AllDifferent([c]);
    } else {
      var x :| x in known && Prefixed(x, "");
      MarksTooMuch(known, all, x);
      assert AllDifferent([""]);
    }
  }
}
