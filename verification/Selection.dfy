/** Subsequences: what a loop with a test picks from a sequence, in order. */
module Selection {
  /** `ks` are the positions of the wanted elements of `all`, in order, and `picked` their images. */
  ghost predicate PicksAt<T, U>(all: seq<T>, wanted: T -> bool, image: T -> U, picked: seq<U>, ks: seq<int>) {
    && |ks| == |picked|
    && Ascending(ks)
    && (forall k :: k in ks <==> 0 <= k < |all| && wanted(all[k]))
    && (forall i :: 0 <= i < |ks| ==> 0 <= ks[i] < |all| && picked[i] == image(all[ks[i]]))
  }

  /** `picked` is `all` without the elements that are not wanted. */
  ghost predicate Picks<T, U>(all: seq<T>, wanted: T -> bool, image: T -> U, picked: seq<U>) {
    exists ks :: PicksAt(all, wanted, image, picked, ks)
  }

  lemma PicksNone<T, U>(wanted: T -> bool, image: T -> U)
    ensures Picks([], wanted, image, [])
  {
    assert PicksAt([], wanted, image, [], []);
  }

  lemma PicksOneMore<T, U>(all: seq<T>, wanted: T -> bool, image: T -> U, picked: seq<U>, x: T, ks: seq<int>)
    requires PicksAt(all, wanted, image, picked, ks) && wanted(x)
    ensures PicksAt(all + [x], wanted, image, picked + [image(x)], ks + [|all|])
  {
    var more := ks + [|all|];
    forall i, j | 0 <= i < j < |more|
      ensures more[i] < more[j]
    {
      assert ks[i] in ks;
    }
    forall k
      ensures k in more <==> 0 <= k < |all + [x]| && wanted((all + [x])[k])
    {
      assert k in more <==> k in ks || k == |all|;
    }
  }

  lemma PicksNoMore<T, U>(all: seq<T>, wanted: T -> bool, image: T -> U, picked: seq<U>, x: T, ks: seq<int>)
    requires PicksAt(all, wanted, image, picked, ks) && !wanted(x)
    ensures PicksAt(all + [x], wanted, image, picked, ks)
  {
    forall k
      ensures k in ks <==> 0 <= k < |all + [x]| && wanted((all + [x])[k])
    {
    }
  }

  lemma PicksNext<T, U>(all: seq<T>, wanted: T -> bool, image: T -> U, picked: seq<U>, x: T)
    requires Picks(all, wanted, image, picked)
    ensures Picks(all + [x], wanted, image, if wanted(x) then picked + [image(x)] else picked)
  {
    var ks :| PicksAt(all, wanted, image, picked, ks);
    if wanted(x) {
      PicksOneMore(all, wanted, image, picked, x, ks);
    } else {
      PicksNoMore(all, wanted, image, picked, x, ks);
    }
  }

  /** `filter` treats a sequence element by element. */
  ghost predicate Filters<T(!new), U>(wanted: T -> bool, image: T -> U, filter: seq<T> -> seq<U>) {
    && filter([]) == []
    && forall s, x {:trigger filter(s + [x])} ::
         filter(s + [x]) == if wanted(x) then filter(s) + [image(x)] else filter(s)
  }

  /** What a loop with a test yields. */
  lemma {:induction false} FilterPicks<T(!new), U>(all: seq<T>, wanted: T -> bool, image: T -> U,
          filter: seq<T> -> seq<U>)
    requires Filters(wanted, image, filter)
    ensures Picks(all, wanted, image, filter(all))
  {
    if all == [] {
      PicksNone(wanted, image);
    } else {
      var front, last := all[..|all| - 1], all[|all| - 1];
      FilterPicks(front, wanted, image, filter);
      PicksNext(front, wanted, image, filter(front), last);
      assert all == front + [last];
    }
  }

  /** There is only one way to pick. */
  lemma PicksUnique<T, U>(all: seq<T>, wanted: T -> bool, image: T -> U, p: seq<U>, q: seq<U>)
    requires Picks(all, wanted, image, p) && Picks(all, wanted, image, q)
    ensures p == q
  {
    var ks :| PicksAt(all, wanted, image, p, ks);
    var ls :| PicksAt(all, wanted, image, q, ls);
    IncreasingUnique(ks, ls);
  }

  ghost predicate Ascending(ks: seq<int>) {
    forall i, j :: 0 <= i < j < |ks| ==> ks[i] < ks[j]
  }

  lemma ButLast(ks: seq<int>, m: nat)
    requires Ascending(ks) && |ks| == m + 1
    ensures (forall k :: k in ks[..m] <==> k in ks && k != ks[m]) && (forall k :: k in ks ==> k <= ks[m])
  {
    assert ks == ks[..m] + [ks[m]];
  }

  lemma SameEnd(ks: seq<int>, ls: seq<int>, m: nat, n: nat)
    requires Ascending(ks) && Ascending(ls) && |ks| == m + 1 && |ls| == n + 1 && forall k :: k in ks <==> k in ls
    ensures ks[m] == ls[n] && forall k :: k in ks[..m] <==> k in ls[..n]
  {
    ButLast(ks, m);
    ButLast(ls, n);
    assert ks[m] in ks && ls[n] in ls;
  }

  lemma {:induction false} IncreasingUnique(ks: seq<int>, ls: seq<int>)
    requires Ascending(ks) && Ascending(ls)
    requires forall k :: k in ks <==> k in ls
    ensures ks == ls
  {
    assert ks != [] ==> ks[0] in ks;
    assert ls != [] ==> ls[0] in ls;
    if ks != [] && ls != [] {
      var m, n := |ks| - 1, |ls| - 1;
      SameEnd(ks, ls, m, n);
      IncreasingUnique(ks[..m], ls[..n]);
      assert ks == ks[..m] + [ks[m]] && ls == ls[..n] + [ls[n]];
    }
  }
}
