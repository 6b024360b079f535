/** Dotted logger names, as raw strings: the prefix relation that orders them, the scan that
    enumerates the prefixes of a name, and the code-point order in which Python sorts them. */
module Names {

  /** A dot of `n` that separates a non-empty dotted prefix from the rest. */
  predicate Dot(n: string, j: int) {
    0 < j < |n| && n[j] == '.'
  }

  /** `p` is a proper dotted prefix of `n`. */
  predicate IsAncestor(p: string, n: string) {
    Dot(n, |p|) && n[..|p|] == p
  }

  lemma AncestorAt(n: string, j: int)
    requires Dot(n, j)
    ensures IsAncestor(n[..j], n)
  {
  }

  lemma AncestorTransitive(p: string, q: string, n: string)
    requires IsAncestor(p, q) && IsAncestor(q, n)
    ensures IsAncestor(p, n)
  {
    assert n[..|p|] == q[..|p|];
    assert n[|p|] == q[|p|];
  }

  /** Two dotted prefixes of one name are comparable. */
  lemma AncestorsNest(p: string, q: string, n: string)
    requires IsAncestor(p, n) && IsAncestor(q, n) && |p| < |q|
    ensures IsAncestor(p, q)
  {
    assert q[..|p|] == n[..|q|][..|p|] == n[..|p|];
    assert q[|p|] == n[|p|];
  }

  /** The dots of a dotted prefix are the shorter dots of the name, with the same prefixes. */
  lemma PrefixDots(n: string, j: int, k: int)
    requires Dot(n, j)
    ensures Dot(n[..j], k) <==> Dot(n, k) && k < j
    ensures 0 <= k <= j ==> n[..j][..k] == n[..k]
  {
  }

  /** Python's `n.rfind(".", 0, end)`: the last dot strictly before `end`, or -1. */
  function RFindDot(n: string, end: int): (j: int)
    requires end <= |n|
    ensures j == -1 || (0 <= j < end && n[j] == '.')
    ensures forall k :: j < k < end && 0 <= k ==> n[k] != '.'
  {
    if end <= 0 then -1
    else if n[end - 1] == '.' then end - 1
    else RFindDot(n, end - 1)
  }

  /** No two adjacent dots, except possibly at the very start. */
  predicate Plain(n: string) {
    forall j :: 1 <= j < |n| - 1 && n[j] == '.' ==> n[j + 1] != '.'
  }

  /** The prefix lengths visited by the scan `i = name.rfind(".", 0, i - 1)` from a found dot `i`. */
  ghost function Visited(n: string, i: int): (s: set<int>)
    requires i < |n|
    requires i == -1 || (0 <= i && n[i] == '.')
    ensures forall j :: j in s ==> Dot(n, j) && j <= i
  {
    if i <= 0 then {} else {i} + Visited(n, RFindDot(n, i - 1))
  }

  lemma {:induction false} VisitsEveryDot(n: string, i: int)
    requires i < |n| && (i == -1 || (0 <= i && n[i] == '.')) && Plain(n)
    ensures forall j :: Dot(n, j) && j <= i ==> j in Visited(n, i)
  {
    if i > 0 {
      var next := RFindDot(n, i - 1);
      VisitsEveryDot(n, next);
      assert i > 1 ==> n[i - 1] != '.';
    }
  }

  /** Of the last adjacent pair of dots, the scan misses the left one. */
  lemma {:induction false} SkipsAnAdjacentDot(n: string, i: int, j: int)
    requires i < |n| && (i == -1 || (0 <= i && n[i] == '.'))
    requires 1 <= j < |n| - 1 && n[j] == '.' && n[j + 1] == '.' && j != i
    requires forall k :: j < k < |n| - 1 && n[k] == '.' ==> n[k + 1] != '.'
    ensures j !in Visited(n, i)
    decreases i
  {
    if i > j {
      var next := RFindDot(n, i - 1);
      assert i != j + 1 ==> n[i - 1] != '.' && i - 1 > j + 1;
      SkipsAnAdjacentDot(n, next, j);
    }
  }

  lemma {:induction false} LastAdjacentPair(n: string, i: nat) returns (j: nat)
    requires 1 <= i < |n| - 1 && n[i] == '.' && n[i + 1] == '.'
    ensures 1 <= j < |n| - 1 && n[j] == '.' && n[j + 1] == '.'
    ensures forall k :: j < k < |n| - 1 && n[k] == '.' ==> n[k + 1] != '.'
    decreases |n| - i
  {
    if k :| i < k < |n| - 1 && n[k] == '.' && n[k + 1] == '.' {
      j := LastAdjacentPair(n, k);
    } else {
      j := i;
    }
  }

  /** The upward scan of a name reaches every dotted prefix exactly when the name is plain. */
  lemma ScanIsComplete(n: string)
    ensures (forall j :: Dot(n, j) ==> j in Visited(n, RFindDot(n, |n|))) <==> Plain(n)
  {
    var last := RFindDot(n, |n|);
    if Plain(n) {
      VisitsEveryDot(n, last);
      forall j | Dot(n, j)
        ensures j in Visited(n, last)
      {
        assert j <= last;
      }
    } else {
      var i :| 1 <= i < |n| - 1 && n[i] == '.' && n[i + 1] == '.';
      var j := LastAdjacentPair(n, i);
      assert j < last;
      SkipsAnAdjacentDot(n, last, j);
      assert Dot(n, j);
    }
  }

  lemma PrefixIsPlain(n: string, j: nat)
    requires Plain(n) && j <= |n|
    ensures Plain(n[..j])
  {
  }

  /** Python's order on strings: by code point, a proper prefix first. */
  predicate Less(a: string, b: string) {
    b != [] && (a == [] || a[0] < b[0] || (a[0] == b[0] && Less(a[1..], b[1..])))
  }

  lemma {:induction false} LessTransitive(a: string, b: string, c: string)
    requires Less(a, b) && Less(b, c)
    ensures Less(a, c)
  {
    if a != [] && a[0] == b[0] == c[0] {
      LessTransitive(a[1..], b[1..], c[1..]);
    }
  }

  lemma {:induction false} LessTotal(a: string, b: string)
    ensures Less(a, b) || a == b || Less(b, a)
    ensures !(Less(a, b) && Less(b, a)) && !Less(a, a)
  {
    if a != [] && b != [] && a[0] == b[0] {
      LessTotal(a[1..], b[1..]);
      assert a == [a[0]] + a[1..] && b == [b[0]] + b[1..];
    }
    LessIrreflexive(a);
  }

  lemma {:induction false} LessIrreflexive(a: string)
    ensures !Less(a, a)
  {
    if a != [] {
      LessIrreflexive(a[1..]);
    }
  }

  /** Up to `k` they are the same, and there `a` ends or has the smaller character. */
  predicate DecidedAt(a: string, b: string, k: nat) {
    k < |b| && k <= |a| && (forall j :: 0 <= j < k ==> a[j] == b[j]) && (k == |a| || a[k] < b[k])
  }

  /** The first difference decides, and a proper prefix comes first. */
  lemma {:induction false} LessExactly(a: string, b: string)
    ensures Less(a, b) <==> exists k: nat :: DecidedAt(a, b, k)
  {
    if a == [] || b == [] || a[0] < b[0] {
      assert b != [] ==> DecidedAt(a, b, 0);
    } else if a[0] == b[0] {
      LessExactly(a[1..], b[1..]);
      if k: nat :| DecidedAt(a[1..], b[1..], k) {
        DecidedLater(a, b, k);
      }
      if k: nat :| DecidedAt(a, b, k) {
        DecidedLater(a, b, k - 1);
      }
    }
  }

  lemma DecidedLater(a: string, b: string, k: nat)
    requires a != [] && b != [] && a[0] == b[0]
    ensures DecidedAt(a[1..], b[1..], k) <==> DecidedAt(a, b, k + 1)
  {
    assert forall j :: 0 < j < |a| ==> a[j] == a[1..][j - 1];
    assert forall j :: 0 < j < |b| ==> b[j] == b[1..][j - 1];
  }

  lemma {:induction false} PrefixIsLess(a: string, b: string)
    requires |a| < |b| && b[..|a|] == a
    ensures Less(a, b)
  {
    if a != [] {
      assert b[0] == b[..|a|][0] == a[0];
      assert b[1..][..|a| - 1] == b[..|a|][1..] == a[1..];
      PrefixIsLess(a[1..], b[1..]);
    }
  }
}
