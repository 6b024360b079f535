/** The scan that both passes of the format compiler make, for any field syntax: the fragments it
    produces, how they tile the format string, and what rendering them means. */
module FormatScan {
  import opened Wrappers

  /** A field syntax: the length of the match at a position (0 when there is none), and the
      fragments built from a literal text and from a match, given as position and length. */
  datatype Grammar<F> = Grammar(matchAt: (string, nat) -> nat, literal: string -> F, field: (string, nat, nat) -> F)

  /** A match lies within the string. */
  function MatchLength<F>(g: Grammar<F>, s: string, p: nat): (n: nat)
    requires p <= |s|
    ensures p + n <= |s|
  {
    var n := g.matchAt(s, p);
    if p + n <= |s| then n else 0
  }

  /** The leftmost match from `p` on, as the iterator finds it: its position, or the length of `s`. */
  function Find<F>(g: Grammar<F>, s: string, p: nat): (q: nat)
    requires p <= |s|
    ensures p <= q <= |s| && (q < |s| ==> MatchLength(g, s, q) > 0) && Clear(g, s, p, q)
    decreases |s| - p
  {
    if p == |s| || MatchLength(g, s, p) > 0 then p else Find(g, s, p + 1)
  }

  /** No match starts in `[a, b)`. */
  predicate Clear<F>(g: Grammar<F>, s: string, a: nat, b: nat)
    requires b <= |s|
  {
    forall k :: a <= k < b ==> MatchLength(g, s, k) == 0
  }

  /** The literal before the next match, if any. */
  function Gap<F>(g: Grammar<F>, s: string, cursor: nat, q: nat): seq<F>
    requires cursor <= q <= |s|
  {
    if q != cursor then [g.literal(s[cursor..q])] else []
  }

  function FieldAt<F>(g: Grammar<F>, s: string, q: nat): F
    requires q <= |s|
  {
    g.field(s, q, MatchLength(g, s, q))
  }

  /** The fragments of `s` from `cursor` on. */
  function Compile<F>(g: Grammar<F>, s: string, cursor: nat): (fs: seq<F>)
    requires cursor <= |s|
    decreases |s| - cursor, 1
  {
    var q := Find(g, s, cursor);
    Gap(g, s, cursor, q) + CompileMatch(g, s, q)
  }

  /** The fragments from a match, or from the end of the string, on. */
  function CompileMatch<F>(g: Grammar<F>, s: string, q: nat): (fs: seq<F>)
    requires q <= |s| && (q < |s| ==> MatchLength(g, s, q) > 0)
    decreases |s| - q, 0
  {
    if q == |s| then [] else [FieldAt(g, s, q)] + Compile(g, s, q + MatchLength(g, s, q))
  }

  // ----- the two passes

  /** The counting pass. */
  method CountFragments<F>(g: Grammar<F>, s: string) returns (count: nat)
    ensures count == |Compile(g, s, 0)|
  {
    count := 0;
    var cursor := 0;
    var position := Find(g, s, 0);
    while position < |s|
      invariant cursor <= position <= |s| && position == Find(g, s, cursor)
      invariant count + |Compile(g, s, cursor)| == |Compile(g, s, 0)|
      decreases |s| - cursor
    {
      if position != cursor {
        count := count + 1;
      }
      cursor := position + MatchLength(g, s, position);
      count := count + 1;
      position := Find(g, s, cursor);
    }
    if cursor != |s| {
      count := count + 1;
    }
  }

  /** The filling pass: it writes exactly the counted fragments, each within bounds. */
  method FillFragments<F>(g: Grammar<F>, s: string, fragments: array<F>)
    requires fragments.Length == |Compile(g, s, 0)|
    modifies fragments
    ensures fragments[..] == Compile(g, s, 0)
  {
    var idx, cursor := 0, 0;
    var position := Find(g, s, 0);
    ghost var all := Compile(g, s, 0);
    while position < |s|
      invariant cursor <= position <= |s| && position == Find(g, s, cursor)
      invariant 0 <= idx <= fragments.Length && all == fragments[..idx] + Compile(g, s, cursor)
      decreases |s| - cursor
    {
      idx := FillGap(g, s, fragments, idx, cursor, position, all);
      idx, cursor := FillField(g, s, fragments, idx, position, all);
      position := Find(g, s, cursor);
    }
    idx := FillGap(g, s, fragments, idx, cursor, position, all);
    assert fragments[..idx] == fragments[..];
  }

  lemma Advance<F>(all: seq<F>, done: seq<F>, f: F, rest: seq<F>, next: seq<F>)
    requires all == done + ([f] + rest) && next == done + [f]
    ensures all == next + rest
  {
  }

  /** Write the literal between the cursor and the next match, unless it is empty. */
  method FillGap<F>(g: Grammar<F>, s: string, fragments: array<F>, idx: nat, cursor: nat, position: nat,
          ghost all: seq<F>)
    returns (next: nat)
    requires cursor <= position <= |s| && position == Find(g, s, cursor)
    requires |all| == fragments.Length && idx <= fragments.Length && all == fragments[..idx] + Compile(g, s, cursor)
    modifies fragments
    ensures idx <= next <= fragments.Length
    ensures all == fragments[..next] + CompileMatch(g, s, position)
  {
    next := idx;
    ghost var done, rest := fragments[..idx], CompileMatch(g, s, position);
    if position != cursor {
      assert all == done + ([g.literal(s[cursor..position])] + rest);
      fragments[idx] := g.literal(s[cursor..position]);
      next := idx + 1;
      Advance(all, done, fragments[idx], rest, fragments[..next]);
    } else {
      assert Compile(g, s, cursor) == rest;
    }
  }

  /** Write the field at a match and move the cursor past it. */
  method FillField<F>(g: Grammar<F>, s: string, fragments: array<F>, idx: nat, position: nat, ghost all: seq<F>)
    returns (next: nat, cursor: nat)
    requires position < |s| && MatchLength(g, s, position) > 0
    requires |all| == fragments.Length && idx <= fragments.Length &&
      all == fragments[..idx] + CompileMatch(g, s, position)
    modifies fragments
    ensures next <= fragments.Length && position < cursor <= |s|
    ensures all == fragments[..next] + Compile(g, s, cursor)
  {
    ghost var done := fragments[..idx];
    fragments[idx] := FieldAt(g, s, position);
    next, cursor := idx + 1, position + MatchLength(g, s, position);
    Advance(all, done, fragments[idx], Compile(g, s, cursor), fragments[..next]);
  }

  // ----- the fragments tile the string

  /** `f` stands for the text `s[a..b]`: a match, or a literal that runs up to the next match. */
  predicate IsSpan<F(==)>(g: Grammar<F>, s: string, a: nat, b: nat, f: F) {
    && a < b <= |s|
    && if MatchLength(g, s, a) > 0 then b == a + MatchLength(g, s, a) && f == FieldAt(g, s, a)
       else Clear(g, s, a, b) && (b < |s| ==> MatchLength(g, s, b) > 0) && f == g.literal(s[a..b])
  }

  /** The spans of `fs` follow each other from `a` to the end of `s`; the k-th one ends at `ends[k]`. */
  predicate Tiles<F(==)>(g: Grammar<F>, s: string, a: nat, ends: seq<nat>, fs: seq<F>)
    decreases |fs|
  {
    if fs == [] then a == |s| && ends == []
    else ends != [] && IsSpan(g, s, a, ends[0], fs[0]) && Tiles(g, s, ends[0], ends[1..], fs[1..])
  }

  lemma TilesFrom<F>(g: Grammar<F>, s: string, a: nat, b: nat, f: F, ends: seq<nat>, fs: seq<F>)
    requires IsSpan(g, s, a, b, f) && Tiles(g, s, b, ends, fs)
    ensures Tiles(g, s, a, [b] + ends, [f] + fs)
  {
    assert ([b] + ends)[1..] == ends && ([f] + fs)[1..] == fs;
  }

  /** Where the fragments end. */
  function Ends<F>(g: Grammar<F>, s: string, cursor: nat): seq<nat>
    requires cursor <= |s|
    decreases |s| - cursor, 1
  {
    var q := Find(g, s, cursor);
    (if q != cursor then [q] else []) + MatchEnds(g, s, q)
  }

  function MatchEnds<F>(g: Grammar<F>, s: string, q: nat): seq<nat>
    requires q <= |s| && (q < |s| ==> MatchLength(g, s, q) > 0)
    decreases |s| - q, 0
  {
    if q == |s| then [] else [q + MatchLength(g, s, q)] + Ends(g, s, q + MatchLength(g, s, q))
  }

  /** The fragments tile the format string: in order, without gaps, and without overlap. */
  lemma {:induction false} CompileTiles<F>(g: Grammar<F>, s: string, cursor: nat)
    requires cursor <= |s|
    ensures Tiles(g, s, cursor, Ends(g, s, cursor), Compile(g, s, cursor))
    decreases |s| - cursor
  {
    var q := Find(g, s, cursor);
    if q < |s| {
      var next := q + MatchLength(g, s, q);
      CompileTiles(g, s, next);
      TilesFrom(g, s, q, next, FieldAt(g, s, q), Ends(g, s, next), Compile(g, s, next));
    }
    var ends, fs := MatchEnds(g, s, q), CompileMatch(g, s, q);
    if q != cursor {
      TilesFrom(g, s, cursor, q, g.literal(s[cursor..q]), ends, fs);
    } else {
      assert Ends(g, s, cursor) == ends && Compile(g, s, cursor) == fs;
    }
  }

  /** The compiled fragments are the only ones that tile the string. */
  lemma {:induction false} TilingIsUnique<F>(g: Grammar<F>, s: string, a: nat, ends: seq<nat>, fs: seq<F>)
    requires a <= |s| && Tiles(g, s, a, ends, fs)
    ensures fs == Compile(g, s, a) && ends == Ends(g, s, a)
  {
    CompileTiles(g, s, a);
    TilingsAgree(g, s, a, ends, fs, Ends(g, s, a), Compile(g, s, a));
  }

  lemma {:induction false} TilingsAgree<F>(g: Grammar<F>, s: string, a: nat, ends: seq<nat>, fs: seq<F>,
          ends': seq<nat>, fs': seq<F>)
    requires Tiles(g, s, a, ends, fs) && Tiles(g, s, a, ends', fs')
    ensures fs == fs' && ends == ends'
    decreases |fs|
  {
    if fs != [] && fs' != [] {
      assert ends[0] == ends'[0];
      TilingsAgree(g, s, ends[0], ends[1..], fs[1..], ends'[1..], fs'[1..]);
      assert fs == [fs[0]] + fs[1..] && fs' == [fs'[0]] + fs'[1..];
      assert ends == [ends[0]] + ends[1..] && ends' == [ends'[0]] + ends'[1..];
    }
  }

  /** A match counts unless an earlier match that counts overlaps it. */
  predicate Taken<F>(g: Grammar<F>, s: string, p: nat)
    requires p <= |s|
    decreases p
  {
    MatchLength(g, s, p) > 0 && forall q :: 0 <= q < p && Taken(g, s, q) ==> q + MatchLength(g, s, q) <= p
  }

  /** No match that counts reaches from before `cursor` beyond it. */
  ghost predicate CleanCut<F>(g: Grammar<F>, s: string, cursor: nat)
    requires cursor <= |s|
  {
    forall q :: 0 <= q < cursor && Taken(g, s, q) ==> q + MatchLength(g, s, q) <= cursor
  }

  lemma FindIsTaken<F>(g: Grammar<F>, s: string, cursor: nat)
    requires cursor <= |s| && CleanCut(g, s, cursor)
    ensures var q := Find(g, s, cursor);
      q < |s| ==> Taken(g, s, q) && CleanCut(g, s, q + MatchLength(g, s, q))
  {
    var q := Find(g, s, cursor);
    if q < |s| {
      assert forall r :: 0 <= r < q && Taken(g, s, r) ==> r < cursor;
      assert Taken(g, s, q);
    }
  }

  /** Every match that counts becomes a fragment. */
  lemma {:induction false} TakenIsCompiled<F>(g: Grammar<F>, s: string, cursor: nat, p: nat)
    requires cursor <= p <= |s| && CleanCut(g, s, cursor) && Taken(g, s, p)
    ensures FieldAt(g, s, p) in Compile(g, s, cursor)
    decreases |s| - cursor
  {
    var q := Find(g, s, cursor);
    FindIsTaken(g, s, cursor);
    if q < p {
      TakenIsCompiled(g, s, q + MatchLength(g, s, q), p);
    }
  }

  /** Every fragment that is no literal comes from a match that counts. */
  lemma {:induction false} CompiledIsTaken<F>(g: Grammar<F>, s: string, cursor: nat, f: F) returns (p: nat)
    requires cursor <= |s| && CleanCut(g, s, cursor)
    requires f in Compile(g, s, cursor) && forall t :: g.literal(t) != f
    ensures p <= |s| && Taken(g, s, p) && FieldAt(g, s, p) == f
    decreases |s| - cursor
  {
    p := Find(g, s, cursor);
    FindIsTaken(g, s, cursor);
    assert f in CompileMatch(g, s, p);
    if FieldAt(g, s, p) != f {
      p := CompiledIsTaken(g, s, p + MatchLength(g, s, p), f);
    }
  }

  /** Where matches do not overlap, each of them counts. */
  lemma ApartIsTaken<F>(g: Grammar<F>, s: string, p: nat)
    requires p <= |s| && MatchLength(g, s, p) > 0
    requires forall q :: 0 <= q < p ==> q + MatchLength(g, s, q) <= p
    ensures Taken(g, s, p)
  {
  }

  // ----- rendering

  function Join(a: Option<string>, b: Option<string>): Option<string> {
    if a.Some? && b.Some? then Some(a.value + b.value) else None
  }

  lemma JoinAssociates(a: Option<string>, b: Option<string>, c: Option<string>)
    ensures Join(Join(a, b), c) == Join(a, Join(b, c))
  {
    if a.Some? && b.Some? && c.Some? {
      assert (a.value + b.value) + c.value == a.value + (b.value + c.value);
    }
  }

  lemma JoinEmpty(a: Option<string>)
    ensures Join(Some(""), a) == a
  {
    assert a.Some? ==> "" + a.value == a.value;
  }

  /** All fragments in order; one that cannot be rendered fails the whole. */
  function Render<F>(one: F -> Option<string>, fs: seq<F>): Option<string> {
    if fs == [] then Some("") else Join(one(fs[0]), Render(one, fs[1..]))
  }

  lemma {:induction false} RenderAppend<F>(one: F -> Option<string>, fs: seq<F>, more: seq<F>)
    ensures Render(one, fs + more) == Join(Render(one, fs), Render(one, more))
  {
    if fs == [] {
      assert fs + more == more;
      JoinEmpty(Render(one, more));
    } else {
      assert (fs + more)[1..] == fs[1..] + more;
      RenderAppend(one, fs[1..], more);
      JoinAssociates(one(fs[0]), Render(one, fs[1..]), Render(one, more));
    }
  }

  /** The direct reading of the string, character by character: a match is replaced by what its
      field renders to, any other character stands for itself. */
  function Interpret<F>(g: Grammar<F>, one: F -> Option<string>, s: string, p: nat): Option<string>
    requires p <= |s|
    decreases |s| - p
  {
    if p == |s| then Some("")
    else if MatchLength(g, s, p) > 0 then Join(one(FieldAt(g, s, p)), Interpret(g, one, s, p + MatchLength(g, s, p)))
    else Join(Some([s[p]]), Interpret(g, one, s, p + 1))
  }

  lemma {:induction false} InterpretLiteral<F>(g: Grammar<F>, one: F -> Option<string>, s: string, a: nat, b: nat)
    requires a <= b <= |s| && Clear(g, s, a, b)
    ensures Interpret(g, one, s, a) == Join(Some(s[a..b]), Interpret(g, one, s, b))
    decreases b - a
  {
    var rest := Interpret(g, one, s, b);
    if a == b {
      JoinEmpty(rest);
    } else {
      InterpretLiteral(g, one, s, a + 1, b);
      JoinAssociates(Some([s[a]]), Some(s[a + 1..b]), rest);
      assert [s[a]] + s[a + 1..b] == s[a..b];
    }
  }

  /** Rendering the compiled fragments means the same as reading the string directly. */
  lemma {:induction false} RenderIsInterpret<F>(g: Grammar<F>, one: F -> Option<string>, s: string, cursor: nat)
    requires cursor <= |s| && forall t :: one(g.literal(t)) == Some(t)
    ensures Render(one, Compile(g, s, cursor)) == Interpret(g, one, s, cursor)
    decreases |s| - cursor
  {
    var q := Find(g, s, cursor);
    var rest := CompileMatch(g, s, q);
    if q < |s| {
      var next := q + MatchLength(g, s, q);
      RenderIsInterpret(g, one, s, next);
      assert rest[1..] == Compile(g, s, next);
    }
    assert Render(one, rest) == Interpret(g, one, s, q);
    if q != cursor {
      InterpretLiteral(g, one, s, cursor, q);
      assert Compile(g, s, cursor)[1..] == rest;
    } else {
      assert Compile(g, s, cursor) == rest;
    }
  }
}
