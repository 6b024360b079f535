/** A run whose last `getLogger` leaves a wrong cache.  "r" passes for a prefix of the name of the root,
    so promoting it does not adopt "r.x.y"; the caches stay right, until "r.x" adopts it. */
module LoggerLostTree {
  import opened Wrappers
  import opened Names
  import opened LoggerGraph
  import opened LoggerRegistry
  import opened LoggerTree
  import opened LoggerCoherence
  import opened LoggerRuns

  /** "r.x.y" is under the root, with placeholders above it. */
  ghost predicate Begun<I>(reg: Registry<I>, root: I, a: I) {
    && Sound(reg) && Coherent(root, reg.recs) && Exact(reg.recs) && reg.root == root
    && reg.recs.Keys == {root, a} && a != root
    && reg.recs[root].level == WARNING && reg.recs[root].parent.None?
    && reg.recs[a].level == NOTSET && reg.recs[a].parent == Some(root)
    && "r.x" in reg.dict && reg.dict["r.x"] == Placeholder([a])
    && "r" in reg.dict && reg.dict["r"] == Placeholder([a])
  }

  /** And "r" is a logger, but not its parent. */
  ghost predicate Promoted<I>(reg: Registry<I>, root: I, a: I, b: I) {
    && Sound(reg) && Coherent(root, reg.recs) && reg.root == root
    && reg.recs.Keys == {root, a, b} && a != root && b != root && a != b
    && reg.recs[root].level == WARNING
    && reg.recs[a].level == NOTSET && reg.recs[a].parent == Some(root)
    && "r.x" in reg.dict && reg.dict["r.x"] == Placeholder([a])
    && "r" in reg.dict && reg.dict["r"] == Known(b)
  }

  lemma FirstCall<I>(root: I, a: I)
    requires a != root
    ensures Sound(Initial(root)) && Begun(GetLogger(Initial(root), "r.x.y", a), root, a)
  {
    var reg, n := Initial(root), "r.x.y";
    InitialIsTree(root);
    TreeHidesGetLogger(reg, n, a);
    GetLoggerCoherent(reg, n, a);
    GetLoggerSound(reg, n, a);
    ExactUntilMove(reg, n, a);
    SettingsUnseen(reg, n, a, root);
    LinksAfter(reg, n, a);
    LinkedSettings(reg, n, a);
    FirstScan(root, a);
  }

  lemma FirstScan<I>(root: I, a: I)
    ensures var (d, p) := Scan(Initial(root), "r.x.y", a);
      && p.None? && "r.x" in d && d["r.x"] == Placeholder([a]) && "r" in d && d["r"] == Placeholder([a])
  {
    var reg, n := Initial(root), "r.x.y";
    assert Dot(n, 1) && n[..1] == "r" && Dot(n, 3) && n[..3] == "r.x";
    PrefixRegistered(reg, n, a, 1);
    PrefixRegistered(reg, n, a, 3);
    NearestEntered(reg, n, a);
  }

  lemma NobodyMovesToR<I>(reg: Registry<I>, root: I, a: I)
    requires Begun(reg, root, a)
    ensures forall x :: x in reg.recs ==> !IsMoved(reg, "r", x)
  {
    assert reg.recs[root].name == "root" && Take("root", 1) == "r";
  }

  lemma SecondScan<I>(reg: Registry<I>, root: I, a: I, b: I)
    requires Begun(reg, root, a)
    ensures Scan(reg, "r", b) == (reg.dict["r" := Known(b)], None)
  {
  }

  lemma SecondLinks<I>(reg: Registry<I>, root: I, a: I, b: I)
    requires Begun(reg, root, a) && b != root && b != a
    ensures var r := GetLogger(reg, "r", b).recs;
      && r.Keys == {root, a, b} && r[root].level == WARNING && r[a].level == NOTSET && r[a].parent == Some(root)
  {
    NobodyMovesToR(reg, root, a);
    LinksAfter(reg, "r", b);
    SettingsUnseen(reg, "r", b, root);
    SettingsUnseen(reg, "r", b, a);
  }

  lemma SecondCall<I>(reg: Registry<I>, root: I, a: I, b: I)
    requires Begun(reg, root, a) && b != root && b != a
    ensures Promoted(GetLogger(reg, "r", b), root, a, b) && Exact(GetLogger(reg, "r", b).recs)
  {
    NobodyMovesToR(reg, root, a);
    SecondScan(reg, root, a, b);
    SecondLinks(reg, root, a, b);
    GetLoggerCoherent(reg, "r", b);
    GetLoggerSound(reg, "r", b);
    ExactUntilMove(reg, "r", b);
  }

  lemma ThirdCall<I>(reg: Registry<I>, root: I, a: I, b: I)
    requires Promoted(reg, root, a, b) && Exact(reg.recs)
    ensures Promoted(WithLevel(reg, b, ERROR), root, a, b) && WithLevel(reg, b, ERROR).recs[b].level == ERROR
    ensures Careful(reg, Set(b, ERROR))
  {
    ExactPassesGuard(root, reg.recs, b, ERROR);
    SetLevelCoherence(root, reg.recs, b, ERROR);
    WithLevelSound(reg, b, ERROR);
  }

  lemma FourthMoves<I>(reg: Registry<I>, root: I, a: I, b: I, c: I)
    requires Promoted(reg, root, a, b) && c !in reg.recs
    ensures IsMoved(reg, "r.x", a) && ScannedParent(reg, "r.x", c) == b
  {
    var d := Enter(reg, "r.x", c).dict;
    assert reg.recs[root].name == "root" && Take("root", 3) == "roo";
    assert RFindDot("r.x", 3) == 1 && "r.x"[..1] == "r" && IsKnown(d, "r") && d["r"].logger == b;
  }

  lemma FourthLinks<I>(reg: Registry<I>, root: I, a: I, b: I, c: I)
    requires Promoted(reg, root, a, b) && reg.recs[b].level == ERROR && c !in reg.recs
    ensures var r := GetLogger(reg, "r.x", c).recs;
      && a in r && c in r && b in r && r[a].level == NOTSET && r[a].parent == Some(c)
      && r[c].level == NOTSET && r[c].parent == Some(b) && r[b].level == ERROR
      && r[a].effective == reg.recs[a].effective
  {
    FourthMoves(reg, root, a, b, c);
    LinksAfter(reg, "r.x", c);
    SettingsUnseen(reg, "r.x", c, a);
    SettingsUnseen(reg, "r.x", c, b);
    LinkedSettings(reg, "r.x", c);
    assert Enter(reg, "r.x", c).recs[c] == NewRec("r.x");
  }

  lemma TwoSteps<I>(root: I, recs: map<I, Rec<I>>, a: I, c: I, b: I)
    requires Graph(root, recs) && a in recs && c in recs && b in recs && recs[a].level == NOTSET
    requires recs[a].parent == Some(c) && recs[c].level == NOTSET && recs[c].parent == Some(b) && recs[b].level > 0
    ensures Walk(root, recs, a) == recs[b].level
  {
    assert Walk(root, recs, a) == Walk(root, recs, c) == Walk(root, recs, b);
  }

  lemma FourthCall<I>(reg: Registry<I>, root: I, a: I, b: I, c: I)
    requires Promoted(reg, root, a, b) && reg.recs[b].level == ERROR && c !in reg.recs
    ensures var r := GetLogger(reg, "r.x", c).recs;
      a in r && r[a].effective == WARNING && Walk(root, r, a) == ERROR
  {
    FourthLinks(reg, root, a, b, c);
    TwoSteps(root, GetLogger(reg, "r.x", c).recs, a, c, b);
    assert CoherentAt(root, reg.recs, a) && Walk(root, reg.recs, a) == Walk(root, reg.recs, root);
  }

  /** From the initial registry: getLogger("r.x.y"), getLogger("r") and setting that one to ERROR keep
      every cache right; getLogger("r.x") then changes the level of "r.x.y" and not its cache. */
  lemma PromotionMovesToAnotherLevel<I>(root: I, a: I, b: I, c: I)
    requires a != root && b != root && c != root && a != b && a != c && b != c
    ensures Sound(Initial(root)) && a !in Initial(root).recs
    ensures var s1 := GetLogger(Initial(root), "r.x.y", a);
      && Sound(s1) && b !in s1.recs
      && var s2 := GetLogger(s1, "r", b);
      && Sound(s2) && b in s2.recs && Coherent(root, s2.recs) && Careful(s2, Set(b, ERROR))
      && var s3 := WithLevel(s2, b, ERROR);
      && Sound(s3) && Coherent(root, s3.recs) && c !in s3.recs
      && var s4 := GetLogger(s3, "r.x", c);
      && a in s4.recs && s4.recs[a].effective == WARNING && Walk(root, s4.recs, a) == ERROR
  {
    FirstCall(root, a);
    var s1 := GetLogger(Initial(root), "r.x.y", a);
    SecondCall(s1, root, a, b);
    var s2 := GetLogger(s1, "r", b);
    ThirdCall(s2, root, a, b);
    FourthCall(WithLevel(s2, b, ERROR), root, a, b, c);
  }
}
