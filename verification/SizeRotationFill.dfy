/** When a size rotation happens: exactly when the next line would reach the limit, so that no file is
    closed before it is full; and never without a limit. */
module SizeRotationFill {
  import opened FileSystem
  import opened Folds
  import opened SizeRotation
  import opened SizeRotationRuns

  // ----- one emit, spelled out

  /** The line is appended to the handler's file and no other file changes. */
  ghost predicate Appended(c: Config, s: State, t: State, line: Line) {
    && Lines(t.files, c.base) == Lines(s.files, c.base) + [line]
    && forall f :: f != c.base ==> At(t.files, f) == At(s.files, f)
  }

  /** The file becomes the first backup, every backup the next one, and the line starts a new file. */
  ghost predicate Shifts(c: Config, s: State, t: State, line: Line) {
    && Lines(t.files, c.base) == [line]
    && Lines(t.files, Numbered(c.base, 1)) == Lines(s.files, c.base)
    && forall k :: 1 < k <= c.backupCount ==> MovedUp(c, s, t, k)
  }

  /** Backup `k` was the one below it; only the last keeps its file where there was none below. */
  ghost predicate MovedUp(c: Config, s: State, t: State, k: nat)
    requires k > 1
  {
    k < c.backupCount || Numbered(c.base, k - 1) in s.files ==>
      At(t.files, Numbered(c.base, k)) == At(s.files, Numbered(c.base, k - 1))
  }

  /** The bytes in the file and the characters of the line reach the limit. */
  predicate Reached(c: Config, s: State, line: Line) {
    c.maxBytes > 0 && Bytes(Lines(s.files, c.base)) + |line.text| + 1 >= c.maxBytes
  }

  lemma EmitAppends(c: Config, s: State, line: Line)
    requires c.append && Sane(c, s) && (c.backupCount <= 0 || !Reached(c, s, line))
    ensures Appended(c, s, AfterEmit(c, s, line), line) && Sane(c, AfterEmit(c, s, line))
  {
  }

  lemma WrittenToNew(files: Files, f: string, append: bool, line: Line)
    requires f !in files
    ensures Written(Opened(files, f, append), f, line) == files[f := Regular([line])]
  {
    assert files[f := Regular([])][f := Regular([line])] == files[f := Regular([line])];
    assert [] + [line] == [line];
  }

  /** What is left to do after the renames, whether the file is reopened at once or not. */
  lemma Restarts(c: Config, rolled: Files, line: Line)
    requires c.append && c.base !in rolled
    ensures var t := Ready(c, if c.delay then State(rolled, false) else State(Opened(rolled, c.base, c.append), true));
      t.open && c.base in t.files && Written(t.files, c.base, line) == rolled[c.base := Regular([line])]
  {
    WrittenToNew(rolled, c.base, true, line);
  }

  /** The directory after an emit that rolls over. */
  lemma EmitRolls(c: Config, s: State, line: Line)
    requires c.append && Sane(c, s) && c.backupCount >= 1 && Reached(c, s, line)
    ensures var (t, rolled) := (AfterEmit(c, s, line), Rolled(Ready(c, s).files, c.base, c.backupCount));
      t.open && c.base !in rolled && t.files == rolled[c.base := Regular([line])]
  {
    var rolled := Rolled(Ready(c, s).files, c.base, c.backupCount);
    RolloverShifts(Ready(c, s).files, c.base, c.backupCount, 1);
    Restarts(c, rolled, line);
    assert AfterCheck(c, s, line) == (Ready(c, s), true);
  }

  /** Where backup `k` of `t` comes from. */
  ghost predicate ComesFrom(c: Config, s: State, t: State, k: nat)
    requires k >= 1
  {
    At(t.files, Numbered(c.base, k)) ==
      if k == 1 then At(Ready(c, s).files, c.base)
      else if k < c.backupCount || Numbered(c.base, k - 1) in s.files then At(s.files, Numbered(c.base, k - 1))
      else At(s.files, Numbered(c.base, k))
  }

  lemma ShiftedAt(c: Config, s: State, line: Line, k: nat)
    requires c.append && Sane(c, s) && c.backupCount >= 1 && Reached(c, s, line) && 1 <= k <= c.backupCount
    ensures ComesFrom(c, s, AfterEmit(c, s, line), k)
  {
    EmitRolls(c, s, line);
    RolloverShifts(Ready(c, s).files, c.base, c.backupCount, k);
  }

  lemma EmitStartsFile(c: Config, s: State, line: Line)
    requires c.append && Sane(c, s) && c.backupCount >= 1 && Reached(c, s, line)
    ensures var t := AfterEmit(c, s, line);
      Sane(c, t) && t.open && c.base in t.files && Lines(t.files, c.base) == [line]
  {
    EmitRolls(c, s, line);
  }

  lemma EmitShifts(c: Config, s: State, line: Line)
    requires c.append && Sane(c, s) && c.backupCount >= 1 && Reached(c, s, line)
    ensures Shifts(c, s, AfterEmit(c, s, line), line) && Sane(c, AfterEmit(c, s, line))
  {
    EmitStartsFile(c, s, line);
    ShiftedAt(c, s, line, 1);
    forall k | 1 < k <= c.backupCount
      ensures MovedUp(c, s, AfterEmit(c, s, line), k)
    {
      ShiftedAt(c, s, line, k);
    }
  }

  /** A handler of a regular or missing file shifts exactly if there are backups and the limit is
      reached; else it appends. */
  lemma EmitExactly(c: Config, s: State, line: Line)
    requires c.append && Sane(c, s)
    ensures var t := AfterEmit(c, s, line);
      && Sane(c, t) && t.open && c.base in t.files
      && if c.backupCount >= 1 && Reached(c, s, line) then Shifts(c, s, t, line) else Appended(c, s, t, line)
  {
    if c.backupCount >= 1 && Reached(c, s, line) {
      EmitShifts(c, s, line);
    } else {
      EmitAppends(c, s, line);
    }
  }

  /** A file that is not regular is never rolled over, and nothing is added to it. */
  lemma SpecialIsLeftAlone(c: Config, s: State, line: Line)
    requires c.base in s.files && s.files[c.base].Special?
    ensures AfterEmit(c, s, line).files == s.files
  {
  }

  // ----- without a limit

  lemma GrownNext(c: Config, s0: State, s: State, t: State, h: seq<Line>, line: Line)
    requires Grown(c, s0, s, h) && Appended(c, s, t, line) && Sane(c, t)
    ensures Grown(c, s0, t, h + [line])
  {
    Regroup(Lines(s0.files, c.base), h, [line]);
  }

  /** Without a limit nothing is ever rotated, on any directory: the file just keeps growing. */
  lemma NoLimitKeepsEverything(c: Config, s0: State, lines: seq<Line>)
    requires c.maxBytes <= 0 && c.append && Sane(c, s0)
    ensures Grown(c, s0, Run(c, s0, lines), lines)
  {
    var inv := (s: State, i: nat) => i <= |lines| && Grown(c, s0, s, lines[..i]);
    forall s: State, i: nat | i < |lines| && inv(s, i)
      ensures inv(Emitting(c)(s, lines[i]), i + 1)
    {
      EmitAppends(c, s, lines[i]);
      GrownNext(c, s0, s, AfterEmit(c, s, lines[i]), lines[..i], lines[i]);
      assert lines[..i + 1] == lines[..i] + [lines[i]];
    }
    assert Lines(s0.files, c.base) + lines[..0] == Lines(s0.files, c.base);
    IterateKeeps(Emitting(c), s0, lines, |lines|, inv);
    assert lines[..|lines|] == lines;
  }

  // ----- no file is closed early

  /** The handler's files, newest first. */
  function Nth(c: Config, k: nat): string {
    if k == 0 then c.base else Numbered(c.base, k)
  }

  /** File `k + 1` could not have taken the first line of the next newer file. */
  ghost predicate FullBefore(c: Config, files: Files, k: nat) {
    var (older, newer) := (Lines(files, Nth(c, k + 1)), Lines(files, Nth(c, k)));
    Nth(c, k + 1) in files && newer != [] ==> Bytes(older) + |newer[0].text| + 1 >= c.maxBytes
  }

  /** There is no older file without the newer one, and no backup beside an empty file. */
  ghost predicate NoGap(c: Config, files: Files, k: nat) {
    Nth(c, k + 1) in files ==> Nth(c, k) in files && (k == 0 ==> Lines(files, c.base) != [])
  }

  ghost predicate FilledAt(c: Config, files: Files, k: nat) {
    FullBefore(c, files, k) && NoGap(c, files, k)
  }

  ghost predicate Filled(c: Config, s: State) {
    Sane(c, s) && forall k :: 0 <= k < c.backupCount ==> FilledAt(c, s.files, k)
  }

  lemma AppendFills(c: Config, s: State, t: State, line: Line, k: nat)
    requires FilledAt(c, s.files, k) && Appended(c, s, t, line) && c.base in t.files
    ensures FilledAt(c, t.files, k)
  {
    assert At(t.files, Nth(c, k + 1)) == At(s.files, Nth(c, k + 1));
    if k > 0 {
      assert At(t.files, Nth(c, k)) == At(s.files, Nth(c, k));
    }
  }

  /** Without gaps every file moves up by one. */
  lemma MovesUp(c: Config, s: State, t: State, k: nat)
    requires 1 <= k < c.backupCount && FilledAt(c, s.files, k) && ComesFrom(c, s, t, k + 1)
    ensures At(t.files, Nth(c, k + 1)) == At(s.files, Nth(c, k))
  {
  }

  lemma FirstMovesUp(c: Config, s: State, t: State)
    requires Rotating(c) && Sane(c, s) && ComesFrom(c, s, t, 1)
    ensures Nth(c, 1) in t.files && Lines(t.files, Nth(c, 1)) == Lines(s.files, c.base)
  {
  }

  lemma FilledMoves(c: Config, f: Files, g: Files, k: nat)
    requires k >= 1 && FilledAt(c, f, k - 1) && At(g, Nth(c, k + 1)) == At(f, Nth(c, k))
    requires if k == 1 then Nth(c, 1) in g && Lines(g, Nth(c, 1)) == Lines(f, c.base)
             else At(g, Nth(c, k)) == At(f, Nth(c, k - 1))
    ensures FilledAt(c, g, k)
  {
    assert Lines(g, Nth(c, k + 1)) == Lines(f, Nth(c, k)) && Lines(g, Nth(c, k)) == Lines(f, Nth(c, k - 1));
  }

  lemma ShiftFills(c: Config, s: State, t: State, line: Line, k: nat)
    requires Rotating(c) && Filled(c, s) && k < c.backupCount && Reached(c, s, line)
    requires c.base in t.files && Lines(t.files, c.base) == [line]
    requires forall j :: 1 <= j <= c.backupCount ==> ComesFrom(c, s, t, j)
    ensures FilledAt(c, t.files, k)
  {
    FirstMovesUp(c, s, t);
    if k > 0 {
      assert FilledAt(c, s.files, k) && FilledAt(c, s.files, k - 1);
      MovesUp(c, s, t, k);
      if k > 1 {
        MovesUp(c, s, t, k - 1);
      }
      FilledMoves(c, s.files, t.files, k);
    }
  }

  lemma EmitFills(c: Config, s: State, line: Line)
    requires Rotating(c) && Filled(c, s)
    ensures Filled(c, AfterEmit(c, s, line))
  {
    EmitExactly(c, s, line);
    if Reached(c, s, line) {
      EmitStartsFile(c, s, line);
      forall j | 1 <= j <= c.backupCount
        ensures ComesFrom(c, s, AfterEmit(c, s, line), j)
      {
        ShiftedAt(c, s, line, j);
      }
    }
    forall k | 0 <= k < c.backupCount
      ensures FilledAt(c, AfterEmit(c, s, line).files, k)
    {
      if Reached(c, s, line) {
        ShiftFills(c, s, AfterEmit(c, s, line), line, k);
      } else {
        AppendFills(c, s, AfterEmit(c, s, line), line, k);
      }
    }
  }

  /** Over any run from an empty directory, no file was closed while the next line would still have
      fitted: each backup, with the first line of the next newer file, reaches the limit. */
  lemma RunFillsFiles(c: Config, lines: seq<Line>, k: nat)
    requires Rotating(c) && k < c.backupCount
    ensures FullBefore(c, Run(c, Start(c), lines).files, k)
  {
    var inv := (s: State, i: nat) => Filled(c, s);
    forall s: State, i: nat | i < |lines| && inv(s, i)
      ensures inv(Emitting(c)(s, lines[i]), i + 1)
    {
      EmitFills(c, s, lines[i]);
    }
    assert forall j :: 0 <= j < c.backupCount ==> FilledAt(c, Start(c).files, j);
    IterateKeeps(Emitting(c), Start(c), lines, |lines|, inv);
    assert FilledAt(c, Run(c, Start(c), lines).files, k);
  }
}
