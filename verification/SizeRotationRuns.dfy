/** Runs of a size-rotating handler: what is kept, what is dropped, and how large it all gets. */
module SizeRotationRuns {
  import opened FileSystem
  import opened Folds
  import opened SizeRotation

  /** Backups `k`, ..., 1, oldest first. */
  function Backups(files: Files, base: string, k: nat): seq<Line> {
    if k == 0 then [] else Lines(files, Numbered(base, k)) + Backups(files, base, k - 1)
  }

  /** Everything on disk, oldest line first. */
  function Archive(files: Files, base: string, n: nat): seq<Line> {
    Backups(files, base, n) + Lines(files, base)
  }

  // ----- a rollover of any directory

  lemma LinesRolled(files: Files, base: string, n: nat, k: nat)
    requires 1 <= k <= n
    ensures Lines(Rolled(files, base, n), base) == []
    ensures Lines(Rolled(files, base, n), Numbered(base, k)) ==
      if k == 1 then Lines(files, base)
      else if k < n || Numbered(base, n - 1) in files then Lines(files, Numbered(base, k - 1))
      else Lines(files, Numbered(base, n))
  {
    RolledAt(files, base, n, base);
    RolledAt(files, base, n, Numbered(base, k));
    NumberOf(base, n, k);
  }

  /** The backup `k` of `r` reads like the backup one below it in `files`. */
  ghost predicate Shifted(files: Files, r: Files, base: string, k: nat) {
    Lines(r, Numbered(base, k)) == if k <= 1 then Lines(files, base) else Lines(files, Numbered(base, k - 1))
  }

  lemma {:induction false} BackupsShifted(files: Files, r: Files, base: string, k: nat)
    requires 1 <= k && forall j :: 1 <= j <= k ==> Shifted(files, r, base, j)
    ensures Backups(r, base, k) == Archive(files, base, k - 1)
  {
    assert Shifted(files, r, base, k);
    if k > 1 {
      BackupsShifted(files, r, base, k - 1);
      Regroup(Lines(files, Numbered(base, k - 1)), Backups(files, base, k - 2), Lines(files, base));
    }
  }

  lemma Regroup<T>(a: seq<T>, b: seq<T>, c: seq<T>)
    ensures a + (b + c) == (a + b) + c
  {
  }

  /** What a rollover loses: the content of the last backup, unless a gap just below it spares it. */
  function Dropped(files: Files, base: string, n: nat): seq<Line> {
    if n >= 2 && Numbered(base, n - 1) !in files then [] else Lines(files, Numbered(base, n))
  }

  lemma ArchiveOpens(files: Files, base: string, n: nat)
    requires n >= 1
    ensures Archive(files, base, n) == Lines(files, Numbered(base, n)) + Archive(files, base, n - 1)
  {
    Regroup(Lines(files, Numbered(base, n)), Backups(files, base, n - 1), Lines(files, base));
  }

  /** What a shift up to `m` and a kept backup above it make of the archive. */
  lemma ShiftedArchive(files: Files, r: Files, base: string, n: nat)
    requires n >= 1 && Lines(r, base) == []
    requires forall j :: 1 <= j <= n ==> Shifted(files, r, base, j)
    ensures Archive(files, base, n) == Lines(files, Numbered(base, n)) + Archive(r, base, n)
  {
    ArchiveOpens(files, base, n);
    BackupsShifted(files, r, base, n);
    assert Backups(r, base, n) + [] == Backups(r, base, n);
  }

  lemma SparedArchive(files: Files, r: Files, base: string, n: nat)
    requires n >= 2 && Lines(r, base) == [] && Lines(files, Numbered(base, n - 1)) == []
    requires Lines(r, Numbered(base, n)) == Lines(files, Numbered(base, n))
    requires forall j :: 1 <= j <= n - 1 ==> Shifted(files, r, base, j)
    ensures Archive(files, base, n) == [] + Archive(r, base, n)
  {
    ArchiveOpens(files, base, n);
    ArchiveOpens(files, base, n - 1);
    BackupsShifted(files, r, base, n - 1);
    assert [] + Archive(files, base, n - 2) == Archive(files, base, n - 2);
    assert Backups(r, base, n) + [] == Backups(r, base, n);
    assert [] + Archive(r, base, n) == Archive(r, base, n);
  }

  lemma RolledShifts(files: Files, base: string, n: nat, hi: nat)
    requires hi <= n && (hi < n || n <= 1 || Numbered(base, n - 1) in files)
    ensures forall j :: 1 <= j <= hi ==> Shifted(files, Rolled(files, base, n), base, j)
  {
    forall j | 1 <= j <= hi
      ensures Shifted(files, Rolled(files, base, n), base, j)
    {
      LinesRolled(files, base, n, j);
    }
  }

  /** A rollover of any directory keeps everything but the dropped prefix, in order. */
  lemma RolloverDropsAtMostLast(files: Files, base: string, n: nat)
    requires n >= 1
    ensures Archive(files, base, n) == Dropped(files, base, n) + Archive(Rolled(files, base, n), base, n)
  {
    LinesRolled(files, base, n, n);
    if n >= 2 && Numbered(base, n - 1) !in files {
      RolledShifts(files, base, n, n - 1);
      SparedArchive(files, Rolled(files, base, n), base, n);
    } else {
      RolledShifts(files, base, n, n);
      ShiftedArchive(files, Rolled(files, base, n), base, n);
    }
  }

  // ----- runs

  /** A handler with a size limit and at least one backup, as the constructor configures it. */
  ghost predicate Rotating(c: Config) {
    c.maxBytes > 0 && c.backupCount >= 1 && c.append
  }

  function Emitting(c: Config): (State, Line) -> State {
    (s, line) => AfterEmit(c, s, line)
  }

  function Run(c: Config, s: State, lines: seq<Line>): State {
    Iterate(Emitting(c), s, lines, |lines|)
  }

  ghost predicate IsSuffix(a: seq<Line>, h: seq<Line>) {
    |a| <= |h| && h[|h| - |a|..] == a
  }

  /** A file that the size test let through: empty, a single line, or small enough before its last. */
  ghost predicate FitsLimit(lines: seq<Line>, maxBytes: int) {
    |lines| <= 1 || Bytes(lines[..|lines| - 1]) + lines[|lines| - 1].Chars() < maxBytes
  }

  /** The base name or one of the backup names. */
  ghost predicate IsOwn(c: Config, f: string)
    requires c.backupCount >= 0
  {
    f == c.base || Number(c.base, c.backupCount, f) > 0
  }

  /** The directory holds nothing but the handler's regular files, each within the limit. */
  ghost predicate Tidy(c: Config, files: Files)
    requires c.backupCount >= 0
  {
    forall f :: f in files ==>
      files[f].Regular? && FitsLimit(files[f].lines, c.maxBytes) && IsOwn(c, f)
  }

  ghost predicate Inv(c: Config, s: State, h: seq<Line>)
    requires c.backupCount >= 0
  {
    && Tidy(c, s.files) && IsSuffix(Archive(s.files, c.base, c.backupCount), h)
    && (s.open ==> c.base in s.files)
  }

  lemma {:induction false} SameBackups(f: Files, g: Files, base: string, k: nat)
    requires forall x :: x != base ==> Lines(f, x) == Lines(g, x)
    ensures Backups(f, base, k) == Backups(g, base, k)
  {
    if k > 0 {
      SameBackups(f, g, base, k - 1);
    }
  }

  lemma ReadyKeeps(c: Config, s: State, h: seq<Line>)
    requires Rotating(c) && Inv(c, s, h)
    ensures Inv(c, Ready(c, s), h) && Ready(c, s).open && c.base in Ready(c, s).files
    ensures Lines(Ready(c, s).files, c.base) == Lines(s.files, c.base)
  {
    var r := Ready(c, s);
    SameBackups(s.files, r.files, c.base, c.backupCount);
  }

  /** Every file after the renames was a file of the directory before. */
  lemma RolledFrom(files: Files, base: string, n: nat, f: string) returns (g: string)
    requires n >= 1 && f in Rolled(files, base, n)
    ensures g in files && Rolled(files, base, n)[f] == files[g]
    ensures f != base && (Number(base, n, f) == 0 ==> g == f)
  {
    RolledAt(files, base, n, f);
    var k := Number(base, n, f);
    g := if k == 0 then f else if k == 1 then base
         else if k < n || Numbered(base, n - 1) in files then Numbered(base, k - 1) else f;
  }

  lemma RolledTidy(c: Config, files: Files)
    requires Rotating(c) && Tidy(c, files)
    ensures Tidy(c, Rolled(files, c.base, c.backupCount)) && c.base !in Rolled(files, c.base, c.backupCount)
  {
    var r := Rolled(files, c.base, c.backupCount);
    RolledAt(files, c.base, c.backupCount, c.base);
    forall f | f in r
      ensures r[f].Regular? && FitsLimit(r[f].lines, c.maxBytes) && IsOwn(c, f)
    {
      var g := RolledFrom(files, c.base, c.backupCount, f);
      assert IsOwn(c, g);
    }
  }

  lemma SuffixOfSuffix(d: seq<Line>, a: seq<Line>, h: seq<Line>)
    requires IsSuffix(d + a, h)
    ensures IsSuffix(a, h)
  {
    assert h[|h| - |a|..] == h[|h| - |d + a|..][|d|..];
  }

  lemma RolloverKeeps(c: Config, s: State, h: seq<Line>)
    requires Rotating(c) && Inv(c, s, h)
    ensures Inv(c, AfterRollover(c, s), h)
    ensures Lines(AfterRollover(c, s).files, c.base) == []
  {
    var n := c.backupCount;
    var r := Rolled(s.files, c.base, n);
    RolledTidy(c, s.files);
    RolloverDropsAtMostLast(s.files, c.base, n);
    SuffixOfSuffix(Dropped(s.files, c.base, n), Archive(r, c.base, n), h);
    ReadyKeeps(c, State(r, false), h);
  }

  lemma WriteArchive(f: Files, base: string, n: nat, line: Line)
    requires base in f && f[base].Regular?
    ensures Archive(Written(f, base, line), base, n) == Archive(f, base, n) + [line]
  {
    SameBackups(f, Written(f, base, line), base, n);
    Regroup(Backups(f, base, n), Lines(f, base), [line]);
  }

  lemma SuffixGrows(a: seq<Line>, h: seq<Line>, line: Line)
    requires IsSuffix(a, h)
    ensures IsSuffix(a + [line], h + [line])
  {
  }

  lemma WriteKeeps(c: Config, s: State, h: seq<Line>, line: Line)
    requires Rotating(c) && Inv(c, s, h) && s.open
    requires Lines(s.files, c.base) == [] || Bytes(Lines(s.files, c.base)) + line.Chars() < c.maxBytes
    ensures Inv(c, s.(files := Written(s.files, c.base, line)), h + [line])
  {
    var lines := s.files[c.base].lines;
    assert (lines + [line])[..|lines + [line]| - 1] == lines;
    WriteArchive(s.files, c.base, c.backupCount, line);
    SuffixGrows(Archive(s.files, c.base, c.backupCount), h, line);
  }

  lemma EmitKeeps(c: Config, s: State, h: seq<Line>, line: Line)
    requires Rotating(c) && Inv(c, s, h)
    ensures Inv(c, AfterEmit(c, s, line), h + [line])
  {
    var (r, roll) := AfterCheck(c, s, line);
    ReadyKeeps(c, s, h);
    if roll {
      RolloverKeeps(c, r, h);
      ReadyKeeps(c, AfterRollover(c, r), h);
      WriteKeeps(c, Ready(c, AfterRollover(c, r)), h, line);
    } else {
      WriteKeeps(c, r, h, line);
    }
  }

  /** The invariant after `i` lines, over the lines `h` emitted before. */
  ghost predicate RunInv(c: Config, h: seq<Line>, lines: seq<Line>, s: State, i: nat)
    requires c.backupCount >= 0
  {
    i <= |lines| && Inv(c, s, h + lines[..i])
  }

  lemma RunStep(c: Config, h: seq<Line>, lines: seq<Line>, s: State, i: nat)
    requires Rotating(c) && i < |lines| && RunInv(c, h, lines, s, i)
    ensures RunInv(c, h, lines, AfterEmit(c, s, lines[i]), i + 1)
  {
    EmitKeeps(c, s, h + lines[..i], lines[i]);
    HistoryNext(h, lines, i);
  }

  lemma HistoryNext(h: seq<Line>, lines: seq<Line>, i: nat)
    requires i < |lines|
    ensures h + lines[..i + 1] == (h + lines[..i]) + [lines[i]]
  {
  }

  lemma RunKeeps(c: Config, s: State, h: seq<Line>, lines: seq<Line>)
    requires Rotating(c) && Inv(c, s, h)
    ensures Inv(c, Run(c, s, lines), h + lines)
  {
    var inv := (t: State, i: nat) => Rotating(c) && RunInv(c, h, lines, t, i);
    forall t: State, i: nat | i < |lines| && inv(t, i)
      ensures inv(Emitting(c)(t, lines[i]), i + 1)
    {
      RunStep(c, h, lines, t, i);
    }
    assert h + lines[..0] == h;
    IterateKeeps(Emitting(c), s, lines, |lines|, inv);
    assert lines[..|lines|] == lines;
  }

  /** The state a handler starts in on an empty directory. */
  function Start(c: Config): State {
    if c.delay then State(map[], false) else State(map[c.base := Regular([])], true)
  }

  lemma StartInv(c: Config)
    requires Rotating(c)
    ensures Inv(c, Start(c), [])
  {
    EmptyBackups(Start(c).files, c.base, c.backupCount);
  }

  lemma {:induction false} EmptyBackups(files: Files, base: string, k: nat)
    requires forall f :: f in files ==> f == base
    ensures Backups(files, base, k) == []
  {
    if k > 0 {
      EmptyBackups(files, base, k - 1);
    }
  }

  /** From an empty directory, the backups oldest first and then the current file are always a
      suffix of everything emitted, cut between lines; no other file exists. */
  lemma RunKeepsSuffix(c: Config, lines: seq<Line>)
    requires Rotating(c)
    ensures var files := Run(c, Start(c), lines).files;
      && IsSuffix(Archive(files, c.base, c.backupCount), lines)
      && (forall f :: f in files ==> IsOwn(c, f))
      && |files| <= c.backupCount + 1
  {
    StartInv(c);
    RunKeeps(c, Start(c), [], lines);
    assert [] + lines == lines;
    var files := Run(c, Start(c), lines).files;
    forall f | f in files
      ensures f in Names(c.base, c.backupCount)
    {
      assert IsOwn(c, f);
    }
    SubsetSize(files.Keys, Names(c.base, c.backupCount));
  }

  lemma SubsetSize<T>(a: set<T>, b: set<T>)
    requires a <= b
    ensures |a| <= |b|
  {
    var rest := b - a;
    assert b == a + rest;
  }

  /** One byte per character. */
  ghost predicate SingleByte(lines: seq<Line>) {
    forall line :: line in lines ==> line.bytes == line.Chars()
  }

  /** Under a single-byte encoding every file is below the limit or holds exactly one line. */
  lemma RunKeepsSize(c: Config, lines: seq<Line>, f: string)
    requires Rotating(c) && f in Run(c, Start(c), lines).files
    ensures Run(c, Start(c), lines).files[f].Regular?
    ensures var content := Run(c, Start(c), lines).files[f].lines;
      && FitsLimit(content, c.maxBytes)
      && (SingleByte(content) ==> Bytes(content) < c.maxBytes || |content| == 1)
  {
    StartInv(c);
    RunKeeps(c, Start(c), [], lines);
    var content := Run(c, Start(c), lines).files[f].lines;
    if content != [] {
      assert content[|content| - 1] in content;
    }
  }

  /** An upper bound on the size of one file: the limit counts the characters of its last line. */
  function FileBound(maxBytes: int, longest: nat, excess: nat): nat {
    if maxBytes - 1 + excess > longest then maxBytes - 1 + excess else longest
  }

  /** No line has more than `longest` bytes, nor more than `excess` bytes beyond its characters. */
  ghost predicate Bounded(lines: seq<Line>, longest: nat, excess: nat) {
    forall line :: line in lines ==> line.bytes <= longest && line.bytes <= line.Chars() + excess
  }

  lemma SizeOfFile(content: seq<Line>, maxBytes: int, longest: nat, excess: nat)
    requires FitsLimit(content, maxBytes) && Bounded(content, longest, excess)
    ensures Bytes(content) <= FileBound(maxBytes, longest, excess)
  {
    if content != [] {
      assert content[|content| - 1] in content;
      if |content| == 1 {
        assert Bytes(content[..0]) == 0;
      }
    }
  }

  lemma TimesNext(k: nat, b: nat)
    ensures (k + 1) * b == k * b + b
  {
  }

  ghost predicate AllBounded(files: Files, longest: nat, excess: nat) {
    forall f :: f in files && files[f].Regular? ==> Bounded(files[f].lines, longest, excess)
  }

  /** One file of a tidy directory, or none. */
  lemma SizeOfLines(c: Config, files: Files, f: string, longest: nat, excess: nat)
    requires Rotating(c) && Tidy(c, files) && AllBounded(files, longest, excess)
    ensures Bytes(Lines(files, f)) <= FileBound(c.maxBytes, longest, excess)
  {
    if f in files {
      SizeOfFile(files[f].lines, c.maxBytes, longest, excess);
    }
  }

  lemma {:induction false} SizeOfBackups(c: Config, files: Files, k: nat, longest: nat, excess: nat)
    requires Rotating(c) && Tidy(c, files) && AllBounded(files, longest, excess)
    ensures Bytes(Backups(files, c.base, k)) <= k * FileBound(c.maxBytes, longest, excess)
  {
    if k > 0 {
      SizeOfBackups(c, files, k - 1, longest, excess);
      BytesAppend(Lines(files, Numbered(c.base, k)), Backups(files, c.base, k - 1));
      SizeOfLines(c, files, Numbered(c.base, k), longest, excess);
      TimesNext(k - 1, FileBound(c.maxBytes, longest, excess));
    }
  }

  lemma {:induction false} BackupLines(files: Files, base: string, k: nat, j: nat, line: Line)
    requires 1 <= j <= k && line in Lines(files, Numbered(base, j))
    ensures line in Backups(files, base, k)
  {
    if j < k {
      BackupLines(files, base, k - 1, j, line);
    }
  }

  /** Lines on disk are lines of the archive. */
  lemma OwnLines(c: Config, files: Files, f: string, line: Line)
    requires Rotating(c) && Tidy(c, files) && f in files && line in files[f].lines
    ensures line in Archive(files, c.base, c.backupCount)
  {
    assert IsOwn(c, f);
    if f != c.base {
      BackupLines(files, c.base, c.backupCount, Number(c.base, c.backupCount, f), line);
    }
  }

  lemma BoundedFiles(c: Config, files: Files, longest: nat, excess: nat)
    requires Rotating(c) && Tidy(c, files) && Bounded(Archive(files, c.base, c.backupCount), longest, excess)
    ensures AllBounded(files, longest, excess)
  {
    forall f, line | f in files && files[f].Regular? && line in files[f].lines
      ensures line.bytes <= longest && line.bytes <= line.Chars() + excess
    {
      OwnLines(c, files, f, line);
    }
  }

  /** The size of an archive of tidy files. */
  lemma SizeOfArchive(c: Config, files: Files, longest: nat, excess: nat)
    requires Rotating(c) && Tidy(c, files) && Bounded(Archive(files, c.base, c.backupCount), longest, excess)
    ensures Bytes(Archive(files, c.base, c.backupCount)) <=
      (c.backupCount + 1) * FileBound(c.maxBytes, longest, excess)
  {
    BoundedFiles(c, files, longest, excess);
    SizeOfBackups(c, files, c.backupCount, longest, excess);
    SizeOfLines(c, files, c.base, longest, excess);
    BytesAppend(Backups(files, c.base, c.backupCount), Lines(files, c.base));
    TimesNext(c.backupCount, FileBound(c.maxBytes, longest, excess));
  }

  /** Disk use of a whole run in any encoding: at most n + 1 times the larger of the longest line and
      the limit plus what a line can have in bytes beyond its characters. */
  lemma RunBoundsDisk(c: Config, lines: seq<Line>, longest: nat, excess: nat)
    requires Rotating(c) && Bounded(lines, longest, excess)
    ensures Bytes(Archive(Run(c, Start(c), lines).files, c.base, c.backupCount)) <=
      (c.backupCount + 1) * FileBound(c.maxBytes, longest, excess)
  {
    StartInv(c);
    RunKeeps(c, Start(c), [], lines);
    assert [] + lines == lines;
    var files := Run(c, Start(c), lines).files;
    SuffixMembers(Archive(files, c.base, c.backupCount), lines);
    SizeOfArchive(c, files, longest, excess);
  }

  lemma SuffixMembers(a: seq<Line>, h: seq<Line>)
    requires IsSuffix(a, h)
    ensures forall line :: line in a ==> line in h
  {
    assert h[|h| - |a|..] == a;
  }

  // ----- the limit in bytes

  /** Every character takes at least one byte. */
  ghost predicate Encoded(lines: seq<Line>) {
    forall line :: line in lines ==> line.Chars() <= line.bytes
  }

  /** Over this run, the file `f` is below the limit in bytes or a single line, if it ends with `last`. */
  ghost predicate BelowLimit(c: Config, lines: seq<Line>, f: string, last: Line) {
    var content := Lines(Run(c, Start(c), lines).files, f);
    content != [] && content[|content| - 1] == last ==> Bytes(content) < c.maxBytes || |content| == 1
  }

  ghost predicate NeverExceeds(c: Config, last: Line) {
    forall lines, f {:trigger BelowLimit(c, lines, f, last)} :: Encoded(lines) ==> BelowLimit(c, lines, f, last)
  }

  /** The line is short enough to be written to a file that is not empty, and has more bytes than
      the characters that the size test counts. */
  predicate CanExceed(c: Config, last: Line) {
    last.Chars() + 1 < c.maxBytes && last.Chars() < last.bytes
  }

  lemma {:induction false} EncodedBytes(lines: seq<Line>)
    requires Encoded(lines)
    ensures |lines| <= Bytes(lines)
  {
    if lines != [] {
      assert lines[|lines| - 1] in lines;
      EncodedBytes(lines[..|lines| - 1]);
    }
  }

  /** The lines of a file are lines of the run. */
  lemma ContentEncoded(c: Config, lines: seq<Line>, f: string)
    requires Rotating(c) && Encoded(lines)
    ensures Encoded(Lines(Run(c, Start(c), lines).files, f))
  {
    StartInv(c);
    RunKeeps(c, Start(c), [], lines);
    assert [] + lines == lines;
    var files := Run(c, Start(c), lines).files;
    SuffixMembers(Archive(files, c.base, c.backupCount), lines);
    forall line | line in Lines(files, f)
      ensures line.Chars() <= line.bytes
    {
      OwnLines(c, files, f, line);
    }
  }

  lemma BelowUnlessExceeding(c: Config, lines: seq<Line>, f: string, last: Line)
    requires Rotating(c) && Encoded(lines) && !CanExceed(c, last)
    ensures BelowLimit(c, lines, f, last)
  {
    var content := Lines(Run(c, Start(c), lines).files, f);
    if |content| > 1 && content[|content| - 1] == last {
      RunKeepsSize(c, lines, f);
      ContentEncoded(c, lines, f);
      EncodedBytes(content[..|content| - 1]);
    }
  }

  /** A line that leaves one byte less than `last` has characters. */
  function Filler(c: Config, last: Line): Line
    requires CanExceed(c, last)
  {
    var n := c.maxBytes - last.Chars() - 1;
    Line(seq(n - 1, _ => 'x'), n)
  }

  lemma FillerFits(c: Config, last: Line)
    requires Rotating(c) && CanExceed(c, last)
    ensures var s := AfterEmit(c, Start(c), Filler(c, last));
      s.open && c.base in s.files && s.files[c.base] == Regular([Filler(c, last)])
  {
  }

  lemma RunOfTwo(c: Config, s: State, a: Line, b: Line)
    ensures Run(c, s, [a, b]) == AfterEmit(c, AfterEmit(c, s, a), b)
  {
    var step, lines := Emitting(c), [a, b];
    assert Iterate(step, s, lines, 1) == step(Iterate(step, s, lines, 0), a);
    assert Iterate(step, s, lines, 2) == step(Iterate(step, s, lines, 1), b);
  }

  /** Two lines after which the file exceeds the limit in bytes. */
  lemma FillerExceeds(c: Config, last: Line)
    requires Rotating(c) && CanExceed(c, last)
    ensures Encoded([Filler(c, last), last]) && !BelowLimit(c, [Filler(c, last), last], c.base, last)
  {
    var a := Filler(c, last);
    var lines, s := [a, last], AfterEmit(c, Start(c), a);
    FillerFits(c, last);
    RunOfTwo(c, Start(c), a, last);
    assert [a][..0] == [] && Bytes([a]) == a.bytes;
    assert lines[..1] == [a] && [a] + [last] == lines && Bytes(lines) == a.bytes + last.bytes;
    assert Lines(AfterEmit(c, s, last).files, c.base) == lines;
  }

  /** Files that end with `last` are below the limit in bytes, or a single line, over all runs exactly
      if it has no more bytes than characters or is too long to share a file. */
  lemma ByteLimitExactly(c: Config, last: Line)
    requires Rotating(c) && last.Chars() <= last.bytes
    ensures NeverExceeds(c, last) <==> !CanExceed(c, last)
  {
    if CanExceed(c, last) {
      FillerExceeds(c, last);
    } else {
      forall lines, f | Encoded(lines)
        ensures BelowLimit(c, lines, f, last)
      {
        BelowUnlessExceeding(c, lines, f, last);
      }
    }
  }

  // ----- without backups

  /** The size limit holds over every run from an empty directory. */
  ghost predicate LimitHolds(c: Config) {
    forall lines, f {:trigger InLimit(c, lines, f)} :: InLimit(c, lines, f)
  }

  ghost predicate InLimit(c: Config, lines: seq<Line>, f: string) {
    var files := Run(c, Start(c), lines).files;
    f in files ==> files[f].Regular? && FitsLimit(files[f].lines, c.maxBytes)
  }

  /** The handler's file is regular or missing, and there if the stream is open. */
  ghost predicate Sane(c: Config, s: State) {
    (s.open ==> c.base in s.files) && (c.base in s.files ==> s.files[c.base].Regular?)
  }

  /** From `s0` on, the file has grown by `h` and no other file has changed. */
  ghost predicate Grown(c: Config, s0: State, s: State, h: seq<Line>) {
    && Sane(c, s) && Lines(s.files, c.base) == Lines(s0.files, c.base) + h
    && forall f :: f != c.base ==> At(s.files, f) == At(s0.files, f)
  }

  lemma EmitGrows(c: Config, s0: State, s: State, h: seq<Line>, line: Line)
    requires c.backupCount <= 0 && c.append && Grown(c, s0, s, h)
    ensures Grown(c, s0, AfterEmit(c, s, line), h + [line])
  {
    Regroup(Lines(s0.files, c.base), h, [line]);
  }

  /** Without backups nothing is ever rotated away, on any directory: the file just keeps growing. */
  lemma NoBackupsKeepEverything(c: Config, s0: State, lines: seq<Line>)
    requires c.backupCount <= 0 && c.append && Sane(c, s0)
    ensures Grown(c, s0, Run(c, s0, lines), lines)
  {
    var inv := (s: State, i: nat) => i <= |lines| && Grown(c, s0, s, lines[..i]);
    forall s: State, i: nat | i < |lines| && inv(s, i)
      ensures inv(Emitting(c)(s, lines[i]), i + 1)
    {
      EmitGrows(c, s0, s, lines[..i], lines[i]);
      assert lines[..i + 1] == lines[..i] + [lines[i]];
    }
    assert Lines(s0.files, c.base) + lines[..0] == Lines(s0.files, c.base);
    IterateKeeps(Emitting(c), s0, lines, |lines|, inv);
    assert lines[..|lines|] == lines;
  }

  /** Two lines, each as long as the limit allows a file to be. */
  function Oversized(c: Config): seq<Line>
    requires c.maxBytes > 0
  {
    var line := Line(seq(c.maxBytes, _ => 'x'), c.maxBytes + 1);
    [line, line]
  }

  /** The run that exceeds the limit when there are no backups. */
  lemma OversizedExceeds(c: Config)
    requires c.maxBytes > 0 && c.append && c.backupCount <= 0
    ensures !InLimit(c, Oversized(c), c.base)
  {
    var lines := Oversized(c);
    NoBackupsKeepEverything(c, Start(c), lines);
    assert Lines(Start(c).files, c.base) + lines == lines;
    assert lines[..1] == [lines[0]] && Bytes(lines[..1]) >= 0;
    assert lines[1].Chars() >= c.maxBytes;
  }

  /** The size limit holds over all runs exactly when at least one backup is kept. */
  lemma LimitNeedsBackups(c: Config)
    requires c.maxBytes > 0 && c.append
    ensures LimitHolds(c) <==> c.backupCount >= 1
  {
    if c.backupCount >= 1 {
      forall lines, f
        ensures InLimit(c, lines, f)
      {
        if f in Run(c, Start(c), lines).files {
          RunKeepsSize(c, lines, f);
        }
      }
    } else {
      OversizedExceeds(c);
    }
  }
}
