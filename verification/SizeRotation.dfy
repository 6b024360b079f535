/** Rotation by size: the rename chain of a rollover, and what a run of emits leaves on disk. */
module SizeRotation {
  import opened Wrappers
  import opened FileSystem

  // ----- one rollover, as a function of the whole directory

  /** The backup number of a name among 1..n, or 0. */
  function Number(base: string, n: nat, f: string): (k: nat)
    ensures k <= n && (k > 0 ==> f == Numbered(base, k))
    ensures k == 0 ==> forall i :: 1 <= i <= n ==> f != Numbered(base, i)
  {
    if n == 0 then 0 else if f == Numbered(base, n) then n else Number(base, n - 1, f)
  }

  lemma NumberOf(base: string, n: nat, k: nat)
    requires 1 <= k <= n
    ensures Number(base, n, Numbered(base, k)) == k
  {
    NumberedInjective(base, Number(base, n, Numbered(base, k)), k);
  }

  /** Where the file under `f` after a rollover with `n` backups comes from. */
  function Source(files: Files, base: string, n: nat, f: string): Option<File> {
    var k := Number(base, n, f);
    if f == base then None
    else if k == 0 then At(files, f)
    else if k == 1 then At(files, base)
    else if k < n || Numbered(base, n - 1) in files then At(files, Numbered(base, k - 1))
    else At(files, f)
  }

  function Names(base: string, n: nat): (s: set<string>)
    ensures base in s && forall k :: 1 <= k <= n ==> Numbered(base, k) in s
    ensures forall f :: f in s ==> f == base || Number(base, n, f) > 0
    ensures |s| <= n + 1
  {
    if n == 0 then {base} else Names(base, n - 1) + {Numbered(base, n)}
  }

  /** The directory after the renames of a rollover, before the base file is reopened. */
  function Rolled(files: Files, base: string, n: nat): Files {
    map f | f in files.Keys + Names(base, n) && Source(files, base, n, f).Some? :: Source(files, base, n, f).value
  }

  lemma RolledAt(files: Files, base: string, n: nat, f: string)
    requires n >= 1
    ensures At(Rolled(files, base, n), f) == Source(files, base, n, f)
  {
    if Number(base, n, f) > 0 {
      assert f in Names(base, n);
    }
  }

  /** A rollover is an exact shift, whatever the directory holds, gaps included. */
  lemma RolloverShifts(files: Files, base: string, n: nat, k: nat)
    requires 1 <= k <= n
    ensures var r := Rolled(files, base, n);
      && base !in r
      && (k == 1 ==> At(r, Numbered(base, 1)) == At(files, base))
      && (1 < k < n ==> At(r, Numbered(base, k)) == At(files, Numbered(base, k - 1)))
      && (1 < k == n ==>
            At(r, Numbered(base, n)) ==
              At(files, Numbered(base, if Numbered(base, n - 1) in files then n - 1 else n)))
      && forall f :: f !in Names(base, n) ==> At(r, f) == At(files, f)
  {
    RolledAt(files, base, n, base);
    RolledAt(files, base, n, Numbered(base, k));
    NumberOf(base, n, k);
    forall f | f !in Names(base, n)
      ensures At(Rolled(files, base, n), f) == At(files, f)
    {
      RolledAt(files, base, n, f);
    }
  }

  // ----- the handler

  datatype Config = Config(base: string, maxBytes: int, backupCount: int, delay: bool, append: bool)

  /** The directory and whether the handler's stream is open. */
  datatype State = State(files: Files, open: bool)

  /** `doRollover`. */
  function AfterRollover(c: Config, s: State): State {
    var files := if c.backupCount > 0 then Rolled(s.files, c.base, c.backupCount) else s.files;
    if c.delay then State(files, false) else State(Opened(files, c.base, c.append), true)
  }

  /** The stream opened if it was not. */
  function Ready(c: Config, s: State): State {
    if s.open then s else State(Opened(s.files, c.base, c.append), true)
  }

  predicate IsSpecial(c: Config, s: State) {
    c.base in s.files && s.files[c.base].Special?
  }

  /** `shouldRollover`: the verdict, and the state with the stream opened on the way. */
  function AfterCheck(c: Config, s: State, line: Line): (State, bool) {
    if IsSpecial(c, s) then (s, false)
    else
      var r := Ready(c, s);
      (r, c.maxBytes > 0 && Bytes(Lines(r.files, c.base)) + line.Chars() >= c.maxBytes)
  }

  /** `emit`. */
  function AfterEmit(c: Config, s: State, line: Line): State {
    var (r, roll) := AfterCheck(c, s, line);
    var t := Ready(c, if roll then AfterRollover(c, r) else r);
    if c.base in t.files then t.(files := Written(t.files, c.base, line)) else t
  }

  class RotatingFileHandler {
    const config: Config
    const dir: Directory
    var stream: bool

    ghost predicate Valid()
      reads this, dir
    {
      stream ==> config.base in dir.files
    }

    ghost function View(): State
      reads this, dir
    {
      State(dir.files, stream)
    }

    /** A size limit forces mode "a"; without `delay` the file is opened at once. */
    constructor (dir: Directory, filename: string, append: bool, maxBytes: int, backupCount: int, delay: bool)
      modifies dir
      ensures Valid() && this.dir == dir
      ensures config == Config(filename, maxBytes, backupCount, delay, maxBytes > 0 || append)
      ensures View() == if delay then State(old(dir.files), false)
                        else State(Opened(old(dir.files), filename, maxBytes > 0 || append), true)
      ensures Lines(dir.files, filename) ==
        if delay || append || maxBytes > 0 then Lines(old(dir.files), filename) else []
    {
      this.dir := dir;
      config := Config(filename, maxBytes, backupCount, delay, maxBytes > 0 || append);
      stream := !delay;
      new;
      if !delay {
        dir.Open(filename, config.append);
      }
    }

    method DoRollover()
      requires Valid()
      modifies this`stream, dir
      ensures Valid() && View() == AfterRollover(config, old(View()))
    {
      stream := false;
      if config.backupCount > 0 {
        RenameChain();
      }
      if !config.delay {
        dir.Open(config.base, config.append);
        stream := true;
      }
    }

    /** The renames of a rollover, oldest backup first. */
    method RenameChain()
      requires config.backupCount > 0
      modifies dir
      ensures dir.files == Rolled(old(dir.files), config.base, config.backupCount)
    {
      var base, n := config.base, config.backupCount;
      ghost var f0 := dir.files;
      var i := n - 1;
      while i > 0
        invariant 0 <= i <= n - 1
        invariant ShiftedFrom(f0, dir.files, base, n, i)
      {
        var sfn := Numbered(base, i);
        var dfn := Numbered(base, i + 1);
        ghost var f1 := dir.files;
        if sfn in dir.files {
          if dfn in dir.files {
            dir.Remove(dfn);
          }
          Distinct(base, n, i);
          dir.Rename(sfn, dfn);
        }
        ShiftStep(f0, f1, dir.files, base, n, i);
        i := i - 1;
      }
      var dfn := Numbered(base, 1);
      ghost var f1 := dir.files;
      if dfn in dir.files {
        dir.Remove(dfn);
      }
      if base in dir.files {
        dir.Rename(base, dfn);
      }
      ShiftDone(f0, f1, dir.files, base, n);
    }

    method ShouldRollover(line: Line) returns (roll: bool)
      requires Valid()
      modifies this`stream, dir
      ensures Valid() && (View(), roll) == AfterCheck(config, old(View()), line)
    {
      if config.base in dir.files && dir.files[config.base].Special? {
        return false;
      }
      if !stream {
        dir.Open(config.base, config.append);
        stream := true;
      }
      if config.maxBytes > 0 {
        if Bytes(Lines(dir.files, config.base)) + line.Chars() >= config.maxBytes {
          return true;
        }
      }
      return false;
    }

    method Emit(line: Line)
      requires Valid()
      modifies this`stream, dir
      ensures Valid() && stream && View() == AfterEmit(config, old(View()), line)
    {
      var roll := ShouldRollover(line);
      if roll {
        DoRollover();
      }
      if !stream {
        dir.Open(config.base, config.append);
        stream := true;
      }
      dir.Write(config.base, line);
    }
  }

  // ----- the rename loop

  lemma Distinct(base: string, n: nat, i: nat)
    ensures Numbered(base, i) != Numbered(base, i + 1)
  {
    if Numbered(base, i) == Numbered(base, i + 1) {
      NumberedInjective(base, i, i + 1);
    }
  }

  /** The state of the loop before it handles number `i`: numbers above `i + 1` hold what was one
      below, number `i + 1` has been moved away, the rest is untouched. */
  ghost predicate ShiftedFrom(f0: Files, f: Files, base: string, n: nat, i: nat) {
    forall g :: At(f, g) == Midway(f0, base, n, i, g)
  }

  ghost function Midway(f0: Files, base: string, n: nat, i: nat, g: string): Option<File> {
    var k := Number(base, n, g);
    if k == 0 || k <= i || g == base || n <= i + 1 then At(f0, g)
    else if k == i + 1 then None
    else if k < n || Numbered(base, n - 1) in f0 then At(f0, Numbered(base, k - 1))
    else At(f0, g)
  }

  lemma ShiftStep(f0: Files, f1: Files, f2: Files, base: string, n: nat, i: nat)
    requires 1 <= i <= n - 1 && ShiftedFrom(f0, f1, base, n, i)
    requires f2 == if Numbered(base, i) !in f1 then f1
      else (f1 - {Numbered(base, i + 1)} - {Numbered(base, i)})[Numbered(base, i + 1) := f1[Numbered(base, i)]]
    ensures ShiftedFrom(f0, f2, base, n, i - 1)
  {
    NumberOf(base, n, i);
    NumberOf(base, n, i + 1);
    assert At(f1, Numbered(base, i)) == Midway(f0, base, n, i, Numbered(base, i));
    Distinct(base, n, i);
    forall g
      ensures At(f2, g) == Midway(f0, base, n, i - 1, g)
    {
      assert At(f1, g) == Midway(f0, base, n, i, g);
      var k := Number(base, n, g);
      if k == i {
        assert g == Numbered(base, i);
      } else if k == i + 1 {
        assert g == Numbered(base, i + 1);
      }
    }
  }

  lemma ShiftDoneAt(f0: Files, f1: Files, f2: Files, base: string, n: nat, g: string)
    requires 1 <= n && ShiftedFrom(f0, f1, base, n, 0)
    requires var d := Numbered(base, 1);
      f2 == if base in f1 then (f1 - {d} - {base})[d := f1[base]] else f1 - {d}
    ensures At(f2, g) == Source(f0, base, n, g)
  {
    NumberOf(base, n, 1);
    assert At(f1, g) == Midway(f0, base, n, 0, g);
    assert At(f1, base) == Midway(f0, base, n, 0, base);
  }

  lemma ShiftDone(f0: Files, f1: Files, f2: Files, base: string, n: nat)
    requires 1 <= n && ShiftedFrom(f0, f1, base, n, 0)
    requires var d := Numbered(base, 1);
      f2 == if base in f1 then (f1 - {d} - {base})[d := f1[base]] else f1 - {d}
    ensures f2 == Rolled(f0, base, n)
  {
    forall g
      ensures At(f2, g) == At(Rolled(f0, base, n), g)
    {
      RolledAt(f0, base, n, g);
      ShiftDoneAt(f0, f1, f2, base, n, g);
    }
    SameFiles(f2, Rolled(f0, base, n));
  }

  lemma SameFiles(f: Files, g: Files)
    requires forall x :: At(f, x) == At(g, x)
    ensures f == g
  {
    forall x
      ensures x in f <==> x in g
      ensures x in f ==> f[x] == g[x]
    {
      assert At(f, x) == At(g, x);
    }
  }
}
