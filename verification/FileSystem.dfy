/** A directory of log files: a file is a sequence of written lines; numbered backup names. */
module FileSystem {
  import opened Wrappers
  import opened Decimals

  /** One formatted record: its text without the terminator, and its encoded size with it. */
  datatype Line = Line(text: string, bytes: nat) {
    /** The length of `"%s\n" % text`, which the rollover test counts instead of bytes. */
    function Chars(): nat {
      |text| + 1
    }
  }

  /** A regular file, or anything else a name may stand for. */
  datatype File = Regular(lines: seq<Line>) | Special

  type Files = map<string, File>

  function At(files: Files, f: string): Option<File> {
    if f in files then Some(files[f]) else None
  }

  /** What a reader finds under a name. */
  function Lines(files: Files, f: string): seq<Line> {
    if f in files && files[f].Regular? then files[f].lines else []
  }

  function Bytes(lines: seq<Line>): nat {
    if lines == [] then 0 else Bytes(lines[..|lines| - 1]) + lines[|lines| - 1].bytes
  }

  lemma {:induction false} BytesAppend(a: seq<Line>, b: seq<Line>)
    ensures Bytes(a + b) == Bytes(a) + Bytes(b)
  {
    if b == [] {
      assert a + b == a;
    } else {
      assert (a + b)[..|a + b| - 1] == a + b[..|b| - 1];
      BytesAppend(a, b[..|b| - 1]);
    }
  }

  class Directory {
    var files: Files

    constructor ()
      ensures files == map[]
    {
      files := map[];
    }

    method Remove(f: string)
      requires f in files
      modifies this
      ensures files == old(files) - {f}
    {
      files := files - {f};
    }

    /** `os.rename`: the destination takes over the source's file. */
    method Rename(source: string, dest: string)
      requires source in files && source != dest
      modifies this
      ensures files == (old(files) - {source})[dest := old(files)[source]]
    {
      var file := files[source];
      files := (files - {source})[dest := file];
    }

    /** `open(f, mode)`: mode "a" keeps what is there, mode "w" truncates. */
    method Open(f: string, append: bool)
      modifies this
      ensures files == Opened(old(files), f, append)
    {
      if f !in files || (files[f].Regular? && !append) {
        files := files[f := Regular([])];
      }
    }

    /** A write through an open stream. */
    method Write(f: string, line: Line)
      requires f in files
      modifies this
      ensures files == Written(old(files), f, line)
    {
      if files[f].Regular? {
        files := files[f := Regular(files[f].lines + [line])];
      }
    }
  }

  function Opened(files: Files, f: string, append: bool): Files {
    if f !in files || (files[f].Regular? && !append) then files[f := Regular([])] else files
  }

  /** Only a missing file, or one opened to be overwritten, is empty afterwards. */
  lemma OpenedKeeps(files: Files, f: string, append: bool)
    ensures Lines(Opened(files, f, append), f) == if append then Lines(files, f) else []
    ensures f in Opened(files, f, append) && forall g :: g != f ==> At(Opened(files, f, append), g) == At(files, g)
  {
  }

  function Written(files: Files, f: string, line: Line): Files
    requires f in files
  {
    if files[f].Regular? then files[f := Regular(files[f].lines + [line])] else files
  }

  // ----- numbered names

  /** `"%s.%d" % (base, k)`. */
  function Numbered(base: string, k: nat): (s: string)
    ensures s != base
  {
    base + "." + Decimal(k)
  }

  lemma NumberedInjective(base: string, i: nat, j: nat)
    requires Numbered(base, i) == Numbered(base, j)
    ensures i == j
  {
    assert Numbered(base, i)[|base| + 1..] == Decimal(i);
    assert Numbered(base, j)[|base| + 1..] == Decimal(j);
    DecimalInjective(i, j);
  }
}
