/** Several formatters applied to one record, one after the other. */
module FormattingRuns {
  import opened FormatCompiler
  import opened FormatScan
  import opened Formatting
  import opened Wrappers

  lemma {:induction false} RenderAgrees<F>(one: F -> Option<string>, two: F -> Option<string>, fs: seq<F>)
    requires forall f :: f in fs ==> one(f) == two(f)
    ensures Render(one, fs) == Render(two, fs)
  {
    if fs != [] {
      RenderAgrees(one, two, fs[1..]);
    }
  }

  function FragmentsOf(c: Config, fields: FieldMap): seq<Fragment> {
    Fragments(fields, c.style, c.FormatText())
  }

  lemma BodyIsRendered(c: Config, fields: FieldMap, e: Event, s: Scratch)
    ensures Body(c, fields, e, s) == Render(Renderer(ViewOf(fields, e, s)), FragmentsOf(c, fields))
  {
    RenderIsInterpret(GrammarOf(fields, c.style), Renderer(ViewOf(fields, e, s)), c.FormatText(), 0);
  }

  /** No name that is looked up on the record is in the field table. */
  ghost predicate Unmapped(fields: FieldMap, fs: seq<Fragment>) {
    forall name {:trigger Unknown(name)} :: Unknown(name) in fs ==> name !in fields
  }

  lemma FragmentsUnmapped(fields: FieldMap, style: Style, s: string)
    ensures Unmapped(fields, Fragments(fields, style, s))
  {
    forall name | Unknown(name) in Fragments(fields, style, s)
      ensures name !in fields
    {
      var a := FragmentIsMatched(GrammarOf(fields, style), s, Unknown(name));
      FieldAtIs(fields, style, s, a);
    }
  }

  /** The record's text for a fragment reads no other slot than the fragment's. */
  lemma FragmentDependsOn(fields: FieldMap, e: Event, s: Scratch, s': Scratch, f: Fragment)
    requires s.message == s'.message && (f.Unknown? ==> f.name !in fields)
    requires f == Known(Asctime) ==> s.asctime == s'.asctime
    requires f == Known(ExcText) ==> s.excText == s'.excText
    ensures RenderOne(ViewOf(fields, e, s), f) == RenderOne(ViewOf(fields, e, s'), f)
  {
  }

  lemma RenderDependsOn(fields: FieldMap, e: Event, s: Scratch, s': Scratch, fs: seq<Fragment>)
    requires s.message == s'.message && Unmapped(fields, fs)
    requires Known(Asctime) in fs ==> s.asctime == s'.asctime
    requires Known(ExcText) in fs ==> s.excText == s'.excText
    ensures Render(Renderer(ViewOf(fields, e, s)), fs) == Render(Renderer(ViewOf(fields, e, s')), fs)
  {
    forall f | f in fs
      ensures Renderer(ViewOf(fields, e, s))(f) == Renderer(ViewOf(fields, e, s'))(f)
    {
      FragmentDependsOn(fields, e, s, s', f);
    }
    RenderAgrees(Renderer(ViewOf(fields, e, s)), Renderer(ViewOf(fields, e, s')), fs);
  }

  /** What rendering depends on. */
  lemma BodyDependsOn(c: Config, fields: FieldMap, e: Event, s: Scratch, s': Scratch)
    requires s.message == s'.message
    requires Known(Asctime) in FragmentsOf(c, fields) ==> s.asctime == s'.asctime
    requires Known(ExcText) in FragmentsOf(c, fields) ==> s.excText == s'.excText
    ensures Body(c, fields, e, s) == Body(c, fields, e, s')
  {
    FragmentsUnmapped(fields, c.style, c.FormatText());
    RenderDependsOn(fields, e, s, s', FragmentsOf(c, fields));
    BodyIsRendered(c, fields, e, s);
    BodyIsRendered(c, fields, e, s');
  }

  /** A formatter that does not write the date does not render it. */
  lemma DateIsWritten(c: Config, fields: FieldMap)
    requires NamesAsctime(fields)
    ensures Known(Asctime) in FragmentsOf(c, fields) ==> c.UsesTime()
  {
    AsctimeUsesTime(fields, c.style, c.FormatText());
    DefaultHasNoDate(c.style);
  }

  lemma OccursChars(t: string, s: string, p: nat)
    requires OccursAt(t, s, p) && |t| >= 3
    ensures s[p] == t[0] && s[p + 2] == t[2]
  {
    assert s[p..p + |t|][0] == s[p] && s[p..p + |t|][2] == s[p + 2];
  }

  lemma DefaultHasNoDate(style: Style)
    ensures !Occurs(TimeText(style), "%(message)s")
  {
    var s := "%(message)s";
    assert s[0] == '%' && s[2] == 'm' && forall p :: 1 <= p < |s| ==> s[p] != '%';
    assert forall p :: 0 <= p < |s| ==> s[p] != '{';
    forall p: nat | p < |s|
      ensures !OccursAt(TimeText(style), s, p)
    {
      if OccursAt(TimeText(style), s, p) {
        OccursChars(TimeText(style), s, p);
      }
    }
  }

  /** The two states have the same exception text, or will once it is cached. */
  predicate SameException(e: Event, s: Scratch, s': Scratch) {
    Cached(e, s).excText == Cached(e, s').excText
  }

  /** What earlier formatters left in the record, its date above all, does not show in the result:
      unless the format has an exc_text field, and then only whether the text was cached does. */
  lemma NothingIsStale(c: Config, fields: FieldMap, e: Event, s: Scratch, s': Scratch)
    requires NamesAsctime(fields) && SameException(e, s, s')
    requires Known(ExcText) in FragmentsOf(c, fields) ==> s.excText == s'.excText
    ensures Formatted(c, fields, e, s).0 == Formatted(c, fields, e, s').0
  {
    if e.body.Some? {
      DateIsWritten(c, fields);
      BodyDependsOn(c, fields, e, Prepared(c, e, s), Prepared(c, e, s'));
      FinishedDependsOn(Body(c, fields, e, Prepared(c, e, s)), e, Prepared(c, e, s), Prepared(c, e, s'));
    }
  }

  lemma FinishedDependsOn(body: Option<string>, e: Event, r: Scratch, r': Scratch)
    requires SameException(e, r, r')
    ensures Finished(body, e, r).0 == Finished(body, e, r').0
  {
  }

  lemma FormattedKeepsException(c: Config, fields: FieldMap, e: Event, s: Scratch)
    ensures SameException(e, s, Formatted(c, fields, e, s).1)
  {
  }

  /** The results of formatting one record with several formatters in turn. */
  function Outputs(cs: seq<Config>, fields: FieldMap, e: Event, s: Scratch): (rs: seq<Result<string, Error>>)
    ensures |rs| == |cs|
  {
    if cs == [] then []
    else [Formatted(cs[0], fields, e, s).0] + Outputs(cs[1..], fields, e, Formatted(cs[0], fields, e, s).1)
  }

  /** Formatters sharing a record do not interfere: each result is what the formatter gives alone. */
  lemma {:induction false} FormattersDoNotInterfere(cs: seq<Config>, fields: FieldMap, e: Event, s: Scratch, k: nat)
    requires NamesAsctime(fields) && k < |cs| && Known(ExcText) !in FragmentsOf(cs[k], fields)
    ensures Outputs(cs, fields, e, s)[k] == Formatted(cs[k], fields, e, s).0
    decreases k
  {
    if k > 0 {
      var next := Formatted(cs[0], fields, e, s).1;
      assert Outputs(cs, fields, e, s)[k] == Outputs(cs[1..], fields, e, next)[k - 1] && cs[1..][k - 1] == cs[k];
      FormattersDoNotInterfere(cs[1..], fields, e, next, k - 1);
      FormattedKeepsException(cs[0], fields, e, s);
      NothingIsStale(cs[k], fields, e, s, next);
    }
  }

  // ----- the exc_text field

  ghost predicate Alone(c: Config, fields: FieldMap, before: Config, e: Event, s: Scratch) {
    Outputs([before, c], fields, e, s)[1] == Formatted(c, fields, e, s).0
  }

  const TRACE := "Traceback"

  /** A record with an exception and every attribute. */
  function Failing(): Event {
    Event(Some(""), 0, 0, Raised(TRACE), NoStack, _ => "", _ => Some(""))
  }

  lemma {:induction false} RenderGrows(one: Fragment -> Option<string>, two: Fragment -> Option<string>,
          fs: seq<Fragment>, f: Fragment)
    requires forall x :: x in fs ==> one(x).Some? && two(x).Some? && |one(x).value| <= |two(x).value|
    requires f in fs ==> |one(f).value| + 2 <= |two(f).value|
    ensures Render(one, fs).Some? && Render(two, fs).Some?
    ensures |Render(one, fs).value| + (if f in fs then 2 else 0) <= |Render(two, fs).value|
  {
    if fs != [] {
      assert fs[0] in fs && (f in fs ==> f == fs[0] || f in fs[1..]);
      RenderGrows(one, two, fs[1..], f);
    }
  }

  lemma FragmentGrows(fields: FieldMap, p: Scratch, p': Scratch, f: Fragment)
    requires p.excText == None && p' == p.(excText := Some(TRACE)) && (f.Unknown? ==> f.name !in fields)
    ensures RenderOne(ViewOf(fields, Failing(), p), f).Some? && RenderOne(ViewOf(fields, Failing(), p'), f).Some?
    ensures |RenderOne(ViewOf(fields, Failing(), p), f).value| + (if f == Known(ExcText) then 2 else 0)
            <= |RenderOne(ViewOf(fields, Failing(), p'), f).value|
  {
    if f != Known(ExcText) {
      FragmentDependsOn(fields, Failing(), p, p', f);
    }
  }

  lemma BodyGrows(c: Config, fields: FieldMap, p: Scratch, p': Scratch)
    requires Known(ExcText) in FragmentsOf(c, fields) && p.excText == None && p' == p.(excText := Some(TRACE))
    ensures Body(c, fields, Failing(), p).Some? && Body(c, fields, Failing(), p').Some?
    ensures |Body(c, fields, Failing(), p).value| + 2 <= |Body(c, fields, Failing(), p').value|
  {
    BodyIsRendered(c, fields, Failing(), p);
    BodyIsRendered(c, fields, Failing(), p');
    FragmentsUnmapped(fields, c.style, c.FormatText());
    AllGrow(fields, p, p', FragmentsOf(c, fields));
  }

  lemma AllGrow(fields: FieldMap, p: Scratch, p': Scratch, fs: seq<Fragment>)
    requires Known(ExcText) in fs && p.excText == None && p' == p.(excText := Some(TRACE)) && Unmapped(fields, fs)
    ensures Render(Renderer(ViewOf(fields, Failing(), p)), fs).Some?
    ensures Render(Renderer(ViewOf(fields, Failing(), p')), fs).Some?
    ensures |Render(Renderer(ViewOf(fields, Failing(), p)), fs).value| + 2
         <= |Render(Renderer(ViewOf(fields, Failing(), p')), fs).value|
  {
    var one, two := Renderer(ViewOf(fields, Failing(), p)), Renderer(ViewOf(fields, Failing(), p'));
    forall f | f in fs
      ensures one(f).Some? && two(f).Some? && |one(f).value| + (if f == Known(ExcText) then 2 else 0) <= |two(f).value|
    {
      FragmentGrows(fields, p, p', f);
    }
    RenderGrows(one, two, fs, Known(ExcText));
  }

  lemma FailingText(c: Config, fields: FieldMap, s: Scratch, text: string)
    requires s.excText == None || s.excText == Some(TRACE)
    requires Body(c, fields, Failing(), Prepared(c, Failing(), s)) == Some(text)
    ensures Formatted(c, fields, Failing(), s).0 == Ok(AppendLine(text, TRACE))
  {
  }

  lemma CachedTextShows(c: Config, fields: FieldMap, s: Scratch, s': Scratch)
    requires Known(ExcText) in FragmentsOf(c, fields)
    requires s.excText == None && s'.excText == Some(TRACE) && s.asctime == s'.asctime
    ensures Formatted(c, fields, Failing(), s).0 != Formatted(c, fields, Failing(), s').0
  {
    BodyGrows(c, fields, Prepared(c, Failing(), s), Prepared(c, Failing(), s'));
    var text := Body(c, fields, Failing(), Prepared(c, Failing(), s)).value;
    var text' := Body(c, fields, Failing(), Prepared(c, Failing(), s')).value;
    FailingText(c, fields, s, text);
    FailingText(c, fields, s', text');
    assert |AppendLine(text, TRACE)| < |AppendLine(text', TRACE)|;
  }

  /** A formatter with an empty format. */
  function Empty(): Config {
    Config(Percent, Some(""), None, (_, _) => "")
  }

  lemma EmptyCaches(fields: FieldMap, s: Scratch)
    requires s.excText == None
    ensures Formatted(Empty(), fields, Failing(), s).1 == Scratch("", s.asctime, Some(TRACE))
  {
  }

  lemma OutputOfSecond(before: Config, c: Config, fields: FieldMap, e: Event, s: Scratch)
    ensures Outputs([before, c], fields, e, s)[1] == Formatted(c, fields, e, Formatted(before, fields, e, s).1).0
  {
    assert [before, c][1..] == [c];
  }

  /** The condition is exact: a format with an exc_text field shows whether another formatter
      handled the record before. */
  lemma AloneExactly(c: Config, fields: FieldMap)
    requires NamesAsctime(fields)
    ensures (forall before, e, s :: Alone(c, fields, before, e, s)) <==> Known(ExcText) !in FragmentsOf(c, fields)
  {
    if Known(ExcText) in FragmentsOf(c, fields) {
      var before, e, s := Empty(), Failing(), Scratch("", "", None);
      EmptyCaches(fields, s);
      CachedTextShows(c, fields, s, Formatted(before, fields, e, s).1);
      OutputOfSecond(before, c, fields, e, s);
      assert !Alone(c, fields, before, e, s);
    } else {
      forall before, e, s
        ensures Alone(c, fields, before, e, s)
      {
        FormattersDoNotInterfere([before, c], fields, e, s, 1);
      }
    }
  }
}
