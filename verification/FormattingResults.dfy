/** What one call of `format` writes and returns, in terms of the formatter's settings and the record:
    the date, the texts after the body, and which error is raised. */
module FormattingResults {
  import opened Wrappers
  import opened FormatCompiler
  import opened FormatScan
  import opened Formatting
  import opened FormattingRuns

  // ----- the date

  predicate IsDigit(c: char) {
    '0' <= c <= '9'
  }

  /** Three decimal digits that make `n`. */
  ghost predicate ThreeDigitsOf(d: string, n: int) {
    && |d| == 3 && IsDigit(d[0]) && IsDigit(d[1]) && IsDigit(d[2])
    && (d[0] as int - '0' as int) * 100 + (d[1] as int - '0' as int) * 10 + (d[2] as int - '0' as int) == n
  }

  /** The date by the formatter's own format, or the default one with milliseconds. */
  ghost predicate IsDate(c: Config, e: Event, date: string) {
    match c.dateFmt
    case Some(f) => date == c.strftime(f, e.seconds)
    case None => exists d :: ThreeDigitsOf(d, e.millis) && date == c.strftime("%F %T", e.seconds) + "," + d
  }

  lemma ThreeDigitsAre(n: Millis)
    ensures ThreeDigitsOf(ThreeDigits(n), n)
  {
    DigitsAddUp(n);
  }

  lemma DigitsAddUp(n: Millis)
    ensures n / 100 % 10 * 100 + n / 10 % 10 * 10 + n % 10 == n
  {
    var tens := n / 10;
    assert n == tens * 10 + n % 10 && tens == tens / 10 * 10 + tens % 10 && tens / 10 == n / 100 && n / 100 < 10;
  }

  lemma DateIs(c: Config, e: Event)
    ensures IsDate(c, e, Date(c, e))
  {
    ThreeDigitsAre(e.millis);
  }

  /** What a call leaves in the record: its message, and its own date exactly if the format uses one;
      nothing if the message cannot be built. */
  lemma WritesMessageAndDate(c: Config, fields: FieldMap, e: Event, s: Scratch)
    ensures var t := Formatted(c, fields, e, s).1;
      && (e.body.None? ==> t == s)
      && (e.body.Some? ==> t.message == e.body.value)
      && (e.body.Some? && c.UsesTime() ==> IsDate(c, e, t.asctime))
      && (e.body.Some? && !c.UsesTime() ==> t.asctime == s.asctime)
  {
    DateIs(c, e);
  }

  // ----- the body

  lemma {:induction false} RenderAround<F>(one: F -> Option<string>, fs: seq<F>, j: nat) returns (a: string, b: string)
    requires j < |fs| && Render(one, fs).Some?
    ensures one(fs[j]).Some? && Render(one, fs).value == a + one(fs[j]).value + b
    ensures Render(one, fs[..j]) == Some(a) && Render(one, fs[j + 1..]) == Some(b)
  {
    RenderAppend(one, fs[..j], fs[j..]);
    assert fs == fs[..j] + fs[j..] && fs[j..][0] == fs[j] && fs[j..][1..] == fs[j + 1..];
    a, b := Render(one, fs[..j]).value, Render(one, fs[j + 1..]).value;
    assert a + (one(fs[j]).value + b) == a + one(fs[j]).value + b;
  }

  /** What a field shows: the message, the call's own date, the exception text cached before the call,
      or what the record holds in that slot. */
  ghost predicate IsFieldText(c: Config, e: Event, s: Scratch, field: Field, text: string) {
    match field
    case Message => e.body == Some(text)
    case Asctime => IsDate(c, e, text)
    case ExcText => text == s.excText.GetOr("None")
    case _ => text == e.fixed(field)
  }

  lemma SlotShows(c: Config, fields: FieldMap, e: Event, s: Scratch, field: Field)
    requires e.body.Some? && (field == Asctime ==> c.UsesTime())
    ensures var text := RenderOne(ViewOf(fields, e, Prepared(c, e, s)), Known(field));
      text.Some? && IsFieldText(c, e, s, field, text.value)
  {
    DateIs(c, e);
  }

  /** A body has the text of a field in its place, between what the fragments around it render to. */
  lemma BodyShowsField(c: Config, fields: FieldMap, e: Event, s: Scratch, j: nat)
    returns (a: string, text: string, b: string)
    requires e.body.Some? && NamesAsctime(fields)
    requires j < |FragmentsOf(c, fields)| && FragmentsOf(c, fields)[j].Known?
    requires Body(c, fields, e, Prepared(c, e, s)).Some?
    ensures IsFieldText(c, e, s, FragmentsOf(c, fields)[j].field, text)
    ensures Body(c, fields, e, Prepared(c, e, s)) == Some(a + text + b)
    ensures var one := Renderer(ViewOf(fields, e, Prepared(c, e, s)));
      Render(one, FragmentsOf(c, fields)[..j]) == Some(a) && Render(one, FragmentsOf(c, fields)[j + 1..]) == Some(b)
  {
    var view, field := ViewOf(fields, e, Prepared(c, e, s)), FragmentsOf(c, fields)[j].field;
    BodyIsRendered(c, fields, e, Prepared(c, e, s));
    DateIsWritten(c, fields);
    SlotShows(c, fields, e, s, field);
    a, b := RenderAround(Renderer(view), FragmentsOf(c, fields), j);
    text := RenderOne(view, Known(field)).value;
  }

  /** The record as the formatter number `k` of a sequence finds it. */
  function Before(cs: seq<Config>, fields: FieldMap, e: Event, s: Scratch, k: nat): Scratch
    requires k <= |cs|
  {
    if k == 0 then s else Before(cs[1..], fields, e, Formatted(cs[0], fields, e, s).1, k - 1)
  }

  lemma {:induction false} OutputIs(cs: seq<Config>, fields: FieldMap, e: Event, s: Scratch, k: nat)
    requires k < |cs|
    ensures Outputs(cs, fields, e, s)[k] == Formatted(cs[k], fields, e, Before(cs, fields, e, s, k)).0
    decreases k
  {
    if k > 0 {
      OutputIs(cs[1..], fields, e, Formatted(cs[0], fields, e, s).1, k - 1);
    }
  }

  lemma Regrouped(a: string, text: string, b: string, tail: string)
    ensures (a + text + b) + tail == a + text + (b + tail)
  {
  }

  /** What a successful call returns has the text of each field in its place. */
  lemma ResultShowsField(c: Config, fields: FieldMap, e: Event, s: Scratch, j: nat)
    returns (a: string, text: string, rest: string)
    requires NamesAsctime(fields) && Formatted(c, fields, e, s).0.Ok?
    requires j < |FragmentsOf(c, fields)| && FragmentsOf(c, fields)[j].Known?
    ensures IsFieldText(c, e, s, FragmentsOf(c, fields)[j].field, text)
    ensures Formatted(c, fields, e, s).0.value == a + text + rest
    ensures e.body.Some? &&
      Render(Renderer(ViewOf(fields, e, Prepared(c, e, s))), FragmentsOf(c, fields)[..j]) == Some(a)
  {
    var tail := TailFollows(c, fields, e, s);
    var b;
    a, text, b := BodyShowsField(c, fields, e, s, j);
    rest := b + tail;
    Regrouped(a, text, b, tail);
  }

  /** In any sequence of formatters on one record, each that succeeds returns a text with its own fields
      in their places: its own date above all, whatever the others have written. */
  lemma EachRendersItsOwnFields(cs: seq<Config>, fields: FieldMap, e: Event, s: Scratch, k: nat, j: nat)
    returns (a: string, text: string, rest: string)
    requires NamesAsctime(fields) && k < |cs| && Outputs(cs, fields, e, s)[k].Ok?
    requires j < |FragmentsOf(cs[k], fields)| && FragmentsOf(cs[k], fields)[j].Known?
    ensures IsFieldText(cs[k], e, Before(cs, fields, e, s, k), FragmentsOf(cs[k], fields)[j].field, text)
    ensures Outputs(cs, fields, e, s)[k].value == a + text + rest
    ensures e.body.Some? && var ready := Prepared(cs[k], e, Before(cs, fields, e, s, k));
      Render(Renderer(ViewOf(fields, e, ready)), FragmentsOf(cs[k], fields)[..j]) == Some(a)
  {
    OutputIs(cs, fields, e, s, k);
    a, text, rest := ResultShowsField(cs[k], fields, e, Before(cs, fields, e, s, k), j);
  }

  // ----- exception and stack

  /** `whole` is `text` and then `part` on a line of its own. */
  ghost predicate OnNextLine(text: string, part: string, whole: string) {
    if text != "" && text[|text| - 1] == '\n' then whole == text + part else whole == text + "\n" + part
  }

  ghost predicate WithPart(text: string, part: Option<string>, whole: string) {
    if part.Some? then OnNextLine(text, part.value, whole) else whole == text
  }

  /** The exception text: one cached before, or what is printed now, without its last line break. */
  ghost predicate IsExceptionPart(e: Event, s: Scratch, part: Option<string>) {
    if s.excText.Some? then part == s.excText
    else match e.exc
      case Raised(printed) =>
        part.Some? && (printed == part.value + "\n" || (printed == part.value && !EndsLine(printed)))
      case _ => part == None
  }

  ghost predicate IsStackPart(e: Event, part: Option<string>) {
    match e.stack
    case NoStack => part == None
    case StackText(text) => part == if text == "" then None else Some(text)
    case StackObject(repr) => part == Some(repr)
  }

  lemma ChompIs(printed: string)
    ensures printed == Chomp(printed) + "\n" || (printed == Chomp(printed) && !EndsLine(printed))
  {
    if EndsLine(printed) {
      assert printed == printed[..|printed| - 1] + [printed[|printed| - 1]];
    }
  }

  /** The result is the body, then the exception, then the stack, each on a line of its own. */
  lemma ResultIsInParts(c: Config, fields: FieldMap, e: Event, s: Scratch)
    returns (exc: Option<string>, text: string, stack: Option<string>)
    requires Formatted(c, fields, e, s).0.Ok?
    ensures e.body.Some? && Body(c, fields, e, Prepared(c, e, s)).Some?
    ensures IsExceptionPart(e, s, exc) && WithPart(Body(c, fields, e, Prepared(c, e, s)).value, exc, text)
    ensures IsStackPart(e, stack) && WithPart(text, stack, Formatted(c, fields, e, s).0.value)
    ensures Formatted(c, fields, e, s).1.excText == exc
  {
    var ready := Prepared(c, e, s);
    var body := Body(c, fields, e, ready).value;
    if e.exc.Raised? {
      ChompIs(e.exc.printed);
    }
    exc := Cached(e, ready).excText;
    text := if exc.Some? then AppendLine(body, exc.value) else body;
    stack := match e.stack
      case NoStack => None
      case StackText(t) => if t == "" then None else Some(t)
      case StackObject(repr) => Some(repr);
  }

  lemma TailFollows(c: Config, fields: FieldMap, e: Event, s: Scratch) returns (tail: string)
    requires Formatted(c, fields, e, s).0.Ok?
    ensures e.body.Some? && Body(c, fields, e, Prepared(c, e, s)).Some?
    ensures Formatted(c, fields, e, s).0.value == Body(c, fields, e, Prepared(c, e, s)).value + tail
  {
    var exc, text, stack := ResultIsInParts(c, fields, e, s);
    var body, whole := Body(c, fields, e, Prepared(c, e, s)).value, Formatted(c, fields, e, s).0.value;
    tail := whole[|body|..];
    PartsFollow(body, exc, text, stack, whole);
  }

  lemma PartFollows(text: string, part: Option<string>, whole: string)
    requires WithPart(text, part, whole)
    ensures text <= whole
  {
  }

  lemma PartsFollow(body: string, exc: Option<string>, text: string, stack: Option<string>, whole: string)
    requires WithPart(body, exc, text) && WithPart(text, stack, whole)
    ensures |body| <= |whole| && whole == body + whole[|body|..]
  {
    PartFollows(body, exc, text);
    PartFollows(text, stack, whole);
    assert whole[..|body|] == whole[..|text|][..|body|];
  }

  // ----- errors

  lemma {:induction false} RenderFails<F>(one: F -> Option<string>, fs: seq<F>)
    ensures Render(one, fs).None? <==> exists f :: f in fs && one(f).None?
  {
    if fs != [] {
      RenderFails(one, fs[1..]);
      assert fs == [fs[0]] + fs[1..];
    }
  }

  /** A field that names an attribute the record does not have. */
  ghost predicate NamesMissing(c: Config, fields: FieldMap, e: Event) {
    exists name :: Unknown(name) in FragmentsOf(c, fields) && name !in Members(fields) && e.extra(name).None?
  }

  lemma MissingFails(rec: RecordView, fs: seq<Fragment>)
    ensures Render(Renderer(rec), fs).None? <==> exists name :: Unknown(name) in fs && rec.attribute(name).None?
  {
    var one := Renderer(rec);
    RenderFails(one, fs);
    if f :| f in fs && one(f).None? {
      assert f == Unknown(f.name);
    }
    if name :| Unknown(name) in fs && rec.attribute(name).None? {
      assert one(Unknown(name)).None?;
    }
  }

  lemma AttributeMissing(fields: FieldMap, e: Event, s: Scratch, name: string)
    ensures ViewOf(fields, e, s).attribute(name).None? <==> name !in Members(fields) && e.extra(name).None?
  {
  }

  lemma BodyFails(c: Config, fields: FieldMap, e: Event, s: Scratch)
    ensures Body(c, fields, e, s).None? <==> NamesMissing(c, fields, e)
  {
    BodyIsRendered(c, fields, e, s);
    MissingFails(ViewOf(fields, e, s), FragmentsOf(c, fields));
    forall name
      ensures ViewOf(fields, e, s).attribute(name).None? <==> name !in Members(fields) && e.extra(name).None?
    {
      AttributeMissing(fields, e, s, name);
    }
  }

  /** Which error a call raises: for the arguments, for a missing attribute, or for exception information
      that is no tuple and has no text yet, in that order. */
  lemma ErrorsExactly(c: Config, fields: FieldMap, e: Event, s: Scratch)
    ensures Formatted(c, fields, e, s).0.Ok? <==>
      e.body.Some? && !NamesMissing(c, fields, e) && !(e.exc.Malformed? && s.excText.None?)
    ensures Formatted(c, fields, e, s).0.Err? ==>
      Formatted(c, fields, e, s).0.error ==
        if e.body.None? then BadArguments else if NamesMissing(c, fields, e) then MissingAttribute else BadExcInfo
  {
    if e.body.Some? {
      BodyFails(c, fields, e, Prepared(c, e, s));
    }
  }
}
