/** The two format styles: their field syntax, the record attributes they name, the compiled style
    object, and what a compiled format means. */
module FormatCompiler {
  import opened FormatScan
  import opened Wrappers

  datatype Style = Percent | Brace

  /** The record attributes that have a slot of their own. */
  datatype Field =
    | Name | Msg | Args | LevelNo | LevelName | Pathname | Filename | ModuleName | Lineno | FuncName
    | Created | Msecs | RelativeCreated | Thread | ThreadName | ProcessName | Process
    | ExcInfo | ExcText | StackInfo | Message | Asctime

  type FieldMap = map<string, Field>

  /** The table from field names to slots. */
  const FIELD_MAP: FieldMap := map[
    "name" := Name, "msg" := Msg, "args" := Args, "levelno" := LevelNo, "levelname" := LevelName,
    "pathname" := Pathname, "filename" := Filename, "module" := ModuleName, "lineno" := Lineno,
    "funcname" := FuncName, "created" := Created, "msecs" := Msecs, "relativeCreated" := RelativeCreated,
    "thread" := Thread, "threadName" := ThreadName, "processName" := ProcessName, "process" := Process,
    "exc_info" := ExcInfo, "exc_text" := ExcText, "stack_info" := StackInfo, "message" := Message,
    "asctime" := Asctime
  ]

  /** The attributes of the record type: unlike the field table, they spell `funcName`. */
  function Members(fields: FieldMap): FieldMap {
    (fields - {"funcname"})["funcName" := FuncName]
  }

  datatype Fragment = Literal(text: string) | Known(field: Field) | Unknown(name: string)

  function FieldFragment(fields: FieldMap, name: string): Fragment {
    if name in fields then Known(fields[name]) else Unknown(name)
  }

  // ----- the two regular expressions

  predicate IsWord(c: char) {
    'a' <= c <= 'z' || 'A' <= c <= 'Z' || '0' <= c <= '9' || c == '_'
  }

  predicate IsConversion(c: char) {
    || c == 'd' || c == 'i' || c == 'o' || c == 'u' || c == 'x' || c == 'e' || c == 'f' || c == 'g'
    || c == 'c' || c == 'r' || c == 's' || c == 'a' || c == '%'
  }

  /** The end of the run of word characters from `i`. */
  function WordEnd(s: string, i: nat): (e: nat)
    requires i <= |s|
    ensures i <= e <= |s| && (forall k :: i <= k < e ==> IsWord(s[k])) && (e < |s| ==> !IsWord(s[e]))
    decreases |s| - i
  {
    if i < |s| && IsWord(s[i]) then WordEnd(s, i + 1) else i
  }

  /** The length of the match of the style's regular expression at `p`, or 0. */
  function MatchAt(style: Style, s: string, p: nat): (n: nat)
    requires p <= |s|
    ensures p + n <= |s|
  {
    match style
    case Percent =>
      if p + 1 < |s| && s[p] == '%' && s[p + 1] == '(' then
        var e := WordEnd(s, p + 2);
        if e > p + 2 && e + 1 < |s| && s[e] == ')' && IsConversion(s[e + 1]) then e + 2 - p else 0
      else 0
    case Brace =>
      if p < |s| && s[p] == '{' then
        var e := WordEnd(s, p + 1);
        if e > p + 1 && e < |s| && s[e] == '}' then e + 1 - p else 0
      else 0
  }

  /** The field name in a match: `%(name)s` or `{name}` without the punctuation. */
  function NameIn(style: Style, s: string, p: nat, n: nat): string {
    var lead := if style.Percent? then 2 else 1;
    if p + n <= |s| && n >= 2 * lead then s[p + lead..p + n - lead] else ""
  }

  function GrammarOf(fields: FieldMap, style: Style): Grammar<Fragment> {
    Grammar((s: string, p: nat) => if p <= |s| then MatchAt(style, s, p) else 0,
            text => Literal(text),
            (s, p, n) => FieldFragment(fields, NameIn(style, s, p, n)))
  }

  /** The fragments of a format string. */
  function Fragments(fields: FieldMap, style: Style, s: string): seq<Fragment> {
    Compile(GrammarOf(fields, style), s, 0)
  }

  // ----- rendering

  /** What rendering reads of a record: its slots, and any attribute by name. */
  datatype RecordView = RecordView(slot: Field -> string, attribute: string -> Option<string>)

  /** The attributes of the record type read its slots. */
  ghost predicate IsRecord(fields: FieldMap, rec: RecordView) {
    forall name :: name in Members(fields) ==> rec.attribute(name) == Some(rec.slot(Members(fields)[name]))
  }

  function RenderOne(rec: RecordView, f: Fragment): Option<string> {
    match f
    case Literal(text) => Some(text)
    case Known(field) => Some(rec.slot(field))
    case Unknown(name) => rec.attribute(name)
  }

  function Renderer(rec: RecordView): Fragment -> Option<string> {
    f => RenderOne(rec, f)
  }

  /** The text that the date test looks for. */
  function TimeText(style: Style): string {
    if style.Percent? then "%(asctime)" else "{asctime}"
  }

  predicate OccursAt(t: string, s: string, p: nat) {
    p + |t| <= |s| && s[p..p + |t|] == t
  }

  predicate Occurs(t: string, s: string) {
    exists p :: 0 <= p < |s| && OccursAt(t, s, p)
  }

  /** A compiled format string. */
  class FormatStyle {
    const style: Style
    const fmt: string
    const usesDefaultFmt: bool
    const fragments: array<Fragment>

    ghost predicate Valid()
      reads this, fragments
    {
      fragments[..] == Fragments(FIELD_MAP, style, fmt)
    }

    /** Both passes; without a format string, one fragment is reserved for the default format. */
    constructor (fmt: Option<string>, style: Style)
      ensures Valid() && fresh(fragments) && this.style == style
      ensures usesDefaultFmt == fmt.None? && this.fmt == fmt.GetOr("%(message)s")
    {
      var reserved := 1;
      if fmt.Some? {
        reserved := CountFragments(GrammarOf(FIELD_MAP, style), fmt.value);
      } else {
        DefaultIsOneFragment(FIELD_MAP, style);
      }
      this.style := style;
      this.fmt := fmt.GetOr("%(message)s");
      usesDefaultFmt := fmt.None?;
      fragments := new Fragment[reserved](_ => Literal(""));
      new;
      FillFragments(GrammarOf(FIELD_MAP, this.style), this.fmt, fragments);
    }

    /** Whether the date has to be written before rendering: the text of an asctime field occurs. */
    predicate UsesTime()
      reads this
    {
      !usesDefaultFmt && Occurs(TimeText(style), fmt)
    }

    /** `format`: rendering fragment by fragment is the direct reading of the format string;
        a missing attribute raises. */
    method Format(rec: RecordView) returns (r: Option<string>)
      requires Valid()
      ensures r == Interpret(GrammarOf(FIELD_MAP, style), Renderer(rec), fmt, 0)
    {
      RenderIsInterpret(GrammarOf(FIELD_MAP, style), Renderer(rec), fmt, 0);
      r := RenderAll(rec, fragments);
    }
  }

  method RenderAll(rec: RecordView, fragments: array<Fragment>) returns (r: Option<string>)
    ensures r == Render(Renderer(rec), fragments[..])
  {
    var written := "";
    assert fragments[0..] == fragments[..];
    JoinEmpty(Render(Renderer(rec), fragments[..]));
    for i := 0 to fragments.Length
      invariant Render(Renderer(rec), fragments[..]) == Join(Some(written), Render(Renderer(rec), fragments[i..]))
    {
      var piece := RenderOne(rec, fragments[i]);
      assert fragments[i..][1..] == fragments[i + 1..];
      JoinAssociates(Some(written), piece, Render(Renderer(rec), fragments[i + 1..]));
      if piece.None? {
        return None;
      }
      written := written + piece.value;
    }
    assert fragments[fragments.Length..] == [] && written + "" == written;
    r := Some(written);
  }

  // ----- field texts and their matches

  /** The text of a field: `%(name)c` with the conversion `c`, or `{name}`. */
  function FieldText(style: Style, name: string, c: char): string {
    if style.Percent? then "%(" + name + [')', c] else "{" + name + "}"
  }

  predicate WordName(name: string) {
    name != "" && forall c :: c in name ==> IsWord(c)
  }

  lemma PercentFieldMatches(s: string, p: nat, name: string, c: char)
    requires WordName(name) && IsConversion(c) && OccursAt(FieldText(Percent, name, c), s, p)
    ensures MatchAt(Percent, s, p) == |name| + 4 && NameIn(Percent, s, p, |name| + 4) == name
  {
    var text, e := FieldText(Percent, name, c), p + 2 + |name|;
    forall k | 0 <= k < |text|
      ensures s[p + k] == text[k]
    {
      assert s[p..p + |text|][k] == s[p + k];
    }
    assert s[p] == text[0] && s[p + 1] == text[1] && s[e] == text[2 + |name|] && s[e + 1] == text[3 + |name|];
    NameRun(s, p + 2, name);
    assert WordEnd(s, p + 2) == e;
  }

  lemma BraceFieldMatches(s: string, p: nat, name: string)
    requires WordName(name) && OccursAt(FieldText(Brace, name, 's'), s, p)
    ensures MatchAt(Brace, s, p) == |name| + 2 && NameIn(Brace, s, p, |name| + 2) == name
  {
    var text, e := FieldText(Brace, name, 's'), p + 1 + |name|;
    forall k | 0 <= k < |text|
      ensures s[p + k] == text[k]
    {
      assert s[p..p + |text|][k] == s[p + k];
    }
    assert s[p] == text[0] && s[e] == text[1 + |name|];
    NameRun(s, p + 1, name);
    assert WordEnd(s, p + 1) == e;
  }

  lemma NameRun(s: string, a: nat, name: string)
    requires a + |name| <= |s| && WordName(name) && forall k :: 0 <= k < |name| ==> s[a + k] == name[k]
    ensures s[a..a + |name|] == name && WordEnd(s, a) >= a + |name|
  {
    forall k | a <= k < a + |name|
      ensures IsWord(s[k])
    {
      assert s[a + (k - a)] == name[k - a] && name[k - a] in name;
    }
  }

  lemma FieldTextMatches(style: Style, s: string, p: nat, name: string, c: char)
    requires WordName(name) && IsConversion(c) && OccursAt(FieldText(style, name, c), s, p)
    ensures MatchAt(style, s, p) == |FieldText(style, name, c)|
    ensures NameIn(style, s, p, |FieldText(style, name, c)|) == name
  {
    match style
    case Percent => PercentFieldMatches(s, p, name, c);
    case Brace => BraceFieldMatches(s, p, name);
  }

  /** A match is the text of a field. */
  lemma MatchIsFieldText(style: Style, s: string, p: nat) returns (name: string, c: char)
    requires p <= |s| && MatchAt(style, s, p) > 0
    ensures WordName(name) && IsConversion(c) && OccursAt(FieldText(style, name, c), s, p)
    ensures MatchAt(style, s, p) == |FieldText(style, name, c)|
  {
    var n := MatchAt(style, s, p);
    name := NameIn(style, s, p, n);
    c := if style.Percent? then s[p + n - 1] else 's';
    var text, lead := FieldText(style, name, c), if style.Percent? then 2 else 1;
    assert |name| == n - 2 * lead;
    forall k | 0 <= k < n
      ensures s[p..p + n][k] == text[k]
    {
      assert s[p..p + n][k] == s[p + k];
      if lead <= k < n - lead {
        assert name[k - lead] == s[p + k];
      }
    }
    assert s[p..p + n] == text;
    forall x | x in name
      ensures IsWord(x)
    {
      var k :| 0 <= k < |name| && name[k] == x;
      assert s[p + lead + k] == x;
    }
  }

  /** There is a match of length `n` exactly where the text of a field of that length begins. */
  lemma MatchExactly(style: Style, s: string, p: nat, n: nat)
    requires p <= |s| && n > 0
    ensures MatchAt(style, s, p) == n <==> exists name, c {:trigger FieldText(style, name, c)} ::
      WordName(name) && IsConversion(c) && |FieldText(style, name, c)| == n && OccursAt(FieldText(style, name, c), s, p)
  {
    if MatchAt(style, s, p) == n {
      var name, c := MatchIsFieldText(style, s, p);
    }
    if name, c {:trigger FieldText(style, name, c)} :|
      WordName(name) && IsConversion(c) && |FieldText(style, name, c)| == n && OccursAt(FieldText(style, name, c), s, p)
    {
      FieldTextMatches(style, s, p, name, c);
    }
  }

  lemma ConversionsAre(c: char)
    ensures IsConversion(c) <==> c in "diouxefgcrsa%"
  {
  }

  /** The name of the attribute that a slot holds. */
  function AttributeName(field: Field): string {
    match field
    case Name => "name"
    case Msg => "msg"
    case Args => "args"
    case LevelNo => "levelno"
    case LevelName => "levelname"
    case Pathname => "pathname"
    case Filename => "filename"
    case ModuleName => "module"
    case Lineno => "lineno"
    case FuncName => "funcName"
    case Created => "created"
    case Msecs => "msecs"
    case RelativeCreated => "relativeCreated"
    case Thread => "thread"
    case ThreadName => "threadName"
    case ProcessName => "processName"
    case Process => "process"
    case ExcInfo => "exc_info"
    case ExcText => "exc_text"
    case StackInfo => "stack_info"
    case Message => "message"
    case Asctime => "asctime"
  }

  /** The name under which the table lists it. */
  function ListedName(field: Field): string {
    if field == FuncName then "funcname" else AttributeName(field)
  }

  lemma TableLeads(field: Field)
    ensures ListedName(field) in FIELD_MAP && FIELD_MAP[ListedName(field)] == field
  {
  }

  lemma TableOnly(name: string)
    requires name in FIELD_MAP
    ensures name == ListedName(FIELD_MAP[name])
  {
  }

  lemma NotListed()
    ensures "funcName" !in FIELD_MAP
  {
  }

  /** The table leads every slot's listed name to that slot, and no other name. */
  lemma TableIsExact(name: string, field: Field)
    ensures name in FIELD_MAP && FIELD_MAP[name] == field <==> name == ListedName(field)
  {
    TableLeads(field);
    if name in FIELD_MAP {
      TableOnly(name);
    }
  }

  /** The record's attributes are those of the slots, under their own names. */
  lemma MembersAreExact(name: string, field: Field)
    ensures name in Members(FIELD_MAP) && Members(FIELD_MAP)[name] == field <==> name == AttributeName(field)
  {
    TableIsExact(name, field);
    TableIsExact("funcname", FuncName);
    NotListed();
  }

  /** Matches and field fragments of a style, spelled out. */
  lemma MatchLengthIs(fields: FieldMap, style: Style, s: string, p: nat)
    requires p <= |s|
    ensures MatchLength(GrammarOf(fields, style), s, p) == MatchAt(style, s, p)
  {
  }

  lemma FieldAtIs(fields: FieldMap, style: Style, s: string, p: nat)
    requires p <= |s|
    ensures FieldAt(GrammarOf(fields, style), s, p) == FieldFragment(fields, NameIn(style, s, p, MatchAt(style, s, p)))
  {
  }

  /** The text of a field is one match, and its fragment is the field's. */
  lemma FieldTextCompiles(fields: FieldMap, style: Style, s: string, p: nat, name: string, c: char)
    requires WordName(name) && IsConversion(c)
    requires OccursAt(FieldText(style, name, c), s, p)
    ensures MatchLength(GrammarOf(fields, style), s, p) == |FieldText(style, name, c)|
    ensures FieldAt(GrammarOf(fields, style), s, p) == FieldFragment(fields, name)
  {
    FieldTextMatches(style, s, p, name, c);
    MatchLengthIs(fields, style, s, p);
    FieldAtIs(fields, style, s, p);
  }

  /** Without an opening character there is no match. */
  lemma NoMatch(fields: FieldMap, style: Style, s: string, a: nat, b: nat)
    requires a <= b <= |s| && (if style.Percent? then '%' else '{') !in s[a..b]
    ensures Clear(GrammarOf(fields, style), s, a, b)
  {
    forall k | a <= k < b
      ensures MatchLength(GrammarOf(fields, style), s, k) == 0
    {
      assert s[k] == s[a..b][k - a];
      MatchLengthIs(fields, style, s, k);
    }
  }

  lemma OneFragment<F>(g: Grammar<F>, s: string, f: F)
    requires IsSpan(g, s, 0, |s|, f)
    ensures Compile(g, s, 0) == [f]
  {
    TilesFrom(g, s, 0, |s|, f, [], []);
    TilingIsUnique(g, s, 0, [|s|], [f]);
  }

  lemma DefaultIsOneFragment(fields: FieldMap, style: Style)
    ensures |Fragments(fields, style, "%(message)s")| == 1
  {
    var s := "%(message)s";
    if style.Percent? {
      FieldTextCompiles(fields, style, s, 0, "message", 's');
      OneFragment(GrammarOf(fields, style), s, FieldFragment(fields, "message"));
    } else {
      NoMatch(fields, style, s, 0, |s|);
      VerbatimWithoutFields(fields, style, s);
    }
  }

  /** A format string without fields compiles to itself. */
  lemma VerbatimWithoutFields(fields: FieldMap, style: Style, s: string)
    requires s != "" && Clear(GrammarOf(fields, style), s, 0, |s|)
    ensures Fragments(fields, style, s) == [Literal(s)]
  {
    assert s[0..|s|] == s;
    OneFragment(GrammarOf(fields, style), s, Literal(s));
  }

  /** An escaped percent sign is no field, and stays doubled in the output. */
  lemma DoubledPercentIsKept(fields: FieldMap, a: string, b: string, rec: RecordView)
    requires '%' !in a && '%' !in b && (b != "" ==> b[0] != '(')
    ensures Render(Renderer(rec), Fragments(fields, Percent, a + "%%" + b)) == Some(a + "%%" + b)
  {
    var s := a + "%%" + b;
    forall k | 0 <= k < |s|
      ensures MatchLength(GrammarOf(fields, Percent), s, k) == 0
    {
      assert k + 1 < |s| && s[k] == '%' ==> s[k + 1] != '(';
      MatchLengthIs(fields, Percent, s, k);
    }
    VerbatimWithoutFields(fields, Percent, s);
    assert s + "" == s;
  }

  // ----- the meaning of a format made of texts and plain fields

  /** A format, taken apart: literal texts and plain string fields. */
  datatype Piece = Text(text: string) | Slot(name: string)

  /** A text has no character that is special in the style; a field has a name of word characters. */
  predicate Writable(style: Style, piece: Piece) {
    match piece
    case Text(text) => if style.Percent? then '%' !in text else '{' !in text && '}' !in text
    case Slot(name) => WordName(name)
  }

  function PieceText(style: Style, piece: Piece): string {
    match piece
    case Text(text) => text
    case Slot(name) => FieldText(style, name, 's')
  }

  function Spell<P>(text: P -> string, ps: seq<P>): string {
    if ps == [] then "" else text(ps[0]) + Spell(text, ps[1..])
  }

  function Spelling(style: Style): Piece -> string {
    piece => PieceText(style, piece)
  }

  /** The format string that spells the pieces. */
  function Unparse(style: Style, ps: seq<Piece>): string {
    Spell(Spelling(style), ps)
  }

  /** What a piece stands for: itself, or the attribute of that name. */
  function PieceMeaning(rec: RecordView, piece: Piece): Option<string> {
    match piece
    case Text(text) => Some(text)
    case Slot(name) => rec.attribute(name)
  }

  /** The texts and attribute values in order; a missing attribute is an error. */
  function Meaning(rec: RecordView, ps: seq<Piece>): Option<string> {
    Render(piece => PieceMeaning(rec, piece), ps)
  }

  /** What the fragment of a piece renders to. */
  function PieceRendered(fields: FieldMap, rec: RecordView, piece: Piece): Option<string> {
    match piece
    case Text(text) => Some(text)
    case Slot(name) => RenderOne(rec, FieldFragment(fields, name))
  }

  /** What the scan does with a piece: skip a text, match a field. */
  ghost predicate Scanned(g: Grammar<Fragment>, fields: FieldMap, s: string, p: nat, q: nat, piece: Piece)
    requires p <= q <= |s|
  {
    match piece
    case Text(text) => Clear(g, s, p, q) && s[p..q] == text
    case Slot(name) => q > p && MatchLength(g, s, p) == q - p && FieldAt(g, s, p) == FieldFragment(fields, name)
  }

  lemma PieceIsScanned(fields: FieldMap, style: Style, s: string, p: nat, piece: Piece)
    requires Writable(style, piece) && OccursAt(PieceText(style, piece), s, p)
    ensures Scanned(GrammarOf(fields, style), fields, s, p, p + |PieceText(style, piece)|, piece)
  {
    match piece
    case Text(text) => NoMatch(fields, style, s, p, p + |text|);
    case Slot(name) => FieldTextCompiles(fields, style, s, p, name, 's');
  }

  lemma PieceAt(g: Grammar<Fragment>, fields: FieldMap, rec: RecordView, s: string, p: nat, q: nat, piece: Piece)
    requires p <= q <= |s| && Scanned(g, fields, s, p, q, piece)
    ensures Interpret(g, Renderer(rec), s, p) ==
      Join(PieceRendered(fields, rec, piece), Interpret(g, Renderer(rec), s, q))
  {
    if piece.Text? {
      InterpretLiteral(g, Renderer(rec), s, p, q);
    }
  }

  lemma OccursSplit(a: string, b: string, s: string, p: nat)
    requires OccursAt(a + b, s, p)
    ensures OccursAt(a, s, p) && OccursAt(b, s, p + |a|)
  {
    assert s[p..p + |a|] == s[p..p + |a + b|][..|a|];
    assert s[p + |a|..p + |a| + |b|] == s[p..p + |a + b|][|a|..];
  }

  /** Reading on from `p` reads the piece first. */
  ghost predicate ReadsAt<P>(read: nat -> Option<string>, text: P -> string, one: P -> Option<string>, p: nat,
          piece: P) {
    read(p) == Join(one(piece), read(p + |text(piece)|))
  }

  /** Wherever the text of a piece occurs, it is read as the piece. */
  ghost predicate ReadsPieces<P>(read: nat -> Option<string>, s: string, text: P -> string,
          one: P -> Option<string>, ps: seq<P>) {
    forall p: nat, piece {:trigger OccursAt(text(piece), s, p)} :: piece in ps && OccursAt(text(piece), s, p) ==>
      ReadsAt(read, text, one, p, piece)
  }

  /** A string that spells pieces reads as these pieces. */
  lemma {:induction false} PiecesAt<P>(read: nat -> Option<string>, s: string, text: P -> string,
          one: P -> Option<string>, ps: seq<P>, p: nat)
    requires ReadsPieces(read, s, text, one, ps) && read(|s|) == Some("")
    requires OccursAt(Spell(text, ps), s, p) && p + |Spell(text, ps)| == |s|
    ensures read(p) == Render(one, ps)
    decreases |ps|
  {
    if ps != [] {
      OccursSplit(text(ps[0]), Spell(text, ps[1..]), s, p);
      assert ps[0] in ps && forall piece :: piece in ps[1..] ==> piece in ps;
      PiecesAt(read, s, text, one, ps[1..], p + |text(ps[0])|);
    }
  }

  /** The interpretation of a format string from a position on. */
  function Reading(g: Grammar<Fragment>, rec: RecordView, s: string): nat -> Option<string> {
    (p: nat) => if p <= |s| then Interpret(g, Renderer(rec), s, p) else None
  }

  function SlotRenderer(fields: FieldMap, rec: RecordView): Piece -> Option<string> {
    piece => PieceRendered(fields, rec, piece)
  }

  lemma PieceIsRead(g: Grammar<Fragment>, fields: FieldMap, rec: RecordView, s: string, text: Piece -> string,
          p: nat, piece: Piece)
    requires p + |text(piece)| <= |s| && Scanned(g, fields, s, p, p + |text(piece)|, piece)
    ensures ReadsAt(Reading(g, rec, s), text, SlotRenderer(fields, rec), p, piece)
  {
    PieceAt(g, fields, rec, s, p, p + |text(piece)|, piece);
  }

  /** The grammar scans every piece wherever its text occurs. */
  ghost predicate ScansPieces(g: Grammar<Fragment>, fields: FieldMap, s: string, text: Piece -> string,
          ps: seq<Piece>) {
    forall p: nat, piece {:trigger OccursAt(text(piece), s, p)} :: piece in ps && OccursAt(text(piece), s, p) ==>
      Scanned(g, fields, s, p, p + |text(piece)|, piece)
  }

  lemma PiecesAreRead(g: Grammar<Fragment>, fields: FieldMap, rec: RecordView, s: string, text: Piece -> string,
          ps: seq<Piece>)
    requires ScansPieces(g, fields, s, text, ps)
    ensures ReadsPieces(Reading(g, rec, s), s, text, SlotRenderer(fields, rec), ps)
  {
    forall p: nat, piece | piece in ps && OccursAt(text(piece), s, p)
      ensures ReadsAt(Reading(g, rec, s), text, SlotRenderer(fields, rec), p, piece)
    {
      PieceIsRead(g, fields, rec, s, text, p, piece);
    }
  }

  lemma ScansWritable(fields: FieldMap, style: Style, s: string, ps: seq<Piece>)
    requires forall piece :: piece in ps ==> Writable(style, piece)
    ensures ScansPieces(GrammarOf(fields, style), fields, s, Spelling(style), ps)
  {
    forall p: nat, piece | piece in ps && OccursAt(Spelling(style)(piece), s, p)
      ensures Scanned(GrammarOf(fields, style), fields, s, p, p + |Spelling(style)(piece)|, piece)
    {
      PieceIsScanned(fields, style, s, p, piece);
    }
  }

  /** A field named by the table has the attribute's value. */
  ghost predicate SlotsAreAttributes(fields: FieldMap, rec: RecordView, ps: seq<Piece>) {
    forall name {:trigger Slot(name)} ::
      Slot(name) in ps && name in fields ==> rec.attribute(name) == Some(rec.slot(fields[name]))
  }

  lemma {:induction false} PiecesAgree(fields: FieldMap, rec: RecordView, ps: seq<Piece>)
    requires SlotsAreAttributes(fields, rec, ps)
    ensures Render(SlotRenderer(fields, rec), ps) == Meaning(rec, ps)
  {
    if ps != [] {
      assert ps[0] in ps;
      PiecesAgree(fields, rec, ps[1..]);
    }
  }

  /** A record with every attribute but `funcname`. */
  function Unspelled(): RecordView {
    RecordView(_ => "", name => if name == "funcname" then None else Some(""))
  }

  lemma {:induction false} PiecesDiffer(fields: FieldMap, ps: seq<Piece>)
    requires "funcname" in fields
    ensures Render(SlotRenderer(fields, Unspelled()), ps).Some?
    ensures Slot("funcname") in ps ==> Meaning(Unspelled(), ps).None?
  {
    if ps != [] {
      assert ps[0] == Slot("funcname") ==> PieceMeaning(Unspelled(), ps[0]).None?;
      PiecesDiffer(fields, ps[1..]);
    }
  }

  ghost predicate CompiledAgrees(fields: FieldMap, style: Style, ps: seq<Piece>, rec: RecordView) {
    Render(Renderer(rec), Fragments(fields, style, Unparse(style, ps))) == Meaning(rec, ps)
  }

  lemma CompiledPieces(fields: FieldMap, style: Style, ps: seq<Piece>, rec: RecordView)
    requires forall piece :: piece in ps ==> Writable(style, piece)
    ensures Render(Renderer(rec), Fragments(fields, style, Unparse(style, ps)))
         == Render(SlotRenderer(fields, rec), ps)
  {
    var s := Unparse(style, ps);
    RenderIsInterpret(GrammarOf(fields, style), Renderer(rec), s, 0);
    assert s[0..|s|] == s;
    ScansWritable(fields, style, s, ps);
    PiecesAreRead(GrammarOf(fields, style), fields, rec, s, Spelling(style), ps);
    PiecesAt(Reading(GrammarOf(fields, style), rec, s), s, Spelling(style), SlotRenderer(fields, rec), ps, 0);
  }

  lemma RecordSlots(fields: FieldMap, rec: RecordView, ps: seq<Piece>)
    requires IsRecord(fields, rec) && Slot("funcname") !in ps && "funcName" !in fields
    ensures SlotsAreAttributes(fields, rec, ps)
  {
    forall name | Slot(name) in ps && name in fields
      ensures rec.attribute(name) == Some(rec.slot(fields[name]))
    {
      assert name in Members(fields) && Members(fields)[name] == fields[name];
    }
  }

  lemma UnspelledIsRecord(fields: FieldMap)
    ensures IsRecord(fields, Unspelled())
  {
    assert "funcname" != "funcName" by {
      assert "funcname"[4] != "funcName"[4];
    }
  }

  lemma CompiledMeansFormatOver(fields: FieldMap, style: Style, ps: seq<Piece>)
    requires forall piece :: piece in ps ==> Writable(style, piece)
    requires "funcname" in fields && "funcName" !in fields
    ensures (forall rec :: IsRecord(fields, rec) ==> CompiledAgrees(fields, style, ps, rec)) <==>
      Slot("funcname") !in ps
  {
    if Slot("funcname") in ps {
      UnspelledIsRecord(fields);
      CompiledPieces(fields, style, ps, Unspelled());
      PiecesDiffer(fields, ps);
      assert !CompiledAgrees(fields, style, ps, Unspelled());
    } else {
      forall rec | IsRecord(fields, rec)
        ensures CompiledAgrees(fields, style, ps, rec)
      {
        CompiledPieces(fields, style, ps, rec);
        RecordSlots(fields, rec, ps);
        PiecesAgree(fields, rec, ps);
      }
    }
  }

  /** Compiling and rendering a format gives its meaning over the record's attributes, on every
      record, exactly when no field is spelled `funcname`: the field table has that name where the
      record's attribute is `funcName`. */
  lemma CompiledMeansFormat(style: Style, ps: seq<Piece>)
    requires forall piece :: piece in ps ==> Writable(style, piece)
    ensures (forall rec :: IsRecord(FIELD_MAP, rec) ==> CompiledAgrees(FIELD_MAP, style, ps, rec))
       <==> Slot("funcname") !in ps
  {
    CompiledMeansFormatOver(FIELD_MAP, style, ps);
  }

  // ----- the asctime field

  /** Exactly one name denotes the asctime slot. */
  ghost predicate NamesAsctime(fields: FieldMap) {
    "asctime" in fields && forall name :: name in fields ==> (fields[name] == Asctime <==> name == "asctime")
  }

  lemma TableNamesAsctime()
    ensures NamesAsctime(FIELD_MAP)
  {
  }

  lemma AsctimeMatch(style: Style, s: string, a: nat)
    requires a <= |s| && MatchAt(style, s, a) > 0
    requires NameIn(style, s, a, MatchAt(style, s, a)) == "asctime"
    ensures OccursAt(TimeText(style), s, a)
  {
    var n := MatchAt(style, s, a);
    var m := s[a..a + n];
    if style.Percent? {
      assert n == 11 && m == m[..2] + "asctime" + m[9..];
      assert m[0] == '%' && m[1] == '(' && m[9] == ')';
      assert s[a..a + 10] == m[..10] == "%(asctime)";
    } else {
      assert n == 9 && m == m[..1] + "asctime" + m[8..];
      assert m[0] == '{' && m[8] == '}';
      assert s[a..a + 9] == m;
    }
  }

  lemma AsctimeFragmentMatches(fields: FieldMap, style: Style, s: string, a: nat)
    requires NamesAsctime(fields) && a <= |s|
    ensures var g := GrammarOf(fields, style);
      MatchLength(g, s, a) > 0 && FieldAt(g, s, a) == Known(Asctime) ==> OccursAt(TimeText(style), s, a)
  {
    MatchLengthIs(fields, style, s, a);
    FieldAtIs(fields, style, s, a);
    if MatchAt(style, s, a) > 0 && NameIn(style, s, a, MatchAt(style, s, a)) == "asctime" {
      AsctimeMatch(style, s, a);
    }
  }

  /** Every fragment that is no literal comes from a match. */
  lemma FragmentIsMatched(g: Grammar<Fragment>, s: string, f: Fragment) returns (a: nat)
    requires f in Compile(g, s, 0) && forall t :: g.literal(t) != f
    ensures a <= |s| && Taken(g, s, a) && MatchLength(g, s, a) > 0 && FieldAt(g, s, a) == f
  {
    a := CompiledIsTaken(g, s, 0, f);
  }

  /** The asctime slot is among the fragments only if the date test finds the field. */
  lemma AsctimeUsesTime(fields: FieldMap, style: Style, s: string)
    requires NamesAsctime(fields)
    ensures Known(Asctime) in Fragments(fields, style, s) ==> Occurs(TimeText(style), s)
  {
    if Known(Asctime) in Fragments(fields, style, s) {
      var a := FragmentIsMatched(GrammarOf(fields, style), s, Known(Asctime));
      AsctimeFragmentMatches(fields, style, s, a);
      assert OccursAt(TimeText(style), s, a);
    }
  }

  /** Matches of the brace style do not overlap. */
  lemma BraceMatchesApart(s: string, q: nat, p: nat)
    requires q < p < |s| && s[p] == '{'
    ensures q + MatchAt(Brace, s, q) <= p
  {
  }

  /** In the brace style the date test is exact. */
  lemma BraceAsctimeIsExact(fields: FieldMap, s: string)
    requires NamesAsctime(fields)
    ensures Known(Asctime) in Fragments(fields, Brace, s) <==> Occurs(TimeText(Brace), s)
  {
    AsctimeUsesTime(fields, Brace, s);
    if Occurs(TimeText(Brace), s) {
      var p :| 0 <= p < |s| && OccursAt(TimeText(Brace), s, p);
      BraceAsctimeAt(fields, s, p);
    }
  }

  lemma BraceTimeText()
    ensures TimeText(Brace) == FieldText(Brace, "asctime", 's')
  {
  }

  lemma BraceAsctimeAt(fields: FieldMap, s: string, p: nat)
    requires NamesAsctime(fields) && OccursAt(TimeText(Brace), s, p)
    ensures Known(Asctime) in Fragments(fields, Brace, s)
  {
    var g := GrammarOf(fields, Brace);
    BraceTimeText();
    assert s[p] == '{' by {
      assert s[p] == s[p..p + 9][0];
    }
    FieldTextCompiles(fields, Brace, s, p, "asctime", 's');
    forall q | 0 <= q < p
      ensures q + MatchLength(g, s, q) <= p
    {
      BraceMatchesApart(s, q, p);
      MatchLengthIs(fields, Brace, s, q);
    }
    ApartIsTaken(g, s, p);
    TakenIsCompiled(g, s, 0, p);
  }

  /** A field for the date at `p` that counts, in the percent style: its text, and a conversion, not
      overlapped by an earlier match that counts. */
  ghost predicate CountsAt(fields: FieldMap, s: string, p: nat) {
    OccursAt(TimeText(Percent), s, p) && Taken(GrammarOf(fields, Percent), s, p)
  }

  /** The conversion makes the text of the field a match. */
  lemma AsctimeFieldAt(fields: FieldMap, s: string, p: nat)
    requires OccursAt(TimeText(Percent), s, p) && p + 10 < |s| && IsConversion(s[p + 10])
    ensures MatchLength(GrammarOf(fields, Percent), s, p) == 11
    ensures FieldAt(GrammarOf(fields, Percent), s, p) == FieldFragment(fields, "asctime")
  {
    var c := s[p + 10];
    assert s[p..p + 11] == s[p..p + 10] + [c];
    assert FieldText(Percent, "asctime", c) == TimeText(Percent) + [c];
    FieldTextCompiles(fields, Percent, s, p, "asctime", c);
  }

  /** Only a conversion makes it one. */
  lemma AsctimeNeedsConversion(s: string, p: nat)
    requires OccursAt(TimeText(Percent), s, p) && MatchAt(Percent, s, p) > 0
    ensures p + 10 < |s| && IsConversion(s[p + 10])
  {
    forall k | 0 <= k < 10
      ensures s[p + k] == TimeText(Percent)[k]
    {
      assert s[p..p + 10][k] == s[p + k];
    }
    forall k | 0 <= k < 7
      ensures s[p + 2 + k] == "asctime"[k]
    {
      assert TimeText(Percent)[2 + k] == "asctime"[k];
    }
    NameRun(s, p + 2, "asctime");
    assert s[p + 9] == ')';
  }

  /** In the percent style the asctime slot is among the fragments exactly when some occurrence of the
      text counts as a field; so the date test, which looks for any occurrence, agrees with the
      fragments exactly when there is no occurrence or one that counts. */
  lemma PercentAsctimeExactly(fields: FieldMap, s: string)
    requires NamesAsctime(fields)
    ensures Known(Asctime) in Fragments(fields, Percent, s) <==> exists p: nat :: CountsAt(fields, s, p)
    ensures (Known(Asctime) in Fragments(fields, Percent, s) <==> Occurs(TimeText(Percent), s)) <==>
      (Occurs(TimeText(Percent), s) ==> exists p: nat :: CountsAt(fields, s, p))
  {
    AsctimeUsesTime(fields, Percent, s);
    var g := GrammarOf(fields, Percent);
    if Known(Asctime) in Fragments(fields, Percent, s) {
      var a := FragmentIsMatched(g, s, Known(Asctime));
      AsctimeFragmentMatches(fields, Percent, s, a);
      assert CountsAt(fields, s, a);
    }
    if p: nat :| CountsAt(fields, s, p) {
      MatchLengthIs(fields, Percent, s, p);
      AsctimeNeedsConversion(s, p);
      AsctimeFieldAt(fields, s, p);
      TakenIsCompiled(g, s, 0, p);
    }
  }

  /** No field uses the conversion that can start the next field. */
  ghost predicate NoPercentConversion(s: string) {
    forall q {:trigger MatchAt(Percent, s, q)} :: 0 <= q < |s| && MatchAt(Percent, s, q) > 0 ==>
      s[q + MatchAt(Percent, s, q) - 1] != '%'
  }

  lemma PercentMatchesApart(s: string, q: nat, p: nat)
    requires NoPercentConversion(s) && q < p < |s| && s[p] == '%'
    ensures q + MatchAt(Percent, s, q) <= p
  {
  }

  /** Where no field uses that conversion, a date field that has a conversion counts; so the test is
      exact for every such format in which each text it finds is followed by a conversion. */
  lemma PercentAsctimeIsExact(fields: FieldMap, s: string)
    requires NamesAsctime(fields) && NoPercentConversion(s)
    requires forall p: nat :: OccursAt(TimeText(Percent), s, p) ==> p + 10 < |s| && IsConversion(s[p + 10])
    ensures Known(Asctime) in Fragments(fields, Percent, s) <==> Occurs(TimeText(Percent), s)
  {
    AsctimeUsesTime(fields, Percent, s);
    PercentAsctimeExactly(fields, s);
    if Occurs(TimeText(Percent), s) {
      var p :| 0 <= p < |s| && OccursAt(TimeText(Percent), s, p);
      var g := GrammarOf(fields, Percent);
      AsctimeFieldAt(fields, s, p);
      assert s[p] == '%' by {
        assert s[p..p + 10][0] == s[p];
      }
      forall q | 0 <= q < p
        ensures q + MatchLength(g, s, q) <= p
      {
        PercentMatchesApart(s, q, p);
        MatchLengthIs(fields, Percent, s, q);
      }
      ApartIsTaken(g, s, p);
      assert CountsAt(fields, s, p);
    }
  }

  /** A format for which it is not: the second field starts at the first one's conversion. */
  lemma PercentAsctimeIsInexact(fields: FieldMap)
    requires "x" !in fields
    ensures Occurs(TimeText(Percent), "%(x)%(asctime)s")
    ensures Fragments(fields, Percent, "%(x)%(asctime)s") == [Unknown("x"), Literal("(asctime)s")]
  {
    var a, b := FieldText(Percent, "x", '%'), "(asctime)s";
    var s := a + b;
    assert s == "%(x)%(asctime)s";
    assert OccursAt(TimeText(Percent), s, 4);
    FieldThenText(fields, "x", '%', b);
  }

  lemma FieldThenText(fields: FieldMap, name: string, c: char, b: string)
    requires WordName(name) && IsConversion(c) && b != "" && '%' !in b
    ensures Fragments(fields, Percent, FieldText(Percent, name, c) + b) == [FieldFragment(fields, name), Literal(b)]
  {
    var a := FieldText(Percent, name, c);
    var s := a + b;
    assert OccursAt(s, s, 0);
    OccursSplit(a, b, s, 0);
    FieldTextCompiles(fields, Percent, s, 0, name, c);
    NoMatch(fields, Percent, s, |a|, |s|);
    TwoFragments(GrammarOf(fields, Percent), s, |a|, FieldFragment(fields, name), Literal(b));
  }

  lemma TwoFragments<F>(g: Grammar<F>, s: string, k: nat, a: F, b: F)
    requires IsSpan(g, s, 0, k, a) && IsSpan(g, s, k, |s|, b)
    ensures Compile(g, s, 0) == [a, b]
  {
    TilesFrom(g, s, k, |s|, b, [], []);
    TilesFrom(g, s, 0, k, a, [|s|], [b]);
    TilingIsUnique(g, s, 0, [k, |s|], [a, b]);
  }
}
