/** Formatters applied to shared, mutable records: the date they write before rendering, the
    exception text they cache, and what one formatter's work means for the next. */
module Formatting {
  import opened FormatCompiler
  import opened FormatScan
  import opened Wrappers
  import opened Decimals

  /** Whether there is exception information, whether it is a tuple, and what printing it gives. */
  datatype ExcInfo = NoExc | Malformed | Raised(printed: string)

  /** None or False, a string, or another object given by its `str`. */
  datatype StackInfo = NoStack | StackText(text: string) | StackObject(repr: string)

  /** The milliseconds of a time, from its fraction. */
  type Millis = n: int | 0 <= n < 1000

  /** The fixed part of a record; `body` is the message with its arguments, unless that fails. */
  datatype Event = Event(
    body: Option<string>, seconds: int, millis: Millis, exc: ExcInfo, stack: StackInfo,
    fixed: Field -> string, extra: string -> Option<string>)

  /** The part of a record that formatters write. */
  datatype Scratch = Scratch(message: string, asctime: string, excText: Option<string>)

  /** A formatter's settings: no format string means the default one. */
  datatype Config = Config(style: Style, fmt: Option<string>, dateFmt: Option<string>,
    strftime: (string, int) -> string) {
    function FormatText(): string {
      fmt.GetOr("%(message)s")
    }

    predicate UsesTime() {
      fmt.Some? && Occurs(TimeText(style), fmt.value)
    }
  }

  datatype Error = BadArguments | MissingAttribute | BadExcInfo

  // ----- what one call computes

  /** `%03d`. */
  function ThreeDigits(n: nat): string {
    [Digit(n / 100 % 10), Digit(n / 10 % 10), Digit(n % 10)]
  }

  function Date(c: Config, e: Event): string {
    match c.dateFmt
    case Some(f) => c.strftime(f, e.seconds)
    case None => c.strftime("%F %T", e.seconds) + "," + ThreeDigits(e.millis)
  }

  /** The record as rendering sees it. */
  function SlotText(e: Event, s: Scratch, field: Field): string {
    match field
    case Message => s.message
    case Asctime => s.asctime
    case ExcText => s.excText.GetOr("None")
    case _ => e.fixed(field)
  }

  function ViewOf(fields: FieldMap, e: Event, s: Scratch): RecordView {
    RecordView(field => SlotText(e, s, field),
               name => if name in Members(fields) then Some(SlotText(e, s, Members(fields)[name])) else e.extra(name))
  }

  predicate EndsLine(s: string) {
    s != "" && s[|s| - 1] == '\n'
  }

  function Chomp(s: string): string {
    if EndsLine(s) then s[..|s| - 1] else s
  }

  /** Append on a line of its own. */
  function AppendLine(result: string, text: string): string {
    (if EndsLine(result) then result else result + "\n") + text
  }

  function WithStack(result: string, stack: StackInfo): string {
    match stack
    case NoStack => result
    case StackText(text) => if text == "" then result else AppendLine(result, text)
    case StackObject(repr) => AppendLine(result, repr)
  }

  /** Before rendering: the message, and the date if the format asks for it. */
  function Prepared(c: Config, e: Event, s: Scratch): Scratch
    requires e.body.Some?
  {
    Scratch(e.body.value, if c.UsesTime() then Date(c, e) else s.asctime, s.excText)
  }

  /** The format string read directly over the record. */
  function Body(c: Config, fields: FieldMap, e: Event, s: Scratch): Option<string> {
    Interpret(GrammarOf(fields, c.style), Renderer(ViewOf(fields, e, s)), c.FormatText(), 0)
  }

  /** The exception text once it is cached. */
  function Cached(e: Event, s: Scratch): Scratch {
    if s.excText.None? && e.exc.Raised? then s.(excText := Some(Chomp(e.exc.printed))) else s
  }

  /** The text after the body: the exception, then the stack. */
  function WithTail(result: string, e: Event, s: Scratch): string {
    WithStack(if s.excText.Some? then AppendLine(result, s.excText.value) else result, e.stack)
  }

  /** What becomes of a rendered body. */
  function Finished(body: Option<string>, e: Event, ready: Scratch): (Result<string, Error>, Scratch) {
    match body
    case None => (Err(MissingAttribute), ready)
    case Some(text) =>
      if ready.excText.None? && e.exc.Malformed? then (Err(BadExcInfo), ready)
      else (Ok(WithTail(text, e, Cached(e, ready))), Cached(e, ready))
  }

  /** The result of one call, and what it leaves in the record. */
  function Formatted(c: Config, fields: FieldMap, e: Event, s: Scratch): (Result<string, Error>, Scratch) {
    if e.body.None? then (Err(BadArguments), s)
    else Finished(Body(c, fields, e, Prepared(c, e, s)), e, Prepared(c, e, s))
  }

  // ----- the objects

  class LogRecord {
    const event: Event
    var message: string
    var asctime: string
    var excText: Option<string>

    constructor (event: Event)
      ensures this.event == event && State() == Scratch("None", "None", None)
    {
      this.event, message, asctime, excText := event, "None", "None", None;
    }

    function State(): Scratch
      reads this
    {
      Scratch(message, asctime, excText)
    }
  }

  class Formatter {
    const style: FormatStyle
    const dateFmt: Option<string>
    const usesTime: bool
    const strftime: (string, int) -> string

    ghost predicate Valid()
      reads this, style, style.fragments
    {
      style.Valid() && usesTime == style.UsesTime() && (style.usesDefaultFmt ==> style.fmt == "%(message)s")
    }

    function Settings(): Config
      reads this, style
    {
      Config(style.style, if style.usesDefaultFmt then None else Some(style.fmt), dateFmt, strftime)
    }

    constructor (fmt: Option<string>, dateFmt: Option<string>, style: Style, strftime: (string, int) -> string)
      ensures Valid() && fresh(this.style) && fresh(this.style.fragments)
      ensures Settings() == Config(style, fmt, dateFmt, strftime)
    {
      var compiled := new FormatStyle(fmt, style);
      this.style, this.dateFmt, this.strftime := compiled, dateFmt, strftime;
      usesTime := compiled.UsesTime();
    }

    /** `format`: writes the message and the date, renders, and appends exception and stack. */
    method Format(rec: LogRecord) returns (r: Result<string, Error>)
      requires Valid()
      modifies rec
      ensures (r, rec.State()) == Formatted(Settings(), FIELD_MAP, rec.event, old(rec.State()))
    {
      if rec.event.body.None? {
        return Err(BadArguments);
      }
      rec.message := rec.event.body.value;
      if usesTime {
        WriteDate(rec);
      }
      var text := style.Format(ViewOf(FIELD_MAP, rec.event, rec.State()));
      if text.None? {
        return Err(MissingAttribute);
      }
      r := AppendDetails(rec, text.value);
    }

    /** The second half of `format`: exception and stack. */
    static method AppendDetails(rec: LogRecord, text: string) returns (r: Result<string, Error>)
      modifies rec`excText
      ensures (r, rec.State()) == Finished(Some(text), rec.event, old(rec.State()))
    {
      if rec.event.exc != NoExc && rec.excText == None {
        if rec.event.exc.Malformed? {
          return Err(BadExcInfo);
        }
        CacheException(rec);
      }
      var result := AppendException(text, rec.excText);
      result := AppendStack(result, rec.event.stack);
      return Ok(result);
    }

    static method CacheException(rec: LogRecord)
      requires rec.event.exc.Raised? && rec.excText.None?
      modifies rec`excText
      ensures rec.State() == Cached(rec.event, old(rec.State()))
    {
      var printed := rec.event.exc.printed;
      if EndsLine(printed) {
        printed := printed[..|printed| - 1];
      }
      rec.excText := Some(printed);
    }

    static method AppendException(text: string, excText: Option<string>) returns (result: string)
      ensures result == if excText.Some? then AppendLine(text, excText.value) else text
    {
      result := text;
      if excText.Some? {
        if !EndsLine(result) {
          result := result + "\n";
        }
        result := result + excText.value;
      }
    }

    method WriteDate(rec: LogRecord)
      requires Valid()
      modifies rec`asctime
      ensures rec.asctime == Date(Settings(), rec.event)
    {
      if dateFmt.Some? {
        rec.asctime := strftime(dateFmt.value, rec.event.seconds);
      } else {
        rec.asctime := strftime("%F %T", rec.event.seconds) + "," + ThreeDigits(rec.event.millis);
      }
    }

    static method AppendStack(text: string, stack: StackInfo) returns (result: string)
      ensures result == WithStack(text, stack)
    {
      result := text;
      if !stack.NoStack? {
        var s := if stack.StackText? then stack.text else stack.repr;
        if stack.StackObject? || |s| > 0 {
          if !EndsLine(result) {
            result := result + "\n";
          }
          result := result + s;
        }
      }
    }
  }
}
