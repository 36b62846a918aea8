/** The meaning of `MultipartFormDataParser::parse` on plain strings.

    A parser state holds the text not yet consumed and the calls made to the two callbacks so far. `Step` is one
    turn of the parser's outer loop, `Run` the whole loop, `Parse` one call, `Feed` a sequence of calls. */
module Multipart {
  import opened Text
  import opened PartHeader

  const MAX_HEADER_LENGTH: nat := 8192

  /** `state_`, 0 to 4. */
  datatype Phase = InitialBoundary | NewEntry | Headers | Body | Boundary

  datatype Event = HeaderEvent(file: FileInfo) | ContentEvent(data: string)

  /** What `set_boundary` stores, and the callbacks: `accepts(history)` is what the callback answers to the last
      event of `history`. */
  datatype Settings = Settings(opening: string, delimiter: string, accepts: seq<Event> -> bool) {
    ghost predicate AcceptsAll() { forall history :: accepts(history) }
  }

  type Config = c: Settings | c.opening != "" && c.delimiter != ""
    witness Settings("-", "-", (history: seq<Event>) => true)

  /** `dash_boundary_crlf_` */
  function Opening(boundary: string): string { "--" + boundary + "\r\n" }

  /** `crlf_dash_boundary_` */
  function Delimiter(boundary: string): string { "\r\n--" + boundary }

  function SetBoundary(boundary: string, accepts: seq<Event> -> bool): Config {
    Settings(Opening(boundary), Delimiter(boundary), accepts)
  }

  /** `dash_crlf_` */
  const DASH_CRLF: string := "--\r\n"

  datatype Parser = Parser(phase: Phase, valid: bool, file: FileInfo, rest: string, events: seq<Event>)

  const INITIAL: Parser := Parser(InitialBoundary, false, NO_FILE_INFO, "", [])

  datatype Outcome = Goes(next: Parser) | Stops(last: Parser, ok: bool)

  // ----- One turn of the loop -----

  function InitialStep(c: Config, p: Parser): (o: Outcome)
    ensures o.Goes? ==> |o.next.rest| < |p.rest|
  {
    var opening := c.opening;
    var q := p.(rest := p.rest[Find(p.rest, opening)..]);
    if |opening| > |q.rest| then Stops(q, true)
    else if !StartsWith(q.rest, opening) then Stops(q, false)
    else Goes(q.(rest := q.rest[|opening|..], phase := NewEntry))
  }

  /** A callback call: a refusal ends the parse as invalid. */
  function Report(c: Config, p: Parser, e: Event): (Parser, bool) {
    var q := p.(events := p.events + [e]);
    if c.accepts(q.events) then (q, true) else (q.(valid := false), false)
  }

  /** The inner loop over header lines. */
  function HeaderLines(c: Config, p: Parser): (o: Outcome)
    ensures o.Goes? ==> |o.next.rest| < |p.rest| && o.next.phase == Body && o.next.valid == p.valid
    decreases |p.rest|
  {
    var pos := Find(p.rest, CRLF);
    if pos >= |p.rest| then Stops(p, true)
    else if pos == 0 then
      var (q, ok) := Report(c, p, HeaderEvent(p.file));
      if ok then Goes(q.(rest := p.rest[|CRLF|..], phase := Body)) else Stops(q, false)
    else
      HeaderLines(c, AfterLine(p, pos))
  }

  /** The header line of `pos` characters is read and erased. */
  function AfterLine(p: Parser, pos: nat): Parser
    requires pos + |CRLF| <= |p.rest|
  {
    p.(file := ReadHeaderLine(p.file, p.rest[..pos]), rest := p.rest[pos + |CRLF|..])
  }

  function HeaderStep(c: Config, p: Parser): (o: Outcome)
    ensures o.Goes? ==> |o.next.rest| < |p.rest|
  {
    if Find(p.rest, CRLF) > MAX_HEADER_LENGTH then Stops(p, false) else HeaderLines(c, p)
  }

  function BodyStep(c: Config, p: Parser): (o: Outcome)
    ensures o.Goes? ==> |o.next.rest| < |p.rest|
  {
    if |c.delimiter| > |p.rest| then Stops(p, true)
    else
      var pos := Find(p.rest, c.delimiter);
      if pos < |p.rest| then
        var (q, ok) := Report(c, p, ContentEvent(p.rest[..pos]));
        if ok then Goes(q.(rest := p.rest[pos + |c.delimiter|..], phase := Boundary)) else Stops(q, false)
      else
        var len := |p.rest| - |c.delimiter|;
        if len == 0 then Stops(p, true)
        else
          var (q, ok) := Report(c, p, ContentEvent(p.rest[..len]));
          if ok then Stops(q.(rest := p.rest[len..]), true) else Stops(q, false)
  }

  function BoundaryStep(p: Parser): (o: Outcome)
    ensures o.Goes? ==> |o.next.rest| < |p.rest|
  {
    if |CRLF| > |p.rest| then Stops(p, true)
    else if StartsWith(p.rest, CRLF) then Goes(p.(rest := p.rest[|CRLF|..], phase := NewEntry))
    else if |DASH_CRLF| > |p.rest| then Stops(p, true)
    else if StartsWith(p.rest, DASH_CRLF) then Goes(p.(valid := true, rest := ""))
    else Stops(p, true)
  }

  function Step(c: Config, p: Parser): (o: Outcome)
    requires p.rest != ""
    ensures o.Goes? && p.phase != NewEntry ==> |o.next.rest| < |p.rest|
  {
    match p.phase
    case InitialBoundary => InitialStep(c, p)
    case NewEntry => Goes(p.(file := NO_FILE_INFO, phase := Headers))
    case Headers => HeaderStep(c, p)
    case Body => BodyStep(c, p)
    case Boundary => BoundaryStep(p)
  }

  // ----- Whole calls -----

  /** The outer loop: the state it ends in and what `parse` returns. */
  function Run(c: Config, p: Parser): (Parser, bool)
    decreases |p.rest|, if p.phase.NewEntry? then 1 else 0
  {
    if p.rest == "" then (p, true)
    else
      match Step(c, p)
      case Stops(last, ok) => (last, ok)
      case Goes(next) => Run(c, next)
  }

  function Append(p: Parser, data: string): Parser {
    p.(rest := p.rest + data)
  }

  function Parse(c: Config, p: Parser, data: string): (Parser, bool) {
    Run(c, Append(p, data))
  }

  /** One call per chunk, until one returns false. */
  function Feed(c: Config, p: Parser, chunks: seq<string>): (Parser, bool)
    decreases chunks
  {
    if chunks == [] then (p, true)
    else
      var (q, ok) := Parse(c, p, chunks[0]);
      if ok then Feed(c, q, chunks[1..]) else (q, false)
  }

  function Concat(chunks: seq<string>): string {
    if chunks == [] then "" else chunks[0] + Concat(chunks[1..])
  }

  // ----- What the callbacks' owner sees -----

  /** A part as the server collects it: each header callback opens a part, each content callback extends the
      last one. */
  datatype Part = Part(file: FileInfo, content: string)

  function Absorb(parts: seq<Part>, e: Event): seq<Part> {
    match e
    case HeaderEvent(file) => parts + [Part(file, "")]
    case ContentEvent(data) =>
      if parts == [] then []
      else
        var last := parts[|parts| - 1];
        parts[..|parts| - 1] + [last.(content := last.content + data)]
  }

  function Collect(events: seq<Event>): seq<Part> {
    if events == [] then [] else Absorb(Collect(events[..|events| - 1]), events[|events| - 1])
  }

  lemma CollectLast(events: seq<Event>, e: Event)
    ensures Collect(events + [e]) == Absorb(Collect(events), e)
  {
    assert (events + [e])[..|events|] == events;
  }

  /** Equal in everything but how the content was cut into callback calls. */
  predicate Same(p: Parser, q: Parser) {
    && p.phase == q.phase && p.valid == q.valid && p.file == q.file && p.rest == q.rest
    && Collect(p.events) == Collect(q.events)
  }
}
