/** The textual notation's grammar as functions from a position in the text to what is read there
    and where reading stops. */
module TextSyntax {
  import opened SysmlModel
  import opened Scanning

  datatype ParsedElement =
    ParsedElement(kind: NodeKind, name: string, anchorId: Option<Id>, children: seq<ParsedElement>, span: Span)

  datatype Reason =
    | ExpectedKind | UnknownKind(word: string) | ExpectedName | UnterminatedName | UnterminatedEscape
    | ExpectedHash | EmptyAnchor | UnterminatedAnchor | UnterminatedBlock

  datatype ParseError = ParseError(reason: Reason, span: Span)

  /** `next` is the position just after what was read. */
  datatype Reading<+T> = Ok(value: T, next: nat) | Err(error: ParseError)

  function AsciiLower(c: char): char {
    if 'A' <= c <= 'Z' then c - 'A' + 'a' else c
  }

  function Lower(s: string): string {
    if s == "" then "" else [AsciiLower(s[0])] + Lower(s[1..])
  }

  /** What the notation needs of a classifier of alphanumeric characters, and Unicode's provides:
      none of them is white space or has a meaning of its own. */
  ghost predicate KeepsClear(al: char -> bool) {
    forall c :: al(c) ==> !IsWhitespace(c) && c !in {'"', '/', '{', '}'}
  }

  function NameChar(al: char -> bool): char -> bool {
    c => al(c) || c == '_' || c == '-'
  }

  function AnchorChar(): char -> bool {
    c => !IsWhitespace(c) && c != '*'
  }

  function ErrorAt(reason: Reason, chars: string, pos: nat): ParseError
    requires pos <= |chars|
  {
    ParseError(reason, SpanAt(chars, pos, pos))
  }

  // ----- Grammar -----

  function BareWord(chars: string, pos: nat): (r: Reading<string>)
    requires pos <= |chars|
    ensures r.Ok? ==> pos < r.next <= |chars|
  {
    var end := RunEnd(IsAsciiLetter, chars, pos);
    if end == pos then Err(ErrorAt(ExpectedKind, chars, pos)) else Ok(Lower(chars[pos..end]), end)
  }

  /** The rest of a quoted name whose opening quote stood at `start`. */
  function QuotedTail(chars: string, start: nat, pos: nat): (r: Reading<string>)
    requires start <= pos <= |chars|
    ensures r.Ok? ==> pos < r.next <= |chars|
    decreases |chars| - pos
  {
    if pos == |chars| then
      Err(ErrorAt(UnterminatedName, chars, start))
    else if chars[pos] == '"' then
      Ok("", pos + 1)
    else if chars[pos] != '\\' then
      Prepend([chars[pos]], QuotedTail(chars, start, pos + 1))
    else if pos + 1 == |chars| then
      Err(ErrorAt(UnterminatedEscape, chars, pos + 1))
    else
      Prepend(Unescape(chars[pos + 1]), QuotedTail(chars, start, pos + 2))
  }

  function Unescape(c: char): string {
    if c == '"' || c == '\\' then [c] else ['\\', c]
  }

  function Prepend(s: string, r: Reading<string>): Reading<string> {
    if r.Ok? then Ok(s + r.value, r.next) else r
  }

  function Identifier(al: char -> bool, chars: string, pos: nat): (r: Reading<string>)
    requires pos <= |chars|
    ensures r.Ok? ==> pos < r.next <= |chars|
  {
    if At(chars, pos, '"') then
      QuotedTail(chars, pos, pos + 1)
    else
      var end := RunEnd(NameChar(al), chars, pos);
      if end == pos then Err(ErrorAt(ExpectedName, chars, pos)) else Ok(chars[pos..end], end)
  }

  /** The optional identity anchor, a comment holding `#` and an id. */
  function Anchor(chars: string, pos: nat): (r: Reading<Option<Id>>)
    requires pos <= |chars|
    ensures r.Ok? ==> pos <= r.next <= |chars|
  {
    if At(chars, pos, '/') && At(chars, pos + 1, '*') then
      AnchorHash(chars, pos, SkipWs(chars, pos + 2))
    else
      Ok(None, pos)
  }

  function AnchorHash(chars: string, open: nat, pos: nat): (r: Reading<Option<Id>>)
    requires open <= pos <= |chars|
    ensures r.Ok? ==> pos <= r.next <= |chars|
  {
    if At(chars, pos, '#') then
      AnchorId(chars, open, SkipWs(chars, pos + 1))
    else
      Err(ErrorAt(ExpectedHash, chars, open))
  }

  function AnchorId(chars: string, open: nat, pos: nat): (r: Reading<Option<Id>>)
    requires open <= pos <= |chars|
    ensures r.Ok? ==> pos <= r.next <= |chars|
  {
    var end := RunEnd(AnchorChar(), chars, pos);
    if end == pos then
      Err(ErrorAt(EmptyAnchor, chars, open))
    else
      AnchorClose(chars, open, chars[pos..end], SkipWs(chars, end))
  }

  function AnchorClose(chars: string, open: nat, id: Id, pos: nat): (r: Reading<Option<Id>>)
    requires open <= pos <= |chars|
    ensures r.Ok? ==> pos <= r.next <= |chars|
  {
    if At(chars, pos, '*') && At(chars, pos + 1, '/') then
      Ok(Some(id), pos + 2)
    else
      Err(ErrorAt(UnterminatedAnchor, chars, open))
  }

  datatype Heading = Heading(kind: NodeKind, name: string, anchorId: Option<Id>)

  /** Everything about an element but its block, and the white space before that. */
  function HeadingAt(al: char -> bool, chars: string, pos: nat): (r: Reading<Heading>)
    requires pos <= |chars|
    ensures r.Ok? ==> pos < r.next <= |chars|
  {
    match BareWord(chars, pos)
    case Err(e) => Err(e)
    case Ok(word, p) =>
      match KindFromKeyword(word)
      case None => Err(ErrorAt(UnknownKind(word), chars, pos))
      case Some(kind) => NamedHeading(al, chars, kind, SkipWs(chars, p))
  }

  function NamedHeading(al: char -> bool, chars: string, kind: NodeKind, pos: nat): (r: Reading<Heading>)
    requires pos <= |chars|
    ensures r.Ok? ==> pos < r.next <= |chars|
  {
    match Identifier(al, chars, pos)
    case Err(e) => Err(e)
    case Ok(name, p) =>
      match Anchor(chars, SkipWs(chars, p))
      case Err(e) => Err(e)
      case Ok(anchorId, q) => Ok(Heading(kind, name, anchorId), SkipWs(chars, q))
  }

  function Built(h: Heading, children: seq<ParsedElement>, chars: string, start: nat, end: nat): Reading<ParsedElement>
    requires start <= |chars|
  {
    Ok(ParsedElement(h.kind, h.name, h.anchorId, children, SpanAt(chars, start, end)), end)
  }

  function ElementAt(al: char -> bool, chars: string, pos: nat): (r: Reading<ParsedElement>)
    requires pos <= |chars|
    ensures r.Ok? ==> pos < r.next <= |chars|
    decreases |chars| - pos, 0
  {
    match HeadingAt(al, chars, pos)
    case Err(e) => Err(e)
    case Ok(heading, p) =>
      if !At(chars, p, '{') then
        Built(heading, [], chars, pos, p)
      else
        match BlockItems(al, chars, p + 1)
        case Err(e) => Err(e)
        case Ok(children, end) => Built(heading, children, chars, pos, end)
  }

  /** What remains of a block, up to and including its closing brace. */
  function BlockItems(al: char -> bool, chars: string, pos: nat): (r: Reading<seq<ParsedElement>>)
    requires pos <= |chars|
    ensures r.Ok? ==> pos < r.next <= |chars|
    decreases |chars| - pos, 1
  {
    var p := SkipWs(chars, pos);
    if At(chars, p, '}') then
      Ok([], p + 1)
    else if p == |chars| then
      Err(ErrorAt(UnterminatedBlock, chars, p))
    else
      match ElementAt(al, chars, p)
      case Err(e) => Err(e)
      case Ok(first, q) => Cons(first, BlockItems(al, chars, q))
  }

  /** The rest of a document; `pos` is already past any white space. */
  function DocumentItems(al: char -> bool, chars: string, pos: nat): (r: Reading<seq<ParsedElement>>)
    requires pos <= |chars|
    decreases |chars| - pos
  {
    if pos == |chars| then
      Ok([], pos)
    else
      match ElementAt(al, chars, pos)
      case Err(e) => Err(e)
      case Ok(first, q) => Cons(first, DocumentItems(al, chars, SkipWs(chars, q)))
  }

  function Cons(first: ParsedElement, rest: Reading<seq<ParsedElement>>): Reading<seq<ParsedElement>> {
    if rest.Ok? then Ok([first] + rest.value, rest.next) else rest
  }

  function Document(al: char -> bool, chars: string): Reading<seq<ParsedElement>> {
    DocumentItems(al, chars, SkipWs(chars, 0))
  }
}
