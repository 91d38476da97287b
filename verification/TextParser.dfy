/** The recursive-descent parser, reading through a cursor; each method reads what the grammar
    function of the same construct says is there. */
module TextParser {
  import opened SysmlModel
  import opened Scanning
  import opened TextSyntax

  method Parse(al: char -> bool, source: string) returns (r: Reading<seq<ParsedElement>>)
    ensures r == Document(al, source)
  {
    var cursor := new Cursor(source);
    var elements := [];
    cursor.SkipWhitespace();
    AppendToNothing(DocumentItems(al, source, cursor.pos));
    while !cursor.Eof()
      invariant cursor.Valid() && cursor.chars == source
      invariant Document(al, source) == Append(elements, DocumentItems(al, source, cursor.pos))
      decreases |source| - cursor.pos
    {
      ghost var before := cursor.pos;
      var element := ParseElement(al, cursor);
      if element.Err? {
        return Err(element.error);
      }
      cursor.SkipWhitespace();
      ghost var rest := DocumentItems(al, source, cursor.pos);
      assert DocumentItems(al, source, before) == Cons(element.value, rest);
      AppendCons(elements, element.value, rest);
      elements := elements + [element.value];
    }
    assert elements + [] == elements;
    return Ok(elements, cursor.pos);
  }

  ghost function Append(done: seq<ParsedElement>, rest: Reading<seq<ParsedElement>>): Reading<seq<ParsedElement>> {
    if rest.Ok? then Ok(done + rest.value, rest.next) else rest
  }

  lemma AppendToNothing(rest: Reading<seq<ParsedElement>>)
    ensures Append([], rest) == rest
  {
    if rest.Ok? {
      assert [] + rest.value == rest.value;
    }
  }

  lemma AppendCons(done: seq<ParsedElement>, first: ParsedElement, rest: Reading<seq<ParsedElement>>)
    ensures Append(done, Cons(first, rest)) == Append(done + [first], rest)
  {
    if rest.Ok? {
      assert done + ([first] + rest.value) == (done + [first]) + rest.value;
    }
  }

  method ParseElement(al: char -> bool, cursor: Cursor) returns (r: Reading<ParsedElement>)
    requires cursor.Valid()
    modifies cursor
    ensures cursor.Valid()
    ensures r == ElementAt(al, cursor.chars, old(cursor.pos))
    ensures r.Ok? ==> cursor.pos == r.next
    decreases |cursor.chars| - cursor.pos, 0
  {
    hide RunEnd, LineAt, ColAt, IsWhitespace, BareWord, KindFromKeyword, Identifier, Anchor, BlockItems;
    ghost var chars, open := cursor.chars, cursor.pos;
    var start := cursor.Mark();
    var word := ParseBareWord(cursor);
    if word.Err? {
      return Err(word.error);
    }
    var kind := KindFromKeyword(word.value);
    if kind.None? {
      return Err(ParseError(UnknownKind(word.value), start));
    }
    cursor.SkipWhitespace();
    assert HeadingAt(al, chars, open) == NamedHeading(al, chars, kind.value, cursor.pos);
    var name := ParseIdentifier(al, cursor);
    if name.Err? {
      return Err(name.error);
    }
    cursor.SkipWhitespace();
    var anchorId := TryParseAnchor(cursor);
    if anchorId.Err? {
      return Err(anchorId.error);
    }
    cursor.SkipWhitespace();
    assert HeadingAt(al, chars, open) == Ok(Heading(kind.value, name.value, anchorId.value), cursor.pos);
    var children := [];
    if cursor.Sees('{') {
      var block := ParseBlock(al, cursor);
      if block.Err? {
        return Err(block.error);
      }
      children := block.value;
    }
    var span := cursor.SpanFrom(start);
    return Ok(ParsedElement(kind.value, name.value, anchorId.value, children, span), cursor.pos);
  }

  method ParseBareWord(cursor: Cursor) returns (r: Reading<string>)
    requires cursor.Valid()
    modifies cursor
    ensures cursor.Valid()
    ensures r == BareWord(cursor.chars, old(cursor.pos))
    ensures r.Ok? ==> cursor.pos == r.next
  {
    var start := cursor.Mark();
    var s := ReadRun(IsAsciiLetter, cursor);
    if s == "" {
      return Err(ParseError(ExpectedKind, start));
    }
    return Ok(Lower(s), cursor.pos);
  }

  method ParseIdentifier(al: char -> bool, cursor: Cursor) returns (r: Reading<string>)
    requires cursor.Valid()
    modifies cursor
    ensures cursor.Valid()
    ensures r == Identifier(al, cursor.chars, old(cursor.pos))
    ensures r.Ok? ==> cursor.pos == r.next
  {
    var start := cursor.Mark();
    if cursor.Sees('"') {
      r := ParseQuoted(cursor);
    } else {
      var s := ReadRun(NameChar(al), cursor);
      if s == "" {
        return Err(ParseError(ExpectedName, start));
      }
      return Ok(s, cursor.pos);
    }
  }

  method ParseQuoted(cursor: Cursor) returns (r: Reading<string>)
    requires cursor.Valid() && At(cursor.chars, cursor.pos, '"')
    modifies cursor
    ensures cursor.Valid()
    ensures r == QuotedTail(cursor.chars, old(cursor.pos), old(cursor.pos) + 1)
    ensures r.Ok? ==> cursor.pos == r.next
  {
    hide LineAt, ColAt;
    ghost var open := cursor.pos;
    var start := cursor.Mark();
    var _ := cursor.Advance();
    var s := "";
    PrependNothing(QuotedTail(cursor.chars, open, cursor.pos));
    while true
      invariant cursor.Valid() && open < cursor.pos
      invariant QuotedTail(cursor.chars, open, open + 1) == Prepend(s, QuotedTail(cursor.chars, open, cursor.pos))
      decreases |cursor.chars| - cursor.pos
    {
      var c := cursor.Advance();
      if c.None? {
        return Err(ParseError(UnterminatedName, start));
      }
      if c.value == '"' {
        assert s + "" == s;
        return Ok(s, cursor.pos);
      }
      var piece := [c.value];
      if c.value == '\\' {
        var escaped := cursor.Advance();
        if escaped.None? {
          return Err(ParseError(UnterminatedEscape, cursor.Mark()));
        }
        piece := Unescape(escaped.value);
      }
      PrependAssociates(s, piece, QuotedTail(cursor.chars, open, cursor.pos));
      s := s + piece;
    }
  }

  lemma PrependNothing(r: Reading<string>)
    ensures Prepend("", r) == r
  {
    if r.Ok? {
      assert "" + r.value == r.value;
    }
  }

  lemma PrependAssociates(a: string, b: string, r: Reading<string>)
    ensures Prepend(a, Prepend(b, r)) == Prepend(a + b, r)
  {
    if r.Ok? {
      assert a + (b + r.value) == (a + b) + r.value;
    }
  }

  method TryParseAnchor(cursor: Cursor) returns (r: Reading<Option<Id>>)
    requires cursor.Valid()
    modifies cursor
    ensures cursor.Valid()
    ensures r == Anchor(cursor.chars, old(cursor.pos))
    ensures r.Ok? ==> cursor.pos == r.next
  {
    hide RunEnd, LineAt, ColAt, IsWhitespace;
    ghost var chars, open := cursor.chars, cursor.pos;
    ghost var reading := Anchor(chars, open);
    if !cursor.Sees('/') || !cursor.Sees('*', 1) {
      return Ok(None, cursor.pos);
    }
    var start := cursor.Mark();
    var _ := cursor.Advance();
    var _ := cursor.Advance();
    cursor.SkipWhitespace();
    assert reading == AnchorHash(chars, open, cursor.pos);
    if !cursor.Sees('#') {
      return Err(ParseError(ExpectedHash, start));
    }
    var _ := cursor.Advance();
    cursor.SkipWhitespace();
    assert reading == AnchorId(chars, open, cursor.pos);
    var id := ReadRun(AnchorChar(), cursor);
    if id == "" {
      return Err(ParseError(EmptyAnchor, start));
    }
    cursor.SkipWhitespace();
    assert reading == AnchorClose(chars, open, id, cursor.pos);
    if !cursor.Sees('*') || !cursor.Sees('/', 1) {
      return Err(ParseError(UnterminatedAnchor, start));
    }
    var _ := cursor.Advance();
    var _ := cursor.Advance();
    return Ok(Some(id), cursor.pos);
  }

  method ParseBlock(al: char -> bool, cursor: Cursor) returns (r: Reading<seq<ParsedElement>>)
    requires cursor.Valid() && At(cursor.chars, cursor.pos, '{')
    modifies cursor
    ensures cursor.Valid()
    ensures r == BlockItems(al, cursor.chars, old(cursor.pos) + 1)
    ensures r.Ok? ==> cursor.pos == r.next
    decreases |cursor.chars| - cursor.pos, 0
  {
    ghost var chars, first := cursor.chars, cursor.pos + 1;
    var _ := cursor.Advance();
    var children := [];
    AppendToNothing(BlockItems(al, chars, first));
    while true
      invariant cursor.Valid() && first <= cursor.pos
      invariant BlockItems(al, chars, first) == Append(children, BlockItems(al, chars, cursor.pos))
      decreases |chars| - cursor.pos
    {
      ghost var here := cursor.pos;
      cursor.SkipWhitespace();
      if cursor.Sees('}') {
        var _ := cursor.Advance();
        assert BlockItems(al, chars, here) == Ok([], cursor.pos);
        assert children + [] == children;
        return Ok(children, cursor.pos);
      }
      if cursor.Eof() {
        return Err(ParseError(UnterminatedBlock, cursor.Mark()));
      }
      var element := ParseElement(al, cursor);
      if element.Err? {
        return Err(element.error);
      }
      ghost var rest := BlockItems(al, chars, cursor.pos);
      assert BlockItems(al, chars, here) == Cons(element.value, rest);
      AppendCons(children, element.value, rest);
      children := children + [element.value];
    }
  }
}
