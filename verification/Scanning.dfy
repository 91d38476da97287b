/** Characters, source positions and the cursor that both hand-written parsers read through. */
module Scanning {
  import opened SysmlModel

  datatype Span = Span(start: nat, end: nat, line: nat, col: nat)

  // ----- Characters -----

  /** The Unicode White_Space property. */
  predicate IsWhitespace(c: char) {
    var n := c as int;
    || 0x9 <= n <= 0xd || n == 0x20 || n == 0x85 || n == 0xa0 || n == 0x1680 || 0x2000 <= n <= 0x200a
    || n == 0x2028 || n == 0x2029 || n == 0x202f || n == 0x205f || n == 0x3000
  }

  predicate IsAsciiLetter(c: char) { 'a' <= c <= 'z' || 'A' <= c <= 'Z' }

  predicate IsDigit(c: char) { '0' <= c <= '9' }

  // ----- Positions -----

  function LineAt(chars: string, pos: nat): nat
    requires pos <= |chars|
  {
    if pos == 0 then 1 else LineAt(chars, pos - 1) + if chars[pos - 1] == '\n' then 1 else 0
  }

  function ColAt(chars: string, pos: nat): nat
    requires pos <= |chars|
  {
    if pos == 0 || chars[pos - 1] == '\n' then 1 else ColAt(chars, pos - 1) + 1
  }

  function SpanAt(chars: string, start: nat, end: nat): Span
    requires start <= |chars|
  {
    Span(start, end, LineAt(chars, start), ColAt(chars, start))
  }

  predicate At(chars: string, pos: nat, c: char) {
    pos < |chars| && chars[pos] == c
  }

  /** Where the longest run of characters of a class, starting at `pos`, ends. */
  function RunEnd(inClass: char -> bool, chars: string, pos: nat): (end: nat)
    requires pos <= |chars|
    ensures pos <= end <= |chars|
    decreases |chars| - pos
  {
    if pos < |chars| && inClass(chars[pos]) then RunEnd(inClass, chars, pos + 1) else pos
  }

  function SkipWs(chars: string, pos: nat): (end: nat)
    requires pos <= |chars|
    ensures pos <= end <= |chars|
  {
    RunEnd(IsWhitespace, chars, pos)
  }

  /** A reading head over a text, keeping the line and column of its position. */
  class Cursor {
    const chars: string
    var pos: nat
    var line: nat
    var col: nat

    ghost predicate Valid()
      reads this
    {
      pos <= |chars| && line == LineAt(chars, pos) && col == ColAt(chars, pos)
    }

    constructor (source: string)
      ensures Valid() && chars == source && pos == 0
    {
      chars := source;
      pos, line, col := 0, 1, 1;
    }

    function Peek(): (c: Option<char>)
      reads this
    {
      if pos < |chars| then Some(chars[pos]) else None
    }

    /** Whether the character `offset` places ahead is `c`. */
    predicate Sees(c: char, offset: nat := 0)
      reads this
    {
      At(chars, pos + offset, c)
    }

    predicate Eof()
      reads this
    {
      pos >= |chars|
    }

    method Advance() returns (c: Option<char>)
      requires Valid()
      modifies this
      ensures Valid()
      ensures c == old(Peek())
      ensures pos == if c.Some? then old(pos) + 1 else old(pos)
    {
      c := Peek();
      if c.Some? {
        pos := pos + 1;
        if c.value == '\n' {
          line, col := line + 1, 1;
        } else {
          col := col + 1;
        }
      }
    }

    function Mark(): (s: Span)
      reads this
      requires Valid()
      ensures s == SpanAt(chars, pos, pos)
    {
      Span(pos, pos, line, col)
    }

    function SpanFrom(start: Span): Span
      reads this
    {
      Span(start.start, pos, start.line, start.col)
    }

    method SkipWhitespace()
      requires Valid()
      modifies this
      ensures Valid() && pos == SkipWs(chars, old(pos))
    {
      while !Eof() && IsWhitespace(chars[pos])
        invariant Valid() && old(pos) <= pos
        invariant SkipWs(chars, pos) == SkipWs(chars, old(pos))
        decreases |chars| - pos
      {
        var _ := Advance();
      }
    }
  }

  /** The loop every token reader shares: characters are taken while they belong to the class. */
  method ReadRun(inClass: char -> bool, cursor: Cursor) returns (s: string)
    requires cursor.Valid()
    modifies cursor
    ensures cursor.Valid()
    ensures cursor.pos == RunEnd(inClass, cursor.chars, old(cursor.pos))
    ensures s == cursor.chars[old(cursor.pos)..cursor.pos]
  {
    s := "";
    while !cursor.Eof() && inClass(cursor.chars[cursor.pos])
      invariant cursor.Valid() && old(cursor.pos) <= cursor.pos
      invariant RunEnd(inClass, cursor.chars, cursor.pos) == RunEnd(inClass, cursor.chars, old(cursor.pos))
      invariant s == cursor.chars[old(cursor.pos)..cursor.pos]
      decreases |cursor.chars| - cursor.pos
    {
      var c := cursor.Advance();
      s := s + [c.value];
    }
  }
}
