/** Printing and then parsing gives the printed hierarchy back. */
module TextRoundTrip {
  import opened SysmlModel
  import opened Ordering
  import opened Scanning
  import opened ReadingBack
  import opened TextSyntax
  import opened Containment
  import opened TextPrinter

  /** An id the anchor reader takes whole. */
  ghost predicate LegalId(id: Id) {
    id != "" && forall i :: 0 <= i < |id| ==> AnchorChar()(id[i])
  }

  ghost predicate LegalIds(t: Outline) {
    LegalId(t.id) && forall c :: c in t.children ==> LegalIds(c)
  }

  /** The parsed element is the outline, spans aside. */
  ghost predicate Matches(p: ParsedElement, t: Outline)
    decreases t, 0
  {
    p.kind == t.kind && p.name == t.name && p.anchorId == Some(t.id) && MatchesAll(p.children, t.children)
  }

  ghost predicate MatchesAll(ps: seq<ParsedElement>, ts: seq<Outline>)
    decreases ts, 1
  {
    |ps| == |ts| && (ts != [] ==> Matches(ps[0], ts[0]) && MatchesAll(ps[1..], ts[1..]))
  }

  // ----- Tokens -----

  lemma {:induction false} LowerKeepsLower(s: string)
    requires AllLower(s)
    ensures Lower(s) == s && AllIn(IsAsciiLetter, s)
  {
    if s != "" {
      LowerKeepsLower(s[1..]);
      assert s == [s[0]] + s[1..];
    }
  }

  function EscapeChar(c: char): string {
    if c == '\\' then "\\\\" else if c == '"' then "\\\"" else [c]
  }

  function Escape(s: string): string {
    if s == "" then "" else EscapeChar(s[0]) + Escape(s[1..])
  }

  lemma ReplaceCons(x: char, rest: string, c: char, with: string)
    ensures Replace([x] + rest, c, with) == (if x == c then with else [x]) + Replace(rest, c, with)
  {
    assert ([x] + rest)[1..] == rest;
  }

  /** Doubling the backslashes first and escaping the quotes second escapes each character once. */
  lemma {:induction false} TwoReplacesEscape(s: string)
    ensures Replace(Replace(s, '\\', "\\\\"), '"', "\\\"") == Escape(s)
  {
    hide Replace;
    if s == "" {
      ReplaceNothing();
    } else {
      var rest := Replace(s[1..], '\\', "\\\\");
      assert s == [s[0]] + s[1..];
      ReplaceCons(s[0], s[1..], '\\', "\\\\");
      TwoReplacesEscape(s[1..]);
      if s[0] == '\\' {
        assert "\\\\" + rest == ['\\'] + (['\\'] + rest);
        ReplaceCons('\\', ['\\'] + rest, '"', "\\\"");
        ReplaceCons('\\', rest, '"', "\\\"");
        assert ['\\'] + (['\\'] + Escape(s[1..])) == "\\\\" + Escape(s[1..]);
      } else {
        ReplaceCons(s[0], rest, '"', "\\\"");
      }
    }
  }

  lemma ReplaceNothing()
    ensures forall c, with :: Replace("", c, with) == ""
  {
  }

  lemma QuotedCharReadsBack(chars: string, start: nat, pos: nat, c: char, tail: string)
    requires start <= pos && Reads(chars, pos, EscapeChar(c) + tail)
    ensures Reads(chars, pos + |EscapeChar(c)|, tail)
    ensures QuotedTail(chars, start, pos) == Prepend([c], QuotedTail(chars, start, pos + |EscapeChar(c)|))
  {
    var text := EscapeChar(c);
    Step(chars, pos, text, tail);
    assert chars[pos..pos + |text|][0] == chars[pos];
    if |text| == 2 {
      assert chars[pos..pos + |text|][1] == chars[pos + 1];
    }
  }

  lemma {:induction false} QuotedReadsBack(chars: string, start: nat, pos: nat, name: string, rest: string)
    requires start <= pos && Reads(chars, pos, Escape(name) + ("\"" + rest))
    ensures QuotedTail(chars, start, pos) == Ok(name, pos + |Escape(name)| + 1)
    ensures Reads(chars, pos + |Escape(name)| + 1, rest)
    decreases |name|
  {
    if name == "" {
      assert Escape(name) + ("\"" + rest) == "\"" + rest;
      Step(chars, pos, "\"", rest);
      assert chars[pos..pos + 1][0] == chars[pos];
    } else {
      var first, tail := EscapeChar(name[0]), Escape(name[1..]) + ("\"" + rest);
      Regroup(first, Escape(name[1..]), "\"" + rest);
      QuotedCharReadsBack(chars, start, pos, name[0], tail);
      QuotedReadsBack(chars, start, pos + |first|, name[1..], rest);
      assert name == [name[0]] + name[1..];
    }
  }

  lemma IdentifierReadsBack(al: char -> bool, chars: string, pos: nat, name: string, rest: string)
    requires KeepsClear(al) && Reads(chars, pos, FormatIdentifier(al, name) + (" " + rest))
    ensures Identifier(al, chars, pos) == Ok(name, pos + |FormatIdentifier(al, name)|)
    ensures Reads(chars, pos + |FormatIdentifier(al, name)|, " " + rest)
  {
    if IsBare(al, name) {
      BareReadsBack(al, chars, pos, name, rest);
    } else {
      hide Replace, QuotedTail, RunEnd, Reads, IsWhitespace, Escape;
      TwoReplacesEscape(name);
      var tail := Escape(name) + ("\"" + (" " + rest));
      assert FormatIdentifier(al, name) == "\"" + (Escape(name) + "\"");
      RegroupQuoted(Escape(name), " " + rest);
      NextIs(chars, pos, '"', tail);
      QuotedReadsBack(chars, pos, pos + 1, name, " " + rest);
    }
  }

  lemma RegroupQuoted(escaped: string, rest: string)
    ensures ("\"" + (escaped + "\"")) + rest == "\"" + (escaped + ("\"" + rest))
  {
    Regroup("\"", escaped + "\"", rest);
    Regroup(escaped, "\"", rest);
  }

  lemma BareReadsBack(al: char -> bool, chars: string, pos: nat, name: string, rest: string)
    requires KeepsClear(al) && IsBare(al, name) && Reads(chars, pos, name + (" " + rest))
    ensures Identifier(al, chars, pos) == Ok(name, pos + |name|)
    ensures Reads(chars, pos + |name|, " " + rest)
  {
    hide QuotedTail, RunEnd, LineAt, ColAt;
    RunEndAfter(NameChar(al), chars, pos, name, " " + rest);
    Step(chars, pos, name, " " + rest);
    assert chars[pos] == name[0] && NameChar(al)(name[0]);
  }

  /** Strings that begin with one of the notation's own characters do not begin with white space. */
  lemma MarksAreNotWhite(rest: string)
    ensures Apart(IsWhitespace, "/*" + rest) && Apart(IsWhitespace, "#" + rest)
    ensures Apart(IsWhitespace, "*/" + rest) && Apart(IsWhitespace, "{" + rest)
    ensures Apart(IsWhitespace, "}" + rest)
  {
  }

  lemma AnchorReadsBack(chars: string, pos: nat, id: Id, rest: string)
    requires LegalId(id) && Reads(chars, pos, " /* #" + (id + (" */" + rest)))
    ensures Anchor(chars, SkipWs(chars, pos)) == Ok(Some(id), pos + 5 + |id| + 3)
    ensures Reads(chars, pos + 5 + |id| + 3, rest)
  {
    hide AnchorHash, SkipWs, RunEnd, Apart, LegalId, Reads;
    var tail := id + (" */" + rest);
    var hash := " #" + tail;
    assert " /* #" + tail == " " + ("/*" + hash);
    MarksAreNotWhite(hash);
    SkipSpace(chars, pos, "/*" + hash);
    assert "/*" + hash == ['/'] + (['*'] + hash);
    NextIs(chars, pos + 1, '/', ['*'] + hash);
    NextIs(chars, pos + 2, '*', hash);
    AnchorHashReadsBack(chars, pos + 1, pos + 3, id, rest);
  }

  lemma AnchorHashReadsBack(chars: string, start: nat, pos: nat, id: Id, rest: string)
    requires start <= pos && LegalId(id) && Reads(chars, pos, " #" + (id + (" */" + rest)))
    ensures Reads(chars, pos + 2 + |id| + 3, rest) && SkipWs(chars, pos) == pos + 1
    ensures AnchorHash(chars, start, pos + 1) == Ok(Some(id), pos + 2 + |id| + 3)
  {
    hide AnchorId, SkipWs, RunEnd, Apart, Reads, IsWhitespace;
    var tail := id + (" */" + rest);
    assert " #" + tail == " " + ("#" + tail);
    MarksAreNotWhite(tail);
    SkipSpace(chars, pos, "#" + tail);
    NextIs(chars, pos + 1, '#', tail);
    IdStartsOutside(id, " */" + rest);
    NothingToSkip(chars, pos + 2, tail);
    AnchorIdReadsBack(chars, start, pos + 2, id, rest);
  }

  lemma IdStartsOutside(id: Id, tail: string)
    requires LegalId(id)
    ensures Apart(IsWhitespace, id + tail)
  {
    assert AnchorChar()(id[0]);
  }

  lemma AnchorIdReadsBack(chars: string, start: nat, pos: nat, id: Id, rest: string)
    requires start <= pos && LegalId(id) && Reads(chars, pos, id + (" */" + rest))
    ensures Reads(chars, pos + |id| + 3, rest)
    ensures AnchorId(chars, start, pos) == Ok(Some(id), pos + |id| + 3)
  {
    hide AnchorClose, SkipWs, RunEnd, Reads;
    Step(chars, pos, id, " */" + rest);
    RunEndAfter(AnchorChar(), chars, pos, id, " */" + rest);
    assert " */" + rest == " " + ("*/" + rest);
    MarksAreNotWhite(rest);
    SkipSpace(chars, pos + |id|, "*/" + rest);
    AnchorCloseReadsBack(chars, start, id, pos + |id| + 1, rest);
  }

  lemma AnchorCloseReadsBack(chars: string, start: nat, id: Id, pos: nat, rest: string)
    requires start <= pos && Reads(chars, pos, "*/" + rest)
    ensures Reads(chars, pos + 2, rest)
    ensures AnchorClose(chars, start, id, pos) == Ok(Some(id), pos + 2)
  {
    hide Reads;
    assert "*/" + rest == ['*'] + (['/'] + rest);
    NextIs(chars, pos, '*', ['/'] + rest);
    NextIs(chars, pos + 1, '/', rest);
  }

  // ----- Elements -----

  lemma BareWordReadsBack(chars: string, pos: nat, kind: NodeKind, rest: string)
    requires Reads(chars, pos, KindKeyword(kind) + (" " + rest))
    ensures BareWord(chars, pos) == Ok(KindKeyword(kind), pos + |KindKeyword(kind)|)
    ensures Reads(chars, pos + |KindKeyword(kind)|, " " + rest)
  {
    hide KindKeyword, Lower, RunEnd, AllLower;
    var word := KindKeyword(kind);
    KeywordIsLowerCase(kind);
    LowerKeepsLower(word);
    RunEndAfter(IsAsciiLetter, chars, pos, word, " " + rest);
    Step(chars, pos, word, " " + rest);
  }

  lemma IdentifierStartsOutside(al: char -> bool, name: string, tail: string)
    requires KeepsClear(al)
    ensures Apart(IsWhitespace, FormatIdentifier(al, name) + tail)
  {
    hide Replace;
    if IsBare(al, name) {
      assert NameChar(al)(name[0]);
    }
  }

  lemma NamedReadsBack(al: char -> bool, chars: string, kind: NodeKind, name: string, id: Id, pos: nat, rest: string)
    requires KeepsClear(al) && LegalId(id)
    requires Reads(chars, pos, FormatIdentifier(al, name) + (" /* #" + (id + (" */" + (" {" + rest)))))
    ensures var r := NamedHeading(al, chars, kind, pos);
            r.Ok? && r.value == Heading(kind, name, Some(id)) && Reads(chars, r.next, "{" + rest)
  {
    hide Identifier, Anchor, SkipWs, Reads, KeepsClear, LegalId, FormatIdentifier, Apart;
    var anchorTail := id + (" */" + (" {" + rest));
    assert " /* #" + anchorTail == " " + ("/* #" + anchorTail);
    IdentifierReadsBack(al, chars, pos, name, "/* #" + anchorTail);
    var p := pos + |FormatIdentifier(al, name)|;
    AnchorReadsBack(chars, p, id, " {" + rest);
    assert " {" + rest == " " + ("{" + rest);
    MarksAreNotWhite(rest);
    SkipSpace(chars, p + 5 + |id| + 3, "{" + rest);
  }

  lemma HeadingReadsBack(al: char -> bool, t: Outline, chars: string, pos: nat, rest: string)
    requires KeepsClear(al) && LegalId(t.id)
    requires Reads(chars, pos, HeadingText(al, t) + (" {" + rest))
    ensures var r := HeadingAt(al, chars, pos);
            r.Ok? && r.value == Heading(t.kind, t.name, Some(t.id)) && Reads(chars, r.next, "{" + rest)
  {
    hide BareWord, KindFromKeyword, KindKeyword, NamedHeading, SkipWs, Reads, KeepsClear, LegalId, FormatIdentifier,
         Apart;
    var word, name := KindKeyword(t.kind), FormatIdentifier(al, t.name);
    var nameTail := " /* #" + (t.id + (" */" + (" {" + rest)));
    RegroupTokens(word, name, t.id, " {" + rest);
    BareWordReadsBack(chars, pos, t.kind, name + nameTail);
    KeywordRoundTrip(t.kind);
    IdentifierStartsOutside(al, t.name, nameTail);
    SkipSpace(chars, pos + |word|, name + nameTail);
    NamedReadsBack(al, chars, t.kind, t.name, t.id, pos + |word| + 1, rest);
  }

  lemma RegroupTokens(word: string, name: string, id: Id, rest: string)
    ensures (word + (" " + (name + (" /* #" + (id + " */"))))) + rest
         == word + (" " + (name + (" /* #" + (id + (" */" + rest)))))
  {
    Regroup(word, " " + (name + (" /* #" + (id + " */"))), rest);
    Regroup(" ", name + (" /* #" + (id + " */")), rest);
    Regroup(name, " /* #" + (id + " */"), rest);
    Regroup(" /* #", id + " */", rest);
    Regroup(id, " */", rest);
  }

  /** One step of the grammar: a heading, its opening brace and the items of its block. */
  lemma ElementStep(al: char -> bool, chars: string, pos: nat)
    requires pos <= |chars|
    requires var h := HeadingAt(al, chars, pos);
             h.Ok? && At(chars, h.next, '{') && BlockItems(al, chars, h.next + 1).Ok?
    ensures var h := HeadingAt(al, chars, pos);
            var b := BlockItems(al, chars, h.next + 1);
            ElementAt(al, chars, pos) == Built(h.value, b.value, chars, pos, b.next)
  {
    hide HeadingAt, Built;
  }

  lemma BlockEnds(al: char -> bool, chars: string, pos: nat)
    requires pos <= |chars| && At(chars, SkipWs(chars, pos), '}')
    ensures BlockItems(al, chars, pos) == Ok([], SkipWs(chars, pos) + 1)
  {
    hide SkipWs, ElementAt;
  }

  lemma BlockGoesOn(al: char -> bool, chars: string, pos: nat)
    requires pos <= |chars| && !At(chars, SkipWs(chars, pos), '}')
    requires ElementAt(al, chars, SkipWs(chars, pos)).Ok?
    ensures var first := ElementAt(al, chars, SkipWs(chars, pos));
            BlockItems(al, chars, pos) == Cons(first.value, BlockItems(al, chars, first.next))
  {
    hide SkipWs, ElementAt;
  }

  lemma {:induction false} ElementReadsBack(al: char -> bool, t: Outline, depth: nat, chars: string, pos: nat,
                                            rest: string)
    requires KeepsClear(al) && LegalIds(t)
    requires Reads(chars, pos, OutlineText(al, t, depth) + rest)
    ensures var r := ElementAt(al, chars, pos);
            r.Ok? && Reads(chars, r.next, rest) && Matches(r.value, t)
    decreases t, 1
  {
    hide HeadingText, HeadingAt, BlockText, BlockItems, ElementAt, MatchesAll, Reads, KeepsClear, LegalId;
    var heading, block := HeadingText(al, t), BlockText(al, t.children, depth);
    Regroup(heading, " {" + block, rest);
    Regroup(" {", block, rest);
    HeadingReadsBack(al, t, chars, pos, block + rest);
    var h := HeadingAt(al, chars, pos);
    NextIs(chars, h.next, '{', block + rest);
    BlockReadsBack(al, t.children, depth, chars, h.next + 1, rest);
    ElementStep(al, chars, pos);
  }

  lemma {:induction false} BlockReadsBack(al: char -> bool, ts: seq<Outline>, depth: nat, chars: string, pos: nat,
                                          rest: string)
    requires KeepsClear(al) && forall t :: t in ts ==> LegalIds(t)
    requires Reads(chars, pos, BlockText(al, ts, depth) + rest)
    ensures var r := BlockItems(al, chars, pos);
            r.Ok? && Reads(chars, r.next, rest) && MatchesAll(r.value, ts)
    decreases ts, 3
  {
    hide BlockItems, OutlinesText, Reads, KeepsClear, LegalIds, MatchesAll, Indent, AllIn;
    var ws := if ts == [] then "" else "\n";
    var indent := if ts == [] then "" else Indent(depth);
    var children := OutlinesText(al, ts, depth + 1);
    BlockTextIs(al, ts, depth, rest);
    IndentIsWhite(depth);
    NewlineIsWhite();
    ItemsReadBack(al, ts, depth + 1, indent, chars, pos, ws, rest);
  }

  lemma BlockTextIs(al: char -> bool, ts: seq<Outline>, depth: nat, rest: string)
    ensures BlockText(al, ts, depth) + rest
         == (if ts == [] then "" else "\n") +
            (OutlinesText(al, ts, depth + 1) + ((if ts == [] then "" else Indent(depth)) + ("}" + rest)))
  {
    hide Indent;
    if ts == [] {
      assert OutlinesText(al, ts, depth + 1) == "";
    } else {
      hide OutlinesText;
      var children, indent := OutlinesText(al, ts, depth + 1), Indent(depth);
      Regroup("\n", children + (indent + "}"), rest);
      Regroup(children, indent + "}", rest);
      Regroup(indent, "}", rest);
    }
  }

  lemma {:induction false} IndentIsWhite(depth: nat)
    ensures AllIn(IsWhitespace, Indent(depth))
  {
    if depth > 0 {
      IndentIsWhite(depth - 1);
    }
  }

  lemma NewlineIsWhite()
    ensures AllIn(IsWhitespace, "\n") && AllIn(IsWhitespace, "")
  {
  }

  lemma {:induction false} ItemsReadBack(al: char -> bool, ts: seq<Outline>, depth: nat, indent: string, chars: string,
                                         pos: nat, ws: string, rest: string)
    requires KeepsClear(al) && forall t :: t in ts ==> LegalIds(t)
    requires AllIn(IsWhitespace, ws) && AllIn(IsWhitespace, indent)
    requires Reads(chars, pos, ws + (OutlinesText(al, ts, depth) + (indent + ("}" + rest))))
    ensures var r := BlockItems(al, chars, pos);
            r.Ok? && Reads(chars, r.next, rest) && MatchesAll(r.value, ts)
    decreases ts, 2
  {
    hide *;
    var end := indent + ("}" + rest);
    OutlinesTextIs(al, ts, depth);
    if ts == [] {
      assert "" + end == end;
      Regroup(ws, indent, "}" + rest);
      BothWhite(ws, indent);
      MarksAreNotWhite(rest);
      RunEndAfter(IsWhitespace, chars, pos, ws + indent, "}" + rest);
      SkipWsIs(chars, pos);
      NextIs(chars, SkipWs(chars, pos), '}', rest);
      BlockEnds(al, chars, pos);
      MatchesNone();
    } else {
      var text, others := OutlineText(al, ts[0], depth), OutlinesText(al, ts[1..], depth);
      var tail := "\n" + (others + end);
      RegroupItems(ws, Indent(depth), text, others, end);
      IndentIsWhite(depth);
      BothWhite(ws, Indent(depth));
      ElementStarts(al, ts[0], depth, tail);
      RunEndAfter(IsWhitespace, chars, pos, ws + Indent(depth), text + tail);
      SkipWsIs(chars, pos);
      var start := SkipWs(chars, pos);
      StartsUnbraced(chars, start, text + tail);
      ElementReadsBack(al, ts[0], depth, chars, start, tail);
      var first := ElementAt(al, chars, start);
      NewlineIsWhite();
      ItemsReadBack(al, ts[1..], depth, indent, chars, first.next, "\n", rest);
      BlockGoesOn(al, chars, pos);
      var later := BlockItems(al, chars, first.next);
      ConsIs(first.value, later);
      MatchesCons(first.value, later.value, ts);
    }
  }

  lemma OutlinesTextIs(al: char -> bool, ts: seq<Outline>, depth: nat)
    ensures OutlinesText(al, ts, depth)
         == if ts == [] then ""
            else Indent(depth) + (OutlineText(al, ts[0], depth) + ("\n" + OutlinesText(al, ts[1..], depth)))
  {
    hide OutlineText, Indent;
  }

  lemma RegroupItems(ws: string, indent: string, text: string, others: string, end: string)
    ensures ws + ((indent + (text + ("\n" + others))) + end) == (ws + indent) + (text + ("\n" + (others + end)))
  {
    Regroup(indent, text + ("\n" + others), end);
    Regroup(text, "\n" + others, end);
    Regroup("\n", others, end);
    Regroup(ws, indent, text + ("\n" + (others + end)));
  }

  /** An element's text begins with a keyword: neither white space nor a brace. */
  lemma ElementStarts(al: char -> bool, t: Outline, depth: nat, tail: string)
    ensures var text := OutlineText(al, t, depth) + tail;
            && Apart(IsWhitespace, text)
            && text != "" && IsLowerLetter(text[0])
  {
    hide KindKeyword, FormatIdentifier, BlockText;
    KeywordIsLowerCase(t.kind);
    assert (OutlineText(al, t, depth) + tail)[0] == KindKeyword(t.kind)[0];
  }

  lemma StartsUnbraced(chars: string, pos: nat, text: string)
    requires Reads(chars, pos, text) && text != "" && IsLowerLetter(text[0])
    ensures !At(chars, pos, '}')
  {
    assert chars[pos..][0] == chars[pos];
  }

  lemma MatchesNone()
    ensures MatchesAll([], [])
  {
  }

  lemma ConsIs(p: ParsedElement, r: Reading<seq<ParsedElement>>)
    requires r.Ok?
    ensures Cons(p, r) == Ok([p] + r.value, r.next)
  {
  }

  lemma MatchesCons(p: ParsedElement, ps: seq<ParsedElement>, ts: seq<Outline>)
    requires ts != [] && Matches(p, ts[0]) && MatchesAll(ps, ts[1..])
    ensures MatchesAll([p] + ps, ts)
  {
    assert ([p] + ps)[1..] == ps;
  }

  // ----- Documents -----

  lemma DocumentStep(al: char -> bool, chars: string, pos: nat)
    requires pos < |chars| && ElementAt(al, chars, pos).Ok?
    ensures var first := ElementAt(al, chars, pos);
            DocumentItems(al, chars, pos) == Cons(first.value, DocumentItems(al, chars, SkipWs(chars, first.next)))
  {
    hide ElementAt, SkipWs;
  }

  lemma DocumentEnds(al: char -> bool, chars: string, pos: nat, ws: string)
    requires Reads(chars, pos, ws + "") && AllIn(IsWhitespace, ws)
    ensures DocumentItems(al, chars, SkipWs(chars, pos)) == Ok([], |chars|)
  {
    hide ElementAt;
    RunEndAfter(IsWhitespace, chars, pos, ws, "");
  }

  lemma {:induction false} DocumentReadsBack(al: char -> bool, ts: seq<Outline>, chars: string, pos: nat, ws: string)
    requires KeepsClear(al) && forall t :: t in ts ==> LegalIds(t)
    requires AllIn(IsWhitespace, ws) && Reads(chars, pos, ws + OutlinesText(al, ts, 0))
    ensures var r := DocumentItems(al, chars, SkipWs(chars, pos));
            r.Ok? && MatchesAll(r.value, ts)
    decreases |ts|
  {
    hide *;
    OutlinesTextIs(al, ts, 0);
    if ts == [] {
      DocumentEnds(al, chars, pos, ws);
      MatchesNone();
    } else {
      var text, others := OutlineText(al, ts[0], 0), OutlinesText(al, ts[1..], 0);
      NoIndent();
      assert "" + (text + ("\n" + others)) == text + ("\n" + others);
      ElementStarts(al, ts[0], 0, "\n" + others);
      RunEndAfter(IsWhitespace, chars, pos, ws, text + ("\n" + others));
      SkipWsIs(chars, pos);
      var start := SkipWs(chars, pos);
      ReadsOn(chars, start, text + ("\n" + others));
      ElementReadsBack(al, ts[0], 0, chars, start, "\n" + others);
      var first := ElementAt(al, chars, start);
      NewlineIsWhite();
      DocumentReadsBack(al, ts[1..], chars, first.next, "\n");
      DocumentStep(al, chars, start);
      var later := DocumentItems(al, chars, SkipWs(chars, first.next));
      ConsIs(first.value, later);
      MatchesCons(first.value, later.value, ts);
    }
  }

  lemma NoIndent()
    ensures Indent(0) == ""
  {
  }

  lemma ReadsOn(chars: string, pos: nat, s: string)
    requires Reads(chars, pos, s) && s != ""
    ensures pos < |chars|
  {
  }

  /** Parsing printed outlines succeeds and gives the outlines back, spans aside. */
  lemma PrintThenParse(al: char -> bool, ts: seq<Outline>)
    requires KeepsClear(al) && forall t :: t in ts ==> LegalIds(t)
    ensures var r := Document(al, OutlinesText(al, ts, 0));
            r.Ok? && MatchesAll(r.value, ts)
  {
    hide DocumentItems, OutlinesText, SkipWs, MatchesAll, LegalIds, KeepsClear;
    var chars := OutlinesText(al, ts, 0);
    assert chars[0..] == "" + chars;
    DocumentReadsBack(al, ts, chars, 0, "");
  }
}
