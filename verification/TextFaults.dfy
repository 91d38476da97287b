/** Texts that no elements spell: every way in which a text goes wrong, the error each is answered with and its place;
    and that there are no texts besides those that are laid out well and these. */
module TextFaults {
  import opened SysmlModel
  import opened Scanning
  import opened ReadingBack
  import opened TextSyntax
  import opened TextLayout

  /** A keyword and a name, with the white space behind each. */
  datatype Lead = Lead(word: string, kind: NodeKind, gap: string, name: Name, gap2: string)

  /** Where an element goes wrong: at its keyword, at its name, in its anchor, or in its block. */
  datatype Fault =
    | NoKind
    | StrangeKind(word: string)
    | NoName(word: string, kind: NodeKind, gap: string)
    | OpenName(word: string, kind: NodeKind, gap: string, pieces: seq<Piece>)
    | OpenEscape(word: string, kind: NodeKind, gap: string, pieces: seq<Piece>)
    | NoHash(named: Lead, g1: string)
    | NoId(named: Lead, g1: string, g2: string)
    | OpenMark(named: Lead, g1: string, g2: string, id: string, g3: string)
    | OpenBlock(head: Head, lead: string, items: seq<Item>)
    | Inside(head: Head, lead: string, items: seq<Item>, inner: Fault)

  function LeadThen(l: Lead, rest: string): string {
    l.word + (l.gap + NameThen(l.name, l.gap2 + rest))
  }

  /** The text up to where it goes wrong, and the rest. */
  function FaultThen(f: Fault, rest: string): string {
    match f
    case NoKind => rest
    case StrangeKind(word) => word + rest
    case NoName(word, _, gap) => word + (gap + rest)
    case OpenName(word, _, gap, pieces) => word + (gap + ("\"" + PiecesThen(pieces, rest)))
    case OpenEscape(word, _, gap, pieces) => word + (gap + ("\"" + PiecesThen(pieces, "\\" + rest)))
    case NoHash(named, g1) => LeadThen(named, "/*" + (g1 + rest))
    case NoId(named, g1, g2) => LeadThen(named, "/*" + (g1 + ("#" + (g2 + rest))))
    case OpenMark(named, g1, g2, id, g3) => LeadThen(named, "/*" + (g1 + ("#" + (g2 + (id + (g3 + rest))))))
    case OpenBlock(head, lead, items) => HeadThen(head, "{" + (lead + ItemsThen(items, rest)))
    case Inside(head, lead, items, inner) => HeadThen(head, "{" + (lead + ItemsThen(items, FaultThen(inner, rest))))
  }

  function StartsName(al: char -> bool): char -> bool {
    c => InName(al)(c) || c == '"'
  }

  predicate Hash(c: char) {
    c == '#'
  }

  ghost predicate StartsClose(s: string) {
    |s| >= 2 && s[0] == '*' && s[1] == '/'
  }

  ghost predicate LeadOk(al: char -> bool, l: Lead, rest: string) {
    && WordOk(l.word, l.kind, l.gap, NameThen(l.name, l.gap2 + rest))
    && NameOk(al, l.name, l.gap2, rest)
  }

  predicate Closes(c: char) {
    c == '}'
  }

  /** A text that goes wrong in just this way. */
  ghost predicate FaultOk(al: char -> bool, f: Fault, rest: string) {
    match f
    case NoKind => rest != "" && Apart(IsWhitespace, rest) && Apart(Letter, rest)
    case StrangeKind(word) =>
      && word != "" && (forall i :: 0 <= i < |word| ==> Letter(word[i])) && Apart(Letter, rest)
      && forall kind :: !SpellsWord(word, KindKeyword(kind))
    case NoName(word, kind, gap) =>
      WordOk(word, kind, gap, rest) && Apart(IsWhitespace, rest) && Apart(StartsName(al), rest)
    case OpenName(word, kind, gap, pieces) => WordOk(word, kind, gap, "\"") && PiecesOk(pieces) && rest == ""
    case OpenEscape(word, kind, gap, pieces) => WordOk(word, kind, gap, "\"") && PiecesOk(pieces) && rest == ""
    case NoHash(named, g1) =>
      LeadOk(al, named, "/*" + (g1 + rest)) && White(g1) && Apart(IsWhitespace, rest) && Apart(Hash, rest)
    case NoId(named, g1, g2) =>
      && LeadOk(al, named, "/*" + (g1 + ("#" + (g2 + rest)))) && White(g1) && White(g2)
      && Apart(IsWhitespace, rest) && Apart(AnchorLetter(), rest)
    case OpenMark(named, g1, g2, id, g3) =>
      && LeadOk(al, named, "/*" + (g1 + ("#" + (g2 + (id + (g3 + rest)))))) && White(g1) && White(g2)
      && IdOk(id) && White(g3) && (g3 == "" ==> Apart(AnchorLetter(), rest))
      && Apart(IsWhitespace, rest) && !StartsClose(rest)
    case OpenBlock(head, lead, items) =>
      HeadOk(al, head, "{" + (lead + ItemsThen(items, rest))) && White(lead) && ItemsOk(al, items, rest) && rest == ""
    case Inside(head, lead, items, inner) =>
      && HeadOk(al, head, "{" + (lead + ItemsThen(items, FaultThen(inner, rest)))) && White(lead)
      && ItemsOk(al, items, FaultThen(inner, rest)) && FaultOk(al, inner, rest)
      && (inner.NoKind? ==> Apart(Closes, rest))
  }

  /** What is reported. */
  function FaultReason(f: Fault): Reason {
    match f
    case NoKind => ExpectedKind
    case StrangeKind(word) => UnknownKind(Lower(word))
    case NoName(_, _, _) => ExpectedName
    case OpenName(_, _, _, _) => UnterminatedName
    case OpenEscape(_, _, _, _) => UnterminatedEscape
    case NoHash(_, _) => ExpectedHash
    case NoId(_, _, _) => EmptyAnchor
    case OpenMark(_, _, _, _, _) => UnterminatedAnchor
    case OpenBlock(_, _, _) => UnterminatedBlock
    case Inside(_, _, _, inner) => FaultReason(inner)
  }

  /** The text from the place that is reported on: an unknown keyword's beginning, where a name should be, a quoted
      name's opening quote, an anchor's beginning, or the end of the text. */
  function ReportedAt(f: Fault, rest: string): string {
    match f
    case NoKind => rest
    case StrangeKind(word) => word + rest
    case NoName(_, _, _) => rest
    case OpenName(_, _, _, pieces) => "\"" + PiecesThen(pieces, rest)
    case OpenEscape(_, _, _, _) => rest
    case NoHash(_, g1) => "/*" + (g1 + rest)
    case NoId(_, g1, g2) => "/*" + (g1 + ("#" + (g2 + rest)))
    case OpenMark(_, g1, g2, id, g3) => "/*" + (g1 + ("#" + (g2 + (id + (g3 + rest)))))
    case OpenBlock(_, _, _) => rest
    case Inside(_, _, _, inner) => ReportedAt(inner, rest)
  }

  /** An error about the place from which on the text reads `left`. */
  ghost predicate Reports<T(!new)>(r: Reading<T>, reason: Reason, chars: string, left: string) {
    |left| <= |chars| && r == Err(ErrorAt(reason, chars, |chars| - |left|))
  }

  // ----- Faults are reported -----

  lemma StartsWith(chars: string, pos: nat, s: string)
    requires Reads(chars, pos, s)
    ensures pos + |s| == |chars| && (s != "" ==> chars[pos] == s[0]) && (|s| >= 2 ==> chars[pos + 1] == s[1])
  {
    assert s != "" ==> chars[pos..][0] == chars[pos];
    assert |s| >= 2 ==> chars[pos..][1] == chars[pos + 1];
  }

  lemma KindMissing(al: char -> bool, chars: string, pos: nat, rest: string)
    requires FaultOk(al, NoKind, rest) && Reads(chars, pos, rest)
    ensures Reports(HeadingAt(al, chars, pos), ExpectedKind, chars, rest)
  {
    StartsWith(chars, pos, rest);
  }

  lemma KindStrange(al: char -> bool, chars: string, pos: nat, word: string, rest: string)
    requires FaultOk(al, StrangeKind(word), rest) && Reads(chars, pos, word + rest)
    ensures Reports(HeadingAt(al, chars, pos), UnknownKind(Lower(word)), chars, word + rest)
  {
    hide RunEnd, Lower, KindFromKeyword, KindKeyword;
    forall i | 0 <= i < |word|
      ensures IsAsciiLetter(word[i])
    {
      assert Letter(word[i]);
    }
    RunEndAfter(IsAsciiLetter, chars, pos, word, rest);
    Step(chars, pos, word, rest);
    StartsWith(chars, pos, word + rest);
    NoKindIsIt(word);
  }

  lemma NoKindIsIt(word: string)
    requires (forall i :: 0 <= i < |word| ==> Letter(word[i])) && forall kind :: !SpellsWord(word, KindKeyword(kind))
    ensures KindFromKeyword(Lower(word)) == None
  {
    hide KindKeyword, KindFromKeyword, SpellsWord, Lower;
    if KindFromKeyword(Lower(word)).Some? {
      var kind := KindFromKeyword(Lower(word)).value;
      KindIsKeyword(Lower(word), kind);
      KeywordIsLowerCase(kind);
      SpelledIsLower(word, KindKeyword(kind));
    }
  }

  /** Behind a keyword and white space, the heading is what follows. */
  lemma BehindWord(al: char -> bool, chars: string, pos: nat, word: string, kind: NodeKind, gap: string, rest: string)
    requires WordOk(word, kind, gap, rest) && Apart(IsWhitespace, rest) && Reads(chars, pos, word + (gap + rest))
    ensures Reads(chars, pos + |word| + |gap|, rest) && pos + |word| + |gap| + |rest| == |chars|
    ensures HeadingAt(al, chars, pos) == NamedHeading(al, chars, kind, pos + |word| + |gap|)
  {
    hide BareWord, KindFromKeyword, KindKeyword, NamedHeading, SkipWs, WordOk, Apart, Reads;
    WordReads(chars, pos, word, kind, gap, rest);
    KindIsKeyword(KindKeyword(kind), kind);
    StartsWith(chars, pos + |word| + |gap|, rest);
  }

  lemma NameMissing(al: char -> bool, chars: string, pos: nat, kind: NodeKind, rest: string)
    requires Apart(StartsName(al), rest) && Reads(chars, pos, rest)
    ensures Reports(NamedHeading(al, chars, kind, pos), ExpectedName, chars, rest)
  {
    hide QuotedTail;
    StartsWith(chars, pos, rest);
    if rest != "" {
      assert !StartsName(al)(rest[0]) && !InName(al)(rest[0]);
      assert !NameChar(al)(chars[pos]);
    }
  }

  lemma {:induction false} PiecesEnd(chars: string, start: nat, pos: nat, pieces: seq<Piece>, rest: string)
    requires start <= pos && PiecesOk(pieces) && Reads(chars, pos, PiecesThen(pieces, rest))
    requires rest == "" || rest == "\\"
    ensures QuotedTail(chars, start, pos) ==
            Err(if rest == "" then ErrorAt(UnterminatedName, chars, start)
                else ErrorAt(UnterminatedEscape, chars, |chars|))
    decreases |pieces|
  {
    if pieces == [] {
      StartsWith(chars, pos, rest);
    } else {
      var p := pieces[0];
      assert p in pieces && forall q :: q in pieces[1..] ==> q in pieces;
      PieceReads(chars, start, pos, p, PiecesThen(pieces[1..], rest));
      PiecesEnd(chars, start, pos + |PieceText(p)|, pieces[1..], rest);
    }
  }

  lemma NameOpen(al: char -> bool, chars: string, pos: nat, kind: NodeKind, pieces: seq<Piece>, rest: string)
    requires PiecesOk(pieces) && Reads(chars, pos, "\"" + PiecesThen(pieces, rest)) && (rest == "" || rest == "\\")
    ensures rest == "" ==>
      Reports(NamedHeading(al, chars, kind, pos), UnterminatedName, chars, "\"" + PiecesThen(pieces, rest))
    ensures rest != "" ==> Reports(NamedHeading(al, chars, kind, pos), UnterminatedEscape, chars, "")
  {
    hide QuotedTail;
    StartsWith(chars, pos, "\"" + PiecesThen(pieces, rest));
    NextIs(chars, pos, '"', PiecesThen(pieces, rest));
    PiecesEnd(chars, pos, pos + 1, pieces, rest);
  }

  /** Behind a keyword and a name, the heading is what the anchor is. */
  lemma BehindLead(al: char -> bool, chars: string, pos: nat, l: Lead, rest: string)
    requires KeepsClear(al) && LeadOk(al, l, rest) && Apart(IsWhitespace, rest) && Reads(chars, pos, LeadThen(l, rest))
    ensures |rest| <= |chars| && Reads(chars, |chars| - |rest|, rest)
    ensures Anchor(chars, |chars| - |rest|).Err? ==>
      HeadingAt(al, chars, pos) == Err(Anchor(chars, |chars| - |rest|).error)
  {
    hide Identifier, Anchor, SkipWs, WordOk, NameOk, KeepsClear, NameThen, Apart, Reads, HeadingAt;
    NameIsApart(al, l.name, l.gap2, rest);
    BehindWord(al, chars, pos, l.word, l.kind, l.gap, NameThen(l.name, l.gap2 + rest));
    NameReads(al, chars, pos + |l.word| + |l.gap|, l.name, l.gap2, rest);
  }

  lemma HashMissing(chars: string, pos: nat, g1: string, rest: string)
    requires White(g1) && Apart(IsWhitespace, rest) && Apart(Hash, rest) && Reads(chars, pos, "/*" + (g1 + rest))
    ensures Reports(Anchor(chars, pos), ExpectedHash, chars, "/*" + (g1 + rest))
  {
    hide SkipWs, AnchorId, White;
    StartsWith(chars, pos, "/*" + (g1 + rest));
    CommentOpens(chars, pos, g1 + rest);
    WhiteRuns(chars, pos + 2, g1, rest);
    StartsWith(chars, pos + 2 + |g1|, rest);
  }

  lemma HashIsThere(chars: string, pos: nat, g1: string, g2: string, rest: string)
    requires White(g1) && White(g2) && Apart(IsWhitespace, rest) && Reads(chars, pos, "/*" + (g1 + ("#" + (g2 + rest))))
    ensures |rest| <= |chars| && pos <= |chars| - |rest| && Reads(chars, |chars| - |rest|, rest)
    ensures Anchor(chars, pos) == AnchorId(chars, pos, |chars| - |rest|)
  {
    hide SkipWs, AnchorId, White, IsWhitespace;
    CommentOpens(chars, pos, g1 + ("#" + (g2 + rest)));
    MarksAreApart(g2 + rest, "");
    WhiteRuns(chars, pos + 2, g1, "#" + (g2 + rest));
    NextIs(chars, pos + 2 + |g1|, '#', g2 + rest);
    WhiteRuns(chars, pos + 3 + |g1|, g2, rest);
    StartsWith(chars, pos + 3 + |g1| + |g2|, rest);
  }

  lemma IdMissing(chars: string, open: nat, pos: nat, rest: string)
    requires open <= pos && Apart(AnchorLetter(), rest) && Reads(chars, pos, rest)
    ensures AnchorId(chars, open, pos) == Err(ErrorAt(EmptyAnchor, chars, open))
  {
    StartsWith(chars, pos, rest);
    if rest != "" {
      assert !AnchorLetter()(rest[0]) && !AnchorChar()(chars[pos]);
    }
  }

  lemma MarkOpen(chars: string, open: nat, pos: nat, id: string, g3: string, rest: string)
    requires open <= pos && IdOk(id) && White(g3) && (g3 == "" ==> Apart(AnchorLetter(), rest))
    requires Apart(IsWhitespace, rest) && !StartsClose(rest) && Reads(chars, pos, id + (g3 + rest))
    ensures AnchorId(chars, open, pos) == Err(ErrorAt(UnterminatedAnchor, chars, open))
  {
    hide RunEnd, SkipWs;
    assert g3 != "" ==> (g3 + rest)[0] == g3[0] && IsWhitespace(g3[0]);
    assert g3 == "" ==> g3 + rest == rest;
    forall i | 0 <= i < |id|
      ensures AnchorChar()(id[i])
    {
      assert AnchorLetter()(id[i]);
    }
    RunEndAfter(AnchorChar(), chars, pos, id, g3 + rest);
    Step(chars, pos, id, g3 + rest);
    WhiteRuns(chars, pos + |id|, g3, rest);
    StartsWith(chars, pos + |id| + |g3|, rest);
  }

  /** A heading that goes wrong is reported on. */
  lemma HeadingFails(al: char -> bool, f: Fault, chars: string, pos: nat, rest: string)
    requires KeepsClear(al) && FaultOk(al, f, rest) && !f.OpenBlock? && !f.Inside? &&
             Reads(chars, pos, FaultThen(f, rest))
    ensures Reports(HeadingAt(al, chars, pos), FaultReason(f), chars, ReportedAt(f, rest))
  {
    hide HeadingAt, NamedHeading, Anchor, AnchorId, Lower, WordOk, LeadOk, LeadThen, KeepsClear, PiecesOk, White, IdOk,
         PiecesThen, Reads, Apart, StartsName, AnchorLetter, IsWhitespace;
    match f {
      case NoKind => KindMissing(al, chars, pos, rest);
      case StrangeKind(word) => KindStrange(al, chars, pos, word, rest);
      case NoName(word, kind, gap) =>
        BehindWord(al, chars, pos, word, kind, gap, rest);
        NameMissing(al, chars, pos + |word| + |gap|, kind, rest);
      case OpenName(word, kind, gap, pieces) =>
        WordBeforeQuote(word, kind, gap, PiecesThen(pieces, rest));
        BehindWord(al, chars, pos, word, kind, gap, "\"" + PiecesThen(pieces, rest));
        NameOpen(al, chars, pos + |word| + |gap|, kind, pieces, rest);
      case OpenEscape(word, kind, gap, pieces) =>
        var tail := "\\" + rest;
        WordBeforeQuote(word, kind, gap, PiecesThen(pieces, tail));
        BehindWord(al, chars, pos, word, kind, gap, "\"" + PiecesThen(pieces, tail));
        NameOpen(al, chars, pos + |word| + |gap|, kind, pieces, tail);
      case NoHash(named, g1) =>
        CommentIsApart(g1 + rest);
        BehindLead(al, chars, pos, named, "/*" + (g1 + rest));
        HashMissing(chars, |chars| - |"/*" + (g1 + rest)|, g1, rest);
      case NoId(named, g1, g2) =>
        var text := "/*" + (g1 + ("#" + (g2 + rest)));
        CommentIsApart(g1 + ("#" + (g2 + rest)));
        BehindLead(al, chars, pos, named, text);
        HashIsThere(chars, |chars| - |text|, g1, g2, rest);
        IdMissing(chars, |chars| - |text|, |chars| - |rest|, rest);
      case OpenMark(named, g1, g2, id, g3) =>
        var inner := id + (g3 + rest);
        var text := "/*" + (g1 + ("#" + (g2 + inner)));
        CommentIsApart(g1 + ("#" + (g2 + inner)));
        BehindLead(al, chars, pos, named, text);
        IdIsApart(id, g3 + rest);
        HashIsThere(chars, |chars| - |text|, g1, g2, inner);
        MarkOpen(chars, |chars| - |text|, |chars| - |inner|, id, g3, rest);
    }
  }

  lemma CommentIsApart(s: string)
    ensures Apart(IsWhitespace, "/*" + s)
  {
  }

  lemma WordBeforeQuote(word: string, kind: NodeKind, gap: string, rest: string)
    requires WordOk(word, kind, gap, "\"")
    ensures WordOk(word, kind, gap, "\"" + rest) && Apart(IsWhitespace, "\"" + rest)
  {
    hide KindKeyword;
  }

  /** An element that goes wrong is reported on. */
  lemma {:induction false} ElementFails(al: char -> bool, f: Fault, chars: string, pos: nat, rest: string)
    requires KeepsClear(al) && FaultOk(al, f, rest) && Reads(chars, pos, FaultThen(f, rest))
    ensures Reports(ElementAt(al, chars, pos), FaultReason(f), chars, ReportedAt(f, rest))
    decreases f, 1
  {
    hide HeadingAt, BlockItems, HeadThen, HeadOk, White, KeepsClear, ItemsThen, ItemsOk, Reads, FaultOk, FaultThen,
         WordOk, ErrorAt, Lower, PiecesThen;
    if f.OpenBlock? || f.Inside? {
      BlockFaultIs(al, f, rest);
      var inner := if f.OpenBlock? then "" else FaultThen(f.inner, rest);
      var closing := "{" + (f.lead + ItemsThen(f.items, inner));
      HeadReads(al, f.head, chars, pos, closing);
      OpenReads(chars, |chars| - |closing|, f.lead + ItemsThen(f.items, inner));
      PositionOf(chars, pos, HeadThen(f.head, closing));
      ElementIs(al, chars, pos);
      BlockFails(al, f, f.items, chars, |chars| - |closing| + 1, f.lead, rest);
    } else {
      HeadingFails(al, f, chars, pos, rest);
      HeadingErrs(al, chars, pos, FaultThen(f, rest));
    }
  }

  lemma HeadingErrs(al: char -> bool, chars: string, pos: nat, s: string)
    requires Reads(chars, pos, s)
    ensures pos <= |chars|
    ensures HeadingAt(al, chars, pos).Err? ==> ElementAt(al, chars, pos) == Err(HeadingAt(al, chars, pos).error)
  {
    hide HeadingAt;
  }

  lemma BlockFaultIs(al: char -> bool, f: Fault, rest: string)
    requires FaultOk(al, f, rest) && (f.OpenBlock? || f.Inside?)
    ensures var inner := if f.OpenBlock? then "" else FaultThen(f.inner, rest);
            && FaultThen(f, rest) == HeadThen(f.head, "{" + (f.lead + ItemsThen(f.items, inner)))
            && HeadOk(al, f.head, "{" + (f.lead + ItemsThen(f.items, inner)))
            && White(f.lead) && ItemsOk(al, f.items, inner)
    ensures f.OpenBlock? ==> rest == ""
    ensures f.Inside? ==> FaultOk(al, f.inner, rest) && (f.inner.NoKind? ==> Apart(Closes, rest))
  {
    hide HeadOk, ItemsOk, HeadThen, ItemsThen;
  }

  /** The text from where a block goes wrong. */
  function BlockLeft(f: Fault, rest: string): string
    requires f.OpenBlock? || f.Inside?
  {
    if f.OpenBlock? then "" else FaultThen(f.inner, rest)
  }

  lemma FaultIsApart(al: char -> bool, f: Fault, rest: string)
    requires KeepsClear(al) && FaultOk(al, f, rest)
    ensures Apart(IsWhitespace, FaultThen(f, rest)) && FaultThen(f, rest) != ""
    ensures !f.NoKind? ==> Letter(FaultThen(f, rest)[0])
  {
    hide KindKeyword, NameThen, PiecesThen, ItemsThen, ItemsOk, NameOk, MarkOk, White;
    if f.NoKind? || f.StrangeKind? {
    } else {
      var word, kind := FaultWord(f), FaultKind(f);
      KeywordIsLowerCase(kind);
      SpelledIsLower(word, KindKeyword(kind));
      assert FaultThen(f, rest)[0] == word[0];
    }
  }

  function FaultWord(f: Fault): string
    requires !f.NoKind?
  {
    match f
    case StrangeKind(word) => word
    case NoName(word, _, _) => word
    case OpenName(word, _, _, _) => word
    case OpenEscape(word, _, _, _) => word
    case NoHash(named, _) => named.word
    case NoId(named, _, _) => named.word
    case OpenMark(named, _, _, _, _) => named.word
    case OpenBlock(head, _, _) => head.word
    case Inside(head, _, _, _) => head.word
  }

  function FaultKind(f: Fault): NodeKind
    requires !f.NoKind? && !f.StrangeKind?
  {
    match f
    case NoName(_, kind, _) => kind
    case OpenName(_, kind, _, _) => kind
    case OpenEscape(_, kind, _, _) => kind
    case NoHash(named, _) => named.kind
    case NoId(named, _, _) => named.kind
    case OpenMark(named, _, _, _, _) => named.kind
    case OpenBlock(head, _, _) => head.kind
    case Inside(head, _, _, _) => head.kind
  }

  lemma {:induction false} BlockFails(al: char -> bool, f: Fault, items: seq<Item>, chars: string, pos: nat,
                                      lead: string, rest: string)
    requires KeepsClear(al) && (f.OpenBlock? || f.Inside?) && White(lead) && ItemsOk(al, items, BlockLeft(f, rest))
    requires f.OpenBlock? ==> rest == ""
    requires f.Inside? ==> FaultOk(al, f.inner, rest) && (f.inner.NoKind? ==> Apart(Closes, rest))
    requires Reads(chars, pos, lead + ItemsThen(items, BlockLeft(f, rest)))
    ensures Reports(BlockItems(al, chars, pos), FaultReason(f), chars, ReportedAt(f, rest))
    decreases f, 0, |items|
  {
    hide BlockItems, ItemThen, ItemOk, SkipWs, KeepsClear, White, Shows, ElementAt, Reads, IsWhitespace, FaultOk,
         FaultThen, ErrorAt, Lower, PiecesThen;
    var left := BlockLeft(f, rest);
    if f.Inside? {
      FaultIsApart(al, f.inner, rest);
    }
    ItemsAreApart(al, items, left);
    WhiteRuns(chars, pos, lead, ItemsThen(items, left));
    var p := pos + |lead|;
    if items == [] {
      if f.OpenBlock? {
        BlockNeverCloses(al, chars, pos, p);
      } else {
        NotClosed(al, f.inner, chars, p, rest);
        BlockRuns(al, chars, pos);
        ElementFails(al, f.inner, chars, p, rest);
      }
    } else {
      ItemsSplit(al, items, left);
      var more := ItemsThen(items[1..], left);
      LetterIsNoBrace(chars, p, ItemsThen(items, left));
      ItemReads(al, items[0], chars, p, more);
      BlockRuns(al, chars, pos);
      var first := ElementAt(al, chars, p);
      BehindItem(chars, first.next, more);
      var gap := chars[first.next..|chars| - |more|];
      BlockFails(al, f, items[1..], chars, first.next, gap, rest);
    }
  }

  lemma BlockNeverCloses(al: char -> bool, chars: string, pos: nat, p: nat)
    requires pos <= |chars| && SkipWs(chars, pos) == p && Reads(chars, p, "")
    ensures Reports(BlockItems(al, chars, pos), UnterminatedBlock, chars, "")
  {
    hide SkipWs;
    assert |chars[p..]| == 0;
  }

  lemma NotClosed(al: char -> bool, f: Fault, chars: string, pos: nat, rest: string)
    requires KeepsClear(al) && FaultOk(al, f, rest) && Reads(chars, pos, FaultThen(f, rest))
    requires f.NoKind? ==> Apart(Closes, rest)
    ensures pos < |chars| && !At(chars, pos, '}')
  {
    hide FaultOk, FaultThen;
    FaultIsApart(al, f, rest);
    StartsWith(chars, pos, FaultThen(f, rest));
    if f.NoKind? {
      NoKindThen(rest);
    }
  }

  lemma NoKindThen(rest: string)
    ensures FaultThen(NoKind, rest) == rest
  {
  }

  // ----- Documents -----

  lemma {:induction false} ItemsFail(al: char -> bool, items: seq<Item>, f: Fault, chars: string, pos: nat,
                                     rest: string)
    requires KeepsClear(al) && ItemsOk(al, items, FaultThen(f, rest)) && FaultOk(al, f, rest)
    requires Reads(chars, pos, ItemsThen(items, FaultThen(f, rest)))
    ensures Reports(DocumentItems(al, chars, pos), FaultReason(f), chars, ReportedAt(f, rest))
    decreases |items|
  {
    hide ItemThen, ItemOk, SkipWs, KeepsClear, White, Shows, ElementAt, Reads, DocumentItems, FaultOk, FaultThen,
         ErrorAt;
    FaultIsApart(al, f, rest);
    if items == [] {
      StartsWith(chars, pos, FaultThen(f, rest));
      DocumentRuns(al, chars, pos);
      ElementFails(al, f, chars, pos, rest);
    } else {
      var left := FaultThen(f, rest);
      ItemsSplit(al, items, left);
      ItemsAreApart(al, items, left);
      LetterIsNoBrace(chars, pos, ItemsThen(items, left));
      ItemReads(al, items[0], chars, pos, ItemsThen(items[1..], left));
      var first := ElementAt(al, chars, pos);
      DocumentRuns(al, chars, pos);
      ItemsFail(al, items[1..], f, chars, SkipWs(chars, first.next), rest);
    }
  }

  /** A document of elements up to one that goes wrong is answered with the error of that one, at its place. */
  lemma FaultIsReported(al: char -> bool, lead: string, items: seq<Item>, f: Fault, rest: string)
    requires KeepsClear(al) && White(lead) && ItemsOk(al, items, FaultThen(f, rest)) && FaultOk(al, f, rest)
    ensures var text := lead + ItemsThen(items, FaultThen(f, rest));
            Reports(Document(al, text), FaultReason(f), text, ReportedAt(f, rest))
  {
    hide SkipWs, DocumentItems, ItemsOk, ItemsThen, White, KeepsClear, FaultOk, FaultThen, ErrorAt;
    var left := FaultThen(f, rest);
    var chars := lead + ItemsThen(items, left);
    assert chars[0..] == chars;
    FaultIsApart(al, f, rest);
    ItemsAreApart(al, items, left);
    WhiteRuns(chars, 0, lead, ItemsThen(items, left));
    ItemsFail(al, items, f, chars, |lead|, rest);
  }
}
