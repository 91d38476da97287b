/** The textual notation as it is spelled: every way of laying out elements as text. A document is told here by
    putting pieces of text one in front of the other, not by reading them. */
module TextLayout {
  import opened SysmlModel
  import opened Scanning
  import opened ReadingBack
  import opened TextSyntax

  // ----- Words, names and anchors -----

  predicate Letter(c: char) {
    'a' <= c <= 'z' || 'A' <= c <= 'Z'
  }

  /** A word that spells a keyword, each letter in either case. */
  ghost predicate SpellsWord(word: string, keyword: string) {
    |word| == |keyword| && forall i :: 0 <= i < |word| ==>
      word[i] == keyword[i] || ('A' <= word[i] <= 'Z' && word[i] - 'A' + 'a' == keyword[i])
  }

  /** A piece of a quoted name: a character as it stands, an escaped quote or backslash, or a backslash that escapes
      nothing and is kept with the character behind it. */
  datatype Piece = Plain(c: char) | Escaped(c: char) | Kept(c: char)

  predicate PieceOk(p: Piece) {
    match p
    case Plain(c) => c != '"' && c != '\\'
    case Escaped(c) => c == '"' || c == '\\'
    case Kept(c) => c != '"' && c != '\\'
  }

  function PieceText(p: Piece): string {
    match p case Plain(c) => [c] case Escaped(c) => ['\\', c] case Kept(c) => ['\\', c]
  }

  function PieceMeans(p: Piece): string {
    match p case Plain(c) => [c] case Escaped(c) => [c] case Kept(c) => ['\\', c]
  }

  function PiecesThen(ps: seq<Piece>, rest: string): string {
    if ps == [] then rest else PieceText(ps[0]) + PiecesThen(ps[1..], rest)
  }

  function PiecesMean(ps: seq<Piece>): string {
    if ps == [] then "" else PieceMeans(ps[0]) + PiecesMean(ps[1..])
  }

  ghost predicate PiecesOk(ps: seq<Piece>) {
    forall p :: p in ps ==> PieceOk(p)
  }

  datatype Name = Bare(text: string) | Quoted(pieces: seq<Piece>)

  function InName(al: char -> bool): char -> bool {
    c => al(c) || c == '_' || c == '-'
  }

  function NameThen(n: Name, rest: string): string {
    match n case Bare(s) => s + rest case Quoted(pieces) => "\"" + PiecesThen(pieces, "\"" + rest)
  }

  function NameMeans(n: Name): string {
    match n case Bare(s) => s case Quoted(pieces) => PiecesMean(pieces)
  }

  /** A name and white space, before something that does not run on from it. */
  ghost predicate NameOk(al: char -> bool, n: Name, gap: string, rest: string) {
    && White(gap)
    && match n
       case Bare(s) =>
         && s != "" && (forall i :: 0 <= i < |s| ==> InName(al)(s[i]))
         && (gap == "" ==> Apart(InName(al), rest))
       case Quoted(pieces) => PiecesOk(pieces)
  }

  /** A keyword and white space, likewise. */
  ghost predicate WordOk(word: string, kind: NodeKind, gap: string, rest: string) {
    SpellsWord(word, KindKeyword(kind)) && White(gap) && (gap == "" ==> Apart(Letter, rest))
  }

  /** An anchor with the white space in it and behind it. */
  datatype Mark = Mark(g1: string, g2: string, id: string, g3: string, after: string)

  function AnchorLetter(): char -> bool {
    c => !IsWhitespace(c) && c != '*'
  }

  ghost predicate IdOk(id: string) {
    id != "" && forall i :: 0 <= i < |id| ==> AnchorLetter()(id[i])
  }

  ghost predicate MarkOk(m: Mark) {
    White(m.g1) && White(m.g2) && IdOk(m.id) && White(m.g3) && White(m.after)
  }

  function MarkThen(mark: Option<Mark>, rest: string): string {
    match mark
    case None => rest
    case Some(m) => "/*" + (m.g1 + ("#" + (m.g2 + (m.id + (m.g3 + ("*/" + (m.after + rest)))))))
  }

  // ----- Elements -----

  /** An element up to its block: keyword, name and perhaps an anchor, with the white space behind each. */
  datatype Head = Head(word: string, kind: NodeKind, gap: string, name: Name, gap2: string, mark: Option<Mark>)

  datatype Item = Item(head: Head, block: Option<Block>)

  /** A block between its braces, with white space at its beginning and behind its end. */
  datatype Block = Block(lead: string, items: seq<Item>, after: string)

  function HeadThen(h: Head, rest: string): string {
    h.word + (h.gap + NameThen(h.name, h.gap2 + MarkThen(h.mark, rest)))
  }

  function BlockThen(block: Option<Block>, rest: string): string
    decreases block, 1
  {
    match block
    case None => rest
    case Some(b) => "{" + (b.lead + ItemsThen(b.items, "}" + (b.after + rest)))
  }

  function ItemThen(item: Item, rest: string): string
    decreases item, 2
  {
    HeadThen(item.head, BlockThen(item.block, rest))
  }

  function ItemsThen(items: seq<Item>, rest: string): string
    decreases items, 3
  {
    if items == [] then rest else ItemThen(items[0], ItemsThen(items[1..], rest))
  }

  ghost predicate StartsComment(s: string) {
    |s| >= 2 && s[0] == '/' && s[1] == '*'
  }

  /** Keyword, name and anchor, before something that is none of their white space and, without an anchor, does not
      look like one. */
  ghost predicate HeadOk(al: char -> bool, h: Head, rest: string) {
    && WordOk(h.word, h.kind, h.gap, NameThen(h.name, h.gap2 + MarkThen(h.mark, rest)))
    && NameOk(al, h.name, h.gap2, MarkThen(h.mark, rest))
    && (match h.mark case None => !StartsComment(rest) case Some(m) => MarkOk(m))
    && Apart(IsWhitespace, rest)
  }

  predicate Opens(c: char) {
    c == '{'
  }

  /** An element that is laid out well, before something that is not taken for its block. */
  ghost predicate ItemOk(al: char -> bool, item: Item, rest: string)
    decreases item, 2
  {
    && HeadOk(al, item.head, BlockThen(item.block, rest))
    && match item.block
       case None => Apart(Opens, rest)
       case Some(b) =>
         White(b.lead) && White(b.after) && Apart(IsWhitespace, rest) && ItemsOk(al, b.items, "}" + (b.after + rest))
  }

  ghost predicate ItemsOk(al: char -> bool, items: seq<Item>, rest: string)
    decreases items, 3
  {
    items != [] ==> ItemOk(al, items[0], ItemsThen(items[1..], rest)) && ItemsOk(al, items[1..], rest)
  }

  // ----- What is spelled -----

  function AnchorOf(h: Head): Option<Id> {
    match h.mark case None => None case Some(m) => Some(m.id)
  }

  /** The element that a text spells before some rest of it: its span begins with its keyword and ends behind its
      block, or, where it has none, behind the white space that follows it. */
  ghost predicate Shows(item: Item, p: ParsedElement, chars: string, rest: string)
    decreases item, 2
  {
    && p.kind == item.head.kind && p.name == NameMeans(item.head.name) && p.anchorId == AnchorOf(item.head)
    && p.span.start + |ItemThen(item, rest)| == |chars|
    && p.span == SpanAt(chars, p.span.start, p.span.end)
    && match item.block
       case None => p.children == [] && p.span.end + |rest| == |chars|
       case Some(b) =>
         && p.span.end + |b.after + rest| == |chars|
         && ShowAll(b.items, p.children, chars, "}" + (b.after + rest))
  }

  ghost predicate ShowAll(items: seq<Item>, ps: seq<ParsedElement>, chars: string, rest: string)
    decreases items, 3
  {
    |ps| == |items| &&
    (items != [] ==>
       Shows(items[0], ps[0], chars, ItemsThen(items[1..], rest)) && ShowAll(items[1..], ps[1..], chars, rest))
  }

  // ----- Letters and white space -----

  lemma {:induction false} LowerAt(word: string)
    ensures |Lower(word)| == |word| && forall i :: 0 <= i < |word| ==> Lower(word)[i] == AsciiLower(word[i])
  {
    if word != "" {
      LowerAt(word[1..]);
      assert Lower(word) == [AsciiLower(word[0])] + Lower(word[1..]);
    }
  }

  /** A word of letters spells just its lower-case form. */
  lemma SpelledIsLower(word: string, keyword: string)
    requires AllLower(keyword)
    ensures SpellsWord(word, keyword) <==>
            ((forall i :: 0 <= i < |word| ==> Letter(word[i])) && Lower(word) == keyword)
  {
    LowerAt(word);
    if SpellsWord(word, keyword) {
      forall i | 0 <= i < |word|
        ensures Letter(word[i]) && AsciiLower(word[i]) == keyword[i]
      {
        assert IsLowerLetter(keyword[i]);
      }
    }
  }

  lemma KindIsKeyword(word: string, kind: NodeKind)
    ensures KindFromKeyword(word) == Some(kind) <==> word == KindKeyword(kind)
  {
    hide KindKeyword;
    KeywordRoundTrip(kind);
    if KindFromKeyword(word) == Some(kind) {
      KindWasKeyword(word, kind);
    }
  }

  lemma KindWasKeyword(word: string, kind: NodeKind)
    requires KindFromKeyword(word) == Some(kind)
    ensures word == KindKeyword(kind)
  {
  }

  lemma WordReads(chars: string, pos: nat, word: string, kind: NodeKind, gap: string, rest: string)
    requires WordOk(word, kind, gap, rest) && Apart(IsWhitespace, rest) && Reads(chars, pos, word + (gap + rest))
    ensures BareWord(chars, pos) == Ok(KindKeyword(kind), pos + |word|)
    ensures SkipWs(chars, pos + |word|) == pos + |word| + |gap| && Reads(chars, pos + |word| + |gap|, rest)
  {
    hide RunEnd, SkipWs, KindKeyword, Lower;
    KeywordIsLowerCase(kind);
    SpelledIsLower(word, KindKeyword(kind));
    assert gap != "" ==> (gap + rest)[0] == gap[0];
    RunEndAfter(IsAsciiLetter, chars, pos, word, gap + rest);
    Step(chars, pos, word, gap + rest);
    WhiteRuns(chars, pos + |word|, gap, rest);
  }

  lemma {:induction false} PiecesRead(chars: string, start: nat, pos: nat, pieces: seq<Piece>, rest: string)
    requires start <= pos && PiecesOk(pieces) && Reads(chars, pos, PiecesThen(pieces, "\"" + rest))
    ensures Reads(chars, pos, PiecesThen(pieces, "\"" + rest)) && |rest| < |chars|
    ensures QuotedTail(chars, start, pos) == Ok(PiecesMean(pieces), |chars| - |rest|)
    ensures Reads(chars, |chars| - |rest|, rest)
    decreases |pieces|
  {
    if pieces == [] {
      NextIs(chars, pos, '"', rest);
    } else {
      var p, more := pieces[0], PiecesThen(pieces[1..], "\"" + rest);
      assert p in pieces && forall q :: q in pieces[1..] ==> q in pieces;
      PieceReads(chars, start, pos, p, more);
      PiecesRead(chars, start, pos + |PieceText(p)|, pieces[1..], rest);
    }
  }

  lemma PieceReads(chars: string, start: nat, pos: nat, p: Piece, rest: string)
    requires start <= pos && PieceOk(p) && Reads(chars, pos, PieceText(p) + rest)
    ensures Reads(chars, pos + |PieceText(p)|, rest)
    ensures QuotedTail(chars, start, pos) == Prepend(PieceMeans(p), QuotedTail(chars, start, pos + |PieceText(p)|))
  {
    var text := PieceText(p);
    Step(chars, pos, text, rest);
    assert chars[pos..pos + |text|][0] == chars[pos];
    if |text| == 2 {
      assert chars[pos..pos + |text|][1] == chars[pos + 1];
    }
  }

  lemma NameReads(al: char -> bool, chars: string, pos: nat, n: Name, gap: string, rest: string)
    requires KeepsClear(al) && NameOk(al, n, gap, rest) && Apart(IsWhitespace, rest)
    requires Reads(chars, pos, NameThen(n, gap + rest))
    ensures |gap + rest| < |chars| && Identifier(al, chars, pos) == Ok(NameMeans(n), |chars| - |gap + rest|)
    ensures SkipWs(chars, |chars| - |gap + rest|) == |chars| - |rest| && Reads(chars, |chars| - |rest|, rest)
  {
    match n {
      case Bare(s) =>
        BareReads(al, chars, pos, s, gap, rest);
      case Quoted(pieces) =>
        QuotedReads(al, chars, pos, pieces, gap, rest);
    }
    WhiteRuns(chars, |chars| - |gap + rest|, gap, rest);
  }

  lemma BareReads(al: char -> bool, chars: string, pos: nat, s: string, gap: string, rest: string)
    requires KeepsClear(al) && NameOk(al, Bare(s), gap, rest) && Reads(chars, pos, s + (gap + rest))
    ensures |gap + rest| < |chars| && Identifier(al, chars, pos) == Ok(s, |chars| - |gap + rest|)
    ensures Reads(chars, |chars| - |gap + rest|, gap + rest)
  {
    hide RunEnd, QuotedTail;
    assert InName(al)(s[0]);
    assert gap != "" ==> (gap + rest)[0] == gap[0] && IsWhitespace(gap[0]);
    forall i | 0 <= i < |s|
      ensures NameChar(al)(s[i])
    {
      assert InName(al)(s[i]);
    }
    RunEndAfter(NameChar(al), chars, pos, s, gap + rest);
    Step(chars, pos, s, gap + rest);
    assert chars[pos..pos + |s|][0] == chars[pos];
  }

  lemma QuotedReads(al: char -> bool, chars: string, pos: nat, pieces: seq<Piece>, gap: string, rest: string)
    requires PiecesOk(pieces) && Reads(chars, pos, "\"" + PiecesThen(pieces, "\"" + (gap + rest)))
    ensures |gap + rest| < |chars| && Identifier(al, chars, pos) == Ok(PiecesMean(pieces), |chars| - |gap + rest|)
    ensures Reads(chars, |chars| - |gap + rest|, gap + rest)
  {
    hide RunEnd, QuotedTail;
    NextIs(chars, pos, '"', PiecesThen(pieces, "\"" + (gap + rest)));
    PiecesRead(chars, pos, pos + 1, pieces, gap + rest);
  }

  lemma MarkReads(chars: string, pos: nat, m: Mark, rest: string)
    requires MarkOk(m) && Apart(IsWhitespace, rest) && Reads(chars, pos, MarkThen(Some(m), rest))
    ensures |m.after + rest| < |chars| && Anchor(chars, pos) == Ok(Some(m.id), |chars| - |m.after + rest|)
    ensures SkipWs(chars, |chars| - |m.after + rest|) == |chars| - |rest| && Reads(chars, |chars| - |rest|, rest)
  {
    hide *;
    var inner := InMark(m, rest);
    MarkParts(m, rest);
    CommentOpens(chars, pos, m.g1 + ("#" + inner));
    MarksAreApart(inner, m.after + rest);
    WhiteRuns(chars, pos + 2, m.g1, "#" + inner);
    HashReads(chars, pos, pos + 2 + |m.g1|, m, rest);
    AnchorOpens(chars, pos);
    WhiteRuns(chars, |chars| - |m.after + rest|, m.after, rest);
  }

  /** What follows an anchor's `#`. */
  function InMark(m: Mark, rest: string): string {
    m.g2 + (m.id + (m.g3 + ("*/" + (m.after + rest))))
  }

  lemma MarkParts(m: Mark, rest: string)
    ensures MarkThen(Some(m), rest) == "/*" + (m.g1 + ("#" + InMark(m, rest)))
    ensures MarkOk(m) ==> White(m.g1) && White(m.after)
  {
  }

  lemma AnchorOpens(chars: string, pos: nat)
    requires At(chars, pos, '/') && At(chars, pos + 1, '*')
    ensures Anchor(chars, pos) == AnchorHash(chars, pos, SkipWs(chars, pos + 2))
  {
    hide SkipWs, AnchorHash;
  }

  lemma CommentOpens(chars: string, pos: nat, rest: string)
    requires Reads(chars, pos, "/*" + rest)
    ensures At(chars, pos, '/') && At(chars, pos + 1, '*') && Reads(chars, pos + 2, rest)
  {
    assert "/*" + rest == ['/'] + (['*'] + rest);
    NextIs(chars, pos, '/', ['*'] + rest);
    NextIs(chars, pos + 1, '*', rest);
  }

  lemma MarksAreApart(a: string, b: string)
    ensures Apart(IsWhitespace, "#" + a) && Apart(IsWhitespace, "*/" + b) && Apart(AnchorLetter(), "*/" + b)
  {
  }

  lemma HashReads(chars: string, open: nat, pos: nat, m: Mark, rest: string)
    requires MarkOk(m) && open <= pos
    requires Reads(chars, pos, "#" + InMark(m, rest))
    ensures |m.after + rest| < |chars| && AnchorHash(chars, open, pos) == Ok(Some(m.id), |chars| - |m.after + rest|)
    ensures Reads(chars, |chars| - |m.after + rest|, m.after + rest)
  {
    hide SkipWs, RunEnd, AnchorId, IsWhitespace, White;
    var tail := m.g3 + ("*/" + (m.after + rest));
    NextIs(chars, pos, '#', m.g2 + (m.id + tail));
    IdIsApart(m.id, tail);
    WhiteRuns(chars, pos + 1, m.g2, m.id + tail);
    IdReads(chars, open, pos + 1 + |m.g2|, m.id, m.g3, m.after + rest);
  }

  lemma IdIsApart(id: string, rest: string)
    requires IdOk(id)
    ensures Apart(IsWhitespace, id + rest)
  {
    assert AnchorLetter()(id[0]) && (id + rest)[0] == id[0];
  }

  lemma IdRuns(chars: string, pos: nat, id: string, gap: string, rest: string)
    requires IdOk(id) && White(gap) && Reads(chars, pos, id + (gap + ("*/" + rest)))
    ensures RunEnd(AnchorChar(), chars, pos) == pos + |id| && chars[pos..pos + |id|] == id
    ensures Reads(chars, pos + |id|, gap + ("*/" + rest))
  {
    hide RunEnd;
    var tail := gap + ("*/" + rest);
    assert gap != "" ==> tail[0] == gap[0] && IsWhitespace(gap[0]);
    forall i | 0 <= i < |id|
      ensures AnchorChar()(id[i])
    {
      assert AnchorLetter()(id[i]);
    }
    RunEndAfter(AnchorChar(), chars, pos, id, tail);
    Step(chars, pos, id, tail);
  }

  lemma IdReads(chars: string, open: nat, pos: nat, id: string, gap: string, rest: string)
    requires open <= pos && IdOk(id) && White(gap) && Reads(chars, pos, id + (gap + ("*/" + rest)))
    ensures |rest| < |chars| && AnchorId(chars, open, pos) == Ok(Some(id), |chars| - |rest|)
    ensures Reads(chars, |chars| - |rest|, rest)
  {
    hide SkipWs, RunEnd, AnchorClose, IsWhitespace, White, AnchorChar;
    IdRuns(chars, pos, id, gap, rest);
    IdNotEmpty(id);
    MarksAreApart("", rest);
    WhiteRuns(chars, pos + |id|, gap, "*/" + rest);
    CloseReads(chars, open, id, pos + |id| + |gap|, rest);
  }

  lemma IdNotEmpty(id: string)
    requires IdOk(id)
    ensures id != ""
  {
  }

  lemma CloseReads(chars: string, open: nat, id: Id, pos: nat, rest: string)
    requires open <= pos && Reads(chars, pos, "*/" + rest)
    ensures AnchorClose(chars, open, id, pos) == Ok(Some(id), pos + 2) && Reads(chars, pos + 2, rest)
  {
    assert "*/" + rest == ['*'] + (['/'] + rest);
    NextIs(chars, pos, '*', ['/'] + rest);
    NextIs(chars, pos + 1, '/', rest);
  }

  lemma NoMarkReads(chars: string, pos: nat, rest: string)
    requires !StartsComment(rest) && Reads(chars, pos, rest)
    ensures Anchor(chars, pos) == Ok(None, pos)
  {
    if pos < |chars| {
      assert chars[pos..][0] == chars[pos];
    }
    if pos + 1 < |chars| {
      assert chars[pos..][1] == chars[pos + 1];
    }
  }

  lemma NameIsApart(al: char -> bool, n: Name, gap: string, rest: string)
    requires KeepsClear(al) && NameOk(al, n, gap, rest)
    ensures Apart(IsWhitespace, NameThen(n, gap + rest))
  {
    match n {
      case Bare(s) => assert InName(al)(s[0]) && (s + (gap + rest))[0] == s[0];
      case Quoted(pieces) =>
    }
  }

  lemma MarkIsApart(mark: Option<Mark>, rest: string)
    requires Apart(IsWhitespace, rest)
    ensures Apart(IsWhitespace, MarkThen(mark, rest))
  {
    hide White, IdOk;
  }

  /** A heading reads as what it spells. */
  lemma HeadReads(al: char -> bool, h: Head, chars: string, pos: nat, rest: string)
    requires KeepsClear(al) && HeadOk(al, h, rest) && Reads(chars, pos, HeadThen(h, rest))
    ensures |rest| < |chars|
    ensures HeadingAt(al, chars, pos) == Ok(Heading(h.kind, NameMeans(h.name), AnchorOf(h)), |chars| - |rest|)
    ensures Reads(chars, |chars| - |rest|, rest)
  {
    hide BareWord, KindFromKeyword, KindKeyword, Identifier, Anchor, SkipWs, KeepsClear, WordOk, NameOk, MarkOk, White,
         NameThen, MarkThen, Apart, StartsComment, Reads;
    var named := NameThen(h.name, h.gap2 + MarkThen(h.mark, rest));
    NameIsApart(al, h.name, h.gap2, MarkThen(h.mark, rest));
    WordReads(chars, pos, h.word, h.kind, h.gap, named);
    KindIsKeyword(KindKeyword(h.kind), h.kind);
    MarkIsApart(h.mark, rest);
    NameReads(al, chars, pos + |h.word| + |h.gap|, h.name, h.gap2, MarkThen(h.mark, rest));
    match h.mark {
      case None =>
        NoMarkIs(rest);
        NoMarkReads(chars, |chars| - |rest|, rest);
        NothingSkipped(chars, |chars| - |rest|, rest);
      case Some(m) =>
        MarkReads(chars, |chars| - |MarkThen(h.mark, rest)|, m, rest);
    }
  }

  lemma NoMarkIs(rest: string)
    ensures MarkThen(None, rest) == rest
  {
  }

  lemma NothingSkipped(chars: string, pos: nat, rest: string)
    requires Reads(chars, pos, rest) && Apart(IsWhitespace, rest)
    ensures SkipWs(chars, pos) == pos
  {
    NothingToSkip(chars, pos, rest);
  }

  // ----- Reading elements -----

  /** The element that is read: up to where its block, or the white space behind it, ends. */
  lemma {:induction false} ItemReads(al: char -> bool, item: Item, chars: string, pos: nat, rest: string)
    requires KeepsClear(al) && ItemOk(al, item, rest) && Reads(chars, pos, ItemThen(item, rest))
    ensures var r := ElementAt(al, chars, pos);
            && r.Ok? && Shows(item, r.value, chars, rest)
            && SkipWs(chars, r.next) + |rest| == |chars| && Reads(chars, |chars| - |rest|, rest)
    decreases item, 2
  {
    hide HeadingAt, BlockItems, SkipWs, HeadThen, HeadOk, Apart, White, KeepsClear, ItemsThen, ItemsOk, Reads;
    HeadReads(al, item.head, chars, pos, BlockThen(item.block, rest));
    HeadEnds(al, item.head, BlockThen(item.block, rest));
    var h := HeadingAt(al, chars, pos);
    PositionOf(chars, pos, ItemThen(item, rest));
    match item.block {
      case None =>
        NotOpen(chars, h.next, rest);
        ElementIs(al, chars, pos);
        NothingSkipped(chars, h.next, rest);
      case Some(b) =>
        var closing := "}" + (b.after + rest);
        OpenReads(chars, h.next, b.lead + ItemsThen(b.items, closing));
        BlockReads(al, b.items, chars, h.next + 1, b.lead, b.after + rest);
        ElementIs(al, chars, pos);
        WhiteRuns(chars, |chars| - |b.after + rest|, b.after, rest);
    }
  }

  lemma HeadEnds(al: char -> bool, h: Head, rest: string)
    requires HeadOk(al, h, rest)
    ensures Apart(IsWhitespace, rest)
  {
  }

  lemma PositionOf(chars: string, pos: nat, s: string)
    requires Reads(chars, pos, s)
    ensures pos + |s| == |chars|
  {
  }

  lemma NotOpen(chars: string, pos: nat, rest: string)
    requires Reads(chars, pos, rest) && Apart(Opens, rest)
    ensures !At(chars, pos, '{')
  {
    if pos < |chars| {
      assert chars[pos..][0] == chars[pos];
    }
  }

  lemma OpenReads(chars: string, pos: nat, rest: string)
    requires Reads(chars, pos, "{" + rest)
    ensures At(chars, pos, '{') && Reads(chars, pos + 1, rest)
  {
    NextIs(chars, pos, '{', rest);
  }

  lemma ElementIs(al: char -> bool, chars: string, pos: nat)
    requires pos <= |chars| && HeadingAt(al, chars, pos).Ok?
    ensures var h := HeadingAt(al, chars, pos);
            ElementAt(al, chars, pos) ==
            if !At(chars, h.next, '{') then Built(h.value, [], chars, pos, h.next)
            else
              var b := BlockItems(al, chars, h.next + 1);
              if b.Err? then Err(b.error) else Built(h.value, b.value, chars, pos, b.next)
  {
    hide HeadingAt, BlockItems;
  }

  lemma ItemsAreApart(al: char -> bool, items: seq<Item>, rest: string)
    requires KeepsClear(al) && ItemsOk(al, items, rest) && Apart(IsWhitespace, rest)
    ensures Apart(IsWhitespace, ItemsThen(items, rest))
    ensures items != [] ==> ItemsThen(items, rest) != "" && Letter(ItemsThen(items, rest)[0])
  {
    if items != [] {
      hide ItemsThen, ItemsOk, BlockThen, NameThen, MarkThen, NameOk, KindKeyword;
      ItemsSplit(al, items, rest);
      var more := ItemsThen(items[1..], rest);
      var h := items[0].head;
      KeywordIsLowerCase(h.kind);
      SpelledIsLower(h.word, KindKeyword(h.kind));
      assert HeadThen(h, BlockThen(items[0].block, more))[0] == h.word[0];
      assert Letter(h.word[0]);
    }
  }

  lemma ItemsSplit(al: char -> bool, items: seq<Item>, rest: string)
    requires items != []
    ensures ItemsThen(items, rest) == ItemThen(items[0], ItemsThen(items[1..], rest))
    ensures ItemsOk(al, items, rest) <==>
            ItemOk(al, items[0], ItemsThen(items[1..], rest)) && ItemsOk(al, items[1..], rest)
  {
    hide ItemThen, ItemOk;
  }

  /** A block's items, after any white space. */
  lemma {:induction false} BlockReads(al: char -> bool, items: seq<Item>, chars: string, pos: nat, lead: string,
                                      rest: string)
    requires KeepsClear(al) && White(lead) && ItemsOk(al, items, "}" + rest)
    requires Reads(chars, pos, lead + ItemsThen(items, "}" + rest))
    ensures var r := BlockItems(al, chars, pos);
            r.Ok? && ShowAll(items, r.value, chars, "}" + rest) && r.next + |rest| == |chars|
    ensures |rest| <= |chars| && Reads(chars, |chars| - |rest|, rest)
    decreases items, 3
  {
    hide BlockItems, ItemThen, ItemOk, SkipWs, KeepsClear, White, Shows, ElementAt, Reads, IsWhitespace;
    BraceIsApart(rest);
    ItemsAreApart(al, items, "}" + rest);
    WhiteRuns(chars, pos, lead, ItemsThen(items, "}" + rest));
    var p := pos + |lead|;
    if items == [] {
      CloseBrace(chars, p, rest);
      BlockStops(al, chars, pos);
    } else {
      ItemsSplit(al, items, "}" + rest);
      var more := ItemsThen(items[1..], "}" + rest);
      LetterIsNoBrace(chars, p, ItemsThen(items, "}" + rest));
      ItemReads(al, items[0], chars, p, more);
      BlockRuns(al, chars, pos);
      var first := ElementAt(al, chars, p);
      BehindItem(chars, first.next, more);
      var gap := chars[first.next..|chars| - |more|];
      BlockReads(al, items[1..], chars, first.next, gap, rest);
      ShownCons(items, first.value, BlockItems(al, chars, first.next), chars, "}" + rest);
    }
  }

  lemma BraceIsApart(rest: string)
    ensures Apart(IsWhitespace, "}" + rest)
  {
  }

  lemma CloseBrace(chars: string, pos: nat, rest: string)
    requires Reads(chars, pos, "}" + rest)
    ensures At(chars, pos, '}') && Reads(chars, pos + 1, rest) && pos + 1 + |rest| == |chars|
  {
    NextIs(chars, pos, '}', rest);
  }

  lemma LetterIsNoBrace(chars: string, pos: nat, s: string)
    requires Reads(chars, pos, s) && s != "" && Letter(s[0])
    ensures pos < |chars| && !At(chars, pos, '}')
  {
    assert chars[pos..][0] == chars[pos];
  }

  /** The white space behind an element. */
  lemma BehindItem(chars: string, pos: nat, rest: string)
    requires pos <= |chars| && SkipWs(chars, pos) + |rest| == |chars| && Reads(chars, |chars| - |rest|, rest)
    ensures pos <= |chars| - |rest| && White(chars[pos..|chars| - |rest|])
    ensures Reads(chars, pos, chars[pos..|chars| - |rest|] + rest)
  {
    SkippedIsWhite(chars, pos);
    var q := |chars| - |rest|;
    assert chars[pos..] == chars[pos..q] + chars[q..];
  }

  lemma {:induction false} SkippedIsWhite(chars: string, pos: nat)
    requires pos <= |chars|
    ensures White(chars[pos..SkipWs(chars, pos)])
    decreases |chars| - pos
  {
    if pos < |chars| && IsWhitespace(chars[pos]) {
      SkippedIsWhite(chars, pos + 1);
      var q := SkipWs(chars, pos);
      assert chars[pos..q] == [chars[pos]] + chars[pos + 1..q];
    }
  }

  lemma BlockStops(al: char -> bool, chars: string, pos: nat)
    requires pos <= |chars| && At(chars, SkipWs(chars, pos), '}')
    ensures BlockItems(al, chars, pos) == Ok([], SkipWs(chars, pos) + 1)
  {
    hide SkipWs, ElementAt;
  }

  lemma BlockRuns(al: char -> bool, chars: string, pos: nat)
    requires pos <= |chars| && !At(chars, SkipWs(chars, pos), '}') && SkipWs(chars, pos) < |chars|
    ensures var first := ElementAt(al, chars, SkipWs(chars, pos));
            BlockItems(al, chars, pos) ==
            if first.Err? then Err(first.error) else Cons(first.value, BlockItems(al, chars, first.next))
  {
    hide SkipWs, ElementAt;
  }

  lemma ShownCons(items: seq<Item>, p: ParsedElement, r: Reading<seq<ParsedElement>>, chars: string, rest: string)
    requires items != [] && r.Ok? && Shows(items[0], p, chars, ItemsThen(items[1..], rest))
    requires ShowAll(items[1..], r.value, chars, rest)
    ensures Cons(p, r) == Ok([p] + r.value, r.next) && ShowAll(items, [p] + r.value, chars, rest)
  {
    hide Shows;
    assert ([p] + r.value)[1..] == r.value;
  }

  // ----- Documents -----

  ghost predicate DocumentOk(al: char -> bool, lead: string, items: seq<Item>) {
    White(lead) && ItemsOk(al, items, "")
  }

  function DocumentText(lead: string, items: seq<Item>): string {
    lead + ItemsThen(items, "")
  }

  lemma {:induction false} ItemsRead(al: char -> bool, items: seq<Item>, chars: string, pos: nat)
    requires KeepsClear(al) && ItemsOk(al, items, "") && Reads(chars, pos, ItemsThen(items, ""))
    ensures var r := DocumentItems(al, chars, pos);
            r.Ok? && ShowAll(items, r.value, chars, "") && r.next == |chars|
    decreases |items|
  {
    hide ItemThen, ItemOk, SkipWs, KeepsClear, White, Shows, ElementAt, Reads, DocumentItems;
    if items == [] {
      NothingLeft(al, chars, pos);
    } else {
      ItemsSplit(al, items, "");
      ItemsAreApart(al, items, "");
      LetterIsNoBrace(chars, pos, ItemsThen(items, ""));
      ItemReads(al, items[0], chars, pos, ItemsThen(items[1..], ""));
      var first := ElementAt(al, chars, pos);
      DocumentRuns(al, chars, pos);
      ItemsRead(al, items[1..], chars, SkipWs(chars, first.next));
      ShownCons(items, first.value, DocumentItems(al, chars, SkipWs(chars, first.next)), chars, "");
    }
  }

  lemma NothingLeft(al: char -> bool, chars: string, pos: nat)
    requires Reads(chars, pos, "")
    ensures DocumentItems(al, chars, pos) == Ok([], |chars|)
  {
    assert |chars[pos..]| == 0;
  }

  lemma DocumentRuns(al: char -> bool, chars: string, pos: nat)
    requires pos < |chars|
    ensures var first := ElementAt(al, chars, pos);
            DocumentItems(al, chars, pos) ==
            if first.Err? then Err(first.error)
            else Cons(first.value, DocumentItems(al, chars, SkipWs(chars, first.next)))
  {
    hide SkipWs, ElementAt;
  }

  /** Whatever way elements are laid out, parsing the text gives just these elements: kinds, names, anchors, nesting
      and places. */
  lemma LaidOutIsParsed(al: char -> bool, lead: string, items: seq<Item>)
    requires KeepsClear(al) && DocumentOk(al, lead, items)
    ensures var text := DocumentText(lead, items);
            var r := Document(al, text);
            r.Ok? && ShowAll(items, r.value, text, "")
  {
    hide SkipWs, DocumentItems, ItemsOk, ItemsThen, White, KeepsClear, ShowAll;
    var chars := DocumentText(lead, items);
    assert chars[0..] == chars;
    EmptyIsApart();
    ItemsAreApart(al, items, "");
    WhiteRuns(chars, 0, lead, ItemsThen(items, ""));
    ItemsRead(al, items, chars, |lead|);
  }

  lemma EmptyIsApart()
    ensures Apart(IsWhitespace, "")
  {
  }
}
