/** Every text is laid out well or goes wrong: so parsing succeeds exactly on texts that some elements spell. */
module TextComplete {
  import opened SysmlModel
  import opened Scanning
  import opened ReadingBack
  import opened TextSyntax
  import opened TextLayout
  import opened TextFaults

  lemma TwoSeen(chars: string, pos: nat)
    requires pos <= |chars|
    ensures At(chars, pos, '/') && At(chars, pos + 1, '*') <==> StartsComment(chars[pos..])
    ensures At(chars, pos, '*') && At(chars, pos + 1, '/') <==> StartsClose(chars[pos..])
    ensures StartsComment(chars[pos..]) ==> pos + 2 <= |chars| && chars[pos..] == "/*" + chars[pos + 2..]
    ensures StartsClose(chars[pos..]) ==> pos + 2 <= |chars| && chars[pos..] == "*/" + chars[pos + 2..]
  {
  }

  // ----- Names -----

  /** A quoted name's pieces, up to its closing quote or the end of the text. */
  lemma {:induction false} PiecesAre(chars: string, start: nat, pos: nat) returns (pieces: seq<Piece>, rest: string)
    requires start <= pos <= |chars|
    ensures PiecesOk(pieces)
    ensures var r := QuotedTail(chars, start, pos);
            if r.Ok? then rest == chars[r.next..] && chars[pos..] == PiecesThen(pieces, "\"" + rest)
            else chars[pos..] == PiecesThen(pieces, rest) && (rest == "" || rest == "\\")
    decreases |chars| - pos
  {
    if pos == |chars| {
      pieces, rest := [], "";
    } else if chars[pos] == '"' {
      pieces, rest := [], chars[pos + 1..];
      assert chars[pos..] == "\"" + rest;
    } else if chars[pos] != '\\' {
      var more: seq<Piece>;
      more, rest := PiecesAre(chars, start, pos + 1);
      pieces := [Plain(chars[pos])] + more;
      assert chars[pos..] == [chars[pos]] + chars[pos + 1..];
      assert pieces[1..] == more;
    } else if pos + 1 == |chars| {
      pieces, rest := [], "\\";
      assert chars[pos..] == "\\";
    } else {
      var c := chars[pos + 1];
      var more: seq<Piece>;
      more, rest := PiecesAre(chars, start, pos + 2);
      pieces := [if c == '"' || c == '\\' then Escaped(c) else Kept(c)] + more;
      assert chars[pos..] == ['\\', c] + chars[pos + 2..];
      assert pieces[1..] == more;
    }
  }

  datatype NameOutcome = Named(name: Name) | NoneThere | Unclosed(pieces: seq<Piece>, rest: string)

  /** What a name's outcome means for the text it is read from. */
  ghost predicate NameFits(al: char -> bool, n: NameOutcome, chars: string, pos: nat, r: Reading<string>)
    requires pos <= |chars| && (r.Ok? ==> r.next <= |chars|)
  {
    if r.Ok? then
      var q := SkipWs(chars, r.next);
      && n.Named? && NameOk(al, n.name, chars[r.next..q], chars[q..])
      && chars[pos..] == NameThen(n.name, chars[r.next..q] + chars[q..])
    else
      match n
      case NoneThere => Apart(StartsName(al), chars[pos..])
      case Unclosed(pieces, rest) =>
        PiecesOk(pieces) && chars[pos..] == "\"" + PiecesThen(pieces, rest) && (rest == "" || rest == "\\")
      case Named(_) => false
  }

  /** A name and the white space behind it, or what stands there instead. */
  lemma NameIs(al: char -> bool, chars: string, pos: nat) returns (n: NameOutcome)
    requires KeepsClear(al) && pos <= |chars|
    ensures NameFits(al, n, chars, pos, Identifier(al, chars, pos))
  {
    hide NameFits, Identifier, KeepsClear;
    if At(chars, pos, '"') {
      n := QuotedIs(al, chars, pos);
    } else {
      n := BareNameIs(al, chars, pos);
    }
  }

  lemma QuotedIs(al: char -> bool, chars: string, pos: nat) returns (n: NameOutcome)
    requires At(chars, pos, '"')
    ensures NameFits(al, n, chars, pos, Identifier(al, chars, pos))
  {
    hide RunEnd, QuotedTail, SkipWs, PiecesThen, PiecesOk;
    var r := QuotedTail(chars, pos, pos + 1);
    SeenAt(chars, pos, '"');
    var pieces, rest := PiecesAre(chars, pos, pos + 1);
    if r.Ok? {
      SkippedIs(chars, r.next);
      n := Named(Quoted(pieces));
    } else {
      n := Unclosed(pieces, rest);
    }
  }

  lemma BareNameIs(al: char -> bool, chars: string, pos: nat) returns (n: NameOutcome)
    requires KeepsClear(al) && pos <= |chars| && !At(chars, pos, '"')
    ensures NameFits(al, n, chars, pos, Identifier(al, chars, pos))
  {
    hide RunEnd, QuotedTail, SkipWs, KeepsClear, NameOk, PiecesThen, PiecesOk;
    RunIs(NameChar(al), chars, pos);
    var end := RunEnd(NameChar(al), chars, pos);
    if end == pos {
      n := NoneThere;
      NoNameThere(al, chars, pos);
    } else {
      SkippedIs(chars, end);
      n := Named(Bare(chars[pos..end]));
      Cut(chars, pos, end);
      BareIs(al, chars, pos, end);
    }
  }

  lemma NoNameThere(al: char -> bool, chars: string, pos: nat)
    requires KeepsClear(al) && pos <= |chars| && !At(chars, pos, '"')
    requires pos < |chars| ==> !NameChar(al)(chars[pos])
    ensures Apart(StartsName(al), chars[pos..])
  {
    if pos < |chars| {
      var c := chars[pos..][0];
      assert !NameChar(al)(c) && !InName(al)(c) && !StartsName(al)(c);
    }
  }

  lemma BareIs(al: char -> bool, chars: string, pos: nat, end: nat)
    requires pos < end <= |chars| && forall i :: 0 <= i < end - pos ==> NameChar(al)(chars[pos..end][i])
    requires end < |chars| ==> !NameChar(al)(chars[end])
    requires var q := SkipWs(chars, end);
             White(chars[end..q]) && chars[end..] == chars[end..q] + chars[q..]
    ensures var q := SkipWs(chars, end); NameOk(al, Bare(chars[pos..end]), chars[end..q], chars[q..])
  {
    hide SkipWs;
    var q := SkipWs(chars, end);
    var s := chars[pos..end];
    forall i | 0 <= i < |s|
      ensures InName(al)(s[i])
    {
      assert NameChar(al)(s[i]);
    }
    if chars[end..q] == "" && chars[q..] != "" {
      assert chars[end..] == chars[q..];
      assert chars[q..][0] == chars[end] && !NameChar(al)(chars[end]);
      assert !InName(al)(chars[q..][0]);
    }
  }

  // ----- Anchors -----

  datatype MarkOutcome =
    | Marked(mark: Option<Mark>, rest: string)
    | HashGone(g1: string, rest: string)
    | IdGone(g1: string, g2: string, rest: string)
    | NotClosed(g1: string, g2: string, id: string, g3: string, rest: string)

  /** What an anchor's outcome means for the text it is read from. */
  ghost predicate MarkFits(m: MarkOutcome, text: string) {
    match m
    case Marked(None, rest) => text == rest && !StartsComment(rest)
    case Marked(Some(mark), rest) => text == MarkThen(Some(mark), rest) && MarkOk(mark)
    case HashGone(g1, rest) =>
      text == "/*" + (g1 + rest) && White(g1) && Apart(IsWhitespace, rest) && Apart(Hash, rest)
    case IdGone(g1, g2, rest) =>
      && text == "/*" + (g1 + ("#" + (g2 + rest))) && White(g1) && White(g2)
      && Apart(IsWhitespace, rest) && Apart(AnchorLetter(), rest)
    case NotClosed(g1, g2, id, g3, rest) =>
      && text == "/*" + (g1 + ("#" + (g2 + (id + (g3 + rest))))) && White(g1) && White(g2) && IdOk(id) && White(g3)
      && (g3 == "" ==> Apart(AnchorLetter(), rest)) && Apart(IsWhitespace, rest) && !StartsClose(rest)
  }

  lemma MarkIs(chars: string, pos: nat) returns (m: MarkOutcome)
    requires pos <= |chars| && Apart(IsWhitespace, chars[pos..])
    ensures MarkFits(m, chars[pos..])
    ensures var r := Anchor(chars, pos);
            if r.Ok? then m.Marked? && m.rest == chars[SkipWs(chars, r.next)..] && Apart(IsWhitespace, m.rest)
            else !m.Marked?
  {
    hide RunEnd, SkipWs, AnchorId, White, IsWhitespace;
    TwoSeen(chars, pos);
    if !StartsComment(chars[pos..]) {
      SkippedIs(chars, pos);
      NothingSkipped(chars, pos, chars[pos..]);
      m := Marked(None, chars[pos..]);
    } else {
      var p := SkipWs(chars, pos + 2);
      SkippedIs(chars, pos + 2);
      var g1 := chars[pos + 2..p];
      if !At(chars, p, '#') {
        NoHashThere(chars, p);
        m := HashGone(g1, chars[p..]);
      } else {
        SeenAt(chars, p, '#');
        var q := SkipWs(chars, p + 1);
        SkippedIs(chars, p + 1);
        m := IdIs(chars, pos, q, g1, chars[p + 1..q]);
        OpenedMark(chars, pos, p, q, g1, chars[p + 1..q]);
      }
    }
  }

  lemma NoHashThere(chars: string, p: nat)
    requires p <= |chars| && !At(chars, p, '#')
    ensures Apart(Hash, chars[p..])
  {
    if p < |chars| {
      assert chars[p..][0] == chars[p];
    }
  }

  lemma OpenedMark(chars: string, pos: nat, p: nat, q: nat, g1: string, g2: string)
    requires pos + 2 <= p < q <= |chars| && chars[pos..] == "/*" + chars[pos + 2..]
    requires chars[pos + 2..] == g1 + chars[p..] && chars[p..] == "#" + chars[p + 1..] &&
             chars[p + 1..] == g2 + chars[q..]
    ensures chars[pos..] == "/*" + (g1 + ("#" + (g2 + chars[q..])))
  {
  }

  /** The id of an anchor, its closing and the white space behind it, or what stands there instead. */
  lemma IdIs(chars: string, open: nat, q: nat, g1: string, g2: string) returns (m: MarkOutcome)
    requires open <= q <= |chars| && White(g1) && White(g2) && Apart(IsWhitespace, chars[q..])
    ensures MarkFits(m, "/*" + (g1 + ("#" + (g2 + chars[q..]))))
    ensures var r := AnchorId(chars, open, q);
            if r.Ok? then m.Marked? && m.rest == chars[SkipWs(chars, r.next)..] && Apart(IsWhitespace, m.rest)
            else !m.Marked?
  {
    hide RunEnd, SkipWs, White, IsWhitespace, AnchorChar, IdOk, StartsClose;
    RunIs(AnchorChar(), chars, q);
    var end := RunEnd(AnchorChar(), chars, q);
    if end == q {
      NoIdThere(chars, q);
      m := IdGone(g1, g2, chars[q..]);
    } else {
      var p := SkipWs(chars, end);
      SkippedIs(chars, end);
      IdIsOk(chars, q, end, p);
      Cut(chars, q, end);
      TwoSeen(chars, p);
      m := CloseIs(chars, p, g1, g2, chars[q..end], chars[end..p]);
    }
  }

  lemma CloseIs(chars: string, p: nat, g1: string, g2: string, id: string, g3: string) returns (m: MarkOutcome)
    requires p <= |chars| && White(g1) && White(g2) && White(g3) && IdOk(id) && Apart(IsWhitespace, chars[p..])
    requires g3 == "" ==> Apart(AnchorLetter(), chars[p..])
    ensures MarkFits(m, "/*" + (g1 + ("#" + (g2 + (id + (g3 + chars[p..]))))))
    ensures if StartsClose(chars[p..])
            then p + 2 <= |chars| && m.Marked? && m.rest == chars[SkipWs(chars, p + 2)..] && Apart(IsWhitespace, m.rest)
            else !m.Marked?
  {
    hide SkipWs, White, IsWhitespace, IdOk, StartsClose, Apart;
    TwoSeen(chars, p);
    if StartsClose(chars[p..]) {
      var after := SkipWs(chars, p + 2);
      SkippedIs(chars, p + 2);
      m := Marked(Some(Mark(g1, g2, id, g3, chars[p + 2..after])), chars[after..]);
      assert chars[p..] == "*/" + (chars[p + 2..after] + chars[after..]);
    } else {
      m := NotClosed(g1, g2, id, g3, chars[p..]);
    }
  }

  lemma NoIdThere(chars: string, q: nat)
    requires q <= |chars| && (q < |chars| ==> !AnchorChar()(chars[q]))
    ensures Apart(AnchorLetter(), chars[q..])
  {
    if q < |chars| {
      assert chars[q..][0] == chars[q];
      assert !AnchorLetter()(chars[q]);
    }
  }

  lemma IdIsOk(chars: string, q: nat, end: nat, p: nat)
    requires q < end <= p <= |chars| && forall i :: 0 <= i < end - q ==> AnchorChar()(chars[q..end][i])
    requires end < |chars| ==> !AnchorChar()(chars[end])
    ensures IdOk(chars[q..end]) && (chars[end..p] == "" ==> Apart(AnchorLetter(), chars[p..]))
  {
    var id := chars[q..end];
    forall i | 0 <= i < |id|
      ensures AnchorLetter()(id[i])
    {
      assert AnchorChar()(id[i]);
    }
    if chars[end..p] == "" {
      assert p == end;
      NoIdThere(chars, end);
    }
  }

  // ----- Headings -----

  datatype HeadOutcome = Headed(head: Head, rest: string) | Misheaded(fault: Fault, rest: string)

  lemma HeadIs(al: char -> bool, chars: string, pos: nat) returns (h: HeadOutcome)
    requires KeepsClear(al) && pos < |chars| && Apart(IsWhitespace, chars[pos..])
    ensures var r := HeadingAt(al, chars, pos);
            if r.Ok? then
              && h.Headed? && HeadOk(al, h.head, h.rest) && chars[pos..] == HeadThen(h.head, h.rest)
              && r.next <= |chars| && h.rest == chars[r.next..]
            else
              && h.Misheaded? && FaultOk(al, h.fault, h.rest) && chars[pos..] == FaultThen(h.fault, h.rest)
              && !h.fault.OpenBlock? && !h.fault.Inside?
              && (h.fault.NoKind? ==> h.rest == chars[pos..])
  {
    hide RunEnd, SkipWs, Lower, KindFromKeyword, KindKeyword, NamedHeading, IsWhitespace;
    RunIs(IsAsciiLetter, chars, pos);
    var end := RunEnd(IsAsciiLetter, chars, pos);
    LettersAre(chars, pos, end);
    if end == pos {
      h := Misheaded(NoKind, chars[pos..]);
      assert chars[pos..][0] == chars[pos];
    } else {
      var word := chars[pos..end];
      Cut(chars, pos, end);
      var kind := KindFromKeyword(Lower(word));
      if kind.None? {
        NoKindSpelled(word);
        h := Misheaded(StrangeKind(word), chars[end..]);
      } else {
        KindIsKeyword(Lower(word), kind.value);
        KeywordIsLowerCase(kind.value);
        SpelledIsLower(word, KindKeyword(kind.value));
        SkippedIs(chars, end);
        WordIsOk(chars, pos, end, kind.value);
        h := NamedIs(al, chars, pos, end, kind.value);
      }
    }
  }

  lemma LettersAre(chars: string, pos: nat, end: nat)
    requires pos <= end <= |chars| && forall i :: 0 <= i < end - pos ==> IsAsciiLetter(chars[pos..end][i])
    requires end < |chars| ==> !IsAsciiLetter(chars[end])
    ensures (forall i :: 0 <= i < end - pos ==> Letter(chars[pos..end][i])) && Apart(Letter, chars[end..])
  {
    if end < |chars| {
      assert chars[end..][0] == chars[end];
    }
  }

  lemma NoKindSpelled(word: string)
    requires KindFromKeyword(Lower(word)).None?
    ensures forall kind :: !SpellsWord(word, KindKeyword(kind))
  {
    hide KindKeyword, KindFromKeyword, SpellsWord, Lower;
    forall kind
      ensures !SpellsWord(word, KindKeyword(kind))
    {
      KindIsKeyword(Lower(word), kind);
      KeywordIsLowerCase(kind);
      SpelledIsLower(word, KindKeyword(kind));
    }
  }

  lemma WordIsOk(chars: string, pos: nat, end: nat, kind: NodeKind)
    requires pos <= end <= |chars| && SpellsWord(chars[pos..end], KindKeyword(kind)) && Apart(Letter, chars[end..])
    requires var q := SkipWs(chars, end); White(chars[end..q]) && chars[end..] == chars[end..q] + chars[q..]
    ensures var q := SkipWs(chars, end); WordOk(chars[pos..end], kind, chars[end..q], chars[q..])
  {
    hide SkipWs, KindKeyword;
  }

  lemma NamedIs(al: char -> bool, chars: string, pos: nat, end: nat, kind: NodeKind) returns (h: HeadOutcome)
    requires KeepsClear(al) && pos < end <= |chars|
    requires var q := SkipWs(chars, end);
             && WordOk(chars[pos..end], kind, chars[end..q], chars[q..]) && Apart(IsWhitespace, chars[q..])
             && chars[pos..] == chars[pos..end] + (chars[end..q] + chars[q..])
    ensures var r := NamedHeading(al, chars, kind, SkipWs(chars, end));
            if r.Ok? then
              && h.Headed? && HeadOk(al, h.head, h.rest) && chars[pos..] == HeadThen(h.head, h.rest)
              && r.next <= |chars| && h.rest == chars[r.next..]
            else
              && h.Misheaded? && FaultOk(al, h.fault, h.rest) && chars[pos..] == FaultThen(h.fault, h.rest)
              && !h.fault.OpenBlock? && !h.fault.Inside? && !h.fault.NoKind?
  {
    hide RunEnd, SkipWs, Identifier, Anchor, WordOk, NameOk, KeepsClear, Apart, MarkOk, PiecesOk, White, IdOk,
         NameThen, PiecesThen, MarkFits;
    var q := SkipWs(chars, end);
    var word, gap := chars[pos..end], chars[end..q];
    var n := NameIs(al, chars, q);
    var name := Identifier(al, chars, q);
    if name.Err? {
      match n {
        case NoneThere => h := Misheaded(NoName(word, kind, gap), chars[q..]);
        case Unclosed(pieces, rest) =>
          QuoteAlone(word, kind, gap, PiecesThen(pieces, rest));
          if rest == "" {
            h := Misheaded(OpenName(word, kind, gap, pieces), "");
          } else {
            h := Misheaded(OpenEscape(word, kind, gap, pieces), "");
            assert "\\" + "" == "\\";
          }
        case Named(_) =>
      }
    } else {
      var p := SkipWs(chars, name.next);
      var gap2 := chars[name.next..p];
      SkippedIs(chars, name.next);
      var m := MarkIs(chars, p);
      h := MarkedIs(al, chars, pos, word, kind, gap, n.name, gap2, p, m);
    }
  }

  lemma QuoteAlone(word: string, kind: NodeKind, gap: string, rest: string)
    requires WordOk(word, kind, gap, "\"" + rest)
    ensures WordOk(word, kind, gap, "\"")
  {
    hide KindKeyword;
  }

  lemma MarkedIs(al: char -> bool, chars: string, pos: nat, word: string, kind: NodeKind, gap: string, name: Name,
                 gap2: string, p: nat, m: MarkOutcome) returns (h: HeadOutcome)
    requires pos <= |chars| && p <= |chars| && MarkFits(m, chars[p..])
    requires m.Marked? ==> Apart(IsWhitespace, m.rest)
    requires WordOk(word, kind, gap, NameThen(name, gap2 + chars[p..])) && NameOk(al, name, gap2, chars[p..])
    requires chars[pos..] == word + (gap + NameThen(name, gap2 + chars[p..]))
    ensures if m.Marked? then
              && h.Headed? && HeadOk(al, h.head, h.rest) && chars[pos..] == HeadThen(h.head, h.rest) && h.rest == m.rest
            else
              && h.Misheaded? && FaultOk(al, h.fault, h.rest) && chars[pos..] == FaultThen(h.fault, h.rest)
              && !h.fault.OpenBlock? && !h.fault.Inside? && !h.fault.NoKind?
  {
    hide WordOk, NameOk, Apart, MarkOk, White, IdOk, NameThen, StartsComment, StartsClose;
    var named := Lead(word, kind, gap, name, gap2);
    match m {
      case Marked(mark, rest) => h := Headed(Head(word, kind, gap, name, gap2, mark), rest);
      case HashGone(g1, rest) => h := Misheaded(NoHash(named, g1), rest);
      case IdGone(g1, g2, rest) => h := Misheaded(NoId(named, g1, g2), rest);
      case NotClosed(g1, g2, id, g3, rest) => h := Misheaded(OpenMark(named, g1, g2, id, g3), rest);
    }
  }

  // ----- Elements and blocks -----

  datatype Outcome = Laid(item: Item, rest: string) | Faulty(fault: Fault, rest: string)

  datatype BlockOutcome =
    | Closed(lead: string, items: seq<Item>, rest: string)
    | Open(lead: string, items: seq<Item>)
    | Broken(lead: string, items: seq<Item>, fault: Fault, rest: string)

  /** An element, and the white space behind it, or where it goes wrong. */
  lemma {:induction false} ItemIs(al: char -> bool, chars: string, pos: nat) returns (o: Outcome)
    requires KeepsClear(al) && pos < |chars| && Apart(IsWhitespace, chars[pos..])
    ensures var r := ElementAt(al, chars, pos);
            if r.Ok? then
              && o.Laid? && ItemOk(al, o.item, o.rest) && chars[pos..] == ItemThen(o.item, o.rest)
              && o.rest == chars[SkipWs(chars, r.next)..] && Apart(IsWhitespace, o.rest)
            else
              && o.Faulty? && FaultOk(al, o.fault, o.rest) && chars[pos..] == FaultThen(o.fault, o.rest)
              && (o.fault.NoKind? ==> o.rest == chars[pos..])
    decreases |chars| - pos, 0
  {
    hide HeadingAt, BlockItems, SkipWs, HeadThen, HeadOk, White, KeepsClear, FaultOk, ItemsOk, ItemsThen;
    var h := HeadIs(al, chars, pos);
    var head := HeadingAt(al, chars, pos);
    if head.Err? {
      HeadingErrs(al, chars, pos, chars[pos..]);
      o := Faulty(h.fault, h.rest);
    } else {
      ElementIs(al, chars, pos);
      HeadEnds(al, h.head, h.rest);
      if !At(chars, head.next, '{') {
        NotOpened(chars, head.next);
        NothingSkipped(chars, head.next, chars[head.next..]);
        o := Laid(Item(h.head, None), h.rest);
      } else {
        SeenAt(chars, head.next, '{');
        var b := BlockIs(al, chars, head.next + 1);
        match b {
          case Closed(lead, items, rest) =>
            var end := BlockItems(al, chars, head.next + 1).next;
            SkippedIs(chars, end);
            var after := chars[end..SkipWs(chars, end)];
            o := Laid(Item(h.head, Some(Block(lead, items, after))), chars[SkipWs(chars, end)..]);
          case Open(lead, items) =>
            o := Faulty(OpenBlock(h.head, lead, items), "");
            OpenIsOk(al, h.head, lead, items);
          case Broken(lead, items, fault, rest) =>
            o := Faulty(Inside(h.head, lead, items, fault), rest);
            InsideIsOk(al, h.head, lead, items, fault, rest);
        }
      }
    }
  }

  lemma NotOpened(chars: string, pos: nat)
    requires pos <= |chars| && !At(chars, pos, '{')
    ensures Apart(Opens, chars[pos..])
  {
    if pos < |chars| {
      assert chars[pos..][0] == chars[pos];
    }
  }

  lemma OpenIsOk(al: char -> bool, head: Head, lead: string, items: seq<Item>)
    requires HeadOk(al, head, "{" + (lead + ItemsThen(items, ""))) && White(lead) && ItemsOk(al, items, "")
    ensures FaultOk(al, OpenBlock(head, lead, items), "")
  {
    hide HeadOk, White, ItemsOk, ItemsThen;
  }

  lemma InsideIsOk(al: char -> bool, head: Head, lead: string, items: seq<Item>, fault: Fault, rest: string)
    requires HeadOk(al, head, "{" + (lead + ItemsThen(items, FaultThen(fault, rest)))) && White(lead)
    requires ItemsOk(al, items, FaultThen(fault, rest)) && FaultOk(al, fault, rest)
    requires fault.NoKind? ==> Apart(Closes, rest)
    ensures FaultOk(al, Inside(head, lead, items, fault), rest)
  {
    hide HeadOk, White, ItemsOk, ItemsThen, FaultThen;
  }

  /** A block's items up to its closing brace, the end of the text, or the one that goes wrong. */
  lemma {:induction false} BlockIs(al: char -> bool, chars: string, pos: nat) returns (b: BlockOutcome)
    requires KeepsClear(al) && pos <= |chars|
    ensures var r := BlockItems(al, chars, pos);
            White(b.lead) && (r.Ok? <==> b.Closed?) &&
            match b
            case Closed(lead, items, rest) =>
              && ItemsOk(al, items, "}" + rest) && chars[pos..] == lead + ItemsThen(items, "}" + rest)
              && r.next <= |chars| && rest == chars[r.next..]
            case Open(lead, items) => ItemsOk(al, items, "") && chars[pos..] == lead + ItemsThen(items, "")
            case Broken(lead, items, fault, rest) =>
              && FaultOk(al, fault, rest) && ItemsOk(al, items, FaultThen(fault, rest))
              && chars[pos..] == lead + ItemsThen(items, FaultThen(fault, rest))
              && (fault.NoKind? ==> Apart(Closes, rest))
    decreases |chars| - pos, 1
  {
    hide BlockItems, ElementAt, SkipWs, White, KeepsClear, FaultOk, FaultThen, ItemOk, ItemThen, IsWhitespace, ItemsOk,
         ItemsThen;
    var p := SkipWs(chars, pos);
    var lead := chars[pos..p];
    SkippedIs(chars, pos);
    if At(chars, p, '}') {
      BlockStops(al, chars, pos);
      SeenAt(chars, p, '}');
      NoItems(al, "}" + chars[p + 1..]);
      b := Closed(lead, [], chars[p + 1..]);
    } else if p == |chars| {
      BlockNeverCloses(al, chars, pos, p);
      NoItems(al, "");
      b := Open(lead, []);
    } else {
      BlockRuns(al, chars, pos);
      NotBraceThere(chars, p);
      var o := ItemIs(al, chars, p);
      var first := ElementAt(al, chars, p);
      if first.Err? {
        NoItems(al, FaultThen(o.fault, o.rest));
        b := Broken(lead, [], o.fault, o.rest);
      } else {
        var more := BlockIs(al, chars, first.next);
        b := OneMoreItem(al, chars, pos, p, first.next, lead, o.item, more);
      }
    }
  }

  lemma NoItems(al: char -> bool, rest: string)
    ensures ItemsOk(al, [], rest) && ItemsThen([], rest) == rest
  {
  }

  lemma NotBraceThere(chars: string, p: nat)
    requires p < |chars| && !At(chars, p, '}')
    ensures Apart(Closes, chars[p..])
  {
    assert chars[p..][0] == chars[p];
  }

  /** The text behind an element is the same whether its white space is counted to it or to what follows. */
  lemma SameRest(chars: string, next: nat, lead: string, text: string)
    requires next <= |chars| && White(lead) && Apart(IsWhitespace, text) && chars[next..] == lead + text
    ensures chars[SkipWs(chars, next)..] == text
  {
    WhiteRuns(chars, next, lead, text);
  }

  lemma OneMoreItem(al: char -> bool, chars: string, pos: nat, p: nat, next: nat, lead: string, item: Item,
                    more: BlockOutcome) returns (b: BlockOutcome)
    requires KeepsClear(al) && pos <= p <= next <= |chars| && White(lead) && chars[pos..] == lead + chars[p..]
    requires ItemOk(al, item, chars[SkipWs(chars, next)..]) &&
             chars[p..] == ItemThen(item, chars[SkipWs(chars, next)..])
    requires White(more.lead)
    requires match more
             case Closed(lead, items, rest) =>
               ItemsOk(al, items, "}" + rest) && chars[next..] == lead + ItemsThen(items, "}" + rest)
             case Open(lead, items) => ItemsOk(al, items, "") && chars[next..] == lead + ItemsThen(items, "")
             case Broken(lead, items, fault, rest) =>
               && FaultOk(al, fault, rest) && ItemsOk(al, items, FaultThen(fault, rest))
               && chars[next..] == lead + ItemsThen(items, FaultThen(fault, rest))
               && (fault.NoKind? ==> Apart(Closes, rest))
    ensures b.lead == lead
    ensures match more
            case Closed(_, items, rest) =>
              b == Closed(lead, [item] + items, rest) && ItemsOk(al, [item] + items, "}" + rest)
              && chars[pos..] == lead + ItemsThen([item] + items, "}" + rest)
            case Open(_, items) =>
              b == Open(lead, [item] + items) && ItemsOk(al, [item] + items, "")
              && chars[pos..] == lead + ItemsThen([item] + items, "")
            case Broken(_, items, fault, rest) =>
              b == Broken(lead, [item] + items, fault, rest) && ItemsOk(al, [item] + items, FaultThen(fault, rest))
              && chars[pos..] == lead + ItemsThen([item] + items, FaultThen(fault, rest))
  {
    hide SkipWs, White, KeepsClear, FaultOk, FaultThen, ItemOk, ItemThen, IsWhitespace, ItemsOk, ItemsThen;
    match more {
      case Closed(l, items, rest) =>
        BraceIsApart(rest);
        PutInFront(al, chars, next, l, item, items, "}" + rest);
        b := Closed(lead, [item] + items, rest);
      case Open(l, items) =>
        EmptyIsApart();
        PutInFront(al, chars, next, l, item, items, "");
        b := Open(lead, [item] + items);
      case Broken(l, items, fault, rest) =>
        FaultIsApart(al, fault, rest);
        PutInFront(al, chars, next, l, item, items, FaultThen(fault, rest));
        b := Broken(lead, [item] + items, fault, rest);
    }
  }

  lemma PutInFront(al: char -> bool, chars: string, next: nat, lead: string, item: Item, items: seq<Item>, rest: string)
    requires KeepsClear(al) && next <= |chars| && White(lead) && Apart(IsWhitespace, rest) && ItemsOk(al, items, rest)
    requires chars[next..] == lead + ItemsThen(items, rest) && ItemOk(al, item, chars[SkipWs(chars, next)..])
    ensures ItemsOk(al, [item] + items, rest)
    ensures ItemsThen([item] + items, rest) == ItemThen(item, chars[SkipWs(chars, next)..])
  {
    hide SkipWs, White, KeepsClear, ItemOk, ItemThen, IsWhitespace, ItemsOk, ItemsThen;
    ItemsAreApart(al, items, rest);
    SameRest(chars, next, lead, ItemsThen(items, rest));
    assert ([item] + items)[1..] == items;
    ItemsSplit(al, [item] + items, rest);
  }

  // ----- Documents -----

  datatype DocumentOutcome = Whole(items: seq<Item>) | Wrong(items: seq<Item>, fault: Fault, rest: string)

  lemma {:induction false} ItemsAre(al: char -> bool, chars: string, pos: nat) returns (d: DocumentOutcome)
    requires KeepsClear(al) && pos <= |chars| && Apart(IsWhitespace, chars[pos..])
    ensures var r := DocumentItems(al, chars, pos);
            if r.Ok? then d.Whole? && ItemsOk(al, d.items, "") && chars[pos..] == ItemsThen(d.items, "")
            else
              && d.Wrong? && FaultOk(al, d.fault, d.rest) && ItemsOk(al, d.items, FaultThen(d.fault, d.rest))
              && chars[pos..] == ItemsThen(d.items, FaultThen(d.fault, d.rest))
    decreases |chars| - pos
  {
    hide DocumentItems, ElementAt, SkipWs, White, KeepsClear, FaultOk, FaultThen, ItemOk, ItemThen, IsWhitespace,
         ItemsOk, ItemsThen;
    if pos == |chars| {
      NothingLeft(al, chars, pos);
      NoItems(al, "");
      d := Whole([]);
    } else {
      DocumentRuns(al, chars, pos);
      var o := ItemIs(al, chars, pos);
      var first := ElementAt(al, chars, pos);
      if first.Err? {
        NoItems(al, FaultThen(o.fault, o.rest));
        d := Wrong([], o.fault, o.rest);
      } else {
        var more := ItemsAre(al, chars, SkipWs(chars, first.next));
        assert ([o.item] + more.items)[1..] == more.items;
        match more {
          case Whole(items) =>
            d := Whole([o.item] + items);
            ItemsSplit(al, [o.item] + items, "");
          case Wrong(items, fault, rest) =>
            d := Wrong([o.item] + items, fault, rest);
            ItemsSplit(al, [o.item] + items, FaultThen(fault, rest));
        }
      }
    }
  }

  /** Parsing succeeds exactly on the texts that some elements spell, and its answer is these elements. */
  lemma ParsesIff(al: char -> bool, text: string)
    requires KeepsClear(al)
    ensures Document(al, text).Ok? <==>
            exists lead, items :: DocumentOk(al, lead, items) && text == DocumentText(lead, items)
    ensures forall lead, items :: DocumentOk(al, lead, items) && text == DocumentText(lead, items) ==>
              Document(al, text).Ok? && ShowAll(items, Document(al, text).value, text, "")
  {
    hide DocumentItems, SkipWs, KeepsClear, ItemsOk, ItemsThen, White, ShowAll, FaultOk, FaultThen;
    forall lead, items | DocumentOk(al, lead, items) && text == DocumentText(lead, items)
      ensures Document(al, text).Ok? && ShowAll(items, Document(al, text).value, text, "")
    {
      LaidOutIsParsed(al, lead, items);
    }
    if Document(al, text).Ok? {
      var pos := SkipWs(text, 0);
      SkippedIs(text, 0);
      var d := ItemsAre(al, text, pos);
      assert text[0..] == text;
      assert DocumentOk(al, text[0..pos], d.items) && text == DocumentText(text[0..pos], d.items);
    }
  }

  /** Elements and then one that goes wrong. */
  ghost predicate GoesWrong(al: char -> bool, text: string, lead: string, items: seq<Item>, f: Fault, rest: string) {
    && White(lead) && ItemsOk(al, items, FaultThen(f, rest)) && FaultOk(al, f, rest)
    && text == lead + ItemsThen(items, FaultThen(f, rest))
  }

  /** And it fails exactly on the texts that go wrong in one of the ways told, with the error of that way. */
  lemma FailsIff(al: char -> bool, text: string)
    requires KeepsClear(al)
    ensures Document(al, text).Err? <==> exists lead, items, f, rest :: GoesWrong(al, text, lead, items, f, rest)
    ensures forall lead, items, f, rest :: GoesWrong(al, text, lead, items, f, rest) ==>
              Reports(Document(al, text), FaultReason(f), text, ReportedAt(f, rest))
  {
    hide DocumentItems, SkipWs, KeepsClear, ItemsOk, ItemsThen, White, FaultOk, FaultThen, ErrorAt;
    forall lead, items, f, rest | GoesWrong(al, text, lead, items, f, rest)
      ensures Reports(Document(al, text), FaultReason(f), text, ReportedAt(f, rest))
    {
      FaultIsReported(al, lead, items, f, rest);
    }
    if Document(al, text).Err? {
      var pos := SkipWs(text, 0);
      SkippedIs(text, 0);
      var d := ItemsAre(al, text, pos);
      assert text[0..] == text;
      assert GoesWrong(al, text, text[0..pos], d.items, d.fault, d.rest);
    }
  }

  // ----- Places -----

  /** The line breaks before a place. */
  ghost function Breaks(chars: string, pos: nat): set<nat>
    requires pos <= |chars|
  {
    set i: nat | i < pos && chars[i] == '\n'
  }

  /** A place's line is one more than the line breaks before it. */
  lemma {:induction false} LineIs(chars: string, pos: nat)
    requires pos <= |chars|
    ensures LineAt(chars, pos) == 1 + |Breaks(chars, pos)|
    decreases pos
  {
    if pos > 0 {
      LineIs(chars, pos - 1);
      var more := if chars[pos - 1] == '\n' then {pos - 1} else {};
      assert Breaks(chars, pos) == Breaks(chars, pos - 1) + more;
    }
  }

  /** Its column is one more than the characters between it and the last line break before it, if there is one. */
  lemma {:induction false} ColumnIs(chars: string, pos: nat, start: nat)
    requires start <= pos <= |chars| && (start == 0 || chars[start - 1] == '\n')
    requires forall i :: start <= i < pos ==> chars[i] != '\n'
    ensures ColAt(chars, pos) == pos - start + 1
    decreases pos
  {
    if start < pos {
      ColumnIs(chars, pos - 1, start);
    }
  }
}
