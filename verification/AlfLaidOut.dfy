/** Every program that is laid out well is read as what it is written for. */
module AlfLaidOut {
  import opened SysmlModel
  import opened Scanning
  import opened ReadingBack
  import opened Decimals
  import opened AlfSyntax
  import opened AlfPrinter
  import opened AlfExprRoundTrip
  import opened AlfLayout

  // ----- What the two ways of telling have in common -----

  lemma NameIsIdent(s: string)
    ensures Name(s) <==> Ident(s)
    ensures forall c :: WordPart(c) <==> IdentContinue(c)
  {
  }

  lemma ApartAlike(rest: string)
    ensures Apart(WordPart, rest) <==> Apart(IdentContinue, rest)
    ensures Apart(FigureChar, rest) <==> Apart(IsDigit, rest)
  {
  }

  lemma {:induction false} NumeralIsValue(figures: seq<Figure>)
    ensures AllIn(IsDigit, figures) && Numeral(figures) == Value(figures)
  {
    if figures != [] {
      NumeralIsValue(figures[..|figures| - 1]);
    }
  }

  lemma SignIsText(op: BinaryOp)
    ensures Sign(op) == OpText(op)
  {
  }

  /** The grammar's rules by their level. */
  ghost predicate Fits(p: Phrase, level: nat) {
    match level
    case 0 => Disjunction(p)
    case 1 => Conjunction(p)
    case 2 => Comparison(p)
    case 3 => Sum(p)
    case 4 => Product(p)
    case _ => Operand(p)
  }

  predicate AtLevel(p: Phrase, level: nat) {
    p.Joined? && LevelOf(p.op) == level
  }

  lemma FitsUp(p: Phrase, level: nat)
    requires level < UnaryLevel && Fits(p, level) && !AtLevel(p, level)
    ensures Fits(p, level + 1)
  {
  }

  lemma FitsOperand(p: Phrase)
    requires Fits(p, UnaryLevel)
    ensures !p.Joined?
    ensures p.Negation? ==> Fits(p.operand, UnaryLevel)
    ensures p.Brackets? ==> Fits(p.inner, OrLevel)
  {
    assert Operand(p);
    assert Primary(p) ==> !p.Negation? && !p.Joined?;
  }

  lemma {:induction false} FitsAtMost(p: Phrase, level: nat)
    requires level <= UnaryLevel && Fits(p, level) && p.Joined?
    ensures LevelOf(p.op) >= level
    decreases UnaryLevel - level
  {
    hide Fits;
    if level == UnaryLevel {
      FitsOperand(p);
    } else if !AtLevel(p, level) {
      FitsUp(p, level);
      FitsAtMost(p, level + 1);
    }
  }

  lemma FitsBoth(p: Phrase, level: nat)
    requires level < UnaryLevel && Fits(p, level) && AtLevel(p, level)
    ensures Fits(p.left, if level == CmpLevel then AddLevel else level) && Fits(p.right, level + 1)
  {
    if Fits(p, level + 1) {
      FitsAtMost(p, level + 1);
    }
  }

  // ----- White space -----

  lemma {:induction false} TrimmedAt(chars: string, pos: nat, s: string)
    requires Reads(chars, pos, s)
    ensures |Trimmed(s)| <= |s| && pos + |s| == |chars|
    ensures SkipWs(chars, pos) == |chars| - |Trimmed(s)| && Reads(chars, |chars| - |Trimmed(s)|, Trimmed(s))
    decreases |s|
  {
    if s != "" {
      assert chars[pos..][0] == chars[pos] && chars[pos + 1..] == s[1..];
      if IsWhitespace(s[0]) {
        TrimmedAt(chars, pos + 1, s[1..]);
      }
    }
  }

  lemma {:induction false} TrimmedBehind(gap: string, s: string)
    requires White(gap) && Apart(IsWhitespace, s)
    ensures Trimmed(gap + s) == s
    decreases |gap|
  {
    if gap == "" {
      assert gap + s == s;
    } else {
      TrimmedBehind(gap[1..], s);
      assert gap + s == [gap[0]] + (gap[1..] + s);
    }
  }

  lemma ReadsLength(chars: string, pos: nat, s: string)
    requires Reads(chars, pos, s)
    ensures pos + |s| == |chars|
  {
  }

  // ----- Reading a word -----

  ghost predicate Yields(r: Reading<Expr>, e: Expr, chars: string, rest: string) {
    |rest| <= |chars| && ReadsAs(r, e, chars, |chars| - |rest|) && Reads(chars, |chars| - |rest|, rest)
  }

  lemma HeadOfWord(chars: string, pos: nat, word: string, rest: string)
    requires Name(word) && Reads(chars, pos, word + rest) && Apart(WordPart, rest)
    ensures Reads(chars, pos + |word|, rest) && pos + |word| <= |chars| && word != ""
    ensures AtomAt(chars, pos) == AfterIdent(chars, pos, word, pos + |word|)
  {
    hide Reads, AtomAt, AfterIdent, Name, Ident, Apart;
    NameIsIdent(word);
    ApartAlike(rest);
    WordIsAtom(chars, pos, word, rest);
  }

  lemma SeenChar(chars: string, pos: nat, s: string, c: char)
    requires Reads(chars, pos, s)
    ensures At(chars, pos, c) <==> s != "" && s[0] == c
    ensures |s| >= 2 ==> pos + 1 < |chars| && chars[pos + 1] == s[1]
    ensures |s| < 2 ==> pos + 1 >= |chars|
  {
    assert s != "" ==> chars[pos..][0] == chars[pos];
    assert |s| >= 2 ==> chars[pos..][1] == chars[pos + 1];
  }

  lemma CollectionsAlike(word: string)
    ensures CollectionWord(word) <==> IsCollection(word)
  {
  }

  lemma WordReads(chars: string, pos: nat, name: string, rest: string)
    requires PhraseOk(Word(name), rest) && Reads(chars, pos, name + rest)
    ensures pos <= |chars| && Yields(AtomAt(chars, pos), Means(Word(name)), chars, rest)
  {
    hide Reads, AtomAt, Name, IdentAt, Apart, Trimmed, SkipWs;
    HeadOfWord(chars, pos, name, rest);
    var end := pos + |name|;
    ReadsLength(chars, end, rest);
    ExactlySettled(chars, end);
    TrimmedAt(chars, end, rest);
    SeenChar(chars, end, rest, '.');
    SeenChar(chars, |chars| - |Trimmed(rest)|, Trimmed(rest), '.');
    SeenChar(chars, |chars| - |Trimmed(rest)|, Trimmed(rest), '{');
    CollectionsAlike(name);
    NoCharHere(rest, '.', Point);
    NoCharHere(Trimmed(rest), '.', Point);
    NoCharHere(Trimmed(rest), '{', Brace);
  }

  lemma NoCharHere(s: string, c: char, inClass: char -> bool)
    requires inClass(c)
    ensures Apart(inClass, s) ==> s == "" || s[0] != c
  {
  }

  lemma AccessReads(chars: string, pos: nat, target: string, gap: string, feature: string, rest: string)
    requires PhraseOk(Access(target, gap, feature), rest)
    requires Reads(chars, pos, target + (gap + ("." + (feature + rest))))
    ensures pos <= |chars| && Yields(AtomAt(chars, pos), PropertyAccess(target, feature), chars, rest)
  {
    hide Reads, AtomAt, Name, Ident, IdentAt, Apart, SkipWs, White;
    var dotted := "." + (feature + rest);
    GapThenPoint(gap, feature + rest);
    HeadOfWord(chars, pos, target, gap + dotted);
    var end := pos + |target|;
    PointIsNotWhite(feature + rest);
    WhiteRuns(chars, end, gap, dotted);
    NextIs(chars, end + |gap|, '.', feature + rest);
    NameIsIdent(feature);
    ApartAlike(rest);
    IdentReadsBack(chars, end + |gap| + 1, feature, rest);
    ReadsLength(chars, end + |gap| + 1 + |feature|, rest);
    ExactlySettled(chars, |chars| - |rest|);
    CollectionsAlike(target);
    if gap == "" {
      assert end + |gap| == end;
    }
  }

  lemma GapThenPoint(gap: string, s: string)
    requires White(gap)
    ensures Apart(WordPart, gap + ("." + s))
  {
    assert gap != "" ==> (gap + ("." + s))[0] == gap[0];
  }

  // ----- Numbers and strings -----

  lemma FigureStarts(figures: seq<Figure>, rest: string)
    requires figures != []
    ensures figures + rest != "" && IsDigit((figures + rest)[0])
  {
    assert (figures + rest)[0] == figures[0];
  }

  lemma WholeReads(chars: string, pos: nat, figures: seq<Figure>, rest: string)
    requires PhraseOk(Whole(figures), rest) && Reads(chars, pos, figures + rest)
    ensures pos <= |chars| && Yields(AtomAt(chars, pos), Means(Whole(figures)), chars, rest)
  {
    hide Reads, Apart, Digits, RunEnd, Value, Numeral;
    NumeralIsValue(figures);
    ApartAlike(rest);
    DigitsReadBack(chars, pos, figures, rest);
    var end := pos + |figures|;
    ReadsLength(chars, end, rest);
    ExactlySettled(chars, end);
    SeenChar(chars, end, rest, '.');
    DigitIsAtom(chars, pos);
  }

  lemma FractionReads(chars: string, pos: nat, figures: seq<Figure>, decimals: seq<Figure>, rest: string)
    requires PhraseOk(Fraction(figures, decimals), rest) && Reads(chars, pos, figures + ("." + (decimals + rest)))
    ensures pos <= |chars| && Yields(AtomAt(chars, pos), Means(Fraction(figures, decimals)), chars, rest)
  {
    hide Reads, Apart, Digits, RunEnd, Value, Numeral;
    NumeralIsValue(figures);
    NumeralIsValue(decimals);
    ApartAlike(rest);
    PointIsNoDigit(decimals + rest);
    DigitsReadBack(chars, pos, figures, "." + (decimals + rest));
    var end := pos + |figures|;
    NextIs(chars, end, '.', decimals + rest);
    DigitsReadBack(chars, end + 1, decimals, rest);
    ReadsLength(chars, end + 1 + |decimals|, rest);
    ExactlySettled(chars, end + 1 + |decimals|);
    DigitIsAtom(chars, pos);
  }

  lemma PointIsNoDigit(s: string)
    ensures Apart(IsDigit, "." + s)
  {
  }

  lemma PieceReads(chars: string, start: nat, pos: nat, p: Piece, rest: string)
    requires start <= pos && PieceOk(p) && Reads(chars, pos, PieceText(p) + rest)
    ensures Reads(chars, pos + |PieceText(p)|, rest)
    ensures StringTail(chars, start, pos) == Prepend(PieceMeans(p), StringTail(chars, start, pos + |PieceText(p)|))
  {
    var text := PieceText(p);
    Step(chars, pos, text, rest);
    assert chars[pos..pos + |text|][0] == chars[pos];
    if |text| == 2 {
      assert chars[pos..pos + |text|][1] == chars[pos + 1];
    }
  }

  lemma {:induction false} PiecesRead(chars: string, start: nat, pos: nat, pieces: seq<Piece>, rest: string)
    requires start <= pos && (forall p :: p in pieces ==> PieceOk(p))
    requires Reads(chars, pos, PiecesThen(pieces, "\"" + rest))
    ensures |rest| <= |chars| && StringTail(chars, start, pos) == Ok(PiecesMean(pieces), |chars| - |rest|)
    ensures Reads(chars, |chars| - |rest|, rest)
    decreases |pieces|
  {
    if pieces == [] {
      StringEnds(chars, start, pos, rest);
    } else {
      var p, more := pieces[0], PiecesThen(pieces[1..], "\"" + rest);
      assert p in pieces && forall q :: q in pieces[1..] ==> q in pieces;
      PieceReads(chars, start, pos, p, more);
      PiecesRead(chars, start, pos + |PieceText(p)|, pieces[1..], rest);
    }
  }

  lemma TextReads(chars: string, pos: nat, pieces: seq<Piece>, rest: string)
    requires PhraseOk(Text(pieces), rest) && Reads(chars, pos, "\"" + PiecesThen(pieces, "\"" + rest))
    ensures pos <= |chars| && Yields(AtomAt(chars, pos), Means(Text(pieces)), chars, rest)
  {
    hide Reads, StringTail, PiecesThen, PiecesMean, AtomAt;
    NextIs(chars, pos, '"', PiecesThen(pieces, "\"" + rest));
    PiecesRead(chars, pos, pos + 1, pieces, rest);
    QuoteIsAtom(chars, pos, PiecesMean(pieces), |chars| - |rest|);
    ExactlySettled(chars, |chars| - |rest|);
  }

  /** A phrase without an operator or bracket of its own. */
  predicate Plainly(p: Phrase) {
    !p.Brackets? && !p.Negation? && !p.Joined?
  }

  lemma AtomReads(p: Phrase, chars: string, pos: nat, rest: string)
    requires Plainly(p) && PhraseOk(p, rest) && Reads(chars, pos, PhraseThen(p, rest))
    ensures pos <= |chars| && Yields(AtomAt(chars, pos), Means(p), chars, rest)
  {
    hide PhraseOk, Reads, Yields, AtomAt, PiecesThen;
    match p {
      case Word(name) => WordReads(chars, pos, name, rest);
      case Access(target, gap, feature) => AccessReads(chars, pos, target, gap, feature, rest);
      case Whole(figures) => WholeReads(chars, pos, figures, rest);
      case Fraction(figures, decimals) => FractionReads(chars, pos, figures, decimals, rest);
      case Text(pieces) => TextReads(chars, pos, pieces, rest);
    }
  }

  // ----- How phrases begin -----

  predicate Begins(c: char) {
    WordStart(c) || FigureChar(c) || c == '"' || c == '(' || c == '!'
  }

  lemma {:induction false} PhraseBegins(p: Phrase, rest: string)
    requires PhraseOk(p, rest)
    ensures PhraseThen(p, rest) != "" && Begins(PhraseThen(p, rest)[0])
    ensures Plainly(p) ==> PhraseThen(p, rest)[0] != '(' && PhraseThen(p, rest)[0] != '!'
    decreases p
  {
    hide White, Apart, Numeral, PiecesThen;
    match p {
      case Joined(op, left, g1, g2, right) => PhraseBegins(left, g1 + (Sign(op) + (g2 + PhraseThen(right, rest))));
      case Word(name) => WordBegins(name, rest);
      case Access(target, gap, feature) => WordBegins(target, gap + ("." + (feature + rest)));
      case Whole(figures) => FigureStarts(figures, rest);
      case Fraction(figures, decimals) => FigureStarts(figures, "." + (decimals + rest));
      case _ =>
    }
  }

  lemma WordBegins(name: string, rest: string)
    requires Name(name)
    ensures name + rest != "" && WordStart((name + rest)[0])
  {
    assert (name + rest)[0] == name[0];
  }

  lemma BeginsIsNotWhite(s: string)
    requires s != "" && Begins(s[0])
    ensures Apart(IsWhitespace, s) && s[0] != '=' && s[0] != ')' && s[0] != '}'
  {
  }

  lemma PhraseStarts(p: Phrase, rest: string)
    requires PhraseOk(p, rest)
    ensures PhraseThen(p, rest) != "" && Apart(IsWhitespace, PhraseThen(p, rest))
    ensures PhraseThen(p, rest)[0] != '=' && PhraseThen(p, rest)[0] != ')' && PhraseThen(p, rest)[0] != '}'
  {
    hide PhraseOk, PhraseThen, Begins;
    PhraseBegins(p, rest);
    BeginsIsNotWhite(PhraseThen(p, rest));
  }

  // ----- What follows an expression -----

  /** What may follow an expression of a level, past white space: a closing mark, or an operator of a lower level. */
  ghost predicate Ends(level: nat, rest: string) {
    var s := Trimmed(rest);
    || (s != "" && Mark(s[0]))
    || exists op, more :: LevelOf(op) < level && s == Sign(op) + more
  }

  lemma EndsHigher(level: nat, higher: nat, rest: string)
    requires level <= higher && Ends(level, rest)
    ensures Ends(higher, rest)
  {
    hide Trimmed, Sign;
  }

  lemma SignIsNotWhite(op: BinaryOp, more: string)
    ensures Apart(IsWhitespace, Sign(op) + more)
  {
  }

  lemma OpEnds(level: nat, gap: string, op: BinaryOp, more: string)
    requires White(gap) && LevelOf(op) < level
    ensures Ends(level, gap + (Sign(op) + more))
  {
    hide Trimmed, Sign, White;
    SignIsNotWhite(op, more);
    TrimmedBehind(gap, Sign(op) + more);
  }

  lemma MarkEnds(level: nat, gap: string, c: char, more: string)
    requires White(gap) && Mark(c)
    ensures Ends(level, gap + ([c] + more))
  {
    hide Trimmed, White;
    MarkIsNotWhite(c, more);
    TrimmedBehind(gap, [c] + more);
  }

  lemma MarkIsNotWhite(c: char, more: string)
    requires Mark(c)
    ensures Apart(IsWhitespace, [c] + more)
  {
  }

  /** An operator stands there: it is read at its level, and at higher ones nothing is. */
  lemma SignIsRead(chars: string, pos: nat, op: BinaryOp, more: string, level: nat)
    requires Reads(chars, pos, Sign(op) + more) && LevelOf(op) <= level < UnaryLevel
    requires (more != "" && more[0] != '=') || LevelOf(op) < level
    ensures OperatorAt(chars, level, pos) == if level == LevelOf(op) then Some(op) else None
  {
    var s := Sign(op) + more;
    assert s[0] == Sign(op)[0];
    assert chars[pos..][0] == chars[pos];
    assert |s| >= 2 ==> chars[pos..][1] == chars[pos + 1] && s[1] == if |Sign(op)| == 2 then Sign(op)[1] else more[0];
  }

  lemma NoOperatorThen(chars: string, pos: nat, rest: string, level: nat, higher: nat)
    requires Reads(chars, pos, rest) && Ends(level, rest) && level <= higher < UnaryLevel
    ensures pos <= |chars| && OperatorAt(chars, higher, SkipWs(chars, pos)) == None
  {
    hide Reads, SkipWs, OperatorAt, Sign, Mark, Trimmed;
    var s := Trimmed(rest);
    TrimmedAt(chars, pos, rest);
    if s != "" && Mark(s[0]) {
      SeenChar(chars, |chars| - |s|, s, s[0]);
      NoOpAtMark(chars, |chars| - |s|, s[0], higher);
    } else {
      var op, more :| LevelOf(op) < level && s == Sign(op) + more;
      SignIsRead(chars, |chars| - |s|, op, more, higher);
    }
  }

  // ----- Expressions -----

  ghost predicate PhraseAt(p: Phrase, level: nat, chars: string, pos: nat, rest: string) {
    level <= UnaryLevel && Fits(p, level) && PhraseOk(p, rest) && Reads(chars, pos, PhraseThen(p, rest))
  }

  ghost function JoinedTail(p: Phrase, rest: string): string
    requires p.Joined?
  {
    p.g1 + (Sign(p.op) + (p.g2 + PhraseThen(p.right, rest)))
  }

  lemma JoinedIs(p: Phrase, level: nat, chars: string, pos: nat, rest: string)
    requires PhraseAt(p, level, chars, pos, rest) && level < UnaryLevel && AtLevel(p, level)
    ensures PhraseAt(p.left, if level == CmpLevel then AddLevel else level, chars, pos, JoinedTail(p, rest))
    ensures Fits(p.right, level + 1) && PhraseOk(p.right, rest)
    ensures White(p.g1) && White(p.g2) && Means(p) == Binary(p.op, Means(p.left), Means(p.right))
    ensures Ends(level + 1, JoinedTail(p, rest))
  {
    hide White, Sign, Fits, Ends;
    FitsBoth(p, level);
    OpEnds(level + 1, p.g1, p.op, p.g2 + PhraseThen(p.right, rest));
  }

  /** Behind a left operand the operator is read, and then stands the right operand. */
  lemma RightIsThere(chars: string, end: nat, op: BinaryOp, g1: string, g2: string, right: Phrase, rest: string)
    requires White(g1) && White(g2) && PhraseOk(right, rest)
    requires Reads(chars, end, g1 + (Sign(op) + (g2 + PhraseThen(right, rest))))
    ensures end <= |chars|
    ensures var at := SkipWs(chars, end);
            && OperatorAt(chars, LevelOf(op), at) == Some(op)
            && Reads(chars, SkipWs(chars, at + |OpText(op)|), PhraseThen(right, rest))
  {
    hide SkipWs, Reads, OpText, OperatorAt, PhraseThen, PhraseOk, Sign, White;
    var more := g2 + PhraseThen(right, rest);
    SignIsText(op);
    PhraseStarts(right, rest);
    SignIsNotWhite(op, more);
    WhiteRuns(chars, end, g1, Sign(op) + more);
    GapIsNoEqual(g2, PhraseThen(right, rest));
    SignIsRead(chars, end + |g1|, op, more, LevelOf(op));
    Step(chars, end + |g1|, Sign(op), more);
    WhiteRuns(chars, end + |g1| + |Sign(op)|, g2, PhraseThen(right, rest));
    ReadsLength(chars, end, g1 + (Sign(op) + more));
  }

  lemma GapIsNoEqual(gap: string, s: string)
    requires White(gap) && s != "" && s[0] != '='
    ensures gap + s != "" && (gap + s)[0] != '='
  {
    assert gap != "" ==> (gap + s)[0] == gap[0];
  }

  lemma JoinGoesOn(chars: string, level: nat, left: Expr, end: nat, op: BinaryOp, right: Expr, rightEnd: nat)
    requires level < UnaryLevel && end <= |chars| && OperatorAt(chars, level, SkipWs(chars, end)) == Some(op)
    requires var start := SkipWs(chars, SkipWs(chars, end) + |OpText(op)|);
             ReadsAs(ExprAt(chars, level + 1, start), right, chars, rightEnd)
    ensures if level == CmpLevel then ReadsAs(RestAt(chars, level, left, end), Binary(op, left, right), chars, rightEnd)
            else RestAt(chars, level, left, end) == RestAt(chars, level, Binary(op, left, right), rightEnd)
  {
    hide SkipWs, OperatorAt, ExprAt, OpText, Settled;
    var r := ExprAt(chars, level + 1, SkipWs(chars, SkipWs(chars, end) + |OpText(op)|));
    if level != CmpLevel {
      RestIsSettled(chars, level, Binary(op, left, right), rightEnd, r.next);
    }
  }

  /** A phrase read at its own level leaves the reader where the level's next operator may come. */
  lemma {:induction false} ChainReads(p: Phrase, level: nat, chars: string, pos: nat, rest: string)
    requires level < UnaryLevel && PhraseAt(p, level, chars, pos, rest) && Ends(level + 1, rest)
    requires level != CmpLevel || !AtLevel(p, level)
    ensures |rest| <= |chars| && pos <= |chars| && Reads(chars, |chars| - |rest|, rest)
    ensures ExprAt(chars, level, pos) == RestAt(chars, level, Means(p), |chars| - |rest|)
    decreases p, 2 * (UnaryLevel - level)
  {
    hide *;
    LevelsAre();
    if AtLevel(p, level) {
      JoinedIs(p, level, chars, pos, rest);
      IsJoined(p, level);
      var tail := JoinedTail(p, rest);
      ChainReads(p.left, level, chars, pos, tail);
      RightReads(p, level, chars, rest);
    } else {
      Upwards(p, level, chars, pos, rest);
      PhraseReads(p, level + 1, chars, pos, rest);
      DownOneLevel(chars, level, pos, Means(p), |chars| - |rest|);
    }
  }

  lemma LevelsAre()
    ensures OrLevel == 0 && CmpLevel == 2 && AddLevel == 3 && UnaryLevel == 5
  {
  }

  lemma IsJoined(p: Phrase, level: nat)
    requires AtLevel(p, level)
    ensures p.Joined? && p.left < p && p.right < p
  {
  }

  lemma Upwards(p: Phrase, level: nat, chars: string, pos: nat, rest: string)
    requires level < UnaryLevel && PhraseAt(p, level, chars, pos, rest) && !AtLevel(p, level)
    ensures PhraseAt(p, level + 1, chars, pos, rest)
  {
    hide PhraseOk, PhraseThen, Reads, Fits;
    FitsUp(p, level);
  }

  /** From the operator on. */
  lemma {:induction false} RightReads(p: Phrase, level: nat, chars: string, rest: string)
    requires level < UnaryLevel && AtLevel(p, level) && White(p.g1) && White(p.g2) && Ends(level + 1, rest)
    requires Fits(p.right, level + 1) && PhraseOk(p.right, rest)
    requires Means(p) == Binary(p.op, Means(p.left), Means(p.right))
    requires var tail := JoinedTail(p, rest); |tail| <= |chars| && Reads(chars, |chars| - |tail|, tail)
    ensures |rest| <= |chars| && Reads(chars, |chars| - |rest|, rest)
    ensures var r := RestAt(chars, level, Means(p.left), |chars| - |JoinedTail(p, rest)|);
            if level == CmpLevel then ReadsAs(r, Means(p), chars, |chars| - |rest|)
            else r == RestAt(chars, level, Means(p), |chars| - |rest|)
    decreases p, 0
  {
    hide *;
    IsJoined(p, level);
    LevelsAre();
    var end := |chars| - |JoinedTail(p, rest)|;
    TailIs(p, level, rest);
    RightIsThere(chars, end, p.op, p.g1, p.g2, p.right, rest);
    var start := SkipWs(chars, SkipWs(chars, end) + |OpText(p.op)|);
    PhraseIsAt(p.right, level + 1, chars, start, rest);
    PhraseReads(p.right, level + 1, chars, start, rest);
    JoinGoesOn(chars, level, Means(p.left), end, p.op, Means(p.right), |chars| - |rest|);
  }

  lemma TailIs(p: Phrase, level: nat, rest: string)
    requires AtLevel(p, level)
    ensures LevelOf(p.op) == level && JoinedTail(p, rest) == p.g1 + (Sign(p.op) + (p.g2 + PhraseThen(p.right, rest)))
  {
    hide PhraseThen, Sign;
  }

  lemma PhraseIsAt(p: Phrase, level: nat, chars: string, pos: nat, rest: string)
    requires level <= UnaryLevel && Fits(p, level) && PhraseOk(p, rest) && Reads(chars, pos, PhraseThen(p, rest))
    ensures PhraseAt(p, level, chars, pos, rest)
  {
    hide Fits, PhraseOk, PhraseThen, Reads;
  }

  /** A phrase that stands where one of its level may is read as what it means. */
  lemma {:induction false} PhraseReads(p: Phrase, level: nat, chars: string, pos: nat, rest: string)
    requires PhraseAt(p, level, chars, pos, rest) && Ends(level, rest)
    ensures |rest| <= |chars| && pos <= |chars| && level <= UnaryLevel && Reads(chars, |chars| - |rest|, rest)
    ensures ReadsAs(ExprAt(chars, level, pos), Means(p), chars, |chars| - |rest|)
    decreases p, 2 * (UnaryLevel - level) + 1
  {
    hide *;
    LevelsAre();
    IsWithin(p, level, chars, pos, rest);
    if level == UnaryLevel {
      OperandReads(p, chars, pos, rest);
    } else {
      EndsHigher(level, level + 1, rest);
      if level == CmpLevel && AtLevel(p, level) {
        JoinedIs(p, level, chars, pos, rest);
        IsJoined(p, level);
        var tail := JoinedTail(p, rest);
        OpEndsSum(p, rest);
        PhraseReads(p.left, AddLevel, chars, pos, tail);
        DownOneLevel(chars, level, pos, Means(p.left), |chars| - |tail|);
        RightReads(p, level, chars, rest);
      } else {
        ChainReads(p, level, chars, pos, rest);
        NoOperatorThen(chars, |chars| - |rest|, rest, level, level);
        RestStops(chars, level, Means(p), |chars| - |rest|);
      }
    }
  }

  lemma OpEndsSum(p: Phrase, rest: string)
    requires Ends(CmpLevel + 1, rest)
    ensures Ends(AddLevel, rest)
  {
    hide Ends;
  }

  lemma IsWithin(p: Phrase, level: nat, chars: string, pos: nat, rest: string)
    requires PhraseAt(p, level, chars, pos, rest)
    ensures level <= UnaryLevel && pos <= |chars|
  {
  }

  /** A negation, brackets, or a phrase with neither. */
  lemma {:induction false} OperandReads(p: Phrase, chars: string, pos: nat, rest: string)
    requires PhraseAt(p, UnaryLevel, chars, pos, rest) && Ends(UnaryLevel, rest)
    ensures |rest| <= |chars| && pos <= |chars| && Reads(chars, |chars| - |rest|, rest)
    ensures ReadsAs(ExprAt(chars, UnaryLevel, pos), Means(p), chars, |chars| - |rest|)
    decreases p, 0
  {
    hide *;
    LevelsAre();
    OperandIs(p, chars, pos, rest);
    UnaryIs(chars, pos);
    if p.Negation? {
      var inner := PhraseThen(p.operand, rest);
      NextIs(chars, pos, '!', p.g1 + inner);
      PhraseStarts(p.operand, rest);
      WhiteRuns(chars, pos + 1, p.g1, inner);
      PhraseIsAt(p.operand, UnaryLevel, chars, pos + 1 + |p.g1|, rest);
      PhraseReads(p.operand, UnaryLevel, chars, pos + 1 + |p.g1|, rest);
      NegationIs(chars, pos, Means(p.operand), |chars| - |rest|);
    } else if p.Brackets? {
      var close := p.g2 + (")" + rest);
      var inner := PhraseThen(p.inner, close);
      NextIs(chars, pos, '(', p.g1 + inner);
      PhraseStarts(p.inner, close);
      WhiteRuns(chars, pos + 1, p.g1, inner);
      PhraseIsAt(p.inner, OrLevel, chars, pos + 1 + |p.g1|, close);
      BracketIsMark();
      MarkEnds(OrLevel, p.g2, ')', rest);
      PhraseReads(p.inner, OrLevel, chars, pos + 1 + |p.g1|, close);
      CloseReads(chars, pos, Means(p.inner), p.g2, rest);
    } else {
      AtomReads(p, chars, pos, rest);
      YieldsThat(AtomAt(chars, pos), Means(p), chars, rest);
    }
  }

  lemma BracketIsMark()
    ensures Mark(')')
  {
  }

  lemma YieldsThat(r: Reading<Expr>, e: Expr, chars: string, rest: string)
    requires Yields(r, e, chars, rest)
    ensures |rest| <= |chars| && ReadsAs(r, e, chars, |chars| - |rest|) && Reads(chars, |chars| - |rest|, rest)
  {
    hide ReadsAs, Reads;
  }

  lemma OperandIs(p: Phrase, chars: string, pos: nat, rest: string)
    requires PhraseAt(p, UnaryLevel, chars, pos, rest)
    ensures pos <= |chars| && SkipWs(chars, pos) == pos
    ensures p.Negation? ==>
      && Fits(p.operand, UnaryLevel) && PhraseOk(p.operand, rest) && White(p.g1)
      && Reads(chars, pos, ['!'] + (p.g1 + PhraseThen(p.operand, rest)))
      && Means(p) == Unary(Not, Means(p.operand))
    ensures p.Brackets? ==>
      && Fits(p.inner, OrLevel) && PhraseOk(p.inner, p.g2 + (")" + rest)) && White(p.g1) && White(p.g2)
      && Reads(chars, pos, ['('] + (p.g1 + PhraseThen(p.inner, p.g2 + (")" + rest)))) && Means(p) == Means(p.inner)
    ensures PhraseOk(p, rest) && Reads(chars, pos, PhraseThen(p, rest))
    ensures !p.Negation? && !p.Brackets? ==> Plainly(p) && UnaryAt(chars, pos) == AtomAt(chars, pos)
  {
    hide White, SkipWs, AtomAt, Apart, Name, Numeral, PiecesThen, Fits;
    FitsOperand(p);
    PhraseStarts(p, rest);
    NothingToSkip(chars, pos, PhraseThen(p, rest));
    if !p.Negation? && !p.Brackets? {
      PhraseBegins(p, rest);
      SeenChar(chars, pos, PhraseThen(p, rest), '!');
      SeenChar(chars, pos, PhraseThen(p, rest), '(');
    }
  }

  lemma CloseReads(chars: string, pos: nat, inner: Expr, gap: string, rest: string)
    requires At(chars, pos, '(') && White(gap)
    requires var close := gap + (")" + rest);
             && |close| <= |chars| && Reads(chars, |chars| - |close|, close)
             && ReadsAs(ExprAt(chars, OrLevel, SkipWs(chars, pos + 1)), inner, chars, |chars| - |close|)
    ensures |rest| <= |chars| && pos <= |chars| && Reads(chars, |chars| - |rest|, rest)
    ensures ReadsAs(UnaryAt(chars, pos), inner, chars, |chars| - |rest|)
  {
    hide ExprAt, SkipWs, AtomAt, White, Spells, Reads;
    var end := |chars| - |gap + (")" + rest)|;
    MarkIsNotWhite(')', rest);
    WhiteRuns(chars, end, gap, ")" + rest);
    NextIs(chars, end + |gap|, ')', rest);
    OneSpelled(chars, end + |gap|, ')');
    ExactlySettled(chars, |chars| - |rest|);
  }

  lemma OneSpelled(chars: string, pos: nat, c: char)
    ensures Spells(chars, pos, [c]) <==> At(chars, pos, c)
  {
    assert [c][1..] == "";
  }
}
