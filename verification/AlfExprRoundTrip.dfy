/** Printed expressions parse back to what they were printed from. */
module AlfExprRoundTrip {
  import opened SysmlModel
  import opened Scanning
  import opened ReadingBack
  import opened Decimals
  import opened AlfSyntax
  import opened AlfPrinter

  /** Reading stopped at `q`, which is `end` but for white space. */
  ghost predicate Settled(chars: string, end: nat, q: nat) {
    end <= q <= |chars| && SkipWs(chars, q) == SkipWs(chars, end)
  }

  lemma ExactlySettled(chars: string, end: nat)
    requires end <= |chars|
    ensures Settled(chars, end, end) && Settled(chars, end, SkipWs(chars, end))
  {
    SkipTwice(chars, end);
  }

  predicate Mark(c: char) { c == ')' || c == ',' || c == ';' }

  /** What may come after an expression of a level: a closing mark, or an operator of a lower level. */
  ghost predicate Follows(level: nat, rest: string) {
    || (rest != "" && Mark(rest[0]))
    || exists op, more :: LevelOf(op) < level && rest == OpAnd(op, more)
  }

  function OpAnd(op: BinaryOp, more: string): string {
    " " + (OpText(op) + (" " + more))
  }

  lemma FollowsHigher(level: nat, higher: nat, rest: string)
    requires level <= higher && Follows(level, rest)
    ensures Follows(higher, rest)
  {
  }

  lemma MarkFollows(level: nat, c: char, rest: string)
    requires Mark(c)
    ensures Follows(level, [c] + rest)
  {
  }

  lemma OpFollows(level: nat, op: BinaryOp, more: string)
    requires LevelOf(op) < level
    ensures Follows(level, OpAnd(op, more))
  {
  }

  lemma OpStarts(op: BinaryOp, more: string)
    ensures Apart(IsWhitespace, OpText(op) + (" " + more))
  {
  }

  /** Past the space stands the operator. */
  lemma OpIsThere(chars: string, end: nat, op: BinaryOp, more: string)
    requires Reads(chars, end, OpAnd(op, more))
    ensures SkipWs(chars, end) == end + 1 && Reads(chars, end + 1, OpText(op) + (" " + more))
  {
    hide OpText, IsWhitespace;
    OpStarts(op, more);
    SkipSpace(chars, end, OpText(op) + (" " + more));
  }

  lemma OneCharOp(chars: string, pos: nat, op: BinaryOp, more: string)
    requires Reads(chars, pos, OpText(op) + (" " + more)) && |OpText(op)| == 1
    ensures At(chars, pos, OpText(op)[0]) && At(chars, pos + 1, ' ')
  {
    var text := OpText(op) + (" " + more);
    assert chars[pos] == text[0] && chars[pos + 1] == text[1];
  }

  lemma TwoCharOp(chars: string, pos: nat, op: BinaryOp, more: string)
    requires Reads(chars, pos, OpText(op) + (" " + more)) && |OpText(op)| == 2
    ensures At(chars, pos, OpText(op)[0]) && At(chars, pos + 1, OpText(op)[1])
  {
    var text := OpText(op) + (" " + more);
    assert chars[pos] == text[0] && chars[pos + 1] == text[1];
  }

  /** An operator is read at its own level, and at no higher one. */
  lemma OpIsRead(chars: string, pos: nat, op: BinaryOp, more: string, level: nat)
    requires Reads(chars, pos, OpText(op) + (" " + more)) && LevelOf(op) <= level < UnaryLevel
    ensures OperatorAt(chars, level, pos) == if level == LevelOf(op) then Some(op) else None
  {
    hide Reads;
    if |OpText(op)| == 1 {
      OneCharOp(chars, pos, op, more);
    } else {
      TwoCharOp(chars, pos, op, more);
    }
  }

  lemma MarkIsThere(chars: string, end: nat, rest: string)
    requires Reads(chars, end, rest) && rest != "" && Mark(rest[0])
    ensures SkipWs(chars, end) == end && At(chars, end, rest[0])
  {
    NothingToSkip(chars, end, rest);
    assert chars[end..][0] == chars[end];
  }

  lemma NoOpAtMark(chars: string, end: nat, c: char, level: nat)
    requires At(chars, end, c) && Mark(c) && level < UnaryLevel
    ensures OperatorAt(chars, level, end) == None
  {
  }

  /** No operator of the level, or of a higher one, comes next. */
  lemma NoOperatorFollows(chars: string, end: nat, rest: string, level: nat, higher: nat)
    requires Reads(chars, end, rest) && Follows(level, rest) && level <= higher < UnaryLevel
    ensures end <= |chars| && OperatorAt(chars, higher, SkipWs(chars, end)) == None
  {
    hide Reads, SkipWs, OperatorAt, OpText, Mark;
    if rest != "" && Mark(rest[0]) {
      MarkIsThere(chars, end, rest);
      NoOpAtMark(chars, end, rest[0], higher);
    } else {
      var op, more :| LevelOf(op) < level && rest == OpAnd(op, more);
      OpIsThere(chars, end, op, more);
      OpIsRead(chars, end + 1, op, more, higher);
    }
    ReadsFits(chars, end, rest);
  }

  lemma ReadsFits(chars: string, pos: nat, s: string)
    requires Reads(chars, pos, s)
    ensures pos + |s| == |chars|
  {
  }

  // ----- Words -----

  /** What may come directly after a word or number. */
  predicate Breaks(rest: string) {
    rest != "" && (rest[0] == ' ' || Mark(rest[0]))
  }

  lemma FollowsBreaks(level: nat, rest: string)
    requires Follows(level, rest)
    ensures Breaks(rest)
  {
  }

  lemma BreaksWords(rest: string)
    requires Breaks(rest)
    ensures Apart(IdentContinue, rest) && Apart(IsDigit, rest)
  {
  }

  lemma IdentStartsContinue(c: char)
    requires IdentStart(c)
    ensures IdentContinue(c) && !IsDigit(c) && c != '"' && c != '!' && c != '(' && c != '}' && !IsWhitespace(c)
  {
  }

  lemma WordReadsBack(chars: string, pos: nat, word: string, rest: string)
    requires Ident(word) && Reads(chars, pos, word + rest) && Apart(IdentContinue, rest)
    ensures RawIdent(chars, pos) == Some(word) && Reads(chars, pos + |word|, rest)
    ensures pos < |chars| && chars[pos] == word[0]
  {
    hide IdentContinue, IdentStart;
    RunEndAfter(IdentContinue, chars, pos, word, rest);
    Step(chars, pos, word, rest);
    assert chars[pos..pos + |word|][0] == chars[pos];
  }

  lemma IdentReadsBack(chars: string, pos: nat, word: string, rest: string)
    requires Ident(word) && Reads(chars, pos, word + rest) && Apart(IdentContinue, rest)
    ensures IdentAt(chars, pos) == Ok(word, pos + |word|) && Reads(chars, pos + |word|, rest)
  {
    hide RawIdent, Reads;
    WordReadsBack(chars, pos, word, rest);
  }

  /** Neither a point nor a brace comes next, directly or after white space. */
  lemma NothingHangsOn(chars: string, end: nat, rest: string)
    requires Reads(chars, end, rest) && Follows(UnaryLevel, rest)
    ensures end <= |chars| && !At(chars, end, '.')
    ensures !At(chars, SkipWs(chars, end), '{') && !At(chars, SkipWs(chars, end), '.')
  {
    hide SkipWs;
    if rest != "" && Mark(rest[0]) {
      MarkIsThere(chars, end, rest);
    } else {
      var op, more :| LevelOf(op) < UnaryLevel && rest == OpAnd(op, more);
      OpIsThere(chars, end, op, more);
      assert chars[end] == rest[0];
      assert chars[end + 1] == rest[1];
    }
  }

  // ----- Literals -----

  lemma StringCharReadsBack(chars: string, start: nat, pos: nat, c: char, tail: string)
    requires start <= pos && Reads(chars, pos, EscapeChar(c) + tail)
    ensures Reads(chars, pos + |EscapeChar(c)|, tail)
    ensures StringTail(chars, start, pos) == Prepend([c], StringTail(chars, start, pos + |EscapeChar(c)|))
  {
    var text := EscapeChar(c);
    Step(chars, pos, text, tail);
    assert chars[pos..pos + |text|][0] == chars[pos];
    if |text| == 2 {
      assert chars[pos..pos + |text|][1] == chars[pos + 1];
    }
  }

  lemma StringEnds(chars: string, start: nat, pos: nat, rest: string)
    requires start <= pos && Reads(chars, pos, "\"" + rest)
    ensures StringTail(chars, start, pos) == Ok("", pos + 1) && Reads(chars, pos + 1, rest)
  {
    NextIs(chars, pos, '"', rest);
  }

  lemma {:induction false} StringReadsBack(chars: string, start: nat, pos: nat, s: string, rest: string)
    requires start <= pos && Reads(chars, pos, Escape(s) + ("\"" + rest))
    ensures StringTail(chars, start, pos) == Ok(s, pos + |Escape(s)| + 1)
    ensures Reads(chars, pos + |Escape(s)| + 1, rest)
    decreases |s|
  {
    hide StringTail, Reads, EscapeChar;
    if s == "" {
      assert Escape(s) + ("\"" + rest) == "\"" + rest;
      StringEnds(chars, start, pos, rest);
    } else {
      var first, others := EscapeChar(s[0]), Escape(s[1..]);
      Regroup(first, others, "\"" + rest);
      StringCharReadsBack(chars, start, pos, s[0], others + ("\"" + rest));
      StringReadsBack(chars, start, pos + |first|, s[1..], rest);
      assert s == [s[0]] + s[1..];
    }
  }

  lemma DigitsReadBack(chars: string, pos: nat, s: string, rest: string)
    requires s != "" && AllIn(IsDigit, s) && Reads(chars, pos, s + rest) && Apart(IsDigit, rest)
    ensures pos < |chars| && IsDigit(chars[pos]) && Reads(chars, pos + |s|, rest)
    ensures RunEnd(IsDigit, chars, pos) == pos + |s| && Digits(chars, pos) == s
  {
    hide IsDigit, RunEnd;
    RunEndAfter(IsDigit, chars, pos, s, rest);
    Step(chars, pos, s, rest);
    assert chars[pos..pos + |s|][0] == chars[pos];
  }

  lemma IntReadsBack(chars: string, pos: nat, n: nat, rest: string)
    requires n <= MaxInt && Reads(chars, pos, Decimal(n) + rest) && Follows(UnaryLevel, rest)
    ensures pos < |chars| && IsDigit(chars[pos])
    ensures NumberAt(chars, pos) == Ok(Lit(Int(n)), pos + |Decimal(n)|) && Reads(chars, pos + |Decimal(n)|, rest)
  {
    hide Decimal, Reads, RunEnd, Digits, Value, Follows;
    FollowsBreaks(UnaryLevel, rest);
    BreaksWords(rest);
    DigitsReadBack(chars, pos, Decimal(n), rest);
    NothingHangsOn(chars, pos + |Decimal(n)|, rest);
    DecimalReadsBack(n);
  }

  lemma RealReadsBack(chars: string, pos: nat, whole: nat, fraction: string, rest: string)
    requires fraction != "" && AllIn(IsDigit, fraction)
    requires Reads(chars, pos, Decimal(whole) + ("." + (fraction + rest))) && Follows(UnaryLevel, rest)
    ensures pos < |chars| && IsDigit(chars[pos])
    ensures var end := pos + |Decimal(whole)| + 1 + |fraction|;
            NumberAt(chars, pos) == Ok(Lit(Real(whole, fraction)), end) && Reads(chars, end, rest)
  {
    hide Decimal, Reads, RunEnd, Digits, Value, Follows;
    FollowsBreaks(UnaryLevel, rest);
    BreaksWords(rest);
    var tail := "." + (fraction + rest);
    DigitsReadBack(chars, pos, Decimal(whole), tail);
    NextIs(chars, pos + |Decimal(whole)|, '.', fraction + rest);
    DigitsReadBack(chars, pos + |Decimal(whole)| + 1, fraction, rest);
    DecimalReadsBack(whole);
  }

  // ----- Atoms -----

  /** Reading `e` from `pos` on succeeds, and stops at `end` but for white space. */
  ghost predicate ReadsAs(r: Reading<Expr>, e: Expr, chars: string, end: nat) {
    r.Ok? && r.value == e && Settled(chars, end, r.next)
  }

  lemma TruthIsIdent()
    ensures Ident("true") && Ident("false")
  {
  }

  lemma AfterWord(chars: string, start: nat, word: string, end: nat, rest: string)
    requires start < end && Reads(chars, end, rest) && Follows(UnaryLevel, rest)
    ensures end <= |chars|
    ensures ReadsAs(AfterIdent(chars, start, word, end),
                    if word == "true" then Lit(Bool(true)) else if word == "false" then Lit(Bool(false))
                      else Var(word), chars, end)
  {
    hide SkipWs, Reads, IdentAt;
    NothingHangsOn(chars, end, rest);
    ExactlySettled(chars, end);
  }

  lemma WordIsAtom(chars: string, pos: nat, word: string, rest: string)
    requires Ident(word) && Reads(chars, pos, word + rest) && Apart(IdentContinue, rest)
    ensures pos <= |chars| && pos + |word| <= |chars| && word != ""
    ensures AtomAt(chars, pos) == AfterIdent(chars, pos, word, pos + |word|) && Reads(chars, pos + |word|, rest)
  {
    hide Reads, AfterIdent, StringTail, NumberAt, RawIdent, IdentStart, IdentContinue, IsDigit, SkipWs;
    WordReadsBack(chars, pos, word, rest);
    IdentStartsContinue(word[0]);
  }

  lemma WordReadsAs(chars: string, pos: nat, word: string, rest: string)
    requires Ident(word) && Reads(chars, pos, word + rest) && Follows(UnaryLevel, rest)
    ensures pos <= |chars|
    ensures ReadsAs(AtomAt(chars, pos),
                    if word == "true" then Lit(Bool(true)) else if word == "false" then Lit(Bool(false))
                      else Var(word), chars, pos + |word|)
  {
    hide Reads, AtomAt, AfterIdent, Ident, Follows, ReadsAs;
    FollowsBreaks(UnaryLevel, rest);
    BreaksWords(rest);
    WordIsAtom(chars, pos, word, rest);
    AfterWord(chars, pos, word, pos + |word|, rest);
  }

  lemma AccessAfterWord(chars: string, start: nat, word: string, end: nat, feature: string, rest: string)
    requires start < end && Ident(feature) && !Truth(word) && Reads(chars, end, "." + (feature + rest)) && Breaks(rest)
    ensures end <= |chars|
    ensures AfterIdent(chars, start, word, end) == Ok(PropertyAccess(word, feature), end + 1 + |feature|)
    ensures Reads(chars, end + 1 + |feature|, rest)
  {
    hide SkipWs, Reads, IdentAt, Ident;
    BreaksWords(rest);
    PointIsNotWhite(feature + rest);
    NothingToSkip(chars, end, "." + (feature + rest));
    NextIs(chars, end, '.', feature + rest);
    IdentReadsBack(chars, end + 1, feature, rest);
  }

  lemma PointIsNotWhite(rest: string)
    ensures Apart(IsWhitespace, "." + rest) && Apart(IdentContinue, "." + rest)
  {
  }

  lemma AccessReadsAs(chars: string, pos: nat, target: string, feature: string, rest: string)
    requires Ident(target) && !Truth(target) && Ident(feature)
    requires Reads(chars, pos, target + ("." + (feature + rest))) && Follows(UnaryLevel, rest)
    ensures pos <= |chars|
    ensures ReadsAs(AtomAt(chars, pos), PropertyAccess(target, feature), chars, pos + |target| + 1 + |feature|)
  {
    hide Reads, AtomAt, AfterIdent, Ident, Follows, SkipWs, Truth;
    FollowsBreaks(UnaryLevel, rest);
    PointIsNotWhite(feature + rest);
    WordIsAtom(chars, pos, target, "." + (feature + rest));
    AccessAfterWord(chars, pos, target, pos + |target|, feature, rest);
    ReadsFits(chars, pos + |target| + 1 + |feature|, rest);
    ExactlySettled(chars, pos + |target| + 1 + |feature|);
  }

  lemma DigitIsAtom(chars: string, pos: nat)
    requires pos < |chars| && IsDigit(chars[pos])
    ensures AtomAt(chars, pos) == NumberAt(chars, pos)
  {
    hide NumberAt;
  }

  lemma NumberReadsAs(chars: string, pos: nat, l: Literal, rest: string)
    requires (l.Int? || l.Real?) && Legal(Lit(l)) && Reads(chars, pos, LiteralText(l) + rest) &&
             Follows(UnaryLevel, rest)
    ensures pos <= |chars|
    ensures ReadsAs(AtomAt(chars, pos), Lit(l), chars, pos + |LiteralText(l)|)
  {
    hide Reads, AtomAt, Decimal, Follows, SkipWs, NumberAt;
    if l.Int? {
      IntReadsBack(chars, pos, l.n, rest);
    } else {
      Regroup(Decimal(l.whole), "." + l.fraction, rest);
      Regroup(".", l.fraction, rest);
      RealReadsBack(chars, pos, l.whole, l.fraction, rest);
    }
    DigitIsAtom(chars, pos);
    ReadsFits(chars, pos + |LiteralText(l)|, rest);
    ExactlySettled(chars, pos + |LiteralText(l)|);
  }

  lemma QuoteIsAtom(chars: string, pos: nat, s: string, next: nat)
    requires At(chars, pos, '"') && StringTail(chars, pos, pos + 1) == Ok(s, next)
    ensures AtomAt(chars, pos) == Ok(Lit(Str(s)), next)
  {
    hide StringTail;
  }

  lemma StringReadsAs(chars: string, pos: nat, s: string, rest: string)
    requires Reads(chars, pos, LiteralText(Str(s)) + rest)
    ensures pos <= |chars|
    ensures ReadsAs(AtomAt(chars, pos), Lit(Str(s)), chars, pos + |LiteralText(Str(s))|)
  {
    hide Reads, AtomAt, Escape, StringTail, SkipWs;
    Regroup("\"", Escape(s) + "\"", rest);
    Regroup(Escape(s), "\"", rest);
    NextIs(chars, pos, '"', Escape(s) + ("\"" + rest));
    StringReadsBack(chars, pos, pos + 1, s, rest);
    QuoteIsAtom(chars, pos, s, pos + |LiteralText(Str(s))|);
    ReadsFits(chars, pos + |LiteralText(Str(s))|, rest);
    ExactlySettled(chars, pos + |LiteralText(Str(s))|);
  }

  lemma AtomReadsAs(chars: string, pos: nat, e: Expr, rest: string)
    requires Precedence(e) == AtomLevel && Legal(e) && Reads(chars, pos, Bare(e) + rest) && Follows(UnaryLevel, rest)
    ensures pos <= |chars| && ReadsAs(AtomAt(chars, pos), e, chars, pos + |Bare(e)|)
  {
    hide Reads, AtomAt, Decimal, Escape, Follows, ReadsAs, Ident;
    match e {
      case Var(name) => WordReadsAs(chars, pos, name, rest);
      case PropertyAccess(target, feature) =>
        Regroup(target, "." + feature, rest);
        Regroup(".", feature, rest);
        AccessReadsAs(chars, pos, target, feature, rest);
      case Lit(Bool(b)) =>
        TruthIsIdent();
        WordReadsAs(chars, pos, if b then "true" else "false", rest);
      case Lit(Str(s)) => StringReadsAs(chars, pos, s, rest);
      case Lit(Int(n)) => NumberReadsAs(chars, pos, Int(n), rest);
      case Lit(Real(whole, fraction)) => NumberReadsAs(chars, pos, Real(whole, fraction), rest);
    }
  }

  // ----- How printed expressions begin -----

  /** A character an operand may begin with. */
  predicate Opens(c: char) {
    IdentStart(c) || IsDigit(c) || c == '"' || c == '(' || c == '!'
  }

  lemma OpensIsNotWhite(s: string)
    requires s != "" && Opens(s[0])
    ensures Apart(IsWhitespace, s)
  {
  }

  lemma {:induction false} PrintOpens(e: Expr, level: nat)
    requires Legal(e)
    ensures Print(e, level) != "" && Opens(Print(e, level)[0])
    decreases e, if Precedence(e) < level then 1 else 0
  {
    hide Decimal, Escape;
    if Precedence(e) >= level && e.Binary? {
      PrintOpens(e.left, LeftLevel(e.op));
    } else if Precedence(e) >= level && e.Lit? {
      LiteralOpens(e.literal);
    }
  }

  lemma LiteralOpens(l: Literal)
    ensures LiteralText(l) != "" && Opens(LiteralText(l)[0])
  {
    hide Escape;
    match l {
      case Int(n) => assert IsDigit(Decimal(n)[0]);
      case Real(whole, _) => assert IsDigit(Decimal(whole)[0]);
      case _ =>
    }
  }

  lemma PrintedStartsRight(e: Expr, level: nat, rest: string)
    requires Legal(e)
    ensures Apart(IsWhitespace, Print(e, level) + rest)
  {
    hide Print, Opens;
    PrintOpens(e, level);
    OpensIsNotWhite(Print(e, level) + rest);
  }

  // ----- Expressions -----

  lemma RestIsSettled(chars: string, level: nat, left: Expr, end: nat, q: nat)
    requires Settled(chars, end, q) && level < UnaryLevel
    ensures end <= |chars| && RestAt(chars, level, left, q) == RestAt(chars, level, left, end)
  {
    hide SkipWs, OperatorAt, ExprAt;
  }

  lemma RestStops(chars: string, level: nat, left: Expr, end: nat)
    requires level < UnaryLevel && end <= |chars| && OperatorAt(chars, level, SkipWs(chars, end)) == None
    ensures ReadsAs(RestAt(chars, level, left, end), left, chars, end)
  {
    hide SkipWs, OperatorAt, ExprAt;
    ExactlySettled(chars, end);
  }

  lemma RestGoesOn(chars: string, level: nat, left: Expr, end: nat, op: BinaryOp, right: Expr, rightEnd: nat)
    requires level < UnaryLevel && end <= |chars| && end + 2 + |OpText(op)| <= |chars|
    requires SkipWs(chars, end) == end + 1 && OperatorAt(chars, level, end + 1) == Some(op)
    requires SkipWs(chars, end + 1 + |OpText(op)|) == end + 2 + |OpText(op)|
    requires ReadsAs(ExprAt(chars, level + 1, end + 2 + |OpText(op)|), right, chars, rightEnd)
    ensures if level == CmpLevel then ReadsAs(RestAt(chars, level, left, end), Binary(op, left, right), chars, rightEnd)
            else RestAt(chars, level, left, end) == RestAt(chars, level, Binary(op, left, right), rightEnd)
  {
    hide SkipWs, OperatorAt, ExprAt, OpText, Settled;
    var r := ExprAt(chars, level + 1, end + 2 + |OpText(op)|);
    if level != CmpLevel {
      RestIsSettled(chars, level, Binary(op, left, right), rightEnd, r.next);
    }
  }

  lemma DownOneLevel(chars: string, level: nat, pos: nat, left: Expr, end: nat)
    requires level < UnaryLevel && pos <= |chars| && ReadsAs(ExprAt(chars, level + 1, pos), left, chars, end)
    ensures end <= |chars| && ExprAt(chars, level, pos) == RestAt(chars, level, left, end)
  {
    hide RestAt, Settled, UnaryAt, SkipWs;
    RestIsSettled(chars, level, left, end, ExprAt(chars, level + 1, pos).next);
    SettledFits(chars, end, ExprAt(chars, level + 1, pos).next);
  }

  lemma SettledFits(chars: string, end: nat, q: nat)
    requires Settled(chars, end, q)
    ensures end <= |chars|
  {
  }

  lemma BinaryText(op: BinaryOp, left: Expr, right: Expr, rest: string)
    ensures Bare(Binary(op, left, right)) + rest
         == Print(left, LeftLevel(op)) + OpAnd(op, Print(right, LevelOf(op) + 1) + rest)
    ensures |Bare(Binary(op, left, right))| ==
            |Print(left, LeftLevel(op))| + 2 + |OpText(op)| + |Print(right, LevelOf(op) + 1)|
  {
    hide Print, OpText;
    var l, r := Print(left, LeftLevel(op)), Print(right, LevelOf(op) + 1);
    assert Bare(Binary(op, left, right)) == l + (" " + (OpText(op) + (" " + r)));
    Regroup(l, " " + (OpText(op) + (" " + r)), rest);
    Regroup(" ", OpText(op) + (" " + r), rest);
    Regroup(OpText(op), " " + r, rest);
    Regroup(" ", r, rest);
  }

  /** After a left operand the operator and the right operand are read. */
  lemma RightOperandIsThere(chars: string, end: nat, op: BinaryOp, right: Expr, rest: string)
    requires Legal(right) && Reads(chars, end, OpAnd(op, Print(right, LevelOf(op) + 1) + rest))
    ensures SkipWs(chars, end) == end + 1 && OperatorAt(chars, LevelOf(op), end + 1) == Some(op)
    ensures end + 1 + |OpText(op)| <= |chars| && SkipWs(chars, end + 1 + |OpText(op)|) == end + 2 + |OpText(op)|
    ensures Reads(chars, end + 2 + |OpText(op)|, Print(right, LevelOf(op) + 1) + rest)
  {
    hide SkipWs, Reads, OpText, OperatorAt, Print, IsWhitespace, OpAnd;
    var more := Print(right, LevelOf(op) + 1) + rest;
    OpIsThere(chars, end, op, more);
    OpIsRead(chars, end + 1, op, more, LevelOf(op));
    Step(chars, end + 1, OpText(op), " " + more);
    ReadsFits(chars, end + 1 + |OpText(op)|, " " + more);
    PrintedStartsRight(right, LevelOf(op) + 1, rest);
    SkipSpace(chars, end + 1 + |OpText(op)|, more);
  }

  lemma PrintedUp(e: Expr, level: nat)
    requires Precedence(e) != level
    ensures Print(e, level) == Print(e, level + 1)
  {
  }

  ghost function Rank(e: Expr, level: nat, whole: bool): nat
    requires level <= UnaryLevel
  {
    (if Precedence(e) < level then 20 else 0) + 2 * (UnaryLevel - level) + if whole then 1 else 0
  }

  /** An expression read at its own level leaves the reader where the level's next operator may come. */
  lemma {:induction false} ChainReadsBack(e: Expr, level: nat, chars: string, pos: nat, rest: string)
    requires level < UnaryLevel && Legal(e) && Reads(chars, pos, Print(e, level) + rest) && Follows(level + 1, rest)
    requires level != CmpLevel || Precedence(e) != level
    ensures pos + |Print(e, level)| <= |chars|
    ensures ExprAt(chars, level, pos) == RestAt(chars, level, e, pos + |Print(e, level)|)
    decreases e, Rank(e, level, false)
  {
    hide *;
    ChainFits(e, level, chars, pos, rest);
    if Precedence(e) == level {
      ChainShape(e, level);
      var op, left, right := e.op, e.left, e.right;
      BinaryText(op, left, right, rest);
      var tail := OpAnd(op, Print(right, level + 1) + rest);
      OpFollows(level + 1, op, Print(right, level + 1) + rest);
      ChainReadsBack(left, level, chars, pos, tail);
      var end := pos + |Print(left, level)|;
      Step(chars, pos, Print(left, level), tail);
      RightOperandIsThere(chars, end, op, right, rest);
      ExprReadsBack(right, level + 1, chars, end + 2 + |OpText(op)|, rest);
      RestGoesOn(chars, level, left, end, op, right, pos + |Print(e, level)|);
    } else {
      PrintedUp(e, level);
      RankFalls(e, level);
      ExprReadsBack(e, level + 1, chars, pos, rest);
      DownOneLevel(chars, level, pos, e, pos + |Print(e, level)|);
    }
  }

  lemma RankFalls(e: Expr, level: nat)
    requires level < UnaryLevel
    ensures 0 <= Rank(e, level, false) < Rank(e, level, true)
    ensures Precedence(e) != level ==> Rank(e, level + 1, true) < Rank(e, level, false)
  {
  }

  lemma ChainFits(e: Expr, level: nat, chars: string, pos: nat, rest: string)
    requires Reads(chars, pos, Print(e, level) + rest)
    ensures pos + |Print(e, level)| <= |chars|
  {
    hide Print;
  }

  lemma LevelsRise()
    ensures OrLevel < CmpLevel < AddLevel < UnaryLevel && AddLevel == CmpLevel + 1
  {
  }

  lemma ChainShape(e: Expr, level: nat)
    requires Precedence(e) == level < UnaryLevel && Legal(e)
    ensures e.Binary? && LevelOf(e.op) == level && Print(e, level) == Bare(e) && Legal(e.left) && Legal(e.right)
    ensures LeftLevel(e.op) == if level == CmpLevel then AddLevel else level
  {
  }

  /** A printed expression, read where one of its level may stand, gives itself back. */
  lemma {:induction false} ExprReadsBack(e: Expr, level: nat, chars: string, pos: nat, rest: string)
    requires level <= UnaryLevel && Legal(e) && Reads(chars, pos, Print(e, level) + rest) && Follows(level, rest)
    ensures pos <= |chars| && ReadsAs(ExprAt(chars, level, pos), e, chars, pos + |Print(e, level)|)
    decreases e, Rank(e, level, true)
  {
    hide *;
    ChainFits(e, level, chars, pos, rest);
    var end := pos + |Print(e, level)|;
    if level == UnaryLevel {
      OperandReadsBack(e, chars, pos, rest);
    } else if level == CmpLevel && Precedence(e) == level {
      RankFalls(e, level);
      ComparisonReadsBack(e, chars, pos, rest);
    } else {
      FollowsHigher(level, level + 1, rest);
      RankFalls(e, level);
      ChainReadsBack(e, level, chars, pos, rest);
      Step(chars, pos, Print(e, level), rest);
      NoOperatorFollows(chars, end, rest, level, level);
      RestStops(chars, level, e, end);
    }
  }

  /** A comparison is read whole, operands of the next level on both sides. */
  lemma {:induction false} ComparisonReadsBack(e: Expr, chars: string, pos: nat, rest: string)
    requires Precedence(e) == CmpLevel && Legal(e) && Reads(chars, pos, Print(e, CmpLevel) + rest) &&
             Follows(CmpLevel, rest)
    ensures pos <= |chars| && ReadsAs(ExprAt(chars, CmpLevel, pos), e, chars, pos + |Print(e, CmpLevel)|)
    decreases e, 0
  {
    hide *;
    LevelsRise();
    ChainFits(e, CmpLevel, chars, pos, rest);
    ChainShape(e, CmpLevel);
    var op, left, right := e.op, e.left, e.right;
    BinaryText(op, left, right, rest);
    var tail := OpAnd(op, Print(right, AddLevel) + rest);
    OpFollows(AddLevel, op, Print(right, AddLevel) + rest);
    FollowsHigher(CmpLevel, AddLevel, rest);
    ExprReadsBack(left, AddLevel, chars, pos, tail);
    var end := pos + |Print(left, AddLevel)|;
    DownOneLevel(chars, CmpLevel, pos, left, end);
    Step(chars, pos, Print(left, AddLevel), tail);
    RightOperandIsThere(chars, end, op, right, rest);
    ExprReadsBack(right, AddLevel, chars, end + 2 + |OpText(op)|, rest);
    RestGoesOn(chars, CmpLevel, left, end, op, right, pos + |Print(e, CmpLevel)|);
  }

  lemma UnaryIs(chars: string, pos: nat)
    requires pos <= |chars|
    ensures ExprAt(chars, UnaryLevel, pos) == UnaryAt(chars, SkipWs(chars, pos))
  {
    hide UnaryAt, SkipWs;
  }

  lemma NegationIs(chars: string, pos: nat, operand: Expr, end: nat)
    requires At(chars, pos, '!') && ReadsAs(ExprAt(chars, UnaryLevel, SkipWs(chars, pos + 1)), operand, chars, end)
    ensures ReadsAs(UnaryAt(chars, pos), Unary(Not, operand), chars, end)
  {
    hide ExprAt, SkipWs, AtomAt;
  }

  lemma BracketIs(chars: string, pos: nat, inner: Expr, end: nat)
    requires At(chars, pos, '(') && ReadsAs(ExprAt(chars, OrLevel, SkipWs(chars, pos + 1)), inner, chars, end)
    requires SkipWs(chars, end) == end && At(chars, end, ')')
    ensures ReadsAs(UnaryAt(chars, pos), inner, chars, end + 1)
  {
    hide ExprAt, SkipWs, AtomAt;
    assert [')'][1..] == "";
    ExactlySettled(chars, end + 1);
  }

  lemma AtomIs(chars: string, pos: nat)
    requires pos < |chars| && Opens(chars[pos]) && chars[pos] != '!' && chars[pos] != '('
    ensures UnaryAt(chars, pos) == AtomAt(chars, pos)
  {
    hide AtomAt;
  }

  lemma OperandShape(e: Expr)
    requires Legal(e)
    ensures Precedence(e) < UnaryLevel ==> Print(e, UnaryLevel) == "(" + (Bare(e) + ")") && Print(e, OrLevel) == Bare(e)
    ensures Precedence(e) == UnaryLevel ==>
      e.Unary? && e == Unary(Not, e.operand) && Legal(e.operand) &&
        Print(e, UnaryLevel) == "!" + Print(e.operand, UnaryLevel)
    ensures Precedence(e) > UnaryLevel ==> Precedence(e) == AtomLevel && Print(e, UnaryLevel) == Bare(e)
    ensures Precedence(e) < UnaryLevel ==> Rank(e, OrLevel, true) < Rank(e, UnaryLevel, true)
  {
    hide Bare;
    assert e.Unary? ==> Bare(e) == "!" + Print(e.operand, UnaryLevel) by { UnaryText(e); }
  }

  lemma UnaryText(e: Expr)
    ensures e.Unary? ==> Bare(e) == "!" + Print(e.operand, UnaryLevel)
  {
    hide Print;
  }

  lemma AtomStarts(chars: string, pos: nat, e: Expr, rest: string)
    requires Precedence(e) == AtomLevel && Legal(e) && Reads(chars, pos, Bare(e) + rest)
    ensures pos < |chars| && Opens(chars[pos]) && chars[pos] != '!' && chars[pos] != '('
  {
    hide Decimal, Escape;
    assert Bare(e) != "" && Opens(Bare(e)[0]) && Bare(e)[0] != '!' && Bare(e)[0] != '(' by {
      AtomTextStarts(e);
    }
    assert chars[pos] == (Bare(e) + rest)[0];
  }

  lemma AtomTextStarts(e: Expr)
    requires Precedence(e) == AtomLevel && Legal(e)
    ensures Bare(e) != "" && Opens(Bare(e)[0]) && Bare(e)[0] != '!' && Bare(e)[0] != '('
  {
    hide Escape;
    match e {
      case Lit(Int(n)) => assert IsDigit(Decimal(n)[0]);
      case Lit(Real(whole, _)) => assert IsDigit(Decimal(whole)[0]);
      case Var(name) => IdentStartsContinue(name[0]);
      case PropertyAccess(target, _) => IdentStartsContinue(target[0]);
      case _ =>
    }
  }

  /** Where an operand stands: a bracketed expression, a negation or an atom. */
  lemma {:induction false} OperandReadsBack(e: Expr, chars: string, pos: nat, rest: string)
    requires Legal(e) && Reads(chars, pos, Print(e, UnaryLevel) + rest) && Follows(UnaryLevel, rest)
    ensures pos <= |chars| && ReadsAs(ExprAt(chars, UnaryLevel, pos), e, chars, pos + |Print(e, UnaryLevel)|)
    decreases e, Rank(e, UnaryLevel, true), 0
  {
    hide *;
    LevelsRise();
    ChainFits(e, UnaryLevel, chars, pos, rest);
    PrintedStartsRight(e, UnaryLevel, rest);
    NothingToSkip(chars, pos, Print(e, UnaryLevel) + rest);
    UnaryIs(chars, pos);
    OperandShape(e);
    if Precedence(e) < UnaryLevel {
      Regroup("(", Bare(e) + ")", rest);
      Regroup(Bare(e), ")", rest);
      NextIs(chars, pos, '(', Bare(e) + (")" + rest));
      MarkFollowsBracket(rest);
      PrintedStartsRight(e, OrLevel, ")" + rest);
      NothingToSkip(chars, pos + 1, Bare(e) + (")" + rest));
      ExprReadsBack(e, OrLevel, chars, pos + 1, ")" + rest);
      var end := pos + 1 + |Bare(e)|;
      Step(chars, pos + 1, Bare(e), ")" + rest);
      BracketCloses(chars, end, rest);
      BracketIs(chars, pos, e, end);
    } else if Precedence(e) == UnaryLevel {
      Regroup("!", Print(e.operand, UnaryLevel), rest);
      NextIs(chars, pos, '!', Print(e.operand, UnaryLevel) + rest);
      PrintedStartsRight(e.operand, UnaryLevel, rest);
      NothingToSkip(chars, pos + 1, Print(e.operand, UnaryLevel) + rest);
      ExprReadsBack(e.operand, UnaryLevel, chars, pos + 1, rest);
      NegationIs(chars, pos, e.operand, pos + |Print(e, UnaryLevel)|);
    } else {
      AtomStarts(chars, pos, e, rest);
      AtomIs(chars, pos);
      AtomReadsAs(chars, pos, e, rest);
    }
  }

  lemma MarkFollowsBracket(rest: string)
    ensures Follows(OrLevel, ")" + rest)
  {
  }

  lemma BracketCloses(chars: string, end: nat, rest: string)
    requires Reads(chars, end, ")" + rest)
    ensures end <= |chars| && SkipWs(chars, end) == end && At(chars, end, ')')
  {
    hide SkipWs;
    MarkIsThere(chars, end, ")" + rest);
  }

  // ----- No bracket is idle -----

  /** `part` is reached from `e` by going to left operands only. */
  predicate OnLeft(part: Expr, e: Expr) {
    e.Binary? && (part == e.left || OnLeft(part, e.left))
  }

  lemma {:induction false} LeftIsPart(part: Expr, e: Expr)
    requires OnLeft(part, e)
    ensures part != e
    decreases e
  {
    SmallerOnLeft(part, e);
  }

  function Size(e: Expr): nat {
    match e
    case Unary(_, operand) => 1 + Size(operand)
    case Binary(_, left, right) => 1 + Size(left) + Size(right)
    case _ => 1
  }

  lemma {:induction false} SmallerOnLeft(part: Expr, e: Expr)
    requires OnLeft(part, e)
    ensures Size(part) < Size(e)
    decreases e
  {
    if part != e.left {
      SmallerOnLeft(part, e.left);
    }
  }

  lemma LowShape(e: Expr, level: nat)
    requires Precedence(e) < level <= UnaryLevel && Legal(e)
    ensures e.Binary? && e == Binary(e.op, e.left, e.right) && Legal(e.left) && LevelOf(e.op) < level
    ensures Precedence(e.left) >= level || Precedence(e.left) < LeftLevel(e.op) ==>
      Print(e.left, LeftLevel(e.op)) == Print(e.left, level)
    ensures LeftLevel(e.op) <= Precedence(e.left) < level ==> Print(e.left, LeftLevel(e.op)) == Bare(e.left)
  {
  }

  /** Where the printer writes brackets, the same text without them reads as less: as an operand on the
      left of the expression that was to stand there. */
  lemma {:induction false} UnbracketedReadsAsPart(e: Expr, level: nat, chars: string, pos: nat, rest: string)
    requires Precedence(e) < level <= UnaryLevel && Legal(e) && Reads(chars, pos, Bare(e) + rest)
    ensures pos <= |chars|
    ensures var r := ExprAt(chars, level, pos); r.Ok? && OnLeft(r.value, e) && r.value != e
    decreases e
  {
    hide *;
    LowShape(e, level);
    var op, left := e.op, e.left;
    BinaryText(op, left, e.right, rest);
    var tail := OpAnd(op, Print(e.right, LevelOf(op) + 1) + rest);
    OpFollows(level, op, Print(e.right, LevelOf(op) + 1) + rest);
    if Precedence(left) >= level || Precedence(left) < LeftLevel(op) {
      ExprReadsBack(left, level, chars, pos, tail);
      ReadsThat(ExprAt(chars, level, pos), left, chars, pos + |Print(left, level)|);
    } else {
      UnbracketedReadsAsPart(left, level, chars, pos, tail);
    }
    OnLeftStep(ExprAt(chars, level, pos).value, e);
    LeftIsPart(ExprAt(chars, level, pos).value, e);
  }

  lemma ReadsThat(r: Reading<Expr>, e: Expr, chars: string, end: nat)
    requires ReadsAs(r, e, chars, end)
    ensures r.Ok? && r.value == e
  {
  }

  lemma OnLeftStep(part: Expr, e: Expr)
    requires e.Binary? && (part == e.left || OnLeft(part, e.left))
    ensures OnLeft(part, e)
  {
  }
}
