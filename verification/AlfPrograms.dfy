/** Statements and programs that are laid out well are read as what they are written for. */
module AlfPrograms {
  import opened SysmlModel
  import opened Scanning
  import opened ReadingBack
  import opened AlfSyntax
  import opened AlfPrinter
  import opened AlfExprRoundTrip
  import opened AlfRoundTrip
  import opened AlfLayout
  import opened AlfLaidOut

  // ----- Tokens -----

  lemma SignThere(chars: string, pos: nat, gap: string, c: char, rest: string)
    requires White(gap) && !IsWhitespace(c) && Reads(chars, pos, gap + ([c] + rest))
    ensures |rest| < |chars| && pos <= |chars| && Reads(chars, |chars| - |rest|, rest)
    ensures SkipWs(chars, pos) == |chars| - |rest| - 1 && At(chars, |chars| - |rest| - 1, c)
    ensures Reads(chars, |chars| - |rest| - 1, [c] + rest)
    ensures Expect(chars, pos, [c]) == Ok([c], |chars| - |rest|)
  {
    hide SkipWs, White, IsWhitespace, Spells;
    CharIsApart(c, rest);
    WhiteRuns(chars, pos, gap, [c] + rest);
    NextIs(chars, pos + |gap|, c, rest);
    ReadsLength(chars, pos + |gap| + 1, rest);
    OneSpelled(chars, pos + |gap|, c);
  }

  lemma CharIsApart(c: char, rest: string)
    requires !IsWhitespace(c)
    ensures Apart(IsWhitespace, [c] + rest)
  {
  }

  /** Reading on from where something ended, but for white space, is reading on from its end. */
  lemma SameToken(chars: string, end: nat, q: nat, token: string)
    requires Settled(chars, end, q) && token != ""
    ensures end <= |chars| && Expect(chars, q, token) == Expect(chars, end, token)
  {
    hide SkipWs, Spells;
  }

  lemma MarksAreNotWhite()
    ensures Mark(')') && Mark(';') && Mark(',')
    ensures !IsWhitespace(')') && !IsWhitespace(';') && !IsWhitespace(',') && !IsWhitespace('=') && !IsWhitespace('(')
    ensures !IsWhitespace('{') && !IsWhitespace('}')
  {
  }

  /** An expression, and then a mark. */
  lemma ExpressionReads(p: Phrase, chars: string, pos: nat, gap: string, c: char, rest: string)
    requires Mark(c) && White(gap) && ExpressionOk(p, gap + ([c] + rest))
    requires Reads(chars, pos, PhraseThen(p, gap + ([c] + rest)))
    ensures pos <= |chars| && SkipWs(chars, pos) == pos && |rest| < |chars| && Reads(chars, |chars| - |rest|, rest)
    ensures var r := ExprAt(chars, OrLevel, pos);
            && r.Ok? && r.value == Means(p) && Expect(chars, r.next, [c]) == Ok([c], |chars| - |rest|)
            && SkipWs(chars, r.next) == |chars| - |rest| - 1 && At(chars, |chars| - |rest| - 1, c)
  {
    hide ExprAt, SkipWs, White, PhraseThen, PhraseOk, Reads, Expect, IsWhitespace, Disjunction, Mark, Ends;
    var tail := gap + ([c] + rest);
    MarksAreNotWhite();
    MarkIsNoSpace(c);
    PhraseStarts(p, tail);
    NothingToSkip(chars, pos, PhraseThen(p, tail));
    MarkEnds(OrLevel, gap, c, rest);
    PhraseReads(p, OrLevel, chars, pos, tail);
    SignThere(chars, |chars| - |tail|, gap, c, rest);
    SameToken(chars, |chars| - |tail|, ExprAt(chars, OrLevel, pos).next, [c]);
  }

  lemma MarkIsNoSpace(c: char)
    requires Mark(c)
    ensures !IsWhitespace(c)
  {
  }

  lemma UpToReads(p: Phrase, chars: string, pos: nat, g1: string, g2: string, c: char, rest: string)
    requires Mark(c) && White(g1) && White(g2) && ExpressionOk(p, g2 + ([c] + rest))
    requires Reads(chars, pos, g1 + PhraseThen(p, g2 + ([c] + rest)))
    ensures pos <= |chars| && |rest| < |chars| && Reads(chars, |chars| - |rest|, rest)
    ensures ExprUpTo(chars, pos, [c]) == Ok(Means(p), |chars| - |rest|)
  {
    hide ExprAt, SkipWs, White, PhraseThen, PhraseOk, Reads, Expect, IsWhitespace, Disjunction, Mark;
    PhraseStarts(p, g2 + ([c] + rest));
    WhiteRuns(chars, pos, g1, PhraseThen(p, g2 + ([c] + rest)));
    ExpressionReads(p, chars, pos + |g1|, g2, c, rest);
    ReadsLength(chars, pos, g1 + PhraseThen(p, g2 + ([c] + rest)));
  }

  // ----- Names -----

  lemma NameReads(chars: string, pos: nat, gap: string, name: string, rest: string)
    requires White(gap) && Name(name) && Apart(WordPart, rest) && Reads(chars, pos, gap + (name + rest))
    ensures pos <= |chars| && |rest| < |chars| && Reads(chars, |chars| - |rest|, rest)
    ensures IdentAt(chars, SkipWs(chars, pos)) == Ok(name, |chars| - |rest|)
  {
    hide SkipWs, White, IdentAt, Ident, Name;
    NameIsIdent(name);
    ApartAlike(rest);
    IdentIsNotWhite(name, rest);
    WhiteRuns(chars, pos, gap, name + rest);
    IdentReadsBack(chars, pos + |gap|, name, rest);
    NameIsSome(name);
    ReadsLength(chars, pos + |gap| + |name|, rest);
  }

  lemma NameIsSome(name: string)
    requires Name(name)
    ensures name != ""
  {
  }

  /** White space and then a sign is not part of a word, nor a point. */
  lemma GapEndsWord(gap: string, c: char, rest: string)
    requires White(gap) && !WordPart(c)
    ensures Apart(WordPart, gap + ([c] + rest))
    ensures gap + ([c] + rest) != "" && ((gap + ([c] + rest))[0] == c || IsWhitespace((gap + ([c] + rest))[0]))
  {
    assert gap != "" ==> (gap + ([c] + rest))[0] == gap[0];
  }

  // ----- Settings and calls -----

  lemma SettingReads(s: Setting, chars: string, pos: nat, rest: string)
    requires SettingOk(s, rest) && Reads(chars, pos, SettingThen(s, rest))
    ensures pos <= |chars| && |rest| < |chars| && Reads(chars, |chars| - |rest|, rest)
    ensures var r := Expect(chars, pos, "=");
            r.Ok? && ExprUpTo(chars, r.next, ";") == Ok(Means(s.value), |chars| - |rest|)
  {
    hide White, PhraseThen, Reads, Expect, ExprUpTo, IsWhitespace, ExpressionOk;
    var tail := s.g1 + PhraseThen(s.value, s.g2 + (";" + rest));
    MarksAreNotWhite();
    SignThere(chars, pos, s.lead, '=', tail);
    UpToReads(s.value, chars, |chars| - |tail|, s.g1, s.g2, ';', rest);
  }

  lemma SettingEndsWord(s: Setting, rest: string)
    requires SettingOk(s, rest)
    ensures Apart(WordPart, SettingThen(s, rest))
  {
    hide White, PhraseThen, ExpressionOk;
    GapEndsWord(s.lead, '=', s.g1 + PhraseThen(s.value, s.g2 + (";" + rest)));
  }

  lemma SamePlace(chars: string, pos: nat)
    requires pos <= |chars|
    ensures ArgItems(chars, SkipWs(chars, pos)) == ArgItems(chars, pos)
  {
    hide ExprAt, SkipWs, Expect;
    SkipTwice(chars, pos);
  }

  lemma OneArg(chars: string, pos: nat, arg: Expr, q: nat, end: nat)
    requires pos <= |chars| && q <= |chars| && ExprAt(chars, OrLevel, SkipWs(chars, pos)) == Ok(arg, q)
    requires 0 < end <= |chars| && SkipWs(chars, q) == end - 1 && At(chars, end - 1, ')')
    requires Expect(chars, q, ")") == Ok(")", end)
    ensures ArgItems(chars, pos) == Ok([arg], end)
  {
    hide ExprAt, SkipWs, Spells;
    SkipTwice(chars, q);
  }

  lemma FurtherArgs(chars: string, pos: nat, arg: Expr, q: nat, end: nat)
    requires pos <= |chars| && q <= |chars| && ExprAt(chars, OrLevel, SkipWs(chars, pos)) == Ok(arg, q)
    requires 0 < end <= |chars| && SkipWs(chars, q) == end - 1 && At(chars, end - 1, ',')
    ensures ArgItems(chars, pos) == Cons(arg, ArgItems(chars, end))
  {
    hide ExprAt, SkipWs, Expect;
  }

  lemma {:induction false} ArgsRead(args: seq<Arg>, chars: string, pos: nat, rest: string)
    requires args != [] && ArgsOk(args, rest) && Reads(chars, pos, ArgsThen(args, rest))
    ensures pos <= |chars| && SkipWs(chars, pos) < |chars| && !At(chars, SkipWs(chars, pos), ')')
    ensures |rest| < |chars| && Reads(chars, |chars| - |rest|, rest)
    ensures ArgItems(chars, pos) == Ok(ArgsMean(args), |chars| - |rest|)
    decreases |args|
  {
    hide SkipWs, White, PhraseThen, ExpressionOk, Reads, IsWhitespace, ArgItems, Expect, Mark;
    var arg := args[0];
    MarksAreNotWhite();
    if |args| == 1 {
      ArgStarts(arg, chars, pos, arg.after + (")" + rest));
      ExpressionReads(arg.value, chars, pos + |arg.lead|, arg.after, ')', rest);
      OneArg(chars, pos, Means(arg.value), ExprAt(chars, OrLevel, pos + |arg.lead|).next, |chars| - |rest|);
      assert args[1..] == [] && ArgsMean(args[1..]) == [];
      assert [Means(arg.value)] + [] == [Means(arg.value)];
    } else {
      var more := ArgsThen(args[1..], rest);
      ArgStarts(arg, chars, pos, arg.after + ("," + more));
      ExpressionReads(arg.value, chars, pos + |arg.lead|, arg.after, ',', more);
      FurtherArgs(chars, pos, Means(arg.value), ExprAt(chars, OrLevel, pos + |arg.lead|).next, |chars| - |more|);
      ArgsRead(args[1..], chars, |chars| - |more|, rest);
    }
  }

  lemma ArgStarts(arg: Arg, chars: string, pos: nat, tail: string)
    requires White(arg.lead) && ExpressionOk(arg.value, tail)
    requires Reads(chars, pos, arg.lead + PhraseThen(arg.value, tail))
    ensures SkipWs(chars, pos) == pos + |arg.lead| && Reads(chars, pos + |arg.lead|, PhraseThen(arg.value, tail))
    ensures SkipWs(chars, pos) < |chars| && !At(chars, SkipWs(chars, pos), ')')
  {
    hide SkipWs, White, PhraseThen, PhraseOk;
    PhraseStarts(arg.value, tail);
    WhiteRuns(chars, pos, arg.lead, PhraseThen(arg.value, tail));
    SeenChar(chars, pos + |arg.lead|, PhraseThen(arg.value, tail), ')');
    ReadsLength(chars, pos + |arg.lead|, PhraseThen(arg.value, tail));
  }

  function InCall(c: Call, rest: string): string {
    var end := c.after + (";" + rest);
    if c.args == [] then c.empty + (")" + end) else ArgsThen(c.args, end)
  }

  lemma InCallReads(c: Call, chars: string, pos: nat, rest: string)
    requires CallOk(c, rest) && Reads(chars, pos, InCall(c, rest))
    ensures pos <= |chars| && |rest| < |chars| && Reads(chars, |chars| - |rest|, rest)
    ensures ArgsUpToSemicolon(chars, pos) == Ok(ArgsMean(c.args), |chars| - |rest|)
  {
    hide SkipWs, White, ArgsOk, ArgsThen, Reads, IsWhitespace, ArgItems, Expect;
    var end := c.after + (";" + rest);
    MarksAreNotWhite();
    if c.args == [] {
      SignThere(chars, pos, c.empty, ')', end);
    } else {
      ArgsRead(c.args, chars, pos, end);
      SamePlace(chars, pos);
    }
    SignThere(chars, |chars| - |end|, c.after, ';', rest);
  }

  /** Behind the name of a call. */
  lemma CallReads(c: Call, chars: string, pos: nat, rest: string)
    requires CallOk(c, rest) && Reads(chars, pos, CallThen(c, rest))
    ensures pos <= |chars| && |rest| < |chars| && Reads(chars, |chars| - |rest|, rest)
    ensures !At(chars, pos, '.') && SkipWs(chars, pos) < |chars| && At(chars, SkipWs(chars, pos), '(')
    ensures Expect(chars, pos, "(") == Ok("(", SkipWs(chars, pos) + 1)
    ensures ArgsUpToSemicolon(chars, SkipWs(chars, pos) + 1) == Ok(ArgsMean(c.args), |chars| - |rest|)
  {
    hide SkipWs, White, ArgsOk, ArgsThen, Reads, IsWhitespace, ArgsUpToSemicolon, Expect;
    MarksAreNotWhite();
    CallIs(c, rest);
    SignThere(chars, pos, c.lead, '(', InCall(c, rest));
    InCallReads(c, chars, |chars| - |InCall(c, rest)|, rest);
    GapEndsWord(c.lead, '(', InCall(c, rest));
    SeenChar(chars, pos, CallThen(c, rest), '.');
    PointIsNoGap();
  }

  lemma PointIsNoGap()
    ensures !IsWhitespace('.')
  {
  }

  lemma CallIs(c: Call, rest: string)
    ensures CallThen(c, rest) == c.lead + ("(" + InCall(c, rest))
  {
    hide ArgsThen;
  }

  lemma CallEndsWord(c: Call, rest: string)
    requires CallOk(c, rest)
    ensures Apart(WordPart, CallThen(c, rest))
  {
    hide ArgsThen, White, ArgsOk;
    CallIs(c, rest);
    GapEndsWord(c.lead, '(', InCall(c, rest));
  }

  // ----- Clauses without blocks -----

  ghost predicate Reaches(r: Reading<Stmt>, s: Stmt, chars: string, rest: string) {
    |rest| <= |chars| && ReadsAsStmt(r, s, chars, |chars| - |rest|) && Reads(chars, |chars| - |rest|, rest)
  }

  lemma ReachesExactly(r: Reading<Stmt>, s: Stmt, chars: string, rest: string)
    requires |rest| <= |chars| && r == Ok(s, |chars| - |rest|) && Reads(chars, |chars| - |rest|, rest)
    ensures Reaches(r, s, chars, rest)
  {
    ExactlySettled(chars, |chars| - |rest|);
  }

  lemma LetReads(g1: string, name: string, s: Setting, chars: string, pos: nat, rest: string)
    requires White(g1) && Name(name) && SettingOk(s, rest) && Reads(chars, pos, g1 + (name + SettingThen(s, rest)))
    ensures pos <= |chars| && |rest| < |chars| && Reads(chars, |chars| - |rest|, rest)
    ensures LetTail(chars, pos) == Ok(Let(name, Means(s.value)), |chars| - |rest|)
  {
    hide SkipWs, White, Name, SettingOk, SettingThen, Reads, IdentAt, Expect, ExprUpTo;
    SettingEndsWord(s, rest);
    NameReads(chars, pos, g1, name, SettingThen(s, rest));
    SettingReads(s, chars, |chars| - |SettingThen(s, rest)|, rest);
  }

  lemma SendReads(g1: string, name: string, c: Call, chars: string, pos: nat, rest: string)
    requires White(g1) && Name(name) && CallOk(c, rest) && Reads(chars, pos, g1 + (name + CallThen(c, rest)))
    ensures pos <= |chars| && |rest| < |chars| && Reads(chars, |chars| - |rest|, rest)
    ensures SendTail(chars, pos) == Ok(SendSignal(name, ArgsMean(c.args)), |chars| - |rest|)
  {
    hide SkipWs, White, Name, CallOk, CallThen, Reads, IdentAt, Expect, ArgsUpToSemicolon;
    CallEndsWord(c, rest);
    NameReads(chars, pos, g1, name, CallThen(c, rest));
    CallReads(c, chars, |chars| - |CallThen(c, rest)|, rest);
  }

  lemma AssignReads(word: string, feature: string, s: Setting, chars: string, start: nat, pos: nat, rest: string)
    requires start <= pos && Name(feature) && SettingOk(s, rest)
    requires Reads(chars, pos, "." + (feature + SettingThen(s, rest)))
    ensures pos <= |chars| && |rest| < |chars| && Reads(chars, |chars| - |rest|, rest)
    ensures NamedTail(chars, start, word, pos) == Ok(Assign(word, feature, Means(s.value)), |chars| - |rest|)
  {
    hide SkipWs, Name, SettingOk, SettingThen, Reads, IdentAt, Expect, ExprUpTo, ArgsUpToSemicolon;
    SettingEndsWord(s, rest);
    NextIs(chars, pos, '.', feature + SettingThen(s, rest));
    assert "" + (feature + SettingThen(s, rest)) == feature + SettingThen(s, rest);
    WordHere(chars, pos + 1, feature, SettingThen(s, rest));
    SettingReads(s, chars, |chars| - |SettingThen(s, rest)|, rest);
  }

  lemma WordHere(chars: string, pos: nat, name: string, rest: string)
    requires Name(name) && Apart(WordPart, rest) && Reads(chars, pos, name + rest)
    ensures pos <= |chars| && |rest| < |chars| && Reads(chars, |chars| - |rest|, rest)
    ensures IdentAt(chars, pos) == Ok(name, |chars| - |rest|)
  {
    hide IdentAt, Ident, Name;
    NameIsIdent(name);
    ApartAlike(rest);
    NameIsSome(name);
    IdentReadsBack(chars, pos, name, rest);
    ReadsLength(chars, pos + |name|, rest);
  }

  lemma InvokeReads(word: string, c: Call, chars: string, start: nat, pos: nat, rest: string)
    requires start <= pos && CallOk(c, rest) && Reads(chars, pos, CallThen(c, rest))
    ensures pos <= |chars| && |rest| < |chars| && Reads(chars, |chars| - |rest|, rest)
    ensures NamedTail(chars, start, word, pos) == Ok(Invoke(word, ArgsMean(c.args)), |chars| - |rest|)
  {
    hide SkipWs, CallOk, CallThen, Reads, IdentAt, Expect, ExprUpTo, ArgsUpToSemicolon;
    CallReads(c, chars, pos, rest);
  }

  /** A clause's first word, and the rest of it. */
  lemma WordLeads(word: string, chars: string, pos: nat, tail: string)
    requires Name(word) && Apart(WordPart, tail) && Reads(chars, pos, word + tail)
    ensures LedBy(chars, pos, word) && pos + |word| <= |chars| && Reads(chars, pos + |word|, tail)
  {
    hide Name, Ident, Reads;
    NameIsIdent(word);
    ApartAlike(tail);
    LeaderReadsBack(word, chars, pos, tail);
  }

  lemma WordsAreNames()
    ensures Name("let") && Name("send") && Name("if")
  {
  }

  lemma ReservedIsKeyword(s: string)
    ensures Reserved(s) <==> Keyword(s)
  {
  }

  lemma GapOfSome(gap: string, rest: string)
    requires White(gap) && gap != ""
    ensures Apart(WordPart, gap + rest)
  {
    assert (gap + rest)[0] == gap[0];
  }

  lemma PlainClauseReads(c: Clause, chars: string, pos: nat, rest: string)
    requires !c.IfClause? && ClauseOk(c, rest) && Reads(chars, pos, ClauseThen(c, rest))
    ensures pos <= |chars| && Reaches(StatementAt(chars, pos), ClauseMeans(c), chars, rest)
  {
    hide SkipWs, White, Name, SettingOk, SettingThen, CallOk, CallThen, Reads, LetTail, SendTail, NamedTail,
         StatementAt, LedBy, Reaches, WordPart, Reserved, Keyword;
    WordsAreNames();
    match c {
      case LetClause(g1, name, setting) =>
        var tail := g1 + (name + SettingThen(setting, rest));
        GapOfSome(g1, name + SettingThen(setting, rest));
        WordLeads("let", chars, pos, tail);
        LetReads(g1, name, setting, chars, pos + 3, rest);
        LetIs(chars, pos);
        ReachesExactly(StatementAt(chars, pos), ClauseMeans(c), chars, rest);
      case SendClause(g1, name, call) =>
        var tail := g1 + (name + CallThen(call, rest));
        GapOfSome(g1, name + CallThen(call, rest));
        WordLeads("send", chars, pos, tail);
        SendReads(g1, name, call, chars, pos + 4, rest);
        SendIs(chars, pos);
        ReachesExactly(StatementAt(chars, pos), ClauseMeans(c), chars, rest);
      case AssignClause(target, feature, setting) =>
        var tail := "." + (feature + SettingThen(setting, rest));
        PointEndsWord(feature + SettingThen(setting, rest));
        ReservedIsKeyword(target);
        WordLeads(target, chars, pos, tail);
        AssignReads(target, feature, setting, chars, pos, pos + |target|, rest);
        NamedIs(chars, pos, target);
        ReachesExactly(StatementAt(chars, pos), ClauseMeans(c), chars, rest);
      case InvokeClause(name, call) =>
        CallEndsWord(call, rest);
        ReservedIsKeyword(name);
        WordLeads(name, chars, pos, CallThen(call, rest));
        InvokeReads(name, call, chars, pos, pos + |name|, rest);
        NamedIs(chars, pos, name);
        ReachesExactly(StatementAt(chars, pos), ClauseMeans(c), chars, rest);
    }
  }

  lemma PointEndsWord(s: string)
    ensures Apart(WordPart, "." + s)
  {
  }

  // ----- Conditionals and blocks -----

  lemma ElseIsThere(chars: string, pos: nat, s: string)
    requires Reads(chars, pos, s)
    ensures KeywordAt(chars, pos, "else") <==> ElseComes(s)
  {
    SpelledReads(chars, pos, "else");
    ReadsLength(chars, pos, s);
    if |s| >= 4 {
      assert chars[pos..pos + 4] == s[..4];
      assert |s| > 4 ==> chars[pos..][4] == chars[pos + 4] && s[4..][0] == s[4];
    }
  }

  lemma ClauseStarts(c: Clause, rest: string)
    requires ClauseOk(c, rest)
    ensures ClauseThen(c, rest) != "" && WordStart(ClauseThen(c, rest)[0])
  {
    hide SettingOk, SettingThen, CallOk, CallThen, PhraseThen, PhraseOk, BodyThen, BodyOk, OtherwiseOk, OtherwiseThen,
         ExpressionOk, White, ClosedThen;
  }

  lemma WordStartIsNoSpace(s: string)
    requires s != "" && WordStart(s[0])
    ensures Apart(IsWhitespace, s) && s[0] != '}'
  {
  }

  /** A condition in its brackets, up to the brace of the block behind it. */
  lemma ConditionReads(c: Clause, chars: string, pos: nat, block: string)
    requires c.IfClause? && White(c.g1) && White(c.g2) && White(c.g3) && White(c.g4)
    requires ExpressionOk(c.condition, ClosedThen(c.g3, c.g4, block))
    requires Reads(chars, pos, c.g1 + ("(" + (c.g2 + PhraseThen(c.condition, ClosedThen(c.g3, c.g4, block)))))
    ensures pos <= |chars| && |block| < |chars| && Reads(chars, |chars| - |block|, block)
    ensures var r := ConditionAt(chars, pos);
            && r.Ok? && r.value == Means(c.condition)
            && Expect(chars, r.next, "{") == Ok("{", |chars| - |block|)
  {
    hide SkipWs, White, Reads, Expect, ExprUpTo, ExpressionOk, PhraseThen, IsWhitespace, Mark;
    MarksAreNotWhite();
    var braced := c.g4 + ("{" + block);
    var tail := c.g2 + PhraseThen(c.condition, c.g3 + (")" + braced));
    SignThere(chars, pos, c.g1, '(', tail);
    UpToReads(c.condition, chars, |chars| - |tail|, c.g2, c.g3, ')', braced);
    SignThere(chars, |chars| - |braced|, c.g4, '{', block);
  }

  lemma OpensBlock(chars: string, pos: nat, end: nat)
    requires pos <= |chars| && Expect(chars, pos, "{") == Ok("{", end)
    ensures end <= |chars| && BlockAt(chars, pos) == BlockItems(chars, end)
  {
    hide Expect, BlockItems;
  }

  lemma {:induction false} ClauseReads(c: Clause, chars: string, pos: nat, rest: string)
    requires ClauseOk(c, rest) && Reads(chars, pos, ClauseThen(c, rest))
    ensures pos <= |chars| && Reaches(StatementAt(chars, pos), ClauseMeans(c), chars, rest)
    decreases c, 1
  {
    hide SkipWs, White, Reads, ExpressionOk, PhraseThen, BodyThen, BodyOk, StatementAt, LedBy, ConditionAt, Expect,
         BlockItems, BlockAt, ElseTail, SettingOk, SettingThen, CallOk, CallThen, Reaches, OtherwiseThen, OtherwiseOk,
         LinesMean, WordPart, Means, ClosedThen, ClauseThen, ClauseOk;
    if !c.IfClause? {
      PlainClauseReads(c, chars, pos, rest);
    } else {
      IfIsThere(c, chars, pos, rest);
      var tail := OtherwiseThen(c.otherwise, rest);
      var block := BodyThen(c.body, "}" + tail);
      WordLeads("if", chars, pos, c.g1 + ("(" + (c.g2 + PhraseThen(c.condition, ClosedThen(c.g3, c.g4, block)))));
      ConditionReads(c, chars, pos + 2, block);
      var condition := ConditionAt(chars, pos + 2);
      OpensBlock(chars, condition.next, |chars| - |block|);
      BodyReads(c.body, chars, |chars| - |block|, tail);
      IfIs(chars, pos, condition.value, condition.next, LinesMean(c.body.lines), |chars| - |tail|);
      OtherwiseReads(c.otherwise, chars, |chars| - |tail|, condition.value, LinesMean(c.body.lines), rest);
    }
  }

  lemma IfIsThere(c: Clause, chars: string, pos: nat, rest: string)
    requires c.IfClause? && ClauseOk(c, rest) && Reads(chars, pos, ClauseThen(c, rest))
    ensures Name("if") && c.body < c && c.otherwise < c
    ensures var block := BodyThen(c.body, "}" + OtherwiseThen(c.otherwise, rest));
            var tail := c.g1 + ("(" + (c.g2 + PhraseThen(c.condition, ClosedThen(c.g3, c.g4, block))));
            && White(c.g1) && White(c.g2) && White(c.g3) && White(c.g4)
            && ExpressionOk(c.condition, ClosedThen(c.g3, c.g4, block))
            && Reads(chars, pos, "if" + tail) && Apart(WordPart, tail)
    ensures BodyOk(c.body, "}" + OtherwiseThen(c.otherwise, rest)) && OtherwiseOk(c.otherwise, rest)
    ensures ClauseMeans(c) ==
            If(Means(c.condition), LinesMean(c.body.lines),
               match c.otherwise case None => [] case Some(o) => LinesMean(o.body.lines))
  {
    hide White, Reads, ExpressionOk, PhraseThen, BodyThen, BodyOk, OtherwiseThen, OtherwiseOk, LinesMean, Means,
         ClosedThen;
    var block := BodyThen(c.body, "}" + OtherwiseThen(c.otherwise, rest));
    GapEndsWord(c.g1, '(', c.g2 + PhraseThen(c.condition, ClosedThen(c.g3, c.g4, block)));
    WordsAreNames();
  }

  lemma {:induction false} OtherwiseReads(otherwise: Option<Otherwise>, chars: string, pos: nat, condition: Expr,
                                          thenBranch: seq<Stmt>, rest: string)
    requires OtherwiseOk(otherwise, rest) && Reads(chars, pos, OtherwiseThen(otherwise, rest))
    ensures pos <= |chars|
    ensures Reaches(ElseTail(chars, condition, thenBranch, SkipWs(chars, pos)),
                    If(condition, thenBranch, match otherwise case None => [] case Some(o) => LinesMean(o.body.lines)),
                    chars, rest)
    decreases otherwise, 1
  {
    hide SkipWs, White, Reads, BodyThen, BodyOk, Expect, BlockItems, BlockAt, ElseTail, Reaches, LinesMean, KeywordAt,
         Trimmed, ElseComes;
    match otherwise {
      case None =>
        TrimmedAt(chars, pos, rest);
        ElseIsThere(chars, SkipWs(chars, pos), Trimmed(rest));
        ElseTailOmitted(chars, condition, thenBranch, SkipWs(chars, pos));
        LeftOut(chars, pos, condition, thenBranch, rest);
      case Some(o) =>
        var block := BodyThen(o.body, "}" + rest);
        var tail := o.g2 + ("{" + block);
        MarksAreNotWhite();
        ElseIsSaid(o.g2, block);
        WhiteRuns(chars, pos, o.g1, "else" + tail);
        ElseIsThere(chars, pos + |o.g1|, "else" + tail);
        Step(chars, pos + |o.g1|, "else", tail);
        ReadsLength(chars, pos + |o.g1| + 4, tail);
        SignThere(chars, pos + |o.g1| + 4, o.g2, '{', block);
        OpensBlock(chars, pos + |o.g1| + 4, |chars| - |block|);
        BodyReads(o.body, chars, |chars| - |block|, rest);
        ElseTailIs(chars, condition, thenBranch, pos + |o.g1|, LinesMean(o.body.lines), |chars| - |rest|);
        ReachesExactly(ElseTail(chars, condition, thenBranch, SkipWs(chars, pos)),
                       If(condition, thenBranch, LinesMean(o.body.lines)), chars, rest);
    }
  }

  lemma LeftOut(chars: string, pos: nat, condition: Expr, thenBranch: seq<Stmt>, rest: string)
    requires Reads(chars, pos, rest)
    requires var p := SkipWs(chars, pos);
             ElseTail(chars, condition, thenBranch, p) == Ok(If(condition, thenBranch, []), p)
    ensures Reaches(ElseTail(chars, condition, thenBranch, SkipWs(chars, pos)), If(condition, thenBranch, []), chars,
                    rest)
  {
    hide SkipWs, ElseTail;
    ReadsLength(chars, pos, rest);
    ExactlySettled(chars, pos);
  }

  lemma ElseIsSaid(gap: string, block: string)
    requires White(gap)
    ensures Apart(IsWhitespace, "else" + (gap + ("{" + block))) && ElseComes("else" + (gap + ("{" + block)))
  {
    hide White;
    GapEndsWord(gap, '{', block);
    var tail := gap + ("{" + block);
    assert ("else" + tail)[..4] == "else" && ("else" + tail)[4..] == tail;
  }

  lemma {:induction false} BodyReads(b: Body, chars: string, pos: nat, rest: string)
    requires BodyOk(b, "}" + rest) && Reads(chars, pos, BodyThen(b, "}" + rest))
    ensures pos <= |chars| && |rest| < |chars| && Reads(chars, |chars| - |rest|, rest)
    ensures BlockItems(chars, pos) == Ok(LinesMean(b.lines), |chars| - |rest|)
    decreases b, 1
  {
    hide White, Reads, LinesThen, LinesOk, BlockItems, LinesMean;
    LinesRead(b.lines, b.last, chars, pos, rest);
  }

  lemma BlockEnds(chars: string, pos: nat, gap: string, rest: string)
    requires White(gap) && Reads(chars, pos, gap + ("}" + rest))
    ensures pos <= |chars| && |rest| < |chars| && Reads(chars, |chars| - |rest|, rest)
    ensures BlockItems(chars, pos) == Ok([], |chars| - |rest|)
  {
    hide White, Reads, StatementAt, SkipWs, Expect, IsWhitespace;
    MarksAreNotWhite();
    SignThere(chars, pos, gap, '}', rest);
  }

  lemma SameBlock(chars: string, end: nat, q: nat)
    requires Settled(chars, end, q)
    ensures end <= |chars| && BlockItems(chars, q) == BlockItems(chars, end)
  {
    hide StatementAt, SkipWs;
  }

  /** A line, and what comes after it. */
  lemma LineIsThere(line: Line, chars: string, pos: nat, rest: string)
    requires White(line.lead) && ClauseOk(line.clause, rest)
    requires Reads(chars, pos, line.lead + ClauseThen(line.clause, rest))
    ensures pos <= |chars|
    ensures var p := SkipWs(chars, pos);
            && p == pos + |line.lead| && p < |chars| && chars[p] != '}' &&
               Reads(chars, p, ClauseThen(line.clause, rest))
  {
    hide White, SkipWs, ClauseThen, ClauseOk;
    var text := ClauseThen(line.clause, rest);
    ClauseStarts(line.clause, rest);
    WordStartIsNoSpace(text);
    WhiteRuns(chars, pos, line.lead, text);
    SeenChar(chars, pos + |line.lead|, text, '}');
    ReadsLength(chars, pos + |line.lead|, text);
  }

  lemma LinesAre(lines: seq<Line>, rest: string)
    requires lines != []
    ensures LinesThen(lines, rest) == lines[0].lead + ClauseThen(lines[0].clause, LinesThen(lines[1..], rest))
    ensures LinesMean(lines) == [ClauseMeans(lines[0].clause)] + LinesMean(lines[1..])
    ensures LinesOk(lines, rest) <==>
            White(lines[0].lead) && ClauseOk(lines[0].clause, LinesThen(lines[1..], rest)) && LinesOk(lines[1..], rest)
    ensures lines[0].clause < lines[0]
  {
    hide White, ClauseThen, ClauseOk, ClauseMeans;
  }

  lemma NoLines(rest: string)
    ensures LinesThen([], rest) == rest && LinesMean([]) == []
  {
  }

  lemma {:induction false} LinesRead(lines: seq<Line>, last: string, chars: string, pos: nat, rest: string)
    requires White(last) && LinesOk(lines, last + ("}" + rest)) &&
             Reads(chars, pos, LinesThen(lines, last + ("}" + rest)))
    ensures pos <= |chars| && |rest| < |chars| && Reads(chars, |chars| - |rest|, rest)
    ensures BlockItems(chars, pos) == Ok(LinesMean(lines), |chars| - |rest|)
    decreases lines, 1
  {
    hide *;
    var end := last + ("}" + rest);
    if lines == [] {
      NoLines(end);
      BlockEnds(chars, pos, last, rest);
    } else {
      LinesAre(lines, end);
      var tail := LinesThen(lines[1..], end);
      LineIsThere(lines[0], chars, pos, tail);
      var p := pos + |lines[0].lead|;
      ClauseReads(lines[0].clause, chars, p, tail);
      ReachesThat(StatementAt(chars, p), ClauseMeans(lines[0].clause), chars, tail);
      BlockItemsGoOn(chars, pos, p, ClauseMeans(lines[0].clause), |chars| - |tail|);
      SameBlock(chars, |chars| - |tail|, StatementAt(chars, p).next);
      LinesRead(lines[1..], last, chars, |chars| - |tail|, rest);
      ConsIsThat(ClauseMeans(lines[0].clause), LinesMean(lines[1..]), |chars| - |rest|);
    }
  }

  lemma ReachesThat(r: Reading<Stmt>, s: Stmt, chars: string, rest: string)
    requires Reaches(r, s, chars, rest)
    ensures |rest| <= |chars| && ReadsAsStmt(r, s, chars, |chars| - |rest|) && Reads(chars, |chars| - |rest|, rest)
    ensures r.Ok? && Settled(chars, |chars| - |rest|, r.next)
  {
    hide Settled, Reads;
  }

  lemma ConsIsThat(s: Stmt, more: seq<Stmt>, end: nat)
    ensures Cons(s, Ok(more, end)) == Ok([s] + more, end)
  {
  }

  // ----- Programs -----

  lemma ProgramIsOver(chars: string, pos: nat, last: string)
    requires White(last) && Reads(chars, pos, last)
    ensures pos <= |chars| && ProgramItems(chars, SkipWs(chars, pos)) == Ok([], |chars|)
  {
    hide SkipWs, StatementAt, White;
    assert last + "" == last;
    WhiteRuns(chars, pos, last, "");
    ReadsLength(chars, pos, last);
  }

  lemma ProgramMovesOn(chars: string, pos: nat, s: Stmt, end: nat)
    requires pos < |chars| && ReadsAsStmt(StatementAt(chars, pos), s, chars, end)
    ensures end <= |chars| && ProgramItems(chars, pos) == Cons(s, ProgramItems(chars, SkipWs(chars, end)))
  {
    hide SkipWs, StatementAt;
  }

  lemma {:induction false} ProgramReads(lines: seq<Line>, last: string, chars: string, pos: nat)
    requires White(last) && LinesOk(lines, last) && Reads(chars, pos, LinesThen(lines, last))
    ensures pos <= |chars| && ProgramItems(chars, SkipWs(chars, pos)) == Ok(LinesMean(lines), |chars|)
    decreases lines
  {
    hide *;
    if lines == [] {
      NoLines(last);
      ProgramIsOver(chars, pos, last);
    } else {
      LinesAre(lines, last);
      var tail := LinesThen(lines[1..], last);
      LineIsThere(lines[0], chars, pos, tail);
      var p := pos + |lines[0].lead|;
      ClauseReads(lines[0].clause, chars, p, tail);
      ReachesThat(StatementAt(chars, p), ClauseMeans(lines[0].clause), chars, tail);
      ProgramMovesOn(chars, p, ClauseMeans(lines[0].clause), |chars| - |tail|);
      ProgramReads(lines[1..], last, chars, |chars| - |tail|);
      ConsIsThat(ClauseMeans(lines[0].clause), LinesMean(lines[1..]), |chars|);
    }
  }

  /** A program that is laid out in any way is read as what it is written for. */
  lemma LaidOutIsParsed(b: Body)
    requires BodyOk(b, "")
    ensures Program(BodyThen(b, "")) == Ok(LinesMean(b.lines), |BodyThen(b, "")|)
  {
    hide SkipWs, ProgramItems, LinesThen, LinesOk, LinesMean;
    var chars := BodyThen(b, "");
    assert chars[0..] == chars && b.last + "" == b.last;
    ProgramReads(b.lines, b.last, chars, 0);
  }
}
