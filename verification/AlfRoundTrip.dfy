/** Printed programs parse back to what they were printed from. */
module AlfRoundTrip {
  import opened SysmlModel
  import opened Scanning
  import opened ReadingBack
  import opened AlfSyntax
  import opened AlfPrinter
  import opened AlfExprRoundTrip

  // ----- Tokens after optional white space -----

  /** The next thing that is not white space, at or after `pos`, is at `p`, and the text reads `s` there. */
  ghost predicate ReadsNext(chars: string, pos: nat, p: nat, s: string) {
    pos <= |chars| && SkipWs(chars, pos) == p && Reads(chars, p, s)
  }

  lemma NextHere(chars: string, pos: nat, s: string)
    requires Reads(chars, pos, s) && Apart(IsWhitespace, s)
    ensures ReadsNext(chars, pos, pos, s)
  {
    hide SkipWs, Apart;
    NothingToSkip(chars, pos, s);
  }

  lemma NextAfterSpace(chars: string, pos: nat, s: string)
    requires Reads(chars, pos, " " + s) && Apart(IsWhitespace, s)
    ensures ReadsNext(chars, pos, pos + 1, s)
  {
    hide SkipWs, Apart;
    SkipSpace(chars, pos, s);
  }

  lemma SettledNext(chars: string, end: nat, q: nat, p: nat, s: string)
    requires Settled(chars, end, q) && ReadsNext(chars, end, p, s)
    ensures ReadsNext(chars, q, p, s)
  {
  }

  predicate Punctuation(c: char) {
    c == '(' || c == ')' || c == '{' || c == '}' || c == ';' || c == '=' || c == ',' || c == '.'
  }

  lemma PunctuationStarts(c: char, rest: string)
    requires Punctuation(c)
    ensures Apart(IsWhitespace, [c] + rest) && Apart(IdentContinue, [c] + rest)
    ensures Apart(IdentContinue, " " + rest)
  {
  }

  lemma TokenReadsBack(chars: string, pos: nat, p: nat, c: char, rest: string)
    requires ReadsNext(chars, pos, p, [c] + rest)
    ensures Expect(chars, pos, [c]) == Ok([c], p + 1) && Reads(chars, p + 1, rest)
  {
    hide SkipWs, Reads;
    NextIs(chars, p, c, rest);
    assert [c][0] == c && [c][1..] == "";
    assert Spells(chars, p, [c]);
  }

  lemma OpenerIsExpr(e: Expr, rest: string)
    requires Legal(e)
    ensures Apart(IsWhitespace, Print(e, OrLevel) + rest)
  {
    hide Print;
    PrintedStartsRight(e, OrLevel, rest);
  }

  /** An expression and the mark that closes it. */
  lemma ExprUpToReadsBack(e: Expr, chars: string, pos: nat, p: nat, c: char, rest: string)
    requires Legal(e) && Mark(c) && ReadsNext(chars, pos, p, Print(e, OrLevel) + ([c] + rest))
    ensures ExprUpTo(chars, pos, [c]) == Ok(e, p + |Print(e, OrLevel)| + 1)
    ensures Reads(chars, p + |Print(e, OrLevel)| + 1, rest)
  {
    hide Print, ExprAt, Reads, SkipWs, Expect, Legal, Mark;
    ExprThenMark(e, chars, p, c, rest);
    var q := ExprAt(chars, OrLevel, p).next;
    TokenReadsBack(chars, q, p + |Print(e, OrLevel)|, c, rest);
  }

  /** An expression is read up to the mark behind it. */
  lemma ExprThenMark(e: Expr, chars: string, p: nat, c: char, rest: string)
    requires Legal(e) && Mark(c) && Reads(chars, p, Print(e, OrLevel) + ([c] + rest))
    ensures p <= |chars|
    ensures var r := ExprAt(chars, OrLevel, p);
            r.Ok? && r.value == e && ReadsNext(chars, r.next, p + |Print(e, OrLevel)|, [c] + rest)
  {
    hide Print, ExprAt, Reads, SkipWs, Legal, Follows, Mark;
    var end := p + |Print(e, OrLevel)|;
    MarkFollows(OrLevel, c, rest);
    ExprReadsBack(e, OrLevel, chars, p, [c] + rest);
    Step(chars, p, Print(e, OrLevel), [c] + rest);
    MarkIsPunctuation(c);
    PunctuationStarts(c, rest);
    NextHere(chars, end, [c] + rest);
    SettledNext(chars, end, ExprAt(chars, OrLevel, p).next, end, [c] + rest);
  }

  lemma MarkIsPunctuation(c: char)
    requires Mark(c)
    ensures Punctuation(c)
  {
  }

  // ----- Arguments -----

  lemma LastArgIs(chars: string, pos: nat, p: nat, arg: Expr, end: nat, rest: string)
    requires pos <= |chars| && SkipWs(chars, pos) == p
    requires var r := ExprAt(chars, OrLevel, p); r.Ok? && r.value == arg && ReadsNext(chars, r.next, end, ")" + rest)
    ensures ArgItems(chars, pos) == Ok([arg], end + 1) && Reads(chars, end + 1, rest)
  {
    hide ExprAt, SkipWs, Reads, Expect;
    var q := ExprAt(chars, OrLevel, p).next;
    TokenReadsBack(chars, q, end, ')', rest);
    NextIs(chars, end, ')', rest);
    SkipTwice(chars, q);
    TokenReadsBack(chars, end, end, ')', rest);
  }

  lemma MoreArgsAre(chars: string, pos: nat, p: nat, arg: Expr, end: nat, more: string)
    requires pos <= |chars| && SkipWs(chars, pos) == p
    requires var r := ExprAt(chars, OrLevel, p); r.Ok? && r.value == arg && ReadsNext(chars, r.next, end, "," + more)
    ensures end + 1 <= |chars| && ArgItems(chars, pos) == Cons(arg, ArgItems(chars, end + 1)) &&
            Reads(chars, end + 1, more)
  {
    hide ExprAt, SkipWs, Reads, Expect;
    NextIs(chars, end, ',', more);
  }

  lemma {:induction false} ArgItemsReadBack(args: seq<Expr>, chars: string, pos: nat, p: nat, rest: string)
    requires args != [] && (forall a :: a in args ==> Legal(a))
    requires ReadsNext(chars, pos, p, ArgsText(args) + (")" + rest))
    ensures ArgItems(chars, pos) == Ok(args, p + |ArgsText(args)| + 1)
    ensures Reads(chars, p + |ArgsText(args)| + 1, rest)
    decreases |args|
  {
    hide Print, ExprAt, Reads, SkipWs, Expect, Legal, ArgItems;
    var text := Print(args[0], OrLevel);
    if |args| == 1 {
      ExprThenMark(args[0], chars, p, ')', rest);
      LastArgIs(chars, pos, p, args[0], p + |text|, rest);
      assert args == [args[0]];
    } else {
      var others := ArgsText(args[1..]) + (")" + rest);
      Regroup(text, ", " + ArgsText(args[1..]), ")" + rest);
      Regroup(", ", ArgsText(args[1..]), ")" + rest);
      assert ", " == "," + " ";
      Regroup(",", " ", others);
      ExprThenMark(args[0], chars, p, ',', " " + others);
      MoreArgsAre(chars, pos, p, args[0], p + |text|, " " + others);
      ArgsOpen(args[1..], ")" + rest);
      NextAfterSpace(chars, p + |text| + 1, others);
      ArgItemsReadBack(args[1..], chars, p + |text| + 1, p + |text| + 2, rest);
      assert args == [args[0]] + args[1..];
    }
  }

  lemma ArgsOpen(args: seq<Expr>, rest: string)
    requires args != [] && forall a :: a in args ==> Legal(a)
    ensures Apart(IsWhitespace, ArgsText(args) + rest)
    ensures ArgsText(args) != "" && ArgsText(args)[0] != ')'
  {
    hide Print, Legal, IdentStart, IsWhitespace;
    PrintOpens(args[0], OrLevel);
    OpensIsNotWhite(ArgsText(args) + rest);
    BracketDoesNotOpen();
  }

  lemma BracketDoesNotOpen()
    ensures !Opens(')')
  {
  }

  lemma ArgsReadBack(args: seq<Expr>, chars: string, pos: nat, rest: string)
    requires (forall a :: a in args ==> Legal(a)) && Reads(chars, pos, ArgsText(args) + (")" + rest))
    ensures pos <= |chars| && ArgsAt(chars, pos) == Ok(args, pos + |ArgsText(args)| + 1)
    ensures Reads(chars, pos + |ArgsText(args)| + 1, rest)
  {
    hide ArgItems, SkipWs, Legal, Print;
    if args == [] {
      assert "" + (")" + rest) == ")" + rest;
      PunctuationStarts(')', rest);
      NextHere(chars, pos, ")" + rest);
      NextIs(chars, pos, ')', rest);
    } else {
      var text := ArgsText(args) + (")" + rest);
      ArgsOpen(args, ")" + rest);
      NextHere(chars, pos, text);
      assert chars[pos..][0] == chars[pos];
      ArgItemsReadBack(args, chars, pos, pos, rest);
    }
  }

  /** The rest of a call, after its opening bracket. */
  lemma CallReadsBack(args: seq<Expr>, chars: string, pos: nat, rest: string)
    requires (forall a :: a in args ==> Legal(a)) && Reads(chars, pos, ArgsText(args) + (")" + (";" + rest)))
    ensures pos <= |chars| && ArgsUpToSemicolon(chars, pos) == Ok(args, pos + |ArgsText(args)| + 2)
    ensures Reads(chars, pos + |ArgsText(args)| + 2, rest)
  {
    hide ArgsAt, Reads, ArgsText, Expect, Legal, SkipWs;
    var end := pos + |ArgsText(args)| + 1;
    ArgsReadBack(args, chars, pos, ";" + rest);
    PunctuationStarts(';', rest);
    NextHere(chars, end, ";" + rest);
    TokenReadsBack(chars, end, end, ';', rest);
  }

  lemma CallTextIs(args: seq<Expr>, rest: string)
    ensures CallText(args) + rest == "(" + (ArgsText(args) + (")" + (";" + rest)))
    ensures |CallText(args)| == |ArgsText(args)| + 3
  {
    hide ArgsText;
    Regroup("(", ArgsText(args) + ");", rest);
    Regroup(ArgsText(args), ");", rest);
    Regroup(")", ";", rest);
  }

  // ----- Simple statements -----

  /** ` = `, a value and a semicolon, after a name that ends at `pos`. */
  lemma ValueReadsBack(e: Expr, chars: string, pos: nat, rest: string)
    requires Legal(e) && Reads(chars, pos, " = " + (Print(e, OrLevel) + (";" + rest)))
    ensures pos <= |chars| && Expect(chars, pos, "=") == Ok("=", pos + 2) && pos + 2 <= |chars|
    ensures ExprUpTo(chars, pos + 2, ";") == Ok(e, pos + 3 + |Print(e, OrLevel)| + 1)
    ensures Reads(chars, pos + 3 + |Print(e, OrLevel)| + 1, rest)
  {
    hide Print, Reads, Expect, ExprUpTo, Legal, SkipWs;
    var tail := Print(e, OrLevel) + (";" + rest);
    assert " = " + tail == " " + ("=" + (" " + tail));
    PunctuationStarts('=', " " + tail);
    NextAfterSpace(chars, pos, "=" + (" " + tail));
    TokenReadsBack(chars, pos, pos + 1, '=', " " + tail);
    OpenerIsExpr(e, ";" + rest);
    NextAfterSpace(chars, pos + 2, tail);
    ExprUpToReadsBack(e, chars, pos + 2, pos + 3, ';', rest);
  }

  lemma LetReadsBack(name: string, e: Expr, chars: string, pos: nat, rest: string)
    requires Ident(name) && Legal(e) && Reads(chars, pos, " " + (name + (" = " + (Print(e, OrLevel) + (";" + rest)))))
    ensures pos <= |chars| && LetTail(chars, pos) == Ok(Let(name, e), pos + 1 + |name| + 3 + |Print(e, OrLevel)| + 1)
  {
    hide Print, Reads, Expect, ExprUpTo, Legal, SkipWs, IdentAt, Ident;
    var value := " = " + (Print(e, OrLevel) + (";" + rest));
    IdentIsNotWhite(name, value);
    NextAfterSpace(chars, pos, name + value);
    assert value == " " + ("= " + (Print(e, OrLevel) + (";" + rest)));
    PunctuationStarts('=', "= " + (Print(e, OrLevel) + (";" + rest)));
    IdentReadsBack(chars, pos + 1, name, value);
    ValueReadsBack(e, chars, pos + 1 + |name|, rest);
  }

  lemma IdentIsNotWhite(word: string, rest: string)
    requires Ident(word)
    ensures Apart(IsWhitespace, word + rest)
  {
    hide IsWhitespace, IdentStart, IdentContinue;
    IdentStartsContinue(word[0]);
  }

  lemma AssignReadsBack(target: string, feature: string, e: Expr, chars: string, start: nat, pos: nat, rest: string)
    requires start <= pos && Ident(feature) && Legal(e)
    requires Reads(chars, pos, "." + (feature + (" = " + (Print(e, OrLevel) + (";" + rest)))))
    ensures pos <= |chars|
    ensures NamedTail(chars, start, target, pos)
         == Ok(Assign(target, feature, e), pos + 1 + |feature| + 3 + |Print(e, OrLevel)| + 1)
  {
    hide Print, Reads, Expect, ExprUpTo, Legal, SkipWs, IdentAt, Ident, ArgsUpToSemicolon;
    var value := " = " + (Print(e, OrLevel) + (";" + rest));
    NextIs(chars, pos, '.', feature + value);
    assert value == " " + ("= " + (Print(e, OrLevel) + (";" + rest)));
    PunctuationStarts('=', "= " + (Print(e, OrLevel) + (";" + rest)));
    IdentReadsBack(chars, pos + 1, feature, value);
    ValueReadsBack(e, chars, pos + 1 + |feature|, rest);
  }

  lemma InvokeReadsBack(name: string, args: seq<Expr>, chars: string, start: nat, pos: nat, rest: string)
    requires start <= pos && (forall a :: a in args ==> Legal(a)) && Reads(chars, pos, CallText(args) + rest)
    ensures pos <= |chars| && NamedTail(chars, start, name, pos) == Ok(Invoke(name, args), pos + |CallText(args)|)
  {
    hide ArgsText, CallText, Reads, Legal, SkipWs, IdentAt, ArgsUpToSemicolon;
    var tail := ArgsText(args) + (")" + (";" + rest));
    CallTextIs(args, rest);
    PunctuationStarts('(', tail);
    NextHere(chars, pos, "(" + tail);
    NextIs(chars, pos, '(', tail);
    CallReadsBack(args, chars, pos + 1, rest);
  }

  lemma SendReadsBack(name: string, args: seq<Expr>, chars: string, pos: nat, rest: string)
    requires Ident(name) && (forall a :: a in args ==> Legal(a)) &&
             Reads(chars, pos, " " + (name + (CallText(args) + rest)))
    ensures pos <= |chars| && SendTail(chars, pos) == Ok(SendSignal(name, args), pos + 1 + |name| + |CallText(args)|)
  {
    hide ArgsText, CallText, Reads, Legal, SkipWs, IdentAt, ArgsUpToSemicolon, Ident, Expect;
    var tail := ArgsText(args) + (")" + (";" + rest));
    CallTextIs(args, rest);
    IdentIsNotWhite(name, "(" + tail);
    NextAfterSpace(chars, pos, name + ("(" + tail));
    PunctuationStarts('(', tail);
    IdentReadsBack(chars, pos + 1, name, "(" + tail);
    NextHere(chars, pos + 1 + |name|, "(" + tail);
    TokenReadsBack(chars, pos + 1 + |name|, pos + 1 + |name|, '(', tail);
    CallReadsBack(args, chars, pos + 1 + |name| + 1, rest);
  }

  // ----- Statements by their leading word -----

  lemma KeywordsAreIdents()
    ensures Ident("let") && Ident("if") && Ident("send") && Ident("else")
  {
  }

  /** A statement that stands at `pos` begins with this word. */
  ghost predicate LedBy(chars: string, pos: nat, word: string) {
    pos <= |chars| && SkipWs(chars, pos) == pos && RawIdent(chars, pos) == Some(word)
  }

  lemma LeaderReadsBack(word: string, chars: string, pos: nat, tail: string)
    requires Ident(word) && Reads(chars, pos, word + tail) && Apart(IdentContinue, tail)
    ensures LedBy(chars, pos, word) && Reads(chars, pos + |word|, tail) && pos + |word| <= |chars|
  {
    hide Reads, SkipWs, RawIdent, Ident;
    WordReadsBack(chars, pos, word, tail);
    IdentIsNotWhite(word, tail);
    NextHere(chars, pos, word + tail);
    ReadsFits(chars, pos + |word|, tail);
  }

  lemma LetIs(chars: string, pos: nat)
    requires LedBy(chars, pos, "let")
    ensures pos + 3 <= |chars| && StatementAt(chars, pos) == LetTail(chars, pos + 3)
  {
    hide SkipWs, RawIdent, LetTail, SendTail, NamedTail, ConditionAt, BlockAt, ElseTail;
  }

  lemma SendIs(chars: string, pos: nat)
    requires LedBy(chars, pos, "send")
    ensures pos + 4 <= |chars| && StatementAt(chars, pos) == SendTail(chars, pos + 4)
  {
    hide SkipWs, RawIdent, LetTail, SendTail, NamedTail, ConditionAt, BlockAt, ElseTail;
  }

  lemma NamedIs(chars: string, pos: nat, word: string)
    requires LedBy(chars, pos, word) && !Keyword(word)
    ensures pos + |word| <= |chars| && StatementAt(chars, pos) == NamedTail(chars, pos, word, pos + |word|)
  {
    hide SkipWs, RawIdent, LetTail, SendTail, NamedTail, ConditionAt, BlockAt, ElseTail;
  }

  lemma IfIs(chars: string, pos: nat, condition: Expr, q: nat, thenBranch: seq<Stmt>, end: nat)
    requires LedBy(chars, pos, "if") && pos + 2 <= |chars| && ConditionAt(chars, pos + 2) == Ok(condition, q)
    requires q <= |chars| && BlockAt(chars, q) == Ok(thenBranch, end)
    ensures end <= |chars| && StatementAt(chars, pos) == ElseTail(chars, condition, thenBranch, SkipWs(chars, end))
  {
    hide SkipWs, RawIdent, LetTail, SendTail, NamedTail, ConditionAt, BlockAt, ElseTail;
  }

  lemma ConditionReadsBack(e: Expr, chars: string, pos: nat, rest: string)
    requires Legal(e) && Reads(chars, pos, " (" + (Print(e, OrLevel) + (")" + rest)))
    ensures pos <= |chars| && ConditionAt(chars, pos) == Ok(e, pos + 2 + |Print(e, OrLevel)| + 1)
    ensures Reads(chars, pos + 2 + |Print(e, OrLevel)| + 1, rest)
  {
    hide Print, Reads, Expect, ExprUpTo, Legal, SkipWs;
    var tail := Print(e, OrLevel) + (")" + rest);
    assert " (" + tail == " " + ("(" + tail);
    PunctuationStarts('(', tail);
    NextAfterSpace(chars, pos, "(" + tail);
    TokenReadsBack(chars, pos, pos + 1, '(', tail);
    OpenerIsExpr(e, ")" + rest);
    NextHere(chars, pos + 2, tail);
    ExprUpToReadsBack(e, chars, pos + 2, pos + 2, ')', rest);
  }

  lemma BlockOpens(chars: string, pos: nat, rest: string)
    requires Reads(chars, pos, " {" + rest)
    ensures pos + 2 <= |chars| && BlockAt(chars, pos) == BlockItems(chars, pos + 2) && Reads(chars, pos + 2, rest)
  {
    hide Reads, Expect, BlockItems, SkipWs;
    assert " {" + rest == " " + ("{" + rest);
    PunctuationStarts('{', rest);
    NextAfterSpace(chars, pos, "{" + rest);
    TokenReadsBack(chars, pos, pos + 1, '{', rest);
    ReadsFits(chars, pos + 2, rest);
  }

  // ----- The word `else` -----

  lemma {:induction false} SpelledReads(chars: string, pos: nat, s: string)
    requires pos <= |chars|
    ensures Spells(chars, pos, s) <==> pos + |s| <= |chars| && chars[pos..pos + |s|] == s
    decreases |s|
  {
    if s == "" {
    } else if pos < |chars| {
      SpelledReads(chars, pos + 1, s[1..]);
      assert s == [s[0]] + s[1..];
      if pos + |s| <= |chars| {
        assert chars[pos..pos + |s|] == [chars[pos]] + chars[pos + 1..pos + 1 + |s[1..]|];
      }
    }
  }

  lemma ElseIsThere(chars: string, pos: nat, rest: string)
    requires Reads(chars, pos, "else" + (" " + rest))
    ensures KeywordAt(chars, pos, "else") && Reads(chars, pos + 4, " " + rest)
  {
    Step(chars, pos, "else", " " + rest);
    SpelledReads(chars, pos, "else");
    NextIs(chars, pos + 4, ' ', rest);
  }

  /** Another word is not `else`, not even one that begins so. */
  lemma ElseIsNotThere(chars: string, pos: nat, word: string, rest: string)
    requires Ident(word) && word != "else" && Reads(chars, pos, word + rest) && Apart(IdentContinue, rest)
    ensures !KeywordAt(chars, pos, "else")
  {
    hide IdentStart, IdentContinue;
    RunEndAfter(IdentContinue, chars, pos, word, rest);
    SpelledReads(chars, pos, "else");
    if KeywordAt(chars, pos, "else") {
      var tail := chars[pos + 4..];
      assert chars[pos..] == "else" + tail;
      KeywordsAreIdents();
      RunEndAfter(IdentContinue, chars, pos, "else", tail);
      Step(chars, pos, word, rest);
    }
  }

  lemma NoElseAtBrace(chars: string, pos: nat)
    ensures At(chars, pos, '}') ==> !KeywordAt(chars, pos, "else")
    ensures pos >= |chars| ==> !KeywordAt(chars, pos, "else")
  {
  }

  lemma ElseTailOmitted(chars: string, condition: Expr, thenBranch: seq<Stmt>, pos: nat)
    requires pos <= |chars| && !KeywordAt(chars, pos, "else")
    ensures ElseTail(chars, condition, thenBranch, pos) == Ok(If(condition, thenBranch, []), pos)
  {
    hide BlockAt;
  }

  lemma ElseTailIs(chars: string, condition: Expr, thenBranch: seq<Stmt>, pos: nat, elseBranch: seq<Stmt>, end: nat)
    requires pos + 4 <= |chars| && KeywordAt(chars, pos, "else") && BlockAt(chars, pos + 4) == Ok(elseBranch, end)
    ensures ElseTail(chars, condition, thenBranch, pos) == Ok(If(condition, thenBranch, elseBranch), end)
  {
    hide BlockAt;
  }

  // ----- Statements -----

  /** Reading a statement from `pos` on succeeds, and stops at `end` but for white space. */
  ghost predicate ReadsAsStmt(r: Reading<Stmt>, s: Stmt, chars: string, end: nat) {
    r.Ok? && r.value == s && Settled(chars, end, r.next)
  }

  function StmtTail(s: Stmt, beforeElse: bool): string {
    match s
    case Let(name, value) => " " + (name + (" = " + (Print(value, OrLevel) + ";")))
    case Assign(_, feature, value) => "." + (feature + (" = " + (Print(value, OrLevel) + ";")))
    case Invoke(_, args) => CallText(args)
    case SendSignal(name, args) => " " + (name + CallText(args))
    case If(condition, thenBranch, elseBranch) =>
      " (" + (Print(condition, OrLevel) +
              (")" + (" {" + (StmtsText(thenBranch) + (" }" + ElseText(elseBranch, beforeElse))))))
  }

  function ElseText(elseBranch: seq<Stmt>, beforeElse: bool): string {
    if elseBranch == [] && !beforeElse then "" else " " + ("else" + (" {" + (StmtsText(elseBranch) + " }")))
  }

  lemma StmtTextIs(s: Stmt, beforeElse: bool)
    ensures StmtText(s, beforeElse) == Leader(s) + StmtTail(s, beforeElse)
    ensures Apart(IdentContinue, StmtTail(s, beforeElse)) && StmtTail(s, beforeElse) != ""
  {
    hide Print, StmtsText, ArgsText;
    match s {
      case Let(name, value) =>
        assert "let " == "let" + " ";
        Regroup("let", " ", name + (" = " + (Print(value, OrLevel) + ";")));
      case SendSignal(name, args) =>
        assert "send " == "send" + " ";
        Regroup("send", " ", name + CallText(args));
      case If(condition, thenBranch, elseBranch) =>
        var block := StmtsText(thenBranch) + (" }" + ElseText(elseBranch, beforeElse));
        assert "if (" == "if" + " (" && ") {" == ")" + " {";
        Regroup(")", " {", block);
        Regroup("if", " (", Print(condition, OrLevel) + (")" + (" {" + block)));
        var other := StmtsText(elseBranch) + " }";
        assert " else {" + other == " " + ("else" + (" {" + other));
      case _ =>
    }
  }

  lemma LeaderIsIdent(s: Stmt)
    requires LegalStmt(s)
    ensures Ident(Leader(s))
    ensures s.Assign? || s.Invoke? ==> !Keyword(Leader(s))
  {
    KeywordsAreIdents();
  }

  lemma SimpleReadsBack(s: Stmt, beforeElse: bool, chars: string, pos: nat, rest: string)
    requires !s.If? && LegalStmt(s) && LedBy(chars, pos, Leader(s)) &&
             Reads(chars, pos + |Leader(s)|, StmtTail(s, beforeElse) + rest)
    ensures StatementAt(chars, pos) == Ok(s, pos + |Leader(s)| + |StmtTail(s, beforeElse)|)
  {
    hide Print, Reads, Legal, CallText, StatementAt, LetTail, SendTail, NamedTail, LedBy, Keyword, Ident;
    LeaderIsIdent(s);
    match s {
      case Let(name, value) =>
        RegroupValue(" ", name, Print(value, OrLevel), rest);
        LetIs(chars, pos);
        LetReadsBack(name, value, chars, pos + 3, rest);
      case Assign(target, feature, value) =>
        RegroupValue(".", feature, Print(value, OrLevel), rest);
        NamedIs(chars, pos, target);
        AssignReadsBack(target, feature, value, chars, pos, pos + |target|, rest);
      case Invoke(name, args) =>
        NamedIs(chars, pos, name);
        InvokeReadsBack(name, args, chars, pos, pos + |name|, rest);
      case SendSignal(name, args) =>
        Regroup(" ", name + CallText(args), rest);
        Regroup(name, CallText(args), rest);
        SendIs(chars, pos);
        SendReadsBack(name, args, chars, pos + 4, rest);
    }
  }

  lemma RegroupValue(first: string, name: string, value: string, rest: string)
    ensures (first + (name + (" = " + (value + ";")))) + rest == first + (name + (" = " + (value + (";" + rest))))
  {
    Regroup(first, name + (" = " + (value + ";")), rest);
    Regroup(name, " = " + (value + ";"), rest);
    Regroup(" = ", value + ";", rest);
    Regroup(value, ";", rest);
  }

  /** No else clause could be read into what follows, where the statement leaves its own unsaid. */
  ghost predicate NoStrayElse(s: Stmt, beforeElse: bool, chars: string, end: nat) {
    s.If? && s.elseBranch == [] && !beforeElse ==> end <= |chars| && !KeywordAt(chars, SkipWs(chars, end), "else")
  }

  lemma {:induction false} StmtReadsBack(s: Stmt, beforeElse: bool, chars: string, pos: nat, rest: string)
    requires LegalStmt(s) && Reads(chars, pos, StmtText(s, beforeElse) + rest)
    requires NoStrayElse(s, beforeElse, chars, pos + |StmtText(s, beforeElse)|)
    ensures pos <= |chars| && ReadsAsStmt(StatementAt(chars, pos), s, chars, pos + |StmtText(s, beforeElse)|)
    decreases s, 0
  {
    hide *;
    var end := pos + |StmtText(s, beforeElse)|;
    StmtTextIs(s, beforeElse);
    LeaderIsIdent(s);
    Regroup(Leader(s), StmtTail(s, beforeElse), rest);
    TailStartsOutside(StmtTail(s, beforeElse), rest);
    LeaderReadsBack(Leader(s), chars, pos, StmtTail(s, beforeElse) + rest);
    Step(chars, pos + |Leader(s)|, StmtTail(s, beforeElse), rest);
    ReadsFits(chars, end, rest);
    ExactlySettled(chars, end);
    if s.If? {
      IfReadsBack(s, beforeElse, chars, pos, rest);
    } else {
      SimpleReadsBack(s, beforeElse, chars, pos, rest);
      StmtReadExactly(chars, pos, s, end);
    }
  }

  lemma StmtReadExactly(chars: string, pos: nat, s: Stmt, end: nat)
    requires pos <= |chars| && StatementAt(chars, pos) == Ok(s, end) && Settled(chars, end, end)
    ensures ReadsAsStmt(StatementAt(chars, pos), s, chars, end)
  {
    hide StatementAt, Settled;
  }

  lemma TailStartsOutside(tail: string, rest: string)
    requires Apart(IdentContinue, tail) && tail != ""
    ensures Apart(IdentContinue, tail + rest)
  {
  }

  lemma IfTailIs(s: Stmt, beforeElse: bool, rest: string)
    requires s.If?
    ensures var c, b, x := Print(s.condition, OrLevel), StmtsText(s.thenBranch), ElseText(s.elseBranch, beforeElse);
            && Leader(s) == "if"
            && StmtTail(s, beforeElse) + rest == " (" + (c + (")" + (" {" + (b + (" }" + (x + rest))))))
            && |StmtTail(s, beforeElse)| == 2 + |c| + 3 + |b| + 2 + |x|
  {
    hide Print, StmtsText, ElseText;
    var c, b, x := Print(s.condition, OrLevel), StmtsText(s.thenBranch), ElseText(s.elseBranch, beforeElse);
    Regroup(" (", c + (")" + (" {" + (b + (" }" + x)))), rest);
    Regroup(c, ")" + (" {" + (b + (" }" + x))), rest);
    Regroup(")", " {" + (b + (" }" + x)), rest);
    Regroup(" {", b + (" }" + x), rest);
    Regroup(b, " }" + x, rest);
    Regroup(" }", x, rest);
  }

  lemma IfParts(s: Stmt)
    requires s.If? && LegalStmt(s)
    ensures s == If(s.condition, s.thenBranch, s.elseBranch) && Legal(s.condition)
    ensures (forall t :: t in s.thenBranch ==> LegalStmt(t)) && (forall t :: t in s.elseBranch ==> LegalStmt(t))
  {
  }

  /** Where the else clause of a conditional may begin. */
  function ElseStart(s: Stmt, pos: nat): nat
    requires s.If?
  {
    pos + 2 + 2 + |Print(s.condition, OrLevel)| + 1 + 2 + |StmtsText(s.thenBranch)| + 2
  }

  /** A conditional is read up to its else clause. */
  lemma {:induction false} IfHeadReadsBack(s: Stmt, beforeElse: bool, chars: string, pos: nat, rest: string)
    requires s.If? && LegalStmt(s) && LedBy(chars, pos, Leader(s)) &&
             Reads(chars, pos + |Leader(s)|, StmtTail(s, beforeElse) + rest)
    ensures pos <= |chars| && ElseStart(s, pos) <= |chars|
    ensures StatementAt(chars, pos) == ElseTail(chars, s.condition, s.thenBranch, SkipWs(chars, ElseStart(s, pos)))
    ensures Reads(chars, ElseStart(s, pos), ElseText(s.elseBranch, beforeElse) + rest)
    ensures ElseStart(s, pos) + |ElseText(s.elseBranch, beforeElse)| == pos + |Leader(s)| + |StmtTail(s, beforeElse)|
    decreases s, 0, 0
  {
    hide *;
    IfParts(s);
    IfTailIs(s, beforeElse, rest);
    ElseStartIs(s, pos);
    var c, b, x := Print(s.condition, OrLevel), StmtsText(s.thenBranch), ElseText(s.elseBranch, beforeElse);
    var block := b + (" }" + (x + rest));
    ReadsFits(chars, pos + 2, StmtTail(s, beforeElse) + rest);
    ConditionReadsBack(s.condition, chars, pos + 2, " {" + block);
    var q := pos + 2 + 2 + |c| + 1;
    BlockOpens(chars, q, block);
    ExactlySettled(chars, q + 2);
    BlockReadsBack(s.thenBranch, chars, q + 2, q + 2, x + rest);
    var end := q + 2 + |b| + 2;
    IfIs(chars, pos, s.condition, q, s.thenBranch, end);
  }

  lemma ElseStartIs(s: Stmt, pos: nat)
    requires s.If?
    ensures ElseStart(s, pos) == pos + 2 + 2 + |Print(s.condition, OrLevel)| + 1 + 2 + |StmtsText(s.thenBranch)| + 2
  {
  }

  lemma {:induction false} IfReadsBack(s: Stmt, beforeElse: bool, chars: string, pos: nat, rest: string)
    requires s.If? && LegalStmt(s) && LedBy(chars, pos, Leader(s)) &&
             Reads(chars, pos + |Leader(s)|, StmtTail(s, beforeElse) + rest)
    requires StmtText(s, beforeElse) == Leader(s) + StmtTail(s, beforeElse)
    requires NoStrayElse(s, beforeElse, chars, pos + |StmtText(s, beforeElse)|)
    ensures pos <= |chars| && ReadsAsStmt(StatementAt(chars, pos), s, chars, pos + |StmtText(s, beforeElse)|)
    decreases s, 0, 1
  {
    hide *;
    IfHeadReadsBack(s, beforeElse, chars, pos, rest);
    ElseReadsBack(s, beforeElse, chars, ElseStart(s, pos), rest);
    StmtReadsAs(chars, pos, s, ElseStart(s, pos), pos + |StmtText(s, beforeElse)|);
  }

  lemma StmtReadsAs(chars: string, pos: nat, s: Stmt, end: nat, whole: nat)
    requires s.If? && pos <= |chars| && end <= |chars|
    requires StatementAt(chars, pos) == ElseTail(chars, s.condition, s.thenBranch, SkipWs(chars, end))
    requires ReadsAsStmt(ElseTail(chars, s.condition, s.thenBranch, SkipWs(chars, end)), s, chars, whole)
    ensures ReadsAsStmt(StatementAt(chars, pos), s, chars, whole)
  {
    hide ElseTail, StatementAt, SkipWs, Settled;
  }

  lemma ElseTextIs(elseBranch: seq<Stmt>, beforeElse: bool, rest: string)
    ensures var b, x := StmtsText(elseBranch), ElseText(elseBranch, beforeElse);
            if elseBranch == [] && !beforeElse then x == "" && x + rest == rest
            else x + rest == " " + ("else" + (" {" + (b + (" }" + rest)))) && |x| == 1 + 4 + 2 + |b| + 2
  {
    hide StmtsText;
    var b := StmtsText(elseBranch);
    Regroup(" ", "else" + (" {" + (b + " }")), rest);
    Regroup("else", " {" + (b + " }"), rest);
    Regroup(" {", b + " }", rest);
    Regroup(b, " }", rest);
  }

  lemma ElseStarts(tail: string)
    ensures Apart(IsWhitespace, "else" + tail)
    ensures " {" + tail == " " + ("{" + tail)
  {
  }

  /** The else clause, said or unsaid. */
  lemma {:induction false} ElseReadsBack(s: Stmt, beforeElse: bool, chars: string, pos: nat, rest: string)
    requires s.If? && LegalStmt(s) && Reads(chars, pos, ElseText(s.elseBranch, beforeElse) + rest)
    requires NoStrayElse(s, beforeElse, chars, pos + |ElseText(s.elseBranch, beforeElse)|)
    ensures pos <= |chars|
    ensures ReadsAsStmt(ElseTail(chars, s.condition, s.thenBranch, SkipWs(chars, pos)), s, chars,
                        pos + |ElseText(s.elseBranch, beforeElse)|)
    decreases s, 0, 0
  {
    hide *;
    IfParts(s);
    ElseTextIs(s.elseBranch, beforeElse, rest);
    ReadsFits(chars, pos, ElseText(s.elseBranch, beforeElse) + rest);
    var b := StmtsText(s.elseBranch);
    if s.elseBranch == [] && !beforeElse {
      Unstray(s, beforeElse, chars, pos);
      ElseTailOmitted(chars, s.condition, s.thenBranch, SkipWs(chars, pos));
      OmittedIsRead(s, chars, pos);
    } else {
      var tail := b + (" }" + rest);
      ElseStarts(tail);
      ElseStarts(" {" + tail);
      NextAfterSpace(chars, pos, "else" + (" {" + tail));
      NextIsThere(chars, pos, pos + 1, "else" + (" {" + tail));
      ElseIsThere(chars, pos + 1, "{" + tail);
      BlockOpens(chars, pos + 5, tail);
      ExactlySettled(chars, pos + 7);
      BlockReadsBack(s.elseBranch, chars, pos + 7, pos + 7, rest);
      var end := pos + 7 + |b| + 2;
      ReadsFits(chars, end, rest);
      ElseTailIs(chars, s.condition, s.thenBranch, pos + 1, s.elseBranch, end);
      ExactlySettled(chars, end);
      SaidIsRead(s, chars, pos + 1, end);
    }
  }

  lemma NextIsThere(chars: string, pos: nat, p: nat, s: string)
    requires ReadsNext(chars, pos, p, s)
    ensures pos <= |chars| && SkipWs(chars, pos) == p && Reads(chars, p, s)
  {
  }

  lemma Unstray(s: Stmt, beforeElse: bool, chars: string, end: nat)
    requires s.If? && s.elseBranch == [] && !beforeElse && NoStrayElse(s, beforeElse, chars, end)
    ensures end <= |chars| && !KeywordAt(chars, SkipWs(chars, end), "else")
  {
  }

  lemma OmittedIsRead(s: Stmt, chars: string, end: nat)
    requires s.If? && s.elseBranch == [] && end <= |chars|
    requires ElseTail(chars, s.condition, s.thenBranch, SkipWs(chars, end)) ==
             Ok(If(s.condition, s.thenBranch, []), SkipWs(chars, end))
    ensures ReadsAsStmt(ElseTail(chars, s.condition, s.thenBranch, SkipWs(chars, end)), s, chars, end)
  {
    hide ElseTail;
    ExactlySettled(chars, end);
  }

  lemma SaidIsRead(s: Stmt, chars: string, pos: nat, end: nat)
    requires s.If? && pos <= |chars| && Settled(chars, end, end)
    requires ElseTail(chars, s.condition, s.thenBranch, pos) == Ok(If(s.condition, s.thenBranch, s.elseBranch), end)
    ensures ReadsAsStmt(ElseTail(chars, s.condition, s.thenBranch, pos), s, chars, end)
  {
    hide ElseTail;
  }

  // ----- Lists of statements -----

  lemma StmtsTextIs(ss: seq<Stmt>, rest: string)
    ensures ss == [] ==> StmtsText(ss) + rest == rest && StmtsText(ss) == ""
    ensures ss != [] ==>
      var first := StmtText(ss[0], LedByElse(ss[1..]));
      StmtsText(ss) + rest == " " + (first + (StmtsText(ss[1..]) + rest)) &&
        |StmtsText(ss)| == 1 + |first| + |StmtsText(ss[1..])|
  {
    hide StmtText;
    if ss != [] {
      var first := StmtText(ss[0], LedByElse(ss[1..]));
      Regroup(" ", first + StmtsText(ss[1..]), rest);
      Regroup(first, StmtsText(ss[1..]), rest);
    }
  }

  /** A printed statement begins with its word, and the word ends there. */
  lemma StmtBegins(s: Stmt, beforeElse: bool, chars: string, pos: nat, rest: string)
    requires LegalStmt(s) && Reads(chars, pos, StmtText(s, beforeElse) + rest)
    ensures Apart(IsWhitespace, StmtText(s, beforeElse) + rest)
    ensures pos < |chars| && chars[pos] != '}'
    ensures Leader(s) != "else" ==> !KeywordAt(chars, pos, "else")
  {
    hide *;
    StmtTextIs(s, beforeElse);
    LeaderIsIdent(s);
    var tail := StmtTail(s, beforeElse) + rest;
    Regroup(Leader(s), StmtTail(s, beforeElse), rest);
    TailStartsOutside(StmtTail(s, beforeElse), rest);
    IdentIsNotWhite(Leader(s), tail);
    FirstOfWord(Leader(s), chars, pos, tail);
    if Leader(s) != "else" {
      ElseIsNotThere(chars, pos, Leader(s), tail);
    }
  }

  lemma FirstOfWord(word: string, chars: string, pos: nat, tail: string)
    requires Ident(word) && Reads(chars, pos, word + tail)
    ensures pos < |chars| && chars[pos] != '}'
  {
    hide IdentStart, IdentContinue;
    IdentStartsContinue(word[0]);
    assert chars[pos..][0] == chars[pos];
  }

  /** Behind a statement in a list stands nothing that could be its else clause. */
  lemma NoElseFollows(s: Stmt, others: seq<Stmt>, chars: string, end: nat, rest: string)
    requires (forall t :: t in others ==> LegalStmt(t)) && Reads(chars, end, StmtsText(others) + rest)
    requires others == [] ==> end <= |chars| && !KeywordAt(chars, SkipWs(chars, end), "else")
    ensures NoStrayElse(s, LedByElse(others), chars, end)
  {
    hide StmtText, Reads, KeywordAt, SkipWs, LegalStmt, Leader;
    if others != [] && !LedByElse(others) {
      var first := StmtText(others[0], LedByElse(others[1..]));
      var tail := first + (StmtsText(others[1..]) + rest);
      StmtsTextIs(others, rest);
      Step(chars, end, " ", tail);
      StmtBegins(others[0], LedByElse(others[1..]), chars, end + 1, StmtsText(others[1..]) + rest);
      NextAfterSpace(chars, end, tail);
    }
  }

  /** A list of statements starts with a space and its first statement. */
  lemma ListStarts(ss: seq<Stmt>, chars: string, p0: nat, rest: string)
    requires ss != [] && LegalStmt(ss[0]) && Reads(chars, p0, StmtsText(ss) + rest)
    ensures var first, tail := StmtText(ss[0], LedByElse(ss[1..])), StmtsText(ss[1..]) + rest;
            var end := p0 + 1 + |first|;
            && ReadsNext(chars, p0, p0 + 1, first + tail) && Reads(chars, p0 + 1, first + tail)
            && p0 + 1 < |chars| && chars[p0 + 1] != '}'
            && Reads(chars, end, tail) && end <= |chars|
            && |StmtsText(ss)| == 1 + |first| + |StmtsText(ss[1..])|
  {
    hide *;
    var first, tail := StmtText(ss[0], LedByElse(ss[1..])), StmtsText(ss[1..]) + rest;
    StmtsTextIs(ss, rest);
    Step(chars, p0, " ", first + tail);
    StmtBegins(ss[0], LedByElse(ss[1..]), chars, p0 + 1, tail);
    NextAfterSpace(chars, p0, first + tail);
    Step(chars, p0 + 1, first, tail);
    ReadsFits(chars, p0 + 1 + |first|, tail);
  }

  lemma NoElseInBlockEnd(others: seq<Stmt>, chars: string, end: nat, rest: string)
    requires others == [] && Reads(chars, end, StmtsText(others) + (" }" + rest))
    ensures end <= |chars| && !KeywordAt(chars, SkipWs(chars, end), "else")
  {
    hide *;
    StmtsTextIs(others, " }" + rest);
    ReadsFits(chars, end, " }" + rest);
    ExactlySettled(chars, end);
    BlockItemsEnd(chars, end, end, rest);
    NoElseAtBrace(chars, end + 1);
  }

  lemma BlockItemsEnd(chars: string, p0: nat, q: nat, rest: string)
    requires Settled(chars, p0, q) && Reads(chars, p0, " }" + rest)
    ensures BlockItems(chars, q) == Ok([], p0 + 2) && Reads(chars, p0 + 2, rest)
    ensures SkipWs(chars, p0) == p0 + 1 && At(chars, p0 + 1, '}')
  {
    hide Reads, SkipWs, StatementAt;
    assert " }" + rest == " " + ("}" + rest);
    PunctuationStarts('}', rest);
    NextAfterSpace(chars, p0, "}" + rest);
    NextIs(chars, p0 + 1, '}', rest);
  }

  lemma BlockItemsGoOn(chars: string, q: nat, p: nat, s: Stmt, end: nat)
    requires q <= |chars| && SkipWs(chars, q) == p && p < |chars| && chars[p] != '}'
    requires ReadsAsStmt(StatementAt(chars, p), s, chars, end)
    ensures StatementAt(chars, p).Ok?
    ensures var next := StatementAt(chars, p).next;
            Settled(chars, end, next) && next <= |chars| && BlockItems(chars, q) == Cons(s, BlockItems(chars, next))
  {
    hide SkipWs, StatementAt, Settled;
    SettledFits(chars, end, StatementAt(chars, p).next);
  }

  /** A block's statements and its closing brace. */
  lemma {:induction false} BlockReadsBack(ss: seq<Stmt>, chars: string, p0: nat, q: nat, rest: string)
    requires (forall t :: t in ss ==> LegalStmt(t)) && Settled(chars, p0, q)
    requires Reads(chars, p0, StmtsText(ss) + (" }" + rest))
    ensures q <= |chars| && BlockItems(chars, q) == Ok(ss, p0 + |StmtsText(ss)| + 2)
    ensures Reads(chars, p0 + |StmtsText(ss)| + 2, rest)
    decreases ss, 1
  {
    hide *;
    StmtsTextIs(ss, " }" + rest);
    SettledBounds(chars, p0, q);
    if ss == [] {
      BlockItemsEnd(chars, p0, q, rest);
    } else {
      var first, others := StmtText(ss[0], LedByElse(ss[1..])), ss[1..];
      var tail := StmtsText(others) + (" }" + rest);
      ListStarts(ss, chars, p0, " }" + rest);
      SettledNext(chars, p0, q, p0 + 1, first + tail);
      NextIsThere(chars, q, p0 + 1, first + tail);
      var end := p0 + 1 + |first|;
      if others == [] {
        NoElseInBlockEnd(others, chars, end, rest);
      }
      NoElseFollows(ss[0], others, chars, end, " }" + rest);
      StmtReadsBack(ss[0], LedByElse(others), chars, p0 + 1, tail);
      BlockItemsGoOn(chars, q, p0 + 1, ss[0], end);
      BlockReadsBack(others, chars, end, StatementAt(chars, p0 + 1).next, rest);
      ConsIs(ss, BlockItems(chars, StatementAt(chars, p0 + 1).next));
    }
  }

  lemma SettledBounds(chars: string, end: nat, q: nat)
    requires Settled(chars, end, q)
    ensures end <= q <= |chars|
  {
  }

  lemma ConsIs(ss: seq<Stmt>, r: Reading<seq<Stmt>>)
    requires ss != [] && r.Ok? && r.value == ss[1..]
    ensures Cons(ss[0], r) == Ok(ss, r.next)
  {
    assert ss == [ss[0]] + ss[1..];
  }

  // ----- Programs -----

  lemma ProgramEnds(chars: string)
    ensures SkipWs(chars, |chars|) == |chars| && ProgramItems(chars, |chars|) == Ok([], |chars|)
  {
  }

  lemma ProgramGoesOn(chars: string, p: nat, s: Stmt, end: nat)
    requires p < |chars| && ReadsAsStmt(StatementAt(chars, p), s, chars, end)
    ensures end <= |chars| && ProgramItems(chars, p) == Cons(s, ProgramItems(chars, SkipWs(chars, end)))
  {
    hide SkipWs, StatementAt;
  }

  lemma {:induction false} StatementsReadBack(ss: seq<Stmt>, chars: string, p0: nat)
    requires (forall t :: t in ss ==> LegalStmt(t)) && Reads(chars, p0, StmtsText(ss))
    ensures p0 <= |chars| && ProgramItems(chars, SkipWs(chars, p0)) == Ok(ss, |chars|)
    decreases |ss|
  {
    hide *;
    StmtsTextIs(ss, "");
    WithNothing(StmtsText(ss));
    ReadsFits(chars, p0, StmtsText(ss));
    if ss == [] {
      ProgramEnds(chars);
    } else {
      var first, others := StmtText(ss[0], LedByElse(ss[1..])), ss[1..];
      WithNothing(StmtsText(others));
      var tail := StmtsText(others);
      ListStarts(ss, chars, p0, "");
      WithNothing(StmtsText(ss));
      NextIsThere(chars, p0, p0 + 1, first + tail);
      var end := p0 + 1 + |first|;
      if others == [] {
        StmtsTextIs(others, "");
        ProgramEnds(chars);
        NoElseAtBrace(chars, end);
      }
      NoElseFollows(ss[0], others, chars, end, "");
      StmtReadsBack(ss[0], LedByElse(others), chars, p0 + 1, tail);
      ProgramGoesOn(chars, p0 + 1, ss[0], end);
      StatementsReadBack(others, chars, end);
      ConsIs(ss, ProgramItems(chars, SkipWs(chars, end)));
    }
  }

  lemma WithNothing(s: string)
    ensures s + "" == s
  {
  }

  /** Printing any legal program and parsing the text gives the program back. */
  lemma PrintedProgramParses(ss: seq<Stmt>)
    requires forall t :: t in ss ==> LegalStmt(t)
    ensures Program(StmtsText(ss)) == Ok(ss, |StmtsText(ss)|)
  {
    hide SkipWs, ProgramItems, StmtsText, LegalStmt;
    var chars := StmtsText(ss);
    assert chars[0..] == chars;
    StatementsReadBack(ss, chars, 0);
  }

  // ----- Why an empty else clause must sometimes be said -----

  /** Calls and assignments to something named `else` go on with a bracket or a point, never with a block. */
  lemma NoBlockAfterElse(t: Stmt, beforeElse: bool)
    requires LegalStmt(t) && Leader(t) == "else"
    ensures StmtTail(t, beforeElse) != "" && (StmtTail(t, beforeElse)[0] == '(' || StmtTail(t, beforeElse)[0] == '.')
  {
    hide Print, StmtsText, ArgsText;
  }

  lemma NoBlockIsError(chars: string, pos: nat, condition: Expr, thenBranch: seq<Stmt>, tail: string)
    requires Reads(chars, pos, tail) && tail != "" && (tail[0] == '(' || tail[0] == '.')
    requires pos >= 4 && KeywordAt(chars, pos - 4, "else")
    ensures pos <= |chars| && ElseTail(chars, condition, thenBranch, pos - 4).Err?
  {
    hide SkipWs, BlockItems;
    PunctuationStarts(tail[0], tail[1..]);
    assert tail == [tail[0]] + tail[1..];
    NextHere(chars, pos, tail);
    NextIs(chars, pos, tail[0], tail[1..]);
  }

  /** Without its empty else clause a conditional cannot be read in front of a statement led by `else`. */
  lemma UnsaidElseIsRefused(s: Stmt, t: Stmt, beforeElse: bool, chars: string, pos: nat, rest: string)
    requires s.If? && s.elseBranch == [] && LegalStmt(s) && LegalStmt(t) && Leader(t) == "else"
    requires Reads(chars, pos, StmtText(s, false) + (" " + (StmtText(t, beforeElse) + rest)))
    ensures pos <= |chars| && StatementAt(chars, pos).Err?
  {
    hide *;
    var tail := StmtTail(t, beforeElse) + rest;
    var next := " " + (StmtText(t, beforeElse) + rest);
    StmtTextIs(s, false);
    StmtTextIs(t, beforeElse);
    LeaderIsIdent(s);
    Regroup(Leader(s), StmtTail(s, false), next);
    Regroup(Leader(t), StmtTail(t, beforeElse), rest);
    TailStartsOutside(StmtTail(s, false), next);
    LeaderReadsBack(Leader(s), chars, pos, StmtTail(s, false) + next);
    IfHeadReadsBack(s, false, chars, pos, next);
    ElseTextIs(s.elseBranch, false, next);
    var end := ElseStart(s, pos);
    ElseStarts(tail);
    NextAfterSpace(chars, end, "else" + tail);
    NextIsThere(chars, end, end + 1, "else" + tail);
    Step(chars, end + 1, "else", tail);
    NoBlockAfterElse(t, beforeElse);
    ElseLooksLikeKeyword(chars, end + 1, tail);
    FirstOf(StmtTail(t, beforeElse), rest);
    NoBlockIsError(chars, end + 5, s.condition, s.thenBranch, tail);
  }

  lemma FirstOf(a: string, b: string)
    requires a != ""
    ensures a + b != "" && (a + b)[0] == a[0]
  {
  }

  lemma ElseLooksLikeKeyword(chars: string, pos: nat, tail: string)
    requires Reads(chars, pos, "else" + tail)
    ensures tail != "" && (tail[0] == '(' || tail[0] == '.') ==> KeywordAt(chars, pos, "else")
  {
    Step(chars, pos, "else", tail);
    SpelledReads(chars, pos, "else");
    assert tail != "" ==> chars[pos + 4..][0] == chars[pos + 4];
  }
}
