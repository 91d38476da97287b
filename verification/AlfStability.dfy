/** Whatever the parser accepts can be printed, so parsing, printing and parsing again is stable. */
module AlfStability {
  import opened SysmlModel
  import opened Scanning
  import opened AlfSyntax
  import opened AlfPrinter
  import opened AlfRoundTrip

  lemma {:induction false} RunIsInClass(inClass: char -> bool, chars: string, pos: nat)
    requires pos <= |chars|
    ensures forall i :: pos <= i < RunEnd(inClass, chars, pos) ==> inClass(chars[i])
    decreases |chars| - pos
  {
    if pos < |chars| && inClass(chars[pos]) {
      RunIsInClass(inClass, chars, pos + 1);
    }
  }

  lemma RawIdentIsIdent(chars: string, pos: nat)
    requires pos <= |chars| && RawIdent(chars, pos).Some?
    ensures Ident(RawIdent(chars, pos).value)
  {
    RunIsInClass(IdentContinue, chars, pos);
  }

  lemma IdentIsIdent(chars: string, pos: nat)
    requires pos <= |chars|
    ensures IdentAt(chars, pos).Ok? ==> Ident(IdentAt(chars, pos).value)
  {
    hide RawIdent, Ident;
    if RawIdent(chars, pos).Some? {
      RawIdentIsIdent(chars, pos);
    }
  }

  // ----- Expressions -----

  ghost predicate LegalIfRead(r: Reading<Expr>) {
    r.Ok? ==> Legal(r.value)
  }

  lemma NumberIsLegal(chars: string, pos: nat)
    requires pos < |chars| && IsDigit(chars[pos])
    ensures LegalIfRead(NumberAt(chars, pos))
  {
    var end := RunEnd(IsDigit, chars, pos);
    if At(chars, end, '.') && end + 1 < |chars| && IsDigit(chars[end + 1]) {
      assert RunEnd(IsDigit, chars, end + 1) == RunEnd(IsDigit, chars, end + 2);
    }
  }

  lemma AfterIdentIsLegal(chars: string, start: nat, word: string, pos: nat)
    requires start < pos <= |chars| && Ident(word)
    ensures LegalIfRead(AfterIdent(chars, start, word, pos))
  {
    hide Ident, SkipWs, IdentAt;
    var p := if IsCollection(word) then SkipWs(chars, pos) else pos;
    if At(chars, p, '.') {
      IdentIsIdent(chars, p + 1);
    }
  }

  lemma AtomIsLegal(chars: string, pos: nat)
    requires pos <= |chars|
    ensures LegalIfRead(AtomAt(chars, pos))
  {
    hide Ident, NumberAt, AfterIdent, RawIdent, StringTail;
    if pos < |chars| && IsDigit(chars[pos]) {
      NumberIsLegal(chars, pos);
    }
    if RawIdent(chars, pos).Some? {
      RawIdentIsIdent(chars, pos);
      AfterIdentIsLegal(chars, pos, RawIdent(chars, pos).value, pos + |RawIdent(chars, pos).value|);
    }
  }

  lemma {:induction false} ExprIsLegal(chars: string, level: nat, pos: nat)
    requires pos <= |chars| && level <= UnaryLevel
    ensures LegalIfRead(ExprAt(chars, level, pos))
    decreases |chars| - pos, 8 - level
  {
    hide SkipWs, RestAt, UnaryAt, Legal;
    if level == UnaryLevel {
      UnaryIsLegal(chars, SkipWs(chars, pos));
    } else {
      ExprIsLegal(chars, level + 1, pos);
      var left := ExprAt(chars, level + 1, pos);
      if left.Ok? {
        RestIsLegal(chars, level, left.value, left.next);
      }
    }
  }

  lemma {:induction false} RestIsLegal(chars: string, level: nat, left: Expr, pos: nat)
    requires pos <= |chars| && level < UnaryLevel && Legal(left)
    ensures LegalIfRead(RestAt(chars, level, left, pos))
    decreases |chars| - pos, 9
  {
    hide SkipWs, ExprAt, OperatorAt, OpText;
    var p := SkipWs(chars, pos);
    var op := OperatorAt(chars, level, p);
    if op.Some? {
      var start := SkipWs(chars, p + |OpText(op.value)|);
      ExprIsLegal(chars, level + 1, start);
      var right := ExprAt(chars, level + 1, start);
      if right.Ok? && level != CmpLevel {
        RestIsLegal(chars, level, Binary(op.value, left, right.value), right.next);
      }
    }
  }

  lemma {:induction false} UnaryIsLegal(chars: string, pos: nat)
    requires pos <= |chars|
    ensures LegalIfRead(UnaryAt(chars, pos))
    decreases |chars| - pos, 1
  {
    hide SkipWs, ExprAt, AtomAt, Expect;
    if At(chars, pos, '!') {
      ExprIsLegal(chars, UnaryLevel, SkipWs(chars, pos + 1));
    } else if At(chars, pos, '(') {
      ExprIsLegal(chars, OrLevel, SkipWs(chars, pos + 1));
    } else {
      AtomIsLegal(chars, pos);
    }
  }

  // ----- Statements -----

  lemma {:induction false} ArgItemsAreLegal(chars: string, pos: nat)
    requires pos <= |chars|
    ensures ArgItems(chars, pos).Ok? ==> forall a :: a in ArgItems(chars, pos).value ==> Legal(a)
    decreases |chars| - pos
  {
    hide SkipWs, ExprAt, Expect, Legal;
    var start := SkipWs(chars, pos);
    ExprIsLegal(chars, OrLevel, start);
    var r := ExprAt(chars, OrLevel, start);
    if r.Ok? {
      var p := SkipWs(chars, r.next);
      if At(chars, p, ',') {
        ArgItemsAreLegal(chars, p + 1);
      }
    }
  }

  lemma CallIsLegal(chars: string, pos: nat)
    requires pos <= |chars|
    ensures ArgsUpToSemicolon(chars, pos).Ok? ==> forall a :: a in ArgsUpToSemicolon(chars, pos).value ==> Legal(a)
  {
    hide SkipWs, ArgItems, Expect, Legal;
    ArgItemsAreLegal(chars, SkipWs(chars, pos));
  }

  lemma ValueIsLegal(chars: string, pos: nat, token: string)
    requires pos <= |chars| && token != ""
    ensures LegalIfRead(ExprUpTo(chars, pos, token))
  {
    hide SkipWs, ExprAt, Expect, Legal;
    ExprIsLegal(chars, OrLevel, SkipWs(chars, pos));
  }

  ghost predicate LegalStmtIfRead(r: Reading<Stmt>) {
    r.Ok? ==> LegalStmt(r.value)
  }

  ghost predicate LegalStmts(ss: seq<Stmt>) {
    forall t :: t in ss ==> LegalStmt(t)
  }

  lemma LetIsLegal(chars: string, pos: nat)
    requires pos <= |chars|
    ensures LegalStmtIfRead(LetTail(chars, pos))
  {
    hide SkipWs, IdentAt, Ident, ExprUpTo, Expect, Legal;
    var start := SkipWs(chars, pos);
    IdentIsIdent(chars, start);
    var name := IdentAt(chars, start);
    if name.Ok? && Expect(chars, name.next, "=").Ok? {
      ValueIsLegal(chars, Expect(chars, name.next, "=").next, ";");
    }
  }

  lemma SendIsLegal(chars: string, pos: nat)
    requires pos <= |chars|
    ensures LegalStmtIfRead(SendTail(chars, pos))
  {
    hide SkipWs, IdentAt, Ident, ArgsUpToSemicolon, Expect, Legal;
    var start := SkipWs(chars, pos);
    IdentIsIdent(chars, start);
    var name := IdentAt(chars, start);
    if name.Ok? && Expect(chars, name.next, "(").Ok? {
      CallIsLegal(chars, Expect(chars, name.next, "(").next);
    }
  }

  lemma NamedIsLegal(chars: string, start: nat, word: string, pos: nat)
    requires start <= pos <= |chars| && Ident(word) && !Keyword(word)
    ensures LegalStmtIfRead(NamedTail(chars, start, word, pos))
  {
    hide SkipWs, IdentAt, Ident, ExprUpTo, ArgsUpToSemicolon, Expect, Legal, Keyword;
    if At(chars, pos, '.') {
      IdentIsIdent(chars, pos + 1);
      var feature := IdentAt(chars, pos + 1);
      if feature.Ok? && Expect(chars, feature.next, "=").Ok? {
        ValueIsLegal(chars, Expect(chars, feature.next, "=").next, ";");
      }
    } else if At(chars, SkipWs(chars, pos), '(') {
      CallIsLegal(chars, SkipWs(chars, pos) + 1);
    }
  }

  lemma ConditionIsLegal(chars: string, pos: nat)
    requires pos <= |chars|
    ensures LegalIfRead(ConditionAt(chars, pos))
  {
    hide ExprUpTo, Expect, Legal;
    if Expect(chars, pos, "(").Ok? {
      ValueIsLegal(chars, Expect(chars, pos, "(").next, ")");
    }
  }

  lemma {:induction false} StatementIsLegal(chars: string, pos: nat)
    requires pos <= |chars|
    ensures LegalStmtIfRead(StatementAt(chars, pos))
    decreases |chars| - pos, 0
  {
    hide SkipWs, RawIdent, Ident, LetTail, SendTail, NamedTail, ConditionAt, BlockAt, ElseTail, Legal, LegalStmt;
    var start := SkipWs(chars, pos);
    var word := RawIdent(chars, start);
    if word.Some? {
      var p := start + |word.value|;
      RawIdentIsIdent(chars, start);
      if word.value == "let" {
        LetIsLegal(chars, p);
      } else if word.value == "send" {
        SendIsLegal(chars, p);
      } else if word.value == "if" {
        ConditionIsLegal(chars, p);
        var condition := ConditionAt(chars, p);
        if condition.Ok? {
          BlockIsLegal(chars, condition.next);
          var block := BlockAt(chars, condition.next);
          if block.Ok? {
            ElseIsLegal(chars, condition.value, block.value, SkipWs(chars, block.next));
          }
        }
      } else if word.value != "while" && word.value != "for" {
        NamedIsLegal(chars, start, word.value, p);
      }
    }
  }

  lemma {:induction false} ElseIsLegal(chars: string, condition: Expr, thenBranch: seq<Stmt>, pos: nat)
    requires pos <= |chars| && Legal(condition) && LegalStmts(thenBranch)
    ensures LegalStmtIfRead(ElseTail(chars, condition, thenBranch, pos))
    decreases |chars| - pos, 2
  {
    hide BlockAt, Legal, Spells;
    if KeywordAt(chars, pos, "else") {
      SpelledFits(chars, pos, "else");
      BlockIsLegal(chars, pos + 4);
    }
  }

  lemma {:induction false} BlockIsLegal(chars: string, pos: nat)
    requires pos <= |chars|
    ensures BlockAt(chars, pos).Ok? ==> LegalStmts(BlockAt(chars, pos).value)
    decreases |chars| - pos, 1
  {
    hide BlockItems, Expect, LegalStmts;
    if Expect(chars, pos, "{").Ok? {
      ItemsAreLegal(chars, Expect(chars, pos, "{").next);
    }
  }

  lemma {:induction false} ItemsAreLegal(chars: string, pos: nat)
    requires pos <= |chars|
    ensures BlockItems(chars, pos).Ok? ==> LegalStmts(BlockItems(chars, pos).value)
    decreases |chars| - pos, 1
  {
    hide StatementAt, SkipWs, LegalStmt;
    var p := SkipWs(chars, pos);
    if !At(chars, p, '}') && p < |chars| {
      StatementIsLegal(chars, p);
      var first := StatementAt(chars, p);
      if first.Ok? {
        ItemsAreLegal(chars, first.next);
      }
    }
  }

  lemma {:induction false} ProgramIsLegal(chars: string, pos: nat)
    requires pos <= |chars|
    ensures ProgramItems(chars, pos).Ok? ==> LegalStmts(ProgramItems(chars, pos).value)
    decreases |chars| - pos
  {
    hide StatementAt, SkipWs, LegalStmt;
    if pos < |chars| {
      StatementIsLegal(chars, pos);
      var first := StatementAt(chars, pos);
      if first.Ok? {
        ProgramIsLegal(chars, SkipWs(chars, first.next));
      }
    }
  }

  /** Every program that the parser accepts, from any text, is parsed again from its printed form. */
  lemma ParsedProgramPrints(source: string)
    ensures Program(source).Ok? ==>
      var ss := Program(source).value;
      LegalStmts(ss) && Program(StmtsText(ss)) == Ok(ss, |StmtsText(ss)|)
  {
    hide ProgramItems, SkipWs, LegalStmt, StmtsText;
    ProgramIsLegal(source, SkipWs(source, 0));
    if Program(source).Ok? {
      PrintedProgramParses(Program(source).value);
    }
  }
}
