/** The recursive-descent parser of the action language, reading through a cursor; each method reads what
    the grammar function of the same construct says is there. */
module AlfParser {
  import opened SysmlModel
  import opened Scanning
  import opened ReadingBack
  import opened Decimals
  import opened AlfSyntax

  // ----- Tokens -----

  method TryConsume(cursor: Cursor, s: string) returns (found: bool)
    requires cursor.Valid()
    modifies cursor
    ensures cursor.Valid()
    ensures found == Spells(cursor.chars, old(cursor.pos), s)
    ensures cursor.pos == if found then old(cursor.pos) + |s| else old(cursor.pos)
  {
    hide LineAt, ColAt;
    for i := 0 to |s|
      invariant cursor.Valid() && cursor.pos == old(cursor.pos)
      invariant Spells(cursor.chars, cursor.pos + i, s[i..]) == Spells(cursor.chars, cursor.pos, s)
    {
      assert s[i..][1..] == s[i + 1..];
      if !cursor.Sees(s[i], i) {
        return false;
      }
    }
    SpelledFits(cursor.chars, cursor.pos, s);
    for i := 0 to |s|
      invariant cursor.Valid() && cursor.pos == old(cursor.pos) + i
    {
      var _ := cursor.Advance();
    }
    return true;
  }

  method ExpectToken(cursor: Cursor, token: string) returns (r: Reading<string>)
    requires cursor.Valid() && token != ""
    modifies cursor
    ensures cursor.Valid()
    ensures r == Expect(cursor.chars, old(cursor.pos), token)
    ensures r.Ok? ==> cursor.pos == r.next
  {
    hide LineAt, ColAt, SkipWs, Spells;
    cursor.SkipWhitespace();
    var found := TryConsume(cursor, token);
    if found {
      return Ok(token, cursor.pos);
    }
    return Err(CompileError(Expected(token), cursor.Mark()));
  }

  method ParseRawIdent(cursor: Cursor) returns (r: Option<string>)
    requires cursor.Valid()
    modifies cursor
    ensures cursor.Valid()
    ensures r == RawIdent(cursor.chars, old(cursor.pos))
    ensures cursor.pos == if r.Some? then old(cursor.pos) + |r.value| else old(cursor.pos)
  {
    hide RunEnd, LineAt, ColAt;
    if cursor.Eof() || !IdentStart(cursor.chars[cursor.pos]) {
      return None;
    }
    var s := ReadRun(IdentContinue, cursor);
    return Some(s);
  }

  method ParseIdent(cursor: Cursor) returns (r: Reading<string>)
    requires cursor.Valid()
    modifies cursor
    ensures cursor.Valid()
    ensures r == IdentAt(cursor.chars, old(cursor.pos))
    ensures r.Ok? ==> cursor.pos == r.next
  {
    hide RunEnd, LineAt, ColAt, RawIdent;
    var start := cursor.Mark();
    var s := ParseRawIdent(cursor);
    if s.None? {
      return Err(CompileError(ExpectedIdentifier, start));
    }
    return Ok(s.value, cursor.pos);
  }

  lemma PrependNothing(rest: Reading<string>)
    ensures Prepend("", rest) == rest
  {
    if rest.Ok? {
      assert "" + rest.value == rest.value;
    }
  }

  lemma PrependTwice(done: string, s: string, rest: Reading<string>)
    ensures Prepend(done, Prepend(s, rest)) == Prepend(done + s, rest)
  {
    if rest.Ok? {
      assert done + (s + rest.value) == (done + s) + rest.value;
    }
  }

  method ParseStringLiteral(cursor: Cursor) returns (r: Reading<string>)
    requires cursor.Valid() && cursor.Sees('"')
    modifies cursor
    ensures cursor.Valid()
    ensures r == StringTail(cursor.chars, old(cursor.pos), old(cursor.pos) + 1)
    ensures r.Ok? ==> cursor.pos == r.next
  {
    hide LineAt, ColAt, Unescape;
    ghost var chars, open := cursor.chars, cursor.pos;
    var start := cursor.Mark();
    var _ := cursor.Advance();
    var s := "";
    PrependNothing(StringTail(chars, open, cursor.pos));
    while true
      invariant cursor.Valid() && open < cursor.pos
      invariant StringTail(chars, open, open + 1) == Prepend(s, StringTail(chars, open, cursor.pos))
      decreases |chars| - cursor.pos
    {
      ghost var before := cursor.pos;
      var c := cursor.Advance();
      if c.None? {
        return Err(CompileError(UnterminatedString, start));
      }
      if c.value == '"' {
        assert s + "" == s;
        return Ok(s, cursor.pos);
      }
      if c.value == '\\' {
        var escaped := cursor.Advance();
        if escaped.None? {
          return Err(CompileError(UnterminatedEscape, cursor.Mark()));
        }
        PrependTwice(s, Unescape(escaped.value), StringTail(chars, open, cursor.pos));
        s := s + Unescape(escaped.value);
      } else {
        PrependTwice(s, [c.value], StringTail(chars, open, cursor.pos));
        s := s + [c.value];
      }
    }
  }

  method ParseNumberLiteral(cursor: Cursor) returns (r: Reading<Expr>)
    requires cursor.Valid() && !cursor.Eof() && IsDigit(cursor.chars[cursor.pos])
    modifies cursor
    ensures cursor.Valid()
    ensures r == NumberAt(cursor.chars, old(cursor.pos))
    ensures r.Ok? ==> cursor.pos == r.next
  {
    hide LineAt, ColAt, RunEnd, Value;
    var start := cursor.Mark();
    RunIsDigits(cursor.chars, cursor.pos);
    var s := ReadRun(IsDigit, cursor);
    if cursor.Sees('.') && cursor.pos + 1 < |cursor.chars| && IsDigit(cursor.chars[cursor.pos + 1]) {
      var _ := cursor.Advance();
      var fraction := ReadRun(IsDigit, cursor);
      return Ok(Lit(Real(Value(s), fraction)), cursor.pos);
    }
    if Value(s) > MaxInt {
      return Err(CompileError(InvalidInteger(s), start));
    }
    return Ok(Lit(Int(Value(s))), cursor.pos);
  }

  // ----- Expressions, lowest precedence first -----

  method ParseExpr(cursor: Cursor) returns (r: Reading<Expr>)
    requires cursor.Valid()
    modifies cursor
    ensures cursor.Valid()
    ensures r == ExprAt(cursor.chars, OrLevel, old(cursor.pos))
    ensures r.Ok? ==> cursor.pos == r.next
    decreases |cursor.chars| - cursor.pos, 9
  {
    r := ParseOr(cursor);
  }

  method ParseOr(cursor: Cursor) returns (r: Reading<Expr>)
    requires cursor.Valid()
    modifies cursor
    ensures cursor.Valid()
    ensures r == ExprAt(cursor.chars, OrLevel, old(cursor.pos))
    ensures r.Ok? ==> cursor.pos == r.next
    decreases |cursor.chars| - cursor.pos, 8
  {
    hide LineAt, ColAt, SkipWs, UnaryAt, OperatorAt, Spells, OpText;
    ghost var chars := cursor.chars;
    r := ParseAnd(cursor);
    if r.Err? {
      return;
    }
    var left := r.value;
    while true
      invariant cursor.Valid() && old(cursor.pos) < cursor.pos
      invariant ExprAt(chars, OrLevel, old(cursor.pos)) == RestAt(chars, OrLevel, left, cursor.pos)
      decreases |chars| - cursor.pos
    {
      cursor.SkipWhitespace();
      LogicalOperator(chars, cursor.pos);
      var found := TryConsume(cursor, "||");
      if !found {
        return Ok(left, cursor.pos);
      }
      cursor.SkipWhitespace();
      r := ParseAnd(cursor);
      if r.Err? {
        return;
      }
      left := Binary(Or, left, r.value);
    }
  }

  lemma LogicalOperator(chars: string, pos: nat)
    ensures OperatorAt(chars, OrLevel, pos) == if Spells(chars, pos, "||") then Some(Or) else None
    ensures OperatorAt(chars, AndLevel, pos) == if Spells(chars, pos, "&&") then Some(And) else None
    ensures |OpText(Or)| == |OpText(And)| == 2
  {
    TwoSpelled(chars, pos, '|', '|');
    TwoSpelled(chars, pos, '&', '&');
  }

  lemma ArithmeticOperator(chars: string, pos: nat)
    ensures OperatorAt(chars, AddLevel, pos) ==
            if At(chars, pos, '+') then Some(Add)
            else if At(chars, pos, '-') then Some(Sub) else None
    ensures OperatorAt(chars, MulLevel, pos) ==
            if At(chars, pos, '*') then Some(Mul)
            else if At(chars, pos, '/') then Some(Div) else None
    ensures |OpText(Add)| == |OpText(Sub)| == |OpText(Mul)| == |OpText(Div)| == 1
  {
  }

  method ParseAnd(cursor: Cursor) returns (r: Reading<Expr>)
    requires cursor.Valid()
    modifies cursor
    ensures cursor.Valid()
    ensures r == ExprAt(cursor.chars, AndLevel, old(cursor.pos))
    ensures r.Ok? ==> cursor.pos == r.next
    decreases |cursor.chars| - cursor.pos, 7
  {
    hide LineAt, ColAt, SkipWs, UnaryAt, OperatorAt, Spells, OpText;
    ghost var chars := cursor.chars;
    r := ParseCmp(cursor);
    if r.Err? {
      return;
    }
    var left := r.value;
    while true
      invariant cursor.Valid() && old(cursor.pos) < cursor.pos
      invariant ExprAt(chars, AndLevel, old(cursor.pos)) == RestAt(chars, AndLevel, left, cursor.pos)
      decreases |chars| - cursor.pos
    {
      cursor.SkipWhitespace();
      LogicalOperator(chars, cursor.pos);
      var found := TryConsume(cursor, "&&");
      if !found {
        return Ok(left, cursor.pos);
      }
      cursor.SkipWhitespace();
      r := ParseCmp(cursor);
      if r.Err? {
        return;
      }
      left := Binary(And, left, r.value);
    }
  }

  method ParseCmp(cursor: Cursor) returns (r: Reading<Expr>)
    requires cursor.Valid()
    modifies cursor
    ensures cursor.Valid()
    ensures r == ExprAt(cursor.chars, CmpLevel, old(cursor.pos))
    ensures r.Ok? ==> cursor.pos == r.next
    decreases |cursor.chars| - cursor.pos, 6
  {
    hide LineAt, ColAt, SkipWs, UnaryAt, OperatorAt;
    ghost var chars := cursor.chars;
    r := ParseAdd(cursor);
    if r.Err? {
      return;
    }
    var left := r.value;
    cursor.SkipWhitespace();
    var op := ReadComparison(cursor);
    if op.None? {
      return Ok(left, cursor.pos);
    }
    cursor.SkipWhitespace();
    r := ParseAdd(cursor);
    if r.Err? {
      return;
    }
    return Ok(Binary(op.value, left, r.value), cursor.pos);
  }

  /** The comparison that stands here, if any: a longer one is tried before its own beginning. */
  method ReadComparison(cursor: Cursor) returns (op: Option<BinaryOp>)
    requires cursor.Valid()
    modifies cursor
    ensures cursor.Valid()
    ensures op == OperatorAt(cursor.chars, CmpLevel, old(cursor.pos))
    ensures cursor.pos == old(cursor.pos) + if op.Some? then |OpText(op.value)| else 0
  {
    hide LineAt, ColAt;
    var tokens := ["<=", ">=", "==", "!=", "<", ">"];
    var ops := [Le, Ge, Eq, Ne, Lt, Gt];
    ghost var chars, pos := cursor.chars, cursor.pos;
    TwoSpelled(chars, pos, '<', '=');
    TwoSpelled(chars, pos, '>', '=');
    TwoSpelled(chars, pos, '=', '=');
    TwoSpelled(chars, pos, '!', '=');
    OneSpelled(chars, pos, '<');
    OneSpelled(chars, pos, '>');
    for i := 0 to |tokens|
      invariant cursor.Valid() && cursor.pos == pos
      invariant forall j :: 0 <= j < i ==> !Spells(chars, pos, tokens[j])
    {
      var found := TryConsume(cursor, tokens[i]);
      if found {
        return Some(ops[i]);
      }
    }
    assert !Spells(chars, pos, tokens[0]) && !Spells(chars, pos, tokens[1]) && !Spells(chars, pos, tokens[2])
      && !Spells(chars, pos, tokens[3]) && !Spells(chars, pos, tokens[4]) && !Spells(chars, pos, tokens[5]);
    return None;
  }

  method ParseAdd(cursor: Cursor) returns (r: Reading<Expr>)
    requires cursor.Valid()
    modifies cursor
    ensures cursor.Valid()
    ensures r == ExprAt(cursor.chars, AddLevel, old(cursor.pos))
    ensures r.Ok? ==> cursor.pos == r.next
    decreases |cursor.chars| - cursor.pos, 5
  {
    hide LineAt, ColAt, SkipWs, UnaryAt, OperatorAt, OpText;
    ghost var chars := cursor.chars;
    r := ParseMul(cursor);
    if r.Err? {
      return;
    }
    var left := r.value;
    while true
      invariant cursor.Valid() && old(cursor.pos) < cursor.pos
      invariant ExprAt(chars, AddLevel, old(cursor.pos)) == RestAt(chars, AddLevel, left, cursor.pos)
      decreases |chars| - cursor.pos
    {
      cursor.SkipWhitespace();
      ArithmeticOperator(chars, cursor.pos);
      var op := ReadEither(cursor, '+', Add, '-', Sub);
      if op.None? {
        return Ok(left, cursor.pos);
      }
      cursor.SkipWhitespace();
      r := ParseMul(cursor);
      if r.Err? {
        return;
      }
      left := Binary(op.value, left, r.value);
    }
  }

  method ReadEither(cursor: Cursor, a: char, opA: BinaryOp, b: char, opB: BinaryOp) returns (op: Option<BinaryOp>)
    requires cursor.Valid()
    modifies cursor
    ensures cursor.Valid()
    ensures op == if At(cursor.chars, old(cursor.pos), a) then Some(opA)
            else if At(cursor.chars, old(cursor.pos), b) then Some(opB) else None
    ensures cursor.pos == old(cursor.pos) + if op.Some? then 1 else 0
  {
    hide LineAt, ColAt;
    OneSpelled(cursor.chars, cursor.pos, a);
    OneSpelled(cursor.chars, cursor.pos, b);
    var found := TryConsume(cursor, [a]);
    if found {
      return Some(opA);
    }
    found := TryConsume(cursor, [b]);
    return if found then Some(opB) else None;
  }

  method ParseMul(cursor: Cursor) returns (r: Reading<Expr>)
    requires cursor.Valid()
    modifies cursor
    ensures cursor.Valid()
    ensures r == ExprAt(cursor.chars, MulLevel, old(cursor.pos))
    ensures r.Ok? ==> cursor.pos == r.next
    decreases |cursor.chars| - cursor.pos, 4
  {
    hide LineAt, ColAt, SkipWs, UnaryAt, OperatorAt, OpText;
    ghost var chars := cursor.chars;
    r := ParseUnary(cursor);
    if r.Err? {
      return;
    }
    var left := r.value;
    while true
      invariant cursor.Valid() && old(cursor.pos) < cursor.pos
      invariant ExprAt(chars, MulLevel, old(cursor.pos)) == RestAt(chars, MulLevel, left, cursor.pos)
      decreases |chars| - cursor.pos
    {
      cursor.SkipWhitespace();
      ArithmeticOperator(chars, cursor.pos);
      var op := ReadEither(cursor, '*', Mul, '/', Div);
      if op.None? {
        return Ok(left, cursor.pos);
      }
      cursor.SkipWhitespace();
      r := ParseUnary(cursor);
      if r.Err? {
        return;
      }
      left := Binary(op.value, left, r.value);
    }
  }

  method ParseUnary(cursor: Cursor) returns (r: Reading<Expr>)
    requires cursor.Valid()
    modifies cursor
    ensures cursor.Valid()
    ensures r == ExprAt(cursor.chars, UnaryLevel, old(cursor.pos))
    ensures r.Ok? ==> cursor.pos == r.next
    decreases |cursor.chars| - cursor.pos, 3
  {
    hide LineAt, ColAt, SkipWs, AtomAt, RestAt, Expect;
    ghost var chars := cursor.chars;
    cursor.SkipWhitespace();
    SkipTwice(chars, old(cursor.pos));
    OneSpelled(chars, cursor.pos, '!');
    var found := TryConsume(cursor, "!");
    if found {
      cursor.SkipWhitespace();
      r := ParseUnary(cursor);
      return if r.Ok? then Ok(Unary(Not, r.value), cursor.pos) else r;
    }
    r := ParsePrimary(cursor);
  }

  method ParsePrimary(cursor: Cursor) returns (r: Reading<Expr>)
    requires cursor.Valid() && !At(cursor.chars, SkipWs(cursor.chars, cursor.pos), '!')
    modifies cursor
    ensures cursor.Valid()
    ensures r == UnaryAt(cursor.chars, SkipWs(cursor.chars, old(cursor.pos)))
    ensures r.Ok? ==> cursor.pos == r.next
    decreases |cursor.chars| - cursor.pos, 2
  {
    hide LineAt, ColAt, RunEnd, StringTail, NumberAt, RawIdent, AfterIdent, ExprAt, RestAt, Expect;
    ghost var chars := cursor.chars;
    cursor.SkipWhitespace();
    var start := cursor.Mark();
    OneSpelled(chars, cursor.pos, '(');
    var found := TryConsume(cursor, "(");
    if found {
      cursor.SkipWhitespace();
      r := ParseExpr(cursor);
      if r.Err? {
        return;
      }
      var close := ExpectToken(cursor, ")");
      return if close.Ok? then Ok(r.value, cursor.pos) else Err(close.error);
    }
    if cursor.Sees('"') {
      var s := ParseStringLiteral(cursor);
      return if s.Ok? then Ok(Lit(Str(s.value)), cursor.pos) else Err(s.error);
    }
    if !cursor.Eof() && IsDigit(cursor.chars[cursor.pos]) {
      r := ParseNumberLiteral(cursor);
      return;
    }
    var ident := ParseRawIdent(cursor);
    if ident.None? {
      return Err(CompileError(ExpectedExpression, start));
    }
    r := ParseAfterIdent(cursor, start, ident.value);
  }

  method ParseAfterIdent(cursor: Cursor, start: Span, word: string) returns (r: Reading<Expr>)
    requires cursor.Valid() && start.start < cursor.pos && start == SpanAt(cursor.chars, start.start, start.start)
    modifies cursor
    ensures cursor.Valid()
    ensures r == AfterIdent(cursor.chars, start.start, word, old(cursor.pos))
    ensures r.Ok? ==> cursor.pos == r.next
  {
    hide LineAt, ColAt, SkipWs, IdentAt;
    if IsCollection(word) {
      cursor.SkipWhitespace();
      if cursor.Sees('{') {
        return Err(CompileError(Unsupported("collection/sequence expressions"), start));
      }
    }
    if word == "true" {
      return Ok(Lit(Bool(true)), cursor.pos);
    }
    if word == "false" {
      return Ok(Lit(Bool(false)), cursor.pos);
    }
    if cursor.Sees('.') {
      var _ := cursor.Advance();
      var feature := ParseIdent(cursor);
      return if feature.Ok? then Ok(PropertyAccess(word, feature.value), cursor.pos) else Err(feature.error);
    }
    return Ok(Var(word), cursor.pos);
  }

  lemma OneSpelled(chars: string, pos: nat, a: char)
    ensures Spells(chars, pos, [a]) <==> At(chars, pos, a)
  {
    assert [a][1..] == "";
  }

  lemma TwoSpelled(chars: string, pos: nat, a: char, b: char)
    ensures Spells(chars, pos, [a, b]) <==> At(chars, pos, a) && At(chars, pos + 1, b)
  {
    assert [a, b][1..] == [b];
    OneSpelled(chars, pos + 1, b);
  }

  // ----- Statements -----

  method ParseArglist(cursor: Cursor) returns (r: Reading<seq<Expr>>)
    requires cursor.Valid()
    modifies cursor
    ensures cursor.Valid()
    ensures r == ArgsAt(cursor.chars, old(cursor.pos))
    ensures r.Ok? ==> cursor.pos == r.next
  {
    hide LineAt, ColAt, SkipWs, ExprAt, Expect, Spells;
    ghost var chars := cursor.chars;
    var args: seq<Expr> := [];
    cursor.SkipWhitespace();
    if cursor.Sees(')') {
      var _ := cursor.Advance();
      return Ok(args, cursor.pos);
    }
    ghost var whole := ArgItems(chars, cursor.pos);
    AppendToNothing(whole);
    while true
      invariant cursor.Valid() && old(cursor.pos) <= cursor.pos
      invariant whole == Append(args, ArgItems(chars, cursor.pos))
      decreases |chars| - cursor.pos
    {
      ghost var rest := ArgItems(chars, cursor.pos);
      cursor.SkipWhitespace();
      var arg := ParseExpr(cursor);
      if arg.Err? {
        return Err(arg.error);
      }
      cursor.SkipWhitespace();
      OneSpelled(chars, cursor.pos, ',');
      var more := TryConsume(cursor, ",");
      if more {
        AppendCons(args, arg.value, ArgItems(chars, cursor.pos));
        args := args + [arg.value];
        continue;
      }
      var close := ExpectToken(cursor, ")");
      return if close.Ok? then Ok(args + [arg.value], cursor.pos) else Err(close.error);
    }
  }

  ghost function Append<T>(done: seq<T>, rest: Reading<seq<T>>): Reading<seq<T>> {
    if rest.Ok? then Ok(done + rest.value, rest.next) else rest
  }

  lemma AppendToNothing<T>(rest: Reading<seq<T>>)
    ensures Append([], rest) == rest
  {
    if rest.Ok? {
      assert [] + rest.value == rest.value;
    }
  }

  lemma AppendCons<T>(done: seq<T>, first: T, rest: Reading<seq<T>>)
    ensures Append(done, Cons(first, rest)) == Append(done + [first], rest)
  {
    if rest.Ok? {
      assert done + ([first] + rest.value) == (done + [first]) + rest.value;
    }
  }

  method ParseExprUpTo(cursor: Cursor, token: string) returns (r: Reading<Expr>)
    requires cursor.Valid() && token != ""
    modifies cursor
    ensures cursor.Valid()
    ensures r == ExprUpTo(cursor.chars, old(cursor.pos), token)
    ensures r.Ok? ==> cursor.pos == r.next
  {
    hide LineAt, ColAt, SkipWs, ExprAt, Expect;
    cursor.SkipWhitespace();
    r := ParseExpr(cursor);
    if r.Err? {
      return;
    }
    var end := ExpectToken(cursor, token);
    return if end.Ok? then Ok(r.value, cursor.pos) else Err(end.error);
  }

  method ParseArgsUpToSemicolon(cursor: Cursor) returns (r: Reading<seq<Expr>>)
    requires cursor.Valid()
    modifies cursor
    ensures cursor.Valid()
    ensures r == ArgsUpToSemicolon(cursor.chars, old(cursor.pos))
    ensures r.Ok? ==> cursor.pos == r.next
  {
    hide LineAt, ColAt, ArgsAt, Expect;
    r := ParseArglist(cursor);
    if r.Err? {
      return;
    }
    var end := ExpectToken(cursor, ";");
    return if end.Ok? then Ok(r.value, cursor.pos) else Err(end.error);
  }

  method ParseLet(cursor: Cursor) returns (r: Reading<Stmt>)
    requires cursor.Valid()
    modifies cursor
    ensures cursor.Valid()
    ensures r == LetTail(cursor.chars, old(cursor.pos))
    ensures r.Ok? ==> cursor.pos == r.next
  {
    hide LineAt, ColAt, SkipWs, IdentAt, ExprUpTo, Expect;
    cursor.SkipWhitespace();
    var name := ParseIdent(cursor);
    if name.Err? {
      return Err(name.error);
    }
    var equals := ExpectToken(cursor, "=");
    if equals.Err? {
      return Err(equals.error);
    }
    var value := ParseExprUpTo(cursor, ";");
    return if value.Ok? then Ok(Let(name.value, value.value), cursor.pos) else Err(value.error);
  }

  method ParseSend(cursor: Cursor) returns (r: Reading<Stmt>)
    requires cursor.Valid()
    modifies cursor
    ensures cursor.Valid()
    ensures r == SendTail(cursor.chars, old(cursor.pos))
    ensures r.Ok? ==> cursor.pos == r.next
  {
    hide LineAt, ColAt, SkipWs, IdentAt, ArgsUpToSemicolon, Expect;
    cursor.SkipWhitespace();
    var name := ParseIdent(cursor);
    if name.Err? {
      return Err(name.error);
    }
    var open := ExpectToken(cursor, "(");
    if open.Err? {
      return Err(open.error);
    }
    var args := ParseArgsUpToSemicolon(cursor);
    return if args.Ok? then Ok(SendSignal(name.value, args.value), cursor.pos) else Err(args.error);
  }

  method ParseAssignOrInvoke(cursor: Cursor, leadingIdent: string, start: Span) returns (r: Reading<Stmt>)
    requires cursor.Valid() && start.start <= cursor.pos && start == SpanAt(cursor.chars, start.start, start.start)
    modifies cursor
    ensures cursor.Valid()
    ensures r == NamedTail(cursor.chars, start.start, leadingIdent, old(cursor.pos))
    ensures r.Ok? ==> cursor.pos == r.next
  {
    hide LineAt, ColAt, SkipWs, IdentAt, ExprUpTo, ArgsUpToSemicolon, Expect;
    if cursor.Sees('.') {
      var _ := cursor.Advance();
      var feature := ParseIdent(cursor);
      if feature.Err? {
        return Err(feature.error);
      }
      var equals := ExpectToken(cursor, "=");
      if equals.Err? {
        return Err(equals.error);
      }
      var value := ParseExprUpTo(cursor, ";");
      return if value.Ok? then Ok(Assign(leadingIdent, feature.value, value.value), cursor.pos) else Err(value.error);
    }
    cursor.SkipWhitespace();
    if cursor.Sees('(') {
      var _ := cursor.Advance();
      var args := ParseArgsUpToSemicolon(cursor);
      return if args.Ok? then Ok(Invoke(leadingIdent, args.value), cursor.pos) else Err(args.error);
    }
    return Err(CompileError(ExpectedDotOrCall, start));
  }

  method ParseStatement(cursor: Cursor) returns (r: Reading<Stmt>)
    requires cursor.Valid()
    modifies cursor
    ensures cursor.Valid()
    ensures r == StatementAt(cursor.chars, old(cursor.pos))
    ensures r.Ok? ==> cursor.pos == r.next
    decreases |cursor.chars| - cursor.pos, 0
  {
    hide LineAt, ColAt, SkipWs, RawIdent, LetTail, SendTail, NamedTail, ConditionAt, BlockAt, ElseTail;
    cursor.SkipWhitespace();
    var start := cursor.Mark();
    var word := ParseRawIdent(cursor);
    if word.None? {
      return Err(CompileError(ExpectedStatement, start));
    }
    match word.value {
      case "while" => return Err(CompileError(Unsupported("loops"), start));
      case "for" => return Err(CompileError(Unsupported("loops"), start));
      case "let" => r := ParseLet(cursor);
      case "if" => r := ParseIf(cursor, old(cursor.pos), start.start);
      case "send" => r := ParseSend(cursor);
      case _ => r := ParseAssignOrInvoke(cursor, word.value, start);
    }
  }

  method ParseIf(cursor: Cursor, ghost pos: nat, ghost start: nat) returns (r: Reading<Stmt>)
    requires cursor.Valid() && pos < cursor.pos && start == SkipWs(cursor.chars, pos)
    requires RawIdent(cursor.chars, start) == Some("if") && cursor.pos == start + 2
    modifies cursor
    ensures cursor.Valid()
    ensures r == StatementAt(cursor.chars, pos)
    ensures r.Ok? ==> cursor.pos == r.next
    decreases |cursor.chars| - pos - 1, 3
  {
    hide LineAt, ColAt, SkipWs, RawIdent, LetTail, SendTail, NamedTail, BlockAt, ExprUpTo, Expect, Spells;
    ghost var chars := cursor.chars;
    var open := ExpectToken(cursor, "(");
    if open.Err? {
      return Err(open.error);
    }
    var condition := ParseExprUpTo(cursor, ")");
    if condition.Err? {
      return Err(condition.error);
    }
    var thenBranch := ParseBlock(cursor);
    if thenBranch.Err? {
      return Err(thenBranch.error);
    }
    cursor.SkipWhitespace();
    if PeekKeyword(cursor, "else") {
      SpelledFits(chars, cursor.pos, "else");
      ghost var here := cursor.pos;
      for i := 0 to 4
        invariant cursor.Valid() && cursor.pos == here + i
      {
        var _ := cursor.Advance();
      }
      var elseBranch := ParseBlock(cursor);
      return if elseBranch.Ok? then Ok(If(condition.value, thenBranch.value, elseBranch.value), cursor.pos)
        else Err(elseBranch.error);
    }
    return Ok(If(condition.value, thenBranch.value, []), cursor.pos);
  }

  predicate PeekKeyword(cursor: Cursor, keyword: string)
    reads cursor
  {
    KeywordAt(cursor.chars, cursor.pos, keyword)
  }

  method ParseBlock(cursor: Cursor) returns (r: Reading<seq<Stmt>>)
    requires cursor.Valid()
    modifies cursor
    ensures cursor.Valid()
    ensures r == BlockAt(cursor.chars, old(cursor.pos))
    ensures r.Ok? ==> cursor.pos == r.next
    decreases |cursor.chars| - cursor.pos, 1
  {
    hide LineAt, ColAt, SkipWs, StatementAt, Expect;
    ghost var chars := cursor.chars;
    var open := ExpectToken(cursor, "{");
    if open.Err? {
      return Err(open.error);
    }
    var statements: seq<Stmt> := [];
    ghost var whole := BlockItems(chars, cursor.pos);
    AppendToNothing(whole);
    while true
      invariant cursor.Valid() && old(cursor.pos) < cursor.pos
      invariant whole == Append(statements, BlockItems(chars, cursor.pos))
      decreases |chars| - cursor.pos
    {
      ghost var before := cursor.pos;
      cursor.SkipWhitespace();
      if cursor.Sees('}') {
        var _ := cursor.Advance();
        assert statements + [] == statements;
        return Ok(statements, cursor.pos);
      }
      if cursor.Eof() {
        return Err(CompileError(UnterminatedBlock, cursor.Mark()));
      }
      var statement := ParseStatement(cursor);
      if statement.Err? {
        return Err(statement.error);
      }
      AppendCons(statements, statement.value, BlockItems(chars, cursor.pos));
      statements := statements + [statement.value];
    }
  }

  method Parse(source: string) returns (r: Reading<seq<Stmt>>)
    ensures r == Program(source)
  {
    hide LineAt, ColAt, SkipWs, StatementAt;
    var cursor := new Cursor(source);
    var statements: seq<Stmt> := [];
    cursor.SkipWhitespace();
    AppendToNothing(ProgramItems(source, cursor.pos));
    while !cursor.Eof()
      invariant cursor.Valid() && cursor.chars == source
      invariant Program(source) == Append(statements, ProgramItems(source, cursor.pos))
      decreases |source| - cursor.pos
    {
      var statement := ParseStatement(cursor);
      if statement.Err? {
        return Err(statement.error);
      }
      cursor.SkipWhitespace();
      AppendCons(statements, statement.value, ProgramItems(source, cursor.pos));
      statements := statements + [statement.value];
    }
    assert statements + [] == statements;
    return Ok(statements, cursor.pos);
  }
}
