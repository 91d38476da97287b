/** The action language's abstract syntax, and its grammar as functions from a position in the text to
    what is read there and where reading stops. */
module AlfSyntax {
  import opened SysmlModel
  import opened Scanning
  import opened Decimals

  datatype BinaryOp = Add | Sub | Mul | Div | Lt | Le | Gt | Ge | Eq | Ne | And | Or

  datatype UnaryOp = Not

  /** A real is kept as it is written, digits before and after the point. */
  datatype Literal = Bool(b: bool) | Int(n: nat) | Real(whole: nat, fraction: string) | Str(s: string)

  datatype Expr =
    | Lit(literal: Literal)
    | Var(name: string)
    | PropertyAccess(target: string, feature: string)
    | Unary(uop: UnaryOp, operand: Expr)
    | Binary(op: BinaryOp, left: Expr, right: Expr)

  datatype Stmt =
    | Let(name: string, value: Expr)
    | Assign(target: string, feature: string, value: Expr)
    | If(condition: Expr, thenBranch: seq<Stmt>, elseBranch: seq<Stmt>)
    | Invoke(behaviorName: string, args: seq<Expr>)
    | SendSignal(signalName: string, args: seq<Expr>)

  datatype Reason =
    | Expected(token: string) | ExpectedIdentifier | ExpectedStatement | ExpectedExpression | ExpectedDotOrCall
    | UnterminatedBlock | UnterminatedString | UnterminatedEscape | InvalidInteger(digits: string)
    | Unsupported(construct: string)

  datatype CompileError = CompileError(reason: Reason, span: Span)

  datatype Reading<+T> = Ok(value: T, next: nat) | Err(error: CompileError)

  const MaxInt: nat := 9223372036854775807

  function ErrorAt(reason: Reason, chars: string, pos: nat): CompileError
    requires pos <= |chars|
  {
    CompileError(reason, SpanAt(chars, pos, pos))
  }

  // ----- Tokens -----

  predicate Spells(chars: string, pos: nat, s: string)
    decreases |s|
  {
    s == "" || (At(chars, pos, s[0]) && Spells(chars, pos + 1, s[1..]))
  }

  lemma {:induction false} SpelledFits(chars: string, pos: nat, s: string)
    requires Spells(chars, pos, s) && pos <= |chars|
    ensures pos + |s| <= |chars|
    decreases |s|
  {
    if s != "" {
      SpelledFits(chars, pos + 1, s[1..]);
    }
  }

  function Expect(chars: string, pos: nat, token: string): (r: Reading<string>)
    requires pos <= |chars| && token != ""
    ensures r.Ok? ==> pos < r.next <= |chars|
  {
    var p := SkipWs(chars, pos);
    if Spells(chars, p, token) then
      SpelledFits(chars, p, token);
      Ok(token, p + |token|)
    else
      Err(ErrorAt(Expected(token), chars, p))
  }

  predicate IdentStart(c: char) { IsAsciiLetter(c) || c == '_' }

  predicate IdentContinue(c: char) { IsAsciiLetter(c) || IsDigit(c) || c == '_' }

  /** An identifier or keyword, or nothing. */
  function RawIdent(chars: string, pos: nat): (r: Option<string>)
    requires pos <= |chars|
    ensures r.Some? ==> r.value != "" && pos + |r.value| <= |chars|
  {
    if pos < |chars| && IdentStart(chars[pos]) then
      var end := RunEnd(IdentContinue, chars, pos);
      assert end == RunEnd(IdentContinue, chars, pos + 1);
      Some(chars[pos..end])
    else None
  }

  function IdentAt(chars: string, pos: nat): (r: Reading<string>)
    requires pos <= |chars|
    ensures r.Ok? ==> pos < r.next <= |chars|
  {
    var s := RawIdent(chars, pos);
    if s.Some? then Ok(s.value, pos + |s.value|) else Err(ErrorAt(ExpectedIdentifier, chars, pos))
  }

  predicate KeywordAt(chars: string, pos: nat, keyword: string) {
    Spells(chars, pos, keyword) && !(pos + |keyword| < |chars| && IdentContinue(chars[pos + |keyword|]))
  }

  /** The rest of a string literal whose opening quote stood at `start`. */
  function StringTail(chars: string, start: nat, pos: nat): (r: Reading<string>)
    requires start <= pos <= |chars|
    ensures r.Ok? ==> pos < r.next <= |chars|
    decreases |chars| - pos
  {
    if pos == |chars| then
      Err(ErrorAt(UnterminatedString, chars, start))
    else if chars[pos] == '"' then
      Ok("", pos + 1)
    else if chars[pos] != '\\' then
      Prepend([chars[pos]], StringTail(chars, start, pos + 1))
    else if pos + 1 == |chars| then
      Err(ErrorAt(UnterminatedEscape, chars, pos + 1))
    else
      Prepend(Unescape(chars[pos + 1]), StringTail(chars, start, pos + 2))
  }

  function Unescape(c: char): string {
    if c == '"' || c == '\\' then [c] else if c == 'n' then "\n" else ['\\', c]
  }

  function Prepend(s: string, r: Reading<string>): Reading<string> {
    if r.Ok? then Ok(s + r.value, r.next) else r
  }

  lemma {:induction false} RunIsDigits(chars: string, pos: nat)
    requires pos <= |chars|
    ensures forall i :: pos <= i < RunEnd(IsDigit, chars, pos) ==> IsDigit(chars[i])
    decreases |chars| - pos
  {
    if pos < |chars| && IsDigit(chars[pos]) {
      RunIsDigits(chars, pos + 1);
    }
  }

  /** The digits from `pos` to the end of the run of digits there. */
  function Digits(chars: string, pos: nat): (s: string)
    requires pos <= |chars|
    ensures forall i :: 0 <= i < |s| ==> IsDigit(s[i])
  {
    RunIsDigits(chars, pos);
    chars[pos..RunEnd(IsDigit, chars, pos)]
  }

  /** A number: a real if a point and a digit follow its first digits. */
  function NumberAt(chars: string, pos: nat): (r: Reading<Expr>)
    requires pos < |chars| && IsDigit(chars[pos])
    ensures r.Ok? ==> pos < r.next <= |chars|
  {
    var end := RunEnd(IsDigit, chars, pos);
    assert end == RunEnd(IsDigit, chars, pos + 1);
    if At(chars, end, '.') && end + 1 < |chars| && IsDigit(chars[end + 1]) then
      Ok(Lit(Real(Value(Digits(chars, pos)), Digits(chars, end + 1))), RunEnd(IsDigit, chars, end + 1))
    else if Value(Digits(chars, pos)) > MaxInt then
      Err(ErrorAt(InvalidInteger(Digits(chars, pos)), chars, pos))
    else
      Ok(Lit(Int(Value(Digits(chars, pos)))), end)
  }

  predicate IsCollection(word: string) {
    word == "Sequence" || word == "Set" || word == "OrderedSet" || word == "Bag"
  }

  /** What follows an identifier in an expression; `pos` is just past it. */
  function AfterIdent(chars: string, start: nat, word: string, pos: nat): (r: Reading<Expr>)
    requires start < pos <= |chars|
    ensures r.Ok? ==> start < r.next <= |chars|
  {
    var p := if IsCollection(word) then SkipWs(chars, pos) else pos;
    if IsCollection(word) && At(chars, p, '{') then
      Err(ErrorAt(Unsupported("collection/sequence expressions"), chars, start))
    else if word == "true" then Ok(Lit(Bool(true)), p)
    else if word == "false" then Ok(Lit(Bool(false)), p)
    else if At(chars, p, '.') then
      match IdentAt(chars, p + 1)
      case Err(e) => Err(e)
      case Ok(feature, q) => Ok(PropertyAccess(word, feature), q)
    else Ok(Var(word), p)
  }

  /** A literal or name, where there is no bracket. */
  function AtomAt(chars: string, pos: nat): (r: Reading<Expr>)
    requires pos <= |chars|
    ensures r.Ok? ==> pos < r.next <= |chars|
  {
    if At(chars, pos, '"') then
      match StringTail(chars, pos, pos + 1)
      case Err(e) => Err(e)
      case Ok(s, q) => Ok(Lit(Str(s)), q)
    else if pos < |chars| && IsDigit(chars[pos]) then NumberAt(chars, pos)
    else
      match RawIdent(chars, pos)
      case None => Err(ErrorAt(ExpectedExpression, chars, pos))
      case Some(word) => AfterIdent(chars, pos, word, pos + |word|)
  }

  // ----- Expressions -----

  const OrLevel: nat := 0
  const AndLevel: nat := 1
  const CmpLevel: nat := 2
  const AddLevel: nat := 3
  const MulLevel: nat := 4
  const UnaryLevel: nat := 5

  function OpText(op: BinaryOp): (s: string)
    ensures 1 <= |s| <= 2
  {
    match op
    case Add => "+" case Sub => "-" case Mul => "*" case Div => "/"
    case Lt => "<" case Le => "<=" case Gt => ">" case Ge => ">=" case Eq => "==" case Ne => "!="
    case And => "&&" case Or => "||"
  }

  /** The operator of a level at a position; of two that match, the longer. */
  function OperatorAt(chars: string, level: nat, pos: nat): (op: Option<BinaryOp>)
    requires level < UnaryLevel
    ensures op.Some? ==> pos + |OpText(op.value)| <= |chars|
  {
    if level == OrLevel then (if At(chars, pos, '|') && At(chars, pos + 1, '|') then Some(Or) else None)
    else if level == AndLevel then (if At(chars, pos, '&') && At(chars, pos + 1, '&') then Some(And) else None)
    else if level == CmpLevel then
      if At(chars, pos, '<') then Some(if At(chars, pos + 1, '=') then Le else Lt)
      else if At(chars, pos, '>') then Some(if At(chars, pos + 1, '=') then Ge else Gt)
      else if At(chars, pos, '=') && At(chars, pos + 1, '=') then Some(Eq)
      else if At(chars, pos, '!') && At(chars, pos + 1, '=') then Some(Ne)
      else None
    else if level == AddLevel then
      if At(chars, pos, '+') then Some(Add) else if At(chars, pos, '-') then Some(Sub) else None
    else if At(chars, pos, '*') then Some(Mul) else if At(chars, pos, '/') then Some(Div) else None
  }

  /** An expression of a level, operators of lower levels left for the caller. */
  function ExprAt(chars: string, level: nat, pos: nat): (r: Reading<Expr>)
    requires pos <= |chars| && level <= UnaryLevel
    ensures r.Ok? ==> pos < r.next <= |chars|
    decreases |chars| - pos, 8 - level
  {
    if level == UnaryLevel then UnaryAt(chars, SkipWs(chars, pos))
    else
      match ExprAt(chars, level + 1, pos)
      case Err(e) => Err(e)
      case Ok(left, p) => RestAt(chars, level, left, p)
  }

  /** What follows a left operand: an operator of the level and a right operand, again and again, or for
      a comparison at most once. */
  function RestAt(chars: string, level: nat, left: Expr, pos: nat): (r: Reading<Expr>)
    requires pos <= |chars| && level < UnaryLevel
    ensures r.Ok? ==> pos <= r.next <= |chars|
    decreases |chars| - pos, 9
  {
    var p := SkipWs(chars, pos);
    match OperatorAt(chars, level, p)
    case None => Ok(left, p)
    case Some(op) =>
      match ExprAt(chars, level + 1, SkipWs(chars, p + |OpText(op)|))
      case Err(e) => Err(e)
      case Ok(right, q) => if level == CmpLevel then Ok(Binary(op, left, right), q)
        else RestAt(chars, level, Binary(op, left, right), q)
  }

  function UnaryAt(chars: string, pos: nat): (r: Reading<Expr>)
    requires pos <= |chars|
    ensures r.Ok? ==> pos < r.next <= |chars|
    decreases |chars| - pos, 1
  {
    if At(chars, pos, '!') then
      match ExprAt(chars, UnaryLevel, SkipWs(chars, pos + 1))
      case Err(e) => Err(e)
      case Ok(operand, q) => Ok(Unary(Not, operand), q)
    else if At(chars, pos, '(') then
      match ExprAt(chars, OrLevel, SkipWs(chars, pos + 1))
      case Err(e) => Err(e)
      case Ok(inner, q) =>
        var close := Expect(chars, q, ")");
        if close.Ok? then Ok(inner, close.next) else Err(close.error)
    else AtomAt(chars, pos)
  }

  // ----- Statements -----

  function ArgsAt(chars: string, pos: nat): (r: Reading<seq<Expr>>)
    requires pos <= |chars|
    ensures r.Ok? ==> pos < r.next <= |chars|
  {
    var p := SkipWs(chars, pos);
    if At(chars, p, ')') then Ok([], p + 1) else ArgItems(chars, p)
  }

  function ArgItems(chars: string, pos: nat): (r: Reading<seq<Expr>>)
    requires pos <= |chars|
    ensures r.Ok? ==> pos < r.next <= |chars|
    decreases |chars| - pos
  {
    match ExprAt(chars, OrLevel, SkipWs(chars, pos))
    case Err(e) => Err(e)
    case Ok(arg, q) =>
      var p := SkipWs(chars, q);
      if At(chars, p, ',') then
        Cons(arg, ArgItems(chars, p + 1))
      else
        match Expect(chars, p, ")")
        case Err(e) => Err(e)
        case Ok(_, end) => Ok([arg], end)
  }

  function Cons<T>(first: T, rest: Reading<seq<T>>): Reading<seq<T>> {
    if rest.Ok? then Ok([first] + rest.value, rest.next) else rest
  }

  /** `=` or what else must come first, an expression, and the closing token. */
  function ExprUpTo(chars: string, pos: nat, token: string): (r: Reading<Expr>)
    requires pos <= |chars| && token != ""
    ensures r.Ok? ==> pos < r.next <= |chars|
  {
    match ExprAt(chars, OrLevel, SkipWs(chars, pos))
    case Err(e) => Err(e)
    case Ok(value, p) =>
      match Expect(chars, p, token)
      case Err(e) => Err(e)
      case Ok(_, q) => Ok(value, q)
  }

  function ArgsUpToSemicolon(chars: string, pos: nat): (r: Reading<seq<Expr>>)
    requires pos <= |chars|
    ensures r.Ok? ==> pos < r.next <= |chars|
  {
    match ArgsAt(chars, pos)
    case Err(e) => Err(e)
    case Ok(args, p) =>
      match Expect(chars, p, ";")
      case Err(e) => Err(e)
      case Ok(_, q) => Ok(args, q)
  }

  function LetTail(chars: string, pos: nat): (r: Reading<Stmt>)
    requires pos <= |chars|
    ensures r.Ok? ==> pos < r.next <= |chars|
  {
    match IdentAt(chars, SkipWs(chars, pos))
    case Err(e) => Err(e)
    case Ok(name, p) =>
      match Expect(chars, p, "=")
      case Err(e) => Err(e)
      case Ok(_, q) =>
        match ExprUpTo(chars, q, ";")
        case Err(e) => Err(e)
        case Ok(value, end) => Ok(Let(name, value), end)
  }

  function SendTail(chars: string, pos: nat): (r: Reading<Stmt>)
    requires pos <= |chars|
    ensures r.Ok? ==> pos < r.next <= |chars|
  {
    match IdentAt(chars, SkipWs(chars, pos))
    case Err(e) => Err(e)
    case Ok(name, p) =>
      match Expect(chars, p, "(")
      case Err(e) => Err(e)
      case Ok(_, q) =>
        match ArgsUpToSemicolon(chars, q)
        case Err(e) => Err(e)
        case Ok(args, end) => Ok(SendSignal(name, args), end)
  }

  /** A statement led by a name that stands from `start` to `pos`: an assignment or an invocation. */
  function NamedTail(chars: string, start: nat, word: string, pos: nat): (r: Reading<Stmt>)
    requires start <= pos <= |chars|
    ensures r.Ok? ==> pos < r.next <= |chars|
  {
    if At(chars, pos, '.') then
      match IdentAt(chars, pos + 1)
      case Err(e) => Err(e)
      case Ok(feature, p) =>
        match Expect(chars, p, "=")
        case Err(e) => Err(e)
        case Ok(_, q) =>
          match ExprUpTo(chars, q, ";")
          case Err(e) => Err(e)
          case Ok(value, end) => Ok(Assign(word, feature, value), end)
    else
      var p := SkipWs(chars, pos);
      if At(chars, p, '(') then
        match ArgsUpToSemicolon(chars, p + 1)
        case Err(e) => Err(e)
        case Ok(args, end) => Ok(Invoke(word, args), end)
      else Err(ErrorAt(ExpectedDotOrCall, chars, start))
  }

  /** The condition of a conditional, brackets and all. */
  function ConditionAt(chars: string, pos: nat): (r: Reading<Expr>)
    requires pos <= |chars|
    ensures r.Ok? ==> pos < r.next <= |chars|
  {
    match Expect(chars, pos, "(")
    case Err(e) => Err(e)
    case Ok(_, p) => ExprUpTo(chars, p, ")")
  }

  function StatementAt(chars: string, pos: nat): (r: Reading<Stmt>)
    requires pos <= |chars|
    ensures r.Ok? ==> pos < r.next <= |chars|
    decreases |chars| - pos, 0
  {
    var start := SkipWs(chars, pos);
    match RawIdent(chars, start)
    case None => Err(ErrorAt(ExpectedStatement, chars, start))
    case Some(word) =>
      var p := start + |word|;
      if word == "while" || word == "for" then Err(ErrorAt(Unsupported("loops"), chars, start))
      else if word == "let" then LetTail(chars, p)
      else if word == "send" then SendTail(chars, p)
      else if word == "if" then
        match ConditionAt(chars, p)
        case Err(e) => Err(e)
        case Ok(condition, q) =>
          match BlockAt(chars, q)
          case Err(e) => Err(e)
          case Ok(thenBranch, end) => ElseTail(chars, condition, thenBranch, SkipWs(chars, end))
      else NamedTail(chars, start, word, p)
  }

  /** The optional else clause; `pos` is past any white space. */
  function ElseTail(chars: string, condition: Expr, thenBranch: seq<Stmt>, pos: nat): (r: Reading<Stmt>)
    requires pos <= |chars|
    ensures r.Ok? ==> pos <= r.next <= |chars|
    decreases |chars| - pos, 2
  {
    if KeywordAt(chars, pos, "else") then
      SpelledFits(chars, pos, "else");
      match BlockAt(chars, pos + 4)
      case Err(e) => Err(e)
      case Ok(elseBranch, end) => Ok(If(condition, thenBranch, elseBranch), end)
    else Ok(If(condition, thenBranch, []), pos)
  }

  function BlockAt(chars: string, pos: nat): (r: Reading<seq<Stmt>>)
    requires pos <= |chars|
    ensures r.Ok? ==> pos < r.next <= |chars|
    decreases |chars| - pos, 1
  {
    match Expect(chars, pos, "{")
    case Err(e) => Err(e)
    case Ok(_, p) => BlockItems(chars, p)
  }

  /** What remains of a block, up to and including its closing brace. */
  function BlockItems(chars: string, pos: nat): (r: Reading<seq<Stmt>>)
    requires pos <= |chars|
    ensures r.Ok? ==> pos < r.next <= |chars|
    decreases |chars| - pos, 1
  {
    var p := SkipWs(chars, pos);
    if At(chars, p, '}') then Ok([], p + 1)
    else if p == |chars| then Err(ErrorAt(UnterminatedBlock, chars, p))
    else
      match StatementAt(chars, p)
      case Err(e) => Err(e)
      case Ok(first, q) => Cons(first, BlockItems(chars, q))
  }

  /** The rest of a program; `pos` is past any white space. */
  function ProgramItems(chars: string, pos: nat): (r: Reading<seq<Stmt>>)
    requires pos <= |chars|
    decreases |chars| - pos
  {
    if pos == |chars| then Ok([], pos)
    else
      match StatementAt(chars, pos)
      case Err(e) => Err(e)
      case Ok(first, q) => Cons(first, ProgramItems(chars, SkipWs(chars, q)))
  }

  function Program(chars: string): Reading<seq<Stmt>> {
    ProgramItems(chars, SkipWs(chars, 0))
  }
}
