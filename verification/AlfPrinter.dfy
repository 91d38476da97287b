/** The action language's printer: it writes brackets only where the grammar's precedence, its left
    association and its single comparison need them. */
module AlfPrinter {
  import opened SysmlModel
  import opened Scanning
  import opened Decimals
  import opened AlfSyntax

  function LevelOf(op: BinaryOp): (level: nat)
    ensures level < UnaryLevel
  {
    match op
    case Or => OrLevel
    case And => AndLevel
    case Lt => CmpLevel case Le => CmpLevel case Gt => CmpLevel case Ge => CmpLevel
    case Eq => CmpLevel case Ne => CmpLevel
    case Add => AddLevel case Sub => AddLevel
    case Mul => MulLevel case Div => MulLevel
  }

  const AtomLevel: nat := 6

  function Precedence(e: Expr): nat {
    match e
    case Binary(op, _, _) => LevelOf(op)
    case Unary(_, _) => UnaryLevel
    case _ => AtomLevel
  }

  function LeftLevel(op: BinaryOp): nat {
    if LevelOf(op) == CmpLevel then AddLevel else LevelOf(op)
  }

  function EscapeChar(c: char): string {
    if c == '\\' then "\\\\" else if c == '"' then "\\\"" else if c == '\n' then "\\n" else [c]
  }

  function Escape(s: string): string {
    if s == "" then "" else EscapeChar(s[0]) + Escape(s[1..])
  }

  function LiteralText(l: Literal): string {
    match l
    case Bool(b) => if b then "true" else "false"
    case Int(n) => Decimal(n)
    case Real(whole, fraction) => Decimal(whole) + ("." + fraction)
    case Str(s) => "\"" + (Escape(s) + "\"")
  }

  function Bare(e: Expr): string
    decreases e, 0
  {
    match e
    case Lit(l) => LiteralText(l)
    case Var(name) => name
    case PropertyAccess(target, feature) => target + ("." + feature)
    case Unary(_, operand) => "!" + Print(operand, UnaryLevel)
    case Binary(op, left, right) =>
      Print(left, LeftLevel(op)) + (" " + (OpText(op) + (" " + Print(right, LevelOf(op) + 1))))
  }

  /** An expression where one of a given level, or a higher one, may stand. */
  function Print(e: Expr, level: nat): string
    decreases e, 1
  {
    if Precedence(e) < level then "(" + (Bare(e) + ")") else Bare(e)
  }

  function ArgsText(args: seq<Expr>): string {
    if args == [] then ""
    else if |args| == 1 then Print(args[0], OrLevel)
    else Print(args[0], OrLevel) + (", " + ArgsText(args[1..]))
  }

  /** The word a statement begins with. */
  function Leader(s: Stmt): string {
    match s
    case Let(_, _) => "let"
    case If(_, _, _) => "if"
    case SendSignal(_, _) => "send"
    case Assign(target, _, _) => target
    case Invoke(name, _) => name
  }

  predicate LedByElse(ss: seq<Stmt>) {
    ss != [] && Leader(ss[0]) == "else"
  }

  function CallText(args: seq<Expr>): string {
    "(" + (ArgsText(args) + ");")
  }

  /** A statement; a conditional says its empty else clause only if the next statement begins with `else`. */
  function StmtText(s: Stmt, beforeElse: bool): string
    decreases s, 0
  {
    match s
    case Let(name, value) => "let " + (name + (" = " + (Print(value, OrLevel) + ";")))
    case Assign(target, feature, value) => target + ("." + (feature + (" = " + (Print(value, OrLevel) + ";"))))
    case Invoke(name, args) => name + CallText(args)
    case SendSignal(name, args) => "send " + (name + CallText(args))
    case If(condition, thenBranch, elseBranch) =>
      "if (" + (Print(condition, OrLevel) + (") {" + (StmtsText(thenBranch) + (" }" +
      (if elseBranch == [] && !beforeElse then "" else " else {" + (StmtsText(elseBranch) + " }"))))))
  }

  function StmtsText(ss: seq<Stmt>): string
    decreases ss, 1
  {
    if ss == [] then "" else " " + (StmtText(ss[0], LedByElse(ss[1..])) + StmtsText(ss[1..]))
  }

  // ----- What can be printed -----

  ghost predicate Ident(s: string) {
    s != "" && IdentStart(s[0]) && forall i :: 0 <= i < |s| ==> IdentContinue(s[i])
  }

  predicate Truth(s: string) {
    s == "true" || s == "false"
  }

  predicate Keyword(s: string) {
    s == "while" || s == "for" || s == "let" || s == "if" || s == "send"
  }

  /** Names are identifiers, not words that mean something else where they stand; integers fit. */
  ghost predicate Legal(e: Expr) {
    match e
    case Lit(Int(n)) => n <= MaxInt
    case Lit(Real(_, fraction)) => fraction != "" && forall i :: 0 <= i < |fraction| ==> IsDigit(fraction[i])
    case Lit(_) => true
    case Var(name) => Ident(name) && !Truth(name)
    case PropertyAccess(target, feature) => Ident(target) && !Truth(target) && Ident(feature)
    case Unary(_, operand) => Legal(operand)
    case Binary(_, left, right) => Legal(left) && Legal(right)
  }

  ghost predicate LegalStmt(s: Stmt) {
    match s
    case Let(name, value) => Ident(name) && Legal(value)
    case Assign(target, feature, value) => Ident(target) && !Keyword(target) && Ident(feature) && Legal(value)
    case Invoke(name, args) => Ident(name) && !Keyword(name) && forall a :: a in args ==> Legal(a)
    case SendSignal(name, args) => Ident(name) && forall a :: a in args ==> Legal(a)
    case If(condition, thenBranch, elseBranch) =>
      && Legal(condition)
      && (forall t :: t in thenBranch ==> LegalStmt(t))
      && (forall t :: t in elseBranch ==> LegalStmt(t))
  }
}
