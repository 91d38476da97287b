/** The action language as it is written: every way of laying out a program as text. As in the textual notation's
    layout, pieces of text are put one in front of the other, and nothing is read. */
module AlfLayout {
  import opened SysmlModel
  import opened Scanning
  import opened ReadingBack
  import opened AlfSyntax

  // ----- Words, numerals and strings -----

  predicate WordStart(c: char) {
    'a' <= c <= 'z' || 'A' <= c <= 'Z' || c == '_'
  }

  predicate WordPart(c: char) {
    WordStart(c) || '0' <= c <= '9'
  }

  ghost predicate Name(s: string) {
    s != "" && WordStart(s[0]) && forall i :: 0 <= i < |s| ==> WordPart(s[i])
  }

  predicate Reserved(s: string) {
    s == "let" || s == "if" || s == "send" || s == "while" || s == "for"
  }

  predicate TruthWord(s: string) {
    s == "true" || s == "false"
  }

  predicate CollectionWord(s: string) {
    s == "Sequence" || s == "Set" || s == "OrderedSet" || s == "Bag"
  }

  type Figure = c: char | '0' <= c <= '9' witness '0'

  function Numeral(figures: seq<Figure>): nat {
    if figures == [] then 0 else 10 * Numeral(figures[..|figures| - 1]) + (figures[|figures| - 1] - '0') as nat
  }

  /** A piece of a string: a character as it stands, an escaped quote or backslash, an escaped line break, or a
      backslash that escapes nothing and is kept. */
  datatype Piece = Plain(c: char) | Escaped(c: char) | LineBreak | Kept(c: char)

  predicate PieceOk(p: Piece) {
    match p
    case Plain(c) => c != '"' && c != '\\'
    case Escaped(c) => c == '"' || c == '\\'
    case LineBreak => true
    case Kept(c) => c != '"' && c != '\\' && c != 'n'
  }

  function PieceText(p: Piece): string {
    match p case Plain(c) => [c] case Escaped(c) => ['\\', c] case LineBreak => "\\n" case Kept(c) => ['\\', c]
  }

  function PieceMeans(p: Piece): string {
    match p case Plain(c) => [c] case Escaped(c) => [c] case LineBreak => "\n" case Kept(c) => ['\\', c]
  }

  function PiecesThen(ps: seq<Piece>, rest: string): string {
    if ps == [] then rest else PieceText(ps[0]) + PiecesThen(ps[1..], rest)
  }

  function PiecesMean(ps: seq<Piece>): string {
    if ps == [] then "" else PieceMeans(ps[0]) + PiecesMean(ps[1..])
  }

  // ----- Phrases: expressions as they are written -----

  /** The white space stands where it may: within brackets, behind a negation, round an operator, and, behind a word
      for a kind of collection only, before a point. */
  datatype Phrase =
    | Word(name: string)
    | Access(target: string, gap: string, feature: string)
    | Whole(figures: seq<Figure>)
    | Fraction(figures: seq<Figure>, decimals: seq<Figure>)
    | Text(pieces: seq<Piece>)
    | Brackets(g1: string, inner: Phrase, g2: string)
    | Negation(g1: string, operand: Phrase)
    | Joined(op: BinaryOp, left: Phrase, g1: string, g2: string, right: Phrase)

  function Sign(op: BinaryOp): string {
    match op
    case Or => "||" case And => "&&"
    case Lt => "<" case Le => "<=" case Gt => ">" case Ge => ">=" case Eq => "==" case Ne => "!="
    case Add => "+" case Sub => "-" case Mul => "*" case Div => "/"
  }

  // The grammar, a predicate for each of its rules.

  ghost predicate Primary(p: Phrase)
    decreases p, 0
  {
    match p
    case Brackets(_, inner, _) => Disjunction(inner)
    case Negation(_, _) => false
    case Joined(_, _, _, _, _) => false
    case _ => true
  }

  ghost predicate Operand(p: Phrase)
    decreases p, 1
  {
    Primary(p) || (p.Negation? && Operand(p.operand))
  }

  ghost predicate Product(p: Phrase)
    decreases p, 2
  {
    Operand(p) || (p.Joined? && (p.op == Mul || p.op == Div) && Product(p.left) && Operand(p.right))
  }

  ghost predicate Sum(p: Phrase)
    decreases p, 3
  {
    Product(p) || (p.Joined? && (p.op == Add || p.op == Sub) && Sum(p.left) && Product(p.right))
  }

  ghost predicate Comparison(p: Phrase)
    decreases p, 4
  {
    || Sum(p)
    || (p.Joined? && p.op in {Lt, Le, Gt, Ge, Eq, Ne} && Sum(p.left) && Sum(p.right))
  }

  ghost predicate Conjunction(p: Phrase)
    decreases p, 5
  {
    Comparison(p) || (p.Joined? && p.op == And && Conjunction(p.left) && Comparison(p.right))
  }

  ghost predicate Disjunction(p: Phrase)
    decreases p, 6
  {
    Conjunction(p) || (p.Joined? && p.op == Or && Disjunction(p.left) && Conjunction(p.right))
  }

  function PhraseThen(p: Phrase, rest: string): string {
    match p
    case Word(name) => name + rest
    case Access(target, gap, feature) => target + (gap + ("." + (feature + rest)))
    case Whole(figures) => figures + rest
    case Fraction(figures, decimals) => figures + ("." + (decimals + rest))
    case Text(pieces) => "\"" + PiecesThen(pieces, "\"" + rest)
    case Brackets(g1, inner, g2) => "(" + (g1 + PhraseThen(inner, g2 + (")" + rest)))
    case Negation(g1, operand) => "!" + (g1 + PhraseThen(operand, rest))
    case Joined(op, left, g1, g2, right) => PhraseThen(left, g1 + (Sign(op) + (g2 + PhraseThen(right, rest))))
  }

  /** The expression a phrase is written for: brackets and white space leave no trace. */
  function Means(p: Phrase): Expr {
    match p
    case Word(name) =>
      if name == "true" then Lit(Bool(true)) else if name == "false" then Lit(Bool(false)) else Var(name)
    case Access(target, _, feature) => PropertyAccess(target, feature)
    case Whole(figures) => Lit(Int(Numeral(figures)))
    case Fraction(figures, decimals) => Lit(Real(Numeral(figures), decimals))
    case Text(pieces) => Lit(Str(PiecesMean(pieces)))
    case Brackets(_, inner, _) => Means(inner)
    case Negation(_, operand) => Unary(Not, Means(operand))
    case Joined(op, left, _, _, right) => Binary(op, Means(left), Means(right))
  }

  function Trimmed(s: string): string {
    if s != "" && IsWhitespace(s[0]) then Trimmed(s[1..]) else s
  }

  predicate Point(c: char) { c == '.' }

  predicate Brace(c: char) { c == '{' }

  predicate FigureChar(c: char) { '0' <= c <= '9' }

  /** No token runs on into what is written behind it. */
  ghost predicate PhraseOk(p: Phrase, rest: string)
    decreases p
  {
    match p
    case Word(name) =>
      && Name(name) && Apart(WordPart, rest)
      && (CollectionWord(name) ==> Apart(Brace, Trimmed(rest)) && Apart(Point, Trimmed(rest)))
      && (TruthWord(name) || Apart(Point, rest))
    case Access(target, gap, feature) =>
      && Name(target) && !TruthWord(target) && Name(feature) && Apart(WordPart, rest)
      && White(gap) && (gap == "" || CollectionWord(target))
    case Whole(figures) =>
      && figures != [] && Numeral(figures) < 0x8000_0000_0000_0000
      && Apart(FigureChar, rest) && !(|rest| >= 2 && rest[0] == '.' && FigureChar(rest[1]))
    case Fraction(figures, decimals) => figures != [] && decimals != [] && Apart(FigureChar, rest)
    case Text(pieces) => forall piece :: piece in pieces ==> PieceOk(piece)
    case Brackets(g1, inner, g2) => White(g1) && White(g2) && PhraseOk(inner, g2 + (")" + rest))
    case Negation(g1, operand) => White(g1) && PhraseOk(operand, rest)
    case Joined(op, left, g1, g2, right) =>
      && White(g1) && White(g2) && PhraseOk(right, rest)
      && PhraseOk(left, g1 + (Sign(op) + (g2 + PhraseThen(right, rest))))
  }

  /** An expression, and behind it text that it does not run on into. */
  ghost predicate ExpressionOk(p: Phrase, rest: string) {
    Disjunction(p) && PhraseOk(p, rest)
  }

  // ----- Clauses: statements as they are written -----

  datatype Arg = Arg(lead: string, value: Phrase, after: string)

  datatype Call = Call(lead: string, args: seq<Arg>, empty: string, after: string)

  /** `=`, an expression and a semicolon. */
  datatype Setting = Setting(lead: string, g1: string, value: Phrase, g2: string)

  datatype Clause =
    | LetClause(g1: string, name: string, setting: Setting)
    | AssignClause(target: string, feature: string, setting: Setting)
    | InvokeClause(name: string, call: Call)
    | SendClause(g1: string, name: string, call: Call)
    | IfClause(g1: string, g2: string, condition: Phrase, g3: string, g4: string, body: Body,
               otherwise: Option<Otherwise>)

  datatype Otherwise = Otherwise(g1: string, g2: string, body: Body)

  datatype Line = Line(lead: string, clause: Clause)

  datatype Body = Body(lines: seq<Line>, last: string)

  function SettingThen(s: Setting, rest: string): string {
    s.lead + ("=" + (s.g1 + PhraseThen(s.value, s.g2 + (";" + rest))))
  }

  function ArgsThen(args: seq<Arg>, rest: string): string
    requires args != []
  {
    var last := |args| == 1;
    args[0].lead +
    PhraseThen(args[0].value, args[0].after + if last then ")" + rest else "," + ArgsThen(args[1..], rest))
  }

  function CallThen(c: Call, rest: string): string {
    var end := c.after + (";" + rest);
    c.lead + ("(" + if c.args == [] then c.empty + (")" + end) else ArgsThen(c.args, end))
  }

  function ClauseThen(c: Clause, rest: string): string
    decreases c
  {
    match c
    case LetClause(g1, name, setting) => "let" + (g1 + (name + SettingThen(setting, rest)))
    case AssignClause(target, feature, setting) => target + ("." + (feature + SettingThen(setting, rest)))
    case InvokeClause(name, call) => name + CallThen(call, rest)
    case SendClause(g1, name, call) => "send" + (g1 + (name + CallThen(call, rest)))
    case IfClause(g1, g2, condition, g3, g4, body, otherwise) =>
      "if" + (g1 + ("(" + (g2 +
      PhraseThen(condition, ClosedThen(g3, g4, BodyThen(body, "}" + OtherwiseThen(otherwise, rest)))))))
  }

  /** What follows a condition: its closing bracket, and a block. */
  function ClosedThen(g3: string, g4: string, block: string): string {
    g3 + (")" + (g4 + ("{" + block)))
  }

  function OtherwiseThen(otherwise: Option<Otherwise>, rest: string): string
    decreases otherwise
  {
    match otherwise
    case None => rest
    case Some(o) => o.g1 + ("else" + (o.g2 + ("{" + BodyThen(o.body, "}" + rest))))
  }

  function BodyThen(b: Body, rest: string): string
    decreases b
  {
    LinesThen(b.lines, b.last + rest)
  }

  function LinesThen(lines: seq<Line>, rest: string): string
    decreases lines
  {
    if lines == [] then rest else lines[0].lead + ClauseThen(lines[0].clause, LinesThen(lines[1..], rest))
  }

  // What is written.

  function ArgsMean(args: seq<Arg>): seq<Expr> {
    if args == [] then [] else [Means(args[0].value)] + ArgsMean(args[1..])
  }

  function ClauseMeans(c: Clause): Stmt
    decreases c
  {
    match c
    case LetClause(_, name, setting) => Let(name, Means(setting.value))
    case AssignClause(target, feature, setting) => Assign(target, feature, Means(setting.value))
    case InvokeClause(name, call) => Invoke(name, ArgsMean(call.args))
    case SendClause(_, name, call) => SendSignal(name, ArgsMean(call.args))
    case IfClause(_, _, condition, _, _, body, otherwise) =>
      If(Means(condition), LinesMean(body.lines),
         match otherwise case None => [] case Some(o) => LinesMean(o.body.lines))
  }

  function LinesMean(lines: seq<Line>): seq<Stmt>
    decreases lines
  {
    if lines == [] then [] else [ClauseMeans(lines[0].clause)] + LinesMean(lines[1..])
  }

  // Where tokens may stand side by side.

  ghost predicate SettingOk(s: Setting, rest: string) {
    White(s.lead) && White(s.g1) && ExpressionOk(s.value, s.g2 + (";" + rest)) && White(s.g2)
  }

  ghost predicate ArgsOk(args: seq<Arg>, rest: string)
    requires args != []
  {
    && White(args[0].lead) && White(args[0].after)
    && if |args| == 1 then ExpressionOk(args[0].value, args[0].after + (")" + rest))
       else ExpressionOk(args[0].value, args[0].after + ("," + ArgsThen(args[1..], rest))) && ArgsOk(args[1..], rest)
  }

  ghost predicate CallOk(c: Call, rest: string) {
    && White(c.lead) && White(c.after)
    && if c.args == [] then White(c.empty) else ArgsOk(c.args, c.after + (";" + rest))
  }

  ghost predicate ElseComes(s: string) {
    |s| >= 4 && s[..4] == "else" && Apart(WordPart, s[4..])
  }

  ghost predicate ClauseOk(c: Clause, rest: string)
    decreases c
  {
    match c
    case LetClause(g1, name, setting) => White(g1) && g1 != "" && Name(name) && SettingOk(setting, rest)
    case AssignClause(target, feature, setting) =>
      Name(target) && !Reserved(target) && Name(feature) && SettingOk(setting, rest)
    case InvokeClause(name, call) => Name(name) && !Reserved(name) && CallOk(call, rest)
    case SendClause(g1, name, call) => White(g1) && g1 != "" && Name(name) && CallOk(call, rest)
    case IfClause(g1, g2, condition, g3, g4, body, otherwise) =>
      && White(g1) && White(g2) && White(g3) && White(g4)
      && ExpressionOk(condition, ClosedThen(g3, g4, BodyThen(body, "}" + OtherwiseThen(otherwise, rest))))
      && BodyOk(body, "}" + OtherwiseThen(otherwise, rest)) && OtherwiseOk(otherwise, rest)
  }

  ghost predicate OtherwiseOk(otherwise: Option<Otherwise>, rest: string)
    decreases otherwise
  {
    match otherwise
    case None => !ElseComes(Trimmed(rest))
    case Some(o) => White(o.g1) && White(o.g2) && BodyOk(o.body, "}" + rest)
  }

  ghost predicate BodyOk(b: Body, rest: string)
    decreases b
  {
    White(b.last) && LinesOk(b.lines, b.last + rest)
  }

  ghost predicate LinesOk(lines: seq<Line>, rest: string)
    decreases lines
  {
    lines != [] ==>
      White(lines[0].lead) && ClauseOk(lines[0].clause, LinesThen(lines[1..], rest)) && LinesOk(lines[1..], rest)
  }
}
