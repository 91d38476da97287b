/** The action language's intermediate form, as messages whose operators are strings, and what a program
    and its messages mean. */
module AlfIr {
  import opened SysmlModel
  import opened Scanning
  import opened Decimals
  import opened AlfSyntax

  // ----- Messages; every nested message may be missing -----

  datatype CompiledExpression = CompiledExpression(kind: Option<ExpressionKind>)

  datatype ExpressionKind =
    | BoolLiteral(boolLiteral: bool)
    | IntLiteral(intLiteral: nat)
    | RealLiteral(realWhole: nat, realFraction: string)
    | StringLiteral(stringLiteral: string)
    | VarRef(varRef: string)
    | Access(target: string, feature: string)
    | UnaryOperation(uop: string, operand: Option<CompiledExpression>)
    | BinaryOperation(bop: string, left: Option<CompiledExpression>, right: Option<CompiledExpression>)

  datatype CompiledStatement = CompiledStatement(kind: Option<StatementKind>)

  datatype StatementKind =
    | LetStmt(name: string, letValue: Option<CompiledExpression>)
    | AssignStmt(assignTarget: string, assignFeature: string, assignValue: Option<CompiledExpression>)
    | IfStmt(condition: Option<CompiledExpression>, thenBranch: seq<CompiledStatement>,
             elseBranch: seq<CompiledStatement>)
    | InvokeStmt(behaviorName: string, invokeArgs: seq<CompiledExpression>)
    | SendSignalStmt(signalName: string, sendArgs: seq<CompiledExpression>)

  // ----- Compilation -----

  function OpName(op: BinaryOp): string {
    match op
    case Add => "add" case Sub => "sub" case Mul => "mul" case Div => "div"
    case Lt => "lt" case Le => "le" case Gt => "gt" case Ge => "ge" case Eq => "eq" case Ne => "ne"
    case And => "and" case Or => "or"
  }

  function CompileExpr(e: Expr): CompiledExpression {
    match e
    case Lit(Bool(b)) => CompiledExpression(Some(BoolLiteral(b)))
    case Lit(Int(n)) => CompiledExpression(Some(IntLiteral(n)))
    case Lit(Real(whole, fraction)) => CompiledExpression(Some(RealLiteral(whole, fraction)))
    case Lit(Str(s)) => CompiledExpression(Some(StringLiteral(s)))
    case Var(name) => CompiledExpression(Some(VarRef(name)))
    case PropertyAccess(target, feature) => CompiledExpression(Some(Access(target, feature)))
    case Unary(Not, operand) => CompiledExpression(Some(UnaryOperation("not", Some(CompileExpr(operand)))))
    case Binary(op, left, right) =>
      CompiledExpression(Some(BinaryOperation(OpName(op), Some(CompileExpr(left)), Some(CompileExpr(right)))))
  }

  function CompileArgs(args: seq<Expr>): seq<CompiledExpression> {
    if args == [] then [] else [CompileExpr(args[0])] + CompileArgs(args[1..])
  }

  function CompileStmt(s: Stmt): CompiledStatement {
    match s
    case Let(name, value) => CompiledStatement(Some(LetStmt(name, Some(CompileExpr(value)))))
    case Assign(target, feature, value) =>
      CompiledStatement(Some(AssignStmt(target, feature, Some(CompileExpr(value)))))
    case If(condition, thenBranch, elseBranch) =>
      CompiledStatement(Some(IfStmt(Some(CompileExpr(condition)), CompileProgram(thenBranch),
                                    CompileProgram(elseBranch))))
    case Invoke(name, args) => CompiledStatement(Some(InvokeStmt(name, CompileArgs(args))))
    case SendSignal(name, args) => CompiledStatement(Some(SendSignalStmt(name, CompileArgs(args))))
  }

  function CompileProgram(ss: seq<Stmt>): seq<CompiledStatement> {
    if ss == [] then [] else [CompileStmt(ss[0])] + CompileProgram(ss[1..])
  }

  // ----- Reading messages back -----

  function OpOfName(name: string): Option<BinaryOp> {
    match name
    case "add" => Some(Add) case "sub" => Some(Sub) case "mul" => Some(Mul) case "div" => Some(Div)
    case "lt" => Some(Lt) case "le" => Some(Le) case "gt" => Some(Gt) case "ge" => Some(Ge)
    case "eq" => Some(Eq) case "ne" => Some(Ne) case "and" => Some(And) case "or" => Some(Or)
    case _ => None
  }

  function DecompileField(field: Option<CompiledExpression>): Option<Expr> {
    match field
    case None => None
    case Some(CompiledExpression(None)) => None
    case Some(CompiledExpression(Some(kind))) =>
      match kind
      case BoolLiteral(b) => Some(Lit(Bool(b)))
      case IntLiteral(n) => Some(Lit(Int(n)))
      case RealLiteral(whole, fraction) => Some(Lit(Real(whole, fraction)))
      case StringLiteral(s) => Some(Lit(Str(s)))
      case VarRef(name) => Some(Var(name))
      case Access(target, feature) => Some(PropertyAccess(target, feature))
      case UnaryOperation(op, operand) =>
        var o := DecompileField(operand);
        if op == "not" && o.Some? then Some(Unary(Not, o.value)) else None
      case BinaryOperation(op, left, right) =>
        var l, r, o := DecompileField(left), DecompileField(right), OpOfName(op);
        if l.Some? && r.Some? && o.Some? then Some(Binary(o.value, l.value, r.value)) else None
  }

  function DecompileArgs(args: seq<CompiledExpression>): Option<seq<Expr>> {
    if args == [] then Some([])
    else
      var first, rest := DecompileField(Some(args[0])), DecompileArgs(args[1..]);
      if first.Some? && rest.Some? then Some([first.value] + rest.value) else None
  }

  function DecompileStmt(c: CompiledStatement): Option<Stmt> {
    match c.kind
    case None => None
    case Some(LetStmt(name, value)) =>
      var v := DecompileField(value);
      if v.Some? then Some(Let(name, v.value)) else None
    case Some(AssignStmt(target, feature, value)) =>
      var v := DecompileField(value);
      if v.Some? then Some(Assign(target, feature, v.value)) else None
    case Some(IfStmt(condition, thenBranch, elseBranch)) =>
      var v, t, e := DecompileField(condition), DecompileProgram(thenBranch), DecompileProgram(elseBranch);
      if v.Some? && t.Some? && e.Some? then Some(If(v.value, t.value, e.value)) else None
    case Some(InvokeStmt(name, args)) =>
      var a := DecompileArgs(args);
      if a.Some? then Some(Invoke(name, a.value)) else None
    case Some(SendSignalStmt(name, args)) =>
      var a := DecompileArgs(args);
      if a.Some? then Some(SendSignal(name, a.value)) else None
  }

  function DecompileProgram(cs: seq<CompiledStatement>): Option<seq<Stmt>> {
    if cs == [] then Some([])
    else
      var first, rest := DecompileStmt(cs[0]), DecompileProgram(cs[1..]);
      if first.Some? && rest.Some? then Some([first.value] + rest.value) else None
  }

  lemma OpNameReadsBack(op: BinaryOp)
    ensures OpOfName(OpName(op)) == Some(op)
  {
  }

  lemma {:induction false} ExprReadsBack(e: Expr)
    ensures DecompileField(Some(CompileExpr(e))) == Some(e)
  {
    hide OpName, OpOfName;
    match e {
      case Unary(Not, operand) => ExprReadsBack(operand);
      case Binary(op, left, right) =>
        OpNameReadsBack(op);
        ExprReadsBack(left);
        ExprReadsBack(right);
      case _ =>
    }
  }

  lemma {:induction false} ArgsReadBack(args: seq<Expr>)
    ensures DecompileArgs(CompileArgs(args)) == Some(args)
  {
    if args != [] {
      ExprReadsBack(args[0]);
      ArgsReadBack(args[1..]);
      assert CompileArgs(args)[1..] == CompileArgs(args[1..]);
      assert args == [args[0]] + args[1..];
    }
  }

  lemma {:induction false} StmtReadsBack(s: Stmt)
    ensures DecompileStmt(CompileStmt(s)) == Some(s)
    decreases s, 0
  {
    hide DecompileField, CompileExpr;
    match s {
      case Let(_, value) => ExprReadsBack(value);
      case Assign(_, _, value) => ExprReadsBack(value);
      case If(condition, thenBranch, elseBranch) =>
        ExprReadsBack(condition);
        CompiledReadsBack(thenBranch);
        CompiledReadsBack(elseBranch);
      case Invoke(_, args) => ArgsReadBack(args);
      case SendSignal(_, args) => ArgsReadBack(args);
    }
  }

  /** Compilation loses nothing: from the messages the program can be told. */
  lemma {:induction false} CompiledReadsBack(ss: seq<Stmt>)
    ensures DecompileProgram(CompileProgram(ss)) == Some(ss)
    decreases ss, 1
  {
    hide DecompileStmt, CompileStmt;
    if ss != [] {
      StmtReadsBack(ss[0]);
      CompiledReadsBack(ss[1..]);
      assert CompileProgram(ss)[1..] == CompileProgram(ss[1..]);
      assert ss == [ss[0]] + ss[1..];
    }
  }

  // ----- Meaning -----

  datatype Value = Truth(b: bool) | Number(r: real) | Text(s: string)

  /** Why running stops: a name that means nothing, a value of the wrong sort, a division by zero, or a
      message that is no expression or statement. */
  datatype Fault = NoSuchName(name: string) | WrongSort | DivisionByZero | Malformed

  datatype Outcome<+T> = Done(value: T) | Failed(fault: Fault)

  /** What a running action sees and changes. */
  datatype World = World(locals: map<string, Value>, turbine: map<string, Value>, sent: seq<string>)

  function Pow10(n: nat): (r: nat)
    ensures r > 0
  {
    if n == 0 then 1 else 10 * Pow10(n - 1)
  }

  function RealValue(whole: nat, fraction: string): real {
    if forall i :: 0 <= i < |fraction| ==> IsDigit(fraction[i]) then
      whole as real + Decimals.Value(fraction) as real / Pow10(|fraction|) as real
    else whole as real
  }

  function ReadLocal(w: World, name: string): Outcome<Value> {
    if name in w.locals then Done(w.locals[name]) else Failed(NoSuchName(name))
  }

  function ReadProperty(w: World, target: string, feature: string): Outcome<Value> {
    if target != "Turbine" then Failed(NoSuchName(target))
    else if feature in w.turbine then Done(w.turbine[feature]) else Failed(NoSuchName(feature))
  }

  function WriteProperty(w: World, target: string, feature: string, v: Value): Outcome<World> {
    if target != "Turbine" then Failed(NoSuchName(target))
    else if feature in w.turbine then Done(w.(turbine := w.turbine[feature := v])) else Failed(NoSuchName(feature))
  }

  function InvokeBehavior(w: World, name: string, args: seq<Value>): Outcome<World> {
    if name != "SetTurbineRpm" then Failed(NoSuchName(name))
    else if |args| != 1 then Failed(WrongSort)
    else WriteProperty(w, "Turbine", "rpm", args[0])
  }

  function ApplyNot(v: Value): Outcome<Value> {
    if v.Truth? then Done(Truth(!v.b)) else Failed(WrongSort)
  }

  predicate SameSort(a: Value, b: Value) {
    (a.Truth? && b.Truth?) || (a.Number? && b.Number?) || (a.Text? && b.Text?)
  }

  /** The language's operators, on values. Two values of one sort are equal or not. */
  function ApplyOp(op: BinaryOp, a: Value, b: Value): Outcome<Value> {
    if op == Eq || op == Ne then
      if SameSort(a, b) then Done(Truth((op == Eq) == (a == b))) else Failed(WrongSort)
    else if op == And || op == Or then
      if a.Truth? && b.Truth? then Done(Truth(if op == And then a.b && b.b else a.b || b.b)) else Failed(WrongSort)
    else if !(a.Number? && b.Number?) then Failed(WrongSort)
    else
      match op
      case Add => Done(Number(a.r + b.r))
      case Sub => Done(Number(a.r - b.r))
      case Mul => Done(Number(a.r * b.r))
      case Div => if b.r == 0.0 then Failed(DivisionByZero) else Done(Number(a.r / b.r))
      case Lt => Done(Truth(a.r < b.r))
      case Le => Done(Truth(a.r <= b.r))
      case Gt => Done(Truth(a.r > b.r))
      case Ge => Done(Truth(a.r >= b.r))
      case _ => Failed(WrongSort)
  }

  function Eval(e: Expr, w: World): Outcome<Value> {
    match e
    case Lit(Bool(b)) => Done(Truth(b))
    case Lit(Int(n)) => Done(Number(n as real))
    case Lit(Real(whole, fraction)) => Done(Number(RealValue(whole, fraction)))
    case Lit(Str(s)) => Done(Text(s))
    case Var(name) => ReadLocal(w, name)
    case PropertyAccess(target, feature) => ReadProperty(w, target, feature)
    case Unary(Not, operand) =>
      var v := Eval(operand, w);
      if v.Failed? then v else ApplyNot(v.value)
    case Binary(op, left, right) =>
      var a := Eval(left, w);
      if a.Failed? then a
      else
        var b := Eval(right, w);
        if b.Failed? then b else ApplyOp(op, a.value, b.value)
  }

  function EvalArgs(args: seq<Expr>, w: World): Outcome<seq<Value>> {
    if args == [] then Done([])
    else
      var v := Eval(args[0], w);
      if v.Failed? then Failed(v.fault)
      else
        var rest := EvalArgs(args[1..], w);
        if rest.Failed? then rest else Done([v.value] + rest.value)
  }

  function Exec(s: Stmt, w: World): Outcome<World> {
    match s
    case Let(name, value) =>
      var v := Eval(value, w);
      if v.Failed? then Failed(v.fault) else Done(w.(locals := w.locals[name := v.value]))
    case Assign(target, feature, value) =>
      var v := Eval(value, w);
      if v.Failed? then Failed(v.fault) else WriteProperty(w, target, feature, v.value)
    case Invoke(name, args) =>
      var vs := EvalArgs(args, w);
      if vs.Failed? then Failed(vs.fault) else InvokeBehavior(w, name, vs.value)
    case SendSignal(name, args) =>
      var vs := EvalArgs(args, w);
      if vs.Failed? then Failed(vs.fault) else Done(w.(sent := w.sent + [name]))
    case If(condition, thenBranch, elseBranch) =>
      var v := Eval(condition, w);
      if v.Failed? then Failed(v.fault)
      else if !v.value.Truth? then Failed(WrongSort)
      else if v.value.b then ExecAll(thenBranch, w) else ExecAll(elseBranch, w)
  }

  function ExecAll(ss: seq<Stmt>, w: World): Outcome<World> {
    if ss == [] then Done(w)
    else
      var next := Exec(ss[0], w);
      if next.Failed? then next else ExecAll(ss[1..], next.value)
  }

  // ----- The meaning of messages: operators are looked up by name -----

  function CallReal(name: string, a: Value, b: Value): Outcome<Value> {
    if !(a.Number? && b.Number?) then Failed(WrongSort)
    else
      match name
      case "Plus" => Done(Number(a.r + b.r))
      case "Minus" => Done(Number(a.r - b.r))
      case "Times" => Done(Number(a.r * b.r))
      case "Divide" => if b.r == 0.0 then Failed(DivisionByZero) else Done(Number(a.r / b.r))
      case "LessThan" => Done(Truth(a.r < b.r))
      case "LessThanEqual" => Done(Truth(a.r <= b.r))
      case "GreaterThan" => Done(Truth(a.r > b.r))
      case "GreaterThanEqual" => Done(Truth(a.r >= b.r))
      case _ => Failed(Malformed)
  }

  function CallBoolean(name: string, a: Outcome<Value>, b: Outcome<Value>): Outcome<Value> {
    if a.Failed? then a
    else if b.Failed? then b
    else if !(a.value.Truth? && b.value.Truth?) then Failed(WrongSort)
    else if name == "And" then Done(Truth(a.value.b && b.value.b))
    else Done(Truth(a.value.b || b.value.b))
  }

  function CallNot(a: Outcome<Value>): Outcome<Value> {
    if a.Failed? then a else ApplyNot(a.value)
  }

  /** The runtime has no equality of its own: it is put together from less and greater. */
  function RunBinary(op: string, a: Value, b: Value): Outcome<Value> {
    match op
    case "add" => CallReal("Plus", a, b)
    case "sub" => CallReal("Minus", a, b)
    case "mul" => CallReal("Times", a, b)
    case "div" => CallReal("Divide", a, b)
    case "lt" => CallReal("LessThan", a, b)
    case "le" => CallReal("LessThanEqual", a, b)
    case "gt" => CallReal("GreaterThan", a, b)
    case "ge" => CallReal("GreaterThanEqual", a, b)
    case "and" => CallBoolean("And", Done(a), Done(b))
    case "or" => CallBoolean("Or", Done(a), Done(b))
    case "eq" => CallNot(CallBoolean("Or", CallReal("LessThan", a, b), CallReal("GreaterThan", a, b)))
    case "ne" => CallBoolean("Or", CallReal("LessThan", a, b), CallReal("GreaterThan", a, b))
    case _ => Failed(Malformed)
  }

  function RunField(field: Option<CompiledExpression>, w: World): Outcome<Value> {
    match field
    case None => Failed(Malformed)
    case Some(CompiledExpression(None)) => Failed(Malformed)
    case Some(CompiledExpression(Some(kind))) =>
      match kind
      case BoolLiteral(b) => Done(Truth(b))
      case IntLiteral(n) => Done(Number(n as real))
      case RealLiteral(whole, fraction) => Done(Number(RealValue(whole, fraction)))
      case StringLiteral(s) => Done(Text(s))
      case VarRef(name) => ReadLocal(w, name)
      case Access(target, feature) => ReadProperty(w, target, feature)
      case UnaryOperation(op, operand) =>
        var v := RunField(operand, w);
        if v.Failed? then v else if op == "not" then ApplyNot(v.value) else Failed(Malformed)
      case BinaryOperation(op, left, right) =>
        var a := RunField(left, w);
        if a.Failed? then a
        else
          var b := RunField(right, w);
          if b.Failed? then b else RunBinary(op, a.value, b.value)
  }

  function RunArgs(args: seq<CompiledExpression>, w: World): Outcome<seq<Value>> {
    if args == [] then Done([])
    else
      var v := RunField(Some(args[0]), w);
      if v.Failed? then Failed(v.fault)
      else
        var rest := RunArgs(args[1..], w);
        if rest.Failed? then rest else Done([v.value] + rest.value)
  }

  function Run(c: CompiledStatement, w: World): Outcome<World> {
    match c.kind
    case None => Failed(Malformed)
    case Some(LetStmt(name, value)) =>
      var v := RunField(value, w);
      if v.Failed? then Failed(v.fault) else Done(w.(locals := w.locals[name := v.value]))
    case Some(AssignStmt(target, feature, value)) =>
      var v := RunField(value, w);
      if v.Failed? then Failed(v.fault) else WriteProperty(w, target, feature, v.value)
    case Some(InvokeStmt(name, args)) =>
      var vs := RunArgs(args, w);
      if vs.Failed? then Failed(vs.fault) else InvokeBehavior(w, name, vs.value)
    case Some(SendSignalStmt(name, args)) =>
      var vs := RunArgs(args, w);
      if vs.Failed? then Failed(vs.fault) else Done(w.(sent := w.sent + [name]))
    case Some(IfStmt(condition, thenBranch, elseBranch)) =>
      var v := RunField(condition, w);
      if v.Failed? then Failed(v.fault)
      else if !v.value.Truth? then Failed(WrongSort)
      else if v.value.b then RunAll(thenBranch, w) else RunAll(elseBranch, w)
  }

  function RunAll(cs: seq<CompiledStatement>, w: World): Outcome<World> {
    if cs == [] then Done(w)
    else
      var next := Run(cs[0], w);
      if next.Failed? then next else RunAll(cs[1..], next.value)
  }

  // ----- Where both meanings agree -----

  /** An equality that the runtime cannot tell: of two truths or of two texts. */
  predicate Untold(op: BinaryOp, a: Value, b: Value) {
    (op == Eq || op == Ne) && SameSort(a, b) && !a.Number?
  }

  lemma EqualityRuns(op: BinaryOp, a: Value, b: Value)
    requires op == Eq || op == Ne
    ensures RunBinary(OpName(op), a, b) == if a.Number? && b.Number? then ApplyOp(op, a, b) else Failed(WrongSort)
  {
    var unequal := CallBoolean("Or", CallReal("LessThan", a, b), CallReal("GreaterThan", a, b));
    assert RunBinary("ne", a, b) == unequal && RunBinary("eq", a, b) == CallNot(unequal);
  }

  lemma OthersKeepTheirMeaning(op: BinaryOp, a: Value, b: Value)
    requires op != Eq && op != Ne
    ensures RunBinary(OpName(op), a, b) == ApplyOp(op, a, b)
  {
    match op {
      case Mul => assert RunBinary("mul", a, b) == CallReal("Times", a, b);
      case Div => assert RunBinary("div", a, b) == CallReal("Divide", a, b);
      case _ =>
    }
  }

  /** Each operator means under its name what it means in the language, but for the equality of truths and
      of texts, which is an error at run time. */
  lemma OperatorKeepsItsMeaning(op: BinaryOp, a: Value, b: Value)
    ensures RunBinary(OpName(op), a, b) == ApplyOp(op, a, b) <==> !Untold(op, a, b)
    ensures Untold(op, a, b) ==> RunBinary(OpName(op), a, b) == Failed(WrongSort)
  {
    hide RunBinary, OpName;
    if op == Eq || op == Ne {
      EqualityRuns(op, a, b);
    } else {
      OthersKeepTheirMeaning(op, a, b);
    }
  }

  /** Evaluating an expression comes to an equality that the runtime cannot tell. */
  predicate ComesToUntold(e: Expr, w: World) {
    match e
    case Unary(Not, operand) => ComesToUntold(operand, w)
    case Binary(op, left, right) =>
      || ComesToUntold(left, w)
      || (Eval(left, w).Done? && ComesToUntold(right, w))
      || (Eval(left, w).Done? && Eval(right, w).Done? && Untold(op, Eval(left, w).value, Eval(right, w).value))
    case _ => false
  }

  predicate ArgsComeToUntold(args: seq<Expr>, w: World) {
    args != [] && (ComesToUntold(args[0], w) || (Eval(args[0], w).Done? && ArgsComeToUntold(args[1..], w)))
  }

  predicate StmtComesToUntold(s: Stmt, w: World) {
    match s
    case Let(_, value) => ComesToUntold(value, w)
    case Assign(_, _, value) => ComesToUntold(value, w)
    case Invoke(_, args) => ArgsComeToUntold(args, w)
    case SendSignal(_, args) => ArgsComeToUntold(args, w)
    case If(condition, thenBranch, elseBranch) =>
      || ComesToUntold(condition, w)
      || (Eval(condition, w) == Done(Truth(true)) && ProgramComesToUntold(thenBranch, w))
      || (Eval(condition, w) == Done(Truth(false)) && ProgramComesToUntold(elseBranch, w))
  }

  /** Running a program comes to an equality that the runtime cannot tell. */
  predicate ProgramComesToUntold(ss: seq<Stmt>, w: World) {
    ss != [] &&
    (StmtComesToUntold(ss[0], w) || (Exec(ss[0], w).Done? && ProgramComesToUntold(ss[1..], Exec(ss[0], w).value)))
  }

  lemma {:induction false} ExprKeepsItsMeaning(e: Expr, w: World)
    ensures RunField(Some(CompileExpr(e)), w) == if ComesToUntold(e, w) then Failed(WrongSort) else Eval(e, w)
    decreases e
  {
    hide RunBinary, ApplyOp, OpName, RealValue, Untold;
    match e {
      case Unary(Not, operand) => ExprKeepsItsMeaning(operand, w);
      case Binary(op, left, right) =>
        ExprKeepsItsMeaning(left, w);
        ExprKeepsItsMeaning(right, w);
        if Eval(left, w).Done? && Eval(right, w).Done? {
          OperatorKeepsItsMeaning(op, Eval(left, w).value, Eval(right, w).value);
        }
      case _ =>
    }
  }

  lemma {:induction false} ArgsKeepTheirMeaning(args: seq<Expr>, w: World)
    ensures RunArgs(CompileArgs(args), w) == if ArgsComeToUntold(args, w) then Failed(WrongSort) else EvalArgs(args, w)
    decreases |args|
  {
    hide RunField, CompileExpr, Eval, ComesToUntold;
    if args != [] {
      ExprKeepsItsMeaning(args[0], w);
      ArgsKeepTheirMeaning(args[1..], w);
      assert CompileArgs(args)[1..] == CompileArgs(args[1..]);
    }
  }

  lemma {:induction false} StmtKeepsItsMeaning(s: Stmt, w: World)
    ensures Run(CompileStmt(s), w) == if StmtComesToUntold(s, w) then Failed(WrongSort) else Exec(s, w)
    decreases s, 0
  {
    hide RunField, CompileExpr, Eval, CompileArgs, EvalArgs, RunArgs, WriteProperty, InvokeBehavior;
    hide ComesToUntold, ArgsComeToUntold;
    match s {
      case Let(_, value) => ExprKeepsItsMeaning(value, w);
      case Assign(_, _, value) => ExprKeepsItsMeaning(value, w);
      case If(condition, thenBranch, elseBranch) =>
        ExprKeepsItsMeaning(condition, w);
        ProgramRunsAs(thenBranch, w);
        ProgramRunsAs(elseBranch, w);
      case Invoke(_, args) => ArgsKeepTheirMeaning(args, w);
      case SendSignal(_, args) => ArgsKeepTheirMeaning(args, w);
    }
  }

  /** Running the messages does to every world what the program does, up to an equality that is not told. */
  lemma {:induction false} ProgramRunsAs(ss: seq<Stmt>, w: World)
    ensures RunAll(CompileProgram(ss), w) == if ProgramComesToUntold(ss, w) then Failed(WrongSort) else ExecAll(ss, w)
    decreases ss, 1
  {
    hide Run, CompileStmt, Exec, StmtComesToUntold;
    if ss != [] {
      StmtKeepsItsMeaning(ss[0], w);
      assert CompileProgram(ss)[1..] == CompileProgram(ss[1..]);
      if Exec(ss[0], w).Done? {
        ProgramRunsAs(ss[1..], Exec(ss[0], w).value);
      }
    }
  }

  /** The messages mean what the program means unless it comes to an equality of truths or texts, when they
      agree only if the program itself ends in an error of that sort. */
  lemma ProgramKeepsItsMeaning(ss: seq<Stmt>, w: World)
    ensures RunAll(CompileProgram(ss), w) == ExecAll(ss, w) <==>
            !ProgramComesToUntold(ss, w) || ExecAll(ss, w) == Failed(WrongSort)
  {
    hide *;
    ProgramRunsAs(ss, w);
  }

  lemma OneStatementRuns(s: Stmt, w: World)
    ensures RunAll(CompileProgram([s]), w) == if StmtComesToUntold(s, w) then Failed(WrongSort) else Exec(s, w)
    ensures ExecAll([s], w) == Exec(s, w)
  {
    hide StmtComesToUntold, Exec, RunAll, CompileProgram;
    ProgramRunsAs([s], w);
  }

  /** An action of the language that the runtime refuses. */
  lemma EqualTruthsAreRefused(w: World)
    ensures var ss := [Let("same", Binary(Eq, Lit(Bool(true)), Lit(Bool(true))))];
            && ExecAll(ss, w) == Done(w.(locals := w.locals["same" := Truth(true)]))
            && RunAll(CompileProgram(ss), w) == Failed(WrongSort)
  {
    hide ExecAll, RunAll, CompileProgram;
    var equal := Binary(Eq, Lit(Bool(true)), Lit(Bool(true)));
    OneStatementRuns(Let("same", equal), w);
    assert Eval(equal, w) == Done(Truth(true)) && ComesToUntold(equal, w);
  }
}
