/**
  The two recursive-descent, precedence-climbing parsers of formulas. They
  share one algorithm and differ in their operator set, in how identifiers
  resolve, in the wording of errors and in whether the result is simplified;
  a `Dialect` selects between them. The lexer's token stream is read by index.
 */
module Parser {
  import opened Wrappers
  import opened Doubles
  import opened Operators
  import Intrinsics
  import Constants
  import opened Expressions
  import ExpressionFacts
  import Lexer
  import MathLib

  /**
    `Classic` is the parser that resolves variables through a callback;
    `Positional` is the expression parser that binds identifiers to the
    positions of a list of parameter names.
   */
  datatype Dialect =
    | Classic(tryGetVariable: string -> Wrappers.Option<nat>)
    | Positional(varNames: seq<string>)

  /** The errors a parse can end in; `Text` gives the wording each dialect uses. */
  datatype Message =
    | InvalidToken
    | ExpectedExpression
    | ExpectedCloseParen
    | BadOperand
    | TrailingToken
    | UndefinedName(name: string)
    | ArgumentCount(fn: string, expected: nat)
    | UnknownFunction(fn: string)

  /** `ParseException`: the input, the position of the current token when the error was found, and the message. */
  datatype ParseError = ParseError(input: string, pos: nat, message: Message)

  /** An expression parsed so far and the index of the token after it. */
  datatype Parsed = Parsed(expr: Expr, next: nat)

  /**
    A token stream as the lexer yields it: real tokens, then one end-of-input
    or error token, which names no symbol.
   */
  predicate Stream(ts: seq<Lexer.Lexer>) {
    && |ts| >= 1
    && Lexer.Terminal(ts[|ts| - 1])
    && ts[|ts| - 1].symbol == Lexer.SymbolId.None
    && forall k :: 0 <= k < |ts| - 1 ==> !Lexer.Terminal(ts[k])
  }

  /** A position the parser can stand at: inside the stream, and not on an error token. */
  predicate At(ts: seq<Lexer.Lexer>, i: nat) {
    Stream(ts) && i < |ts| && !Lexer.HaveError(ts[i])
  }

  function Fail<T>(lx: Lexer.Lexer, message: Message): Result<T, ParseError> {
    Err(ParseError(lx.input, Lexer.TokenPos(lx), message))
  }

  /** The variables a parsed expression may read: any, or those of the parameter list. */
  predicate InScope(d: Dialect, e: Expr) {
    d.Positional? ==> VarsBelow(e, |d.varNames|)
  }

  // ---------------------------------------------------------------------------
  // The tables of each dialect

  /** `GetBinaryOp`: the classic parser knows + - * / ^, the expression parser the whole table. */
  function BinaryOpOf(d: Dialect, id: Lexer.SymbolId): (r: Wrappers.Option<BinaryOp>)
    ensures r.Some? ==> r == OperatorFor(id)
    ensures d.Positional? ==> r == OperatorFor(id)
    ensures d.Classic? && r.Some? ==> r.value in {Add, Subtract, BinaryOp.Multiply, BinaryOp.Divide, BinaryOp.Power}
  {
    match d
    case Classic(_) =>
      (match id
       case Plus => Some(Add)
       case Minus => Some(Subtract)
       case Multiply => Some(BinaryOp.Multiply)
       case Divide => Some(BinaryOp.Divide)
       case Caret => Some(BinaryOp.Power)
       case _ => Wrappers.None)
    case Positional(_) => OperatorFor(id)
  }

  /** The decimal digits of a natural number. */
  function NatToString(n: nat): (s: string)
    ensures |s| > 0
  {
    var digit := ['0' + (n % 10) as char];
    if n < 10 then digit else NatToString(n / 10) + digit
  }

  /** The items of a list, each on a line of its own behind " - ". */
  function Bullets(names: seq<string>): string {
    if |names| == 0 then "" else "\n - " + names[0] + Bullets(names[1..])
  }

  function IntrinsicNames(fs: seq<Intrinsics.Intrinsic>): (names: seq<string>)
    ensures |names| == |fs| && forall k :: 0 <= k < |fs| ==> names[k] == Intrinsics.Name(fs[k])
  {
    if |fs| == 0 then [] else [Intrinsics.Name(fs[0])] + IntrinsicNames(fs[1..])
  }

  /** The exception message: the classic parser is terse, the expression parser lists what it knows. */
  function Text(d: Dialect, m: Message): string {
    match m
    case InvalidToken => "Invalid token."
    case ExpectedExpression => "Expected expression."
    case ExpectedCloseParen => "Expected )."
    case BadOperand => if d.Classic? then "Syntax error." else "Invalid expression."
    case TrailingToken => if d.Classic? then "Unexpected token." else "Invalid expression."
    case UndefinedName(name) =>
      if d.Classic? then "Variable or constant " + name + " not defined."
      else "Variable or constant " + name + " not defined. Named constants are:" + Bullets(Constants.Names)
    case ArgumentCount(name, n) =>
      if d.Classic? then "One argument expected for " + name + "()."
      else NatToString(n) + " arguments expected for " + name + "()."
    case UnknownFunction(name) =>
      if d.Classic? then "Unknown function: " + name + "."
      else "Unknown function: " + name + ". Known functions are:" + Bullets(IntrinsicNames(Intrinsics.All))
  }

  /** The first position of `name` in the parameter list, if it is there. */
  function IndexOf(names: seq<string>, name: string): (r: Wrappers.Option<nat>)
    ensures r.Some? ==> (r.value < |names| && names[r.value] == name
      && forall k :: 0 <= k < r.value ==> names[k] != name)
    ensures r.None? <==> name !in names
  {
    if |names| == 0 then Wrappers.None
    else if names[0] == name then Some(0)
    else match IndexOf(names[1..], name)
      case None => Wrappers.None
      case Some(k) => Some(k + 1)
  }

  /**
    An identifier that is not followed by `(`: a variable first, then a named
    constant. The error is reported at the token after the identifier.
   */
  function ResolveName(d: Dialect, name: string, at: Lexer.Lexer): (r: Result<Expr, ParseError>)
    ensures r.Ok? ==> r.value.Var? || r.value.Const?
    ensures d.Positional? ==> (r.Ok? && r.value.Var? <==> name in d.varNames)
    ensures d.Positional? && r.Ok? && r.value.Var? ==>
      r.value.index < |d.varNames| && d.varNames[r.value.index] == name
      && forall k :: 0 <= k < r.value.index ==> d.varNames[k] != name
    ensures d.Classic? ==> (r.Ok? && r.value.Var? <==> d.tryGetVariable(name).Some?)
    ensures r.Ok? && r.value.Const? ==> Constants.Lookup(name) == Some(r.value.value)
    ensures r.Err? <==> (Constants.Lookup(name).None? &&
      if d.Positional? then name !in d.varNames else d.tryGetVariable(name).None?)
  {
    var variable := match d
      case Classic(tryGetVariable) => tryGetVariable(name)
      case Positional(varNames) => IndexOf(varNames, name);
    if variable.Some? then Ok(Var(variable.value))
    else match Constants.Lookup(name)
      case Some(v) => Ok(Const(v))
      case None => Fail(at, UndefinedName(name))
  }

  /**
    `CreateFunctionExpression`: the classic parser accepts the one-argument
    intrinsics with exactly one argument; the expression parser accepts every
    intrinsic with exactly its parameter count. The error is reported at the
    token after the closing parenthesis.
   */
  function CreateCall(d: Dialect, name: string, args: seq<Expr>, at: Lexer.Lexer): (r: Result<Expr, ParseError>)
    ensures r.Ok? <==> (Intrinsics.Lookup(name).Some? && |args| == Intrinsics.Arity(Intrinsics.Lookup(name).value)
      && (d.Classic? ==> |args| == 1))
    ensures r.Ok? ==> r.value == Call(Intrinsics.Lookup(name).value, args)
  {
    match Intrinsics.Lookup(name)
    case Some(f) =>
      if d.Classic? && Intrinsics.Arity(f) != 1 then Fail(at, UnknownFunction(name))
      else if |args| != Intrinsics.Arity(f) then Fail(at, ArgumentCount(name, Intrinsics.Arity(f)))
      else Ok(Call(f, args))
    case None => Fail(at, UnknownFunction(name))
  }

  // ---------------------------------------------------------------------------
  // The recursive descent

  /** `Advance`: step past the current token and report an error token as "Invalid token.". */
  function Advance(ts: seq<Lexer.Lexer>, i: nat): (r: Result<nat, ParseError>)
    requires Stream(ts) && i < |ts| && !Lexer.Terminal(ts[i])
    ensures r.Ok? ==> r.value == i + 1 && At(ts, i + 1)
    ensures r.Err? <==> Lexer.HaveError(ts[i + 1])
  {
    if Lexer.HaveError(ts[i + 1]) then Fail(ts[i + 1], InvalidToken) else Ok(i + 1)
  }

  /** What every successful parse step promises: it consumed tokens and built a well-formed tree. */
  predicate Progress(d: Dialect, ts: seq<Lexer.Lexer>, i: nat, r: Result<Parsed, ParseError>) {
    r.Ok? ==> i < r.value.next && At(ts, r.value.next) && Valid(r.value.expr) && InScope(d, r.value.expr)
  }

  /** `expr -> unary (BinOp expr)*`: a unary operand, then binary operators from the lowest precedence up. */
  function ParseExpression(d: Dialect, ts: seq<Lexer.Lexer>, i: nat): (r: Result<Parsed, ParseError>)
    requires At(ts, i)
    ensures Progress(d, ts, i, r)
    ensures r.Ok? ==> BinaryOpOf(d, ts[r.value.next].symbol).None?
    decreases |ts| - i, 3
  {
    if !Lexer.HaveToken(ts[i]) then Fail(ts[i], ExpectedExpression)
    else
      var u :- ParseUnary(d, ts, i);
      match BinaryOpOf(d, ts[u.next].symbol)
      case None => Ok(u)
      case Some(op) => ParseBinary(d, ts, u.expr, Some(op), u.next, Precedence.None)
  }

  /**
    `ParseBinaryExpression`: while the pending operator binds at least as
    tightly as `minPrec`, step past it, parse the right operand, let tighter
    operators after it claim that operand, and fold the result into `left`.
   */
  function ParseBinary(d: Dialect, ts: seq<Lexer.Lexer>, left: Expr, op: Wrappers.Option<BinaryOp>, i: nat, minPrec: Precedence)
    : (r: Result<Parsed, ParseError>)
    requires At(ts, i) && Valid(left) && InScope(d, left)
    requires op == BinaryOpOf(d, ts[i].symbol)
    ensures r.Ok? ==> i <= r.value.next && At(ts, r.value.next) && Valid(r.value.expr) && InScope(d, r.value.expr)
    ensures r.Ok? && op.Some? && Level(BinaryPrecedence(op.value)) >= Level(minPrec) ==> i < r.value.next
    ensures r.Ok? ==> match BinaryOpOf(d, ts[r.value.next].symbol)
      case None => true
      case Some(next) => Level(BinaryPrecedence(next)) < Level(minPrec)
    decreases |ts| - i, 1
  {
    if op.None? || Level(BinaryPrecedence(op.value)) < Level(minPrec) then Ok(Parsed(left, i))
    else
      var j :- Advance(ts, i);
      var right :- ParseUnary(d, ts, j);
      var claimed :- ClaimRight(d, ts, right.expr, op.value, right.next);
      ParseBinary(d, ts, Binary(op.value, left, claimed.expr), BinaryOpOf(d, ts[claimed.next].symbol), claimed.next, minPrec)
  }

  /** The inner loop: operators tighter than `op` that follow the right operand take it as their left one. */
  function ClaimRight(d: Dialect, ts: seq<Lexer.Lexer>, right: Expr, op: BinaryOp, i: nat): (r: Result<Parsed, ParseError>)
    requires At(ts, i) && Valid(right) && InScope(d, right)
    ensures r.Ok? ==> i <= r.value.next && At(ts, r.value.next) && Valid(r.value.expr) && InScope(d, r.value.expr)
    ensures r.Ok? ==> match BinaryOpOf(d, ts[r.value.next].symbol)
      case None => true
      case Some(next) => Level(BinaryPrecedence(next)) <= Level(BinaryPrecedence(op))
    decreases |ts| - i, 2
  {
    var nextOp := BinaryOpOf(d, ts[i].symbol);
    if nextOp.Some? && Level(BinaryPrecedence(nextOp.value)) > Level(BinaryPrecedence(op)) then
      var raised :- ParseBinary(d, ts, right, nextOp, i, BinaryPrecedence(nextOp.value));
      ClaimRight(d, ts, raised.expr, op, raised.next)
    else Ok(Parsed(right, i))
  }

  /**
    `unary -> Number | Identifier | Identifier '(' expr (',' expr)* ')' | '(' expr ')' | '-' unary`.
   */
  function ParseUnary(d: Dialect, ts: seq<Lexer.Lexer>, i: nat): (r: Result<Parsed, ParseError>)
    requires At(ts, i)
    ensures Progress(d, ts, i, r)
    ensures ts[i].kind == Lexer.TokenType.Number ==>
      (r.Ok? <==> !Lexer.HaveError(ts[i + 1])) && (r.Ok? ==> r.value == Parsed(Const(ts[i].value), i + 1))
    ensures ts[i].kind == Lexer.TokenType.Symbol && ts[i].symbol == Lexer.Minus && r.Ok? ==>
      r.value.expr.Unary? && r.value.expr.uop == Negative
    ensures (ts[i].kind != Lexer.TokenType.Number && ts[i].kind != Lexer.TokenType.Identifier
      && ts[i].symbol != Lexer.LeftParen && ts[i].symbol != Lexer.Minus) ==> r == Fail(ts[i], BadOperand)
    decreases |ts| - i, 2
  {
    var lx := ts[i];
    if lx.kind == Lexer.TokenType.Number then
      var j :- Advance(ts, i);
      Ok(Parsed(Const(lx.value), j))
    else if lx.kind == Lexer.TokenType.Identifier then ParseIdentifier(d, ts, i)
    else if lx.symbol == Lexer.LeftParen then ParseGroup(d, ts, i)
    else if lx.symbol == Lexer.Minus then
      var j :- Advance(ts, i);
      var operand :- ParseUnary(d, ts, j);
      Ok(Parsed(Unary(Negative, operand.expr), operand.next))
    else Fail(lx, BadOperand)
  }

  /** An identifier: a call when `(` follows it, otherwise a variable or a named constant. */
  function ParseIdentifier(d: Dialect, ts: seq<Lexer.Lexer>, i: nat): (r: Result<Parsed, ParseError>)
    requires At(ts, i) && ts[i].kind == Lexer.TokenType.Identifier
    ensures Progress(d, ts, i, r)
    ensures r.Ok? && ts[i + 1].symbol == Lexer.LeftParen ==> r.value.expr.Call?
    ensures r.Ok? && ts[i + 1].symbol != Lexer.LeftParen ==>
      (r.value.expr.Var? || r.value.expr.Const?) && r.value.next == i + 1
    ensures r.Err? && !Lexer.HaveError(ts[i + 1]) && ts[i + 1].symbol != Lexer.LeftParen ==>
      r == Fail(ts[i + 1], UndefinedName(Lexer.TokenString(ts[i])))
    decreases |ts| - i, 1
  {
    var name := Lexer.TokenString(ts[i]);
    var j :- Advance(ts, i);
    if ts[j].symbol == Lexer.LeftParen then ParseCall(d, ts, name, j)
    else
      var e :- ResolveName(d, name, ts[j]);
      Ok(Parsed(e, j))
  }

  /** The argument list in parentheses after a function name, then the call itself. */
  function ParseCall(d: Dialect, ts: seq<Lexer.Lexer>, name: string, i: nat): (r: Result<Parsed, ParseError>)
    requires At(ts, i) && ts[i].symbol == Lexer.LeftParen
    ensures Progress(d, ts, i, r)
    ensures r.Ok? ==> r.value.expr.Call? && Intrinsics.Lookup(name) == Some(r.value.expr.f)
    decreases |ts| - i, 0
  {
    var k :- Advance(ts, i);
    var args :- ParseArgs(d, ts, k, []);
    CloseCall(d, ts, name, args.0, args.1)
  }

  /** After the arguments: the closing parenthesis, then the call node for them. */
  function CloseCall(d: Dialect, ts: seq<Lexer.Lexer>, name: string, args: seq<Expr>, i: nat): (r: Result<Parsed, ParseError>)
    requires At(ts, i)
    requires forall k :: 0 <= k < |args| ==> Valid(args[k]) && InScope(d, args[k])
    ensures r.Ok? ==> i < r.value.next && At(ts, r.value.next) && Valid(r.value.expr) && InScope(d, r.value.expr)
    ensures ts[i].symbol != Lexer.RightParen ==> r == Fail(ts[i], ExpectedCloseParen)
    ensures r.Ok? ==> (ts[i].symbol == Lexer.RightParen && r.value.next == i + 1
      && Intrinsics.Lookup(name).Some? && r.value.expr == Call(Intrinsics.Lookup(name).value, args))
  {
    if ts[i].symbol != Lexer.RightParen then Fail(ts[i], ExpectedCloseParen)
    else
      var l :- Advance(ts, i);
      var call :- CreateCall(d, name, args, ts[l]);
      CallInScope(d, call.f, args);
      Ok(Parsed(call, l))
  }

  /** A call reads only the variables its arguments read. */
  lemma CallInScope(d: Dialect, f: Intrinsics.Intrinsic, args: seq<Expr>)
    requires forall k :: 0 <= k < |args| ==> InScope(d, args[k])
    ensures InScope(d, Call(f, args))
  {
  }

  /** `'(' expr ')'`: the inner expression itself; parentheses leave no node behind. */
  function ParseGroup(d: Dialect, ts: seq<Lexer.Lexer>, i: nat): (r: Result<Parsed, ParseError>)
    requires At(ts, i) && ts[i].symbol == Lexer.LeftParen
    ensures Progress(d, ts, i, r)
    ensures r.Ok? ==> ts[r.value.next - 1].symbol == Lexer.RightParen
    decreases |ts| - i, 1
  {
    var j :- Advance(ts, i);
    var inner :- ParseExpression(d, ts, j);
    if ts[inner.next].symbol != Lexer.RightParen then Fail(ts[inner.next], ExpectedCloseParen)
    else
      var k :- Advance(ts, inner.next);
      Ok(Parsed(inner.expr, k))
  }

  /** The argument list of a call: expressions separated by commas, appended to `acc`. */
  function ParseArgs(d: Dialect, ts: seq<Lexer.Lexer>, i: nat, acc: seq<Expr>): (r: Result<(seq<Expr>, nat), ParseError>)
    requires At(ts, i)
    requires forall k :: 0 <= k < |acc| ==> Valid(acc[k]) && InScope(d, acc[k])
    ensures r.Ok? ==> i < r.value.1 && At(ts, r.value.1) && |r.value.0| > |acc| && r.value.0[..|acc|] == acc
    ensures r.Ok? ==> forall k :: 0 <= k < |r.value.0| ==> Valid(r.value.0[k]) && InScope(d, r.value.0[k])
    ensures r.Ok? ==> ts[r.value.1].symbol != Lexer.Comma
    decreases |ts| - i, 4
  {
    var e :- ParseExpression(d, ts, i);
    if ts[e.next].symbol == Lexer.Comma then
      var j :- Advance(ts, e.next);
      ParseArgs(d, ts, j, acc + [e.expr])
    else Ok((acc + [e.expr], e.next))
  }

  /**
    `Parse`: the first token may already be an error; then one expression,
    which must be followed by the end of input. The expression parser returns
    the simplified tree.
   */
  function Parse(d: Dialect, input: string, lib: MathLib.MathLib): (r: Result<Expr, ParseError>)
    ensures r.Ok? ==> Valid(r.value) && InScope(d, r.value)
    ensures r.Ok? && d.Positional? ==> ExpressionFacts.Folded(r.value)
  {
    var ts := Lexer.Tokens(input);
    if Lexer.HaveError(ts[0]) then Fail(ts[0], InvalidToken)
    else
      var e :- ParseExpression(d, ts, 0);
      if ts[e.next].kind != Lexer.TokenType.None then Fail(ts[e.next], TrailingToken)
      else if d.Classic? then Ok(e.expr)
      else
        ExpressionFacts.SimplifyKeepsScope(e.expr, |d.varNames|, lib);
        ExpressionFacts.SimplifyFolds(e.expr, lib);
        Ok(Simplify(e.expr, lib))
  }
}
