/** What the parsers promise about whole inputs and small token streams. */
module ParserFacts {
  import opened Wrappers
  import opened Operators
  import opened Expressions
  import ExpressionFacts
  import Lexer
  import MathLib
  import opened Parser

  /**
    A parse that succeeds has read every token: the expression ends at the
    end-of-input token, so no token of the input was an error token.
   */
  lemma SuccessReadsWholeInput(d: Dialect, input: string, lib: MathLib.MathLib)
    requires Parse(d, input, lib).Ok?
    ensures var ts := Lexer.Tokens(input);
      && !Lexer.HaveError(ts[0]) && ParseExpression(d, ts, 0).Ok?
      && ParseExpression(d, ts, 0).value.next == |ts| - 1
    ensures forall k :: 0 <= k < |Lexer.Tokens(input)| ==> !Lexer.HaveError(Lexer.Tokens(input)[k])
  {
    var ts := Lexer.Tokens(input);
    var e := ParseExpression(d, ts, 0);
    assert e.Ok? && ts[e.value.next].kind == Lexer.TokenType.None;
    assert e.value.next == |ts| - 1;
  }

  /**
    `Parse` succeeds exactly when one expression spans the whole token stream,
    and then returns that expression, simplified by the expression parser.
   */
  lemma ParseIsWholeExpression(d: Dialect, input: string, lib: MathLib.MathLib)
    ensures var ts := Lexer.Tokens(input);
      Parse(d, input, lib).Ok? <==>
        (!Lexer.HaveError(ts[0]) && ParseExpression(d, ts, 0).Ok? && ParseExpression(d, ts, 0).value.next == |ts| - 1)
    ensures var ts := Lexer.Tokens(input);
      Parse(d, input, lib).Ok? ==>
        Parse(d, input, lib).value == if d.Classic? then ParseExpression(d, ts, 0).value.expr
          else Simplify(ParseExpression(d, ts, 0).value.expr, lib)
  {
    var ts := Lexer.Tokens(input);
    if !Lexer.HaveError(ts[0]) && ParseExpression(d, ts, 0).Ok? {
      var e := ParseExpression(d, ts, 0).value;
      assert ts[e.next].kind == Lexer.TokenType.None <==> e.next == |ts| - 1;
    }
  }

  /**
    When the expression stops before the end of input, the token it stopped
    on is reported: "Unexpected token." or "Invalid expression.".
   */
  lemma TrailingTokenRejected(d: Dialect, input: string, lib: MathLib.MathLib)
    requires !Lexer.HaveError(Lexer.Tokens(input)[0]) && ParseExpression(d, Lexer.Tokens(input), 0).Ok?
    requires var ts := Lexer.Tokens(input); ts[ParseExpression(d, ts, 0).value.next].kind != Lexer.TokenType.None
    ensures var ts := Lexer.Tokens(input);
      Parse(d, input, lib) == Fail(ts[ParseExpression(d, ts, 0).value.next], TrailingToken)
  {
  }

  /** `( expr` followed by anything but `)` fails with "Expected )." at the token after the expression. */
  lemma GroupNeedsCloseParen(d: Dialect, ts: seq<Lexer.Lexer>, i: nat)
    requires At(ts, i) && ts[i].symbol == Lexer.LeftParen && !Lexer.HaveError(ts[i + 1])
    requires ParseExpression(d, ts, i + 1).Ok?
    requires ts[ParseExpression(d, ts, i + 1).value.next].symbol != Lexer.RightParen
    ensures ParseGroup(d, ts, i) == Fail(ts[ParseExpression(d, ts, i + 1).value.next], ExpectedCloseParen)
  {
  }

  /** `( expr )` is the inner expression itself, and parsing goes on after the `)`. */
  lemma GroupIsInner(d: Dialect, ts: seq<Lexer.Lexer>, i: nat)
    requires At(ts, i) && ts[i].kind == Lexer.TokenType.Symbol && ts[i].symbol == Lexer.LeftParen && !Lexer.HaveError(ts[i + 1])
    requires ParseExpression(d, ts, i + 1).Ok?
    requires var k := ParseExpression(d, ts, i + 1).value.next;
      ts[k].symbol == Lexer.RightParen && !Lexer.HaveError(ts[k + 1])
    ensures var inner := ParseExpression(d, ts, i + 1).value;
      ParseUnary(d, ts, i) == Ok(Parsed(inner.expr, inner.next + 1))
  {
    assert ParseUnary(d, ts, i) == ParseGroup(d, ts, i);
  }

  /** `- unary` is the negation of the operand after the minus. */
  lemma MinusNegatesOperand(d: Dialect, ts: seq<Lexer.Lexer>, i: nat)
    requires At(ts, i) && ts[i].kind == Lexer.TokenType.Symbol && ts[i].symbol == Lexer.Minus
    requires !Lexer.HaveError(ts[i + 1]) && ParseUnary(d, ts, i + 1).Ok?
    ensures var operand := ParseUnary(d, ts, i + 1).value;
      ParseUnary(d, ts, i) == Ok(Parsed(Unary(Negative, operand.expr), operand.next))
  {
  }

  /** `f(args` followed by anything but `)` fails with "Expected )." at that token. */
  lemma CallNeedsCloseParen(d: Dialect, ts: seq<Lexer.Lexer>, name: string, i: nat)
    requires At(ts, i) && ts[i].symbol == Lexer.LeftParen && !Lexer.HaveError(ts[i + 1])
    requires ParseArgs(d, ts, i + 1, []).Ok?
    requires ts[ParseArgs(d, ts, i + 1, []).value.1].symbol != Lexer.RightParen
    ensures ParseCall(d, ts, name, i) == Fail(ts[ParseArgs(d, ts, i + 1, []).value.1], ExpectedCloseParen)
  {
  }

  /** The expression parser's result is already simplified: simplifying it again changes nothing. */
  lemma PositionalResultIsSimplified(varNames: seq<string>, input: string, lib: MathLib.MathLib)
    requires Parse(Positional(varNames), input, lib).Ok?
    ensures Simplify(Parse(Positional(varNames), input, lib).value, lib) == Parse(Positional(varNames), input, lib).value
  {
    ExpressionFacts.FoldedIsFixpoint(Parse(Positional(varNames), input, lib).value, lib);
  }

  /** Where an expression must start, the end of input is reported as "Expected expression." at that token. */
  lemma EndWhereExpressionExpected(d: Dialect, ts: seq<Lexer.Lexer>, i: nat)
    requires At(ts, i) && ts[i].kind == Lexer.TokenType.None
    ensures ParseExpression(d, ts, i) == Err(ParseError(ts[i].input, Lexer.TokenPos(ts[i]), ExpectedExpression))
  {
  }

  /** `f()` is rejected: an argument list needs at least one expression, and `)` cannot start one. */
  lemma EmptyArgumentListRejected(d: Dialect, ts: seq<Lexer.Lexer>, i: nat)
    requires At(ts, i) && i + 2 < |ts| - 1
    requires ts[i].kind == Lexer.TokenType.Identifier
    requires ts[i + 1].symbol == Lexer.LeftParen
    requires ts[i + 2].kind == Lexer.TokenType.Symbol && ts[i + 2].symbol == Lexer.RightParen
    ensures ParseUnary(d, ts, i) == Err(ParseError(ts[i + 2].input, Lexer.TokenPos(ts[i + 2]), BadOperand))
  {
    assert !Lexer.HaveError(ts[i + 1]) && !Lexer.HaveError(ts[i + 2]);
    ArgumentCannotStartWithCloseParen(d, ts, i + 2);
    assert ParseCall(d, ts, Lexer.TokenString(ts[i]), i + 1) == Fail(ts[i + 2], BadOperand);
  }

  /** An argument list whose first token is `)` fails where the expression should start. */
  lemma ArgumentCannotStartWithCloseParen(d: Dialect, ts: seq<Lexer.Lexer>, j: nat)
    requires At(ts, j) && j < |ts| - 1
    requires ts[j].kind == Lexer.TokenType.Symbol && ts[j].symbol == Lexer.RightParen
    ensures ParseArgs(d, ts, j, []) == Fail(ts[j], BadOperand)
  {
    assert ParseUnary(d, ts, j) == Fail(ts[j], BadOperand);
    assert ParseExpression(d, ts, j) == Fail(ts[j], BadOperand);
  }

  // Examples. The general precedence results are PrecedenceFacts.ChainParsesToOrderedTree
  // and PrecedenceFacts.ChainFoldsLeft; the lemma below works one three-operand chain out
  // step by step through ParseBinary and ClaimRight.

  /** A token stream of three numbers joined by two binary operators, then the end of input. */
  predicate ThreeOperandStream(d: Dialect, ts: seq<Lexer.Lexer>, op1: BinaryOp, op2: BinaryOp) {
    && Stream(ts) && |ts| == 6
    && ts[0].kind == Lexer.TokenType.Number
    && ts[2].kind == Lexer.TokenType.Number
    && ts[4].kind == Lexer.TokenType.Number
    && ts[1].kind == Lexer.TokenType.Symbol && BinaryOpOf(d, ts[1].symbol) == Some(op1)
    && ts[3].kind == Lexer.TokenType.Symbol && BinaryOpOf(d, ts[3].symbol) == Some(op2)
    && ts[5].kind == Lexer.TokenType.None
  }

  /**
    `a op1 b op2 c`: the second operator takes `b` as its left operand only
    when it binds strictly tighter than the first; operators of equal
    precedence, `^` included, fold to the left.
   */
  lemma ThreeOperandAssociation(d: Dialect, ts: seq<Lexer.Lexer>, op1: BinaryOp, op2: BinaryOp)
    requires ThreeOperandStream(d, ts, op1, op2)
    ensures var a, b, c := Const(ts[0].value), Const(ts[2].value), Const(ts[4].value);
      ParseExpression(d, ts, 0) == Ok(Parsed(
        if Level(BinaryPrecedence(op2)) > Level(BinaryPrecedence(op1))
        then Binary(op1, a, Binary(op2, b, c))
        else Binary(op2, Binary(op1, a, b), c), 5))
  {
    var a, b, c := Const(ts[0].value), Const(ts[2].value), Const(ts[4].value);
    assert !Lexer.Terminal(ts[0]) && !Lexer.Terminal(ts[1]) && !Lexer.Terminal(ts[2]) && !Lexer.Terminal(ts[3]);
    assert BinaryOpOf(d, ts[5].symbol).None?;
    assert ParseUnary(d, ts, 0) == Ok(Parsed(a, 1));
    assert ParseUnary(d, ts, 2) == Ok(Parsed(b, 3));
    assert ParseUnary(d, ts, 4) == Ok(Parsed(c, 5));
    assert ClaimRight(d, ts, c, op2, 5) == Ok(Parsed(c, 5));
    if Level(BinaryPrecedence(op2)) > Level(BinaryPrecedence(op1)) {
      var bc := Binary(op2, b, c);
      assert ParseBinary(d, ts, bc, Option.None, 5, BinaryPrecedence(op2)) == Ok(Parsed(bc, 5));
      assert ParseBinary(d, ts, b, Some(op2), 3, BinaryPrecedence(op2)) == Ok(Parsed(bc, 5));
      assert ClaimRight(d, ts, bc, op1, 5) == Ok(Parsed(bc, 5));
      assert ClaimRight(d, ts, b, op1, 3) == Ok(Parsed(bc, 5));
      assert ParseBinary(d, ts, Binary(op1, a, bc), Option.None, 5, Precedence.None) == Ok(Parsed(Binary(op1, a, bc), 5));
      assert ParseBinary(d, ts, a, Some(op1), 1, Precedence.None) == Ok(Parsed(Binary(op1, a, bc), 5));
    } else {
      var ab := Binary(op1, a, b);
      assert ClaimRight(d, ts, b, op1, 3) == Ok(Parsed(b, 3));
      assert ParseBinary(d, ts, Binary(op2, ab, c), Option.None, 5, Precedence.None) == Ok(Parsed(Binary(op2, ab, c), 5));
      assert ParseBinary(d, ts, ab, Some(op2), 3, Precedence.None) == Ok(Parsed(Binary(op2, ab, c), 5));
      assert ParseBinary(d, ts, a, Some(op1), 1, Precedence.None) == Ok(Parsed(Binary(op2, ab, c), 5));
    }
  }
}
