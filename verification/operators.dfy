/** Operator precedence and the unary and binary operator tables. */
module Operators {
  import opened Doubles
  import opened Booleans
  import MathLib
  import Wrappers
  import Lexer

  /** Binding strength, weakest first; `Level` is the enum's underlying value. */
  datatype Precedence = None | BoolOr | BoolAnd | Comparison | AddSub | MulDiv | Power | UnaryPrefix | Atomic

  function Level(p: Precedence): nat {
    match p
    case None => 0
    case BoolOr => 1
    case BoolAnd => 2
    case Comparison => 3
    case AddSub => 4
    case MulDiv => 5
    case Power => 6
    case UnaryPrefix => 7
    case Atomic => 8
  }

  /** The prefix operators. The only one is negation. */
  datatype UnaryOp = Negative

  function UnaryPrecedence(op: UnaryOp): Precedence {
    Precedence.UnaryPrefix
  }

  /** `NegativeOp`: maps a to -a. */
  function ApplyUnary(op: UnaryOp, a: Double): (r: Double)
    ensures a.Finite? ==> r == Finite(-a.v)
    ensures a.NaN? <==> r.NaN?
    ensures a.PosInf? <==> r.NegInf?
    ensures a.NegInf? <==> r.PosInf?
  {
    match op
    case Negative => Neg(a)
  }

  /** Negating twice gives back the value, NaN and both infinities included. */
  lemma NegationInvolutive(a: Double)
    ensures ApplyUnary(Negative, ApplyUnary(Negative, a)) == a
  {
  }

  /** The entries of the binary operator table. The operator tag stands in for the delegate. */
  datatype BinaryOp =
    | Add | Subtract | Multiply | Divide | Remainder | Power
    | Or | And | Equals | NotEqual | LessThan | LessThanOrEqual | GreaterThan | GreaterThanOrEqual

  function Symbol(op: BinaryOp): string {
    match op
    case Add => "+"
    case Subtract => "-"
    case Multiply => "*"
    case Divide => "/"
    case Remainder => "%"
    case Power => "^"
    case Or => "||"
    case And => "&&"
    case Equals => "="
    case NotEqual => "!="
    case LessThan => "<"
    case LessThanOrEqual => "<="
    case GreaterThan => ">"
    case GreaterThanOrEqual => ">="
  }

  function BinaryPrecedence(op: BinaryOp): Precedence {
    match op
    case Add => Precedence.AddSub
    case Subtract => Precedence.AddSub
    case Multiply => Precedence.MulDiv
    case Divide => Precedence.MulDiv
    case Remainder => Precedence.MulDiv
    case Power => Precedence.Power
    case Or => Precedence.BoolOr
    case And => Precedence.BoolAnd
    case _ => Precedence.Comparison
  }

  predicate IsBoolean(op: BinaryOp) {
    op in {Or, And, Equals, NotEqual, LessThan, LessThanOrEqual, GreaterThan, GreaterThanOrEqual}
  }

  /** The operator's function; `^` is `double.Pow`, taken from the math library. */
  function ApplyBinary(op: BinaryOp, a: Double, b: Double, lib: MathLib.MathLib): Double {
    match op
    case Add => Doubles.Add(a, b)
    case Subtract => Sub(a, b)
    case Multiply => Mul(a, b)
    case Divide => Div(a, b)
    case Remainder => Rem(a, b)
    case Power => lib.pow(a, b)
    case Or => FromBool(ToBool(a) || ToBool(b))
    case And => FromBool(ToBool(a) && ToBool(b))
    case Equals => FromBool(Eq(a, b))
    case NotEqual => FromBool(Ne(a, b))
    case LessThan => FromBool(Lt(a, b))
    case LessThanOrEqual => FromBool(Le(a, b))
    case GreaterThan => FromBool(Gt(a, b))
    case GreaterThanOrEqual => FromBool(Ge(a, b))
  }

  /**
    `BinaryOps.Operators`: the operator a symbol stands for. The table's `%`
    entry is keyed by a symbol the lexer does not define, so `Remainder` is in
    the table but reachable from no symbol.
   */
  function OperatorFor(id: Lexer.SymbolId): Wrappers.Option<BinaryOp> {
    match id
    case Plus => Wrappers.Some(Add)
    case Minus => Wrappers.Some(Subtract)
    case Multiply => Wrappers.Some(BinaryOp.Multiply)
    case Divide => Wrappers.Some(BinaryOp.Divide)
    case Caret => Wrappers.Some(BinaryOp.Power)
    case BoolOr => Wrappers.Some(Or)
    case BoolAnd => Wrappers.Some(And)
    case Equals => Wrappers.Some(BinaryOp.Equals)
    case NotEqual => Wrappers.Some(BinaryOp.NotEqual)
    case LessThan => Wrappers.Some(BinaryOp.LessThan)
    case LessThanOrEqual => Wrappers.Some(BinaryOp.LessThanOrEqual)
    case GreaterThan => Wrappers.Some(BinaryOp.GreaterThan)
    case GreaterThanOrEqual => Wrappers.Some(BinaryOp.GreaterThanOrEqual)
    case _ => Wrappers.None
  }

  // ---------------------------------------------------------------------------
  // Facts about the tables

  /** The precedence levels are strictly ordered in the order they are declared. */
  lemma PrecedenceStrictlyOrdered()
    ensures Level(Precedence.None) < Level(Precedence.BoolOr) < Level(Precedence.BoolAnd)
      < Level(Precedence.Comparison) < Level(Precedence.AddSub) < Level(Precedence.MulDiv)
      < Level(Precedence.Power) < Level(Precedence.UnaryPrefix) < Level(Precedence.Atomic)
    ensures forall p, q :: Level(p) == Level(q) ==> p == q
  {
  }

  /**
    The table's grouping: + and - add, *, / and % multiply, ^ is a power, and
    the six comparisons share one level; every binary operator binds looser
    than a prefix operator.
   */
  lemma OperatorTablePrecedences(op: BinaryOp)
    ensures BinaryPrecedence(op) == Precedence.AddSub <==> op in {Add, Subtract}
    ensures BinaryPrecedence(op) == Precedence.MulDiv <==> op in {BinaryOp.Multiply, BinaryOp.Divide, Remainder}
    ensures BinaryPrecedence(op) == Precedence.Power <==> op == BinaryOp.Power
    ensures BinaryPrecedence(op) == Precedence.Comparison <==>
      op in {BinaryOp.Equals, BinaryOp.NotEqual, BinaryOp.LessThan, BinaryOp.LessThanOrEqual,
             BinaryOp.GreaterThan, BinaryOp.GreaterThanOrEqual}
    ensures Level(Precedence.None) < Level(BinaryPrecedence(op)) < Level(Precedence.UnaryPrefix)
  {
  }

  /** Comparison and logical operators only ever produce the encoded booleans 1 and NaN. */
  lemma BooleanOperatorsYieldOneOrNaN(op: BinaryOp, a: Double, b: Double, lib: MathLib.MathLib)
    requires IsBoolean(op)
    ensures ApplyBinary(op, a, b, lib) == Finite(1.0) || ApplyBinary(op, a, b, lib).NaN?
  {
  }

  /** `&&` is truthy iff both operands are, `||` iff either is. */
  lemma LogicalOperatorsTruth(a: Double, b: Double, lib: MathLib.MathLib)
    ensures ToBool(ApplyBinary(And, a, b, lib)) <==> ToBool(a) && ToBool(b)
    ensures ToBool(ApplyBinary(Or, a, b, lib)) <==> ToBool(a) || ToBool(b)
  {
    ToBoolFromBool(ToBool(a) && ToBool(b));
    ToBoolFromBool(ToBool(a) || ToBool(b));
  }

  /** A comparison with NaN on either side is false, except `!=`, which is true. */
  lemma ComparisonsWithNaN(op: BinaryOp, a: Double, lib: MathLib.MathLib)
    requires op in {BinaryOp.Equals, BinaryOp.NotEqual, BinaryOp.LessThan, BinaryOp.LessThanOrEqual,
                    BinaryOp.GreaterThan, BinaryOp.GreaterThanOrEqual}
    ensures ToBool(ApplyBinary(op, a, NaN, lib)) <==> op == BinaryOp.NotEqual
    ensures ToBool(ApplyBinary(op, NaN, a, lib)) <==> op == BinaryOp.NotEqual
  {
  }

  /** Each symbol names at most one operator, and each operator but `%` is named by its symbol. */
  lemma OperatorForSymbols(op: BinaryOp)
    ensures op != Remainder ==> exists id :: OperatorFor(id) == Wrappers.Some(op)
    ensures op == Remainder ==> forall id :: OperatorFor(id) != Wrappers.Some(op)
  {
    match op
    case Add => assert OperatorFor(Lexer.Plus) == Wrappers.Some(op);
    case Subtract => assert OperatorFor(Lexer.Minus) == Wrappers.Some(op);
    case Multiply => assert OperatorFor(Lexer.SymbolId.Multiply) == Wrappers.Some(op);
    case Divide => assert OperatorFor(Lexer.SymbolId.Divide) == Wrappers.Some(op);
    case Remainder =>
    case Power => assert OperatorFor(Lexer.Caret) == Wrappers.Some(op);
    case Or => assert OperatorFor(Lexer.SymbolId.BoolOr) == Wrappers.Some(op);
    case And => assert OperatorFor(Lexer.SymbolId.BoolAnd) == Wrappers.Some(op);
    case Equals => assert OperatorFor(Lexer.SymbolId.Equals) == Wrappers.Some(op);
    case NotEqual => assert OperatorFor(Lexer.SymbolId.NotEqual) == Wrappers.Some(op);
    case LessThan => assert OperatorFor(Lexer.SymbolId.LessThan) == Wrappers.Some(op);
    case LessThanOrEqual => assert OperatorFor(Lexer.SymbolId.LessThanOrEqual) == Wrappers.Some(op);
    case GreaterThan => assert OperatorFor(Lexer.SymbolId.GreaterThan) == Wrappers.Some(op);
    case GreaterThanOrEqual => assert OperatorFor(Lexer.SymbolId.GreaterThanOrEqual) == Wrappers.Some(op);
  }
}
