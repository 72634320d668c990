/**
  The expression tree: constants, parameter references, operator applications,
  the conditional, and calls of intrinsic and user-defined functions, with
  evaluation, the constant test, simplification by constant folding, and
  structural equivalence.
 */
module Expressions {
  import opened Doubles
  import opened Booleans
  import opened Wrappers
  import opened Operators
  import opened Intrinsics
  import MathLib

  /**
    One node per expression class. `UserCall` holds the body of the called
    function, whose variables index that function's own parameters.
   */
  datatype Expr =
    | Const(value: Double)
    | Var(index: nat)
    | Unary(uop: UnaryOp, arg: Expr)
    | Binary(bop: BinaryOp, left: Expr, right: Expr)
    | Ternary(cond: Expr, first: Expr, second: Expr)
    | Call(f: Intrinsic, args: seq<Expr>)
    | UserCall(body: Expr, args: seq<Expr>)

  /**
    Every variable the expression reads from its own scope is below `n`. The
    body of a user function reads its call's arguments, not this scope, so it
    is not inspected.
   */
  predicate VarsBelow(e: Expr, n: nat) {
    match e
    case Const(_) => true
    case Var(i) => i < n
    case Unary(_, a) => VarsBelow(a, n)
    case Binary(_, a, b) => VarsBelow(a, n) && VarsBelow(b, n)
    case Ternary(c, a, b) => VarsBelow(c, n) && VarsBelow(a, n) && VarsBelow(b, n)
    case Call(_, args) => forall i :: 0 <= i < |args| ==> VarsBelow(args[i], n)
    case UserCall(_, args) => forall i :: 0 <= i < |args| ==> VarsBelow(args[i], n)
  }

  /**
    The shape the parsers build: every intrinsic call has the arguments its
    delegate reads, and every user-function body reads only its own parameters.
   */
  predicate Valid(e: Expr) {
    match e
    case Const(_) => true
    case Var(_) => true
    case Unary(_, a) => Valid(a)
    case Binary(_, a, b) => Valid(a) && Valid(b)
    case Ternary(c, a, b) => Valid(c) && Valid(a) && Valid(b)
    case Call(f, args) => Arity(f) <= |args| && forall i :: 0 <= i < |args| ==> Valid(args[i])
    case UserCall(body, args) =>
      Valid(body) && VarsBelow(body, |args|) && forall i :: 0 <= i < |args| ==> Valid(args[i])
  }

  /**
    `Eval(args)`: the value of the expression when its variables take the
    values in `env`. A call first evaluates its arguments (`GetInnerArgs`)
    and hands the values to the delegate, or to the body as its scope.
   */
  function Eval(e: Expr, env: seq<Double>, lib: MathLib.MathLib): Double
    requires Valid(e) && VarsBelow(e, |env|)
  {
    match e
    case Const(x) => x
    case Var(i) => env[i]
    case Unary(op, a) => ApplyUnary(op, Eval(a, env, lib))
    case Binary(op, a, b) => ApplyBinary(op, Eval(a, env, lib), Eval(b, env, lib), lib)
    case Ternary(c, a, b) => if ToBool(Eval(c, env, lib)) then Eval(a, env, lib) else Eval(b, env, lib)
    case Call(f, args) => Apply(f, seq(|args|, i requires 0 <= i < |args| => Eval(args[i], env, lib)), lib)
    case UserCall(body, args) => Eval(body, seq(|args|, i requires 0 <= i < |args| => Eval(args[i], env, lib)), lib)
  }

  /**
    `IsConstant`: no variable is reachable. A call is constant when its
    arguments are, and a conditional when all three parts are.
   */
  predicate IsConstant(e: Expr) {
    match e
    case Const(_) => true
    case Var(_) => false
    case Unary(_, a) => IsConstant(a)
    case Binary(_, a, b) => IsConstant(a) && IsConstant(b)
    case Ternary(c, a, b) => IsConstant(c) && IsConstant(a) && IsConstant(b)
    case Call(_, args) => forall i :: 0 <= i < |args| ==> IsConstant(args[i])
    case UserCall(_, args) => forall i :: 0 <= i < |args| ==> IsConstant(args[i])
  }

  /** A constant expression is exactly one that reads no variable of its scope. */
  lemma {:induction false} ConstantIffNoVariables(e: Expr)
    ensures IsConstant(e) <==> VarsBelow(e, 0)
  {
    match e
    case Const(_) =>
    case Var(_) =>
    case Unary(_, a) => ConstantIffNoVariables(a);
    case Binary(_, a, b) => ConstantIffNoVariables(a); ConstantIffNoVariables(b);
    case Ternary(c, a, b) => ConstantIffNoVariables(c); ConstantIffNoVariables(a); ConstantIffNoVariables(b);
    case Call(_, args) =>
      forall i | 0 <= i < |args| { ConstantIffNoVariables(args[i]); }
    case UserCall(_, args) =>
      forall i | 0 <= i < |args| { ConstantIffNoVariables(args[i]); }
  }

  /**
    `GetSimplifiedArgs`: given each argument and its simplification, None when
    no argument changed, and otherwise the arguments with the changed ones replaced.
   */
  function ChangedArgs(args: seq<Expr>, simplified: seq<Expr>): (r: Option<seq<Expr>>)
    requires |simplified| == |args|
    ensures r.None? <==> simplified == args
    ensures r.Some? ==> r.value == simplified
  {
    if forall i :: 0 <= i < |args| ==> simplified[i] == args[i] then
      assert simplified == args;
      Option.None
    else
      Some(seq(|args|, i requires 0 <= i < |args| => if simplified[i] != args[i] then simplified[i] else args[i]))
  }

  /**
    `Simplify`: a constant node other than a conditional becomes the constant
    it evaluates to; otherwise the children are simplified and the node is
    rebuilt if any of them changed. The conditional never folds, and the body
    of a user function is left as it is.
   */
  function Simplify(e: Expr, lib: MathLib.MathLib): (r: Expr)
    requires Valid(e)
    decreases e, 1
    ensures Valid(r)
    ensures IsConstant(e) && !e.Ternary? ==> r.Const?
    ensures !(IsConstant(e) && !e.Ternary?) ==> SameHead(e, r)
  {
    ConstantIffNoVariables(e);
    SimplifyNode(e, lib)
  }

  /** One step of `Simplify`, for a node whose constant test is known to mean "reads no variable". */
  function SimplifyNode(e: Expr, lib: MathLib.MathLib): (r: Expr)
    requires Valid(e) && (IsConstant(e) <==> VarsBelow(e, 0))
    decreases e, 0
    ensures Valid(r)
    ensures IsConstant(e) && !e.Ternary? ==> r.Const?
    ensures !(IsConstant(e) && !e.Ternary?) ==> SameHead(e, r)
  {
    match e
    case Const(_) => e
    case Var(_) => e
    case Unary(op, a) =>
      if IsConstant(e) then Const(Eval(e, [], lib))
      else
        var a' := Simplify(a, lib);
        if a' != a then Unary(op, a') else e
    case Binary(op, a, b) =>
      if IsConstant(e) then Const(Eval(e, [], lib))
      else
        var a', b' := Simplify(a, lib), Simplify(b, lib);
        if a' != a || b' != b then Binary(op, a', b') else e
    case Ternary(c, a, b) =>
      var c', a', b' := Simplify(c, lib), Simplify(a, lib), Simplify(b, lib);
      if c' == c && a' == a && b' == b then e else Ternary(c', a', b')
    case Call(f, args) =>
      if IsConstant(e) then Const(Eval(e, [], lib))
      else
        var simplified := seq(|args|, i requires 0 <= i < |args| => Simplify(args[i], lib));
        (match ChangedArgs(args, simplified)
         case None => e
         case Some(newArgs) => Call(f, newArgs))
    case UserCall(body, args) =>
      if IsConstant(e) then Const(Eval(e, [], lib))
      else
        var simplified := seq(|args|, i requires 0 <= i < |args| => Simplify(args[i], lib));
        (match ChangedArgs(args, simplified)
         case None => e
         case Some(newArgs) => UserCall(body, newArgs))
  }

  /**
    `r` is a node of the same kind as `e` that applies the same thing: the
    same operator, intrinsic or user-function body, to as many children.
    Leaves are the same leaf.
   */
  predicate SameHead(e: Expr, r: Expr) {
    match e
    case Const(_) => r == e
    case Var(_) => r == e
    case Unary(op, _) => r.Unary? && r.uop == op
    case Binary(op, _, _) => r.Binary? && r.bop == op
    case Ternary(_, _, _) => r.Ternary?
    case Call(f, args) => r.Call? && r.f == f && |r.args| == |args|
    case UserCall(body, args) => r.UserCall? && r.body == body && |r.args| == |args|
  }

  /** The direct subexpressions, in order; a user function's body is not one of them. */
  function Children(e: Expr): (cs: seq<Expr>)
    ensures forall i :: 0 <= i < |cs| ==> cs[i] < e
  {
    match e
    case Const(_) => []
    case Var(_) => []
    case Unary(_, a) => [a]
    case Binary(_, a, b) => [a, b]
    case Ternary(c, a, b) => [c, a, b]
    case Call(_, args) => args
    case UserCall(_, args) => args
  }

  /** Two lists of argument expressions of the same length that are pairwise equivalent. */
  predicate ArgsEquivalent(xs: seq<Expr>, ys: seq<Expr>) {
    |xs| == |ys| && forall i :: 0 <= i < |xs| ==> IsEquivalent(xs[i], ys[i])
  }

  /**
    `IsEquivalent`: the same kind of node, the same operator or function, and
    equivalent children. Constants compare with `==` on doubles, so a NaN
    constant is equivalent to nothing, itself included. The C# code asks the
    other side's children first; as the relation is symmetric
    (`ExpressionFacts.EquivalenceProperties`), the order is immaterial.
   */
  predicate IsEquivalent(a: Expr, b: Expr) {
    match a
    case Const(x) => b.Const? && Eq(b.value, x)
    case Var(i) => b.Var? && b.index == i
    case Unary(op, x) => b.Unary? && b.uop == op && IsEquivalent(x, b.arg)
    case Binary(op, x, y) => b.Binary? && b.bop == op && IsEquivalent(x, b.left) && IsEquivalent(y, b.right)
    case Ternary(c, x, y) => b.Ternary? && IsEquivalent(c, b.cond) && IsEquivalent(x, b.first) && IsEquivalent(y, b.second)
    case Call(f, xs) => b.Call? && b.f == f && |b.args| == |xs| && forall i :: 0 <= i < |xs| ==> IsEquivalent(xs[i], b.args[i])
    case UserCall(body, xs) =>
      b.UserCall? && IsEquivalent(body, b.body) && |b.args| == |xs| && forall i :: 0 <= i < |xs| ==> IsEquivalent(xs[i], b.args[i])
  }

  /** No constant anywhere in the tree, function bodies included, is NaN. */
  predicate NaNFree(e: Expr) {
    match e
    case Const(x) => !x.NaN?
    case Var(_) => true
    case Unary(_, a) => NaNFree(a)
    case Binary(_, a, b) => NaNFree(a) && NaNFree(b)
    case Ternary(c, a, b) => NaNFree(c) && NaNFree(a) && NaNFree(b)
    case Call(_, args) => forall i :: 0 <= i < |args| ==> NaNFree(args[i])
    case UserCall(body, args) => NaNFree(body) && forall i :: 0 <= i < |args| ==> NaNFree(args[i])
  }
}
