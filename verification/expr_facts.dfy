/** What evaluation, simplification and equivalence promise about one another. */
module ExpressionFacts {
  import opened Doubles
  import opened Booleans
  import opened Operators
  import opened Intrinsics
  import opened Expressions
  import MathLib

  // ---------------------------------------------------------------------------
  // Scope

  /** A bound on the variables read stays a bound when raised. */
  lemma {:induction false} ScopeWidens(e: Expr, n: nat, k: nat)
    requires VarsBelow(e, n) && n <= k
    ensures VarsBelow(e, k)
  {
    match e
    case Const(_) =>
    case Var(_) =>
    case Unary(_, a) => ScopeWidens(a, n, k);
    case Binary(_, a, b) => ScopeWidens(a, n, k); ScopeWidens(b, n, k);
    case Ternary(c, a, b) => ScopeWidens(c, n, k); ScopeWidens(a, n, k); ScopeWidens(b, n, k);
    case Call(_, args) =>
      forall i | 0 <= i < |args| { ScopeWidens(args[i], n, k); }
    case UserCall(_, args) =>
      forall i | 0 <= i < |args| { ScopeWidens(args[i], n, k); }
  }

  /**
    The value depends only on the variables the expression reads: two scopes
    that agree below `n` give an expression reading only below `n` the same value.
   */
  lemma {:induction false} EvalReadsOnlyScope(e: Expr, n: nat, env1: seq<Double>, env2: seq<Double>, lib: MathLib.MathLib)
    requires Valid(e) && VarsBelow(e, n)
    requires n <= |env1| && n <= |env2| && env1[..n] == env2[..n]
    ensures VarsBelow(e, |env1|) && VarsBelow(e, |env2|)
    ensures Eval(e, env1, lib) == Eval(e, env2, lib)
  {
    ScopeWidens(e, n, |env1|);
    ScopeWidens(e, n, |env2|);
    match e
    case Const(_) =>
    case Var(i) => assert env1[i] == env1[..n][i];
    case Unary(_, a) => EvalReadsOnlyScope(a, n, env1, env2, lib);
    case Binary(_, a, b) =>
      EvalReadsOnlyScope(a, n, env1, env2, lib);
      EvalReadsOnlyScope(b, n, env1, env2, lib);
    case Ternary(c, a, b) =>
      EvalReadsOnlyScope(c, n, env1, env2, lib);
      EvalReadsOnlyScope(a, n, env1, env2, lib);
      EvalReadsOnlyScope(b, n, env1, env2, lib);
    case Call(f, args) =>
      forall i | 0 <= i < |args| { EvalReadsOnlyScope(args[i], n, env1, env2, lib); }
      assert ArgValues(args, env1, lib) == ArgValues(args, env2, lib);
    case UserCall(body, args) =>
      forall i | 0 <= i < |args| { EvalReadsOnlyScope(args[i], n, env1, env2, lib); }
      assert ArgValues(args, env1, lib) == ArgValues(args, env2, lib);
  }

  /** The argument values of a call, as `Eval` computes them. */
  function ArgValues(args: seq<Expr>, env: seq<Double>, lib: MathLib.MathLib): (vs: seq<Double>)
    requires forall i :: 0 <= i < |args| ==> Valid(args[i]) && VarsBelow(args[i], |env|)
    ensures |vs| == |args| && forall i :: 0 <= i < |args| ==> vs[i] == Eval(args[i], env, lib)
  {
    seq(|args|, i requires 0 <= i < |args| => Eval(args[i], env, lib))
  }

  /** A constant expression has one value, whatever the scope it is evaluated in. */
  lemma ConstantHasOneValue(e: Expr, env: seq<Double>, lib: MathLib.MathLib)
    requires Valid(e) && IsConstant(e)
    ensures VarsBelow(e, 0) && VarsBelow(e, |env|)
    ensures Eval(e, env, lib) == Eval(e, [], lib)
  {
    ConstantIffNoVariables(e);
    EvalReadsOnlyScope(e, 0, env, [], lib);
  }

  // ---------------------------------------------------------------------------
  // Simplification

  /** Simplifying neither adds nor removes a variable reference the node could read. */
  lemma {:induction false} SimplifyKeepsScope(e: Expr, n: nat, lib: MathLib.MathLib)
    requires Valid(e)
    ensures VarsBelow(Simplify(e, lib), n) <==> VarsBelow(e, n)
  {
    if IsConstant(e) {
      ConstantIffNoVariables(e);
      ScopeWidens(e, 0, n);
    }
    match e
    case Const(_) =>
    case Var(_) =>
    case Unary(_, a) => SimplifyKeepsScope(a, n, lib);
    case Binary(_, a, b) => SimplifyKeepsScope(a, n, lib); SimplifyKeepsScope(b, n, lib);
    case Ternary(c, a, b) =>
      SimplifyKeepsScope(c, n, lib); SimplifyKeepsScope(a, n, lib); SimplifyKeepsScope(b, n, lib);
    case Call(_, args) =>
      forall i | 0 <= i < |args| { SimplifyKeepsScope(args[i], n, lib); }
    case UserCall(_, args) =>
      forall i | 0 <= i < |args| { SimplifyKeepsScope(args[i], n, lib); }
  }

  /** An expression is constant after simplification exactly when it was before. */
  lemma SimplifyKeepsConstancy(e: Expr, lib: MathLib.MathLib)
    requires Valid(e)
    ensures IsConstant(Simplify(e, lib)) <==> IsConstant(e)
  {
    SimplifyKeepsScope(e, 0, lib);
    ConstantIffNoVariables(e);
    ConstantIffNoVariables(Simplify(e, lib));
  }

  /** Simplifying never changes the value, in any scope the expression can be evaluated in. */
  lemma {:induction false} SimplifyPreservesEval(e: Expr, env: seq<Double>, lib: MathLib.MathLib)
    requires Valid(e) && VarsBelow(e, |env|)
    ensures VarsBelow(Simplify(e, lib), |env|)
    ensures Eval(Simplify(e, lib), env, lib) == Eval(e, env, lib)
  {
    SimplifyKeepsScope(e, |env|, lib);
    if IsConstant(e) && !e.Ternary? {
      ConstantHasOneValue(e, env, lib);
    } else {
      match e
      case Const(_) =>
      case Var(_) =>
      case Unary(_, a) => SimplifyPreservesEval(a, env, lib);
      case Binary(_, a, b) => SimplifyPreservesEval(a, env, lib); SimplifyPreservesEval(b, env, lib);
      case Ternary(c, a, b) =>
        SimplifyPreservesEval(c, env, lib); SimplifyPreservesEval(a, env, lib); SimplifyPreservesEval(b, env, lib);
      case Call(f, args) =>
        var simplified := seq(|args|, i requires 0 <= i < |args| => Simplify(args[i], lib));
        forall i | 0 <= i < |args| { SimplifyPreservesEval(args[i], env, lib); }
        assert ArgValues(simplified, env, lib) == ArgValues(args, env, lib);
      case UserCall(body, args) =>
        var simplified := seq(|args|, i requires 0 <= i < |args| => Simplify(args[i], lib));
        forall i | 0 <= i < |args| { SimplifyPreservesEval(args[i], env, lib); }
        assert ArgValues(simplified, env, lib) == ArgValues(args, env, lib);
    }
  }

  /**
    A node that does not fold is rebuilt over its simplified children: the same
    operator, intrinsic or body, applied to the simplification of each child in
    its place. A child that did not change is kept as it is.
   */
  lemma SimplifyRebuilds(e: Expr, lib: MathLib.MathLib)
    requires Valid(e) && !(IsConstant(e) && !e.Ternary?)
    ensures SameHead(e, Simplify(e, lib))
    ensures |Children(Simplify(e, lib))| == |Children(e)|
    ensures forall i :: 0 <= i < |Children(e)| ==>
      Valid(Children(e)[i]) && Children(Simplify(e, lib))[i] == Simplify(Children(e)[i], lib)
  {
  }

  /**
    The normal form simplification produces: no node other than a conditional
    is constant unless it is a literal constant. Function bodies are not
    inspected, as simplification does not enter them.
   */
  predicate Folded(e: Expr) {
    match e
    case Const(_) => true
    case Var(_) => true
    case Unary(_, a) => !IsConstant(e) && Folded(a)
    case Binary(_, a, b) => !IsConstant(e) && Folded(a) && Folded(b)
    case Ternary(c, a, b) => Folded(c) && Folded(a) && Folded(b)
    case Call(_, args) => !IsConstant(e) && forall i :: 0 <= i < |args| ==> Folded(args[i])
    case UserCall(_, args) => !IsConstant(e) && forall i :: 0 <= i < |args| ==> Folded(args[i])
  }

  /** Simplification folds every constant subexpression that is not a conditional. */
  lemma {:induction false} SimplifyFolds(e: Expr, lib: MathLib.MathLib)
    requires Valid(e)
    ensures Folded(Simplify(e, lib))
  {
    SimplifyKeepsConstancy(e, lib);
    if !(IsConstant(e) && !e.Ternary?) {
      match e
      case Const(_) =>
      case Var(_) =>
      case Unary(_, a) => SimplifyFolds(a, lib);
      case Binary(_, a, b) => SimplifyFolds(a, lib); SimplifyFolds(b, lib);
      case Ternary(c, a, b) => SimplifyFolds(c, lib); SimplifyFolds(a, lib); SimplifyFolds(b, lib);
      case Call(_, args) =>
        forall i | 0 <= i < |args| { SimplifyFolds(args[i], lib); }
      case UserCall(_, args) =>
        forall i | 0 <= i < |args| { SimplifyFolds(args[i], lib); }
    }
  }

  /** A folded expression is returned unchanged: there is nothing left to simplify. */
  lemma {:induction false} FoldedIsFixpoint(e: Expr, lib: MathLib.MathLib)
    requires Valid(e) && Folded(e)
    ensures Simplify(e, lib) == e
  {
    match e
    case Const(_) =>
    case Var(_) =>
    case Unary(_, a) => FoldedIsFixpoint(a, lib);
    case Binary(_, a, b) => FoldedIsFixpoint(a, lib); FoldedIsFixpoint(b, lib);
    case Ternary(c, a, b) => FoldedIsFixpoint(c, lib); FoldedIsFixpoint(a, lib); FoldedIsFixpoint(b, lib);
    case Call(_, args) =>
      forall i | 0 <= i < |args| { FoldedIsFixpoint(args[i], lib); }
      assert seq(|args|, i requires 0 <= i < |args| => Simplify(args[i], lib)) == args;
    case UserCall(_, args) =>
      forall i | 0 <= i < |args| { FoldedIsFixpoint(args[i], lib); }
      assert seq(|args|, i requires 0 <= i < |args| => Simplify(args[i], lib)) == args;
  }

  /** Simplifying twice is simplifying once. */
  lemma SimplifyIdempotent(e: Expr, lib: MathLib.MathLib)
    requires Valid(e)
    ensures Simplify(Simplify(e, lib), lib) == Simplify(e, lib)
  {
    SimplifyFolds(e, lib);
    FoldedIsFixpoint(Simplify(e, lib), lib);
  }

  // ---------------------------------------------------------------------------
  // Equivalence

  /**
    Equivalence is identity of trees without NaN constants: equal trees are
    equivalent unless one holds a NaN, and equivalent trees are equal.
   */
  lemma {:induction false} EquivalentIffEqualWithoutNaN(a: Expr, b: Expr)
    ensures IsEquivalent(a, b) <==> a == b && NaNFree(a)
  {
    match a
    case Const(_) =>
    case Var(_) =>
    case Unary(_, x) =>
      if b.Unary? { EquivalentIffEqualWithoutNaN(x, b.arg); }
    case Binary(_, x, y) =>
      if b.Binary? { EquivalentIffEqualWithoutNaN(x, b.left); EquivalentIffEqualWithoutNaN(y, b.right); }
    case Ternary(c, x, y) =>
      if b.Ternary? {
        EquivalentIffEqualWithoutNaN(c, b.cond);
        EquivalentIffEqualWithoutNaN(x, b.first);
        EquivalentIffEqualWithoutNaN(y, b.second);
      }
    case Call(_, xs) =>
      if b.Call? && |b.args| == |xs| {
        forall i | 0 <= i < |xs| { EquivalentIffEqualWithoutNaN(xs[i], b.args[i]); }
        if forall i :: 0 <= i < |xs| ==> xs[i] == b.args[i] {
          assert xs == b.args;
        }
      }
    case UserCall(body, xs) =>
      if b.UserCall? && |b.args| == |xs| {
        EquivalentIffEqualWithoutNaN(body, b.body);
        forall i | 0 <= i < |xs| { EquivalentIffEqualWithoutNaN(xs[i], b.args[i]); }
        if forall i :: 0 <= i < |xs| ==> xs[i] == b.args[i] {
          assert xs == b.args;
        }
      }
  }

  /** Equivalence is symmetric, and an expression is equivalent to itself exactly when it holds no NaN constant. */
  lemma EquivalenceProperties(a: Expr, b: Expr)
    ensures IsEquivalent(a, b) <==> IsEquivalent(b, a)
    ensures IsEquivalent(a, a) <==> NaNFree(a)
  {
    EquivalentIffEqualWithoutNaN(a, b);
    EquivalentIffEqualWithoutNaN(b, a);
    EquivalentIffEqualWithoutNaN(a, a);
  }

  /** Equivalent expressions have the same value in every scope. */
  lemma EquivalentEvaluateAlike(a: Expr, b: Expr, env: seq<Double>, lib: MathLib.MathLib)
    requires Valid(a) && VarsBelow(a, |env|) && IsEquivalent(a, b)
    ensures Valid(b) && VarsBelow(b, |env|)
    ensures Eval(a, env, lib) == Eval(b, env, lib)
  {
    EquivalentIffEqualWithoutNaN(a, b);
  }
}
