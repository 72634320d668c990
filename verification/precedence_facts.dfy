/**
  Precedence climbing on a flat chain `n0 op1 n1 … opk nk`. The parse of such
  a chain is the one tree that reads back as the chain, left to right, and in
  which no operand binds more loosely than the operator that takes it, the
  right operand strictly more tightly. So a tighter operator always takes its
  operands first, and operators of equal precedence, `^` included, fold to
  the left.
 */
module PrecedenceFacts {
  import opened Wrappers
  import opened Doubles
  import opened Operators
  import opened Expressions
  import Lexer
  import opened Parser

  /** A chain of numbers joined by binary operators of the dialect, then the end of input. */
  predicate Chain(d: Dialect, ts: seq<Lexer.Lexer>) {
    && Stream(ts) && |ts| % 2 == 0
    && ts[|ts| - 1].kind == Lexer.TokenType.None
    && (forall k :: 0 <= k < |ts| - 1 && k % 2 == 0 ==> ts[k].kind == Lexer.TokenType.Number)
    && (forall k :: 0 <= k < |ts| - 1 && k % 2 == 1 ==>
          ts[k].kind == Lexer.TokenType.Symbol && BinaryOpOf(d, ts[k].symbol).Some?)
  }

  /** A leaf or an operator of a flat reading of a formula. */
  datatype Item = Operand(value: Double) | Operator(op: BinaryOp)

  /** What token `k` of a chain stands for: a number at even positions, an operator at odd ones. */
  function ItemAt(d: Dialect, ts: seq<Lexer.Lexer>, k: nat): Item
    requires Chain(d, ts) && k < |ts| - 1
  {
    if k % 2 == 0 then Operand(ts[k].value) else Operator(BinaryOpOf(d, ts[k].symbol).value)
  }

  /** The items of tokens `i` up to, not including, `j`. */
  function Items(d: Dialect, ts: seq<Lexer.Lexer>, i: nat, j: nat): seq<Item>
    requires Chain(d, ts) && i <= j <= |ts| - 1
  {
    seq(j - i, k requires 0 <= k < j - i => ItemAt(d, ts, i + k))
  }

  lemma ItemsSplit(d: Dialect, ts: seq<Lexer.Lexer>, i: nat, j: nat, k: nat)
    requires Chain(d, ts) && i <= j <= k <= |ts| - 1
    ensures Items(d, ts, i, j) + Items(d, ts, j, k) == Items(d, ts, i, k)
  {
    assert forall m :: 0 <= m < k - i ==> (Items(d, ts, i, j) + Items(d, ts, j, k))[m] == Items(d, ts, i, k)[m];
  }

  /** Reading items `i` to `j` and then `j` to `k` reads items `i` to `k`. */
  lemma ReadOn(d: Dialect, ts: seq<Lexer.Lexer>, i: nat, j: nat, k: nat, before: seq<Item>, middle: seq<Item>, after: seq<Item>)
    requires Chain(d, ts) && i <= j <= k <= |ts| - 1
    requires middle == before + Items(d, ts, i, j) && after == middle + Items(d, ts, j, k)
    ensures after == before + Items(d, ts, i, k)
  {
    ItemsSplit(d, ts, i, j, k);
  }

  /** The leaves and operators of a tree of constants and binary operators, read left to right. */
  function Yield(e: Expr): seq<Item> {
    match e
    case Const(v) => [Operand(v)]
    case Binary(op, a, b) => Yield(a) + [Operator(op)] + Yield(b)
    case _ => []
  }

  /** How tightly an operator binds. */
  function Binds(op: BinaryOp): nat {
    Level(BinaryPrecedence(op))
  }

  /** Every binary operator binds more loosely than an atom. */
  lemma BindsBelowAtom(op: BinaryOp)
    ensures Binds(op) < Level(Precedence.Atomic)
  {
  }

  /** How tightly the top of a tree binds: its operator, or an atom's level for a leaf. */
  function Top(e: Expr): nat {
    if e.Binary? then Binds(e.bop) else Level(Precedence.Atomic)
  }

  /**
    A tree of constants and binary operators in which every left operand binds
    at least as tightly as its operator and every right operand strictly more
    tightly: the trees a formula without parentheses can mean.
   */
  predicate Ordered(e: Expr) {
    match e
    case Const(_) => true
    case Binary(op, a, b) => Ordered(a) && Ordered(b) && Top(a) >= Binds(op) && Top(b) > Binds(op)
    case _ => false
  }

  lemma {:induction false} OrderedIsWellFormed(d: Dialect, e: Expr)
    requires Ordered(e)
    ensures Valid(e) && InScope(d, e)
  {
    match e
    case Const(_) =>
    case Binary(_, a, b) => OrderedIsWellFormed(d, a); OrderedIsWellFormed(d, b);
  }

  /** A number of the chain is an operand on its own. */
  lemma OperandAt(d: Dialect, ts: seq<Lexer.Lexer>, j: nat)
    requires Chain(d, ts) && j % 2 == 0 && j < |ts| - 1
    ensures ParseUnary(d, ts, j) == Ok(Parsed(Const(ts[j].value), j + 1))
  {
    assert ts[j].kind == Lexer.TokenType.Number && !Lexer.Terminal(ts[j]);
    assert !Lexer.HaveError(ts[j + 1]);
  }

  /** Positions of a chain that hold an operand: a number the parser can stand on. */
  lemma NumberAt(d: Dialect, ts: seq<Lexer.Lexer>, j: nat)
    requires Chain(d, ts) && j % 2 == 0 && j < |ts| - 1
    ensures At(ts, j) && ts[j].kind == Lexer.TokenType.Number
  {
  }

  /** Positions of a chain the parser stands on between operands: an operator, or the end. */
  lemma OperatorAt(d: Dialect, ts: seq<Lexer.Lexer>, i: nat)
    requires Chain(d, ts) && i % 2 == 1 && i < |ts|
    ensures At(ts, i)
    ensures BinaryOpOf(d, ts[i].symbol).Some? <==> i < |ts| - 1
  {
    if i == |ts| - 1 {
      assert ts[i].symbol == Lexer.SymbolId.None;
    } else {
      assert ts[i].kind == Lexer.TokenType.Symbol && BinaryOpOf(d, ts[i].symbol).Some?;
    }
  }

  /** An operator and the number after it. */
  lemma ItemsOfStep(d: Dialect, ts: seq<Lexer.Lexer>, i: nat)
    requires Chain(d, ts) && i % 2 == 1 && i < |ts| - 1
    ensures Items(d, ts, i, i + 2) == [Operator(BinaryOpOf(d, ts[i].symbol).value), Operand(ts[i + 1].value)]
  {
    assert ItemAt(d, ts, i) == Operator(BinaryOpOf(d, ts[i].symbol).value);
    assert ItemAt(d, ts, i + 1) == Operand(ts[i + 1].value);
  }

  /**
    One round of the loop of `ParseBinary` on a chain: step past the operator,
    take the number after it, let `ClaimRight` extend it, and fold.
   */
  lemma FoldStep(d: Dialect, ts: seq<Lexer.Lexer>, left: Expr, op: BinaryOp, i: nat, minPrec: Precedence)
    requires At(ts, i) && At(ts, i + 1) && At(ts, i + 2) && ts[i + 1].kind == Lexer.TokenType.Number
    requires Valid(left) && InScope(d, left)
    requires BinaryOpOf(d, ts[i].symbol) == Some(op) && Binds(op) >= Level(minPrec)
    requires ClaimRight(d, ts, Const(ts[i + 1].value), op, i + 2).Ok?
    ensures var claimed := ClaimRight(d, ts, Const(ts[i + 1].value), op, i + 2).value;
      ParseBinary(d, ts, left, Some(op), i, minPrec)
      == ParseBinary(d, ts, Binary(op, left, claimed.expr), BinaryOpOf(d, ts[claimed.next].symbol), claimed.next, minPrec)
  {
    assert ParseUnary(d, ts, i + 1) == Ok(Parsed(Const(ts[i + 1].value), i + 2));
    assert Advance(ts, i) == Ok(i + 1);
  }

  /** The items a folded operand reads: the left operand's, the operator, and those of the operand `ClaimRight` built. */
  lemma FoldYield(d: Dialect, ts: seq<Lexer.Lexer>, left: Expr, op: BinaryOp, i: nat, claimed: Expr, c: nat)
    requires Chain(d, ts) && i % 2 == 1 && i + 2 <= c <= |ts| - 1
    requires BinaryOpOf(d, ts[i].symbol) == Some(op)
    requires Yield(claimed) == [Operand(ts[i + 1].value)] + Items(d, ts, i + 2, c)
    ensures Yield(Binary(op, left, claimed)) == Yield(left) + Items(d, ts, i, c)
  {
    ItemsOfStep(d, ts, i);
    var step := Items(d, ts, i, i + 2);
    assert Yield(Binary(op, left, claimed)) == (Yield(left) + step) + Items(d, ts, i + 2, c);
    ReadOn(d, ts, i, i + 2, c, Yield(left), Yield(left) + step, Yield(Binary(op, left, claimed)));
  }

  /**
    The loop of `ParseBinary` over a chain: it succeeds, stops on an operator
    position, keeps the tree ordered, and appends exactly the items it read.
    The tree it returns binds at least as tightly as `left` or as `minPrec`.
   */
  lemma {:induction false} BinaryChain(d: Dialect, ts: seq<Lexer.Lexer>, left: Expr, op: Wrappers.Option<BinaryOp>, i: nat, minPrec: Precedence)
    requires Chain(d, ts) && i % 2 == 1 && At(ts, i)
    requires op == BinaryOpOf(d, ts[i].symbol)
    requires Valid(left) && InScope(d, left)
    requires Ordered(left) && (op.Some? ==> Top(left) >= Binds(op.value))
    ensures ParseBinary(d, ts, left, op, i, minPrec).Ok?
    ensures var p := ParseBinary(d, ts, left, op, i, minPrec).value;
      && p.next % 2 == 1 && Ordered(p.expr)
      && Yield(p.expr) == Yield(left) + Items(d, ts, i, p.next)
      && (Top(p.expr) >= Top(left) || Top(p.expr) >= Level(minPrec))
    decreases |ts| - i, 1
  {
    OperatorAt(d, ts, i);
    if op.None? || Binds(op.value) < Level(minPrec) {
      assert ParseBinary(d, ts, left, op, i, minPrec) == Ok(Parsed(left, i));
      assert Items(d, ts, i, i) == [];
    } else {
      BinaryRound(d, ts, left, op.value, i, minPrec);
    }
  }

  /** A round of the loop of `ParseBinary` that folds the operator at `i`, then the rest of the loop. */
  lemma {:induction false} BinaryRound(d: Dialect, ts: seq<Lexer.Lexer>, left: Expr, op: BinaryOp, i: nat, minPrec: Precedence)
    requires Chain(d, ts) && i % 2 == 1 && At(ts, i)
    requires BinaryOpOf(d, ts[i].symbol) == Some(op) && Binds(op) >= Level(minPrec)
    requires Valid(left) && InScope(d, left)
    requires Ordered(left) && Top(left) >= Binds(op)
    ensures ParseBinary(d, ts, left, Some(op), i, minPrec).Ok?
    ensures var p := ParseBinary(d, ts, left, Some(op), i, minPrec).value;
      && p.next % 2 == 1 && Ordered(p.expr)
      && Yield(p.expr) == Yield(left) + Items(d, ts, i, p.next)
      && Top(p.expr) >= Level(minPrec)
    decreases |ts| - i, 0
  {
    ClaimOperand(d, ts, op, i);
    var claimed := ClaimRight(d, ts, Const(ts[i + 1].value), op, i + 2).value;
    var folded := Binary(op, left, claimed.expr);
    var nextOp := BinaryOpOf(d, ts[claimed.next].symbol);
    FoldStep(d, ts, left, op, i, minPrec);
    BinaryChain(d, ts, folded, nextOp, claimed.next, minPrec);
    var p := ParseBinary(d, ts, folded, nextOp, claimed.next, minPrec).value;
    FoldYield(d, ts, left, op, i, claimed.expr, claimed.next);
    ReadOn(d, ts, i, claimed.next, p.next, Yield(left), Yield(folded), Yield(p.expr));
  }

  /** The right operand of the operator at `i`: the number after it, with what tighter operators claim. */
  lemma {:induction false} ClaimOperand(d: Dialect, ts: seq<Lexer.Lexer>, op: BinaryOp, i: nat)
    requires Chain(d, ts) && i % 2 == 1 && i < |ts| - 1
    requires BinaryOpOf(d, ts[i].symbol) == Some(op)
    ensures At(ts, i + 1) && ts[i + 1].kind == Lexer.TokenType.Number
    ensures At(ts, i + 2) && ClaimRight(d, ts, Const(ts[i + 1].value), op, i + 2).Ok?
    ensures var p := ClaimRight(d, ts, Const(ts[i + 1].value), op, i + 2).value;
      && p.next % 2 == 1 && Ordered(p.expr) && Top(p.expr) > Binds(op)
      && Yield(p.expr) == [Operand(ts[i + 1].value)] + Items(d, ts, i + 2, p.next)
    decreases |ts| - i - 1, 0
  {
    var operand := Const(ts[i + 1].value);
    NumberAt(d, ts, i + 1);
    BindsBelowAtom(op);
    OperatorAt(d, ts, i + 2);
    if BinaryOpOf(d, ts[i + 2].symbol).Some? {
      BindsBelowAtom(BinaryOpOf(d, ts[i + 2].symbol).value);
    }
    assert Ordered(operand) && Top(operand) == Level(Precedence.Atomic) && Yield(operand) == [Operand(ts[i + 1].value)];
    assert Valid(operand) && InScope(d, operand);
    ClaimChain(d, ts, operand, op, i + 2);
  }

  /**
    The inner loop of `ParseBinary` over a chain: it succeeds, stops on an
    operator position, and the operand it returns, with everything it claimed,
    binds strictly more tightly than `op`.
   */
  lemma {:induction false} ClaimChain(d: Dialect, ts: seq<Lexer.Lexer>, right: Expr, op: BinaryOp, i: nat)
    requires Chain(d, ts) && i % 2 == 1 && At(ts, i)
    requires Valid(right) && InScope(d, right)
    requires Ordered(right) && Top(right) > Binds(op)
    requires BinaryOpOf(d, ts[i].symbol).Some? ==> Top(right) >= Binds(BinaryOpOf(d, ts[i].symbol).value)
    ensures ClaimRight(d, ts, right, op, i).Ok?
    ensures var p := ClaimRight(d, ts, right, op, i).value;
      && p.next % 2 == 1 && Ordered(p.expr) && Top(p.expr) > Binds(op)
      && Yield(p.expr) == Yield(right) + Items(d, ts, i, p.next)
    decreases |ts| - i, 3
  {
    var nextOp := BinaryOpOf(d, ts[i].symbol);
    if nextOp.Some? && Binds(nextOp.value) > Binds(op) {
      ClaimRound(d, ts, right, op, nextOp.value, i);
    } else {
      assert ClaimRight(d, ts, right, op, i) == Ok(Parsed(right, i));
      assert Items(d, ts, i, i) == [];
    }
  }

  /** A round of the inner loop: the tighter operator at `i` takes `right`, then the rest of the loop. */
  lemma {:induction false} ClaimRound(d: Dialect, ts: seq<Lexer.Lexer>, right: Expr, op: BinaryOp, tighter: BinaryOp, i: nat)
    requires Chain(d, ts) && i % 2 == 1 && At(ts, i)
    requires Valid(right) && InScope(d, right)
    requires BinaryOpOf(d, ts[i].symbol) == Some(tighter) && Binds(tighter) > Binds(op)
    requires Ordered(right) && Top(right) >= Binds(tighter)
    ensures ClaimRight(d, ts, right, op, i).Ok?
    ensures var p := ClaimRight(d, ts, right, op, i).value;
      && p.next % 2 == 1 && Ordered(p.expr) && Top(p.expr) > Binds(op)
      && Yield(p.expr) == Yield(right) + Items(d, ts, i, p.next)
    decreases |ts| - i, 2
  {
    var level := BinaryPrecedence(tighter);
    BinaryChain(d, ts, right, Some(tighter), i, level);
    var raised := ParseBinary(d, ts, right, Some(tighter), i, level).value;
    ClaimStep(d, ts, right, op, tighter, i);
    ClaimChain(d, ts, raised.expr, op, raised.next);
    var p := ClaimRight(d, ts, raised.expr, op, raised.next).value;
    ReadOn(d, ts, i, raised.next, p.next, Yield(right), Yield(raised.expr), Yield(p.expr));
  }

  /** The inner loop hands what the tighter operator built on to its next round. */
  lemma ClaimStep(d: Dialect, ts: seq<Lexer.Lexer>, right: Expr, op: BinaryOp, tighter: BinaryOp, i: nat)
    requires At(ts, i) && Valid(right) && InScope(d, right)
    requires BinaryOpOf(d, ts[i].symbol) == Some(tighter) && Binds(tighter) > Binds(op)
    requires ParseBinary(d, ts, right, Some(tighter), i, BinaryPrecedence(tighter)).Ok?
    ensures var raised := ParseBinary(d, ts, right, Some(tighter), i, BinaryPrecedence(tighter)).value;
      ClaimRight(d, ts, right, op, i) == ClaimRight(d, ts, raised.expr, op, raised.next)
  {
    assert Level(BinaryPrecedence(tighter)) > Level(BinaryPrecedence(op));
  }

  /**
    A chain parses, to its end, into an ordered tree that reads back as the
    chain: every operator takes as operands exactly the subformulas its
    precedence and the left-to-right rule give it.
   */
  lemma ChainParses(d: Dialect, ts: seq<Lexer.Lexer>)
    requires Chain(d, ts)
    ensures ParseExpression(d, ts, 0).Ok?
    ensures var p := ParseExpression(d, ts, 0).value;
      p.next == |ts| - 1 && Ordered(p.expr) && Yield(p.expr) == Items(d, ts, 0, |ts| - 1)
  {
    var first := Const(ts[0].value);
    var op := BinaryOpOf(d, ts[1].symbol);
    ChainStart(d, ts);
    OperatorAt(d, ts, 1);
    assert Items(d, ts, 0, 1) == [ItemAt(d, ts, 0)];
    if op.Some? {
      WholeChain(d, ts);
    }
  }

  /** From the first operator on, the binary loop reads the rest of a chain. */
  lemma WholeChain(d: Dialect, ts: seq<Lexer.Lexer>)
    requires Chain(d, ts) && At(ts, 1) && BinaryOpOf(d, ts[1].symbol).Some?
    ensures var first := Const(ts[0].value);
      && ParseBinary(d, ts, first, BinaryOpOf(d, ts[1].symbol), 1, Precedence.None).Ok?
      && var p := ParseBinary(d, ts, first, BinaryOpOf(d, ts[1].symbol), 1, Precedence.None).value;
         p.next == |ts| - 1 && Ordered(p.expr) && Yield(p.expr) == Items(d, ts, 0, |ts| - 1)
  {
    var first := Const(ts[0].value);
    var op := BinaryOpOf(d, ts[1].symbol);
    assert Items(d, ts, 0, 1) == [ItemAt(d, ts, 0)];
    BinaryChain(d, ts, first, op, 1, Precedence.None);
    var p := ParseBinary(d, ts, first, op, 1, Precedence.None).value;
    OperatorAt(d, ts, p.next);
    ReadOn(d, ts, 0, 1, p.next, [], Yield(first), Yield(p.expr));
  }

  /** A chain's expression starts with its first number, then runs the binary loop when an operator follows. */
  lemma ChainStart(d: Dialect, ts: seq<Lexer.Lexer>)
    requires Chain(d, ts)
    ensures At(ts, 1) && Valid(Const(ts[0].value)) && InScope(d, Const(ts[0].value))
    ensures ParseExpression(d, ts, 0) ==
      if BinaryOpOf(d, ts[1].symbol).Some?
      then ParseBinary(d, ts, Const(ts[0].value), BinaryOpOf(d, ts[1].symbol), 1, Precedence.None)
      else Ok(Parsed(Const(ts[0].value), 1))
  {
    OperandAt(d, ts, 0);
    OperatorAt(d, ts, 1);
  }

  lemma {:induction false} YieldStartsWithOperand(e: Expr)
    requires Ordered(e)
    ensures |Yield(e)| >= 1 && Yield(e)[0].Operand?
  {
    match e
    case Const(_) =>
    case Binary(_, a, _) => YieldStartsWithOperand(a);
  }

  /** In an ordered tree, no operator binds more loosely than the one at the top. */
  lemma {:induction false} TopIsLoosest(e: Expr)
    requires Ordered(e)
    ensures forall k :: 0 <= k < |Yield(e)| && Yield(e)[k].Operator? ==> Binds(Yield(e)[k].op) >= Top(e)
  {
    match e
    case Const(_) =>
    case Binary(op, a, b) =>
      TopIsLoosest(a);
      TopIsLoosest(b);
      forall k | 0 <= k < |Yield(e)| && Yield(e)[k].Operator?
        ensures Binds(Yield(e)[k].op) >= Top(e)
      {
        if k < |Yield(a)| {
          assert Yield(e)[k] == Yield(a)[k];
        } else if k > |Yield(a)| {
          assert Yield(e)[k] == Yield(b)[k - |Yield(a)| - 1];
        }
      }
  }

  /** Two ordered trees that read back alike are the same tree. */
  lemma {:induction false} OrderedTreeIsUnique(a: Expr, b: Expr)
    requires Ordered(a) && Ordered(b) && Yield(a) == Yield(b)
    ensures a == b
  {
    match a
    case Const(_) =>
    case Binary(op1, l1, r1) =>
      if b.Binary? {
        var Binary(op2, l2, r2) := b;
        var n1, n2 := |Yield(l1)|, |Yield(l2)|;
        assert Yield(a)[n1] == Operator(op1) && Yield(b)[n2] == Operator(op2);
        if n1 < n2 {
          TopIsLoosest(l2);
          TopIsLoosest(r1);
          assert false;
        } else if n2 < n1 {
          TopIsLoosest(l1);
          TopIsLoosest(r2);
          assert false;
        } else {
          assert Yield(l1) == Yield(a)[..n1] == Yield(l2);
          assert Yield(r1) == Yield(a)[n1 + 1..] == Yield(r2);
          OrderedTreeIsUnique(l1, l2);
          OrderedTreeIsUnique(r1, r2);
        }
      }
  }

  /**
    The parse of a chain is exactly the ordered tree that reads back as the
    chain: any tree that keeps the precedence rules and the left-to-right
    order of the formula is what the parser builds.
   */
  lemma ChainParsesToOrderedTree(d: Dialect, ts: seq<Lexer.Lexer>, t: Expr)
    requires Chain(d, ts) && Ordered(t) && Yield(t) == Items(d, ts, 0, |ts| - 1)
    ensures ParseExpression(d, ts, 0) == Ok(Parsed(t, |ts| - 1))
  {
    ChainParses(d, ts);
    OrderedTreeIsUnique(ParseExpression(d, ts, 0).value.expr, t);
  }

  /** Tokens `0` to `j` of a chain folded to the left: `((n0 op1 n1) op2 n2) …`. */
  function LeftFold(d: Dialect, ts: seq<Lexer.Lexer>, j: nat): Expr
    requires Chain(d, ts) && j % 2 == 0 && j < |ts| - 1
  {
    if j == 0 then Const(ts[0].value)
    else Binary(BinaryOpOf(d, ts[j - 1].symbol).value, LeftFold(d, ts, j - 2), Const(ts[j].value))
  }

  /** Every operator of the chain has precedence `p`. */
  predicate OneLevel(d: Dialect, ts: seq<Lexer.Lexer>, p: Precedence)
    requires Chain(d, ts)
  {
    forall k :: 0 <= k < |ts| - 1 && k % 2 == 1 ==> BinaryPrecedence(BinaryOpOf(d, ts[k].symbol).value) == p
  }

  lemma {:induction false} LeftFoldIsOrdered(d: Dialect, ts: seq<Lexer.Lexer>, p: Precedence, j: nat)
    requires Chain(d, ts) && OneLevel(d, ts, p) && j % 2 == 0 && j < |ts| - 1
    ensures Ordered(LeftFold(d, ts, j)) && Top(LeftFold(d, ts, j)) >= Level(p)
  {
    if j > 0 {
      var op := BinaryOpOf(d, ts[j - 1].symbol).value;
      assert BinaryPrecedence(op) == p;
      BindsBelowAtom(op);
      LeftFoldIsOrdered(d, ts, p, j - 2);
      assert LeftFold(d, ts, j) == Binary(op, LeftFold(d, ts, j - 2), Const(ts[j].value));
    }
  }

  lemma {:induction false} LeftFoldYield(d: Dialect, ts: seq<Lexer.Lexer>, j: nat)
    requires Chain(d, ts) && j % 2 == 0 && j < |ts| - 1
    ensures Yield(LeftFold(d, ts, j)) == Items(d, ts, 0, j + 1)
  {
    if j == 0 {
      assert Items(d, ts, 0, 1) == [ItemAt(d, ts, 0)];
    } else {
      LeftFoldYield(d, ts, j - 2);
      ItemsOfStep(d, ts, j - 1);
      var before := Yield(LeftFold(d, ts, j - 2));
      assert Yield(LeftFold(d, ts, j)) == before + Items(d, ts, j - 1, j + 1);
      ReadOn(d, ts, 0, j - 1, j + 1, [], before, Yield(LeftFold(d, ts, j)));
    }
  }

  /**
    A chain whose operators all share one precedence, `^` included, folds to
    the left: `a op b op c` is `(a op b) op c`.
   */
  lemma ChainFoldsLeft(d: Dialect, ts: seq<Lexer.Lexer>, p: Precedence)
    requires Chain(d, ts) && OneLevel(d, ts, p)
    ensures ParseExpression(d, ts, 0) == Ok(Parsed(LeftFold(d, ts, |ts| - 2), |ts| - 1))
  {
    LeftFoldIsOrdered(d, ts, p, |ts| - 2);
    LeftFoldYield(d, ts, |ts| - 2);
    ChainParsesToOrderedTree(d, ts, LeftFold(d, ts, |ts| - 2));
  }
}
