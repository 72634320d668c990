/** The intrinsic functions callable from a formula, in the order of their table. */
module Intrinsics {
  import opened Doubles
  import opened Booleans
  import opened Wrappers
  import MathLib

  datatype Intrinsic =
    | Sqrt | Sqr | Log10 | Log2 | Ln | Exp | Exp10 | Exp2
    | Sin | Cos | Tan | Asin | Acos | Atan | Atan2
    | Abs | Max | Min | Round | Floor | Ceil | Trunc
    | Clamp | Clip | InRange

  /** Every intrinsic, in table order. */
  const All: seq<Intrinsic> := [
    Sqrt, Sqr, Log10, Log2, Ln, Exp, Exp10, Exp2,
    Sin, Cos, Tan, Asin, Acos, Atan, Atan2,
    Abs, Max, Min, Round, Floor, Ceil, Trunc,
    Clamp, Clip, InRange]

  /** The name a formula calls the function by. */
  function Name(f: Intrinsic): string {
    match f
    case Sqrt => "sqrt"
    case Sqr => "sqr"
    case Log10 => "log10"
    case Log2 => "log2"
    case Ln => "ln"
    case Exp => "exp"
    case Exp10 => "exp10"
    case Exp2 => "exp2"
    case Sin => "sin"
    case Cos => "cos"
    case Tan => "tan"
    case Asin => "asin"
    case Acos => "acos"
    case Atan => "atan"
    case Atan2 => "atan2"
    case Abs => "abs"
    case Max => "max"
    case Min => "min"
    case Round => "round"
    case Floor => "floor"
    case Ceil => "ceil"
    case Trunc => "trunc"
    case Clamp => "clamp"
    case Clip => "clip"
    case InRange => "in_range"
  }

  /** The parameter count of the table entry. */
  function Arity(f: Intrinsic): nat {
    match f
    case Atan2 => 2
    case Max => 2
    case Min => 2
    case Clamp => 3
    case Clip => 3
    case InRange => 3
    case _ => 1
  }

  /** The dictionary lookup by name: the entry of `fs` that bears it, if any. */
  function LookupIn(fs: seq<Intrinsic>, name: string): (r: Option<Intrinsic>)
    ensures r.Some? ==> r.value in fs && Name(r.value) == name
    ensures r.None? <==> forall i :: 0 <= i < |fs| ==> Name(fs[i]) != name
  {
    if |fs| == 0 then None
    else if Name(fs[0]) == name then Some(fs[0])
    else LookupIn(fs[1..], name)
  }

  function Lookup(name: string): Option<Intrinsic> {
    LookupIn(All, name)
  }

  // ---------------------------------------------------------------------------
  // The numeric functions that are not transcendental

  function AbsD(a: Double): (r: Double)
    ensures a.NaN? <==> r.NaN?
    ensures a.Finite? ==> r.Finite? && r.v >= 0.0 && (r.v == a.v || r.v == -a.v)
    ensures (a.PosInf? || a.NegInf?) ==> r.PosInf?
  {
    match a
    case Finite(x) => Finite(if x < 0.0 then -x else x)
    case NaN => NaN
    case _ => PosInf
  }

  /** `double.Max`: NaN if either argument is NaN, otherwise the larger. */
  function MaxD(a: Double, b: Double): (r: Double)
    ensures (a.NaN? || b.NaN?) <==> r.NaN?
    ensures !r.NaN? ==> (r == a || r == b) && Ge(r, a) && Ge(r, b)
  {
    if a.NaN? || b.NaN? then NaN else if Lt(a, b) then b else a
  }

  /** `double.Min`: NaN if either argument is NaN, otherwise the smaller. */
  function MinD(a: Double, b: Double): (r: Double)
    ensures (a.NaN? || b.NaN?) <==> r.NaN?
    ensures !r.NaN? ==> (r == a || r == b) && Le(r, a) && Le(r, b)
  {
    if a.NaN? || b.NaN? then NaN else if Lt(b, a) then b else a
  }

  /** Applies an integer rounding of the reals to a double; NaN and infinities map to themselves. */
  function RoundWith(a: Double, f: real -> int): Double {
    match a
    case Finite(x) => Finite(f(x) as real)
    case _ => a
  }

  /** Round half to even, the default of `double.Round`. */
  function RoundHalfEven(x: real): (n: int)
    ensures x - 0.5 <= n as real <= x + 0.5
    ensures (n as real - x == 0.5 || x - n as real == 0.5) ==> n % 2 == 0
  {
    var f := x.Floor;
    var d := x - f as real;
    if d < 0.5 then f
    else if d > 0.5 then f + 1
    else if f % 2 == 0 then f else f + 1
  }

  /** The least integer not below `x`. */
  function CeilReal(x: real): (n: int)
    ensures x <= n as real < x + 1.0
  {
    -((-x).Floor)
  }

  /**
    `clamp(x,min,max)`: min when x < min, else max when x > max, else x. With
    ordered bounds a number is brought into [min, max]; a NaN passes through.
   */
  function ClampD(x: Double, lo: Double, hi: Double): (r: Double)
    ensures !x.NaN? && Le(lo, hi) ==> Ge(r, lo) && Le(r, hi)
    ensures Ge(x, lo) && Le(x, hi) ==> r == x
    ensures Lt(x, lo) ==> r == lo
    ensures Gt(x, hi) && !Lt(x, lo) ==> r == hi
    ensures x.NaN? ==> r == x
  {
    if Lt(x, lo) then lo else if Gt(x, hi) then hi else x
  }

  /** `clip(x,min,max)`: x when it lies in [min, max], otherwise NaN. */
  function ClipD(x: Double, lo: Double, hi: Double): (r: Double)
    ensures Ge(x, lo) && Le(x, hi) ==> r == x
    ensures !(Ge(x, lo) && Le(x, hi)) ==> r.NaN?
  {
    if Ge(x, lo) && Le(x, hi) then x else NaN
  }

  /** `in_range(x,min,max)`: the encoded boolean x in [min, max]. */
  function InRangeD(x: Double, lo: Double, hi: Double): (r: Double)
    ensures ToBool(r) <==> Ge(x, lo) && Le(x, hi)
  {
    FromBool(Ge(x, lo) && Le(x, hi))
  }

  /** Invokes the function's delegate on an argument array of at least its arity. */
  function Apply(f: Intrinsic, args: seq<Double>, lib: MathLib.MathLib): Double
    requires Arity(f) <= |args|
  {
    match f
    case Sqrt => lib.unary(MathLib.Sqrt, args[0])
    case Sqr => Mul(args[0], args[0])
    case Log10 => lib.unary(MathLib.Log10, args[0])
    case Log2 => lib.unary(MathLib.Log2, args[0])
    case Ln => lib.unary(MathLib.Ln, args[0])
    case Exp => lib.unary(MathLib.Exp, args[0])
    case Exp10 => lib.unary(MathLib.Exp10, args[0])
    case Exp2 => lib.unary(MathLib.Exp2, args[0])
    case Sin => lib.unary(MathLib.Sin, args[0])
    case Cos => lib.unary(MathLib.Cos, args[0])
    case Tan => lib.unary(MathLib.Tan, args[0])
    case Asin => lib.unary(MathLib.Asin, args[0])
    case Acos => lib.unary(MathLib.Acos, args[0])
    case Atan => lib.unary(MathLib.Atan, args[0])
    case Atan2 => lib.atan2(args[0], args[1])
    case Abs => AbsD(args[0])
    case Max => MaxD(args[0], args[1])
    case Min => MinD(args[0], args[1])
    case Round => RoundWith(args[0], RoundHalfEven)
    case Floor => RoundWith(args[0], (x: real) => x.Floor)
    case Ceil => RoundWith(args[0], CeilReal)
    case Trunc => RoundWith(args[0], TruncReal)
    case Clamp => ClampD(args[0], args[1], args[2])
    case Clip => ClipD(args[0], args[1], args[2])
    case InRange => InRangeD(args[0], args[1], args[2])
  }

  // ---------------------------------------------------------------------------
  // Facts about the table

  /** No two intrinsics share a name. */
  lemma NameInjective(f: Intrinsic, g: Intrinsic)
    ensures Name(f) == Name(g) ==> f == g
  {
    if Name(f) == Name(g) {
      assert |Name(f)| == |Name(g)|;
      assert Name(f)[0] == Name(g)[0];
      assert |Name(f)| > 1 ==> Name(f)[1] == Name(g)[1];
      assert |Name(f)| > 3 ==> Name(f)[3] == Name(g)[3];
      assert |Name(f)| > 4 ==> Name(f)[4] == Name(g)[4];
    }
  }

  /** Looking a function up by its own name finds it, and a name finds only the function bearing it. */
  lemma LookupByName(f: Intrinsic, name: string)
    ensures Lookup(Name(f)) == Some(f)
    ensures Lookup(name) == Some(f) <==> name == Name(f)
  {
    assert f in All;
    var g := Lookup(Name(f)).value;
    NameInjective(f, g);
  }

  /** The three-argument helpers: clamp stays within bounds, clip agrees with clamp inside them. */
  lemma ClampClipInRange(x: Double, lo: Double, hi: Double)
    requires IsRealNumber(x) && IsRealNumber(lo) && IsRealNumber(hi) && Le(lo, hi)
    ensures Ge(ClampD(x, lo, hi), lo) && Le(ClampD(x, lo, hi), hi)
    ensures ToBool(InRangeD(x, lo, hi)) ==> ClipD(x, lo, hi) == x == ClampD(x, lo, hi)
    ensures !ToBool(InRangeD(x, lo, hi)) ==> ClipD(x, lo, hi).NaN? && ClampD(x, lo, hi) != x
  {
  }

  /** The rounding functions map an integer-valued double to itself and keep NaN and the infinities. */
  lemma RoundingFixesIntegers(f: Intrinsic, n: int, lib: MathLib.MathLib)
    requires f in {Round, Floor, Ceil, Trunc}
    ensures Apply(f, [Finite(n as real)], lib) == Finite(n as real)
    ensures Apply(f, [NaN], lib).NaN?
    ensures Apply(f, [PosInf], lib) == PosInf && Apply(f, [NegInf], lib) == NegInf
  {
    match f
    case Round => assert RoundHalfEven(n as real) == n;
    case Floor =>
    case Ceil => assert CeilReal(n as real) == n;
    case Trunc => assert TruncReal(n as real) == n;
  }
}

/** The named constants of a formula. */
module Constants {
  import opened Doubles
  import opened Booleans
  import opened Wrappers

  /** `double.E` and `double.Pi`, written as the decimal literals that denote those doubles. */
  const E: Double := Finite(2.718281828459045)
  const Pi: Double := Finite(3.141592653589793)

  /** The dictionary's entries in declaration order; `False` is the very same value as `NaN`. */
  const Named: seq<(string, Double)> := [
    ("e", E), ("pi", Pi), ("NaN", NaN), ("inf", PosInf), ("True", Booleans.True), ("False", Booleans.False)]

  /** The dictionary lookup. */
  function Lookup(name: string): (r: Option<Double>)
    ensures r.Some? <==> name in Names
  {
    if name == "e" then Some(E)
    else if name == "pi" then Some(Pi)
    else if name == "NaN" then Some(NaN)
    else if name == "inf" then Some(PosInf)
    else if name == "True" then Some(Booleans.True)
    else if name == "False" then Some(Booleans.False)
    else None
  }

  /** The names, in the order they are listed in error messages. */
  const Names: seq<string> := ["e", "pi", "NaN", "inf", "True", "False"]

  /** Each name maps to its entry's value: True is 1, False is the very value NaN, and inf is positive. */
  lemma NamedConstantValues(i: nat)
    requires i < |Named|
    ensures Lookup(Named[i].0) == Some(Named[i].1)
    ensures Named[i].0 == Names[i]
    ensures Lookup("True") == Some(Finite(1.0))
    ensures Lookup("False") == Some(NaN) == Lookup("NaN")
  {
  }
}
