/** The expression type of `src/parser.rs`, which is both the syntax tree the
    parser builds and the runtime value: its hand-written equality with
    cross-variant coercions, truthiness, the `Option` conversion and the
    `to_string` rendering. */
module Exprs {

  import opened Results
  import opened Numerics

  // ----- f64 as its IEEE 754 bit pattern -----

  /** A Rust `f64`, kept as its IEEE 754 binary64 bit pattern. */
  datatype F64 = F64(bits: bv64)

  function BiasedExponent(f: F64): int
  {
    ((f.bits >> 52) & 0x7FF) as int
  }

  function Fraction(f: F64): bv64
  {
    f.bits & 0xF_FFFF_FFFF_FFFF
  }

  predicate IsNaN(f: F64)
  {
    BiasedExponent(f) == 0x7FF && Fraction(f) != 0
  }

  /** `+0.0` or `-0.0`. */
  predicate IsZero(f: F64)
  {
    f.bits & 0x7FFF_FFFF_FFFF_FFFF == 0
  }

  /** IEEE 754 equality, Rust's `f64 == f64`: a NaN equals nothing, the two
      zeros are equal, and otherwise equal means the same bit pattern. */
  predicate FloatEq(a: F64, b: F64)
  {
    !IsNaN(a) && !IsNaN(b) && (a.bits == b.bits || (IsZero(a) && IsZero(b)))
  }

  function Pow2(k: nat): (p: nat)
    ensures p >= 1
  {
    if k == 0 then 1 else 2 * Pow2(k - 1)
  }

  lemma {:induction false} Pow2Add(a: nat, b: nat)
    ensures Pow2(a + b) == Pow2(a) * Pow2(b)
  {
    if a > 0 {
      Pow2Add(a - 1, b);
    }
  }

  /** The magnitude of a normal float with biased exponent `e` and fraction
      field `fraction`, when it is integral and below 2^64. */
  function NormalMagnitude(e: int, fraction: nat): Option<nat>
  {
    var significand: nat := fraction + 0x10_0000_0000_0000;
    if e >= 1075 then
      (if e - 1075 <= 11 then Some(significand * Pow2(e - 1075)) else None)
    else if 1075 - e >= 53 then None
    else if significand % Pow2(1075 - e) == 0 then Some(significand / Pow2(1075 - e))
    else None
  }

  /** The integer that `f` denotes, when `f` is finite, integral and smaller
      than 2^64 in magnitude; `None` otherwise (no `i64` converts to such a
      float). */
  function SmallIntegerValue(f: F64): Option<int>
  {
    var e := BiasedExponent(f);
    var magnitude :=
      if e == 0x7FF then None
      else if e == 0 then (if Fraction(f) == 0 then Some(0) else None)
      else NormalMagnitude(e, Fraction(f) as int);
    match magnitude
    case None => None
    case Some(m) => if (f.bits >> 63) == 1 then Some(-(m as int)) else Some(m as int)
  }

  function BitLength(n: nat): nat
  {
    if n == 0 then 0 else 1 + BitLength(n / 2)
  }

  /** `n` rounded to a multiple of `p`, ties to the even multiple. */
  function RoundToMultiple(n: nat, p: nat): nat
    requires p >= 1
  {
    var q, r := n / p, n % p;
    if r * 2 > p || (r * 2 == p && q % 2 == 1) then (q + 1) * p else q * p
  }

  /** The nearest integer with at most 53 significant bits, ties to even:
      the value of `n as f64` for `n` within the range of `i64`. */
  function RoundToDouble(n: nat): nat
  {
    var len := BitLength(n);
    if len <= 53 then n else RoundToMultiple(n, Pow2(len - 53))
  }

  /** Rust's `i as f64 == f`. */
  predicate IntEqFloat(i: int, f: F64)
  {
    var rounded: int := if i < 0 then -(RoundToDouble(-i) as int) else RoundToDouble(i);
    SmallIntegerValue(f) == Some(rounded)
  }

  /** The laws of IEEE equality: symmetric, a NaN equals nothing, every
      other float equals itself, the two zeros are equal, and a non-zero
      float equals only its own bit pattern. */
  lemma FloatEqLaws(a: F64, b: F64)
    ensures FloatEq(a, b) == FloatEq(b, a)
    ensures IsNaN(a) ==> !FloatEq(a, b)
    ensures !IsNaN(a) ==> FloatEq(a, a)
    ensures FloatEq(F64(0), F64(0x8000_0000_0000_0000))
    ensures !IsZero(a) ==> (FloatEq(a, b) <==> !IsNaN(a) && a.bits == b.bits)
  {
  }

  lemma {:induction false} BitLengthBelow(n: nat, k: nat)
    requires n < Pow2(k)
    ensures BitLength(n) <= k
  {
    if n > 0 {
      assert k > 0;
      BitLengthBelow(n / 2, k - 1);
    }
  }

  lemma {:induction false} BitLengthAbove(n: nat, k: nat)
    requires Pow2(k) <= n
    ensures BitLength(n) >= k + 1
  {
    if k > 0 {
      BitLengthAbove(n / 2, k - 1);
    }
  }

  /** An integer of magnitude below 2^53 converts to `f64` exactly, so it
      equals a float exactly when that float denotes it. */
  lemma IntEqFloatExact(i: int, f: F64)
    requires Abs(i) < 0x20_0000_0000_0000
    ensures IntEqFloat(i, f) <==> SmallIntegerValue(f) == Some(i)
  {
    Pow2Of52();
    BitLengthBelow(Abs(i), 53);
  }

  /** Beyond 2^53 the conversion rounds: 2^53 + 1 becomes the float 2^53
      (bit pattern 0x4340000000000000), so the two integers 2^53 and
      2^53 + 1 both equal that one float. */
  lemma IntEqFloatRounds()
    ensures IntEqFloat(0x20_0000_0000_0000, F64(0x4340_0000_0000_0000))
    ensures IntEqFloat(0x20_0000_0000_0001, F64(0x4340_0000_0000_0000))
  {
    Pow2Of52();
    var f := F64(0x4340_0000_0000_0000);
    assert BiasedExponent(f) == 1076 && Fraction(f) == 0 && (f.bits >> 63) == 0;
    assert SmallIntegerValue(f) == Some(0x20_0000_0000_0000);
    BitLengthAbove(0x20_0000_0000_0000, 53);
    BitLengthBelow(0x20_0000_0000_0001, 54);
    assert RoundToDouble(0x20_0000_0000_0000) == 0x20_0000_0000_0000;
    assert RoundToDouble(0x20_0000_0000_0001) == 0x20_0000_0000_0000;
  }

  // ----- the expression type -----

  datatype Expr =
    | Integer(i: I64)
    | Float(f: F64)
    | String(s: string)
    | Boolean(b: bool)
    | Symbol(name: string)
    | Call(name: string)
    /** A block is lazy: `(1 2 3)`. */
    | Block(items: seq<Expr>)
    /** A list is eager: `[1 2 3]`. */
    | List(items: seq<Expr>)
    | Nil

  /** `impl PartialEq for Expr`: same-variant payload comparison, element-wise
      comparison of blocks and lists with this same equality, and two
      coercions across variants (integer with float, integer with boolean).
      Every other pair of variants is unequal. */
  predicate Equal(a: Expr, b: Expr)
  {
    match (a, b)
    case (Float(x), Float(y)) => FloatEq(x, y)
    case (Integer(x), Integer(y)) => x == y
    case (String(x), String(y)) => x == y
    case (Boolean(x), Boolean(y)) => x == y
    case (Symbol(x), Symbol(y)) => x == y
    case (Call(x), Call(y)) => x == y
    case (Block(xs), Block(ys)) => |xs| == |ys| && forall k :: 0 <= k < |xs| ==> Equal(xs[k], ys[k])
    case (List(xs), List(ys)) => |xs| == |ys| && forall k :: 0 <= k < |xs| ==> Equal(xs[k], ys[k])
    case (Nil, Nil) => true
    case (Float(x), Integer(y)) => IntEqFloat(y, x)
    case (Integer(x), Float(y)) => IntEqFloat(x, y)
    case (Integer(x), Boolean(y)) => (x != 0) == y
    case (Boolean(x), Integer(y)) => x == (y != 0)
    case _ => false
  }

  /** Both expressions are built by the same constructor. */
  predicate SameVariant(a: Expr, b: Expr)
  {
    (a.Integer? && b.Integer?) || (a.Float? && b.Float?) || (a.String? && b.String?)
    || (a.Boolean? && b.Boolean?) || (a.Symbol? && b.Symbol?) || (a.Call? && b.Call?)
    || (a.Block? && b.Block?) || (a.List? && b.List?) || (a.Nil? && b.Nil?)
  }

  /** The two cross-variant pairs that the equality coerces. */
  predicate CoercedPair(a: Expr, b: Expr)
  {
    (a.Integer? && (b.Float? || b.Boolean?)) || (b.Integer? && (a.Float? || a.Boolean?))
  }

  /** Some float anywhere inside `e` is a NaN. */
  predicate HasNaN(e: Expr)
  {
    match e
    case Float(f) => IsNaN(f)
    case Block(xs) => exists k :: 0 <= k < |xs| && HasNaN(xs[k])
    case List(xs) => exists k :: 0 <= k < |xs| && HasNaN(xs[k])
    case _ => false
  }

  lemma {:induction false} EqualSymmetric(a: Expr, b: Expr)
    ensures Equal(a, b) == Equal(b, a)
  {
    match (a, b)
    case (Block(xs), Block(ys)) =>
      forall k | 0 <= k < |xs| && k < |ys| ensures Equal(xs[k], ys[k]) == Equal(ys[k], xs[k]) {
        EqualSymmetric(xs[k], ys[k]);
      }
    case (List(xs), List(ys)) =>
      forall k | 0 <= k < |xs| && k < |ys| ensures Equal(xs[k], ys[k]) == Equal(ys[k], xs[k]) {
        EqualSymmetric(xs[k], ys[k]);
      }
    case _ =>
  }

  /** Every expression without a NaN inside equals itself. */
  lemma {:induction false} EqualReflexive(a: Expr)
    requires !HasNaN(a)
    ensures Equal(a, a)
  {
    match a
    case Block(xs) =>
      forall k | 0 <= k < |xs| ensures Equal(xs[k], xs[k]) {
        EqualReflexive(xs[k]);
      }
    case List(xs) =>
      forall k | 0 <= k < |xs| ensures Equal(xs[k], xs[k]) {
        EqualReflexive(xs[k]);
      }
    case _ =>
  }

  /** An integer equals a boolean exactly when its being non-zero is that
      boolean, in either argument order. */
  lemma IntegerBooleanEquality(i: I64, b: bool)
    ensures Equal(Integer(i), Boolean(b)) <==> ((i != 0) == b)
    ensures Equal(Boolean(b), Integer(i)) <==> ((i != 0) == b)
  {
  }

  /** No pair of variants other than same-variant and the two coerced pairs
      is ever equal; in particular a block never equals a list. */
  lemma CrossVariantUnequal(a: Expr, b: Expr)
    requires !SameVariant(a, b) && !CoercedPair(a, b)
    ensures !Equal(a, b)
  {
  }

  /** Blocks and lists compare element-wise, with the expression equality
      itself, and only with their own kind. */
  lemma CompositeEquality(xs: seq<Expr>, ys: seq<Expr>)
    ensures Equal(Block(xs), Block(ys)) <==> |xs| == |ys| && forall k :: 0 <= k < |xs| ==> Equal(xs[k], ys[k])
    ensures Equal(List(xs), List(ys)) <==> |xs| == |ys| && forall k :: 0 <= k < |xs| ==> Equal(xs[k], ys[k])
    ensures !Equal(Block(xs), List(ys)) && !Equal(List(xs), Block(ys))
  {
  }

  /** The coercions make the equality non-transitive: `1 == true` and
      `true == 2`, yet `1 != 2`. */
  lemma EqualNotTransitive()
    ensures Equal(Integer(1), Boolean(true)) && Equal(Boolean(true), Integer(2))
    ensures !Equal(Integer(1), Integer(2))
  {
  }

  // ----- truthiness, nil, and the Option conversion -----

  /** `Expr::is_truthy`. */
  predicate IsTruthy(e: Expr)
  {
    match e
    case Nil => false
    case Boolean(b) => b
    case Integer(i) => i != 0
    case Float(f) => !IsZero(f)
    case _ => true
  }

  /** `Nil` is falsy, a boolean is itself, an integer or float is truthy
      when non-zero (a NaN is truthy), and every string, symbol, call, block
      and list is truthy, even an empty one. */
  lemma TruthinessCases(e: Expr)
    ensures e.Nil? ==> !IsTruthy(e)
    ensures e.Boolean? ==> (IsTruthy(e) <==> e.b)
    ensures e.Integer? ==> (IsTruthy(e) <==> e.i != 0)
    ensures e.Float? ==> (IsTruthy(e) <==> !IsZero(e.f))
    ensures e.Float? && IsNaN(e.f) ==> IsTruthy(e)
    ensures e.String? || e.Symbol? || e.Call? || e.Block? || e.List? ==> IsTruthy(e)
  {
  }

  /** For integers and booleans, truthiness agrees with the coercing
      equality: truthy exactly when equal to `true`, falsy exactly when equal
      to `false`. */
  lemma TruthinessMatchesEquality(e: Expr)
    requires e.Integer? || e.Boolean?
    ensures IsTruthy(e) <==> Equal(e, Boolean(true))
    ensures !IsTruthy(e) <==> Equal(e, Boolean(false))
  {
  }

  /** `Expr::is_nil`, which holds exactly for the expressions equal to `Nil`. */
  predicate IsNil(e: Expr)
    ensures IsNil(e) <==> Equal(e, Nil)
    ensures IsNil(e) ==> !IsTruthy(e)
  {
    e.Nil?
  }

  /** `impl From<Option<Expr>> for Expr`: a missing value becomes `Nil`. */
  function FromOption(o: Option<Expr>): (e: Expr)
    ensures o.Some? ==> e == o.value
    ensures IsNil(e) <==> (o.None? || o.value.Nil?)
  {
    match o
    case None => Nil
    case Some(v) => v
  }

  // ----- to_string -----

  /** The parts separated by `sep`, as `join` concatenates them. */
  function Join(parts: seq<string>, sep: string): string
  {
    if parts == [] then ""
    else if |parts| == 1 then parts[0]
    else parts[0] + sep + Join(parts[1..], sep)
  }

  /** `impl ToString for Expr`. How an `f64` is formatted is given by
      `showFloat`. */
  function Render(e: Expr, showFloat: F64 -> string): string
  {
    match e
    case Integer(i) => Decimal(i)
    case Float(f) => showFloat(f)
    case String(s) => s
    case Boolean(b) => if b then "true" else "false"
    case Symbol(s) => s
    case Call(s) => s
    case Block(xs) => "(" + Join(seq(|xs|, k requires 0 <= k < |xs| => Render(xs[k], showFloat)), " ") + ")"
    case List(xs) => "[" + Join(seq(|xs|, k requires 0 <= k < |xs| => Render(xs[k], showFloat)), " ") + "]"
    case Nil => "nil"
  }

  /** A block renders between parentheses and a list between square
      brackets, so the two are told apart in text as well; an integer renders
      as decimal text that reads back as the same integer. */
  lemma RenderDelimiters(xs: seq<Expr>, showFloat: F64 -> string)
    ensures var r := Render(Block(xs), showFloat); |r| >= 2 && r[0] == '(' && r[|r| - 1] == ')'
    ensures var r := Render(List(xs), showFloat); |r| >= 2 && r[0] == '[' && r[|r| - 1] == ']'
    ensures Render(Block(xs), showFloat) != Render(List(xs), showFloat)
  {
    var r := Render(Block(xs), showFloat);
    assert r[0] == '(';
    var l := Render(List(xs), showFloat);
    assert l[0] == '[';
  }

  lemma RenderIntegerReadsBack(i: I64, showFloat: F64 -> string)
    ensures ReadDecimal(Render(Integer(i), showFloat)) == Some(i as int)
  {
    DecimalRoundTrip(i);
  }

  /** The literal same-variant cases of the equality tests. */
  lemma ScalarEqualityExamples()
    ensures Equal(Integer(1), Integer(1)) && !Equal(Integer(1), Integer(2))
    ensures Equal(String("hello"), String("hello")) && !Equal(String("hello"), String("world"))
    ensures Equal(Boolean(true), Boolean(true)) && !Equal(Boolean(true), Boolean(false))
  {
  }

  /** The literal symbol, call and nil cases of the equality tests. */
  lemma NameEqualityExamples()
    ensures Equal(Symbol("hello"), Symbol("hello")) && !Equal(Symbol("hello"), Symbol("world"))
    ensures Equal(Call("hello"), Call("hello")) && !Equal(Call("hello"), Call("world"))
    ensures Equal(Nil, Nil)
  {
  }

  /** The literal integer/boolean cases of the equality tests, in both
      orders. */
  lemma IntegerBooleanExamples()
    ensures Equal(Integer(1), Boolean(true)) && Equal(Integer(0), Boolean(false))
    ensures Equal(Boolean(true), Integer(1)) && Equal(Boolean(false), Integer(0))
  {
  }

  /** The literal block and list cases of the equality tests. */
  lemma CompositeEqualityExamples()
    ensures Equal(Block([Integer(1), Integer(2)]), Block([Integer(1), Integer(2)]))
    ensures !Equal(Block([Integer(1), Integer(2)]), Block([Integer(1), Integer(3)]))
    ensures Equal(List([Integer(1), Integer(2)]), List([Integer(1), Integer(2)]))
    ensures !Equal(List([Integer(1), Integer(2)]), List([Integer(1), Integer(3)]))
  {
    var one_two, one_three := [Integer(1), Integer(2)], [Integer(1), Integer(3)];
    assert Equal(one_two[0], one_two[0]) && Equal(one_two[1], one_two[1]);
    assert !Equal(one_two[1], one_three[1]);
  }

  /** The literal float cases of the equality tests: `1.0` is the bit
      pattern 0x3FF0000000000000 and `1.1` is 0x3FF199999999999A. */
  lemma FloatEqualityExamples()
    ensures Equal(Float(F64(0x3FF0_0000_0000_0000)), Float(F64(0x3FF0_0000_0000_0000)))
    ensures !Equal(Float(F64(0x3FF0_0000_0000_0000)), Float(F64(0x3FF1_9999_9999_999A)))
  {
  }

  /** The literal integer/float cases of the equality tests, in both
      orders: `1` equals `1.0` and differs from `1.1`. */
  lemma IntegerFloatExamples()
    ensures Equal(Integer(1), Float(F64(0x3FF0_0000_0000_0000)))
    ensures !Equal(Integer(1), Float(F64(0x3FF1_9999_9999_999A)))
    ensures Equal(Float(F64(0x3FF0_0000_0000_0000)), Integer(1))
    ensures !Equal(Float(F64(0x3FF1_9999_9999_999A)), Integer(1))
  {
    OneDecodes();
    OnePointOneDecodes();
    assert BitLength(1) == 1 && RoundToDouble(1) == 1;
  }

  lemma Pow2Of52()
    ensures Pow2(52) == 0x10_0000_0000_0000
  {
    assert Pow2(13) == 0x2000;
    Pow2Add(13, 13);
    Pow2Add(26, 26);
  }

  /** `1.0` denotes the integer 1. */
  lemma OneDecodes()
    ensures SmallIntegerValue(F64(0x3FF0_0000_0000_0000)) == Some(1)
  {
    var f := F64(0x3FF0_0000_0000_0000);
    assert BiasedExponent(f) == 1023 && Fraction(f) == 0 && (f.bits >> 63) == 0;
    Pow2Of52();
    assert NormalMagnitude(1023, 0) == Some(1);
  }

  /** `1.1` is not integral. */
  lemma OnePointOneDecodes()
    ensures SmallIntegerValue(F64(0x3FF1_9999_9999_999A)) == None
  {
    var f := F64(0x3FF1_9999_9999_999A);
    assert BiasedExponent(f) == 1023 && Fraction(f) == 0x1_9999_9999_999A;
    Pow2Of52();
    assert NormalMagnitude(1023, 0x1_9999_9999_999A) == None;
  }
}
