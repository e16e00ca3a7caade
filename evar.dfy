/**
 * The engine's tagged value `EVar`: a string, a 64-bit integer, a 64-bit
 * float or a boolean, with its coercions and its arithmetic, comparison,
 * bit-wise, power, minimum and maximum rules.
 *
 * A float is kept as its IEEE-754 bit pattern and is never interpreted
 * here: every float operation the engine performs (conversion from an
 * integer, parsing, arithmetic, comparison, the transcendental functions)
 * is supplied by a `FloatOps` record. Every fact proved in this module
 * therefore holds for any float semantics; the facts that need a property
 * of IEEE arithmetic say so through the `Sane` predicate.
 */
module Variant {
  import opened Wrappers
  import opened Int64

  datatype Float = Float(bits: bv64)

  /** `std::f64::consts::PI` and `std::f64::consts::E`. */
  const PI: Float := Float(0x4009_21FB_5444_2D18)
  const EULER: Float := Float(0x4005_BF0A_8B14_5769)

  datatype MathFn = Sin | Cos | Tan | Exp | Ln | Log10 | Sqrt | Cbrt

  /**
   * The float operations the value type calls. `ofInt` is `i as f64`,
   * `parse` is `str::parse::<f64>`, `truncate` is the saturating `f as i64`,
   * `eq`/`lt`/`le` are the IEEE comparisons (`x > y` is `y < x` and `x >= y`
   * is `y <= x`), `powi` takes an i32 exponent.
   */
  datatype FloatOps = FloatOps(
    ofInt: I64 -> Float,
    parse: string -> Option<Float>,
    nan: Float,
    truncate: Float -> I64,
    add: (Float, Float) -> Float,
    sub: (Float, Float) -> Float,
    mul: (Float, Float) -> Float,
    div: (Float, Float) -> Float,
    eq: (Float, Float) -> bool,
    lt: (Float, Float) -> bool,
    le: (Float, Float) -> bool,
    powf: (Float, Float) -> Float,
    powi: (Float, int) -> Float,
    math: (MathFn, Float) -> Float)

  /** IEEE equality is symmetric; nothing else about the float semantics is ever needed. */
  ghost predicate Sane(fo: FloatOps) {
    forall x, y :: fo.eq(x, y) == fo.eq(y, x)
  }

  datatype EVar = SVal(s: string) | IVal(i: I64) | FVal(f: Float) | BVal(b: bool)

  predicate IsFloat(v: EVar) {
    v.FVal?
  }

  function BoolToInt(b: bool): I64 {
    if b then 1 else 0
  }

  /** `f == 0.0`. */
  function IsZeroFloat(f: Float, fo: FloatOps): bool {
    fo.eq(f, fo.ofInt(0))
  }

  function ToFloat(v: EVar, fo: FloatOps): Float {
    match v
    case IVal(i) => fo.ofInt(i)
    case BVal(b) => fo.ofInt(BoolToInt(b))
    case FVal(f) => f
    case SVal(s) => match fo.parse(s) { case Some(f) => f case None => fo.nan }
  }

  /** Integer coercion: booleans are 0/1, a string is parsed whole or gives 0. */
  function ToInt(v: EVar, fo: FloatOps): (r: I64)
    ensures v.IVal? ==> r == v.i
    ensures v.SVal? && ParseI64(v.s).Some? ==> r == ParseI64(v.s).value
    ensures v.SVal? && ParseI64(v.s) == None ==> r == 0
    ensures v.BVal? ==> (r == 1 <==> v.b) && (r == 0 <==> !v.b)
    ensures v.FVal? ==> r == fo.truncate(v.f)
  {
    match v
    case IVal(i) => i
    case BVal(b) => BoolToInt(b)
    case FVal(f) => fo.truncate(f)
    case SVal(s) => match ParseI64(s) { case Some(i) => i case None => 0 }
  }

  /** Truth coercion: a string is always false. */
  function ToBool(v: EVar, fo: FloatOps): (r: bool)
    ensures v.SVal? ==> !r
    ensures v.IVal? || v.BVal? ==> r == (ToInt(v, fo) != 0)
  {
    match v
    case IVal(i) => i != 0
    case BVal(b) => b
    case FVal(f) => !IsZeroFloat(f, fo)
    case SVal(_) => false
  }

  /**
   * Rust's integer `/`, which truncates towards zero (`MIN / -1`, which
   * panics in Rust, is modelled as `MIN`);
   * `VariantLaws.TruncDivTowardsZero` states it for every sign combination.
   */
  function TruncDiv(x: I64, y: I64): I64
    requires y != 0
  {
    if x == MIN && y == -1 then MIN
    else
      NatDivision(Abs(x), Abs(y));
      if (x >= 0) == (y > 0) then Abs(x) / Abs(y) else -(Abs(x) / Abs(y))
  }

  /** Euclid on naturals, stated once so that the signed cases stay linear. */
  lemma NatDivision(ax: nat, ay: nat)
    requires ay > 0
    ensures 0 <= (ax / ay) * ay <= ax < (ax / ay) * ay + ay
    ensures ax / ay <= ax
    ensures ay >= 2 ==> ax / ay <= ax / 2
  {
    var q, r := ax / ay, ax % ay;
    assert ax == q * ay + r && 0 <= r < ay;
    MulAtLeast(q, ay);
  }

  lemma MulAtLeast(q: nat, k: nat)
    requires k >= 1
    ensures q * k >= q
    ensures k >= 2 ==> q * k >= 2 * q
  {
    assert q * k == q * (k - 1) + q;
    if k >= 2 {
      assert q * (k - 1) == q * (k - 2) + q;
    }
  }

  function Abs(x: int): nat { if x < 0 then -x else x }

  function Add(a: EVar, b: EVar, fo: FloatOps): (r: EVar)
    ensures r.FVal? <==> IsFloat(a) || IsFloat(b)
    ensures r.FVal? ==> r.f == fo.add(ToFloat(a, fo), ToFloat(b, fo))
    ensures !r.FVal? ==> r.IVal? && (r.i - (ToInt(a, fo) + ToInt(b, fo))) % MODULUS == 0
    ensures !r.FVal? && MIN <= ToInt(a, fo) + ToInt(b, fo) <= MAX ==> r.i == ToInt(a, fo) + ToInt(b, fo)
  {
    if IsFloat(a) || IsFloat(b) then FVal(fo.add(ToFloat(a, fo), ToFloat(b, fo)))
    else IVal(Wrap(ToInt(a, fo) + ToInt(b, fo)))
  }

  function Sub(a: EVar, b: EVar, fo: FloatOps): (r: EVar)
    ensures r.FVal? <==> IsFloat(a) || IsFloat(b)
    ensures r.FVal? ==> r.f == fo.sub(ToFloat(a, fo), ToFloat(b, fo))
    ensures !r.FVal? ==> r.IVal? && (r.i - (ToInt(a, fo) - ToInt(b, fo))) % MODULUS == 0
    ensures !r.FVal? && MIN <= ToInt(a, fo) - ToInt(b, fo) <= MAX ==> r.i == ToInt(a, fo) - ToInt(b, fo)
  {
    if IsFloat(a) || IsFloat(b) then FVal(fo.sub(ToFloat(a, fo), ToFloat(b, fo)))
    else IVal(Wrap(ToInt(a, fo) - ToInt(b, fo)))
  }

  function Mul(a: EVar, b: EVar, fo: FloatOps): (r: EVar)
    ensures r.FVal? <==> IsFloat(a) || IsFloat(b)
    ensures r.FVal? ==> r.f == fo.mul(ToFloat(a, fo), ToFloat(b, fo))
    ensures !r.FVal? ==> r.IVal? && (r.i - (ToInt(a, fo) * ToInt(b, fo))) % MODULUS == 0
    ensures !r.FVal? && MIN <= ToInt(a, fo) * ToInt(b, fo) <= MAX ==> r.i == ToInt(a, fo) * ToInt(b, fo)
  {
    if IsFloat(a) || IsFloat(b) then FVal(fo.mul(ToFloat(a, fo), ToFloat(b, fo)))
    else IVal(Wrap(ToInt(a, fo) * ToInt(b, fo)))
  }

  /** Integer division by zero panics in the source, so a zero integer divisor is excluded. */
  function Div(a: EVar, b: EVar, fo: FloatOps): (r: EVar)
    requires IsFloat(a) || IsFloat(b) || ToInt(b, fo) != 0
    ensures r.FVal? <==> IsFloat(a) || IsFloat(b)
    ensures r.FVal? ==> r.f == fo.div(ToFloat(a, fo), ToFloat(b, fo))
    ensures !r.FVal? ==> r == IVal(TruncDiv(ToInt(a, fo), ToInt(b, fo)))
  {
    if IsFloat(a) || IsFloat(b) then FVal(fo.div(ToFloat(a, fo), ToFloat(b, fo)))
    else IVal(TruncDiv(ToInt(a, fo), ToInt(b, fo)))
  }

  function EvEq(a: EVar, b: EVar, fo: FloatOps): bool {
    if IsFloat(a) || IsFloat(b) then fo.eq(ToFloat(a, fo), ToFloat(b, fo))
    else ToInt(a, fo) == ToInt(b, fo)
  }

  function EvInfEq(a: EVar, b: EVar, fo: FloatOps): bool {
    if IsFloat(a) || IsFloat(b) then fo.le(ToFloat(a, fo), ToFloat(b, fo))
    else ToInt(a, fo) <= ToInt(b, fo)
  }

  function EvInf(a: EVar, b: EVar, fo: FloatOps): bool {
    if IsFloat(a) || IsFloat(b) then fo.lt(ToFloat(a, fo), ToFloat(b, fo))
    else ToInt(a, fo) < ToInt(b, fo)
  }

  function EvSupEq(a: EVar, b: EVar, fo: FloatOps): bool {
    if IsFloat(a) || IsFloat(b) then fo.le(ToFloat(b, fo), ToFloat(a, fo))
    else ToInt(a, fo) >= ToInt(b, fo)
  }

  function EvSup(a: EVar, b: EVar, fo: FloatOps): bool {
    if IsFloat(a) || IsFloat(b) then fo.lt(ToFloat(b, fo), ToFloat(a, fo))
    else ToInt(a, fo) > ToInt(b, fo)
  }

  /** `!` on a value: true exactly for a zero, `false` or a zero float; a string gives false. */
  function EvLogNot(a: EVar, fo: FloatOps): (r: bool)
    ensures !a.SVal? ==> r == !ToBool(a, fo)
    ensures a.SVal? ==> !r
  {
    match a
    case IVal(i) => i == 0
    case BVal(b) => !b
    case FVal(f) => IsZeroFloat(f, fo)
    case SVal(_) => false
  }

  /** `~` on a value: complement of the integer conversion, but 0 (not !0) for a string. */
  function EvBitNot(a: EVar, fo: FloatOps): (r: I64)
    ensures !a.SVal? ==> r == Not(ToInt(a, fo))
    ensures a.SVal? ==> r == 0
  {
    match a
    case IVal(i) => Not(i)
    case BVal(b) => Not(BoolToInt(b))
    case FVal(f) => Not(fo.truncate(f))
    case SVal(_) => 0
  }

  function EvBand(a: EVar, b: EVar, fo: FloatOps): I64 { BitAnd(ToInt(a, fo), ToInt(b, fo)) }

  function EvBor(a: EVar, b: EVar, fo: FloatOps): I64 { BitOr(ToInt(a, fo), ToInt(b, fo)) }

  function EvBitXor(a: EVar, b: EVar, fo: FloatOps): I64 { BitXor(ToInt(a, fo), ToInt(b, fo)) }

  function EvShl(a: EVar, b: EVar, fo: FloatOps): I64 { Shl(ToInt(a, fo), ToInt(b, fo)) }

  function EvShr(a: EVar, b: EVar, fo: FloatOps): I64 { Shr(ToInt(a, fo), ToInt(b, fo)) }

  /**
   * The hand-written `PartialEq` impl: strings are unequal to everything, including
   * themselves; integers and floats against booleans compare by truthiness;
   * integers against floats compare after conversion to float.
   */
  function Equal(a: EVar, b: EVar, fo: FloatOps): (r: bool)
    ensures a.SVal? || b.SVal? ==> !r
    ensures !a.SVal? && b.BVal? ==> r == (ToBool(a, fo) == b.b)
    ensures a.BVal? && !b.SVal? ==> r == (a.b == ToBool(b, fo))
    ensures a.IVal? && b.IVal? ==> r == (a.i == b.i)
    ensures (a.FVal? || b.FVal?) && (a.IVal? || a.FVal?) && (b.IVal? || b.FVal?) ==>
      r == fo.eq(ToFloat(a, fo), ToFloat(b, fo))
  {
    match b
    case IVal(i2) =>
      (match a
       case IVal(i1) => i1 == i2
       case BVal(b1) => b1 == (i2 != 0)
       case FVal(f1) => fo.eq(f1, fo.ofInt(i2))
       case SVal(_) => false)
    case BVal(b2) =>
      (match a
       case IVal(i1) => (i1 != 0) == b2
       case BVal(b1) => b1 == b2
       case FVal(f1) => b2 == !IsZeroFloat(f1, fo)
       case SVal(_) => false)
    case FVal(f2) =>
      (match a
       case IVal(i1) => fo.eq(fo.ofInt(i1), f2)
       case BVal(b1) => b1 == !IsZeroFloat(f2, fo)
       case FVal(f1) => fo.eq(f1, f2)
       case SVal(_) => false)
    case SVal(_) => false
  }

  function Math(m: MathFn, a: EVar, fo: FloatOps): (r: EVar)
    ensures r.FVal?
  {
    FVal(fo.math(m, ToFloat(a, fo)))
  }

  /** `i64 as i32`: keep the low 32 bits as a signed value. */
  function WrapI32(x: int): (r: int)
    ensures -0x8000_0000 <= r < 0x8000_0000
  {
    var m := x % 0x1_0000_0000;
    if m >= 0x8000_0000 then m - 0x1_0000_0000 else m
  }

  /**
   * `pow`: a float exponent gives `powf`; otherwise an exponent whose
   * integer conversion is 0 gives `IVal(1)` whatever the base; a negative
   * exponent or a float base gives `powi` (exponent cast to i32); else the
   * integer power, the exponent cast to u32 and the product wrapping.
   */
  function PowV(base: EVar, exp: EVar, fo: FloatOps): (r: EVar)
    ensures IsFloat(exp) ==> r.FVal?
    ensures !IsFloat(exp) && ToInt(exp, fo) == 0 ==> r == IVal(1)
    ensures !IsFloat(exp) && ToInt(exp, fo) != 0 ==> (r.FVal? <==> ToInt(exp, fo) < 0 || IsFloat(base))
  {
    if IsFloat(exp) then FVal(fo.powf(ToFloat(base, fo), ToFloat(exp, fo)))
    else
      var iexp := ToInt(exp, fo);
      if iexp == 0 then IVal(1)
      else if iexp < 0 || IsFloat(base) then FVal(fo.powi(ToFloat(base, fo), WrapI32(iexp)))
      else IVal(Wrap(Pow(ToInt(base, fo), iexp % 0x1_0000_0000)))
  }

  /** `max`: float if either side is, else the larger integer conversion; a tie keeps `self`. */
  function MaxV(a: EVar, b: EVar, fo: FloatOps): (r: EVar)
    ensures r.FVal? <==> IsFloat(a) || IsFloat(b)
    ensures !r.FVal? ==> r.IVal?
  {
    if IsFloat(a) || IsFloat(b) then
      var fa, fb := ToFloat(a, fo), ToFloat(b, fo);
      FVal(if fo.lt(fa, fb) then fb else fa)
    else
      var ia, ib := ToInt(a, fo), ToInt(b, fo);
      IVal(if ib > ia then ib else ia)
  }

  /** `min`: float if either side is, else the smaller integer conversion; a tie keeps `self`. */
  function MinV(a: EVar, b: EVar, fo: FloatOps): (r: EVar)
    ensures r.FVal? <==> IsFloat(a) || IsFloat(b)
    ensures !r.FVal? ==> r.IVal?
  {
    if IsFloat(a) || IsFloat(b) then
      var fa, fb := ToFloat(a, fo), ToFloat(b, fo);
      FVal(if fo.lt(fb, fa) then fb else fa)
    else
      var ia, ib := ToInt(a, fo), ToInt(b, fo);
      IVal(if ib < ia then ib else ia)
  }
}
