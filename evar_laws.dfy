/**
 * Laws of the value type: how its operations relate to each other and to
 * the integer model they coerce into.
 */
module VariantLaws {
  import opened Wrappers
  import opened Int64
  import opened Variant

  /** Wrapping subtraction is undone by wrapping addition, whatever overflowed in between. */
  lemma {:induction false} AddUndoesSub(a: EVar, b: EVar, fo: FloatOps)
    requires !IsFloat(a) && !IsFloat(b)
    ensures Add(Sub(a, b, fo), b, fo) == IVal(ToInt(a, fo))
  {
    var x, y := ToInt(a, fo), ToInt(b, fo);
    var w := Wrap(x - y);
    assert Sub(a, b, fo) == IVal(w);
    var k := (w - (x - y)) / MODULUS;
    assert w - (x - y) == k * MODULUS;
    WrapPeriodic(x, k);
    assert w + y == x + k * MODULUS;
  }

  /** Away from floats, `*` commutes (its wrap-around included). */
  lemma MulCommutes(a: EVar, b: EVar, fo: FloatOps)
    requires !IsFloat(a) && !IsFloat(b)
    ensures Mul(a, b, fo) == Mul(b, a, fo)
  {
    var x, y := ToInt(a, fo), ToInt(b, fo);
    MulOfIntegers(a, b, fo);
    MulOfIntegers(b, a, fo);
    ProductCommutes(x, y);
  }

  /** Away from floats, 1 is the unit of `*`: the product is the integer conversion, which the wrap-around leaves alone. */
  lemma MulByOne(a: EVar, fo: FloatOps)
    requires !IsFloat(a)
    ensures Mul(a, IVal(1), fo) == IVal(ToInt(a, fo))
  {
    MulOfIntegers(a, IVal(1), fo);
    assert ToInt(a, fo) * 1 == ToInt(a, fo);
  }

  lemma MulOfIntegers(a: EVar, b: EVar, fo: FloatOps)
    requires !IsFloat(a) && !IsFloat(b)
    ensures Mul(a, b, fo) == IVal(Wrap(ToInt(a, fo) * ToInt(b, fo)))
  {
  }

  lemma ProductCommutes(x: int, y: int)
    ensures x * y == y * x
  {
  }

  /**
   * Integer division truncates towards zero: on non-negative operands it is
   * floor division, and negating the dividend or the divisor negates the
   * quotient (where Dafny's own `/` would round down instead).
   */
  lemma TruncDivTowardsZero(x: I64, y: I64)
    requires 0 <= x && 0 < y
    ensures TruncDiv(x, y) == x / y
    ensures TruncDiv(-x, y) == -(x / y)
    ensures TruncDiv(x, -y) == -(x / y)
    ensures TruncDiv(-x, -y) == x / y
  {
    NatDivision(x, y);
  }

  /** The strict and non-strict orderings are mirror images of each other, on every pair of values. */
  lemma OrderingsMirror(a: EVar, b: EVar, fo: FloatOps)
    ensures EvSup(a, b, fo) == EvInf(b, a, fo)
    ensures EvSupEq(a, b, fo) == EvInfEq(b, a, fo)
    ensures !IsFloat(a) && !IsFloat(b) ==>
      EvInf(a, b, fo) == !EvSupEq(a, b, fo) &&
      EvEq(a, b, fo) == (EvInfEq(a, b, fo) && EvSupEq(a, b, fo))
  {
  }

  /** `==` is symmetric on every pair of non-string values (given IEEE's symmetric float equality). */
  lemma EqualSymmetric(a: EVar, b: EVar, fo: FloatOps)
    requires Sane(fo)
    requires !a.SVal? && !b.SVal?
    ensures Equal(a, b, fo) == Equal(b, a, fo)
  {
    match (a, b)
    case (FVal(f1), FVal(f2)) => assert fo.eq(f1, f2) == fo.eq(f2, f1);
    case (FVal(f1), IVal(i2)) => assert fo.eq(f1, fo.ofInt(i2)) == fo.eq(fo.ofInt(i2), f1);
    case (IVal(i1), FVal(f2)) => assert fo.eq(fo.ofInt(i1), f2) == fo.eq(f2, fo.ofInt(i1));
    case _ =>
  }

  /** Away from floats, `==` is integer equality between integers and truthiness otherwise. */
  lemma EqualOnIntsAndBools(a: EVar, b: EVar, fo: FloatOps)
    requires (a.IVal? || a.BVal?) && (b.IVal? || b.BVal?)
    ensures a.IVal? && b.IVal? ==> Equal(a, b, fo) == (a.i == b.i)
    ensures a.BVal? || b.BVal? ==> Equal(a, b, fo) == (ToBool(a, fo) == ToBool(b, fo))
  {
  }

  /** A string that renders an integer converts back to it. */
  lemma ToIntOfRendered(n: I64, fo: FloatOps)
    ensures ToInt(SVal(if n < 0 then "-" + DecimalDigits(-(n as int)) else DecimalDigits(n)), fo) == n
  {
    ParseRendered(n);
  }

  /** The ordering comparisons parse strings, `==` never matches one: "5" vs 5 differs between them. */
  lemma StringEqualityDiffers(fo: FloatOps)
    ensures EvEq(SVal("5"), IVal(5), fo)
    ensures !Equal(SVal("5"), IVal(5), fo)
  {
    assert DecimalDigits(5) == "5";
    ToIntOfRendered(5, fo);
  }

  /**
   * A positive integer exponent on a non-float base is the wrapped integer
   * power of the exponent cast `as u32`, that is, taken modulo 2^32; below
   * 2^32 that is the exponent itself.
   */
  lemma PowIntegral(base: EVar, e: I64, fo: FloatOps)
    requires !IsFloat(base)
    requires 0 < e
    ensures PowV(base, IVal(e), fo) == IVal(Wrap(Pow(ToInt(base, fo), e % 0x1_0000_0000)))
    ensures e < 0x1_0000_0000 ==> PowV(base, IVal(e), fo) == IVal(Wrap(Pow(ToInt(base, fo), e)))
  {
    assert e < 0x1_0000_0000 ==> e % 0x1_0000_0000 == e;
  }

  /** A `true` exponent gives the base's integer conversion, not the base itself: `pow(true, true)` is `IVal(1)`. */
  lemma PowTrueExponent(base: EVar, fo: FloatOps)
    requires !IsFloat(base)
    ensures PowV(base, BVal(true), fo) == IVal(ToInt(base, fo))
  {
    assert Pow(ToInt(base, fo), 1) == ToInt(base, fo);
  }

  /** Away from floats, max and min pick the larger and smaller integer conversion, in either order. */
  lemma MaxMinIntegers(a: EVar, b: EVar, fo: FloatOps)
    requires !IsFloat(a) && !IsFloat(b)
    ensures MaxV(a, b, fo) == MaxV(b, a, fo) && MinV(a, b, fo) == MinV(b, a, fo)
    ensures MaxV(a, b, fo).i >= ToInt(a, fo) && MaxV(a, b, fo).i >= ToInt(b, fo)
    ensures MinV(a, b, fo).i <= ToInt(a, fo) && MinV(a, b, fo).i <= ToInt(b, fo)
    ensures MaxV(a, b, fo).i == ToInt(a, fo) || MaxV(a, b, fo).i == ToInt(b, fo)
    ensures MinV(a, b, fo).i == ToInt(a, fo) || MinV(a, b, fo).i == ToInt(b, fo)
  {
  }

  /** On floats, a tie (neither side less than the other) keeps `self`. */
  lemma FloatTieKeepsSelf(a: EVar, b: EVar, fo: FloatOps)
    requires IsFloat(a) || IsFloat(b)
    requires !fo.lt(ToFloat(a, fo), ToFloat(b, fo)) && !fo.lt(ToFloat(b, fo), ToFloat(a, fo))
    ensures MaxV(a, b, fo) == FVal(ToFloat(a, fo)) && MinV(a, b, fo) == FVal(ToFloat(a, fo))
  {
  }
}
