/**
 * Rust's `i64` as the engine uses it: the value range, two's-complement
 * wrap-around of `+`, `-`, `*` and `pow` (release-build semantics), the
 * bit-wise operators, shifts whose amount is masked to six bits, and the
 * `FromStr` / `from_str_radix` parsers that the lexer and the string
 * coercion rely on.
 */
module Int64 {
  import opened Wrappers

  const MIN: int := -0x8000_0000_0000_0000
  const MAX: int := 0x7FFF_FFFF_FFFF_FFFF
  const MODULUS: int := 0x1_0000_0000_0000_0000

  type I64 = x: int | MIN <= x <= MAX

  /** The i64 that two's-complement arithmetic leaves for the exact result `x`. */
  function Wrap(x: int): (r: I64)
    ensures (r - x) % MODULUS == 0
    ensures MIN <= x <= MAX ==> r == x
  {
    var m := x % MODULUS;
    if m > MAX then m - MODULUS else m
  }

  /** Wrapping is blind to multiples of 2^64: only the residue matters. */
  lemma {:induction false} WrapPeriodic(x: int, k: int)
    ensures Wrap(x + k * MODULUS) == Wrap(x)
  {
    assert (x + k * MODULUS) % MODULUS == x % MODULUS;
  }

  /** `!i` on an i64: the bit-wise complement, which is `-i - 1` in two's complement. */
  function Not(a: I64): (r: I64)
    ensures r < 0 <==> a >= 0
  {
    -(a as int) - 1
  }

  lemma NotInvolutive(a: I64)
    ensures Not(Not(a)) == a
  {
  }

  /** The two's-complement bit pattern of an i64, read as a number below 2^64. */
  function Unsigned(a: I64): (u: nat)
    ensures u < MODULUS
  {
    if a < 0 then a + MODULUS else a
  }

  /** The i64 whose bit pattern is `u`. */
  function Signed(u: nat): I64
    requires u < MODULUS
  {
    if u > MAX then u - MODULUS else u
  }

  datatype BitOp = And | Or | Xor

  function BitOf(op: BitOp, x: nat, y: nat): nat
    requires x < 2 && y < 2
  {
    match op
    case And => if x == 1 && y == 1 then 1 else 0
    case Or => if x == 1 || y == 1 then 1 else 0
    case Xor => if x != y then 1 else 0
  }

  function Pow(b: int, e: nat): (r: int)
    ensures b > 0 ==> r > 0
    decreases e
  {
    if e == 0 then 1 else b * Pow(b, e - 1)
  }

  /** The low `n` bits of `x` and of `y` combined position by position. */
  function Bitwise(op: BitOp, x: nat, y: nat, n: nat): (r: nat)
    ensures r < Pow(2, n)
  {
    if n == 0 then 0 else 2 * Bitwise(op, x / 2, y / 2, n - 1) + BitOf(op, x % 2, y % 2)
  }

  lemma {:induction false} PowAdd(b: int, m: nat, n: nat)
    ensures Pow(b, m + n) == Pow(b, m) * Pow(b, n)
    decreases n
  {
    if n > 0 {
      PowAdd(b, m, n - 1);
      var x, y := Pow(b, m), Pow(b, n - 1);
      assert Pow(b, m + n) == b * (x * y);
      assert b * (x * y) == x * (b * y);
    }
  }

  lemma PowTwo64()
    ensures Pow(2, 64) == MODULUS
  {
    assert Pow(2, 8) == 0x100;
    PowAdd(2, 8, 8);
    PowAdd(2, 16, 16);
    PowAdd(2, 32, 32);
  }

  /** A bit-wise operator on i64: the operation on the two 64-bit patterns. */
  function BitOn(op: BitOp, a: I64, b: I64): I64 {
    PowTwo64();
    Signed(Bitwise(op, Unsigned(a), Unsigned(b), 64))
  }

  function BitAnd(a: I64, b: I64): I64 { BitOn(And, a, b) }

  function BitOr(a: I64, b: I64): I64 { BitOn(Or, a, b) }

  function BitXor(a: I64, b: I64): I64 { BitOn(Xor, a, b) }

  /** `a << s`: the amount is taken modulo 64 and the product wraps. */
  function Shl(a: I64, s: I64): I64 {
    Wrap(a * Pow(2, s % 64))
  }

  /** `a >> s`: arithmetic shift (rounds towards minus infinity), the amount taken modulo 64. */
  function Shr(a: I64, s: I64): I64 {
    HalveN(a, s % 64)
  }

  function HalveN(a: I64, n: nat): I64
    decreases n
  {
    if n == 0 then a else HalveN(a / 2, n - 1)
  }

  /** Exclusive or with all ones flips every bit: the complement of the pattern. */
  lemma {:induction false} XorAllOnes(x: nat, n: nat)
    requires x < Pow(2, n)
    ensures Bitwise(Xor, x, Pow(2, n) - 1, n) == Pow(2, n) - 1 - x
  {
    if n > 0 {
      var p := Pow(2, n - 1);
      assert Pow(2, n) == 2 * p;
      assert (2 * p - 1) / 2 == p - 1 && (2 * p - 1) % 2 == 1;
      XorAllOnes(x / 2, n - 1);
    }
  }

  /** And-ing the complements is the complement of or-ing, bit by bit (De Morgan). */
  lemma {:induction false} AndOfComplements(x: nat, y: nat, n: nat)
    requires x < Pow(2, n) && y < Pow(2, n)
    ensures Bitwise(Or, Pow(2, n) - 1 - x, Pow(2, n) - 1 - y, n) == Pow(2, n) - 1 - Bitwise(And, x, y, n)
  {
    if n > 0 {
      var p := Pow(2, n - 1);
      assert Pow(2, n) == 2 * p;
      var x', y' := 2 * p - 1 - x, 2 * p - 1 - y;
      assert x' / 2 == p - 1 - x / 2 && x' % 2 == 1 - x % 2;
      assert y' / 2 == p - 1 - y / 2 && y' % 2 == 1 - y % 2;
      AndOfComplements(x / 2, y / 2, n - 1);
    }
  }

  /** A pattern combined with itself. */
  lemma {:induction false} SelfBitwise(x: nat, n: nat)
    requires x < Pow(2, n)
    ensures Bitwise(And, x, x, n) == x && Bitwise(Or, x, x, n) == x && Bitwise(Xor, x, x, n) == 0
  {
    if n > 0 {
      assert Pow(2, n) == 2 * Pow(2, n - 1);
      SelfBitwise(x / 2, n - 1);
    }
  }

  /** The complement's pattern is the complement of the pattern. */
  lemma UnsignedNot(a: I64)
    ensures Unsigned(Not(a)) == MODULUS - 1 - Unsigned(a)
    ensures Signed(MODULUS - 1 - Unsigned(a)) == Not(a)
  {
  }

  /** `a ^ -1 == !a`: exclusive or with all ones is the complement. */
  lemma XorMinusOneIsNot(a: I64)
    ensures BitXor(a, -1) == Not(a)
  {
    PowTwo64();
    XorAllOnes(Unsigned(a), 64);
    UnsignedNot(a);
  }

  /** `!(a & b) == !a | !b`. */
  lemma NotOfAnd(a: I64, b: I64)
    ensures Not(BitAnd(a, b)) == BitOr(Not(a), Not(b))
  {
    PowTwo64();
    var w := Bitwise(And, Unsigned(a), Unsigned(b), 64);
    AndOfComplements(Unsigned(a), Unsigned(b), 64);
    UnsignedNot(a);
    UnsignedNot(b);
    assert Signed(MODULUS - 1 - w) == Not(Signed(w));
  }

  /** `a & a == a`, `a | a == a` and `a ^ a == 0`. */
  lemma BitwiseSelf(a: I64)
    ensures BitAnd(a, a) == a && BitOr(a, a) == a && BitXor(a, a) == 0
  {
    PowTwo64();
    SelfBitwise(Unsigned(a), 64);
  }

  /** Euclidean division is determined by its quotient-remainder equation. */
  lemma DivisionUnique(a: int, d: int, q: int, r: int)
    requires d > 0 && a == d * q + r && 0 <= r < d
    ensures a / d == q && a % d == r
  {
    var q0, r0 := a / d, a % d;
    assert d * q0 + r0 == d * q + r;
    if q0 != q {
      var k := if q > q0 then q - q0 else q0 - q;
      assert d * (q - q0) == r0 - r;
      MulAtLeastOne(d, k);
    }
  }

  lemma MulAtLeastOne(d: nat, k: nat)
    requires k >= 1
    ensures d * k >= d
  {
    assert d * k == d * (k - 1) + d;
  }

  /** `a >> n` is floor division by 2^n: halving n times rounds towards minus infinity once. */
  lemma {:induction false} HalveIsFloorDivision(a: I64, n: nat)
    ensures HalveN(a, n) == a / Pow(2, n)
    decreases n
  {
    if n > 0 {
      HalveIsFloorDivision(a / 2, n - 1);
      HalveThenDivide(a, Pow(2, n - 1));
    }
  }

  lemma HalveThenDivide(a: int, p: int)
    requires p > 0
    ensures (a / 2) / p == a / (2 * p)
  {
    var q, r := a / 2, a % 2;
    var q', r' := q / p, q % p;
    assert q == p * q' + r';
    assert a == 2 * q + r;
    assert 2 * (p * q') == (2 * p) * q';
    DivisionUnique(a, 2 * p, q', 2 * r' + r);
  }

  /** A left shift that loses no bit is undone by the right shift of the same amount. */
  lemma ShlThenShr(a: I64, s: I64)
    requires 0 <= s < 64 && MIN <= a * Pow(2, s) <= MAX
    ensures Shr(Shl(a, s), s) == a
  {
    ShlExact(a, s);
    ShrOfMultiple(a, s);
  }

  lemma ShlExact(a: I64, s: I64)
    requires 0 <= s < 64 && MIN <= a * Pow(2, s) <= MAX
    ensures Shl(a, s) == a * Pow(2, s)
  {
  }

  lemma ShrOfMultiple(a: I64, s: I64)
    requires 0 <= s < 64 && MIN <= a * Pow(2, s) <= MAX
    ensures Shr(a * Pow(2, s), s) == a
  {
    var p := Pow(2, s);
    var x: I64 := a * p;
    HalveIsFloorDivision(x, s);
    DivisionUnique(x, p, a, 0);
  }

  /** Wrapping an intermediate product does not change the wrapped result. */
  lemma WrapMul(x: int, y: int)
    ensures Wrap(Wrap(x) * y) == Wrap(x * y)
  {
    var w := Wrap(x);
    var k := (w - x) / MODULUS;
    assert w - x == k * MODULUS;
    assert w * y == x * y + (k * y) * MODULUS;
    WrapPeriodic(x * y, k * y);
  }

  /**
   * `i64::pow` multiplies with wrap-around step by step; the result is the
   * exact power wrapped once.
   */
  lemma {:induction false} PowWrapsStepwise(b: int, e: nat)
    ensures Wrap(b * Wrap(Pow(b, e))) == Wrap(Pow(b, e + 1))
  {
    WrapMul(Pow(b, e), b);
    assert Wrap(Pow(b, e)) * b == b * Wrap(Pow(b, e));
    assert Pow(b, e) * b == Pow(b, e + 1);
  }

  predicate IsDigit(c: char) { '0' <= c <= '9' }

  predicate AllDigits(s: string) {
    forall k :: 0 <= k < |s| ==> IsDigit(s[k])
  }

  function DigitValue(c: char): nat
    requires IsDigit(c)
  {
    c as int - '0' as int
  }

  /** The value of a run of decimal digits, most significant first. */
  function DecimalValue(s: string): nat
    requires AllDigits(s)
  {
    if s == [] then 0 else 10 * DecimalValue(s[..|s| - 1]) + DigitValue(s[|s| - 1])
  }

  /** Decimal rendering of a natural number; the partner of DecimalValue. */
  function DecimalDigits(n: nat): (s: string)
    ensures |s| >= 1 && AllDigits(s)
  {
    var d := ['0' + (n % 10) as char];
    if n < 10 then d else DecimalDigits(n / 10) + d
  }

  lemma {:induction false} DecimalRoundTrip(n: nat)
    ensures DecimalValue(DecimalDigits(n)) == n
  {
    var s := DecimalDigits(n);
    if n >= 10 {
      DecimalRoundTrip(n / 10);
      assert s[..|s| - 1] == DecimalDigits(n / 10);
    }
  }

  predicate IsHexDigit(c: char) {
    IsDigit(c) || 'a' <= c <= 'f' || 'A' <= c <= 'F'
  }

  predicate AllHexDigits(s: string) {
    forall k :: 0 <= k < |s| ==> IsHexDigit(s[k])
  }

  function HexDigitValue(c: char): (v: nat)
    requires IsHexDigit(c)
    ensures v < 16
  {
    if IsDigit(c) then DigitValue(c)
    else if 'a' <= c <= 'f' then c as int - 'a' as int + 10
    else c as int - 'A' as int + 10
  }

  /** The value of a run of hexadecimal digits, most significant first. */
  function HexValue(s: string): nat
    requires AllHexDigits(s)
  {
    if s == [] then 0 else 16 * HexValue(s[..|s| - 1]) + HexDigitValue(s[|s| - 1])
  }

  /**
   * Rust's `str::parse::<i64>`: an optional `+` or `-`, then at least one
   * decimal digit and nothing else, and the value must fit in an i64.
   */
  function ParseI64(s: string): (r: Option<I64>)
    ensures r.Some? ==> |s| >= 1
    ensures AllDigits(s) && |s| >= 1 && DecimalValue(s) <= MAX ==> r == Some(DecimalValue(s))
    ensures AllDigits(s) && r.Some? ==> r.value == DecimalValue(s)
  {
    ParseRadix(s, 10)
  }

  /** `i64::from_str_radix(s, 16)`: the same rules with hexadecimal digits. */
  function ParseHexI64(s: string): (r: Option<I64>)
    ensures r.Some? ==> |s| >= 1
    ensures AllHexDigits(s) && |s| >= 1 && HexValue(s) <= MAX ==> r == Some(HexValue(s))
    ensures AllHexDigits(s) && r.Some? ==> r.value == HexValue(s)
  {
    ParseRadix(s, 16)
  }

  predicate RadixDigits(s: string, radix: nat) {
    if radix == 16 then AllHexDigits(s) else AllDigits(s)
  }

  function RadixValue(s: string, radix: nat): nat
    requires RadixDigits(s, radix)
  {
    if radix == 16 then HexValue(s) else DecimalValue(s)
  }

  function ParseRadix(s: string, radix: nat): Option<I64> {
    var neg := |s| >= 1 && s[0] == '-';
    var body := if |s| >= 1 && (s[0] == '-' || s[0] == '+') then s[1..] else s;
    if |body| == 0 || !RadixDigits(body, radix) then None
    else
      var v: int := RadixValue(body, radix);
      if neg then (if -v >= MIN then Some(-v) else None)
      else (if v <= MAX then Some(v) else None)
  }

  /** Parsing inverts rendering: a rendered i64, with its sign, parses back to itself. */
  lemma ParseRendered(n: I64)
    ensures ParseI64(if n < 0 then "-" + DecimalDigits(-(n as int)) else DecimalDigits(n)) == Some(n)
  {
    if n < 0 {
      DecimalRoundTrip(-(n as int));
      var s := "-" + DecimalDigits(-(n as int));
      assert s[1..] == DecimalDigits(-(n as int));
    } else {
      DecimalRoundTrip(n);
    }
  }

  /** A string that is not a signed digit run never parses. */
  lemma ParseRejectsNonDigit(s: string, k: nat)
    requires 0 < k < |s| && !IsDigit(s[k])
    ensures ParseI64(s) == None
  {
    var body := if s[0] == '-' || s[0] == '+' then s[1..] else s;
    if s[0] == '-' || s[0] == '+' {
      assert body[k - 1] == s[k];
    } else {
      assert body[k] == s[k];
    }
  }
}
