/** Decimal notation: digit strings, powers of ten, and Go's strconv.ParseInt with base 10
    and 64 bits. */
module Decimal {

  datatype Option<+T> = None | Some(value: T)

  const MIN_INT64: int := -0x8000_0000_0000_0000
  const MAX_INT64: int := 0x7FFF_FFFF_FFFF_FFFF

  /** The number m times the n-th power of ten. */
  function Scaled(m: nat, n: nat): nat {
    if n == 0 then m else 10 * Scaled(m, n - 1)
  }

  lemma {:induction false} ScaledTwice(m: nat, a: nat, b: nat)
    ensures Scaled(Scaled(m, a), b) == Scaled(m, a + b)
  {
    if b > 0 {
      ScaledTwice(m, a, b - 1);
    }
  }

  lemma {:induction false} ScaledSum(m: nat, k: nat, n: nat)
    ensures Scaled(m + k, n) == Scaled(m, n) + Scaled(k, n)
  {
    if n > 0 {
      ScaledSum(m, k, n - 1);
    }
  }

  lemma {:induction false} ScaledBounds(m: nat, n: nat)
    ensures m > 0 ==> Scaled(m, n) >= Scaled(1, n) > 0
    ensures Scaled(m, n) == 0 <==> m == 0
    ensures n > 0 && m > 0 ==> Scaled(m, n) > m
  {
    if n > 0 {
      ScaledBounds(m, n - 1);
    }
  }

  lemma ScaledEndsInZero(m: nat, n: nat)
    requires n > 0
    ensures Scaled(m, n) % 10 == 0
  {}

  lemma {:induction false} ScaledProduct(q: nat, m: nat, v: nat)
    ensures Scaled(q * m, v) == q * Scaled(m, v)
  {
    if v > 0 {
      ScaledProduct(q, m, v - 1);
      assert 10 * (q * Scaled(m, v - 1)) == q * (10 * Scaled(m, v - 1));
    }
  }

  lemma RemainderUnique(q: nat, x: int, y: int)
    requires 0 <= y < x
    ensures (q * x + y) % x == y
  {
    var n := q * x + y;
    var k := n / x;
    assert n == k * x + n % x;
    if k != q {
      assert (k - q) * x == y - n % x;
      assert -x < (k - q) * x < x;
      if k > q { AtLeastOnce(k - q, x); } else { AtLeastOnce(q - k, x); }
    }
  }

  lemma AtLeastOnce(k: int, x: int)
    requires k >= 1 && x >= 0
    ensures k * x >= x && (-k) * x <= -x
  {}

  /** An exact non-negative decimal number: mantissa divided by the scale-th power of ten. */
  datatype Number = Number(mantissa: nat, scale: int)

  function Excess(a: int, b: int): nat {
    if a > b then a - b else 0
  }

  /** Equality of numbers, decided on a common scale. */
  ghost predicate Same(x: Number, y: Number) {
    Scaled(x.mantissa, Excess(y.scale, x.scale)) == Scaled(y.mantissa, Excess(x.scale, y.scale))
  }

  lemma {:induction false} ScaledInjective(a: nat, b: nat, n: nat)
    ensures Scaled(a, n) == Scaled(b, n) <==> a == b
  {
    if n > 0 {
      ScaledInjective(a, b, n - 1);
    }
  }

  /** Any common scale decides equality. */
  lemma SameAt(x: Number, y: Number, s: int)
    requires s >= x.scale && s >= y.scale
    ensures Same(x, y) <==> Scaled(x.mantissa, s - x.scale) == Scaled(y.mantissa, s - y.scale)
  {
    var m := if x.scale > y.scale then x.scale else y.scale;
    ScaledTwice(x.mantissa, m - x.scale, s - m);
    ScaledTwice(y.mantissa, m - y.scale, s - m);
    ScaledInjective(Scaled(x.mantissa, m - x.scale), Scaled(y.mantissa, m - y.scale), s - m);
  }

  lemma SameTransitive(x: Number, y: Number, z: Number)
    requires Same(x, y) && Same(y, z)
    ensures Same(x, z)
  {
    var m := if x.scale > y.scale then x.scale else y.scale;
    var s := if m > z.scale then m else z.scale;
    SameAt(x, y, s);
    SameAt(y, z, s);
    SameAt(x, z, s);
  }

  lemma SameSymmetric(x: Number, y: Number)
    ensures Same(x, y) <==> Same(y, x)
  {}

  function TimesPow10(x: Number, c: int): Number {
    Number(x.mantissa, x.scale - c)
  }

  predicate Digit(c: char) {
    '0' <= c <= '9'
  }

  predicate Digits(s: string) {
    forall i :: 0 <= i < |s| ==> Digit(s[i])
  }

  /** The number a digit string denotes. */
  function Num(s: string): nat
    requires Digits(s)
  {
    if s == "" then 0 else 10 * Num(s[..|s| - 1]) + (s[|s| - 1] - '0') as int
  }

  lemma {:induction false} NumBound(s: string)
    requires Digits(s)
    ensures Num(s) < Scaled(1, |s|)
  {
    if s != "" {
      NumBound(s[..|s| - 1]);
      assert Digit(s[|s| - 1]);
    }
  }

  lemma {:induction false} NumConcat(a: string, b: string)
    requires Digits(a) && Digits(b)
    ensures Digits(a + b)
    ensures Num(a + b) == Scaled(Num(a), |b|) + Num(b)
  {
    if b == "" {
      assert a + b == a;
    } else {
      var b' := b[..|b| - 1];
      NumConcat(a, b');
      assert (a + b)[..|a + b| - 1] == a + b';
    }
  }

  function Zeros(n: nat): (s: string)
    ensures |s| == n && Digits(s) && forall i :: 0 <= i < n ==> s[i] == '0'
  {
    seq(n, i => '0')
  }

  lemma {:induction false} NumZeros(n: nat)
    ensures Num(Zeros(n)) == 0
  {
    if n > 0 {
      NumZeros(n - 1);
      assert Zeros(n)[..n - 1] == Zeros(n - 1);
    }
  }

  /** Zeros in front of a digit string do not change its number. */
  lemma NumLeadingZeros(a: nat, s: string, r: string)
    requires Digits(s) && r == Zeros(a) + s
    ensures Digits(r) && Num(r) == Num(s)
  {
    NumZeros(a);
    NumConcat(Zeros(a), s);
    ScaledBounds(0, |s|);
  }

  /** Zeros behind a digit string multiply its number. */
  lemma NumTrailingZeros(s: string, b: nat, r: string)
    requires Digits(s) && r == s + Zeros(b)
    ensures Digits(r) && Num(r) == Scaled(Num(s), b)
  {
    NumZeros(b);
    NumConcat(s, Zeros(b));
  }

  /** The decimal notation of a number, as fmt's %d prints it. */
  function Dec(n: nat): (s: string)
    ensures s != "" && Digits(s)
  {
    var d := [(n % 10) as char + '0'];
    if n < 10 then d else Dec(n / 10) + d
  }

  function SignedDec(i: int): string {
    if i < 0 then "-" + Dec(-i) else Dec(i)
  }

  lemma {:induction false} NumDec(n: nat)
    ensures Num(Dec(n)) == n
  {
    if n >= 10 {
      NumDec(n / 10);
      assert Dec(n)[..|Dec(n)| - 1] == Dec(n / 10);
    } else {
      assert Dec(n)[..0] == "";
    }
  }

  /** strconv.ParseInt(s, 10, 64). */
  function ParseInt(s: string): (r: Option<int>)
    ensures r.Some? ==> MIN_INT64 <= r.value <= MAX_INT64
  {
    if s == "" then None
    else
      var neg := s[0] == '-';
      var digits := if neg || s[0] == '+' then s[1..] else s;
      if digits == "" || !Digits(digits) then None
      else
        var n := Num(digits);
        if neg then
          if -(n as int) < MIN_INT64 then None else Some(-(n as int))
        else if n > MAX_INT64 then None else Some(n)
  }

  lemma ParseDigits(s: string)
    requires Digits(s) && s != ""
    ensures ParseInt(s) == if Num(s) > MAX_INT64 then None else Some(Num(s))
  {
    assert Digit(s[0]);
  }
}
