/** Decimal literals with a sign that the parser does not take off: a plus, which it leaves in front of the
    digits it shifts, and a second minus. */
module PluralSigns {
  import opened Decimal
  import opened PluralOperands
  import opened PluralLiterals
  import opened Strings

  lemma PlusDigits(x: string)
    requires Digits(x)
    ensures ParseInt("+" + x) == ParseInt(x)
  {
    ParsedDigitsExactly(x);
    if x == "" {
      NoText("+");
    } else {
      SignedDigits('+', x);
    }
  }

  /** A plus before the digits in front of the point is read over. */
  lemma PlusWhole(x: string, fraction: Option<string>, c: int)
    requires Digits(x)
    ensures OperandsOfParts(Parts("+" + x, fraction), c) == OperandsOfParts(Parts(x, fraction), c)
  {
    PlusDigits(x);
  }

  predicate AllZero(x: string) {
    forall k :: 0 <= k < |x| ==> x[k] == '0'
  }

  lemma {:induction false} LengthBehind(a: char, x: string)
    ensures SignificantLength([a] + x) ==
      if !AllZero(x) then 1 + SignificantLength(x) else if a != '0' then 1 else 0
    ensures !AllZero(x) ==> SignificantLength(x) > 0
  {
    var s := [a] + x;
    if x == "" {
      assert s == [a] && s[..0] == "";
    } else {
      var front := x[..|x| - 1];
      assert s[|s| - 1] == x[|x| - 1] && s[..|s| - 1] == [a] + front;
      LengthBehind(a, front);
      if x[|x| - 1] == '0' {
        Back(x);
        assert AllZero(x) <==> AllZero(front) by { assert forall k :: 0 <= k < |front| ==> front[k] == x[k]; }
      }
    }
  }

  /** What reading a fraction yields: its significant length, its number and the number without zeros. */
  lemma FractionRead(a: char, x: string)
    requires a in {'+', '0'} && Digits(x) && !AllZero(x)
    ensures var s, w := [a] + x, 1 + SignificantLength(x);
      && SignificantLength(s) == w && 1 < w <= |s|
      && ParseInt(s) == ParseInt(x) && ParseInt(s[..w]) == ParseInt(x[..w - 1])
  {
    var w := 1 + SignificantLength(x);
    LengthBehind(a, x);
    assert ([a] + x)[..w] == [a] + x[..w - 1];
    FirstIgnored(a, x);
    FirstIgnored(a, x[..w - 1]);
  }

  lemma FirstIgnored(a: char, x: string)
    requires a in {'+', '0'} && Digits(x) && x != ""
    ensures ParseInt([a] + x) == ParseInt(x)
  {
    ParsedDigitsExactly(x);
    if a == '+' {
      SignedDigits('+', x);
    } else {
      assert "0" == Zeros(1) by { assert Zeros(0) == ""; }
      NumLeadingZeros(1, x, "0" + x);
      ParsedDigitsExactly("0" + x);
    }
  }

  /** Fractions that are read alike. */
  lemma SameFraction(whole: string, s: string, r: string, c: int)
    requires |s| == |r| && s != "" && SignificantLength(s) == SignificantLength(r) && ParseInt(s) == ParseInt(r)
    requires ParseInt(s[..SignificantLength(s)]) == ParseInt(r[..SignificantLength(r)])
    ensures OperandsOfParts(Parts(whole, Some(s)), c) == OperandsOfParts(Parts(whole, Some(r)), c)
  {}

  lemma UnreadFraction(whole: string, s: string, c: int)
    requires s != "" && SignificantLength(s) > 0 && ParseInt(s[..SignificantLength(s)]).None?
    ensures OperandsOfParts(Parts(whole, Some(s)), c) == None
  {}

  lemma PlusFraction(x: string, c: int)
    requires Digits(x)
    ensures OperandsOfParts(Parts("0", Some("+" + x)), c) ==
      if AllZero(x) then None else OperandsOfParts(Parts("0", Some("0" + x)), c)
  {
    if AllZero(x) {
      LengthBehind('+', x);
      assert ("+" + x)[..1] == "+" && ParseInt("+").None?;
      UnreadFraction("0", "+" + x, c);
    } else {
      FractionRead('+', x);
      FractionRead('0', x);
      SameFraction("0", "+" + x, "0" + x, c);
    }
  }

  /** A plus behind a zero cannot be read. */
  lemma PlusInside(n: nat, x: string, c: int)
    requires n > 0
    ensures OperandsOfParts(Parts("0", Some(Zeros(n) + "+" + x)), c) == None
  {
    var f := Zeros(n) + "+" + x;
    assert f[0] == Zeros(n)[0] == '0' && f[n] == '+';
    assert !Digits(f) by { assert !Digit(f[n]); }
  }

  /** The shifts that leave a literal with a plus readable: to the right or not at all; by fewer digits than
      stand before the point; or by one more, so that the plus comes to stand behind the point, before digits
      that are not all zero. */
  predicate PlusKept(w: string, f: string, c: int) {
    c >= 0 || -c < |w| || (-c == |w| + 1 && !AllZero(w + f))
  }

  lemma PlusCut(w: string, f: string, n: int) returns (front: string, back: string)
    requires 0 < n <= |w|
    ensures front == w[..|w| - n] && back == w[|w| - n..] + f
    ensures LeftParts("+" + w, f, n) == Parts("+" + front, Some(back))
    ensures if n < |w| then LeftParts(w, f, n) == Parts(front, Some(back)) else front == ""
  {
    var s, k := "+" + w, |w| - n;
    front, back := w[..k], w[k..] + f;
    assert s[..|s| - n] == "+" + front && s[|s| - n..] == w[k..];
  }

  lemma NoDigits(fraction: Option<string>, c: int)
    ensures OperandsOfParts(Parts("", fraction), c) == None
  {}

  lemma PlusBeforePoint(w: string, f: string, n: int, c: int)
    requires Digits(w) && 0 < n <= |w|
    ensures OperandsOfParts(LeftParts("+" + w, f, n), c) ==
      if n < |w| then OperandsOfParts(LeftParts(w, f, n), c) else None
  {
    var front, back := PlusCut(w, f, n);
    PlusWhole(front, Some(back), c);
    NoDigits(Some(back), c);
  }

  lemma PlusBehindPoint(w: string, f: string, c: int)
    requires Digits(w) && Digits(f)
    ensures OperandsOfParts(LeftParts("+" + w, f, |w| + 1), c) ==
      if AllZero(w + f) then None else OperandsOfParts(LeftParts(w, f, |w| + 1), c)
  {
    assert Zeros(0) + ("+" + w) + f == "+" + (w + f);
    assert Zeros(1) == "0" + Zeros(0);
    assert Zeros(1) + w + f == "0" + (w + f);
    PlusFraction(w + f, c);
  }

  lemma PlusBehindZeros(z: string, w: string, f: string) returns (t: string)
    ensures t == z + "+" + (w + f) == z + ("+" + w) + f
  {
    t := z + "+" + (w + f);
    Assoc(z + "+", w, f);
    Assoc(z, "+", w);
  }

  lemma PlusFarBehindPoint(w: string, f: string, n: int, c: int)
    requires n > |w| + 1
    ensures OperandsOfParts(LeftParts("+" + w, f, n), c) == None
  {
    var k := n - |w| - 1;
    var t := PlusBehindZeros(Zeros(k), w, f);
    PlusInside(k, w + f, c);
  }

  lemma PlusShiftedLeft(w: string, f: string, n: int, c: int, a: Parts, b: Parts)
    requires Digits(w) && Digits(f) && n > 0 && a == LeftParts("+" + w, f, n) && b == LeftParts(w, f, n)
    ensures OperandsOfParts(a, c) == if PlusKept(w, f, -n) then OperandsOfParts(b, c) else None
  {
    if n <= |w| {
      PlusBeforePoint(w, f, n, c);
    } else if n == |w| + 1 {
      PlusBehindPoint(w, f, c);
    } else {
      PlusFarBehindPoint(w, f, n, c);
    }
  }

  lemma PlusShiftedRight(w: string, f: string, n: int, c: int)
    requires Digits(w) && Digits(f) && n > 0
    ensures OperandsOfParts(RightParts("+" + w, f, n), c) == OperandsOfParts(RightParts(w, f, n), c)
  {
    if n >= |f| {
      var z := Zeros(n - |f|);
      assert ("+" + w) + f + z == "+" + (w + f + z);
      PlusWhole(w + f + z, None, c);
    } else {
      assert ("+" + w) + f[..n] == "+" + (w + f[..n]);
      PlusWhole(w + f[..n], Some(f[n..]), c);
    }
  }

  lemma PlusAppliedRight(p: Parts, q: Parts, n: int, c: int)
    requires DigitParts(p) && n > 0 && q == Parts("+" + p.whole, p.fraction)
    ensures OperandsOfParts(AppliedParts(q, n), c) == OperandsOfParts(AppliedParts(p, n), c)
  {
    PlusShiftedRight(p.whole, FractionOf(p), n, c);
  }

  lemma AppliedIsLeft(p: Parts, n: int, w: string, f: string, t: Parts)
    requires n < 0 && w == p.whole && f == FractionOf(p) && t == AppliedParts(p, n)
    ensures t == LeftParts(w, f, -n)
  {}

  lemma PlusAppliedLeft(p: Parts, q: Parts, n: int, c: int, a: Parts, b: Parts)
    requires DigitParts(p) && n < 0 && q == Parts("+" + p.whole, p.fraction)
    requires a == AppliedParts(q, n) && b == AppliedParts(p, n)
    ensures OperandsOfParts(a, c) == if PlusKept(p.whole, FractionOf(p), n) then OperandsOfParts(b, c) else None
  {
    var w, f := p.whole, FractionOf(p);
    AppliedIsLeft(p, n, w, f, b);
    AppliedIsLeft(q, n, "+" + w, f, a);
    PlusShiftedLeft(w, f, -n, c, a, b);
  }

  lemma PlusApplied(p: Parts, n: int, c: int)
    requires DigitParts(p)
    ensures OperandsOfParts(AppliedParts(Parts("+" + p.whole, p.fraction), n), c) ==
      if PlusKept(p.whole, FractionOf(p), n) then OperandsOfParts(AppliedParts(p, n), c) else None
  {
    if n > 0 {
      PlusAppliedRight(p, Parts("+" + p.whole, p.fraction), n, c);
    } else if n < 0 {
      var q := Parts("+" + p.whole, p.fraction);
      PlusAppliedLeft(p, q, n, c, AppliedParts(q, n), AppliedParts(p, n));
    } else {
      PlusWhole(p.whole, p.fraction, c);
    }
  }

  // ---------- On the text ----------

  /** The parts of a significand with a plus, shifted. */
  lemma PlusSplit(l: Written, s: string)
    requires WellWritten(l) && s == "+" + Significand(l)
    ensures SplitDot(s) == Parts("+" + l.whole, l.fraction)
  {
    if l.fraction.Some? {
      Assoc("+" + l.whole, ".", l.fraction.value);
      Assoc("+", l.whole, "." + l.fraction.value);
      JoinDot("+" + l.whole, l.fraction.value);
    } else {
      NoText(l.whole);
      NoDot("+" + l.whole);
    }
  }

  lemma PlusExponent(l: Written)
    requires WellWritten(l)
    ensures var u := "+" + Unsigned(l);
      && SignificandOf(u) == "+" + Significand(l)
      && ExponentOf(u) == if MIN_INT64 <= ExponentValue(l) <= MAX_INT64 then Some(ExponentValue(l)) else None
  {
    SignificandChars(l);
    Assoc("+", Significand(l), ExponentText(l));
    SplitsBefore("+" + Significand(l), l, "+" + Unsigned(l));
  }

  lemma PlusRead(l: Written, floatOk: string -> bool)
    requires WellWritten(l) && floatOk("+" + Unsigned(l)) && MIN_INT64 <= ExponentValue(l) <= MAX_INT64
    ensures OperandsOfString("+" + Unsigned(l), floatOk) ==
      OperandsOfParts(AppliedParts(Parts("+" + l.whole, l.fraction), Shift(l)), ExponentValue(l))
  {
    var u, s := "+" + Unsigned(l), "+" + Significand(l);
    assert u[0] == '+' && WithoutSign(u) == u;
    PlusExponent(l);
    PlusSplit(l, s);
    ApplyShift(s, ExponentValue(l));
  }

  /** A literal with a plus has the operands of the same literal without it, if the float parser accepts
      it and the plus is not shifted into its digits; otherwise it is refused. */
  lemma PlusExact(l: Written, floatOk: string -> bool)
    requires WellWritten(l) && !l.negative && Unsigned(l) != ""
    ensures OperandsOfString("+" + Unsigned(l), floatOk) ==
      if floatOk("+" + Unsigned(l)) && PlusKept(l.whole, FractionText(l), Shift(l))
      then OperandsOfString(Unsigned(l), s => true) else None
  {
    var u := "+" + Unsigned(l);
    var p := Parts(l.whole, l.fraction);
    NoText(Unsigned(l));
    assert Text(l) == Unsigned(l) && FractionOf(p) == FractionText(l);
    assert u[0] == '+' && WithoutSign(u) == u;
    PlusExponent(l);
    if floatOk(u) && MIN_INT64 <= ExponentValue(l) <= MAX_INT64 {
      PlusRead(l, floatOk);
      ReadParts(l, s => true);
      PlusApplied(p, Shift(l), ExponentValue(l));
    } else if floatOk(u) {
      OutOfRange(l, s => true);
    }
  }

  /** With one digit before the point and the exponent -1 a literal is read without a plus alone, as one
      tenth of the digit: +1e-1 is refused. */
  lemma OneTenth(digit: char, floatOk: string -> bool)
    requires Digit(digit)
    ensures OperandsOfString("+" + [digit] + "e-1", floatOk) == None
    ensures floatOk([digit] + "e-1") ==> OperandsOfString([digit] + "e-1", floatOk).Some?
  {
    var l := Written(false, [digit], None, Some(Exponent('e', "-", "1")));
    OneTenthText(l, digit);
    OneTenthReadable(l, digit);
    PlusExact(l, floatOk);
    NoText(Unsigned(l));
    LiteralOperands(l, floatOk);
  }

  lemma OneTenthText(l: Written, digit: char)
    requires l == Written(false, [digit], None, Some(Exponent('e', "-", "1")))
    ensures Unsigned(l) == [digit] + "e-1" && "+" + Unsigned(l) == "+" + [digit] + "e-1"
  {
    assert Significand(l) == [digit] && ExponentText(l) == "e-1";
  }

  lemma OneTenthReadable(l: Written, digit: char)
    requires Digit(digit) && l == Written(false, [digit], None, Some(Exponent('e', "-", "1")))
    ensures WellWritten(l) && Shift(l) == -1 && Readable(l)
  {
    assert Num("1") == 1 by { assert "1"[..0] == ""; }
    assert [digit] + "" == [digit];
    NumBound([digit]);
    assert Scaled(1, 1) == 10;
  }

  /** Of two minus signs one is taken off, and the other makes the integer operand negative. */
  lemma SecondMinus(digits: string, floatOk: string -> bool)
    requires Digits(digits) && digits != "" && Num(digits) <= MAX_INT64 && floatOk("-" + digits)
    ensures OperandsOfString("--" + digits, floatOk) == Some(Operands(-(Num(digits) as int), 0, 0, 0, 0, 0))
  {
    var u := "-" + digits;
    assert ("--" + digits)[0] == '-' && ("--" + digits)[1..] == u;
    NoMark(u);
    NoDot(u);
    SignedDigits('-', digits);
  }
}
