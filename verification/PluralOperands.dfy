/** The plural operands of a number: splitting a decimal literal, shifting its decimal point on
    the string, and reading the digits. UTS #35 Part 3, section 5.1.1. */
module PluralOperands {
  import opened Decimal
  import opened Strings

  /** The operands i, v, w, f, t and c. */
  datatype Operands = Operands(I: int, V: int, W: int, F: int, T: int, C: int)

  /** The first position from `i` on in `s` of the character `a` or `b`, or -1. */
  function IndexFrom(s: string, a: char, b: char, i: nat): (r: int)
    requires i <= |s|
    ensures r == -1 || i <= r < |s|
    decreases |s| - i
  {
    if i == |s| then -1
    else if s[i] == a || s[i] == b then i
    else IndexFrom(s, a, b, i + 1)
  }

  lemma {:induction false} IndexFirst(s: string, a: char, b: char, i: nat)
    requires i <= |s|
    ensures var r := IndexFrom(s, a, b, i);
      && (r >= 0 ==> s[r] == a || s[r] == b)
      && forall k :: i <= k < (if r < 0 then |s| else r) ==> s[k] != a && s[k] != b
    decreases |s| - i
  {
    if i < |s| && s[i] != a && s[i] != b {
      IndexFirst(s, a, b, i + 1);
    }
  }

  function IndexDot(s: string): (r: int)
    ensures -1 <= r < |s|
  {
    IndexFrom(s, '.', '.', 0)
  }

  function SplitSignificandExponent(s: string): (string, string) {
    var i := IndexFrom(s, 'e', 'E', 0);
    if i < 0 then (s, "") else (s[..i], s[i + 1..])
  }

  function ShiftDecimalLeft(s: string, n: int): string {
    if n <= 0 then s
    else
      var dot := IndexDot(s);
      var i := if dot < 0 then |s| else dot;
      var tilt := if dot < 0 then -1 else 0;
      if n == i then "0." + s[..i] + s[i + 1 + tilt..]
      else if n > i then "0." + Zeros(n - i) + s[..i] + s[i + 1 + tilt..]
      else s[..i - n] + "." + s[i - n..i] + s[i + 1 + tilt..]
  }

  function ShiftDecimalRight(s: string, n: int): string {
    if n <= 0 then s
    else
      var i := IndexDot(s);
      if i < 0 then s + Zeros(n)
      else
        var rest := |s| - i - 1;
        if n == rest then s[..i] + s[i + 1..]
        else if n > rest then s[..i] + s[i + 1..] + Zeros(n - rest)
        else s[..i] + s[i + 1..i + 1 + n] + "." + s[i + 1 + n..]
  }

  /** Negation of a 64-bit integer: the least one is its own negation. */
  function Neg64(i: int): int {
    if i == MIN_INT64 then i else -i
  }

  function ApplyExponent(s: string, exponent: int): string {
    if exponent > 0 then ShiftDecimalRight(s, exponent)
    else if exponent < 0 then ShiftDecimalLeft(s, Neg64(exponent))
    else s
  }

  /** The length of a fraction without its trailing zeros. */
  function SignificantLength(fraction: string): (w: nat)
    ensures w <= |fraction|
    ensures w > 0 ==> fraction[w - 1] != '0'
    ensures forall k :: w <= k < |fraction| ==> fraction[k] == '0'
  {
    if fraction == "" then 0
    else if fraction[|fraction| - 1] != '0' then |fraction|
    else SignificantLength(fraction[..|fraction| - 1])
  }

  /** strings.SplitN(value, ".", 2). */
  function SplitDot(value: string): Parts {
    var i := IndexDot(value);
    if i < 0 then Parts(value, None) else Parts(value[..i], Some(value[i + 1..]))
  }

  datatype Parts = Parts(whole: string, fraction: Option<string>)

  function WithoutSign(s: string): string {
    if s != "" && s[0] == '-' then s[1..] else s
  }

  /** The exponent a literal carries: none reads as zero, an unreadable one is an error. */
  function ExponentOf(s: string): Option<int> {
    var e := SplitSignificandExponent(s).1;
    if e == "" then Some(0) else ParseInt(e)
  }

  function SignificandOf(s: string): string {
    SplitSignificandExponent(s).0
  }

  /** The operands of an unsigned value, given its digits around the decimal point. */
  function OperandsOfParts(parts: Parts, c: int): Option<Operands> {
    var i := ParseInt(parts.whole);
    if i.None? then None
    else if parts.fraction.None? then Some(Operands(i.value, 0, 0, 0, 0, c))
    else
      var fraction := parts.fraction.value;
      var w := SignificantLength(fraction);
      var f := if fraction != "" then ParseInt(fraction) else Some(0);
      var t := if w > 0 then ParseInt(fraction[..w]) else Some(0);
      if f.None? || t.None? then None
      else Some(Operands(i.value, |fraction|, w, f.value, t.value, c))
  }

  /** What parsing the string `s` yields; `floatOk` is strconv.ParseFloat's verdict. */
  function OperandsOfString(s: string, floatOk: string -> bool): Option<Operands>
    requires s != ""
  {
    OperandsOfUnsigned(WithoutSign(s), floatOk)
  }

  function OperandsOfUnsigned(u: string, floatOk: string -> bool): Option<Operands> {
    if !floatOk(u) then None
    else
      var c := ExponentOf(u);
      if c.None? then None
      else OperandsOfParts(SplitDot(ApplyExponent(SignificandOf(u), c.value)), c.value)
  }

  /** The loop that looks for the last non-zero digit of a fraction. */
  method LastSignificant(fraction: string) returns (w: nat)
    ensures w == SignificantLength(fraction)
  {
    w := 0;
    assert fraction[..|fraction|] == fraction;
    var i := |fraction| - 1;
    while i >= 0
      invariant -1 <= i < |fraction|
      invariant w == 0
      invariant SignificantLength(fraction) == SignificantLength(fraction[..i + 1])
    {
      if fraction[i] != '0' {
        w := i + 1;
        break;
      }
      assert fraction[..i + 1][..i] == fraction[..i];
      i := i - 1;
    }
  }

  method NewOperandsString(text: string, floatOk: string -> bool) returns (r: Option<Operands>)
    requires text != ""
    ensures r == OperandsOfString(text, floatOk)
  {
    var s := text;
    if s[0] == '-' {
      s := s[1..];
    }
    r := ReadUnsigned(s, floatOk);
  }

  /** The parse after the sign. */
  method ReadUnsigned(s: string, floatOk: string -> bool) returns (r: Option<Operands>)
    ensures r == OperandsOfUnsigned(s, floatOk)
  {
    var ops := Operands(0, 0, 0, 0, 0, 0);
    if !floatOk(s) {
      return None;
    }
    var (significand, exponent) := SplitSignificandExponent(s);
    if exponent != "" {
      var c := ParseInt(exponent);
      if c.None? {
        return None;
      }
      ops := ops.(C := c.value);
    }
    var parts := SplitDot(ApplyExponent(significand, ops.C));
    r := ReadDigits(parts, ops);
  }

  /** The second half of the parse: the digits on either side of the decimal point. */
  method ReadDigits(parts: Parts, initial: Operands) returns (r: Option<Operands>)
    requires initial == Operands(0, 0, 0, 0, 0, initial.C)
    ensures r == OperandsOfParts(parts, initial.C)
  {
    var ops := initial;
    var whole := ParseInt(parts.whole);
    if whole.None? {
      return None;
    }
    ops := ops.(I := whole.value);
    if parts.fraction.None? {
      return Some(ops);
    }
    var fraction := parts.fraction.value;
    var w := LastSignificant(fraction);
    ops := ops.(V := |fraction|, W := w);
    if ops.V > 0 {
      var f := ParseInt(fraction);
      if f.None? {
        return None;
      }
      ops := ops.(F := f.value);
    }
    if ops.W > 0 {
      var t := ParseInt(fraction[..ops.W]);
      if t.None? {
        return None;
      }
      ops := ops.(T := t.value);
    }
    return Some(ops);
  }

  /** The operands of an int64; the least one keeps its sign. */
  function OperandsOfInt(i: int): Operands
    requires MIN_INT64 <= i <= MAX_INT64
  {
    Operands(if i < 0 then Neg64(i) else i, 0, 0, 0, 0, 0)
  }

  // ---------- Exact values ----------

  function Whole(s: string): string {
    SplitDot(s).whole
  }

  function Frac(s: string): string {
    FractionOf(SplitDot(s))
  }

  function FractionOf(p: Parts): string {
    if p.fraction.None? then "" else p.fraction.value
  }

  /** Digits with at most one decimal point among them. */
  predicate Plain(s: string) {
    DigitParts(SplitDot(s))
  }

  predicate DigitParts(p: Parts) {
    Digits(p.whole) && Digits(FractionOf(p))
  }

  /** A decimal literal: an optional minus, plain digits, an optional exponent. */
  predicate Literal(s: string) {
    s != "" && Plain(SignificandOf(WithoutSign(s)))
  }

  /** The exact value of plain digits: all of them, scaled by the length of the fraction. */
  function Val(s: string): Number
    requires Plain(s)
  {
    PartsVal(SplitDot(s))
  }

  function PartsVal(p: Parts): Number
    requires DigitParts(p)
  {
    Number(Num(p.whole + FractionOf(p)), |FractionOf(p)|)
  }

  /** The exact absolute value of a literal with a readable exponent. */
  function AbsoluteValue(s: string): Number
    requires Literal(s) && ExponentOf(WithoutSign(s)).Some?
  {
    var u := WithoutSign(s);
    TimesPow10(Val(SignificandOf(u)), ExponentOf(u).value)
  }

  /** The number i + f / 10^v that a set of operands stands for. */
  function N(o: Operands): Number
    requires Canonical(o)
  {
    Number(Scaled(o.I, o.V) + o.F, o.V)
  }

  /** What the operands of one number owe each other. */
  predicate Canonical(o: Operands) {
    && 0 <= o.I
    && 0 <= o.W <= o.V
    && 0 <= o.T
    && 0 <= o.F < Scaled(1, o.V)
    && o.F == Scaled(o.T, o.V - o.W)
    && (o.W > 0 ==> o.T % 10 != 0)
    && (o.F == 0 <==> o.T == 0)
    && (o.T == 0 <==> o.W == 0)
  }

  predicate NoPoint(s: string) {
    forall k :: 0 <= k < |s| ==> s[k] != '.'
  }

  lemma JoinDot(a: string, b: string)
    requires NoPoint(a)
    ensures SplitDot(a + "." + b) == Parts(a, Some(b))
  {
    var s := a + "." + b;
    var i := IndexDot(s);
    IndexFirst(s, '.', '.', 0);
    assert s[|a|] == '.' && forall k :: 0 <= k < |a| ==> s[k] == a[k];
    assert i == |a|;
    assert s[..i] == a && s[i + 1..] == b;
  }

  lemma NoDot(a: string)
    requires NoPoint(a)
    ensures SplitDot(a) == Parts(a, None)
  {
    IndexFirst(a, '.', '.', 0);
  }

  lemma DotParts(s: string)
    ensures s == if IndexDot(s) < 0 then Whole(s) else Whole(s) + "." + Frac(s)
    ensures IndexDot(s) < 0 ==> Frac(s) == ""
    ensures IndexDot(s) >= 0 ==> IndexDot(s) == |Whole(s)|
    ensures NoPoint(Whole(s))
  {
    IndexFirst(s, '.', '.', 0);
  }

  lemma ShiftLeftBeyond(s: string, n: int)
    requires n > 0 && n > |Whole(s)|
    ensures ShiftDecimalLeft(s, n) == LeftText(Whole(s), Frac(s), n)
  {
    var w, f, z := Whole(s), Frac(s), Zeros(n - |Whole(s)|);
    DotParts(s);
    Assoc("0." + z, w, f);
    Assoc("0.", z, w + f);
    Assoc(z, w, f);
  }

  lemma ShiftLeftWhole(s: string, n: int)
    requires n > 0 && n == |Whole(s)|
    ensures ShiftDecimalLeft(s, n) == LeftText(Whole(s), Frac(s), n)
  {
    DotParts(s);
    NoZeros(Whole(s), Frac(s));
  }

  lemma ShiftLeftWithin(s: string, n: int)
    requires 0 < n < |Whole(s)|
    ensures ShiftDecimalLeft(s, n) == LeftText(Whole(s), Frac(s), n)
  {
    var w := Whole(s);
    DotParts(s);
    InnerSlices(s, |w|, n);
    Assoc(w[..|w| - n] + ".", w[|w| - n..], Frac(s));
  }

  lemma ShiftLeftText(s: string, n: int)
    requires n > 0
    ensures ShiftDecimalLeft(s, n) == LeftText(Whole(s), Frac(s), n)
  {
    if n > |Whole(s)| {
      ShiftLeftBeyond(s, n);
    } else if n == |Whole(s)| {
      ShiftLeftWhole(s, n);
    } else {
      ShiftLeftWithin(s, n);
    }
  }

  function LeftText(w: string, f: string, n: int): string
    requires n > 0
  {
    if n >= |w| then "0." + (Zeros(n - |w|) + w + f) else w[..|w| - n] + "." + (w[|w| - n..] + f)
  }

  lemma NoZeros(w: string, f: string)
    ensures "0." + w + f == "0." + (Zeros(0) + w + f)
  {
    assert Zeros(0) + w == w;
  }

  lemma InnerSlices(s: string, i: int, n: int)
    requires 0 < n < i <= |s|
    ensures s[..i - n] == s[..i][..i - n] && s[i - n..i] == s[..i][i - n..]
  {}

  lemma ShiftLeftParts(s: string, n: int)
    requires n > 0
    ensures SplitDot(ShiftDecimalLeft(s, n)) == LeftParts(Whole(s), Frac(s), n)
  {
    var w, f := Whole(s), Frac(s);
    DotParts(s);
    ShiftLeftText(s, n);
    if n >= |w| {
      PointAfterZero(Zeros(n - |w|) + w + f);
    } else {
      JoinDot(w[..|w| - n], w[|w| - n..] + f);
    }
  }

  lemma PointAfterZero(f: string)
    ensures SplitDot("0." + f) == Parts("0", Some(f))
  {
    assert "0" + "." == "0.";
    JoinDot("0", f);
  }

  function LeftParts(w: string, f: string, n: int): Parts
    requires n > 0
  {
    if n >= |w| then Parts("0", Some(Zeros(n - |w|) + w + f))
    else Parts(w[..|w| - n], Some(w[|w| - n..] + f))
  }

  function RightParts(w: string, f: string, n: int): Parts
    requires n > 0
  {
    if n >= |f| then Parts(w + f + Zeros(n - |f|), None) else Parts(w + f[..n], Some(f[n..]))
  }

  lemma ShiftRightWhole(s: string, n: int)
    requires n > 0 && IndexDot(s) < 0
    ensures ShiftDecimalRight(s, n) == Whole(s) + Frac(s) + Zeros(n - |Frac(s)|)
  {
    assert Whole(s) + "" == Whole(s);
  }

  lemma ShiftRightText(s: string, n: int)
    requires n > 0
    ensures var w, f := Whole(s), Frac(s);
      ShiftDecimalRight(s, n) ==
      if n >= |f| then w + f + Zeros(n - |f|) else w + f[..n] + "." + f[n..]
  {
    var w, f := Whole(s), Frac(s);
    var i := IndexDot(s);
    if i < 0 {
      ShiftRightWhole(s, n);
    } else if n < |f| {
      OuterSlices(s, i + 1, n);
    } else {
      NoZerosBehind(w + f);
    }
  }

  lemma OuterSlices(s: string, i: nat, n: nat)
    requires i + n <= |s|
    ensures s[i..i + n] == s[i..][..n] && s[i + n..] == s[i..][n..]
  {}

  lemma NoZerosBehind(s: string)
    ensures s + Zeros(0) == s
  {}

  lemma NoPointJoined(a: string, b: string)
    requires NoPoint(a) && NoPoint(b)
    ensures NoPoint(a + b)
  {}

  lemma RightPartsText(w: string, f: string, n: int, t: string)
    requires n > 0 && NoPoint(w) && NoPoint(f)
    requires t == if n >= |f| then w + f + Zeros(n - |f|) else w + f[..n] + "." + f[n..]
    ensures SplitDot(t) == RightParts(w, f, n)
  {
    if n >= |f| {
      NoPointJoined(w, f);
      NoPointJoined(w + f, Zeros(n - |f|));
      NoDot(t);
    } else {
      NoPointJoined(w, f[..n]);
      JoinDot(w + f[..n], f[n..]);
    }
  }

  lemma ShiftRightParts(s: string, n: int)
    requires NoPoint(Frac(s)) && n > 0
    ensures SplitDot(ShiftDecimalRight(s, n)) == RightParts(Whole(s), Frac(s), n)
  {
    DotParts(s);
    ShiftRightText(s, n);
    RightPartsText(Whole(s), Frac(s), n, ShiftDecimalRight(s, n));
  }

  function ShiftedNumber(x: Number, c: int): Number {
    if c <= 0 then Number(x.mantissa, x.scale - c)
    else Number(Scaled(x.mantissa, Excess(c, x.scale)), Excess(x.scale, c))
  }

  lemma RightDigits(w: string, f: string, n: int)
    requires n > 0
    ensures var p := RightParts(w, f, n);
      && p.whole + FractionOf(p) == (w + f) + Zeros(Excess(n, |f|))
      && |FractionOf(p)| == Excess(|f|, n)
  {
    if n >= |f| {
    } else {
      assert w + f[..n] + f[n..] == w + f;
    }
  }

  lemma RightPartsVal(w: string, f: string, n: int)
    requires Digits(w) && Digits(f) && n > 0
    ensures DigitParts(RightParts(w, f, n))
    ensures PartsVal(RightParts(w, f, n)) == ShiftedNumber(Number(Num(w + f), |f|), n)
  {
    var p := RightParts(w, f, n);
    var all := p.whole + FractionOf(p);
    RightDigits(w, f, n);
    NumTrailingZeros(w + f, Excess(n, |f|), all);
  }

  lemma LeftDigits(w: string, f: string, n: int)
    requires n > 0
    ensures var p := LeftParts(w, f, n);
      && p.whole + FractionOf(p) == Zeros(if n >= |w| then 1 + n - |w| else 0) + (w + f)
      && |FractionOf(p)| == |f| + n
  {
    if n >= |w| {
      var z := Zeros(n - |w|);
      assert "0" + z == Zeros(1 + n - |w|);
      assert "0" + (z + w + f) == ("0" + z) + (w + f);
    } else {
      assert w[..|w| - n] + (w[|w| - n..] + f) == w + f;
    }
  }

  lemma LeftPartsVal(w: string, f: string, n: int)
    requires Digits(w) && Digits(f) && n > 0
    ensures DigitParts(LeftParts(w, f, n))
    ensures PartsVal(LeftParts(w, f, n)) == Number(Num(w + f), |f| + n)
  {
    var p := LeftParts(w, f, n);
    LeftDigits(w, f, n);
    NumLeadingZeros(if n >= |w| then 1 + n - |w| else 0, w + f, p.whole + FractionOf(p));
  }

  /** The parts of a value after shifting its decimal point. */
  function AppliedParts(p: Parts, c: int): Parts {
    if c > 0 then RightParts(p.whole, FractionOf(p), c)
    else if c < 0 then LeftParts(p.whole, FractionOf(p), -c)
    else p
  }

  lemma ApplyRight(s: string, c: int, t: string)
    requires NoPoint(Frac(s)) && c > 0 && t == ShiftDecimalRight(s, c)
    ensures SplitDot(t) == AppliedParts(SplitDot(s), c)
  {
    ShiftRightParts(s, c);
  }

  lemma ApplyLeft(s: string, c: int, t: string)
    requires c < 0 && t == ShiftDecimalLeft(s, -c)
    ensures SplitDot(t) == AppliedParts(SplitDot(s), c)
  {
    ShiftLeftParts(s, -c);
  }

  lemma ApplyParts(s: string, c: int)
    requires NoPoint(Frac(s)) && MIN_INT64 < c
    ensures SplitDot(ApplyExponent(s, c)) == AppliedParts(SplitDot(s), c)
  {
    if c > 0 {
      ApplyRight(s, c, ApplyExponent(s, c));
    } else if c < 0 {
      ApplyLeft(s, c, ApplyExponent(s, c));
    }
  }

  lemma AppliedRight(p: Parts, c: int) returns (q: Parts, x: Number)
    requires DigitParts(p) && c > 0
    ensures q == AppliedParts(p, c) && DigitParts(q) && x == PartsVal(q) && x == ShiftedNumber(PartsVal(p), c)
  {
    q := RightParts(p.whole, FractionOf(p), c);
    RightPartsVal(p.whole, FractionOf(p), c);
    x := PartsVal(q);
  }

  lemma AppliedLeft(p: Parts, c: int) returns (q: Parts, x: Number)
    requires DigitParts(p) && c < 0
    ensures q == AppliedParts(p, c) && DigitParts(q) && x == PartsVal(q) && x == ShiftedNumber(PartsVal(p), c)
  {
    q := LeftParts(p.whole, FractionOf(p), -c);
    LeftPartsVal(p.whole, FractionOf(p), -c);
    x := PartsVal(q);
    ShiftedLeft(PartsVal(p), -c, x);
  }

  /** The exact effect of a shift on mantissa and scale. */
  lemma AppliedVal(p: Parts, c: int)
    requires DigitParts(p)
    ensures DigitParts(AppliedParts(p, c))
    ensures PartsVal(AppliedParts(p, c)) == ShiftedNumber(PartsVal(p), c)
  {
    if c > 0 {
      var q, x := AppliedRight(p, c);
    } else if c < 0 {
      var q, x := AppliedLeft(p, c);
    }
  }

  lemma ShiftedLeft(x: Number, n: int, y: Number)
    requires n > 0 && y == Number(x.mantissa, x.scale + n)
    ensures y == ShiftedNumber(x, -n)
  {}

  lemma ShiftVal(s: string, c: int)
    requires Plain(s) && MIN_INT64 < c
    ensures Plain(ApplyExponent(s, c))
    ensures Val(ApplyExponent(s, c)) == ShiftedNumber(Val(s), c)
  {
    ApplyParts(s, c);
    AppliedVal(SplitDot(s), c);
  }

  /** Shifting the point on the string multiplies the exact value by the power of ten, except
      for the least int64, whose negation overflows so that nothing is shifted. */
  lemma ShiftLaw(s: string, c: int)
    requires Plain(s) && MIN_INT64 <= c <= MAX_INT64
    ensures Plain(ApplyExponent(s, c))
    ensures Same(Val(ApplyExponent(s, c)), TimesPow10(Val(s), c)) <==> c != MIN_INT64 || Val(s).mantissa == 0
    ensures c != MIN_INT64 ==> |Frac(ApplyExponent(s, c))| == Excess(|Frac(s)|, c)
  {
    if c != MIN_INT64 {
      ShiftVal(s, c);
      ShiftedIsMultiplied(Val(s), c);
    } else {
      NotMultiplied(Val(s), c);
    }
  }

  lemma ShiftedIsMultiplied(x: Number, c: int)
    requires x.scale >= 0
    ensures Same(ShiftedNumber(x, c), TimesPow10(x, c))
  {}

  lemma NotMultiplied(x: Number, c: int)
    requires c < 0
    ensures Same(x, TimesPow10(x, c)) <==> x.mantissa == 0
  {
    ScaledBounds(x.mantissa, -c);
  }

  /** Successive shifts add up. */
  lemma ShiftsCompose(s: string, a: int, b: int)
    requires Plain(s)
    requires MIN_INT64 < a <= MAX_INT64 && MIN_INT64 < b <= MAX_INT64 && MIN_INT64 < a + b <= MAX_INT64
    ensures Plain(ApplyExponent(s, a)) && Plain(ApplyExponent(ApplyExponent(s, a), b))
    ensures Plain(ApplyExponent(s, a + b))
    ensures Same(Val(ApplyExponent(ApplyExponent(s, a), b)), Val(ApplyExponent(s, a + b)))
  {
    var t, x := Shifted(s, a);
    var u, y := Shifted(t, b);
    var v, z := Shifted(s, a + b);
    SameShifts(Val(s), a, b, y, z);
  }

  lemma Shifted(s: string, c: int) returns (t: string, x: Number)
    requires Plain(s) && MIN_INT64 < c
    ensures t == ApplyExponent(s, c) && Plain(t) && x == Val(t) && x == ShiftedNumber(Val(s), c)
  {
    ShiftVal(s, c);
    t, x := ApplyExponent(s, c), Val(ApplyExponent(s, c));
  }

  lemma SameShifts(x: Number, a: int, b: int, y: Number, z: Number)
    requires x.scale >= 0 && y == ShiftedNumber(ShiftedNumber(x, a), b) && z == ShiftedNumber(x, a + b)
    ensures Same(y, z)
  {
    ShiftedTwice(x, a, b);
  }

  lemma ShiftedTwice(x: Number, a: int, b: int)
    requires x.scale >= 0
    ensures Same(ShiftedNumber(ShiftedNumber(x, a), b), ShiftedNumber(x, a + b))
  {
    var k, m := x.scale, x.mantissa;
    if a > k {
      if b >= 0 {
        ScaledTwice(m, a - k, b);
      } else if a + b > k {
        ScaledTwice(m, a + b - k, -b);
      } else {
        ScaledTwice(m, a - k, k - a - b);
      }
    }
  }

  /** Shifting left and back restores the fraction, and the integer part up to leading zeros. */
  lemma LeftThenRight(s: string, n: int)
    requires Plain(s) && n > 0
    ensures var r := ShiftDecimalRight(ShiftDecimalLeft(s, n), n);
      && Frac(r) == Frac(s)
      && Whole(r) == Zeros(if n >= |Whole(s)| then 1 + n - |Whole(s)| else 0) + Whole(s)
  {
    var w, f, l := Whole(s), Frac(s), ShiftDecimalLeft(s, n);
    var z := Zeros(if n >= |w| then 1 + n - |w| else 0);
    ShiftLeftParts(s, n);
    LeftDigits(w, f, n);
    LeftPartsVal(w, f, n);
    ShiftRightParts(l, n);
    RightDigits(Whole(l), Frac(l), n);
    var r := ShiftDecimalRight(l, n);
    assert Zeros(Excess(n, |Frac(l)|)) == "";
    assert Whole(r) + Frac(r) == z + (w + f);
    SplitAtEnd(Whole(r), Frac(r), z, w, f);
  }

  lemma SplitAtEnd(a: string, b: string, z: string, w: string, f: string)
    requires a + b == z + (w + f) && |b| == |f|
    ensures b == f && a == z + w
  {
    assert z + (w + f) == (z + w) + f;
    assert a == (a + b)[..|a|] && b == (a + b)[|a|..];
    assert ((z + w) + f)[..|z + w|] == z + w;
  }

  /** Operands read off digits are canonical, and exact whenever the parse succeeds. */
  lemma PartsExact(p: Parts, c: int)
    requires DigitParts(p) && OperandsOfParts(p, c).Some?
    ensures var o := OperandsOfParts(p, c).value;
      && Canonical(o) && N(o) == PartsVal(p) && o.V == |FractionOf(p)| && o.C == c
  {
    ParsedDigits(p.whole);
    NumConcat(p.whole, FractionOf(p));
    if p.fraction.Some? {
      FractionParsed(p.fraction.value);
      var w, t, n := FractionCanonical(Num(p.whole), p.fraction.value, c);
    } else {
      assert p.whole + "" == p.whole;
    }
  }

  lemma FractionParsed(f: string)
    requires Digits(f)
    ensures var w := SignificantLength(f);
      && (f != "" && ParseInt(f).Some? ==> ParseInt(f).value == Num(f))
      && (w > 0 && ParseInt(f[..w]).Some? ==> ParseInt(f[..w]).value == Num(f[..w]))
      && (f == "" ==> Num(f) == 0)
      && (w == 0 ==> Num(f[..w]) == 0)
  {
    ParsedDigits(f);
    ParsedDigits(f[..SignificantLength(f)]);
  }

  lemma FractionCanonical(i: nat, f: string, c: int) returns (w: nat, t: nat, n: nat)
    requires Digits(f)
    ensures w == SignificantLength(f) && w <= |f| && t == Num(f[..w]) && n == Num(f)
    ensures Canonical(Operands(i, |f|, w, n, t, c))
  {
    w, t := FractionDigits(f);
    n := Num(f);
    NumBound(f);
    CanonicalFrom(i, |f|, w, n, t, c);
  }

  lemma CanonicalFrom(i: nat, v: nat, w: nat, f: nat, t: nat, c: int)
    requires w <= v && f == Scaled(t, v - w) && f < Scaled(1, v)
    requires if w > 0 then t % 10 != 0 else t == 0
    ensures Canonical(Operands(i, v, w, f, t, c))
  {
    ScaledBounds(t, v - w);
  }

  lemma ParsedDigits(s: string)
    requires Digits(s)
    ensures ParseInt(s).Some? ==> ParseInt(s) == Some(Num(s))
  {
    if s != "" {
      ParseDigits(s);
    }
  }

  /** The number of a fraction is the number of its significant digits times a power of ten. */
  lemma FractionDigits(f: string) returns (w: nat, t: nat)
    requires Digits(f)
    ensures w == SignificantLength(f) && w <= |f| && t == Num(f[..w])
    ensures Num(f) == Scaled(t, |f| - w)
    ensures if w > 0 then t % 10 != 0 else t == 0
  {
    w := SignificantLength(f);
    t := Num(f[..w]);
    SplitDigits(f, w, f[..w], f[w..]);
  }

  lemma SplitDigits(f: string, w: nat, t: string, z: string)
    requires Digits(f) && w <= |f| && t == f[..w] && z == f[w..]
    requires forall k :: w <= k < |f| ==> f[k] == '0'
    requires w > 0 ==> f[w - 1] != '0'
    ensures Num(f) == Scaled(Num(t), |f| - w)
    ensures if w > 0 then Num(t) % 10 != 0 else Num(t) == 0
  {
    AllZeros(z);
    NumTrailingZeros(t, |z|, f);
    if w > 0 {
      LastDigit(t);
    }
  }

  lemma AllZeros(z: string)
    requires forall k :: 0 <= k < |z| ==> z[k] == '0'
    ensures z == Zeros(|z|)
  {}

  lemma LastDigit(s: string)
    requires Digits(s) && s != ""
    ensures Num(s) % 10 == (s[|s| - 1] - '0') as int
  {
    assert Digit(s[|s| - 1]);
  }

  /** The operands of every literal that parses are canonical, carry its exponent, have the
      fraction digits left after the shift, and stand for its exact absolute value; only the least
      int64 as exponent of a non-zero number makes them inexact. */
  lemma OperandsExact(s: string, floatOk: string -> bool)
    requires Literal(s) && OperandsOfString(s, floatOk).Some?
    ensures ExponentOf(WithoutSign(s)).Some?
    ensures var o := OperandsOfString(s, floatOk).value;
      && Canonical(o)
      && Some(o.C) == ExponentOf(WithoutSign(s))
      && (Same(N(o), AbsoluteValue(s)) <==> o.C != MIN_INT64 || AbsoluteValue(s).mantissa == 0)
      && (o.C != MIN_INT64 ==> o.V == Excess(AbsoluteValue(s).scale, 0))
  {
    var u := WithoutSign(s);
    var c, sig := ExponentOf(u).value, SignificandOf(u);
    ShiftLaw(sig, c);
    PartsExact(SplitDot(ApplyExponent(sig, c)), c);
  }

  lemma ParseSignedDec(i: int)
    requires MIN_INT64 <= i <= MAX_INT64
    ensures SignedDec(i) != "" && ParseInt(SignedDec(i)) == Some(i)
  {
    var d := Dec(if i < 0 then -i else i);
    NumDec(if i < 0 then -i else i);
    assert Digit(d[0]);
    if i < 0 {
      Cut("-", d);
    }
  }

  lemma ExponentBehind(digits: string, e: string)
    requires Digits(digits)
    ensures SplitSignificandExponent(digits + ("e" + e)) == (digits, e)
  {
    var s := digits + ("e" + e);
    IndexFirst(s, 'e', 'E', 0);
    forall k | 0 <= k < |digits| ensures s[k] != 'e' && s[k] != 'E' {
      assert Digit(digits[k]);
    }
    assert s[|digits|] == 'e';
    Cut(digits, "e" + e);
    Cut("e", e);
    assert s[|digits| + 1..] == s[|digits|..][1..];
  }

  lemma UnsignedWithExponent(digits: string, c: int, s: string)
    requires Digits(digits) && digits != "" && MIN_INT64 <= c <= MAX_INT64
    requires s == digits + ("e" + SignedDec(c))
    ensures s != "" && WithoutSign(s) == s && SignificandOf(s) == digits && ExponentOf(s) == Some(c)
  {
    assert Digit(digits[0]) && s[0] == digits[0];
    ParseSignedDec(c);
    ExponentBehind(digits, SignedDec(c));
  }

  lemma OperandsOfDigits(digits: string, c: int)
    requires Digits(digits) && digits != "" && Num(digits) <= MAX_INT64
    ensures Plain(digits)
    ensures OperandsOfParts(SplitDot(digits), c) == Some(Operands(Num(digits), 0, 0, 0, 0, c))
  {
    NoDot(digits);
    ParseDigits(digits);
  }

  /** Any digits with the least int64 as exponent parse, but as if there were no exponent. */
  lemma LeastExponent(digits: string, s: string, floatOk: string -> bool)
    requires Digits(digits) && digits != "" && Num(digits) <= MAX_INT64
    requires s == digits + ("e" + SignedDec(MIN_INT64)) && floatOk(s)
    ensures Literal(s) && ExponentOf(WithoutSign(s)) == Some(MIN_INT64)
    ensures OperandsOfString(s, floatOk) == Some(Operands(Num(digits), 0, 0, 0, 0, MIN_INT64))
    ensures Same(N(OperandsOfString(s, floatOk).value), AbsoluteValue(s)) <==> AbsoluteValue(s).mantissa == 0
  {
    UnsignedWithExponent(digits, MIN_INT64, s);
    OperandsOfDigits(digits, MIN_INT64);
    OperandsExact(s, floatOk);
  }

  /** The operands depend on the value alone: equal values give equal i, w and t, and v and f
      differ exactly by the trailing zeros. */
  lemma ValueDeterminesOperands(a: Operands, b: Operands)
    requires Canonical(a) && Canonical(b) && a.V <= b.V
    ensures Same(N(a), N(b)) <==> a.I == b.I && Scaled(a.F, b.V - a.V) == b.F
    ensures Same(N(a), N(b)) ==> a.W == b.W && a.T == b.T
  {
    var d := b.V - a.V;
    Aligned(a.I, a.F, a.V, d);
    Quotient(a.I, Scaled(a.F, d), b.I, b.F, b.V);
    if Scaled(a.F, d) == b.F {
      ScaledTwice(a.T, a.V - a.W, d);
      TrailingZeros(a.T, b.V - a.W, b.T, b.V - b.W);
    }
  }

  lemma Aligned(i: nat, f: nat, v: nat, d: nat)
    requires f < Scaled(1, v)
    ensures Scaled(Scaled(i, v) + f, d) == Scaled(i, v + d) + Scaled(f, d)
    ensures Scaled(f, d) < Scaled(1, v + d)
  {
    var g := Scaled(1, v) - f;
    ScaledSum(Scaled(i, v), f, d);
    ScaledTwice(i, v, d);
    ScaledTwice(1, v, d);
    ScaledSum(f, g, d);
    ScaledBounds(g, d);
  }

  lemma Quotient(i: nat, f: nat, j: nat, g: nat, v: nat)
    requires f < Scaled(1, v) && g < Scaled(1, v)
    ensures Scaled(i, v) + f == Scaled(j, v) + g <==> i == j && f == g
  {
    if i < j {
      ScaledSum(i, j - i, v);
      ScaledBounds(j - i, v);
    } else if j < i {
      ScaledSum(j, i - j, v);
      ScaledBounds(i - j, v);
    }
  }

  lemma {:induction false} TrailingZeros(t: nat, a: nat, u: nat, b: nat)
    requires Scaled(t, a) == Scaled(u, b)
    requires t == 0 || t % 10 != 0
    requires u == 0 || u % 10 != 0
    ensures t == u && (t != 0 ==> a == b)
  {
    ScaledBounds(t, a);
    ScaledBounds(u, b);
    if t != 0 && u != 0 {
      if a > 0 && b > 0 {
        TrailingZeros(t, a - 1, u, b - 1);
      } else if a > 0 {
        ScaledEndsInZero(t, a);
      } else if b > 0 {
        ScaledEndsInZero(u, b);
      }
    }
  }

  /** Two literals of equal absolute value, however written, have the same i, w and t. */
  lemma EqualLiterals(x: string, y: string, floatOk: string -> bool)
    requires Literal(x) && OperandsOfString(x, floatOk).Some? && ExponentOf(WithoutSign(x)) != Some(MIN_INT64)
    requires Literal(y) && OperandsOfString(y, floatOk).Some? && ExponentOf(WithoutSign(y)) != Some(MIN_INT64)
    requires Same(AbsoluteValue(x), AbsoluteValue(y))
    ensures var a, b := OperandsOfString(x, floatOk).value, OperandsOfString(y, floatOk).value;
      a.I == b.I && a.W == b.W && a.T == b.T
  {
    var a, b := OperandsOfString(x, floatOk).value, OperandsOfString(y, floatOk).value;
    OperandsExact(x, floatOk);
    OperandsExact(y, floatOk);
    SameTransitive(N(a), AbsoluteValue(x), AbsoluteValue(y));
    SameSymmetric(N(b), AbsoluteValue(y));
    SameTransitive(N(a), AbsoluteValue(y), N(b));
    SameSymmetric(N(a), N(b));
    if a.V <= b.V {
      ValueDeterminesOperands(a, b);
    } else {
      ValueDeterminesOperands(b, a);
    }
  }

  /** A literal and the same digits with the exponent carried out have the same operands but c. */
  lemma ExponentExpansion(s: string, floatOk: string -> bool)
    requires Literal(s) && OperandsOfString(s, floatOk).Some?
    ensures var e := Expanded(s);
      e != "" && (floatOk(e) ==> OperandsOfString(e, floatOk) == Some(OperandsOfString(s, floatOk).value.(C := 0)))
  {
    var u := WithoutSign(s);
    var c, e := ExponentOf(u).value, Expanded(s);
    ShiftLaw(SignificandOf(u), c);
    PlainHasNoExponent(e);
    assert OperandsOfString(s, floatOk) == OperandsOfParts(SplitDot(e), c);
    assert e != "";
    ExponentIsCarried(SplitDot(e), c);
  }

  function Expanded(s: string): string
    requires ExponentOf(WithoutSign(s)).Some?
  {
    ApplyExponent(SignificandOf(WithoutSign(s)), ExponentOf(WithoutSign(s)).value)
  }

  lemma ExponentIsCarried(p: Parts, c: int)
    requires OperandsOfParts(p, c).Some?
    ensures OperandsOfParts(p, 0) == Some(OperandsOfParts(p, c).value.(C := 0))
  {}

  lemma PlainHasNoExponent(s: string)
    requires Plain(s)
    ensures WithoutSign(s) == s && SplitSignificandExponent(s) == (s, "")
  {
    DotParts(s);
    IndexFirst(s, 'e', 'E', 0);
    assert forall k :: 0 <= k < |s| ==> Digit(s[k]) || s[k] == '.';
  }

  /** An int64 and its decimal string have the same operands exactly when it is not the least. */
  lemma IntAgreesWithString(i: int, floatOk: string -> bool)
    requires MIN_INT64 <= i <= MAX_INT64
    requires floatOk(WithoutSign(SignedDec(i)))
    ensures SignedDec(i) != ""
    ensures OperandsOfString(SignedDec(i), floatOk) == Some(OperandsOfInt(i)) <==> i != MIN_INT64
    ensures Canonical(OperandsOfInt(i)) <==> i != MIN_INT64
  {
    var n := if i < 0 then -i else i;
    var d := Dec(n);
    NumDec(n);
    NoDot(d);
    PlainHasNoExponent(d);
    ParseDigits(d);
    assert WithoutSign(SignedDec(i)) == d;
  }
}
