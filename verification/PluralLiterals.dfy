/** Decimal literals by their text: which operands the parser reads from them, and when it fails. */
module PluralLiterals {
  import opened Decimal
  import opened PluralOperands
  import opened Strings

  /** An exponent as written: e or E, an optional sign, digits. */
  datatype Exponent = Exponent(mark: char, sign: string, digits: string)

  /** A literal as written: an optional minus, digits, perhaps a point and digits, perhaps an exponent. */
  datatype Written = Written(negative: bool, whole: string, fraction: Option<string>, exponent: Option<Exponent>)

  predicate WellWritten(l: Written) {
    && Digits(l.whole) && (l.fraction.Some? ==> Digits(l.fraction.value))
    && (l.exponent.Some? ==>
          var x := l.exponent.value;
          x.mark in {'e', 'E'} && x.sign in {"", "+", "-"} && x.digits != "" && Digits(x.digits))
  }

  function Significand(l: Written): string {
    l.whole + if l.fraction.Some? then "." + l.fraction.value else ""
  }

  function ExponentText(l: Written): string {
    if l.exponent.Some? then [l.exponent.value.mark] + (l.exponent.value.sign + l.exponent.value.digits) else ""
  }

  function Unsigned(l: Written): string {
    Significand(l) + ExponentText(l)
  }

  function Text(l: Written): string {
    (if l.negative then "-" else "") + Unsigned(l)
  }

  function FractionText(l: Written): string {
    if l.fraction.Some? then l.fraction.value else ""
  }

  /** The number the exponent denotes. */
  function ExponentValue(l: Written): int
    requires WellWritten(l)
  {
    if l.exponent.None? then 0
    else if l.exponent.value.sign == "-" then -(Num(l.exponent.value.digits) as int)
    else Num(l.exponent.value.digits)
  }

  /** By how much the point moves: not at all for the least int64. */
  function Shift(l: Written): int
    requires WellWritten(l)
  {
    if ExponentValue(l) == MIN_INT64 then 0 else ExponentValue(l)
  }

  /** All digits as one number, and the number of fraction digits that are left of them. */
  function AllDigits(l: Written): nat
    requires WellWritten(l)
  {
    Num(l.whole + FractionText(l))
  }

  function Visible(l: Written): nat
    requires WellWritten(l)
  {
    Excess(|FractionText(l)|, Shift(l))
  }

  function ShiftedDigits(l: Written): nat
    requires WellWritten(l)
  {
    Scaled(AllDigits(l), Excess(Shift(l), |FractionText(l)|))
  }

  lemma NoMark(s: string)
    requires forall k :: 0 <= k < |s| ==> s[k] !in {'e', 'E'}
    ensures SplitSignificandExponent(s) == (s, "")
  {
    IndexFirst(s, 'e', 'E', 0);
  }

  lemma MarkAfter(s: string, mark: char, rest: string)
    requires forall k :: 0 <= k < |s| ==> s[k] !in {'e', 'E'}
    requires mark in {'e', 'E'}
    ensures SplitSignificandExponent(s + ([mark] + rest)) == (s, rest)
  {
    var t := s + ([mark] + rest);
    IndexFirst(t, 'e', 'E', 0);
    Cut(s, [mark] + rest);
    Cut([mark], rest);
    assert t[|s|] == mark && forall k :: 0 <= k < |s| ==> t[k] == s[k];
    assert t[|s| + 1..] == t[|s|..][1..];
  }

  lemma SignificandChars(l: Written)
    requires WellWritten(l)
    ensures forall k :: 0 <= k < |Significand(l)| ==> Digit(Significand(l)[k]) || Significand(l)[k] == '.'
    ensures SplitDot(Significand(l)) == Parts(l.whole, l.fraction)
  {
    if l.fraction.Some? {
      Assoc(l.whole, ".", l.fraction.value);
      JoinDot(l.whole, l.fraction.value);
    } else {
      NoText(l.whole);
      NoDot(l.whole);
    }
  }

  lemma SignedDigits(sign: char, digits: string)
    requires sign in {'+', '-'} && digits != "" && Digits(digits)
    ensures var c := if sign == '-' then -(Num(digits) as int) else Num(digits);
      ParseInt([sign] + digits) == if MIN_INT64 <= c <= MAX_INT64 then Some(c) else None
  {
    Cut([sign], digits);
  }

  lemma SignAndDigits(sign: string, digits: string)
    requires sign in {"", "+", "-"} && digits != "" && Digits(digits)
    ensures var c := if sign == "-" then -(Num(digits) as int) else Num(digits);
      ParseInt(sign + digits) == if MIN_INT64 <= c <= MAX_INT64 then Some(c) else None
  {
    if sign == "" {
      assert Digit(digits[0]);
      NoText(digits);
    } else {
      assert sign == [sign[0]];
      SignedDigits(sign[0], digits);
    }
  }

  lemma ParsedExponent(l: Written)
    requires WellWritten(l) && l.exponent.Some?
    ensures var x := l.exponent.value;
      ParseInt(x.sign + x.digits) == if MIN_INT64 <= ExponentValue(l) <= MAX_INT64 then Some(ExponentValue(l)) else None
    ensures l.exponent.value.sign + l.exponent.value.digits != ""
  {
    SignAndDigits(l.exponent.value.sign, l.exponent.value.digits);
  }

  /** The mark and the exponent behind a significand, whatever that is; `t` is the whole text. */
  lemma SplitsBefore(s: string, l: Written, t: string)
    requires WellWritten(l) && t == s + ExponentText(l) && forall k :: 0 <= k < |s| ==> s[k] !in {'e', 'E'}
    ensures SignificandOf(t) == s
    ensures ExponentOf(t) == if MIN_INT64 <= ExponentValue(l) <= MAX_INT64 then Some(ExponentValue(l)) else None
  {
    if l.exponent.None? {
      NoText(s);
      NoMark(s);
    } else {
      var x := l.exponent.value;
      MarkAfter(s, x.mark, x.sign + x.digits);
      ParsedExponent(l);
    }
  }

  /** The two halves of the text. */
  lemma TextSplits(l: Written)
    requires WellWritten(l) && Text(l) != ""
    ensures WithoutSign(Text(l)) == Unsigned(l) && SignificandOf(Unsigned(l)) == Significand(l)
    ensures ExponentOf(Unsigned(l)) ==
      if MIN_INT64 <= ExponentValue(l) <= MAX_INT64 then Some(ExponentValue(l)) else None
  {
    SignificandChars(l);
    UnsignedText(l);
    SplitsBefore(Significand(l), l, Unsigned(l));
  }

  lemma UnsignedText(l: Written)
    requires WellWritten(l) && Text(l) != ""
    ensures WithoutSign(Text(l)) == Unsigned(l)
  {
    SignificandChars(l);
    var u := Unsigned(l);
    if l.negative {
      Cut("-", u);
    } else {
      NoText(u);
      if Significand(l) != "" {
        assert u[0] == Significand(l)[0];
      } else {
        NoText(ExponentText(l));
      }
    }
  }

  lemma ParsedDigitsExactly(s: string)
    requires Digits(s)
    ensures ParseInt(s) == if s != "" && Num(s) <= MAX_INT64 then Some(Num(s)) else None
  {
    if s != "" {
      ParseDigits(s);
    }
  }

  /** The digits around the point can be read exactly when there are some before it and both numbers fit. */
  lemma PartsParse(p: Parts, c: int)
    requires DigitParts(p)
    ensures OperandsOfParts(p, c).Some? <==>
      p.whole != "" && Num(p.whole) <= MAX_INT64 && Num(FractionOf(p)) <= MAX_INT64
    ensures OperandsOfParts(p, c).Some? ==>
      OperandsOfParts(p, c).value.I == Num(p.whole) && OperandsOfParts(p, c).value.F == Num(FractionOf(p))
  {
    ParsedDigitsExactly(p.whole);
    if p.fraction.Some? {
      var f := p.fraction.value;
      var w, t := FractionDigits(f);
      ScaledBounds(t, |f| - w);
      ParsedDigitsExactly(f);
      ParsedDigitsExactly(f[..w]);
    }
  }

  /** What stands before the point and behind it, from the mantissa of the exact value. */
  lemma DivideParts(i: nat, f: nat, v: nat)
    requires f < Scaled(1, v)
    ensures (Scaled(i, v) + f) / Scaled(1, v) == i && (Scaled(i, v) + f) % Scaled(1, v) == f
  {
    ScaledProduct(i, 1, v);
    RemainderUnique(i, Scaled(1, v), f);
    QuotientUnique(i, Scaled(1, v), f);
  }

  lemma QuotientUnique(q: nat, x: int, y: int)
    requires 0 <= y < x && (q * x + y) % x == y
    ensures (q * x + y) / x == q
  {
    var n := q * x + y;
    assert n == (n / x) * x + n % x;
    assert (n / x) * x == q * x;
    if n / x < q {
      AtLeastOnce(q - n / x, x);
    } else if n / x > q {
      AtLeastOnce(n / x - q, x);
    }
  }

  lemma PartsOfValue(p: Parts)
    requires DigitParts(p)
    ensures var v := Scaled(1, |FractionOf(p)|);
      v > 0 && Num(p.whole) == PartsVal(p).mantissa / v && Num(FractionOf(p)) == PartsVal(p).mantissa % v
  {
    NumConcat(p.whole, FractionOf(p));
    NumBound(FractionOf(p));
    DivideParts(Num(p.whole), Num(FractionOf(p)), |FractionOf(p)|);
  }

  lemma ApplyShift(s: string, c: int)
    requires NoPoint(Frac(s)) && MIN_INT64 <= c <= MAX_INT64
    ensures SplitDot(ApplyExponent(s, c)) == AppliedParts(SplitDot(s), if c == MIN_INT64 then 0 else c)
  {
    if c != MIN_INT64 {
      ApplyParts(s, c);
    }
  }

  /** The digits around the point after the shift. */
  lemma ShiftedParts(l: Written) returns (p: Parts)
    requires WellWritten(l)
    ensures p == AppliedParts(Parts(l.whole, l.fraction), Shift(l)) && DigitParts(p)
    ensures p.whole != "" <==> l.whole != "" || Shift(l) != 0
    ensures |FractionOf(p)| == Visible(l) && PartsVal(p) == Number(ShiftedDigits(l), Visible(l))
  {
    var q := Parts(l.whole, l.fraction);
    AppliedVal(q, Shift(l));
    p := AppliedParts(q, Shift(l));
  }

  /** The literal can be read: its exponent is an int64, there is a digit before the shifted point, and
      the numbers before and behind that point are int64s. */
  ghost predicate Readable(l: Written)
    requires WellWritten(l)
  {
    var unit := Scaled(1, Visible(l));
    && MIN_INT64 <= ExponentValue(l) <= MAX_INT64
    && (l.whole != "" || Shift(l) != 0)
    && unit > 0 && ShiftedDigits(l) / unit <= MAX_INT64 && ShiftedDigits(l) % unit <= MAX_INT64
  }

  lemma ReadParts(l: Written, floatOk: string -> bool)
    requires WellWritten(l) && Text(l) != "" && MIN_INT64 <= ExponentValue(l) <= MAX_INT64
    ensures OperandsOfString(Text(l), floatOk) ==
      if floatOk(Unsigned(l)) then OperandsOfParts(AppliedParts(Parts(l.whole, l.fraction), Shift(l)), ExponentValue(l))
      else None
  {
    TextSplits(l);
    SignificandChars(l);
    ApplyShift(Significand(l), ExponentValue(l));
  }

  lemma PartsReadable(l: Written) returns (p: Parts, r: Option<Operands>)
    requires WellWritten(l) && MIN_INT64 <= ExponentValue(l) <= MAX_INT64
    ensures p == AppliedParts(Parts(l.whole, l.fraction), Shift(l)) && r == OperandsOfParts(p, ExponentValue(l))
    ensures r.Some? <==> Readable(l)
    ensures r.Some? ==> Reads(l, r.value)
  {
    p := ShiftedParts(l);
    r := OperandsOfParts(p, ExponentValue(l));
    PartsOfValue(p);
    PartsParse(p, ExponentValue(l));
    if r.Some? {
      PartsExact(p, ExponentValue(l));
    }
  }

  /** i and f are the digits before and behind the shifted point, v is the number of the latter, c is the
      exponent, and all operands are canonical. */
  ghost predicate Reads(l: Written, o: Operands)
    requires WellWritten(l)
  {
    var unit := Scaled(1, Visible(l));
    && Canonical(o) && unit > 0
    && o.I == ShiftedDigits(l) / unit && o.F == ShiftedDigits(l) % unit
    && o.V == Visible(l) && o.C == ExponentValue(l)
  }

  lemma OutOfRange(l: Written, floatOk: string -> bool)
    requires WellWritten(l) && Text(l) != "" && !(MIN_INT64 <= ExponentValue(l) <= MAX_INT64)
    ensures OperandsOfString(Text(l), floatOk).None?
  {
    TextSplits(l);
  }

  /** Reading a literal succeeds exactly if the float parser accepts the text without its sign and the
      literal is readable; the operands are then those of its digits. */
  lemma LiteralOperands(l: Written, floatOk: string -> bool)
    requires WellWritten(l) && Text(l) != ""
    ensures OperandsOfString(Text(l), floatOk).Some? <==> floatOk(Unsigned(l)) && Readable(l)
    ensures OperandsOfString(Text(l), floatOk).Some? ==> Reads(l, OperandsOfString(Text(l), floatOk).value)
  {
    if MIN_INT64 <= ExponentValue(l) <= MAX_INT64 {
      ReadParts(l, floatOk);
      var p, r := PartsReadable(l);
    } else {
      OutOfRange(l, floatOk);
    }
  }

  /** The operands stand for all digits of the text times the power of ten that point and exponent
      leave, unless the exponent is the least int64. */
  lemma LiteralValue(l: Written, floatOk: string -> bool)
    requires WellWritten(l) && Text(l) != "" && OperandsOfString(Text(l), floatOk).Some?
    requires ExponentValue(l) != MIN_INT64
    ensures var o := OperandsOfString(Text(l), floatOk).value;
      Canonical(o) && Same(N(o), Number(AllDigits(l), |FractionText(l)| - ExponentValue(l)))
  {
    LiteralOperands(l, floatOk);
    ReadParts(l, floatOk);
    var p := ShiftedParts(l);
    PartsExact(p, ExponentValue(l));
    ShiftedIsMultiplied(Number(AllDigits(l), |FractionText(l)|), ExponentValue(l));
  }

  /** 1.5e3 is 1500 with exponent 3. */
  lemma ExponentExample(floatOk: string -> bool)
    requires floatOk("1.5e3")
    ensures OperandsOfString("1.5e3", floatOk) == Some(Operands(1500, 0, 0, 0, 0, 3))
  {
    var l := Written(false, "1", Some("5"), Some(Exponent('e', "", "3")));
    assert Text(l) == "1.5e3" && Unsigned(l) == "1.5e3";
    assert Num("3") == 3 && "1" + "5" == "15" && "15"[..1] == "1" && Num("15") == 15;
    assert Scaled(15, 2) == 1500 && Scaled(1, 0) == 1;
    ReadsInteger(l, 1500, floatOk);
  }

  lemma ReadsInteger(l: Written, i: nat, floatOk: string -> bool)
    requires WellWritten(l) && Text(l) != "" && floatOk(Unsigned(l)) && l.whole != ""
    requires MIN_INT64 <= ExponentValue(l) <= MAX_INT64 && Visible(l) == 0 && ShiftedDigits(l) == i <= MAX_INT64
    ensures OperandsOfString(Text(l), floatOk) == Some(Operands(i, 0, 0, 0, 0, ExponentValue(l)))
  {
    assert Scaled(1, 0) == 1;
    LiteralOperands(l, floatOk);
  }
}
