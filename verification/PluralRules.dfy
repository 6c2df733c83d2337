/** The plural form functions of all forty rule groups, and what they decide about a number.
    UTS #35 Part 3, section 5.1.2. */
module PluralRules {
  import opened Decimal
  import opened PluralOperands

  datatype Form = Zero | One | Two | Few | Many | Other

  /** One constructor for each registered rule, named after its first language. */
  datatype Rule =
    | Bm | Am | Ff | Ast | Si | Ak | Tzm | Af | Da | Is | Mk | Ceb | Lv | Lag | Blo | Ksh | He | Iu | Shi | Mo
    | Bs | Fr | Pt | Ca | Es | Gd | Sl | Dsb | Cs | Pl | Be | Lt | Ru | Br | Mt | Ga | Gv | Kw | Ar | Cy

  /** Go's remainder, which takes the sign of the dividend. */
  function Rem(a: int, m: int): int
    requires m > 0
  {
    if a >= 0 then a % m else -((-a) % m)
  }

  predicate IntInRange(i: int, from: int, to: int) {
    from <= i <= to
  }

  predicate NEqualsAny(o: Operands, xs: set<int>) {
    o.I in xs && o.T == 0
  }

  predicate NModEqualsAny(o: Operands, mod: int, xs: set<int>)
    requires mod > 0
  {
    Rem(o.I, mod) in xs && o.T == 0
  }

  predicate NInRange(o: Operands, from: int, to: int) {
    o.T == 0 && from <= o.I <= to
  }

  predicate NModInRange(o: Operands, mod: int, from: int, to: int)
    requires mod > 0
  {
    o.T == 0 && from <= Rem(o.I, mod) <= to
  }

  /** The shared condition of fr, pt, ca and es for compact millions. */
  predicate Millions(o: Operands) {
    || (o.C == 0 && o.I != 0 && Rem(o.I, 1000000) == 0 && o.V == 0)
    || !IntInRange(o.C, 0, 5)
  }

  function PluralForm(rule: Rule, o: Operands): Form {
    match rule
    case Bm => Other
    case Am => if o.I == 0 || NEqualsAny(o, {1}) then One else Other
    case Ff => if o.I in {0, 1} then One else Other
    case Ast => if o.I == 1 && o.V == 0 then One else Other
    case Si => if NEqualsAny(o, {0, 1}) || (o.I == 0 && o.F == 1) then One else Other
    case Ak => if NInRange(o, 0, 1) then One else Other
    case Tzm => if NInRange(o, 0, 1) || NInRange(o, 11, 99) then One else Other
    case Af => if NEqualsAny(o, {1}) then One else Other
    case Da => if NEqualsAny(o, {1}) || (o.T != 0 && o.I in {0, 1}) then One else Other
    case Is =>
      if (o.T == 0 && Rem(o.I, 10) == 1 && Rem(o.I, 100) != 11) || (Rem(o.T, 10) == 1 && Rem(o.T, 100) != 11)
      then One else Other
    case Mk =>
      if (o.V == 0 && Rem(o.I, 10) == 1 && Rem(o.I, 100) != 11) || (Rem(o.F, 10) == 1 && Rem(o.F, 100) != 11)
      then One else Other
    case Ceb =>
      if || (o.V == 0 && o.I in {1, 2, 3}) || (o.V == 0 && Rem(o.I, 10) !in {4, 6, 9})
         || (o.V != 0 && Rem(o.F, 10) !in {4, 6, 9})
      then One else Other
    case Lv =>
      if || NModEqualsAny(o, 10, {0}) || NModInRange(o, 100, 11, 19)
         || (o.V == 2 && IntInRange(Rem(o.F, 100), 11, 19))
      then Zero
      else if || (NModEqualsAny(o, 10, {1}) && !NModEqualsAny(o, 100, {11}))
              || (o.V == 2 && Rem(o.F, 10) == 1 && Rem(o.F, 100) != 11)
              || (o.V != 2 && Rem(o.F, 10) == 1)
      then One else Other
    case Lag =>
      if NEqualsAny(o, {0}) then Zero else if o.I in {0, 1} && !NEqualsAny(o, {0}) then One else Other
    case Blo => if NEqualsAny(o, {0}) then Zero else if NEqualsAny(o, {1}) then One else Other
    case Ksh => if NEqualsAny(o, {0}) then Zero else if NEqualsAny(o, {1}) then One else Other
    case He =>
      if (o.I == 1 && o.V == 0) || (o.I == 0 && o.V != 0) then One
      else if o.I == 2 && o.V == 0 then Two else Other
    case Iu => if NEqualsAny(o, {1}) then One else if NEqualsAny(o, {2}) then Two else Other
    case Shi => if o.I == 0 || NEqualsAny(o, {1}) then One else if NInRange(o, 2, 10) then Few else Other
    case Mo =>
      if o.I == 1 && o.V == 0 then One
      else if o.V != 0 || NEqualsAny(o, {0}) || (!NEqualsAny(o, {1}) && NModInRange(o, 100, 1, 19)) then Few
      else Other
    case Bs =>
      if || (o.V == 0 && Rem(o.I, 10) == 1 && Rem(o.I, 100) != 11)
         || (Rem(o.F, 10) == 1 && Rem(o.F, 100) != 11)
      then One
      else if || (o.V == 0 && IntInRange(Rem(o.I, 10), 2, 4) && !IntInRange(Rem(o.I, 100), 12, 14))
              || (IntInRange(Rem(o.F, 10), 2, 4) && !IntInRange(Rem(o.F, 100), 12, 14))
      then Few else Other
    case Fr => if o.I in {0, 1} then One else if Millions(o) then Many else Other
    case Pt => if IntInRange(o.I, 0, 1) then One else if Millions(o) then Many else Other
    case Ca => if o.I == 1 && o.V == 0 then One else if Millions(o) then Many else Other
    case Es => if NEqualsAny(o, {1}) then One else if Millions(o) then Many else Other
    case Gd =>
      if NEqualsAny(o, {1, 11}) then One else if NEqualsAny(o, {2, 12}) then Two
      else if NInRange(o, 3, 10) || NInRange(o, 13, 19) then Few else Other
    case Sl =>
      if o.V == 0 && Rem(o.I, 100) == 1 then One
      else if o.V == 0 && Rem(o.I, 100) == 2 then Two
      else if (o.V == 0 && IntInRange(Rem(o.I, 100), 3, 4)) || o.V != 0 then Few else Other
    case Dsb =>
      if (o.V == 0 && Rem(o.I, 100) == 1) || Rem(o.F, 100) == 1 then One
      else if (o.V == 0 && Rem(o.I, 100) == 2) || Rem(o.F, 100) == 2 then Two
      else if (o.V == 0 && IntInRange(Rem(o.I, 100), 3, 4)) || IntInRange(Rem(o.F, 100), 3, 4) then Few
      else Other
    case Cs =>
      if o.I == 1 && o.V == 0 then One
      else if IntInRange(o.I, 2, 4) && o.V == 0 then Few
      else if o.V != 0 then Many else Other
    case Pl =>
      if o.I == 1 && o.V == 0 then One
      else if o.V == 0 && IntInRange(Rem(o.I, 10), 2, 4) && !IntInRange(Rem(o.I, 100), 12, 14) then Few
      else if || (o.V == 0 && o.I != 1 && IntInRange(Rem(o.I, 10), 0, 1))
              || (o.V == 0 && IntInRange(Rem(o.I, 10), 5, 9))
              || (o.V == 0 && IntInRange(Rem(o.I, 100), 12, 14))
      then Many else Other
    case Be =>
      if NModEqualsAny(o, 10, {1}) && !NModEqualsAny(o, 100, {11}) then One
      else if NModInRange(o, 10, 2, 4) && !NModInRange(o, 100, 12, 14) then Few
      else if NModEqualsAny(o, 10, {0}) || NModInRange(o, 10, 5, 9) || NModInRange(o, 100, 11, 14) then Many
      else Other
    case Lt =>
      if NModEqualsAny(o, 10, {1}) && !NModInRange(o, 100, 11, 19) then One
      else if NModInRange(o, 10, 2, 9) && !NModInRange(o, 100, 11, 19) then Few
      else if o.F != 0 then Many else Other
    case Ru =>
      if o.V == 0 && Rem(o.I, 10) == 1 && Rem(o.I, 100) != 11 then One
      else if o.V == 0 && IntInRange(Rem(o.I, 10), 2, 4) && !IntInRange(Rem(o.I, 100), 12, 14) then Few
      else if || (o.V == 0 && Rem(o.I, 10) == 0) || (o.V == 0 && IntInRange(Rem(o.I, 10), 5, 9))
              || (o.V == 0 && IntInRange(Rem(o.I, 100), 11, 14))
      then Many else Other
    case Br =>
      if NModEqualsAny(o, 10, {1}) && !NModEqualsAny(o, 100, {11, 71, 91}) then One
      else if NModEqualsAny(o, 10, {2}) && !NModEqualsAny(o, 100, {12, 72, 92}) then Two
      else if && (NModInRange(o, 10, 3, 4) || NModEqualsAny(o, 10, {9}))
              && !(NModInRange(o, 100, 10, 19) || NModInRange(o, 100, 70, 79) || NModInRange(o, 100, 90, 99))
      then Few
      else if !NEqualsAny(o, {0}) && NModEqualsAny(o, 1000000, {0}) then Many else Other
    case Mt =>
      if NEqualsAny(o, {1}) then One else if NEqualsAny(o, {2}) then Two
      else if NEqualsAny(o, {0}) || NModInRange(o, 100, 3, 10) then Few
      else if NModInRange(o, 100, 11, 19) then Many else Other
    case Ga =>
      if NEqualsAny(o, {1}) then One else if NEqualsAny(o, {2}) then Two
      else if NInRange(o, 3, 6) then Few else if NInRange(o, 7, 10) then Many else Other
    case Gv =>
      if o.V == 0 && Rem(o.I, 10) == 1 then One
      else if o.V == 0 && Rem(o.I, 10) == 2 then Two
      else if o.V == 0 && Rem(o.I, 100) in {0, 20, 40, 60, 80} then Few
      else if o.V != 0 then Many else Other
    case Kw =>
      if NEqualsAny(o, {0}) then Zero else if NEqualsAny(o, {1}) then One
      else if || NModEqualsAny(o, 100, {2, 22, 42, 62, 82})
              || (&& NModEqualsAny(o, 1000, {0})
                  && (NModInRange(o, 100000, 1000, 20000) || NModEqualsAny(o, 100000, {40000, 60000, 80000})))
              || (!NEqualsAny(o, {0}) && NModEqualsAny(o, 1000000, {100000}))
      then Two
      else if NModEqualsAny(o, 100, {3, 23, 43, 63, 83}) then Few
      else if !NEqualsAny(o, {1}) && NModEqualsAny(o, 100, {1, 21, 41, 61, 81}) then Many else Other
    case Ar =>
      if NEqualsAny(o, {0}) then Zero else if NEqualsAny(o, {1}) then One else if NEqualsAny(o, {2}) then Two
      else if NModInRange(o, 100, 3, 10) then Few else if NModInRange(o, 100, 11, 99) then Many else Other
    case Cy =>
      if NEqualsAny(o, {0}) then Zero else if NEqualsAny(o, {1}) then One else if NEqualsAny(o, {2}) then Two
      else if NEqualsAny(o, {3}) then Few else if NEqualsAny(o, {6}) then Many else Other
  }

  /** The forms a rule declares. */
  function PluralForms(rule: Rule): set<Form> {
    match rule
    case Bm => {Other}
    case Am | Ff | Ast | Si | Ak | Tzm | Af | Da | Is | Mk | Ceb => {One, Other}
    case Lv | Lag | Blo | Ksh => {Zero, One, Other}
    case He | Iu => {One, Two, Other}
    case Shi | Mo | Bs => {One, Few, Other}
    case Fr | Pt | Ca | Es => {One, Many, Other}
    case Gd | Sl | Dsb => {One, Two, Few, Other}
    case Cs | Pl | Be | Lt | Ru => {One, Few, Many, Other}
    case Br | Mt | Ga | Gv => {One, Two, Few, Many, Other}
    case Kw | Ar | Cy => {Zero, One, Two, Few, Many, Other}
  }

  // ---------- What the relations on n decide ----------

  /** n equals the integer x. */
  ghost predicate Equals(n: Number, x: int) {
    x >= 0 && Same(n, Number(x, 0))
  }

  /** n modulo m, for a number with fraction digits. */
  function Modulo(n: Number, m: nat): Number
    requires n.scale >= 0 && m > 0
    ensures Modulo(n, m).scale == n.scale
  {
    ScaledBounds(m, n.scale);
    Number(n.mantissa % Scaled(m, n.scale), n.scale)
  }

  lemma IntegerValue(o: Operands, x: int)
    requires Canonical(o)
    ensures Equals(N(o), x) <==> o.I == x && o.T == 0
  {
    if x >= 0 {
      ScaledBounds(1, o.V);
      Quotient(o.I, o.F, x, 0, o.V);
    }
  }

  /** The exact remainder of n has the remainder of i before the point and f behind it. */
  lemma ModuloParts(o: Operands, m: int)
    requires Canonical(o) && m > 0
    ensures Canonical(o.(I := o.I % m))
    ensures Modulo(N(o), m) == N(o.(I := o.I % m))
  {
    var q, r, v := o.I / m, o.I % m, o.V;
    var x, y := Scaled(m, v), Scaled(r, v) + o.F;
    assert o.I == q * m + r;
    ScaledSum(q * m, r, v);
    ScaledProduct(q, m, v);
    ScaledSum(r, m - r, v);
    ScaledBounds(m - r, v);
    RemainderUnique(q, x, y);
  }

  /** Each predicate on n decides its relation on the exact decimal value. */
  lemma NPredicatesExact(o: Operands, m: int, xs: set<int>, from: int, to: int)
    requires Canonical(o) && m > 0
    ensures NEqualsAny(o, xs) <==> exists x :: x in xs && Equals(N(o), x)
    ensures NInRange(o, from, to) <==> exists x :: from <= x <= to && Equals(N(o), x)
    ensures NModEqualsAny(o, m, xs) <==> exists x :: x in xs && Equals(Modulo(N(o), m), x)
    ensures NModInRange(o, m, from, to) <==> exists x :: from <= x <= to && Equals(Modulo(N(o), m), x)
  {
    var r := o.(I := o.I % m);
    ModuloParts(o, m);
    IsExactly(o);
    IsExactly(r);
    assert o.T == 0 ==> Equals(N(o), o.I) && Equals(N(r), r.I);
  }

  lemma IsExactly(o: Operands)
    requires Canonical(o)
    ensures forall x :: Equals(N(o), x) <==> o.I == x && o.T == 0
  {
    forall x: int ensures Equals(N(o), x) <==> o.I == x && o.T == 0 {
      IntegerValue(o, x);
    }
  }

  // ---------- What each rule looks at ----------

  function Integer(i: int): Operands {
    Operands(i, 0, 0, 0, 0, 0)
  }

  /** i.d with one non-zero digit behind the point, and the same number written with a zero more. */
  function Tenth(i: int, d: int): Operands {
    Operands(i, 1, 1, d, d, 0)
  }

  function WithZero(o: Operands): Operands {
    o.(V := o.V + 1, F := 10 * o.F)
  }

  predicate ReadsValueOnly(rule: Rule) {
    rule in {Bm, Am, Ff, Ak, Tzm, Af, Da, Is, Lag, Blo, Ksh, Iu, Shi, Gd, Be, Lt, Br, Mt, Ga, Kw, Ar, Cy}
  }

  ghost predicate DependsOnValueOnly(rule: Rule) {
    forall a, b :: Canonical(a) && Canonical(b) && Same(N(a), N(b)) ==> PluralForm(rule, a) == PluralForm(rule, b)
  }

  /** An example that a rule tells apart from the same number with one more trailing zero. */
  function ZeroSensitive(rule: Rule): Operands {
    if rule == Si then Tenth(0, 1) else if rule == Lv then Tenth(1, 1)
    else Integer(if rule == Ceb then 4 else if rule in {Fr, Pt, Ca, Es} then 1000000 else 1)
  }

  lemma EqualValues(a: Operands, b: Operands)
    requires Canonical(a) && Canonical(b) && Same(N(a), N(b))
    ensures a.I == b.I && a.T == b.T && (a.F == 0 <==> b.F == 0)
  {
    if a.V <= b.V {
      ValueDeterminesOperands(a, b);
    } else {
      SameSymmetric(N(a), N(b));
      ValueDeterminesOperands(b, a);
    }
  }

  lemma SameForm(rule: Rule, a: Operands, b: Operands)
    requires ReadsValueOnly(rule)
    requires a.I == b.I && a.T == b.T && (a.F == 0 <==> b.F == 0)
    ensures PluralForm(rule, a) == PluralForm(rule, b)
  {
    if rule in {Bm, Am, Ff, Ak, Tzm, Af, Da, Is, Lag, Blo, Ksh, Iu} {
      SameFormSmall(rule, a, b);
    } else {
      SameFormLarge(rule, a, b);
    }
  }

  lemma SameFormSmall(rule: Rule, a: Operands, b: Operands)
    requires rule in {Bm, Am, Ff, Ak, Tzm, Af, Da, Is, Lag, Blo, Ksh, Iu}
    requires a.I == b.I && a.T == b.T
    ensures PluralForm(rule, a) == PluralForm(rule, b)
  {}

  lemma SameFormLarge(rule: Rule, a: Operands, b: Operands)
    requires rule in {Shi, Gd, Be, Lt, Br, Mt, Ga, Kw, Ar, Cy}
    requires a.I == b.I && a.T == b.T && (a.F == 0 <==> b.F == 0)
    ensures PluralForm(rule, a) == PluralForm(rule, b)
  {}

  lemma ZeroAppended(o: Operands)
    requires Canonical(o)
    ensures Canonical(WithZero(o)) && Same(N(o), N(WithZero(o)))
  {
    ScaledTwice(o.I, o.V, 1);
  }

  lemma SimpleOperands(i: nat, d: nat)
    requires 0 < d < 10
    ensures Canonical(Integer(i)) && Canonical(Tenth(i, d))
  {}

  lemma TenthsAreSensitive(rule: Rule)
    requires rule in {Si, Lv, Ceb}
    ensures PluralForm(rule, ZeroSensitive(rule)) != PluralForm(rule, WithZero(ZeroSensitive(rule)))
  {}

  lemma MillionsAreSensitive(rule: Rule)
    requires rule in {Fr, Pt, Ca, Es}
    ensures PluralForm(rule, Integer(1000000)) != PluralForm(rule, WithZero(Integer(1000000)))
  {}

  lemma OneIsSensitive(rule: Rule)
    requires rule in {Ast, Mk, He, Mo, Bs, Sl, Dsb, Cs, Pl, Ru, Gv}
    ensures PluralForm(rule, Integer(1)) != PluralForm(rule, WithZero(Integer(1)))
  {}

  lemma ZeroSensitiveForms(rule: Rule)
    requires !ReadsValueOnly(rule)
    ensures PluralForm(rule, ZeroSensitive(rule)) != PluralForm(rule, WithZero(ZeroSensitive(rule)))
  {
    if rule in {Si, Lv, Ceb} {
      TenthsAreSensitive(rule);
    } else if rule in {Fr, Pt, Ca, Es} {
      MillionsAreSensitive(rule);
    } else {
      OneIsSensitive(rule);
    }
  }

  lemma IntegerCanonical(i: nat)
    ensures Canonical(Integer(i))
  {}

  lemma ZeroSensitiveCanonical(rule: Rule)
    ensures Canonical(ZeroSensitive(rule))
  {
    if rule == Si {
      SimpleOperands(0, 1);
    } else if rule == Lv {
      SimpleOperands(1, 1);
    } else {
      IntegerCanonical(ZeroSensitive(rule).I);
    }
  }

  /** Exactly these rules depend on the value alone, so that 1, 1.0 and 10e-1 get the same form. */
  lemma ValueOnlyRules(rule: Rule)
    ensures DependsOnValueOnly(rule) <==> ReadsValueOnly(rule)
  {
    if ReadsValueOnly(rule) {
      forall a, b | Canonical(a) && Canonical(b) && Same(N(a), N(b))
        ensures PluralForm(rule, a) == PluralForm(rule, b)
      {
        EqualValues(a, b);
        SameForm(rule, a, b);
      }
    } else {
      ZeroSensitiveForms(rule);
      ZeroSensitiveCanonical(rule);
      ZeroAppended(ZeroSensitive(rule));
    }
  }

  lemma IgnoresExponent(rule: Rule, o: Operands, c: int)
    requires rule !in {Fr, Pt, Ca, Es}
    ensures PluralForm(rule, o) == PluralForm(rule, o.(C := c))
  {
    if ReadsValueOnly(rule) {
      SameForm(rule, o, o.(C := c));
    } else {
      FractionRuleIgnoresExponent(rule, o, c);
    }
  }

  lemma FractionRuleIgnoresExponent(rule: Rule, o: Operands, c: int)
    requires rule in {Ast, Si, Mk, Ceb, Lv, He, Mo, Bs, Sl, Dsb, Cs, Pl, Ru, Gv}
    ensures PluralForm(rule, o) == PluralForm(rule, o.(C := c))
  {}

  lemma CompactMillions(rule: Rule)
    requires rule in {Fr, Pt, Ca, Es}
    ensures PluralForm(rule, Integer(1500000)) != PluralForm(rule, Integer(1500000).(C := 6))
  {}

  /** Exactly fr, pt, ca and es tell a number from the same number in compact notation. */
  lemma ExponentRules(rule: Rule)
    ensures (forall o: Operands, c: int :: PluralForm(rule, o) == PluralForm(rule, o.(C := c)))
      <==> rule !in {Fr, Pt, Ca, Es}
  {
    if rule in {Fr, Pt, Ca, Es} {
      CompactMillions(rule);
    } else {
      forall o: Operands, c: int ensures PluralForm(rule, o) == PluralForm(rule, o.(C := c)) {
        IgnoresExponent(rule, o, c);
      }
    }
  }

  /** Equal literals, however written, get equal forms from the rules that look at the value. */
  lemma EqualLiteralsEqualForms(rule: Rule, x: string, y: string, floatOk: string -> bool)
    requires ReadsValueOnly(rule)
    requires Literal(x) && OperandsOfString(x, floatOk).Some? && ExponentOf(WithoutSign(x)) != Some(MIN_INT64)
    requires Literal(y) && OperandsOfString(y, floatOk).Some? && ExponentOf(WithoutSign(y)) != Some(MIN_INT64)
    requires Same(AbsoluteValue(x), AbsoluteValue(y))
    ensures PluralForm(rule, OperandsOfString(x, floatOk).value) == PluralForm(rule, OperandsOfString(y, floatOk).value)
  {
    EqualLiterals(x, y, floatOk);
    OperandsExact(x, floatOk);
    OperandsExact(y, floatOk);
    SameForm(rule, OperandsOfString(x, floatOk).value, OperandsOfString(y, floatOk).value);
  }

  /** A literal and its expansion get equal forms from every rule that does not read c. */
  lemma ExpansionKeepsForm(rule: Rule, s: string, floatOk: string -> bool)
    requires rule !in {Fr, Pt, Ca, Es}
    requires Literal(s) && OperandsOfString(s, floatOk).Some? && floatOk(Expanded(s))
    ensures Expanded(s) != "" && OperandsOfString(Expanded(s), floatOk).Some?
    ensures PluralForm(rule, OperandsOfString(Expanded(s), floatOk).value)
      == PluralForm(rule, OperandsOfString(s, floatOk).value)
  {
    ExponentExpansion(s, floatOk);
    ExponentRules(rule);
  }

  // ---------- What the rules return ----------

  ghost predicate IsInteger(n: Number) {
    exists x :: Equals(n, x)
  }

  lemma FractionForms(o: Operands)
    requires Canonical(o)
    ensures PluralForm(Ru, o) == Other <==> o.V != 0
    ensures PluralForm(Pl, o) == Other <==> o.V != 0
  {}

  lemma IntegerForms(o: Operands)
    requires Canonical(o)
    ensures PluralForm(Be, o) == Other <==> o.T != 0
    ensures PluralForm(Lt, o) == Many <==> o.T != 0
  {}

  /** ru, uk and pl keep Other for visible fractions; be and lt split integers from the rest. */
  lemma SlavicPartition(o: Operands)
    requires Canonical(o)
    ensures PluralForm(Ru, o) == Other <==> o.V != 0
    ensures PluralForm(Pl, o) == Other <==> o.V != 0
    ensures PluralForm(Be, o) == Other <==> !IsInteger(N(o))
    ensures PluralForm(Lt, o) == Many <==> !IsInteger(N(o))
  {
    FractionForms(o);
    IntegerForms(o);
    IsExactly(o);
    assert o.T == 0 ==> Equals(N(o), o.I);
  }

  /** The forms of integers in ru and uk repeat with period 100. */
  lemma RussianPeriod(i: nat, k: nat)
    ensures PluralForm(Ru, Integer(i)) == PluralForm(Ru, Integer(i + 100 * k))
  {
    LastDigits(i, k);
  }

  lemma LastDigits(i: nat, k: nat)
    ensures (i + 100 * k) % 100 == i % 100 && (i + 100 * k) % 10 == i % 10
  {
    Remainder(i, k, 100);
    Remainder(i, 10 * k, 10);
  }

  lemma Remainder(i: nat, k: nat, m: nat)
    requires m > 0
    ensures (i + m * k) % m == i % m
  {
    var q, r := i / m, i % m;
    assert i + m * k == (q + k) * m + r;
    RemainderUnique(q + k, m, r);
  }

  /** ru and be agree on integers. */
  lemma RussianIsBelarusian(i: nat)
    ensures PluralForm(Ru, Integer(i)) == PluralForm(Be, Integer(i))
  {}

  ghost predicate Returns(rule: Rule, form: Form) {
    exists o :: Canonical(o) && PluralForm(rule, o) == form
  }

  lemma ReturnsZero(rule: Rule)
    requires Zero in PluralForms(rule)
    ensures Returns(rule, Zero)
  {
    assert PluralForm(rule, Integer(0)) == Zero;
  }

  lemma ReturnsOne(rule: Rule)
    requires One in PluralForms(rule)
    ensures Returns(rule, One)
  {
    assert PluralForm(rule, Integer(1)) == One;
  }

  lemma ReturnsTwo(rule: Rule)
    requires Two in PluralForms(rule)
    ensures Returns(rule, Two)
  {
    assert PluralForm(rule, Integer(2)) == Two;
  }

  lemma FewInteger(rule: Rule)
    requires Few in PluralForms(rule) && rule != Gv
    ensures PluralForm(rule, Integer(3)) == Few
  {}

  lemma FewManx()
    ensures PluralForm(Gv, Integer(20)) == Few
  {}

  lemma ReturnsFew(rule: Rule)
    requires Few in PluralForms(rule)
    ensures Returns(rule, Few)
  {
    if rule == Gv {
      IntegerCanonical(20);
      FewManx();
    } else {
      IntegerCanonical(3);
      FewInteger(rule);
    }
  }

  function ManySample(rule: Rule): nat {
    match rule
    case Fr | Pt | Ca | Es | Br => 1000000
    case Pl | Be | Ru => 5
    case Ga => 7
    case Kw => 21
    case Cy => 6
    case _ => 11
  }

  lemma ManyTenth(rule: Rule)
    requires rule in {Cs, Lt, Gv}
    ensures PluralForm(rule, Tenth(1, 5)) == Many
  {}

  lemma ManyInteger(rule: Rule)
    requires Many in PluralForms(rule) && rule !in {Cs, Lt, Gv}
    ensures PluralForm(rule, Integer(ManySample(rule))) == Many
  {}

  lemma ReturnsMany(rule: Rule)
    requires Many in PluralForms(rule)
    ensures Returns(rule, Many)
  {
    SimpleOperands(1, 5);
    if rule in {Cs, Lt, Gv} {
      ManyTenth(rule);
    } else {
      ManyInteger(rule);
    }
  }

  function OtherSample(rule: Rule): nat {
    match rule
    case Ceb => 4
    case Mo => 20
    case Lt => 10
    case Gv => 3
    case _ => 5
  }

  lemma OtherTenth(rule: Rule)
    requires rule !in {Ceb, Mo, Sl, Cs, Lt, Gv}
    ensures PluralForm(rule, Tenth(2, 5)) == Other
  {}

  lemma OtherInteger(rule: Rule)
    requires rule in {Ceb, Mo, Sl, Cs, Lt, Gv}
    ensures PluralForm(rule, Integer(OtherSample(rule))) == Other
  {}

  lemma ReturnsOther(rule: Rule)
    ensures Returns(rule, Other)
  {
    SimpleOperands(2, 5);
    if rule in {Ceb, Mo, Sl, Cs, Lt, Gv} {
      OtherInteger(rule);
    } else {
      OtherTenth(rule);
    }
  }

  lemma OnlyDeclared(rule: Rule, o: Operands)
    ensures PluralForm(rule, o) in PluralForms(rule)
  {}

  /** The declared forms of a rule are exactly the ones it returns for numbers. */
  lemma DeclaredForms(rule: Rule, form: Form)
    ensures form in PluralForms(rule) <==> Returns(rule, form)
  {
    if form in PluralForms(rule) {
      match form {
        case Zero => ReturnsZero(rule);
        case One => ReturnsOne(rule);
        case Two => ReturnsTwo(rule);
        case Few => ReturnsFew(rule);
        case Many => ReturnsMany(rule);
        case Other => ReturnsOther(rule);
      }
    } else if Returns(rule, form) {
      var o :| Canonical(o) && PluralForm(rule, o) == form;
      OnlyDeclared(rule, o);
      assert false;
    }
  }

  // ---------- The least int64 ----------

  /** Go's remainder: the quotient is cut off towards zero, so the sign is that of the dividend. */
  lemma RemTruncates(a: int, m: int) returns (q: int)
    requires m > 0
    ensures a == q * m + Rem(a, m) && -m < Rem(a, m) < m
    ensures (a >= 0 ==> Rem(a, m) >= 0) && (a <= 0 ==> Rem(a, m) <= 0)
  {
    q := if a >= 0 then a / m else -((-a) / m);
  }

  const SIGN_SENSITIVE := {Ar, Be, Lt, Mo, Mt, Pl, Ru}

  /** The operands of the least int64, and those of the same number without its sign. */
  lemma LeastRemainders() returns (o: Operands, p: Operands)
    ensures o == OperandsOfInt(MIN_INT64) == Integer(MIN_INT64) && p == Integer(-MIN_INT64)
    ensures Rem(o.I, 10) == Rem(o.I, 100) == -8 && Rem(p.I, 10) == Rem(p.I, 100) == 8
  {
    o, p := Integer(MIN_INT64), Integer(-MIN_INT64);
  }

  lemma LeastIntDiffers(rule: Rule)
    requires rule in SIGN_SENSITIVE
    ensures PluralForm(rule, Integer(MIN_INT64)) == Other && PluralForm(rule, Integer(-MIN_INT64)) in {Many, Few}
  {
    var o, p := LeastRemainders();
  }

  lemma LeastIntAgreesFirst(rule: Rule)
    requires rule in {Bm, Am, Ff, Ast, Si, Ak, Tzm, Af, Da, Is, Mk, Ceb, Lv, Lag, Blo, Ksh, He}
    ensures PluralForm(rule, Integer(MIN_INT64)) == PluralForm(rule, Integer(-MIN_INT64))
  {
    var o, p := LeastRemainders();
  }

  lemma LeastIntAgreesSecond(rule: Rule)
    requires rule in {Iu, Shi, Bs, Fr, Pt, Ca, Es, Gd}
    ensures PluralForm(rule, Integer(MIN_INT64)) == PluralForm(rule, Integer(-MIN_INT64))
  {
    var o, p := LeastRemainders();
  }

  lemma LeastIntAgreesThird(rule: Rule)
    requires rule in {Sl, Dsb, Cs, Br, Ga, Gv, Kw, Cy}
    ensures PluralForm(rule, Integer(MIN_INT64)) == PluralForm(rule, Integer(-MIN_INT64))
  {
    var o, p := LeastRemainders();
  }

  /** The least int64 keeps its sign, and its remainders have it too: seven rules find no form for it but
      Other, where they have Many or Few for the same number without the sign; the others see no difference. */
  lemma LeastIntForms(rule: Rule)
    ensures PluralForm(rule, OperandsOfInt(MIN_INT64)) == PluralForm(rule, Integer(-MIN_INT64)) <==> rule !in SIGN_SENSITIVE
    ensures rule in SIGN_SENSITIVE ==> PluralForm(rule, OperandsOfInt(MIN_INT64)) == Other
  {
    var o, p := LeastRemainders();
    if rule in SIGN_SENSITIVE {
      LeastIntDiffers(rule);
    } else if rule in {Iu, Shi, Bs, Fr, Pt, Ca, Es, Gd} {
      LeastIntAgreesSecond(rule);
    } else if rule in {Sl, Dsb, Cs, Br, Ga, Gv, Kw, Cy} {
      LeastIntAgreesThird(rule);
    } else {
      LeastIntAgreesFirst(rule);
    }
  }
}
