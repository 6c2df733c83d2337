/** The plural rules as CLDR writes them: conditions on the operands with the meaning that UTS #35
    Part 3, section 5.1.2, gives to their relations. The form functions compute exactly these. */
module CldrRules {
  import opened Decimal
  import opened PluralOperands
  import opened PluralRules

  datatype Symbol = SymN | SymI | SymV | SymF | SymT | SymE

  /** A relation says that an operand, modulo a number unless that is zero, is in a range or a set. */
  datatype Condition =
    | In(symbol: Symbol, mod: nat, from: int, to: int)
    | Among(operand: Symbol, modulus: nat, values: set<int>)
    | Not(negated: Condition)
    | And(left: Condition, right: Condition)
    | Or(first: Condition, second: Condition)

  /** The forms of a rule with their conditions, in order. */
  datatype Cases = Otherwise(form: Form) | When(condition: Condition, chosen: Form, rest: Cases)

  /** The whole operands; n is not one of them. */
  function WholeOperand(symbol: Symbol, o: Operands): int {
    match symbol
    case SymI => o.I
    case SymV => o.V
    case SymF => o.F
    case SymT => o.T
    case _ => o.C
  }

  /** The operand, modulo a number or not, is the integer x; n is the exact decimal value. */
  ghost predicate HasValue(symbol: Symbol, mod: nat, o: Operands, x: int)
    requires Canonical(o)
  {
    if symbol.SymN? then Equals(if mod == 0 then N(o) else Modulo(N(o), mod), x)
    else x == if mod == 0 then WholeOperand(symbol, o) else WholeOperand(symbol, o) % mod
  }

  ghost predicate Holds(c: Condition, o: Operands)
    requires Canonical(o)
    decreases c
  {
    match c
    case In(symbol, mod, from, to) => exists x :: from <= x <= to && HasValue(symbol, mod, o, x)
    case Among(symbol, mod, xs) => exists x :: x in xs && HasValue(symbol, mod, o, x)
    case Not(d) => !Holds(d, o)
    case And(d, e) => Holds(d, o) && Holds(e, o)
    case Or(d, e) => Holds(d, o) || Holds(e, o)
  }

  ghost function CldrForm(cases: Cases, o: Operands): Form
    requires Canonical(o)
    decreases cases
  {
    match cases
    case Otherwise(form) => form
    case When(c, form, rest) => if Holds(c, o) then form else CldrForm(rest, o)
  }

  // ---------- The rules ----------

  function Eq(s: Symbol, x: int): Condition { Among(s, 0, {x}) }
  function Ne(s: Symbol, x: int): Condition { Not(Among(s, 0, {x})) }
  function ModEq(s: Symbol, m: nat, x: int): Condition { Among(s, m, {x}) }
  function ModNe(s: Symbol, m: nat, x: int): Condition { Not(Among(s, m, {x})) }
  function NotIn(s: Symbol, m: nat, from: int, to: int): Condition { Not(In(s, m, from, to)) }
  function NotAmong(s: Symbol, m: nat, xs: set<int>): Condition { Not(Among(s, m, xs)) }
  function And3(a: Condition, b: Condition, c: Condition): Condition { And(a, And(b, c)) }
  function Or3(a: Condition, b: Condition, c: Condition): Condition { Or(a, Or(b, c)) }

  function Case1(c: Condition, f: Form): Cases { When(c, f, Otherwise(Other)) }
  function Case2(c: Condition, f: Form, d: Condition, g: Form): Cases { When(c, f, Case1(d, g)) }

  /** v = 0 and the condition. */
  function Whole0(c: Condition): Condition { And(Eq(SymV, 0), c) }

  /** s % 10 = x and s % 100 != y. */
  function Tens(s: Symbol, x: int, y: int): Condition {
    And(ModEq(s, 10, x), ModNe(s, 100, y))
  }

  /** s % 10 = 2..4 and s % 100 != 12..14. */
  function TwoToFour(s: Symbol): Condition {
    And(In(s, 10, 2, 4), NotIn(s, 100, 12, 14))
  }

  /** i = 1 and v = 0. */
  function JustOne(): Condition { Whole0(Eq(SymI, 1)) }

  /** e = 0 and i != 0 and i % 1000000 = 0 and v = 0 or e != 0..5. */
  function MillionsCondition(): Condition {
    Or(And(Eq(SymE, 0), And3(Ne(SymI, 0), ModEq(SymI, 1000000, 0), Eq(SymV, 0))), NotIn(SymE, 0, 0, 5))
  }

  function RulesOne(rule: Rule): Cases {
    match rule
    case Am => Case1(Or(Eq(SymI, 0), Eq(SymN, 1)), One)
    case Ff => Case1(Among(SymI, 0, {0, 1}), One)
    case Ast => Case1(JustOne(), One)
    case Si => Case1(Or(Among(SymN, 0, {0, 1}), And(Eq(SymI, 0), Eq(SymF, 1))), One)
    case Ak => Case1(In(SymN, 0, 0, 1), One)
    case Tzm => Case1(Or(In(SymN, 0, 0, 1), In(SymN, 0, 11, 99)), One)
    case Af => Case1(Eq(SymN, 1), One)
    case Da => Case1(Or(Eq(SymN, 1), And(Ne(SymT, 0), Among(SymI, 0, {0, 1}))), One)
    case Is => Case1(Or(And(Eq(SymT, 0), Tens(SymI, 1, 11)), Tens(SymT, 1, 11)), One)
    case Mk => Case1(Or(Whole0(Tens(SymI, 1, 11)), Tens(SymF, 1, 11)), One)
    case Ceb =>
      Case1(Or3(Whole0(Among(SymI, 0, {1, 2, 3})), Whole0(NotAmong(SymI, 10, {4, 6, 9})),
                And(Ne(SymV, 0), NotAmong(SymF, 10, {4, 6, 9}))), One)
    case _ => Otherwise(Other)
  }

  function RulesTwo(rule: Rule): Cases {
    match rule
    case Lv =>
      Case2(Or3(ModEq(SymN, 10, 0), In(SymN, 100, 11, 19), And(Eq(SymV, 2), In(SymF, 100, 11, 19))), Zero,
            Or3(Tens(SymN, 1, 11), And(Eq(SymV, 2), Tens(SymF, 1, 11)), And(Ne(SymV, 2), ModEq(SymF, 10, 1))), One)
    case Lag => Case2(Eq(SymN, 0), Zero, And(Among(SymI, 0, {0, 1}), Ne(SymN, 0)), One)
    case Blo => Case2(Eq(SymN, 0), Zero, Eq(SymN, 1), One)
    case Ksh => Case2(Eq(SymN, 0), Zero, Eq(SymN, 1), One)
    case He => Case2(Or(JustOne(), And(Eq(SymI, 0), Ne(SymV, 0))), One, Whole0(Eq(SymI, 2)), Two)
    case Iu => Case2(Eq(SymN, 1), One, Eq(SymN, 2), Two)
    case Shi => Case2(Or(Eq(SymI, 0), Eq(SymN, 1)), One, In(SymN, 0, 2, 10), Few)
    case Mo => Case2(JustOne(), One, Or3(Ne(SymV, 0), Eq(SymN, 0), And(Ne(SymN, 1), In(SymN, 100, 1, 19))), Few)
    case Bs =>
      Case2(Or(Whole0(Tens(SymI, 1, 11)), Tens(SymF, 1, 11)), One,
            Or(Whole0(TwoToFour(SymI)), TwoToFour(SymF)), Few)
    case Fr => Case2(Among(SymI, 0, {0, 1}), One, MillionsCondition(), Many)
    case Pt => Case2(In(SymI, 0, 0, 1), One, MillionsCondition(), Many)
    case Ca => Case2(JustOne(), One, MillionsCondition(), Many)
    case Es => Case2(Eq(SymN, 1), One, MillionsCondition(), Many)
    case _ => Otherwise(Other)
  }

  function RulesThree(rule: Rule): Cases {
    match rule
    case Gd =>
      When(Among(SymN, 0, {1, 11}), One,
      Case2(Among(SymN, 0, {2, 12}), Two, Or(In(SymN, 0, 3, 10), In(SymN, 0, 13, 19)), Few))
    case Sl =>
      When(Whole0(ModEq(SymI, 100, 1)), One,
      Case2(Whole0(ModEq(SymI, 100, 2)), Two, Or(Whole0(In(SymI, 100, 3, 4)), Ne(SymV, 0)), Few))
    case Dsb =>
      When(Or(Whole0(ModEq(SymI, 100, 1)), ModEq(SymF, 100, 1)), One,
      Case2(Or(Whole0(ModEq(SymI, 100, 2)), ModEq(SymF, 100, 2)), Two,
            Or(Whole0(In(SymI, 100, 3, 4)), In(SymF, 100, 3, 4)), Few))
    case Cs => When(JustOne(), One, Case2(Whole0(In(SymI, 0, 2, 4)), Few, Ne(SymV, 0), Many))
    case Pl =>
      When(JustOne(), One,
      Case2(Whole0(TwoToFour(SymI)), Few,
            Or3(Whole0(And(Ne(SymI, 1), In(SymI, 10, 0, 1))), Whole0(In(SymI, 10, 5, 9)),
                Whole0(In(SymI, 100, 12, 14))), Many))
    case Be =>
      When(Tens(SymN, 1, 11), One,
      Case2(TwoToFour(SymN), Few, Or3(ModEq(SymN, 10, 0), In(SymN, 10, 5, 9), In(SymN, 100, 11, 14)), Many))
    case Lt =>
      When(And(ModEq(SymN, 10, 1), NotIn(SymN, 100, 11, 19)), One,
      Case2(And(In(SymN, 10, 2, 9), NotIn(SymN, 100, 11, 19)), Few, Ne(SymF, 0), Many))
    case Ru =>
      When(Whole0(Tens(SymI, 1, 11)), One,
      Case2(Whole0(TwoToFour(SymI)), Few,
            Or3(Whole0(ModEq(SymI, 10, 0)), Whole0(In(SymI, 10, 5, 9)), Whole0(In(SymI, 100, 11, 14))), Many))
    case _ => Otherwise(Other)
  }

  function RulesMore(rule: Rule): Cases {
    match rule
    case Br =>
      When(And(ModEq(SymN, 10, 1), NotAmong(SymN, 100, {11, 71, 91})), One,
      When(And(ModEq(SymN, 10, 2), NotAmong(SymN, 100, {12, 72, 92})), Two, BretonRest()))
    case Mt =>
      When(Eq(SymN, 1), One, When(Eq(SymN, 2), Two,
      Case2(Or(Eq(SymN, 0), In(SymN, 100, 3, 10)), Few, In(SymN, 100, 11, 19), Many)))
    case Ga =>
      When(Eq(SymN, 1), One, When(Eq(SymN, 2), Two, Case2(In(SymN, 0, 3, 6), Few, In(SymN, 0, 7, 10), Many)))
    case Gv =>
      When(Whole0(ModEq(SymI, 10, 1)), One, When(Whole0(ModEq(SymI, 10, 2)), Two,
      Case2(Whole0(Among(SymI, 100, {0, 20, 40, 60, 80})), Few, Ne(SymV, 0), Many)))
    case Kw => When(Eq(SymN, 0), Zero, When(Eq(SymN, 1), One, CornishRest()))
    case Ar =>
      When(Eq(SymN, 0), Zero, When(Eq(SymN, 1), One, When(Eq(SymN, 2), Two,
      Case2(In(SymN, 100, 3, 10), Few, In(SymN, 100, 11, 99), Many))))
    case Cy =>
      When(Eq(SymN, 0), Zero, When(Eq(SymN, 1), One, When(Eq(SymN, 2), Two,
      Case2(Eq(SymN, 3), Few, Eq(SymN, 6), Many))))
    case _ => Otherwise(Other)
  }

  function BretonRest(): Cases {
    Case2(And(Or(In(SymN, 10, 3, 4), ModEq(SymN, 10, 9)),
              And3(NotIn(SymN, 100, 10, 19), NotIn(SymN, 100, 70, 79), NotIn(SymN, 100, 90, 99))), Few,
          And(Ne(SymN, 0), ModEq(SymN, 1000000, 0)), Many)
  }

  function CornishRest(): Cases {
    When(Or3(Among(SymN, 100, {2, 22, 42, 62, 82}), And(ModEq(SymN, 1000, 0), CornishThousands()),
             And(Ne(SymN, 0), ModEq(SymN, 1000000, 100000))), Two,
    Case2(Among(SymN, 100, {3, 23, 43, 63, 83}), Few,
          And(Ne(SymN, 1), Among(SymN, 100, {1, 21, 41, 61, 81})), Many))
  }

  function CornishThousands(): Condition {
    Or(In(SymN, 100000, 1000, 20000), Among(SymN, 100000, {40000, 60000, 80000}))
  }

  function CldrRule(rule: Rule): Cases {
    match rule
    case Bm => Otherwise(Other)
    case Am | Ff | Ast | Si | Ak | Tzm | Af | Da | Is | Mk | Ceb => RulesOne(rule)
    case Lv | Lag | Blo | Ksh | He | Iu | Shi | Mo | Bs | Fr | Pt | Ca | Es => RulesTwo(rule)
    case Gd | Sl | Dsb | Cs | Pl | Be | Lt | Ru => RulesThree(rule)
    case Br | Mt | Ga | Gv | Kw | Ar | Cy => RulesMore(rule)
  }

  // ---------- Deciding conditions ----------

  function DecidedValue(symbol: Symbol, mod: nat, o: Operands): int {
    var i := if symbol.SymN? then o.I else WholeOperand(symbol, o);
    if mod == 0 then i else i % mod
  }

  predicate Decides(c: Condition, o: Operands)
    decreases c
  {
    match c
    case In(symbol, mod, from, to) => (symbol.SymN? ==> o.T == 0) && from <= DecidedValue(symbol, mod, o) <= to
    case Among(symbol, mod, xs) => (symbol.SymN? ==> o.T == 0) && DecidedValue(symbol, mod, o) in xs
    case Not(d) => !Decides(d, o)
    case And(d, e) => Decides(d, o) && Decides(e, o)
    case Or(d, e) => Decides(d, o) || Decides(e, o)
  }

  function DecidedForm(cases: Cases, o: Operands): Form
    decreases cases
  {
    match cases
    case Otherwise(form) => form
    case When(c, form, rest) => if Decides(c, o) then form else DecidedForm(rest, o)
  }

  lemma RelationDecided(symbol: Symbol, mod: nat, from: int, to: int, xs: set<int>, o: Operands)
    requires Canonical(o)
    ensures Holds(In(symbol, mod, from, to), o) <==> Decides(In(symbol, mod, from, to), o)
    ensures Holds(Among(symbol, mod, xs), o) <==> Decides(Among(symbol, mod, xs), o)
  {
    forall x: int ensures HasValue(symbol, mod, o, x) <==>
      (symbol.SymN? ==> o.T == 0) && x == DecidedValue(symbol, mod, o)
    {
      IntegerDecided(symbol, mod, o, x);
    }
    var x := DecidedValue(symbol, mod, o);
    assert Decides(In(symbol, mod, from, to), o) ==> HasValue(symbol, mod, o, x);
    assert Decides(Among(symbol, mod, xs), o) ==> HasValue(symbol, mod, o, x);
  }

  lemma IntegerDecided(symbol: Symbol, mod: nat, o: Operands, x: int)
    requires Canonical(o)
    ensures HasValue(symbol, mod, o, x) <==> (symbol.SymN? ==> o.T == 0) && x == DecidedValue(symbol, mod, o)
  {
    if symbol.SymN? {
      IntegerValue(o, x);
      if mod > 0 {
        ModuloParts(o, mod);
        IntegerValue(o.(I := o.I % mod), x);
      }
    }
  }

  /** A relation holds of the exact value exactly when its computation on the operands says so. */
  lemma {:induction false} DecidesHolds(c: Condition, o: Operands)
    requires Canonical(o)
    ensures Holds(c, o) <==> Decides(c, o)
    decreases c
  {
    match c
    case In(symbol, mod, from, to) => RelationDecided(symbol, mod, from, to, {}, o);
    case Among(symbol, mod, xs) => RelationDecided(symbol, mod, 0, 0, xs, o);
    case Not(d) => DecidesHolds(d, o);
    case And(d, e) => DecidesHolds(d, o); DecidesHolds(e, o);
    case Or(d, e) => DecidesHolds(d, o); DecidesHolds(e, o);
  }

  lemma {:induction false} DecidedIsCldr(cases: Cases, o: Operands)
    requires Canonical(o)
    ensures CldrForm(cases, o) == DecidedForm(cases, o)
    decreases cases
  {
    if cases.When? {
      DecidesHolds(cases.condition, o);
      DecidedIsCldr(cases.rest, o);
    }
  }

  // ---------- The form functions, a few rules at a time ----------

  predicate NoSign(o: Operands) {
    o.I >= 0 && o.F >= 0 && o.T >= 0
  }

  lemma UnitForms(o: Operands)
    requires NoSign(o)
    ensures PluralForm(Am, o) == DecidedForm(RulesOne(Am), o)
    ensures PluralForm(Ff, o) == DecidedForm(RulesOne(Ff), o)
    ensures PluralForm(Ast, o) == DecidedForm(RulesOne(Ast), o)
    ensures PluralForm(Ak, o) == DecidedForm(RulesOne(Ak), o)
    ensures PluralForm(Af, o) == DecidedForm(RulesOne(Af), o)
  {}

  lemma DanishForms(o: Operands)
    requires NoSign(o)
    ensures PluralForm(Si, o) == DecidedForm(RulesOne(Si), o)
    ensures PluralForm(Tzm, o) == DecidedForm(RulesOne(Tzm), o)
    ensures PluralForm(Da, o) == DecidedForm(RulesOne(Da), o)
  {}

  lemma ZeroForms(o: Operands)
    requires NoSign(o)
    ensures PluralForm(Lag, o) == DecidedForm(RulesTwo(Lag), o)
    ensures PluralForm(Blo, o) == DecidedForm(RulesTwo(Blo), o)
    ensures PluralForm(Ksh, o) == DecidedForm(RulesTwo(Ksh), o)
    ensures PluralForm(Iu, o) == DecidedForm(RulesTwo(Iu), o)
  {}

  lemma RomanianForms(o: Operands)
    requires NoSign(o)
    ensures PluralForm(Shi, o) == DecidedForm(RulesTwo(Shi), o)
    ensures PluralForm(Mo, o) == DecidedForm(RulesTwo(Mo), o)
  {}

  lemma GaelicForms(o: Operands)
    requires NoSign(o)
    ensures PluralForm(Gd, o) == DecidedForm(RulesThree(Gd), o)
    ensures PluralForm(Ga, o) == DecidedForm(RulesMore(Ga), o)
  {}

  lemma CzechForms(o: Operands)
    requires NoSign(o)
    ensures PluralForm(Cs, o) == DecidedForm(RulesThree(Cs), o)
    ensures PluralForm(He, o) == DecidedForm(RulesTwo(He), o)
  {}

  lemma RomanceForms(o: Operands)
    requires NoSign(o)
    ensures PluralForm(Fr, o) == DecidedForm(RulesTwo(Fr), o)
    ensures PluralForm(Pt, o) == DecidedForm(RulesTwo(Pt), o)
  {}

  lemma ItalianForms(o: Operands)
    requires NoSign(o)
    ensures PluralForm(Ca, o) == DecidedForm(RulesTwo(Ca), o)
  {}

  lemma SpanishForms(o: Operands)
    requires NoSign(o)
    ensures PluralForm(Es, o) == DecidedForm(RulesTwo(Es), o)
  {}

  lemma SloveneForms(o: Operands)
    requires NoSign(o)
    ensures PluralForm(Sl, o) == DecidedForm(RulesThree(Sl), o)
  {}

  lemma SorbianForms(o: Operands)
    requires NoSign(o)
    ensures PluralForm(Dsb, o) == DecidedForm(RulesThree(Dsb), o)
  {}

  lemma IcelandicForms(o: Operands)
    requires NoSign(o)
    ensures PluralForm(Is, o) == DecidedForm(RulesOne(Is), o)
  {}

  lemma MacedonianForms(o: Operands)
    requires NoSign(o)
    ensures PluralForm(Mk, o) == DecidedForm(RulesOne(Mk), o)
  {}

  lemma FilipinoForms(o: Operands)
    requires NoSign(o)
    ensures PluralForm(Ceb, o) == DecidedForm(RulesOne(Ceb), o)
  {}

  lemma SerbianForms(o: Operands)
    requires NoSign(o)
    ensures PluralForm(Bs, o) == DecidedForm(RulesTwo(Bs), o)
  {}

  lemma LatvianForms(o: Operands)
    requires NoSign(o)
    ensures PluralForm(Lv, o) == DecidedForm(RulesTwo(Lv), o)
  {}

  lemma LithuanianForms(o: Operands)
    requires NoSign(o)
    ensures PluralForm(Lt, o) == DecidedForm(RulesThree(Lt), o)
  {}

  lemma PolishForms(o: Operands)
    requires NoSign(o)
    ensures PluralForm(Pl, o) == DecidedForm(RulesThree(Pl), o)
  {}

  lemma RussianForms(o: Operands)
    requires NoSign(o)
    ensures PluralForm(Ru, o) == DecidedForm(RulesThree(Ru), o)
  {}

  lemma BelarusianForms(o: Operands)
    requires NoSign(o)
    ensures PluralForm(Be, o) == DecidedForm(RulesThree(Be), o)
  {}

  lemma MalteseForms(o: Operands)
    requires NoSign(o)
    ensures PluralForm(Mt, o) == DecidedForm(RulesMore(Mt), o)
  {}

  lemma ArabicForms(o: Operands)
    requires NoSign(o)
    ensures PluralForm(Ar, o) == DecidedForm(RulesMore(Ar), o)
  {}

  lemma ManxForms(o: Operands)
    requires NoSign(o)
    ensures PluralForm(Gv, o) == DecidedForm(RulesMore(Gv), o)
  {}

  lemma WelshForms(o: Operands)
    requires NoSign(o)
    ensures PluralForm(Cy, o) == DecidedForm(RulesMore(Cy), o)
  {}

  lemma BretonForms(o: Operands)
    requires NoSign(o)
    ensures PluralForm(Br, o) == DecidedForm(RulesMore(Br), o)
  {}

  lemma CornishForms(o: Operands)
    requires NoSign(o)
    ensures PluralForm(Kw, o) == DecidedForm(RulesMore(Kw), o)
  {}

  /** Every form function gives the first form whose CLDR condition is true of the exact value. */
  lemma CldrExact(rule: Rule, o: Operands)
    requires Canonical(o)
    ensures PluralForm(rule, o) == CldrForm(CldrRule(rule), o)
  {
    DecidedIsCldr(CldrRule(rule), o);
    match rule
    case Bm =>
    case Am | Ff | Ast | Ak | Af => UnitForms(o);
    case Si | Tzm | Da => DanishForms(o);
    case Lag | Blo | Ksh | Iu => ZeroForms(o);
    case Shi | Mo => RomanianForms(o);
    case Gd | Ga => GaelicForms(o);
    case Cs | He => CzechForms(o);
    case Fr | Pt => RomanceForms(o);
    case Ca => ItalianForms(o);
    case Es => SpanishForms(o);
    case Sl => SloveneForms(o);
    case Dsb => SorbianForms(o);
    case Is => IcelandicForms(o);
    case Mk => MacedonianForms(o);
    case Ceb => FilipinoForms(o);
    case Bs => SerbianForms(o);
    case Lv => LatvianForms(o);
    case Lt => LithuanianForms(o);
    case Pl => PolishForms(o);
    case Ru => RussianForms(o);
    case Be => BelarusianForms(o);
    case Mt => MalteseForms(o);
    case Ar => ArabicForms(o);
    case Gv => ManxForms(o);
    case Cy => WelshForms(o);
    case Br => BretonForms(o);
    case Kw => CornishForms(o);
  }

  /** The same for every literal that parses. */
  lemma LiteralForm(rule: Rule, s: string, floatOk: string -> bool)
    requires Literal(s) && OperandsOfString(s, floatOk).Some?
    ensures var o := OperandsOfString(s, floatOk).value;
      Canonical(o) && PluralForm(rule, o) == CldrForm(CldrRule(rule), o)
  {
    OperandsExact(s, floatOk);
    CldrExact(rule, OperandsOfString(s, floatOk).value);
  }
}
