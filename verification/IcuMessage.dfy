/** The fold of the options of a plural message into the fields of the message. */
module IcuMessage {
  import opened Atoi
  import opened Decimal
  import opened IcuOptions
  import opened IcuPlaceholders

  datatype Field = Zero | One | Two | Few | Many | Other

  datatype Message = Message(zero: string, one: string, two: string, few: string, many: string, other: string)

  datatype Parsed = Parsed(message: Message) | UnknownKey(key: string) | NoForms | BadBody(reason: Scanned)

  function Get(m: Message, f: Field): string {
    match f
    case Zero => m.zero
    case One => m.one
    case Two => m.two
    case Few => m.few
    case Many => m.many
    case Other => m.other
  }

  function Set(m: Message, f: Field, text: string): Message {
    match f
    case Zero => m.(zero := text)
    case One => m.(one := text)
    case Two => m.(two := text)
    case Few => m.(few := text)
    case Many => m.(many := text)
    case Other => m.(other := text)
  }

  /** What a key selects: a field by its name, a field by its number, nothing, or an error. */
  datatype Selector = Named(f: Field) | Exact(f: Field) | Ignored | Unknown

  function SelectorOf(key: string): Selector {
    if key == "zero" then Named(Zero) else if key == "one" then Named(One) else if key == "two" then Named(Two)
    else if key == "few" then Named(Few) else if key == "many" then Named(Many)
    else if key == "other" then Named(Other)
    else if key != "" && key[0] == '=' then
      var n := AtoiValue(key[1..]);
      if n == 0 then Exact(Zero) else if n == 1 then Exact(One) else if n == 2 then Exact(Two) else Ignored
    else Unknown
  }

  /** One option: a named form is stored, a numbered one only into an empty field. */
  function Apply(m: Message, key: string, text: string): Message {
    match SelectorOf(key)
    case Named(f) => Set(m, f, text)
    case Exact(f) => if Get(m, f) == "" then Set(m, f, text) else m
    case _ => m
  }

  const NO_TEXTS := Message("", "", "", "", "", "")

  /** The options folded from left to right; the first unknown key is an error. */
  function Fold(m: Message, opts: seq<Opt>, pluralVar: string): Parsed
    decreases |opts|
  {
    if opts == [] then Parsed(m)
    else if SelectorOf(opts[0].key).Unknown? then UnknownKey(opts[0].key)
    else Fold(Apply(m, opts[0].key, ConvertPlaceholders(opts[0].text, pluralVar)), opts[1..], pluralVar)
  }

  function PluralMessage(pluralVar: string, body: string): Parsed {
    var scanned := Scan(body, 0);
    if !scanned.Options? then BadBody(scanned)
    else if scanned.opts == [] then NoForms
    else Fold(NO_TEXTS, scanned.opts, pluralVar)
  }

  /** parseICU once the pattern has split off the plural variable and the body. */
  method ParsePlural(pluralVar: string, body: string) returns (r: Parsed)
    ensures r == PluralMessage(pluralVar, body)
  {
    var scanned := ExtractOptions(body);
    if !scanned.Options? {
      return BadBody(scanned);
    }
    if |scanned.opts| == 0 {
      return NoForms;
    }
    var m := NO_TEXTS;
    var n := 0;
    assert scanned.opts[0..] == scanned.opts;
    while n < |scanned.opts|
      invariant 0 <= n <= |scanned.opts|
      invariant Fold(NO_TEXTS, scanned.opts, pluralVar) == Fold(m, scanned.opts[n..], pluralVar)
    {
      var o := scanned.opts[n];
      assert scanned.opts[n..][1..] == scanned.opts[n + 1..];
      var text := ConvertPlaceholders(o.text, pluralVar);
      match SelectorOf(o.key) {
        case Named(f) => m := Set(m, f, text);
        case Exact(f) =>
          if Get(m, f) == "" {
            m := Set(m, f, text);
          }
        case Ignored =>
        case Unknown => return UnknownKey(o.key);
      }
      n := n + 1;
    }
    return Parsed(m);
  }

  // ---------- Order of the options ----------

  /** Options that fill the same field in the same way say the same, and all say something. With
      distinct selectors this is so. */
  ghost predicate Agreeing(opts: seq<Opt>) {
    && (forall a, b :: a in opts && b in opts && SelectorOf(a.key) == SelectorOf(b.key) && Fills(SelectorOf(a.key))
          ==> a.text == b.text)
    && (forall a :: a in opts ==> a.text != "")
  }

  predicate Fills(s: Selector) {
    s.Named? || s.Exact?
  }

  /** The text of the first option with the selector. */
  function TextOf(opts: seq<Opt>, s: Selector): Option<string> {
    if opts == [] then None
    else if SelectorOf(opts[0].key) == s then Some(opts[0].text)
    else TextOf(opts[1..], s)
  }

  /** The named form if there is one, else the numbered one in a field that was empty. */
  function FieldValue(opts: seq<Opt>, f: Field, pluralVar: string, before: string): string {
    var named, exact := TextOf(opts, Named(f)), TextOf(opts, Exact(f));
    if named.Some? then ConvertPlaceholders(named.value, pluralVar)
    else if before == "" && exact.Some? then ConvertPlaceholders(exact.value, pluralVar)
    else before
  }

  lemma {:induction false} TextOfMember(opts: seq<Opt>, s: Selector)
    ensures TextOf(opts, s).Some? <==> exists o :: o in opts && SelectorOf(o.key) == s
    ensures TextOf(opts, s).Some? ==> exists o :: o in opts && SelectorOf(o.key) == s && o.text == TextOf(opts, s).value
  {
    if opts != [] {
      TextOfMember(opts[1..], s);
      assert forall o :: o in opts <==> o == opts[0] || o in opts[1..];
    }
  }

  lemma GetSet(m: Message, f: Field, g: Field, text: string)
    ensures Get(Set(m, f, text), g) == if f == g then text else Get(m, g)
  {}

  lemma TextOfRest(opts: seq<Opt>, s: Selector)
    requires opts != [] && SelectorOf(opts[0].key) != s
    ensures TextOf(opts[1..], s) == TextOf(opts, s)
  {}

  /** One more named form in front. */
  lemma NamedStep(m: Message, opts: seq<Opt>, pluralVar: string, f: Field, g: Field)
    requires opts != [] && Agreeing(opts) && SelectorOf(opts[0].key) == Named(g)
    ensures var m' := Apply(m, opts[0].key, ConvertPlaceholders(opts[0].text, pluralVar));
      FieldValue(opts[1..], f, pluralVar, Get(m', f)) == FieldValue(opts, f, pluralVar, Get(m, f))
  {
    TextOfRest(opts, Exact(f));
    GetSet(m, g, f, ConvertPlaceholders(opts[0].text, pluralVar));
    if f == g {
      ConvertNonEmpty(opts[0].text, pluralVar);
      SameTextLater(opts, Named(g));
    } else {
      TextOfRest(opts, Named(f));
    }
  }

  /** One more numbered form in front. */
  lemma ExactStep(m: Message, opts: seq<Opt>, pluralVar: string, f: Field, g: Field)
    requires opts != [] && Agreeing(opts) && SelectorOf(opts[0].key) == Exact(g)
    ensures var m' := Apply(m, opts[0].key, ConvertPlaceholders(opts[0].text, pluralVar));
      FieldValue(opts[1..], f, pluralVar, Get(m', f)) == FieldValue(opts, f, pluralVar, Get(m, f))
  {
    TextOfRest(opts, Named(f));
    GetSet(m, g, f, ConvertPlaceholders(opts[0].text, pluralVar));
    if f == g {
      ConvertNonEmpty(opts[0].text, pluralVar);
      SameTextLater(opts, Exact(g));
    } else {
      TextOfRest(opts, Exact(f));
    }
  }

  /** One more option in front. */
  lemma FieldStep(m: Message, opts: seq<Opt>, pluralVar: string, f: Field)
    requires opts != [] && Agreeing(opts)
    ensures var m' := Apply(m, opts[0].key, ConvertPlaceholders(opts[0].text, pluralVar));
      FieldValue(opts[1..], f, pluralVar, Get(m', f)) == FieldValue(opts, f, pluralVar, Get(m, f))
  {
    match SelectorOf(opts[0].key)
    case Named(g) => NamedStep(m, opts, pluralVar, f, g);
    case Exact(g) => ExactStep(m, opts, pluralVar, f, g);
    case _ =>
      TextOfRest(opts, Named(f));
      TextOfRest(opts, Exact(f));
  }

  /** An option later in the list that fills the same field in the same way has the same text. */
  lemma SameTextLater(opts: seq<Opt>, s: Selector)
    requires opts != [] && Agreeing(opts) && SelectorOf(opts[0].key) == s && Fills(s)
    ensures opts[0].text != ""
    ensures TextOf(opts[1..], s).Some? ==> TextOf(opts[1..], s).value == opts[0].text
  {
    assert opts[0] in opts && forall x :: x in opts[1..] ==> x in opts;
    TextOfMember(opts[1..], s);
  }

  ghost predicate AnyUnknown(opts: seq<Opt>) {
    exists o :: o in opts && SelectorOf(o.key).Unknown?
  }

  /** The fold fails on unknown keys alone, and otherwise every field holds its named text, or else
      its numbered one. */
  lemma {:induction false} FoldFields(m: Message, opts: seq<Opt>, pluralVar: string, f: Field)
    requires Agreeing(opts)
    ensures Fold(m, opts, pluralVar).Parsed? <==> !AnyUnknown(opts)
    ensures !AnyUnknown(opts) ==>
      Get(Fold(m, opts, pluralVar).message, f) == FieldValue(opts, f, pluralVar, Get(m, f))
    decreases |opts|
  {
    if opts != [] {
      var m' := Apply(m, opts[0].key, ConvertPlaceholders(opts[0].text, pluralVar));
      assert forall o :: o in opts <==> o == opts[0] || o in opts[1..];
      FieldStep(m, opts, pluralVar, f);
      FoldFields(m', opts[1..], pluralVar, f);
    }
  }

  lemma SameTexts(a: seq<Opt>, b: seq<Opt>, s: Selector)
    requires multiset(a) == multiset(b) && Agreeing(a) && Fills(s)
    ensures TextOf(a, s) == TextOf(b, s)
  {
    SameOptions(a, b);
    TextOfMember(a, s);
    TextOfMember(b, s);
  }

  lemma SameOptions(a: seq<Opt>, b: seq<Opt>)
    requires multiset(a) == multiset(b)
    ensures forall o :: o in a <==> o in b
  {
    assert forall o :: o in a <==> o in multiset(a);
    assert forall o :: o in b <==> o in multiset(b);
  }

  lemma SameFields(m: Message, n: Message)
    requires forall f :: Get(m, f) == Get(n, f)
    ensures m == n
  {
    assert Get(m, Zero) == Get(n, Zero) && Get(m, One) == Get(n, One) && Get(m, Two) == Get(n, Two);
    assert Get(m, Few) == Get(n, Few) && Get(m, Many) == Get(n, Many) && Get(m, Other) == Get(n, Other);
  }

  /** The order of the options does not matter. */
  lemma OrderIrrelevant(a: seq<Opt>, b: seq<Opt>, pluralVar: string)
    requires multiset(a) == multiset(b) && Agreeing(a)
    ensures var x, y := Fold(NO_TEXTS, a, pluralVar), Fold(NO_TEXTS, b, pluralVar);
      (x.Parsed? || y.Parsed?) ==> x == y
  {
    SameOptions(a, b);
    FoldFields(NO_TEXTS, a, pluralVar, Zero);
    FoldFields(NO_TEXTS, b, pluralVar, Zero);
    if !AnyUnknown(a) {
      var x, y := Fold(NO_TEXTS, a, pluralVar).message, Fold(NO_TEXTS, b, pluralVar).message;
      forall f ensures Get(x, f) == Get(y, f) {
        FoldFields(NO_TEXTS, a, pluralVar, f);
        FoldFields(NO_TEXTS, b, pluralVar, f);
        SameTexts(a, b, Named(f));
        SameTexts(a, b, Exact(f));
      }
      SameFields(x, y);
    }
  }

  // ---------- When the order does not matter ----------

  function Converted(o: Opt, pluralVar: string): string {
    ConvertPlaceholders(o.text, pluralVar)
  }

  /** One field alone through the options. */
  function FieldStepValue(before: string, o: Opt, f: Field, pluralVar: string): string {
    if SelectorOf(o.key) == Named(f) || (SelectorOf(o.key) == Exact(f) && before == "")
    then Converted(o, pluralVar) else before
  }

  function FieldFold(before: string, opts: seq<Opt>, f: Field, pluralVar: string): string
    decreases |opts|
  {
    if opts == [] then before else FieldFold(FieldStepValue(before, opts[0], f, pluralVar), opts[1..], f, pluralVar)
  }

  lemma ApplyField(m: Message, o: Opt, pluralVar: string, f: Field)
    ensures Get(Apply(m, o.key, Converted(o, pluralVar)), f) == FieldStepValue(Get(m, f), o, f, pluralVar)
  {
    match SelectorOf(o.key)
    case Named(g) => GetSet(m, g, f, Converted(o, pluralVar));
    case Exact(g) => GetSet(m, g, f, Converted(o, pluralVar));
    case _ =>
  }

  lemma FrontOption(opts: seq<Opt>)
    requires opts != []
    ensures opts[0] in opts && forall o :: o in opts <==> o == opts[0] || o in opts[1..]
  {}

  lemma {:induction false} FoldOfField(m: Message, opts: seq<Opt>, pluralVar: string, f: Field)
    requires !AnyUnknown(opts)
    ensures Fold(m, opts, pluralVar).Parsed?
    ensures Get(Fold(m, opts, pluralVar).message, f) == FieldFold(Get(m, f), opts, f, pluralVar)
    decreases |opts|
  {
    if opts != [] {
      FrontOption(opts);
      ApplyField(m, opts[0], pluralVar, f);
      FoldOfField(Apply(m, opts[0].key, Converted(opts[0], pluralVar)), opts[1..], pluralVar, f);
    }
  }

  lemma FieldOfFold(opts: seq<Opt>, pluralVar: string, f: Field) returns (text: string)
    requires !AnyUnknown(opts)
    ensures Fold(NO_TEXTS, opts, pluralVar).Parsed?
    ensures text == Get(Fold(NO_TEXTS, opts, pluralVar).message, f) && text == FieldFold("", opts, f, pluralVar)
  {
    assert Get(NO_TEXTS, f) == "";
    FoldOfField(NO_TEXTS, opts, pluralVar, f);
    text := FieldFold("", opts, f, pluralVar);
  }

  lemma {:induction false} FirstUnknown(m: Message, opts: seq<Opt>, pluralVar: string) returns (o: Opt)
    requires AnyUnknown(opts)
    ensures o in opts && SelectorOf(o.key).Unknown? && Fold(m, opts, pluralVar) == UnknownKey(o.key)
    decreases |opts|
  {
    if SelectorOf(opts[0].key).Unknown? {
      o := opts[0];
    } else {
      assert forall x :: x in opts <==> x == opts[0] || x in opts[1..];
      o := FirstUnknown(Apply(m, opts[0].key, Converted(opts[0], pluralVar)), opts[1..], pluralVar);
    }
  }

  /** A numbered form that says something. */
  predicate FillsEmpty(o: Opt, f: Field) {
    SelectorOf(o.key) == Exact(f) && o.text != ""
  }

  ghost predicate HasNamed(opts: seq<Opt>, f: Field) {
    exists o :: o in opts && SelectorOf(o.key) == Named(f)
  }

  ghost predicate NamedAgree(opts: seq<Opt>, f: Field, pluralVar: string) {
    forall a, b :: a in opts && b in opts && SelectorOf(a.key) == SelectorOf(b.key) == Named(f) ==>
      Converted(a, pluralVar) == Converted(b, pluralVar)
  }

  ghost predicate EmptyNamedAlone(opts: seq<Opt>, f: Field) {
    forall a, b :: a in opts && b in opts && SelectorOf(a.key) == Named(f) && FillsEmpty(b, f) ==> a.text != ""
  }

  ghost predicate ExactAgree(opts: seq<Opt>, f: Field, pluralVar: string) {
    forall a, b :: a in opts && b in opts && FillsEmpty(a, f) && FillsEmpty(b, f) ==>
      Converted(a, pluralVar) == Converted(b, pluralVar)
  }

  /** The named forms of the field say the same; an empty one has no numbered one to fill the field
      again; without named forms, the numbered ones that say something say the same. */
  ghost predicate FieldFree(opts: seq<Opt>, f: Field, pluralVar: string) {
    && NamedAgree(opts, f, pluralVar)
    && EmptyNamedAlone(opts, f)
    && (HasNamed(opts, f) || ExactAgree(opts, f, pluralVar))
  }

  /** Unknown keys are all the same, or there are none and no field depends on the order. */
  ghost predicate OrderFree(opts: seq<Opt>, pluralVar: string) {
    if AnyUnknown(opts) then
      forall a, b :: a in opts && b in opts && SelectorOf(a.key).Unknown? && SelectorOf(b.key).Unknown? ==> a.key == b.key
    else forall f :: FieldFree(opts, f, pluralVar)
  }

  ghost predicate Reorders(a: seq<Opt>, b: seq<Opt>) {
    multiset(a) == multiset(b)
  }

  lemma {:induction false} FilledStays(before: string, opts: seq<Opt>, f: Field, pluralVar: string)
    requires before != "" && !HasNamed(opts, f)
    ensures FieldFold(before, opts, f, pluralVar) == before
    decreases |opts|
  {
    if opts != [] {
      FrontOption(opts);
      FilledStays(before, opts[1..], f, pluralVar);
    }
  }

  /** A field with named forms that all say the same something has their text. */
  lemma {:induction false} NamedValue(before: string, opts: seq<Opt>, f: Field, pluralVar: string, text: string)
    requires HasNamed(opts, f) && text != ""
    requires forall o :: o in opts && SelectorOf(o.key) == Named(f) ==> Converted(o, pluralVar) == text
    ensures FieldFold(before, opts, f, pluralVar) == text
    decreases |opts|
  {
    var rest, next := opts[1..], FieldStepValue(before, opts[0], f, pluralVar);
    FrontOption(opts);
    if HasNamed(rest, f) {
      NamedValue(next, rest, f, pluralVar, text);
    } else {
      FilledStays(next, rest, f, pluralVar);
    }
  }

  /** A field without named forms, or with empty ones alone, has the text of its numbered ones. */
  lemma {:induction false} ExactValue(opts: seq<Opt>, f: Field, pluralVar: string, text: string)
    requires forall o :: o in opts && SelectorOf(o.key) == Named(f) ==> o.text == "" && text == ""
    requires forall o :: o in opts && FillsEmpty(o, f) ==> Converted(o, pluralVar) == text
    ensures FieldFold("", opts, f, pluralVar) == if exists o :: o in opts && FillsEmpty(o, f) then text else ""
    decreases |opts|
  {
    if opts != [] {
      var rest := opts[1..];
      FrontOption(opts);
      ConvertNonEmpty(opts[0].text, pluralVar);
      if FillsEmpty(opts[0], f) {
        FilledStays(text, rest, f, pluralVar);
      } else {
        ExactValue(rest, f, pluralVar, text);
      }
    }
  }

  /** Reordered options that are free of order give a field the same value. */
  lemma SameField(a: seq<Opt>, b: seq<Opt>, f: Field, pluralVar: string)
    requires Reorders(a, b) && FieldFree(a, f, pluralVar)
    ensures FieldFold("", a, f, pluralVar) == FieldFold("", b, f, pluralVar)
  {
    SameOptions(a, b);
    if o :| o in a && SelectorOf(o.key) == Named(f) && o.text != "" {
      ConvertNonEmpty(o.text, pluralVar);
      NamedValue("", a, f, pluralVar, Converted(o, pluralVar));
      NamedValue("", b, f, pluralVar, Converted(o, pluralVar));
    } else if o :| o in a && FillsEmpty(o, f) {
      ExactValue(a, f, pluralVar, Converted(o, pluralVar));
      ExactValue(b, f, pluralVar, Converted(o, pluralVar));
    } else {
      ExactValue(a, f, pluralVar, "");
      ExactValue(b, f, pluralVar, "");
    }
  }

  lemma SameParsedField(a: seq<Opt>, b: seq<Opt>, f: Field, pluralVar: string)
    requires Reorders(a, b) && !AnyUnknown(a) && FieldFree(a, f, pluralVar)
    ensures var x, y := Fold(NO_TEXTS, a, pluralVar), Fold(NO_TEXTS, b, pluralVar);
      x.Parsed? && y.Parsed? && Get(x.message, f) == Get(y.message, f)
  {
    SameOptions(a, b);
    var x := FieldOfFold(a, pluralVar, f);
    var y := FieldOfFold(b, pluralVar, f);
    SameField(a, b, f, pluralVar);
  }

  lemma SameUnknown(a: seq<Opt>, b: seq<Opt>, pluralVar: string)
    requires Reorders(a, b) && AnyUnknown(a) && OrderFree(a, pluralVar)
    ensures Fold(NO_TEXTS, a, pluralVar) == Fold(NO_TEXTS, b, pluralVar)
  {
    SameOptions(a, b);
    var x := FirstUnknown(NO_TEXTS, a, pluralVar);
    var y := FirstUnknown(NO_TEXTS, b, pluralVar);
  }

  lemma FreeOrder(a: seq<Opt>, b: seq<Opt>, pluralVar: string)
    requires Reorders(a, b) && OrderFree(a, pluralVar)
    ensures Fold(NO_TEXTS, a, pluralVar) == Fold(NO_TEXTS, b, pluralVar)
  {
    if AnyUnknown(a) {
      SameUnknown(a, b, pluralVar);
    } else {
      var x, y := Fold(NO_TEXTS, a, pluralVar), Fold(NO_TEXTS, b, pluralVar);
      forall f ensures x.Parsed? && y.Parsed? && Get(x.message, f) == Get(y.message, f) {
        SameParsedField(a, b, f, pluralVar);
      }
      assert FieldFree(a, Zero, pluralVar);
      SameParsedField(a, b, Zero, pluralVar);
      SameFields(x.message, y.message);
    }
  }

  /** An option taken out of the others. */
  lemma TakenOut(opts: seq<Opt>, o: Opt) returns (rest: seq<Opt>)
    requires o in opts
    ensures Reorders(opts, [o] + rest) && Reorders(opts, rest + [o])
  {
    var i :| 0 <= i < |opts| && opts[i] == o;
    rest := opts[..i] + opts[i + 1..];
    assert opts == opts[..i] + [o] + opts[i + 1..];
  }

  lemma {:induction false} FieldFoldLast(before: string, opts: seq<Opt>, o: Opt, f: Field, pluralVar: string)
    ensures FieldFold(before, opts + [o], f, pluralVar) ==
      FieldStepValue(FieldFold(before, opts, f, pluralVar), o, f, pluralVar)
    decreases |opts|
  {
    if opts == [] {
      assert [] + [o] == [o] && [o][1..] == [];
    } else {
      assert (opts + [o])[1..] == opts[1..] + [o];
      FieldFoldLast(FieldStepValue(before, opts[0], f, pluralVar), opts[1..], o, f, pluralVar);
    }
  }

  /** A named form at the end has the last word. */
  lemma NamedLast(opts: seq<Opt>, o: Opt, f: Field, pluralVar: string) returns (x: seq<Opt>)
    requires o in opts && SelectorOf(o.key) == Named(f)
    ensures Reorders(opts, x) && FieldFold("", x, f, pluralVar) == Converted(o, pluralVar)
  {
    var rest := TakenOut(opts, o);
    x := rest + [o];
    FieldFoldLast("", rest, o, f, pluralVar);
  }

  /** A numbered form at the end leaves the field filled. */
  lemma ExactLast(opts: seq<Opt>, o: Opt, f: Field, pluralVar: string) returns (x: seq<Opt>)
    requires o in opts && FillsEmpty(o, f)
    ensures Reorders(opts, x) && FieldFold("", x, f, pluralVar) != ""
  {
    var rest := TakenOut(opts, o);
    x := rest + [o];
    FieldFoldLast("", rest, o, f, pluralVar);
    ConvertNonEmpty(o.text, pluralVar);
  }

  /** A numbered form at the beginning has the field when there is no named one. */
  lemma ExactFirst(opts: seq<Opt>, o: Opt, f: Field, pluralVar: string) returns (x: seq<Opt>)
    requires o in opts && FillsEmpty(o, f) && !HasNamed(opts, f)
    ensures Reorders(opts, x) && FieldFold("", x, f, pluralVar) == Converted(o, pluralVar)
  {
    var rest := TakenOut(opts, o);
    x := [o] + rest;
    SameOptions(opts, x);
    assert x[1..] == rest && forall y :: y in rest ==> y in x;
    ConvertNonEmpty(o.text, pluralVar);
    FilledStays(Converted(o, pluralVar), rest, f, pluralVar);
  }

  /** A field that depends on the order. */
  lemma OrderMatters(opts: seq<Opt>, f: Field, pluralVar: string) returns (x: seq<Opt>, y: seq<Opt>)
    requires !FieldFree(opts, f, pluralVar)
    ensures Reorders(opts, x) && Reorders(opts, y)
    ensures FieldFold("", x, f, pluralVar) != FieldFold("", y, f, pluralVar)
  {
    if !NamedAgree(opts, f, pluralVar) {
      var a, b :| a in opts && b in opts && SelectorOf(a.key) == SelectorOf(b.key) == Named(f)
        && Converted(a, pluralVar) != Converted(b, pluralVar);
      x := NamedLast(opts, a, f, pluralVar);
      y := NamedLast(opts, b, f, pluralVar);
    } else if !EmptyNamedAlone(opts, f) {
      var a, b :| a in opts && b in opts && SelectorOf(a.key) == Named(f) && FillsEmpty(b, f) && a.text == "";
      x := NamedLast(opts, a, f, pluralVar);
      y := ExactLast(opts, b, f, pluralVar);
      ConvertNonEmpty(a.text, pluralVar);
    } else {
      var a, b :| a in opts && b in opts && FillsEmpty(a, f) && FillsEmpty(b, f)
        && Converted(a, pluralVar) != Converted(b, pluralVar);
      x := ExactFirst(opts, a, f, pluralVar);
      y := ExactFirst(opts, b, f, pluralVar);
    }
  }

  lemma UnknownFirst(opts: seq<Opt>, o: Opt, pluralVar: string) returns (x: seq<Opt>)
    requires o in opts && SelectorOf(o.key).Unknown?
    ensures Reorders(opts, x) && Fold(NO_TEXTS, x, pluralVar) == UnknownKey(o.key)
  {
    var rest := TakenOut(opts, o);
    x := [o] + rest;
  }

  lemma DependentOrder(opts: seq<Opt>, pluralVar: string) returns (x: seq<Opt>, y: seq<Opt>)
    requires !OrderFree(opts, pluralVar)
    ensures Reorders(opts, x) && Reorders(opts, y) && Fold(NO_TEXTS, x, pluralVar) != Fold(NO_TEXTS, y, pluralVar)
  {
    if AnyUnknown(opts) {
      var a, b :| a in opts && b in opts && SelectorOf(a.key).Unknown? && SelectorOf(b.key).Unknown? && a.key != b.key;
      x := UnknownFirst(opts, a, pluralVar);
      y := UnknownFirst(opts, b, pluralVar);
    } else {
      var f :| !FieldFree(opts, f, pluralVar);
      x, y := OrderMatters(opts, f, pluralVar);
      SameOptions(opts, x);
      SameOptions(opts, y);
      var a := FieldOfFold(x, pluralVar, f);
      var b := FieldOfFold(y, pluralVar, f);
    }
  }

  /** The order of the options does not matter, for the message or the error, exactly if they are free
      of order. */
  lemma OrderExact(opts: seq<Opt>, pluralVar: string)
    ensures OrderFree(opts, pluralVar) <==>
      forall x | Reorders(opts, x) :: Fold(NO_TEXTS, x, pluralVar) == Fold(NO_TEXTS, opts, pluralVar)
  {
    if OrderFree(opts, pluralVar) {
      forall x | Reorders(opts, x) ensures Fold(NO_TEXTS, x, pluralVar) == Fold(NO_TEXTS, opts, pluralVar) {
        FreeOrder(opts, x, pluralVar);
      }
    } else {
      var x, y := DependentOrder(opts, pluralVar);
      assert Reorders(opts, x) && Reorders(opts, y);
    }
  }

  /** A named form beats a numbered one, wherever it stands. */
  lemma NamedWins(opts: seq<Opt>, pluralVar: string, f: Field, o: Opt)
    requires Agreeing(opts) && !AnyUnknown(opts) && o in opts && SelectorOf(o.key) == Named(f)
    ensures var r := Fold(NO_TEXTS, opts, pluralVar);
      r.Parsed? && Get(r.message, f) == ConvertPlaceholders(o.text, pluralVar)
  {
    FoldFields(NO_TEXTS, opts, pluralVar, f);
    TextOfMember(opts, Named(f));
  }

  // ---------- Keys that are no number ----------

  /** What follows the = is no number, or is zero; it does not begin with a number that is too large. */
  ghost predicate CountsAsZero(text: string) {
    var d := Unsign(text);
    !Overflows(d) && (d == "" || !Digits(d) || Num(d) == 0)
  }

  /** What follows the = is the number n, without a minus. */
  predicate IsNumber(text: string, n: nat) {
    text != "" && text[0] != '-' && Unsign(text) != "" && Digits(Unsign(text)) && Num(Unsign(text)) == n
  }

  /** A key that begins with = is read as =0 for garbage too, and as =1 and =2 for numbers alone; all
      others are ignored. */
  lemma GarbageIsZero(key: string)
    requires key != "" && key[0] == '='
    ensures SelectorOf(key) == Exact(Zero) <==> CountsAsZero(key[1..])
    ensures SelectorOf(key) == Exact(One) <==> IsNumber(key[1..], 1)
    ensures SelectorOf(key) == Exact(Two) <==> IsNumber(key[1..], 2)
    ensures SelectorOf(key) in {Exact(Zero), Exact(One), Exact(Two), Ignored}
  {
    var text := key[1..];
    AtoiZero(text);
    AtoiNumber(text, 1);
    AtoiNumber(text, 2);
  }

  lemma {:induction false} FoldAppend(m: Message, opts: seq<Opt>, o: Opt, pluralVar: string)
    requires Fold(m, opts, pluralVar).Parsed?
    ensures Fold(m, opts + [o], pluralVar) == Fold(Fold(m, opts, pluralVar).message, [o], pluralVar)
    decreases |opts|
  {
    if opts == [] {
      assert opts + [o] == [o];
    } else {
      var m' := Apply(m, opts[0].key, ConvertPlaceholders(opts[0].text, pluralVar));
      FoldAppend(m', opts[1..], o, pluralVar);
      assert (opts + [o])[1..] == opts[1..] + [o];
    }
  }

  /** Wherever it stands in a message, the text of such a key takes its field if that is still empty,
      garbage the one for zero, and nothing else changes. */
  lemma NumberedKeyFills(before: seq<Opt>, o: Opt, pluralVar: string)
    requires o.key != "" && o.key[0] == '='
    requires Fold(NO_TEXTS, before, pluralVar).Parsed?
    ensures var m, key, text :=
        Fold(NO_TEXTS, before, pluralVar).message, o.key[1..], ConvertPlaceholders(o.text, pluralVar);
      Fold(NO_TEXTS, before + [o], pluralVar) == Parsed(
        if CountsAsZero(key) && m.zero == "" then m.(zero := text)
        else if IsNumber(key, 1) && m.one == "" then m.(one := text)
        else if IsNumber(key, 2) && m.two == "" then m.(two := text)
        else m)
  {
    GarbageIsZero(o.key);
    FoldAppend(NO_TEXTS, before, o, pluralVar);
    assert [o][1..] == [];
  }

  lemma FirstZeroStays(x: Opt, y: Opt, pluralVar: string)
    requires SelectorOf(x.key) == SelectorOf(y.key) == Exact(Zero) && x.text != ""
    ensures Fold(NO_TEXTS, [x, y], pluralVar) == Parsed(NO_TEXTS.(zero := ConvertPlaceholders(x.text, pluralVar)))
  {
    ConvertNonEmpty(x.text, pluralVar);
    var m := NO_TEXTS.(zero := ConvertPlaceholders(x.text, pluralVar));
    assert [x, y][1..] == [y] && [y][1..] == [];
    assert Apply(NO_TEXTS, x.key, m.zero) == m;
    assert Fold(m, [y], pluralVar) == Fold(m, [], pluralVar);
  }

  /** A misspelt =x in front of =0 takes its place. */
  lemma GarbageBeatsZero(text: string, other: string, pluralVar: string)
    requires text != ""
    ensures Fold(NO_TEXTS, [Opt("=x", text), Opt("=0", other)], pluralVar)
      == Parsed(NO_TEXTS.(zero := ConvertPlaceholders(text, pluralVar)))
  {
    KeyExamples();
    FirstZeroStays(Opt("=x", text), Opt("=0", other), pluralVar);
  }

  lemma KeyExamples()
    ensures SelectorOf("=") == SelectorOf("=x") == SelectorOf("=-x") == SelectorOf("=0") == Exact(Zero)
  {}

  /** Garbage behind a number too large does not count as =0. */
  lemma LargeGarbageIgnored(digits: string, garbage: string)
    requires TooLarge(digits)
    ensures SelectorOf("=" + digits + garbage) == Ignored
  {
    var key, text := "=" + digits + garbage, digits + garbage;
    assert key[1..] == text && text[..|digits|] == digits;
    assert digits != "" && text[0] == digits[0];
    assert Unsign(text) == text;
    assert Overflows(text) by { assert TooLarge(text[..|digits|]); }
    GarbageIsZero(key);
    if Digits(text) { OverflowIsNoNumber(text); }
  }

  // ---------- What each key does ----------

  /** The message with the text in the field that has the name of the key. */
  function NamedSet(m: Message, key: string, text: string): Message {
    if key == "zero" then m.(zero := text) else if key == "one" then m.(one := text)
    else if key == "two" then m.(two := text) else if key == "few" then m.(few := text)
    else if key == "many" then m.(many := text) else if key == "other" then m.(other := text)
    else m
  }

  predicate IsName(key: string) {
    key in {"zero", "one", "two", "few", "many", "other"}
  }

  lemma NameSelects(key: string, m: Message, text: string)
    requires IsName(key)
    ensures Apply(m, key, text) == NamedSet(m, key, text) && !SelectorOf(key).Unknown?
  {}

  /** At any place of a message each of the six names sets the field of that name, and no other. */
  lemma NamedKeySets(before: seq<Opt>, o: Opt, pluralVar: string)
    requires IsName(o.key) && Fold(NO_TEXTS, before, pluralVar).Parsed?
    ensures Fold(NO_TEXTS, before + [o], pluralVar) ==
      Parsed(NamedSet(Fold(NO_TEXTS, before, pluralVar).message, o.key, ConvertPlaceholders(o.text, pluralVar)))
  {
    FoldAppend(NO_TEXTS, before, o, pluralVar);
    NameSelects(o.key, Fold(NO_TEXTS, before, pluralVar).message, ConvertPlaceholders(o.text, pluralVar));
    assert [o][1..] == [];
  }

  /** A key is an error exactly if it is none of the names and does not begin with =. */
  lemma ErrorKeys(before: seq<Opt>, o: Opt, pluralVar: string)
    requires Fold(NO_TEXTS, before, pluralVar).Parsed?
    ensures Fold(NO_TEXTS, before + [o], pluralVar) == UnknownKey(o.key) <==>
      !IsName(o.key) && (o.key == "" || o.key[0] != '=')
    ensures Fold(NO_TEXTS, before + [o], pluralVar).Parsed? || Fold(NO_TEXTS, before + [o], pluralVar) == UnknownKey(o.key)
  {
    FoldAppend(NO_TEXTS, before, o, pluralVar);
    assert [o][1..] == [];
    if IsName(o.key) {
      NamedKeySets(before, o, pluralVar);
    } else if o.key != "" && o.key[0] == '=' {
      NumberedKeyFills(before, o, pluralVar);
    }
  }

  /** A message with two forms. */
  lemma FewAndMany(a: string, b: string, pluralVar: string)
    ensures Fold(NO_TEXTS, [Opt("few", a), Opt("many", b)], pluralVar) ==
      Parsed(Message("", "", "", ConvertPlaceholders(a, pluralVar), ConvertPlaceholders(b, pluralVar), ""))
  {
    NamedKeySets([], Opt("few", a), pluralVar);
    NamedKeySets([Opt("few", a)], Opt("many", b), pluralVar);
    assert [] + [Opt("few", a)] == [Opt("few", a)];
    assert [Opt("few", a)] + [Opt("many", b)] == [Opt("few", a), Opt("many", b)];
  }

  /** What becomes of a body: blanks alone are an error, a layout is folded, anything else is an error of
      the scanner. */
  lemma MessageOfBody(pluralVar: string, body: string)
    ensures PluralMessage(pluralVar, body) == NoForms <==> AllBlank(body)
    ensures PluralMessage(pluralVar, body) == BadBody(Scan(body, 0)) <==> !exists opts :: IsLayout(body, opts)
    ensures forall opts :: IsLayout(body, opts) && opts != [] ==>
      PluralMessage(pluralVar, body) == Fold(NO_TEXTS, opts, pluralVar)
  {
    forall opts ensures Scan(body, 0) == Options(opts) <==> IsLayout(body, opts) {
      ScanExact(body, opts);
    }
    BlankBody(body);
    if Scan(body, 0).Options? {
      assert Scan(body, 0) == Options(Scan(body, 0).opts);
      FoldNeverNoForms(NO_TEXTS, Scan(body, 0).opts, pluralVar);
    }
  }

  lemma {:induction false} FoldNeverNoForms(m: Message, opts: seq<Opt>, pluralVar: string)
    ensures Fold(m, opts, pluralVar).Parsed? || Fold(m, opts, pluralVar).UnknownKey?
    decreases |opts|
  {
    if opts != [] && !SelectorOf(opts[0].key).Unknown? {
      FoldNeverNoForms(Apply(m, opts[0].key, ConvertPlaceholders(opts[0].text, pluralVar)), opts[1..], pluralVar);
    }
  }

  lemma BlankBody(body: string)
    ensures Scan(body, 0) == Options([]) <==> AllBlank(body)
  {
    assert body[0..] == body;
    if Scan(body, 0) == Options([]) {
      var ps, tail := ScannedLayout(body, 0);
      assert ps == [];
    } else if AllBlank(body) {
      ScanLayout(body, 0, [], body);
    }
  }
}
