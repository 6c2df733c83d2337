/** Plural messages from the text of their body to the texts of their fields. */
module IcuBodies {
  import opened IcuLayouts
  import opened IcuMessage
  import opened IcuOptions
  import opened IcuPlaceholders

  /** The field with the name. */
  function FieldNamed(m: Message, name: string): string
    requires IsName(name)
  {
    if name == "zero" then m.zero else if name == "one" then m.one else if name == "two" then m.two
    else if name == "few" then m.few else if name == "many" then m.many else m.other
  }

  /** The option number `i` is the last with the name; there is none for -1. */
  predicate LastNamed(opts: seq<Opt>, name: string, i: int) {
    -1 <= i < |opts| && (i >= 0 ==> opts[i].key == name) && forall j :: i < j < |opts| ==> opts[j].key != name
  }

  predicate AllNamed(opts: seq<Opt>) {
    forall j :: 0 <= j < |opts| ==> IsName(opts[j].key)
  }

  lemma SetField(m: Message, key: string, text: string, name: string)
    requires IsName(key) && IsName(name)
    ensures FieldNamed(NamedSet(m, key, text), name) == if name == key then text else FieldNamed(m, name)
  {}

  lemma {:induction false} NamedForms(opts: seq<Opt>, pluralVar: string, name: string, i: int) returns (m: Message)
    requires AllNamed(opts) && IsName(name) && LastNamed(opts, name, i)
    ensures Fold(NO_TEXTS, opts, pluralVar) == Parsed(m)
    ensures FieldNamed(m, name) == if i < 0 then "" else ConvertPlaceholders(opts[i].text, pluralVar)
  {
    if opts == [] {
      m := NO_TEXTS;
    } else {
      var front, o := opts[..|opts| - 1], opts[|opts| - 1];
      var text := ConvertPlaceholders(o.text, pluralVar);
      var before := NamedForms(front, pluralVar, name, if i == |front| then LastIn(front, name) else i);
      assert opts == front + [o];
      NamedKeySets(front, o, pluralVar);
      m := NamedSet(before, o.key, text);
      SetField(before, o.key, text, name);
    }
  }

  function LastIn(opts: seq<Opt>, name: string): (i: int)
    ensures LastNamed(opts, name, i)
  {
    if opts == [] then -1
    else
      var n := |opts| - 1;
      if opts[n].key == name then n else LastIn(opts[..n], name)
  }

  /** A body typed with named forms, in any spacing, parses; each field has the converted text of the last
      form with its name, and is empty without one. */
  lemma NamedBody(ts: seq<Typed>, blanks: string, pluralVar: string, name: string, i: int) returns (m: Message)
    requires ts != [] && AllTyped(ts) && AllNamed(Meant(ts)) && AllIn(blanks, " \t\n")
    requires IsName(name) && LastNamed(Meant(ts), name, i)
    ensures PluralMessage(pluralVar, Body(ts, blanks)) == Parsed(m)
    ensures FieldNamed(m, name) == if i < 0 then "" else ConvertPlaceholders(Meant(ts)[i].text, pluralVar)
  {
    TypedScan(ts, OnlyBlanks(blanks));
    m := NamedForms(Meant(ts), pluralVar, name, i);
  }

  /** A body that ends in one of the scanner's errors is that error, whatever stands before it. */
  lemma BrokenBody(ts: seq<Typed>, e: Ending, pluralVar: string)
    requires AllTyped(ts) && WellEnded(e) && !e.OnlyBlanks?
    ensures PluralMessage(pluralVar, Body(ts, Tail(e))) == BadBody(
      match e case NoOpening(front) => NoBrace(front.key) case NoClosing(front, _) => Unclosed(front.key) case _ => EmptyKey)
  {
    TypedScan(ts, e);
  }
}
