/** The texts that are stored for configuration values, by what they say. */
module ConsulText {
  import opened Decimal
  import opened Strings
  import opened Paths
  import opened ConsulTree
  import opened ConsulFlatten

  /** The usual notation of an integer: a minus for a negative one, digits without leading zeros. */
  predicate Denotes(text: string, i: int) {
    var digits := if i < 0 && text != "" then text[1..] else text;
    && (i < 0 ==> text != "" && text[0] == '-')
    && digits != "" && Digits(digits) && (digits[0] == '0' ==> digits == "0")
    && Num(digits) == if i < 0 then -i else i
  }

  lemma {:induction false} DecLeading(n: nat)
    ensures Dec(n)[0] == '0' <==> n == 0
    ensures n < 10 ==> |Dec(n)| == 1
  {
    if n >= 10 {
      DecLeading(n / 10);
    }
  }

  lemma SignedDecDenotes(i: int)
    ensures Denotes(SignedDec(i), i)
  {
    var n := if i < 0 then -i else i;
    NumDec(n);
    DecLeading(n);
    if i < 0 {
      Cut("-", Dec(n));
    }
  }

  /** The notation tells integers apart, and strconv.ParseInt reads an int64 back from it. */
  lemma DenotedInteger(text: string, i: int)
    requires Denotes(text, i)
    ensures MIN_INT64 <= i <= MAX_INT64 ==> ParseInt(text) == Some(i)
  {
    if i >= 0 {
      assert Digit(text[0]);
    }
  }

  lemma NoCommaInNumber(text: string, i: int)
    requires Denotes(text, i)
    ensures ',' !in text
  {
    var digits := if i < 0 then text[1..] else text;
    forall k | 0 <= k < |text| ensures text[k] != ',' {
      if i < 0 && k > 0 { assert Digit(digits[k - 1]); } else if i >= 0 { assert Digit(digits[k]); }
    }
  }

  /** The pieces of a text between its commas. */
  function SplitComma(s: string): (pieces: seq<string>)
    ensures pieces != []
  {
    if s == "" then [""]
    else
      var rest := SplitComma(s[1..]);
      if s[0] == ',' then [""] + rest else [[s[0]] + rest[0]] + rest[1..]
  }

  lemma {:induction false} SplitPiece(piece: string, s: string)
    requires ',' !in piece
    ensures SplitComma(piece) == [piece]
    ensures SplitComma(piece + ("," + s)) == [piece] + SplitComma(s)
  {
    if piece == "" {
      NoText("," + s);
      Cut(",", s);
    } else {
      var rest := piece[1..];
      assert forall c :: c in rest ==> c in piece;
      SplitPiece(rest, s);
      Front(piece);
      Assoc([piece[0]], rest, "," + s);
      Cut([piece[0]], rest + ("," + s));
    }
  }

  predicate CommaFree(texts: seq<string>) {
    forall k :: 0 <= k < |texts| ==> ',' !in texts[k]
  }

  lemma {:induction false} PiecesCommaFree(s: string)
    ensures CommaFree(SplitComma(s))
  {
    if s != "" {
      PiecesCommaFree(s[1..]);
      var rest := SplitComma(s[1..]);
      assert ',' !in rest[0];
    }
  }

  lemma {:induction false} CommaFreeJoined(texts: seq<string>)
    requires texts != [] && CommaFree(texts)
    ensures SplitComma(JoinComma(texts)) == texts
  {
    if |texts| == 1 {
      SplitPiece(texts[0], "");
    } else {
      CommaFreeJoined(texts[1..]);
      SplitPiece(texts[0], JoinComma(texts[1..]));
      Assoc(texts[0], ",", JoinComma(texts[1..]));
    }
  }

  /** A joined list splits into its elements exactly when none of them has a comma. */
  lemma SplitJoined(texts: seq<string>)
    requires texts != []
    ensures SplitComma(JoinComma(texts)) == texts <==> CommaFree(texts)
  {
    PiecesCommaFree(JoinComma(texts));
    if CommaFree(texts) {
      CommaFreeJoined(texts);
    }
  }

  /** What joining does with commas in the texts, too: two lists joined have one comma between them. */
  lemma {:induction false} JoinedTwice(a: seq<string>, b: seq<string>)
    requires a != [] && b != []
    ensures JoinComma(a + b) == JoinComma(a) + ("," + JoinComma(b))
  {
    assert (a + b)[1..] == a[1..] + b;
    if |a| == 1 {
      assert a[1..] + b == b;
    } else {
      JoinedTwice(a[1..], b);
      Assoc(a[0], ",", JoinComma(a[1..] + b));
      Assoc(a[0], ",", JoinComma(a[1..]));
      Assoc(a[0] + ",", JoinComma(a[1..]), "," + JoinComma(b));
    }
  }

  /** The text lists the elements, each as `says` wants it; the empty list has the empty text. */
  ghost predicate Lists<E>(text: string, elements: seq<E>, says: (string, E) -> bool) {
    if elements == [] then text == ""
    else
      var pieces := SplitComma(text);
      |pieces| == |elements| && forall k :: 0 <= k < |pieces| ==> says(pieces[k], elements[k])
  }

  predicate SaysFlag(text: string, b: bool) {
    (text == "true" <==> b) && (text == "false" <==> !b)
  }

  /** What the text of a value says, the value's own text where it has one. */
  ghost predicate Says(text: string, v: Scalar) {
    match v
    case Nil => text == ""
    case Str(s) => text == s
    case Whole(i) => Denotes(text, i)
    case Float(x) => text == x
    case Flag(b) => SaysFlag(text, b)
    case Strs(strs) => text == JoinComma(strs) && (CommaFree(strs) ==> Lists(text, strs, (p, e) => p == e))
    case Wholes(ints) => Lists(text, ints, (p, e) => Denotes(p, e))
    case Floats(texts) => text == JoinComma(texts) && (CommaFree(texts) ==> Lists(text, texts, (p, e) => p == e))
    case Flags(flags) => Lists(text, flags, (p, e) => SaysFlag(p, e))
    case Unsupported => false
  }

  lemma JoinedLists<E>(texts: seq<string>, elements: seq<E>, says: (string, E) -> bool)
    requires |texts| == |elements| && CommaFree(texts)
    requires forall k :: 0 <= k < |texts| ==> says(texts[k], elements[k])
    ensures Lists(JoinComma(texts), elements, says)
  {
    if elements != [] {
      SplitJoined(texts);
    }
  }

  lemma IntegersSaid(ints: seq<int>)
    ensures Says(JoinComma(seq(|ints|, k requires 0 <= k < |ints| => SignedDec(ints[k]))), Wholes(ints))
  {
    var texts := seq(|ints|, k requires 0 <= k < |ints| => SignedDec(ints[k]));
    forall k | 0 <= k < |texts| ensures Denotes(texts[k], ints[k]) && ',' !in texts[k] {
      SignedDecDenotes(ints[k]);
      NoCommaInNumber(texts[k], ints[k]);
    }
    JoinedLists(texts, ints, (p, e) => Denotes(p, e));
  }

  lemma FlagSaid(b: bool)
    ensures SaysFlag(FlagText(b), b) && ',' !in FlagText(b)
  {
    assert |"true"| == 4 && |"false"| == 5;
  }

  lemma FlagsSaid(flags: seq<bool>)
    ensures Says(JoinComma(seq(|flags|, k requires 0 <= k < |flags| => FlagText(flags[k]))), Flags(flags))
  {
    var texts := seq(|flags|, k requires 0 <= k < |flags| => FlagText(flags[k]));
    forall k | 0 <= k < |texts| ensures SaysFlag(texts[k], flags[k]) && ',' !in texts[k] {
      FlagSaid(flags[k]);
    }
    JoinedLists(texts, flags, (p, e) => SaysFlag(p, e));
  }

  lemma TextsSaid(texts: seq<string>)
    ensures CommaFree(texts) ==> Lists(JoinComma(texts), texts, (p, e) => p == e)
  {
    if CommaFree(texts) {
      JoinedLists(texts, texts, (p, e) => p == e);
    }
  }

  /** The stored bytes say what the value is; only an unsupported value has none. */
  lemma BytesSay(v: Scalar)
    ensures AnyToBytes(v).None? <==> v.Unsupported?
    ensures AnyToBytes(v).Some? ==> Says(AnyToBytes(v).value, v)
  {
    match v
    case Whole(i) => SignedDecDenotes(i);
    case Flag(b) => FlagSaid(b);
    case Strs(strs) => TextsSaid(strs);
    case Floats(texts) => TextsSaid(texts);
    case Wholes(ints) => IntegersSaid(ints);
    case Flags(flags) => FlagsSaid(flags);
    case _ =>
  }

  /** Each supported leaf of a slash-free section has an entry under its path, with a text that says what
      the leaf is. */
  lemma StoredLeaf(prefix: string, t: Tree, res: map<string, string>, q: Path)
    requires SlashFree(t) && IsFlattening(res, prefix, t) && At(t, q).Text? && !At(t, q).text.Unsupported?
    ensures prefix + Suffix(q) in res && Says(res[prefix + Suffix(q)], At(t, q).text)
  {
    var v := At(t, q).text;
    BytesSay(v);
    assert FromLeaf(prefix, t, q, prefix + Suffix(q), AnyToBytes(v).value);
    assert FromTree(prefix, t, prefix + Suffix(q), AnyToBytes(v).value);
  }
}
