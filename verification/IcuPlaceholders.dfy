/** The rewriting of placeholders: `#` stands for the plural variable, and {name} becomes {.name}. */
module IcuPlaceholders {
  import Strings
  import opened IcuOptions

  /** A character of the class that the placeholder pattern allows between its braces. */
  predicate Inner(c: char) {
    c != '{' && c != '}' && c != '\t' && c != '\n' && c != '\U{C}' && c != '\r' && c != ' '
  }

  predicate AllInner(s: string) {
    forall k :: 0 <= k < |s| ==> Inner(s[k])
  }

  /** strings.ReplaceAll(s, "#", "{." + name + "}"). */
  function ReplaceHash(s: string, name: string): string {
    if s == "" then ""
    else (if s[0] == '#' then "{." + name + "}" else [s[0]]) + ReplaceHash(s[1..], name)
  }

  /** The length of the longest run of inner characters in front. */
  function Run(s: string): (n: nat)
    ensures n <= |s| && AllInner(s[..n]) && (n < |s| ==> !Inner(s[n]))
  {
    if s != "" && Inner(s[0]) then
      var n := Run(s[1..]);
      assert s[..n + 1] == [s[0]] + s[1..][..n];
      n + 1
    else 0
  }

  /** The pattern matches at the front: an opening brace, inner characters, a closing brace. */
  predicate Matches(s: string) {
    s != "" && s[0] == '{' && var n := Run(s[1..]); n > 0 && n + 1 < |s| && s[n + 1] == '}'
  }

  function MatchLength(s: string): nat
    requires Matches(s)
  {
    Run(s[1..]) + 2
  }

  predicate Dotted(inner: string) {
    inner != "" && inner[0] == '.'
  }

  function Convert(match': string): string
    requires |match'| >= 2
  {
    var inner := Trim(match'[1..|match'| - 1]);
    if Dotted(inner) then match' else "{." + inner + "}"
  }

  /** All matches from left to right, each replaced. */
  function Rewrite(s: string): string
    decreases |s|
  {
    if s == "" then ""
    else if Matches(s) then Convert(s[..MatchLength(s)]) + Rewrite(s[MatchLength(s)..])
    else [s[0]] + Rewrite(s[1..])
  }

  function ConvertPlaceholders(s: string, pluralVar: string): string {
    Rewrite(if pluralVar != "" then ReplaceHash(s, pluralVar) else s)
  }

  // ---------- No undotted placeholder is left ----------

  /** Every match, at whatever position, starts with a dot. */
  predicate AllDotted(s: string)
    decreases |s|
  {
    s == "" || ((Matches(s) ==> Dotted(Trim(s[1..MatchLength(s) - 1]))) && AllDotted(s[1..]))
  }

  lemma {:induction false} RunThen(x: string, y: string)
    requires AllInner(x) && (y == "" || !Inner(y[0]))
    ensures Run(x + y) == |x|
  {
    if x == "" {
      assert x + y == y;
    } else {
      assert (x + y)[1..] == x[1..] + y;
      RunThen(x[1..], y);
    }
  }

  lemma {:induction false} TrimKeepsInner(s: string)
    requires AllInner(s)
    ensures AllInner(TrimLeft(s)) && AllInner(TrimRight(s))
  {
    if s != "" && Space(s[0]) { TrimKeepsInner(s[1..]); }
    if s != "" && Space(s[|s| - 1]) { TrimKeepsInner(s[..|s| - 1]); }
  }

  /** A match is a brace, inner characters, a brace; what it becomes is one too, with a dot. */
  lemma ConvertShape(s: string) returns (x: string)
    requires Matches(s)
    ensures Convert(s[..MatchLength(s)]) == "{" + x + "}" && x != "" && AllInner(x) && Dotted(Trim(x))
  {
    var n := Run(s[1..]);
    var inner := s[1..][..n];
    var whole := s[..MatchLength(s)];
    assert whole[1..|whole| - 1] == inner;
    TrimKeepsInner(inner);
    TrimKeepsInner(TrimLeft(inner));
    if Dotted(Trim(inner)) {
      x := inner;
      assert whole == "{" + inner + "}";
    } else {
      x := "." + Trim(inner);
      assert "{." + Trim(inner) + "}" == "{" + x + "}";
      DotStays(Trim(inner));
    }
  }

  lemma {:induction false} DotStays(s: string)
    ensures Dotted(Trim("." + s))
  {
    assert TrimLeft("." + s) == "." + s;
    TrimRightKeepsFirst("." + s);
  }

  lemma {:induction false} TrimRightKeepsFirst(s: string)
    requires s != "" && !Space(s[0])
    ensures TrimRight(s) != "" && TrimRight(s)[0] == s[0]
  {
    if Space(s[|s| - 1]) { TrimRightKeepsFirst(s[..|s| - 1]); }
  }

  lemma {:induction false} InnerAllDotted(x: string, y: string)
    requires AllInner(x) && AllDotted(y)
    ensures AllDotted(x + y)
  {
    if x == "" {
      assert x + y == y;
    } else {
      assert (x + y)[1..] == x[1..] + y;
      InnerAllDotted(x[1..], y);
    }
  }

  lemma PlaceholderMatches(x: string, y: string)
    requires x != "" && AllInner(x)
    ensures var s := "{" + x + "}" + y;
      Matches(s) && MatchLength(s) == |x| + 2 && s[1..MatchLength(s) - 1] == x && s[MatchLength(s)..] == y
  {
    var s := "{" + x + "}" + y;
    assert s[1..] == x + ("}" + y);
    RunThen(x, "}" + y);
  }

  lemma PlaceholderDotted(x: string, y: string)
    requires x != "" && AllInner(x) && Dotted(Trim(x)) && AllDotted(y)
    ensures AllDotted("{" + x + "}" + y)
  {
    PlaceholderMatches(x, y);
    assert ("}" + y)[1..] == y;
    assert AllDotted("}" + y);
    InnerAllDotted(x, "}" + y);
    assert ("{" + x + "}" + y)[1..] == x + ("}" + y);
  }

  /** Rewriting keeps the first character and what the pattern sees in front. */
  lemma RewriteFront(s: string)
    requires s != ""
    ensures Rewrite(s) != "" && Rewrite(s)[0] == s[0]
  {
    if Matches(s) { var x := ConvertShape(s); }
  }

  lemma {:induction false} RewriteRun(s: string)
    ensures Run(Rewrite(s)) == Run(s)
    ensures var n := Run(s);
      (n < |s|) == (n < |Rewrite(s)|) && (n < |s| ==> Rewrite(s)[n] == s[n])
    decreases |s|
  {
    if s != "" {
      RewriteFront(s);
      if Inner(s[0]) {
        RewriteRun(s[1..]);
        assert Rewrite(s)[1..] == Rewrite(s[1..]);
      }
    }
  }

  lemma {:induction false} RewriteAllDotted(s: string)
    ensures AllDotted(Rewrite(s))
    decreases |s|
  {
    if s == "" {
    } else if Matches(s) {
      var x := ConvertShape(s);
      RewriteAllDotted(s[MatchLength(s)..]);
      PlaceholderDotted(x, Rewrite(s[MatchLength(s)..]));
    } else {
      RewriteAllDotted(s[1..]);
      RewriteRun(s[1..]);
      assert Rewrite(s)[1..] == Rewrite(s[1..]);
    }
  }

  // ---------- Idempotence ----------

  lemma DottedMatchKept(s: string)
    requires AllDotted(s) && Matches(s)
    ensures Convert(s[..MatchLength(s)]) == s[..MatchLength(s)]
  {
    var n := MatchLength(s);
    assert s[..n][1..n - 1] == s[1..n - 1];
  }

  /** Where every match starts with a dot, nothing is rewritten. */
  lemma {:induction false} RewriteFixed(s: string)
    requires AllDotted(s)
    ensures Rewrite(s) == s
    decreases |s|
  {
    if s == "" {
    } else if Matches(s) {
      DottedMatchKept(s);
      DottedRest(s, MatchLength(s));
      RewriteFixed(s[MatchLength(s)..]);
      Strings.Split(s, MatchLength(s));
    } else {
      RewriteFixed(s[1..]);
      Strings.Front(s);
    }
  }

  lemma {:induction false} DottedRest(s: string, n: nat)
    requires AllDotted(s) && n <= |s|
    ensures AllDotted(s[n..])
    decreases n
  {
    if n > 0 {
      DottedRest(s[1..], n - 1);
      assert s[1..][n - 1..] == s[n..];
    } else {
      assert s[0..] == s;
    }
  }

  function Count(s: string, c: char): nat {
    if s == "" then 0 else Count(s[1..], c) + if s[0] == c then 1 else 0
  }

  lemma {:induction false} CountConcat(x: string, y: string, c: char)
    ensures Count(x + y, c) == Count(x, c) + Count(y, c)
  {
    if x == "" {
      assert x + y == y;
    } else {
      assert (x + y)[1..] == x[1..] + y;
      CountConcat(x[1..], y, c);
    }
  }

  lemma {:induction false} CountTrimLeft(s: string, c: char)
    requires !Space(c)
    ensures Count(TrimLeft(s), c) == Count(s, c)
  {
    if s != "" && Space(s[0]) { CountTrimLeft(s[1..], c); }
  }

  lemma {:induction false} CountTrimRight(s: string, c: char)
    requires !Space(c)
    ensures Count(TrimRight(s), c) == Count(s, c)
  {
    if s != "" && Space(s[|s| - 1]) {
      var init := s[..|s| - 1];
      CountTrimRight(init, c);
      assert s == init + [s[|s| - 1]];
      CountConcat(init, [s[|s| - 1]], c);
    }
  }

  lemma CountBraced(x: string, c: char)
    ensures Count("{" + x + "}", c) == Count(x, c) + (if c == '{' || c == '}' then 1 else 0)
  {
    CountConcat("{" + x, "}", c);
    CountConcat("{", x, c);
  }

  /** A replaced match keeps its count of every character but dots and white space. */
  lemma ConvertCounts(s: string, c: char)
    requires Matches(s) && !Space(c) && c != '.'
    ensures Count(Convert(s[..MatchLength(s)]), c) == Count(s[..MatchLength(s)], c)
  {
    var whole := s[..MatchLength(s)];
    var inner := whole[1..|whole| - 1];
    assert whole == "{" + inner + "}";
    CountBraced(inner, c);
    if !Dotted(Trim(inner)) {
      CountTrimLeft(inner, c);
      CountTrimRight(TrimLeft(inner), c);
      var x := "." + Trim(inner);
      assert "{." + Trim(inner) + "}" == "{" + x + "}";
      CountBraced(x, c);
      assert x[1..] == Trim(inner);
    }
  }

  lemma CountSplit(s: string, n: nat, c: char)
    requires n <= |s|
    ensures Count(s, c) == Count(s[..n], c) + Count(s[n..], c)
  {
    assert s == s[..n] + s[n..];
    CountConcat(s[..n], s[n..], c);
  }

  lemma {:induction false} RewriteCounts(s: string, c: char)
    requires !Space(c) && c != '.'
    ensures Count(Rewrite(s), c) == Count(s, c)
    decreases |s|
  {
    if s == "" {
    } else if Matches(s) {
      var n := MatchLength(s);
      ConvertCounts(s, c);
      RewriteCounts(s[n..], c);
      CountConcat(Convert(s[..n]), Rewrite(s[n..]), c);
      CountSplit(s, n, c);
    } else {
      RewriteCounts(s[1..], c);
      CountConcat([s[0]], Rewrite(s[1..]), c);
    }
  }

  lemma {:induction false} HashFreeStays(s: string, name: string)
    requires Count(s, '#') == 0
    ensures ReplaceHash(s, name) == s
  {
    if s != "" {
      HashFreeStays(s[1..], name);
      assert s == [s[0]] + s[1..];
    }
  }

  lemma Replacement(name: string, c: char)
    ensures Count("{." + name + "}", c) == Count(name, c) + (if c == '{' || c == '.' || c == '}' then 1 else 0)
  {
    assert "{." + name + "}" == "{" + ("." + name) + "}";
    CountBraced("." + name, c);
    assert ("." + name)[1..] == name;
  }

  /** Every `#` becomes one placeholder, with whatever `#` the name has itself. */
  lemma {:induction false} ReplaceHashCounts(s: string, name: string)
    requires AllInner(name)
    ensures Count(ReplaceHash(s, name), '{') == Count(s, '{') + Count(s, '#')
    ensures Count(ReplaceHash(s, name), '#') == 0 <==> Count(s, '#') == 0 || Count(name, '#') == 0
  {
    if s != "" {
      var front := if s[0] == '#' then "{." + name + "}" else [s[0]];
      ReplaceHashCounts(s[1..], name);
      Replacement(name, '{');
      Replacement(name, '#');
      NoBraces(name);
      CountConcat(front, ReplaceHash(s[1..], name), '{');
      CountConcat(front, ReplaceHash(s[1..], name), '#');
    }
  }

  lemma {:induction false} NoBraces(x: string)
    requires AllInner(x)
    ensures Count(x, '{') == 0
  {
    if x != "" { NoBraces(x[1..]); }
  }

  /** Converting once more changes nothing, unless there is a `#` in both the text and the name. */
  lemma ConvertIdempotent(s: string, pluralVar: string)
    requires AllInner(pluralVar)
    ensures var once := ConvertPlaceholders(s, pluralVar);
      ConvertPlaceholders(once, pluralVar) == once <==> Count(s, '#') == 0 || Count(pluralVar, '#') == 0
  {
    var t := if pluralVar != "" then ReplaceHash(s, pluralVar) else s;
    var once := Rewrite(t);
    RewriteAllDotted(t);
    RewriteCounts(t, '#');
    ReplaceHashCounts(s, pluralVar);
    if Count(s, '#') == 0 || Count(pluralVar, '#') == 0 {
      if pluralVar != "" {
        HashFreeStays(once, pluralVar);
      }
      RewriteFixed(once);
    } else {
      ReplaceHashCounts(once, pluralVar);
      RewriteCounts(ReplaceHash(once, pluralVar), '{');
    }
  }

  /** A converted text has no placeholder left that does not start with a dot. */
  lemma NoUndottedLeft(s: string, pluralVar: string)
    ensures AllDotted(ConvertPlaceholders(s, pluralVar))
  {
    RewriteAllDotted(if pluralVar != "" then ReplaceHash(s, pluralVar) else s);
  }

  // ---------- Brace nesting ----------

  lemma {:induction false} InnerNesting(x: string, y: string, depth: nat)
    requires AllInner(x)
    ensures BalancedFrom(x + y, depth) == BalancedFrom(y, depth)
  {
    if x == "" {
      assert x + y == y;
    } else {
      assert (x + y)[1..] == x[1..] + y;
      InnerNesting(x[1..], y, depth);
    }
  }

  lemma PlaceholderNesting(x: string, y: string, depth: nat)
    requires AllInner(x)
    ensures BalancedFrom("{" + x + "}" + y, depth) == BalancedFrom(y, depth)
  {
    assert ("{" + x + "}" + y)[1..] == x + ("}" + y);
    InnerNesting(x, "}" + y, depth + 1);
    assert ("}" + y)[1..] == y;
  }

  lemma MatchShape(s: string) returns (inner: string)
    requires Matches(s)
    ensures AllInner(inner) && s == "{" + inner + "}" + s[MatchLength(s)..]
  {
    inner := s[1..][..Run(s[1..])];
  }

  lemma {:induction false} RewriteNesting(s: string, depth: nat)
    ensures BalancedFrom(Rewrite(s), depth) == BalancedFrom(s, depth)
    decreases |s|
  {
    if s == "" {
    } else if Matches(s) {
      var n := MatchLength(s);
      var x := ConvertShape(s);
      RewriteNesting(s[n..], depth);
      PlaceholderNesting(x, Rewrite(s[n..]), depth);
      var inner := MatchShape(s);
      PlaceholderNesting(inner, s[n..], depth);
    } else {
      assert Rewrite(s)[1..] == Rewrite(s[1..]);
      if s[0] == '{' {
        RewriteNesting(s[1..], depth + 1);
      } else if s[0] != '}' {
        RewriteNesting(s[1..], depth);
      } else if depth > 0 {
        RewriteNesting(s[1..], depth - 1);
      }
    }
  }

  lemma {:induction false} ReplaceHashNesting(s: string, name: string, depth: nat)
    requires AllInner(name)
    ensures BalancedFrom(ReplaceHash(s, name), depth) == BalancedFrom(s, depth)
    decreases |s|
  {
    if s != "" {
      var rest := ReplaceHash(s[1..], name);
      if s[0] == '#' {
        ReplaceHashNesting(s[1..], name, depth);
        assert "{." + name + "}" == "{" + ("." + name) + "}";
        PlaceholderNesting("." + name, rest, depth);
      } else {
        assert ReplaceHash(s, name)[1..] == rest;
        if s[0] == '{' {
          ReplaceHashNesting(s[1..], name, depth + 1);
        } else if s[0] != '}' {
          ReplaceHashNesting(s[1..], name, depth);
        } else if depth > 0 {
          ReplaceHashNesting(s[1..], name, depth - 1);
        }
      }
    }
  }

  /** A text is balanced after the conversion exactly when it was before. */
  lemma ConvertNesting(s: string, pluralVar: string)
    requires AllInner(pluralVar)
    ensures Balanced(ConvertPlaceholders(s, pluralVar)) <==> Balanced(s)
  {
    if pluralVar != "" {
      ReplaceHashNesting(s, pluralVar, 0);
      RewriteNesting(ReplaceHash(s, pluralVar), 0);
    } else {
      RewriteNesting(s, 0);
    }
  }

  lemma ConvertNonEmpty(s: string, pluralVar: string)
    ensures ConvertPlaceholders(s, pluralVar) == "" <==> s == ""
  {
    var t := if pluralVar != "" then ReplaceHash(s, pluralVar) else s;
    if t != "" { RewriteFront(t); }
  }

  /** The variable `#` in the text `#` is replaced again and again. */
  lemma HashReplacedAgain()
    ensures var once := ConvertPlaceholders("#", "#"); ConvertPlaceholders(once, "#") != once
  {
    assert Count("#", '#') == 1;
    ConvertIdempotent("#", "#");
  }
}
