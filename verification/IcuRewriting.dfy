/** What placeholders become, by the text they stand in. */
module IcuRewriting {
  import opened IcuPlaceholders
  import opened IcuOptions
  import IcuLayouts
  import Strings

  /** A piece of a text: a character; a placeholder, with white space that the pattern does not know as
      such around its name; braces that are no placeholder, as they are empty or have white space between
      them; an opening brace that the next piece, or the end of the text, leaves without a closing one. */
  datatype Token =
    | Other(c: char) | Placeholder(before: string, name: string, after: string)
    | Braces(inner: string) | Opened(inner: string)

  const PATTERN_SPACE := " \t\n\r\U{C}"

  predicate NoBrace(s: string) {
    forall k :: 0 <= k < |s| ==> s[k] !in "{}"
  }

  predicate NoPatternSpace(s: string) {
    forall k :: 0 <= k < |s| ==> s[k] !in PATTERN_SPACE
  }

  predicate Well(t: Token) {
    match t
    case Other(c) => c != '{'
    case Placeholder(before, name, after) =>
      var x := before + (name + after);
      && x != "" && NoBrace(x) && NoPatternSpace(x)
      && IcuLayouts.AllWhite(before) && IcuLayouts.AllWhite(after) && IcuLayouts.Bare(name)
    case Braces(inner) => NoBrace(inner) && (inner == "" || !NoPatternSpace(inner))
    case Opened(inner) => NoBrace(inner)
  }

  predicate AllWell(ts: seq<Token>) {
    && (forall k :: 0 <= k < |ts| ==> Well(ts[k]))
    && (forall k :: 0 <= k < |ts| - 1 && ts[k].Opened? ==> !ts[k + 1].Other?)
  }

  function Written(t: Token): string {
    match t
    case Other(c) => [c]
    case Placeholder(before, name, after) => "{" + ((before + (name + after)) + "}")
    case Braces(inner) => "{" + (inner + "}")
    case Opened(inner) => "{" + inner
  }

  function WrittenAll(ts: seq<Token>): string {
    if ts == [] then "" else Written(ts[0]) + WrittenAll(ts[1..])
  }

  /** A placeholder gets a dot unless its name has one, and everything else stays. */
  function Shown(t: Token): string {
    if t.Placeholder? && !("." <= t.name) then "{." + (t.name + "}") else Written(t)
  }

  function ShownAll(ts: seq<Token>): string {
    if ts == [] then "" else Shown(ts[0]) + ShownAll(ts[1..])
  }

  // ---------- The pattern, one piece at a time ----------

  /** Text without an opening brace is copied. */
  lemma {:induction false} CopiesText(x: string, y: string)
    requires forall k :: 0 <= k < |x| ==> x[k] != '{'
    ensures Rewrite(x + y) == x + Rewrite(y)
  {
    if x == "" {
      Strings.NoText(y);
      Strings.NoText(Rewrite(y));
    } else {
      CopiesText(x[1..], y);
      assert (x + y)[0] == x[0] && (x + y)[1..] == x[1..] + y;
      Strings.Front(x);
      Strings.Assoc([x[0]], x[1..], Rewrite(y));
    }
  }

  /** A brace that the pattern does not match is copied with the text behind it. */
  lemma BraceCopied(x: string, y: string)
    requires NoBrace(x) && !Matches("{" + (x + y))
    ensures Rewrite("{" + (x + y)) == ("{" + x) + Rewrite(y)
  {
    Strings.Cut("{", x + y);
    CopiesText(x, y);
    Strings.Assoc("{", x, Rewrite(y));
  }

  lemma {:induction false} RunStops(x: string, k: nat)
    requires k < |x| && !Inner(x[k])
    ensures Run(x) <= k
  {
    if k > 0 && Inner(x[0]) {
      RunStops(x[1..], k - 1);
    }
  }

  /** The character behind the longest run is one that stops it. */
  lemma NoMatchBefore(x: string, k: nat, y: string)
    requires NoBrace(x) && (k < |x| ==> !Inner(x[k])) && (k >= |x| ==> y == "" || y[0] == '{')
    ensures !Matches("{" + (x + y))
  {
    Strings.Cut("{", x + y);
    if k < |x| {
      RunStops(x + y, k);
    } else if y != "" {
      assert (x + y)[|x|] == '{';
      RunStops(x + y, |x|);
    }
    var n := Run(x + y);
    assert n < |x| ==> (x + y)[n] == x[n];
  }

  /** Nothing or white space between the braces is no placeholder. */
  lemma BracesCopied(inner: string, y: string)
    requires Well(Braces(inner))
    ensures Rewrite("{" + (inner + "}") + y) == "{" + (inner + "}") + Rewrite(y)
  {
    var s := "{" + (inner + ("}" + y));
    Strings.Assoc("{", inner + "}", y);
    Strings.Assoc(inner, "}", y);
    BracesUnmatched(inner, y);
    BraceCopied(inner, "}" + y);
    CopiesText("}", y);
    Strings.Assoc("{" + inner, "}", Rewrite(y));
    Strings.Assoc("{", inner, "}");
  }

  lemma BracesUnmatched(inner: string, y: string)
    requires Well(Braces(inner))
    ensures !Matches("{" + (inner + ("}" + y)))
  {
    if inner == "" {
      Strings.NoText("}" + y);
      Strings.Cut("{", "}" + y);
      assert ("}" + y)[0] == '}';
    } else {
      var k :| 0 <= k < |inner| && inner[k] in PATTERN_SPACE;
      NoMatchBefore(inner, k, "}" + y);
    }
  }

  lemma OpenedCopied(inner: string, y: string)
    requires NoBrace(inner) && (y == "" || y[0] == '{')
    ensures Rewrite(("{" + inner) + y) == ("{" + inner) + Rewrite(y)
  {
    Strings.Assoc("{", inner, y);
    NoMatchBefore(inner, |inner|, y);
    BraceCopied(inner, y);
  }

  lemma PlaceholderConverted(t: Token, y: string)
    requires t.Placeholder? && Well(t)
    ensures Rewrite(Written(t) + y) == Shown(t) + Rewrite(y)
  {
    var x := t.before + (t.name + t.after);
    var s := Written(t) + y;
    Strings.Assoc("{", x, "}");
    forall k | 0 <= k < |x| ensures Inner(x[k]) {
      assert x[k] !in "{}" && x[k] !in PATTERN_SPACE;
    }
    PlaceholderMatches(x, y);
    Strings.Split(s, MatchLength(s));
    assert s[..MatchLength(s)] == Written(t);
    NameConverted(t);
  }

  lemma NameConverted(t: Token)
    requires t.Placeholder? && Well(t)
    ensures Convert(Written(t)) == Shown(t)
  {
    var w := Written(t);
    assert w[1..|w| - 1] == t.before + (t.name + t.after);
    IcuLayouts.TrimsBoth(t.before, t.name, t.after);
    assert "." <= t.name <==> t.name != "" && t.name[0] == '.';
    Strings.Assoc("{.", t.name, "}");
  }

  lemma RewriteToken(t: Token, y: string)
    requires Well(t) && (t.Opened? ==> y == "" || y[0] == '{')
    ensures Rewrite(Written(t) + y) == Shown(t) + Rewrite(y)
  {
    match t
    case Other(c) => CopiesText([c], y);
    case Placeholder(_, _, _) => PlaceholderConverted(t, y);
    case Braces(inner) => BracesCopied(inner, y);
    case Opened(inner) => OpenedCopied(inner, y);
  }

  lemma FirstPieces(ts: seq<Token>)
    requires ts != [] && AllWell(ts)
    ensures Well(ts[0]) && AllWell(ts[1..])
    ensures ts[0].Opened? ==> WrittenAll(ts[1..]) == "" || WrittenAll(ts[1..])[0] == '{'
  {
    if ts[0].Opened? && |ts| > 1 {
      assert !ts[0 + 1].Other?;
    }
  }

  lemma {:induction false} RewriteTokens(ts: seq<Token>)
    requires AllWell(ts)
    ensures Rewrite(WrittenAll(ts)) == ShownAll(ts)
  {
    if ts != [] {
      FirstPieces(ts);
      RewriteTokens(ts[1..]);
      RewriteToken(ts[0], WrittenAll(ts[1..]));
    }
  }

  // ---------- Every text has pieces ----------

  /** The first brace from a position on, or the end. */
  lemma {:induction false} NextBrace(s: string, i: nat) returns (j: nat)
    requires i <= |s|
    ensures i <= j <= |s| && NoBrace(s[i..j]) && (j < |s| ==> s[j] in "{}")
    decreases |s| - i
  {
    if i == |s| || s[i] in "{}" {
      j := i;
    } else {
      j := NextBrace(s, i + 1);
      assert s[i..j] == [s[i]] + s[i + 1..j];
    }
  }

  /** What stands between an opening brace and the first closing one behind it. */
  lemma InBraces(inner: string) returns (t: Token)
    requires NoBrace(inner)
    ensures Well(t) && !t.Opened? && Written(t) == "{" + (inner + "}")
  {
    if inner == "" || !NoPatternSpace(inner) {
      t := Braces(inner);
    } else {
      var before, name, after := IcuLayouts.TrimParts(inner);
      t := Placeholder(before, name, after);
    }
  }

  /** The piece a text begins with. */
  lemma FirstPiece(s: string) returns (t: Token, rest: string)
    requires s != ""
    ensures Well(t) && s == Written(t) + rest && |rest| < |s|
    ensures t.Opened? ==> rest == "" || rest[0] == '{'
  {
    Strings.Front(s);
    if s[0] != '{' {
      t, rest := Other(s[0]), s[1..];
    } else {
      var j := NextBrace(s, 1);
      var inner := s[1..j];
      if j < |s| && s[j] == '}' {
        t := InBraces(inner);
        rest := s[j + 1..];
        assert s == "{" + (inner + "}") + rest;
      } else {
        t, rest := Opened(inner), s[j..];
        assert s == ("{" + inner) + rest;
      }
    }
  }

  lemma {:induction false} EveryText(s: string) returns (ts: seq<Token>)
    ensures AllWell(ts) && WrittenAll(ts) == s
    decreases |s|
  {
    if s == "" {
      ts := [];
    } else {
      var t, rest := FirstPiece(s);
      var more := EveryText(rest);
      ts := [t] + more;
      assert ts[1..] == more;
      if t.Opened? && more != [] {
        assert WrittenAll(more)[0] == Written(more[0])[0];
      }
    }
  }

  // ---------- The sign for the plural variable ----------

  predicate NoHash(s: string) {
    forall k :: 0 <= k < |s| ==> s[k] != '#'
  }

  /** Texts with a separator between them. */
  function Joined(parts: seq<string>, separator: string): string {
    if parts == [] then ""
    else if |parts| == 1 then parts[0]
    else parts[0] + (separator + Joined(parts[1..], separator))
  }

  lemma {:induction false} HashFreeCopied(x: string, y: string, pluralVar: string)
    requires NoHash(x)
    ensures ReplaceHash(x + y, pluralVar) == x + ReplaceHash(y, pluralVar)
  {
    if x == "" {
      Strings.NoText(y);
      Strings.NoText(ReplaceHash(y, pluralVar));
    } else {
      HashFreeCopied(x[1..], y, pluralVar);
      assert (x + y)[0] == x[0] && (x + y)[1..] == x[1..] + y;
      Strings.Front(x);
      Strings.Assoc([x[0]], x[1..], ReplaceHash(y, pluralVar));
    }
  }

  lemma {:induction false} HashReplaced(parts: seq<string>, pluralVar: string)
    requires forall k :: 0 <= k < |parts| ==> NoHash(parts[k])
    ensures ReplaceHash(Joined(parts, "#"), pluralVar) == Joined(parts, "{." + pluralVar + "}")
  {
    if |parts| == 1 {
      HashFreeCopied(parts[0], "", pluralVar);
      Strings.NoText(parts[0]);
    } else if parts != [] {
      var rest := Joined(parts[1..], "#");
      HashReplaced(parts[1..], pluralVar);
      HashFreeCopied(parts[0], "#" + rest, pluralVar);
      Strings.Cut("#", rest);
    }
  }

  lemma {:induction false} HashParts(s: string) returns (parts: seq<string>)
    ensures parts != [] && (forall k :: 0 <= k < |parts| ==> NoHash(parts[k])) && Joined(parts, "#") == s
  {
    if s == "" {
      parts := [""];
    } else {
      var rest := HashParts(s[1..]);
      Strings.Front(s);
      if s[0] == '#' {
        parts := [""] + rest;
        assert parts[1..] == rest;
        Strings.NoText("#" + s[1..]);
      } else {
        parts := [[s[0]] + rest[0]] + rest[1..];
        assert parts[1..] == rest[1..];
        if |rest| > 1 {
          Strings.Assoc([s[0]], rest[0], "#" + Joined(rest[1..], "#"));
        }
      }
    }
  }

  // ---------- Both steps ----------

  /** What stands for the sign, unless the message has no plural variable. */
  function Mark(pluralVar: string): string {
    if pluralVar == "" then "#" else "{." + pluralVar + "}"
  }

  /** Every text is the parts between its # signs; with the mark in place of each it is a text of pieces;
      and the conversion shows these pieces, the placeholders with a dot, all else as it is. */
  lemma ConvertedText(s: string, pluralVar: string) returns (parts: seq<string>, ts: seq<Token>)
    ensures (forall k :: 0 <= k < |parts| ==> NoHash(parts[k])) && s == Joined(parts, "#")
    ensures AllWell(ts) && WrittenAll(ts) == Joined(parts, Mark(pluralVar))
    ensures ConvertPlaceholders(s, pluralVar) == ShownAll(ts)
  {
    parts := HashParts(s);
    ts := EveryText(Joined(parts, Mark(pluralVar)));
    ConvertedTokens(parts, ts, pluralVar);
  }

  /** Whatever the parts and the pieces of a text are, the conversion shows the pieces. */
  lemma ConvertedTokens(parts: seq<string>, ts: seq<Token>, pluralVar: string)
    requires forall k :: 0 <= k < |parts| ==> NoHash(parts[k])
    requires AllWell(ts) && WrittenAll(ts) == Joined(parts, Mark(pluralVar))
    ensures ConvertPlaceholders(Joined(parts, "#"), pluralVar) == ShownAll(ts)
  {
    if pluralVar != "" {
      HashReplaced(parts, pluralVar);
    }
    RewriteTokens(ts);
  }

  lemma OnePiece(t: Token)
    requires Well(t)
    ensures AllWell([t]) && WrittenAll([t]) == Written(t) && ShownAll([t]) == Shown(t)
  {
    assert Written(t) + "" == Written(t) && Shown(t) + "" == Shown(t);
  }

  predicate Name(s: string) {
    s != "" && NoBrace(s) && NoPatternSpace(s) && IcuLayouts.Bare(s)
  }

  lemma NamePiece(name: string) returns (t: Token)
    requires Name(name)
    ensures Well(t) && Written(t) == "{" + (name + "}")
    ensures Shown(t) == if "." <= name then "{" + (name + "}") else "{." + (name + "}")
  {
    t := Placeholder("", name, "");
    Strings.NoText(name);
  }

  /** A name in braces becomes the name with a dot in braces, unless it has one. */
  lemma NameShown(name: string, pluralVar: string)
    requires Name(name) && NoHash(name)
    ensures ConvertPlaceholders("{" + (name + "}"), pluralVar) ==
      if "." <= name then "{" + (name + "}") else "{." + (name + "}")
  {
    var t := NamePiece(name);
    OnePiece(t);
    ConvertedTokens([Written(t)], [t], pluralVar);
  }

  lemma DottedName(pluralVar: string) returns (name: string)
    requires Name(pluralVar)
    ensures name == "." + pluralVar && "." <= name && Name(name)
  {
    name := "." + pluralVar;
    assert name[0] == '.';
  }

  /** The sign becomes the plural variable with a dot in braces. */
  lemma SignShown(pluralVar: string)
    requires Name(pluralVar)
    ensures ConvertPlaceholders("#", pluralVar) == "{." + pluralVar + "}"
  {
    var name := DottedName(pluralVar);
    var t := NamePiece(name);
    OnePiece(t);
    MarkJoined(pluralVar);
    ConvertedTokens(["", ""], [t], pluralVar);
  }

  lemma MarkJoined(pluralVar: string)
    ensures "{." + pluralVar + "}" == "{" + (("." + pluralVar) + "}") && Joined(["", ""], "#") == "#"
    ensures Joined(["", ""], "{." + pluralVar + "}") == "{." + pluralVar + "}"
  {
    assert ["", ""][1..] == [""];
  }
}
