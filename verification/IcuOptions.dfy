/** The scanner that cuts the body of an ICU plural message into its options. */
module IcuOptions {
  import Strings

  datatype Opt = Opt(key: string, text: string)

  datatype Scanned = Options(opts: seq<Opt>) | EmptyKey | NoBrace(key: string) | Unclosed(key: string)

  /** The characters the scanner skips before a key. */
  predicate Blank(c: char) {
    c == ' ' || c == '\t' || c == '\n'
  }

  /** unicode.IsSpace. */
  predicate Space(c: char) {
    || '\t' <= c <= '\r' || c == ' ' || c == '\U{85}' || c == '\U{A0}' || c == '\U{1680}'
    || '\U{2000}' <= c <= '\U{200A}' || c == '\U{2028}' || c == '\U{2029}' || c == '\U{202F}'
    || c == '\U{205F}' || c == '\U{3000}'
  }

  function TrimLeft(s: string): string {
    if s != "" && Space(s[0]) then TrimLeft(s[1..]) else s
  }

  function TrimRight(s: string): string {
    if s != "" && Space(s[|s| - 1]) then TrimRight(s[..|s| - 1]) else s
  }

  /** strings.TrimSpace. */
  function Trim(s: string): string {
    TrimRight(TrimLeft(s))
  }

  // ---------- The scanner ----------

  function SkipBlanks(b: string, i: nat): (r: nat)
    requires i <= |b|
    ensures i <= r <= |b|
    decreases |b| - i
  {
    if i < |b| && Blank(b[i]) then SkipBlanks(b, i + 1) else i
  }

  function KeyEnd(b: string, i: nat): (r: nat)
    requires i <= |b|
    ensures i <= r <= |b|
    decreases |b| - i
  {
    if i < |b| && b[i] != ' ' && b[i] != '{' then KeyEnd(b, i + 1) else i
  }

  function NextBrace(b: string, i: nat): (r: nat)
    requires i <= |b|
    ensures i <= r <= |b| && (r < |b| ==> b[r] == '{')
    decreases |b| - i
  {
    if i < |b| && b[i] != '{' then NextBrace(b, i + 1) else i
  }

  function Deeper(c: char, depth: nat): nat
    requires depth > 0
  {
    if c == '{' then depth + 1 else if c == '}' then depth - 1 else depth
  }

  /** Where counting braces from `depth` at position `i` stops, and with which depth. */
  function Closing(b: string, i: nat, depth: nat): (r: (nat, nat))
    requires i <= |b|
    ensures i <= r.0 <= |b| && (depth > 0 && r.1 == 0 ==> i < r.0)
    decreases |b| - i
  {
    if i < |b| && depth > 0 then Closing(b, i + 1, Deeper(b[i], depth)) else (i, depth)
  }

  datatype Step = Stop(result: Scanned) | Found(option: Opt, next: nat)

  /** The next option from position `i` on, or what ends the scan. */
  function NextOption(b: string, i: nat): (r: Step)
    requires i <= |b|
    ensures r.Found? ==> i < r.next <= |b|
  {
    var start := SkipBlanks(b, i);
    if start >= |b| then Stop(Options([]))
    else
      var end := KeyEnd(b, start);
      var key := Trim(b[start..end]);
      if key == "" then Stop(EmptyKey)
      else
        var brace := NextBrace(b, end);
        if brace >= |b| then Stop(NoBrace(key))
        else
          var (next, depth) := Closing(b, brace + 1, 1);
          if depth != 0 then Stop(Unclosed(key)) else Found(Opt(key, Trim(b[brace + 1..next - 1])), next)
  }

  function Scan(b: string, i: nat): Scanned
    requires i <= |b|
    decreases |b| - i
  {
    match NextOption(b, i)
    case Stop(result) => result
    case Found(option, next) => Prepended([option], Scan(b, next))
  }

  function Prepended(opts: seq<Opt>, rest: Scanned): Scanned {
    if rest.Options? then Options(opts + rest.opts) else rest
  }

  /** The loop over blanks. */
  method SkipBlankLoop(body: string, from: nat) returns (i: nat)
    requires from <= |body|
    ensures i == SkipBlanks(body, from)
  {
    i := from;
    while i < |body| && (body[i] == ' ' || body[i] == '\t' || body[i] == '\n')
      invariant from <= i <= |body| && SkipBlanks(body, from) == SkipBlanks(body, i)
    {
      i := i + 1;
    }
  }

  /** The loops over a key and over whatever stands between it and its brace. */
  method KeyLoops(body: string, startKey: nat) returns (key: string, i: nat)
    requires startKey <= |body|
    ensures key == Trim(body[startKey..KeyEnd(body, startKey)])
    ensures i == if key == "" then KeyEnd(body, startKey) else NextBrace(body, KeyEnd(body, startKey))
  {
    i := startKey;
    while i < |body| && body[i] != ' ' && body[i] != '{'
      invariant startKey <= i <= |body| && KeyEnd(body, startKey) == KeyEnd(body, i)
    {
      i := i + 1;
    }
    key := Trim(body[startKey..i]);
    if key == "" {
      return;
    }
    ghost var endKey := i;
    while i < |body| && body[i] != '{'
      invariant endKey <= i <= |body| && NextBrace(body, endKey) == NextBrace(body, i)
    {
      i := i + 1;
    }
  }

  /** The loop that counts nested braces. */
  method BraceLoop(body: string, startText: nat) returns (i: nat, depth: nat)
    requires startText <= |body|
    ensures (i, depth) == Closing(body, startText, 1)
  {
    i, depth := startText, 1;
    while i < |body| && depth > 0
      invariant startText <= i <= |body| && Closing(body, startText, 1) == Closing(body, i, depth)
    {
      if body[i] == '{' {
        depth := depth + 1;
      } else if body[i] == '}' {
        depth := depth - 1;
      }
      i := i + 1;
    }
  }

  /** One turn of the scanner's main loop. */
  method ReadOption(body: string, i: nat) returns (step: Step)
    requires i <= |body|
    ensures step == NextOption(body, i)
  {
    var startKey := SkipBlankLoop(body, i);
    if startKey >= |body| {
      return Stop(Options([]));
    }
    var key, brace := KeyLoops(body, startKey);
    if key == "" {
      return Stop(EmptyKey);
    }
    if brace >= |body| || body[brace] != '{' {
      return Stop(NoBrace(key));
    }
    var next, depth := BraceLoop(body, brace + 1);
    if depth != 0 {
      return Stop(Unclosed(key));
    }
    var text := Trim(body[brace + 1..next - 1]);
    return Found(Opt(key, text), next);
  }

  method ExtractOptions(body: string) returns (r: Scanned)
    ensures r == Scan(body, 0)
  {
    var options: seq<Opt> := [];
    var i := 0;
    while i < |body|
      invariant 0 <= i <= |body|
      invariant Scan(body, 0) == Prepended(options, Scan(body, i))
    {
      var step := ReadOption(body, i);
      match step {
        case Stop(result) =>
          return Prepended(options, result);
        case Found(option, next) =>
          AppendOption(options, option, Scan(body, next));
          options := options + [option];
          i := next;
      }
    }
    NothingLeft(body);
    return Options(options);
  }

  lemma NothingLeft(b: string)
    ensures Scan(b, |b|) == Options([])
  {}

  lemma AppendOption(options: seq<Opt>, option: Opt, rest: Scanned)
    ensures Prepended(options, Prepended([option], rest)) == Prepended(options + [option], rest)
  {
    if rest.Options? {
      assert options + ([option] + rest.opts) == options + [option] + rest.opts;
    }
  }

  // ---------- Laid-out options ----------

  /** How deep braces are nested at the end of a text read from a depth; none when a brace closes
      more than was open. */
  predicate BalancedFrom(text: string, depth: nat)
    decreases |text|
  {
    if text == "" then depth == 0
    else if text[0] == '{' then BalancedFrom(text[1..], depth + 1)
    else if text[0] == '}' then depth > 0 && BalancedFrom(text[1..], depth - 1)
    else BalancedFrom(text[1..], depth)
  }

  predicate Balanced(text: string) {
    BalancedFrom(text, 0)
  }

  predicate AllBlank(s: string) {
    forall k :: 0 <= k < |s| ==> Blank(s[k])
  }

  /** What the scanner takes for a key: no blank in front, no space or brace inside. */
  predicate KeyText(s: string) {
    && Trim(s) != "" && !Blank(s[0])
    && forall k :: 0 <= k < |s| ==> s[k] != ' ' && s[k] != '{'
  }

  /** What it ignores between a key and its brace. */
  predicate GapText(s: string) {
    && (s == "" || s[0] == ' ')
    && forall k :: 0 <= k < |s| ==> s[k] != '{'
  }

  /** One option as written: blanks, key, gap, and the text in braces. */
  datatype Piece = Piece(blanks: string, key: string, gap: string, text: string)

  predicate WellFormed(p: Piece) {
    AllBlank(p.blanks) && KeyText(p.key) && GapText(p.gap) && Balanced(p.text)
  }

  function Written(p: Piece): string {
    p.blanks + (p.key + (p.gap + ("{" + (p.text + "}"))))
  }

  function Layout(ps: seq<Piece>, tail: string): string {
    if ps == [] then tail else Written(ps[0]) + Layout(ps[1..], tail)
  }

  function OptionOf(p: Piece): Opt {
    Opt(Trim(p.key), Trim(p.text))
  }

  function OptionsOf(ps: seq<Piece>): seq<Opt> {
    if ps == [] then [] else [OptionOf(ps[0])] + OptionsOf(ps[1..])
  }

  predicate AllWellFormed(ps: seq<Piece>) {
    forall k :: 0 <= k < |ps| ==> WellFormed(ps[k])
  }

  lemma {:induction false} SkipsBlanks(b: string, i: nat, j: nat)
    requires i <= j <= |b| && (forall k :: i <= k < j ==> Blank(b[k])) && (j < |b| ==> !Blank(b[j]))
    ensures SkipBlanks(b, i) == j
    decreases j - i
  {
    if i < j { SkipsBlanks(b, i + 1, j); }
  }

  lemma {:induction false} EndsKey(b: string, i: nat, j: nat)
    requires i <= j <= |b| && (forall k :: i <= k < j ==> b[k] != ' ' && b[k] != '{')
    requires j < |b| ==> b[j] == ' ' || b[j] == '{'
    ensures KeyEnd(b, i) == j
    decreases j - i
  {
    if i < j { EndsKey(b, i + 1, j); }
  }

  lemma {:induction false} FindsBrace(b: string, i: nat, j: nat)
    requires i <= j <= |b| && (forall k :: i <= k < j ==> b[k] != '{') && (j < |b| ==> b[j] == '{')
    ensures NextBrace(b, i) == j
    decreases j - i
  {
    if i < j { FindsBrace(b, i + 1, j); }
  }

  lemma {:induction false} FindsClosing(b: string, i: nat, j: nat, depth: nat)
    requires i <= j < |b| && BalancedFrom(b[i..j], depth) && b[j] == '}'
    ensures Closing(b, i, depth + 1) == (j + 1, 0)
    decreases j - i
  {
    if i < j {
      assert b[i..j][1..] == b[i + 1..j];
      FindsClosing(b, i + 1, j, Deeper(b[i], depth + 1) - 1);
    }
  }

  lemma Cut(b: string, i: nat, x: string, y: string)
    requires i <= |b| && b[i..] == x + y
    ensures i + |x| <= |b| && b[i..i + |x|] == x && b[i + |x|..] == y
  {
    assert b[i..i + |x|] == b[i..][..|x|] && b[i + |x|..] == b[i..][|x|..];
  }

  lemma WrittenThen(p: Piece, rest: string)
    ensures Written(p) + rest == p.blanks + (p.key + (p.gap + ("{" + (p.text + ("}" + rest)))))
  {
    var e := p.text + "}";
    Strings.Assoc(p.text, "}", rest);
    Strings.Assoc("{", e, rest);
    Strings.Assoc(p.gap, "{" + e, rest);
    Strings.Assoc(p.key, p.gap + ("{" + e), rest);
    Strings.Assoc(p.blanks, p.key + (p.gap + ("{" + e)), rest);
  }

  /** Where the parts of a written option are. */
  lemma PieceCuts(b: string, i: nat, p: Piece, rest: string) returns (start: nat, end: nat, brace: nat, close: nat)
    requires i <= |b| && b[i..] == Written(p) + rest
    ensures i <= start <= end <= brace < close < |b|
    ensures b[i..start] == p.blanks && b[start..end] == p.key && b[end..brace] == p.gap
    ensures b[brace..brace + 1] == "{" && b[brace + 1..close] == p.text && b[close..close + 1] == "}"
    ensures close + 1 == i + |Written(p)|
  {
    var braces := "{" + (p.text + ("}" + rest));
    WrittenThen(p, rest);
    start, end, brace := FrontCuts(b, i, p.blanks, p.key, p.gap, braces);
    close := BackCuts(b, brace, p.text, rest);
  }

  lemma FrontCuts(b: string, i: nat, x: string, y: string, z: string, rest: string)
    returns (start: nat, end: nat, brace: nat)
    requires i <= |b| && b[i..] == x + (y + (z + rest))
    ensures i <= start <= end <= brace <= |b| && brace == i + |x| + |y| + |z|
    ensures b[i..start] == x && b[start..end] == y && b[end..brace] == z && b[brace..] == rest
  {
    start, end, brace := i + |x|, i + |x| + |y|, i + |x| + |y| + |z|;
    Cut(b, i, x, y + (z + rest));
    Cut(b, start, y, z + rest);
    Cut(b, end, z, rest);
  }

  lemma BackCuts(b: string, brace: nat, text: string, rest: string) returns (close: nat)
    requires brace <= |b| && b[brace..] == "{" + (text + ("}" + rest))
    ensures brace < close < |b| && close == brace + 1 + |text|
    ensures b[brace..brace + 1] == "{" && b[brace + 1..close] == text && b[close..close + 1] == "}"
  {
    close := brace + 1 + |text|;
    Cut(b, brace, "{", text + ("}" + rest));
    Cut(b, brace + 1, text, "}" + rest);
    Cut(b, close, "}", rest);
  }

  lemma OneChar(b: string, i: nat, c: char)
    requires i < |b| && b[i..i + 1] == [c]
    ensures b[i] == c
  {
    assert b[i..i + 1][0] == b[i];
  }

  /** The scanner reads one well-formed option as written, whatever follows. */
  lemma ReadsPiece(b: string, i: nat, p: Piece, rest: string)
    requires i <= |b| && b[i..] == Written(p) + rest && WellFormed(p)
    ensures NextOption(b, i) == Found(OptionOf(p), i + |Written(p)|)
  {
    var start, end, brace, close := PieceCuts(b, i, p, rest);
    OneChar(b, brace, '{');
    OneChar(b, close, '}');
    PieceRead(b, i, start, end, brace, close);
  }

  /** The characters of a cut. */
  lemma CutChars(b: string, i: nat, j: nat)
    requires i <= j <= |b|
    ensures forall k :: i <= k < j ==> b[k] == b[i..j][k - i]
    ensures i < j ==> b[i..j][0] == b[i]
  {}

  lemma BlanksRead(b: string, i: nat, start: nat)
    requires i <= start < |b| && AllBlank(b[i..start]) && !Blank(b[start])
    ensures SkipBlanks(b, i) == start
  {
    CutChars(b, i, start);
    SkipsBlanks(b, i, start);
  }

  lemma KeyTextRead(b: string, start: nat, end: nat)
    requires start <= end <= |b| && KeyText(b[start..end]) && (end < |b| ==> b[end] == ' ' || b[end] == '{')
    ensures KeyEnd(b, start) == end
  {
    CutChars(b, start, end);
    EndsKey(b, start, end);
  }

  lemma KeyStart(b: string, start: nat, end: nat)
    requires start <= end <= |b| && KeyText(b[start..end])
    ensures start < end && !Blank(b[start])
  {
    TrimEmpty();
    CutChars(b, start, end);
  }

  lemma GapRead(b: string, end: nat, brace: nat)
    requires end <= brace <= |b| && GapText(b[end..brace]) && (brace < |b| ==> b[brace] == '{')
    ensures NextBrace(b, end) == brace && (end < |b| ==> b[end] == ' ' || b[end] == '{')
  {
    CutChars(b, end, brace);
    FindsBrace(b, end, brace);
  }

  /** The five cuts of an option, from their contents to what the scanner makes of them. */
  lemma PieceRead(b: string, i: nat, start: nat, end: nat, brace: nat, close: nat)
    requires i <= start <= end <= brace < close < |b|
    requires AllBlank(b[i..start]) && KeyText(b[start..end]) && GapText(b[end..brace]) && b[brace] == '{'
    requires Balanced(b[brace + 1..close]) && b[close] == '}'
    ensures NextOption(b, i) == Found(Opt(Trim(b[start..end]), Trim(b[brace + 1..close])), close + 1)
  {
    KeyStart(b, start, end);
    GapRead(b, end, brace);
    KeyTextRead(b, start, end);
    BlanksRead(b, i, start);
    FindsClosing(b, brace + 1, close, 0);
  }

  /** Completeness: the scanner returns exactly the options that were laid out. */
  lemma {:induction false} ScanLayout(b: string, i: nat, ps: seq<Piece>, tail: string)
    requires i <= |b| && b[i..] == Layout(ps, tail) && AllWellFormed(ps) && AllBlank(tail)
    ensures Scan(b, i) == Options(OptionsOf(ps))
    decreases |ps|
  {
    if ps == [] {
      forall k | i <= k < |b| ensures Blank(b[k]) { assert b[k] == b[i..][k - i]; }
      SkipsBlanks(b, i, |b|);
    } else {
      ReadsPiece(b, i, ps[0], Layout(ps[1..], tail));
      Cut(b, i, Written(ps[0]), Layout(ps[1..], tail));
      ScanLayout(b, i + |Written(ps[0])|, ps[1..], tail);
    }
  }

  // ---------- What the scanner accepts is laid out ----------

  lemma {:induction false} Skipped(b: string, i: nat)
    requires i <= |b|
    ensures var r := SkipBlanks(b, i);
      && (forall k :: i <= k < r ==> Blank(b[k]))
      && (r < |b| ==> !Blank(b[r]))
    decreases |b| - i
  {
    if i < |b| && Blank(b[i]) { Skipped(b, i + 1); }
  }

  lemma {:induction false} KeyRead(b: string, i: nat)
    requires i <= |b|
    ensures var r := KeyEnd(b, i);
      && (forall k :: i <= k < r ==> b[k] != ' ' && b[k] != '{')
      && (r < |b| ==> b[r] == ' ' || b[r] == '{')
    decreases |b| - i
  {
    if i < |b| && b[i] != ' ' && b[i] != '{' { KeyRead(b, i + 1); }
  }

  lemma {:induction false} BraceFound(b: string, i: nat)
    requires i <= |b|
    ensures forall k :: i <= k < NextBrace(b, i) ==> b[k] != '{'
    decreases |b| - i
  {
    if i < |b| && b[i] != '{' { BraceFound(b, i + 1); }
  }

  lemma BalancedNext(s: string, depth: nat)
    requires s != "" && Deeper(s[0], depth + 1) > 0 && BalancedFrom(s[1..], Deeper(s[0], depth + 1) - 1)
    ensures BalancedFrom(s, depth)
  {}

  lemma {:induction false} ClosedBalanced(b: string, i: nat, depth: nat)
    requires i <= |b| && Closing(b, i, depth + 1).1 == 0
    ensures var next := Closing(b, i, depth + 1).0;
      i < next && b[next - 1] == '}' && BalancedFrom(b[i..next - 1], depth)
    decreases |b| - i
  {
    var next := Closing(b, i, depth + 1).0;
    var d := Deeper(b[i], depth + 1);
    if d > 0 {
      ClosedBalanced(b, i + 1, d - 1);
      var inner := b[i..next - 1];
      assert inner[0] == b[i] && inner[1..] == b[i + 1..next - 1];
      BalancedNext(inner, depth);
    } else {
      assert Closing(b, i + 1, 0) == (i + 1, 0);
      assert b[i..i] == "";
    }
  }

  lemma TrimEmpty()
    ensures Trim("") == ""
  {}

  lemma CutsJoin(b: string, i: nat, start: nat, end: nat, brace: nat, next: nat)
    requires i <= start <= end <= brace < next - 1 < |b| && b[brace] == '{' && b[next - 1] == '}'
    ensures b[i..] == b[i..start] + (b[start..end] + (b[end..brace] + ("{" + (b[brace + 1..next - 1] + ("}" + b[next..])))))
  {
    JoinChar(b, next - 1);
    Join(b, brace + 1, next - 1);
    var text := b[brace + 1..next - 1] + ("}" + b[next..]);
    assert b[brace + 1..] == text;
    JoinChar(b, brace);
    assert b[brace..] == "{" + text;
    Join(b, end, brace);
    var gap := b[end..brace] + ("{" + text);
    assert b[end..] == gap;
    Join(b, start, end);
    assert b[start..] == b[start..end] + gap;
    Join(b, i, start);
  }

  lemma JoinChar(b: string, i: nat)
    requires i < |b|
    ensures b[i..] == [b[i]] + b[i + 1..]
  {}

  lemma Join(b: string, i: nat, j: nat)
    requires i <= j <= |b|
    ensures b[i..] == b[i..j] + b[j..]
  {}

  lemma CutsWellFormed(b: string, i: nat, start: nat, end: nat, brace: nat)
    requires i <= |b| && start == SkipBlanks(b, i) < |b| && end == KeyEnd(b, start) && brace == NextBrace(b, end) < |b|
    requires Trim(b[start..end]) != ""
    ensures AllBlank(b[i..start]) && KeyText(b[start..end]) && GapText(b[end..brace])
  {
    Skipped(b, i);
    KeyRead(b, start);
    BraceFound(b, end);
    TrimEmpty();
    assert b[start..end] != "" && b[start..end][0] == b[start];
    assert b[end..brace] != "" ==> b[end..brace][0] == b[end];
  }

  /** The cuts behind an option that the scanner found. */
  lemma FoundCuts(b: string, i: nat) returns (start: nat, end: nat, brace: nat, next: nat)
    requires i <= |b| && NextOption(b, i).Found?
    ensures i <= start <= end <= brace < next - 1 < |b| && b[brace] == '{' && b[next - 1] == '}'
    ensures AllBlank(b[i..start]) && KeyText(b[start..end]) && GapText(b[end..brace])
    ensures Balanced(b[brace + 1..next - 1])
    ensures NextOption(b, i) == Found(Opt(Trim(b[start..end]), Trim(b[brace + 1..next - 1])), next)
  {
    start := SkipBlanks(b, i);
    end := KeyEnd(b, start);
    brace := NextBrace(b, end);
    next := Closing(b, brace + 1, 1).0;
    CutsWellFormed(b, i, start, end, brace);
    ClosedBalanced(b, brace + 1, 0);
  }

  /** Whatever the scanner takes for an option is a well-formed one, as written. */
  lemma FoundPiece(b: string, i: nat) returns (p: Piece)
    requires i <= |b| && NextOption(b, i).Found?
    ensures WellFormed(p) && NextOption(b, i).option == OptionOf(p)
    ensures b[i..] == Written(p) + b[NextOption(b, i).next..]
  {
    var start, end, brace, next := FoundCuts(b, i);
    p := Piece(b[i..start], b[start..end], b[end..brace], b[brace + 1..next - 1]);
    CutsJoin(b, i, start, end, brace, next);
    WrittenThen(p, b[next..]);
  }

  /** Soundness: whatever the scanner accepts is a layout of the options it returns. */
  lemma {:induction false} ScannedLayout(b: string, i: nat) returns (ps: seq<Piece>, tail: string)
    requires i <= |b| && Scan(b, i).Options?
    ensures AllWellFormed(ps) && AllBlank(tail) && b[i..] == Layout(ps, tail)
    ensures Scan(b, i) == Options(OptionsOf(ps))
    decreases |b| - i
  {
    if NextOption(b, i).Stop? {
      ps, tail := [], b[i..];
      Skipped(b, i);
    } else {
      var p := FoundPiece(b, i);
      var rest;
      rest, tail := ScannedLayout(b, NextOption(b, i).next);
      ps := [p] + rest;
      assert ps[1..] == rest;
    }
  }

  ghost predicate IsLayout(body: string, opts: seq<Opt>) {
    exists ps, tail :: AllWellFormed(ps) && AllBlank(tail) && body == Layout(ps, tail) && opts == OptionsOf(ps)
  }

  /** The scanner succeeds on exactly the layouts, with exactly the options laid out. */
  lemma ScanExact(body: string, opts: seq<Opt>)
    ensures Scan(body, 0) == Options(opts) <==> IsLayout(body, opts)
  {
    assert body[0..] == body;
    if Scan(body, 0) == Options(opts) {
      var ps, tail := ScannedLayout(body, 0);
    }
    if IsLayout(body, opts) {
      var ps, tail :| AllWellFormed(ps) && AllBlank(tail) && body == Layout(ps, tail) && opts == OptionsOf(ps);
      ScanLayout(body, 0, ps, tail);
    }
  }

  // ---------- Texts and keys that trimming leaves alone ----------

  predicate Trimmed(s: string) {
    s == "" || (!Space(s[0]) && !Space(s[|s| - 1]))
  }

  lemma TrimStable(s: string)
    requires Trimmed(s)
    ensures Trim(s) == s
  {}

  lemma {:induction false} BalancedTrimLeft(s: string, depth: nat)
    ensures BalancedFrom(TrimLeft(s), depth) == BalancedFrom(s, depth)
  {
    if s != "" && Space(s[0]) { BalancedTrimLeft(s[1..], depth); }
  }

  lemma {:induction false} BalancedLast(s: string, depth: nat)
    requires s != "" && s[|s| - 1] != '{' && s[|s| - 1] != '}'
    ensures BalancedFrom(s[..|s| - 1], depth) == BalancedFrom(s, depth)
    decreases |s|
  {
    if |s| > 1 {
      assert s[1..][..|s| - 2] == s[..|s| - 1][1..];
      if s[0] == '{' {
        BalancedLast(s[1..], depth + 1);
      } else if s[0] != '}' {
        BalancedLast(s[1..], depth);
      } else if depth > 0 {
        BalancedLast(s[1..], depth - 1);
      }
    }
  }

  lemma {:induction false} BalancedTrimRight(s: string, depth: nat)
    ensures BalancedFrom(TrimRight(s), depth) == BalancedFrom(s, depth)
  {
    if s != "" && Space(s[|s| - 1]) {
      BalancedTrimRight(s[..|s| - 1], depth);
      BalancedLast(s, depth);
    }
  }

  /** Every key the scanner returns is non-empty and every text is balanced. */
  lemma {:induction false} ReturnedOptions(b: string, i: nat)
    requires i <= |b| && Scan(b, i).Options?
    ensures forall k :: 0 <= k < |Scan(b, i).opts| ==> Scan(b, i).opts[k].key != "" && Balanced(Scan(b, i).opts[k].text)
    decreases |b| - i
  {
    if NextOption(b, i).Found? {
      var p := FoundPiece(b, i);
      BalancedTrimLeft(p.text, 0);
      BalancedTrimRight(TrimLeft(p.text), 0);
      ReturnedOptions(b, NextOption(b, i).next);
    }
  }

  /** A key without white space or opening braces, and a trimmed and balanced text. */
  predicate Plain(o: Opt) {
    && o.key != "" && (forall k :: 0 <= k < |o.key| ==> !Space(o.key[k]) && o.key[k] != '{')
    && Trimmed(o.text) && Balanced(o.text)
  }

  /** Plain options, laid out with any blanks in front of the keys and any spaces behind them. */
  predicate LaysOut(p: Piece, o: Opt) {
    && p.key == o.key && p.text == o.text && AllBlank(p.blanks)
    && forall k :: 0 <= k < |p.gap| ==> p.gap[k] == ' '
  }

  lemma PlainOption(p: Piece, o: Opt)
    requires Plain(o) && LaysOut(p, o)
    ensures WellFormed(p) && OptionOf(p) == o
  {
    TrimStable(o.key);
    TrimStable(o.text);
  }

  lemma {:induction false} PlainOptions(ps: seq<Piece>, opts: seq<Opt>)
    requires |ps| == |opts| && forall k :: 0 <= k < |ps| ==> Plain(opts[k]) && LaysOut(ps[k], opts[k])
    ensures AllWellFormed(ps) && OptionsOf(ps) == opts
  {
    if ps != [] {
      PlainOption(ps[0], opts[0]);
      PlainOptions(ps[1..], opts[1..]);
      assert opts == [opts[0]] + opts[1..];
      assert forall k :: 0 < k < |ps| ==> ps[k] == ps[1..][k - 1];
    }
  }

  /** Plain options come back exactly, however they are spaced. */
  lemma PlainRoundTrip(ps: seq<Piece>, opts: seq<Opt>, tail: string)
    requires |ps| == |opts| && (forall k :: 0 <= k < |ps| ==> Plain(opts[k]) && LaysOut(ps[k], opts[k]))
    requires AllBlank(tail)
    ensures Scan(Layout(ps, tail), 0) == Options(opts)
  {
    PlainOptions(ps, opts);
    assert Layout(ps, tail)[0..] == Layout(ps, tail);
    ScanLayout(Layout(ps, tail), 0, ps, tail);
  }
}
