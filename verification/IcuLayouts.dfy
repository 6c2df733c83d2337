/** What the option scanner makes of a body, by the characters of the body: options and errors. */
module IcuLayouts {
  import opened IcuOptions
  import opened IcuPlaceholders
  import Strings

  /** The white space of Unicode. */
  predicate White(c: char) {
    c in {
      '\t', '\n', '\U{B}', '\U{C}', '\r', ' ', '\U{85}', '\U{A0}', '\U{1680}', '\U{2000}', '\U{2001}', '\U{2002}',
      '\U{2003}', '\U{2004}', '\U{2005}', '\U{2006}', '\U{2007}', '\U{2008}', '\U{2009}', '\U{200A}', '\U{2028}',
      '\U{2029}', '\U{202F}', '\U{205F}', '\U{3000}'
    }
  }

  predicate AllWhite(s: string) {
    forall k :: 0 <= k < |s| ==> White(s[k])
  }

  predicate AllIn(s: string, cs: string) {
    forall k :: 0 <= k < |s| ==> s[k] in cs
  }

  predicate NoneOf(s: string, cs: string) {
    forall k :: 0 <= k < |s| ==> s[k] !in cs
  }

  lemma SpaceIsWhite(c: char)
    ensures Space(c) <==> White(c)
  {}

  predicate Bare(s: string) {
    s == "" || (!White(s[0]) && !White(s[|s| - 1]))
  }

  lemma {:induction false} TrimsLeft(x: string, s: string)
    requires AllWhite(x) && (s == "" || !White(s[0]))
    ensures TrimLeft(x + s) == s
  {
    if x == "" {
      Strings.NoText(s);
      if s != "" { SpaceIsWhite(s[0]); }
    } else {
      SpaceIsWhite(x[0]);
      assert (x + s)[0] == x[0] && (x + s)[1..] == x[1..] + s;
      TrimsLeft(x[1..], s);
    }
  }

  lemma {:induction false} TrimsRight(s: string, x: string)
    requires AllWhite(x) && (s == "" || !White(s[|s| - 1]))
    ensures TrimRight(s + x) == s
  {
    if x == "" {
      Strings.NoText(s);
      if s != "" { SpaceIsWhite(s[|s| - 1]); }
    } else {
      var n := |x| - 1;
      SpaceIsWhite(x[n]);
      assert (s + x)[|s + x| - 1] == x[n] && (s + x)[..|s + x| - 1] == s + x[..n];
      TrimsRight(s, x[..n]);
    }
  }

  /** strings.TrimSpace takes white space off both ends and nothing else. */
  lemma TrimsBoth(x: string, s: string, y: string)
    requires AllWhite(x) && AllWhite(y) && Bare(s)
    ensures Trim(x + (s + y)) == s
  {
    if s == "" {
      Strings.NoText(y);
      Strings.NoText(x + y);
      TrimsLeft(x + y, "");
    } else {
      assert (s + y)[0] == s[0];
      TrimsLeft(x, s + y);
      TrimsRight(s, y);
    }
  }

  // ---------- Braces ----------

  /** How many braces are open at the end of a text. */
  function Net(s: string): int {
    Count(s, '{') - Count(s, '}')
  }

  /** No brace of the text closes more than is open. */
  ghost predicate StaysOpen(s: string, depth: nat) {
    forall k :: 0 <= k <= |s| ==> depth + Net(s[..k]) >= 0
  }

  /** Every brace of the text is closed in it, and none is closed that was not open. */
  ghost predicate Nested(s: string) {
    Net(s) == 0 && StaysOpen(s, 0)
  }

  function Turn(c: char): int {
    if c == '{' then 1 else if c == '}' then -1 else 0
  }

  lemma NetFront(s: string, k: nat)
    requires 0 < k <= |s|
    ensures Net(s[..k]) == Turn(s[0]) + Net(s[1..][..k - 1])
  {
    assert s[..k][1..] == s[1..][..k - 1];
  }

  lemma NetStep(s: string)
    requires s != ""
    ensures Net(s) == Turn(s[0]) + Net(s[1..])
  {}

  lemma StaysOpenStep(s: string, depth: nat)
    requires s != ""
    ensures StaysOpen(s, depth) <==> depth + Turn(s[0]) >= 0 && StaysOpen(s[1..], depth + Turn(s[0]))
  {
    assert Net(s[..0]) == 0 && Net(s[1..][..0]) == 0;
    forall k | 0 < k <= |s| ensures Net(s[..k]) == Turn(s[0]) + Net(s[1..][..k - 1]) {
      NetFront(s, k);
    }
    if StaysOpen(s, depth) {
      assert depth + Net(s[..1]) >= 0;
      forall k | 0 <= k <= |s[1..]| ensures depth + Turn(s[0]) + Net(s[1..][..k]) >= 0 {
        assert depth + Net(s[..k + 1]) >= 0;
      }
    }
  }

  lemma {:induction false} BalancedIsNested(s: string, depth: nat)
    ensures BalancedFrom(s, depth) <==> depth + Net(s) == 0 && StaysOpen(s, depth)
    decreases |s|
  {
    if s == "" {
      assert Net(s[..0]) == 0;
    } else {
      StaysOpenStep(s, depth);
      NetStep(s);
      if depth + Turn(s[0]) >= 0 {
        BalancedIsNested(s[1..], depth + Turn(s[0]));
      }
    }
  }

  // ---------- Options ----------

  /** A key as typed: blanks, white space that is no blank, the key, white space that is no space, and
      whatever starts with a space and has no opening brace. */
  datatype TypedKey = TypedKey(blanks: string, lead: string, key: string, trail: string, gap: string)

  /** An option as typed: its key, and in braces the text between white space. */
  datatype Typed = Typed(front: TypedKey, before: string, text: string, after: string)

  predicate NoBlankFirst(s: string) {
    s == "" || s[0] !in " \t\n"
  }

  function Word(k: TypedKey): string {
    k.lead + (k.key + k.trail)
  }

  predicate KeyTyped(k: TypedKey) {
    && AllIn(k.blanks, " \t\n") && NoBlankFirst(Word(k)) && NoneOf(Word(k), " {")
    && AllWhite(k.lead) && k.key != "" && Bare(k.key) && AllWhite(k.trail)
    && (k.gap == "" || k.gap[0] == ' ') && NoneOf(k.gap, "{")
  }

  ghost predicate WellTyped(t: Typed) {
    KeyTyped(t.front) && AllWhite(t.before) && AllWhite(t.after) && Bare(t.text) && Nested(t.text)
  }

  ghost predicate AllTyped(ts: seq<Typed>) {
    forall k :: 0 <= k < |ts| ==> WellTyped(ts[k])
  }

  function Inside(t: Typed): string {
    t.before + (t.text + t.after)
  }

  function Front(k: TypedKey, rest: string): string {
    k.blanks + (Word(k) + (k.gap + rest))
  }

  /** The text of the options, and what follows. */
  function Body(ts: seq<Typed>, rest: string): string {
    if ts == [] then rest else Front(ts[0].front, "{" + (Inside(ts[0]) + "}")) + Body(ts[1..], rest)
  }

  function Meant(ts: seq<Typed>): seq<Opt> {
    if ts == [] then [] else [Opt(ts[0].front.key, ts[0].text)] + Meant(ts[1..])
  }

  function PieceOf(t: Typed): Piece {
    Piece(t.front.blanks, Word(t.front), t.front.gap, Inside(t))
  }

  function PiecesOf(ts: seq<Typed>): seq<Piece> {
    if ts == [] then [] else [PieceOf(ts[0])] + PiecesOf(ts[1..])
  }

  lemma KeyTrimmed(k: TypedKey)
    requires KeyTyped(k)
    ensures KeyText(Word(k)) && Trim(Word(k)) == k.key && AllBlank(k.blanks) && GapText(k.gap)
  {
    TrimsBoth(k.lead, k.key, k.trail);
    TrimEmpty();
  }

  lemma {:induction false} WhiteKeepsBalance(x: string, s: string, depth: nat)
    requires AllWhite(x)
    ensures BalancedFrom(x + s, depth) == BalancedFrom(s, depth)
  {
    if x == "" {
      Strings.NoText(s);
    } else {
      assert (x + s)[0] == x[0] && (x + s)[1..] == x[1..] + s;
      WhiteKeepsBalance(x[1..], s, depth);
    }
  }

  lemma {:induction false} WhiteBehind(s: string, x: string)
    requires AllWhite(x)
    ensures BalancedFrom(s + x, 0) == BalancedFrom(s, 0)
  {
    if x == "" {
      Strings.NoText(s);
    } else {
      var n := |x| - 1;
      assert (s + x)[..|s + x| - 1] == s + x[..n] && (s + x)[|s + x| - 1] == x[n];
      BalancedLast(s + x, 0);
      WhiteBehind(s, x[..n]);
    }
  }

  lemma TextBalanced(before: string, text: string, after: string)
    requires AllWhite(before) && AllWhite(after)
    ensures Balanced(before + (text + after)) <==> Nested(text)
  {
    WhiteKeepsBalance(before, text + after, 0);
    BalancedIsNested(text, 0);
    WhiteBehind(text, after);
  }

  lemma TypedPiece(t: Typed)
    requires WellTyped(t)
    ensures WellFormed(PieceOf(t)) && OptionOf(PieceOf(t)) == Opt(t.front.key, t.text)
  {
    KeyTrimmed(t.front);
    TrimsBoth(t.before, t.text, t.after);
    TextBalanced(t.before, t.text, t.after);
  }

  lemma {:induction false} TypedPieces(ts: seq<Typed>, rest: string)
    requires AllTyped(ts)
    ensures AllWellFormed(PiecesOf(ts)) && OptionsOf(PiecesOf(ts)) == Meant(ts)
    ensures Layout(PiecesOf(ts), rest) == Body(ts, rest)
  {
    if ts != [] {
      TypedPiece(ts[0]);
      TypedPieces(ts[1..], rest);
      assert PiecesOf(ts)[1..] == PiecesOf(ts[1..]);
    }
  }

  lemma ScanNext(b: string, i: nat, o: Opt, next: nat)
    requires i <= |b| && next <= |b| && NextOption(b, i) == Found(o, next)
    ensures Scan(b, i) == Prepended([o], Scan(b, next))
  {}

  lemma ScanOn(b: string, i: nat, p: Piece, rest: string) returns (next: nat)
    requires i <= |b| && b[i..] == Written(p) + rest && WellFormed(p)
    ensures next <= |b| && b[next..] == rest && Scan(b, i) == Prepended([OptionOf(p)], Scan(b, next))
  {
    next := i + |Written(p)|;
    ReadsPiece(b, i, p, rest);
    Cut(b, i, Written(p), rest);
    ScanNext(b, i, OptionOf(p), next);
  }

  lemma PrependTwice(o: Opt, opts: seq<Opt>, rest: Scanned)
    ensures Prepended([o], Prepended(opts, rest)) == Prepended([o] + opts, rest)
  {
    if rest.Options? {
      assert [o] + (opts + rest.opts) == [o] + opts + rest.opts;
    }
  }

  /** The scan goes on behind the options laid out. */
  lemma {:induction false} ScanPieces(b: string, i: nat, ps: seq<Piece>, tail: string) returns (j: nat)
    requires i <= |b| && b[i..] == Layout(ps, tail) && AllWellFormed(ps)
    ensures j <= |b| && b[j..] == tail && Scan(b, i) == Prepended(OptionsOf(ps), Scan(b, j))
    decreases |ps|
  {
    if ps == [] {
      j := i;
    } else {
      var next := ScanOn(b, i, ps[0], Layout(ps[1..], tail));
      j := ScanPieces(b, next, ps[1..], tail);
      PrependTwice(OptionOf(ps[0]), OptionsOf(ps[1..]), Scan(b, j));
    }
  }

  // ---------- What the options end with ----------

  /** Behind its options a body has only blanks; or white space, or nothing, where a key should be; or a key
      without an opening brace; or one whose text is never closed. */
  datatype Ending =
    | OnlyBlanks(blanks: string)
    | NoKey(blanks: string, white: string, rest: string)
    | NoOpening(front: TypedKey)
    | NoClosing(front: TypedKey, text: string)

  ghost predicate WellEnded(e: Ending) {
    match e
    case OnlyBlanks(blanks) => AllIn(blanks, " \t\n")
    case NoKey(blanks, white, rest) =>
      && AllIn(blanks, " \t\n") && AllWhite(white) && NoneOf(white, " ") && NoBlankFirst(white)
      && (rest == "" || rest[0] in " {") && (white == "" ==> rest != "" && rest[0] == '{')
    case NoOpening(front) => KeyTyped(front)
    case NoClosing(front, text) => KeyTyped(front) && StaysOpen(text, 0)
  }

  function Tail(e: Ending): string {
    match e
    case OnlyBlanks(blanks) => blanks
    case NoKey(blanks, white, rest) => blanks + (white + rest)
    case NoOpening(front) => Front(front, "")
    case NoClosing(front, text) => Front(front, "{" + text)
  }

  /** Only blanks are no error; the others come before any options do, two of them with the key. */
  function Outcome(opts: seq<Opt>, e: Ending): Scanned {
    match e
    case OnlyBlanks(_) => Options(opts)
    case NoKey(_, _, _) => EmptyKey
    case NoOpening(front) => NoBrace(front.key)
    case NoClosing(front, _) => Unclosed(front.key)
  }

  lemma BlanksThere(b: string, i: nat)
    requires i <= |b| && AllIn(b[i..], " \t\n")
    ensures NextOption(b, i) == Stop(Options([]))
  {
    CutChars(b, i, |b|);
    assert b[i..|b|] == b[i..];
    SkipsBlanks(b, i, |b|);
  }

  lemma NoKeyThere(b: string, i: nat, e: Ending)
    requires i <= |b| && e.NoKey? && WellEnded(e) && b[i..] == Tail(e)
    ensures NextOption(b, i) == Stop(EmptyKey)
  {
    Strings.NoText(e.rest);
    var start, end, brace := FrontCuts(b, i, e.blanks, e.white, "", e.rest);
    CutChars(b, start, end);
    CutChars(b, end, |b|);
    BlanksRead(b, i, start);
    EndsKey(b, start, end);
    TrimsLeft(e.white, "");
    Strings.NoText(e.white);
  }

  /** The scanner's positions behind a key and a gap. */
  lemma KeyThere(b: string, i: nat, k: TypedKey, rest: string) returns (start: nat, end: nat, brace: nat)
    requires i <= |b| && b[i..] == Front(k, rest) && KeyTyped(k) && (rest == "" || rest[0] == '{')
    ensures start == SkipBlanks(b, i) < |b| && end == KeyEnd(b, start) && brace == NextBrace(b, end)
    ensures Trim(b[start..end]) == k.key && b[brace..] == rest
  {
    KeyTrimmed(k);
    start, end, brace := FrontCuts(b, i, k.blanks, Word(k), k.gap, rest);
    CutChars(b, brace, |b|);
    KeyStart(b, start, end);
    GapRead(b, end, brace);
    KeyTextRead(b, start, end);
    BlanksRead(b, i, start);
  }

  lemma NoOpeningThere(b: string, i: nat, k: TypedKey)
    requires i <= |b| && b[i..] == Front(k, "") && KeyTyped(k)
    ensures NextOption(b, i) == Stop(NoBrace(k.key))
  {
    var start, end, brace := KeyThere(b, i, k, "");
  }

  lemma {:induction false} NeverCloses(b: string, i: nat, depth: nat)
    requires i <= |b|
    ensures Closing(b, i, depth + 1).1 > 0 <==> StaysOpen(b[i..], depth)
    decreases |b| - i
  {
    if i == |b| {
      assert Net(b[i..][..0]) == 0;
    } else {
      StaysOpenStep(b[i..], depth);
      assert b[i..][1..] == b[i + 1..];
      if depth + Turn(b[i]) >= 0 {
        NeverCloses(b, i + 1, depth + Turn(b[i]));
      }
    }
  }

  lemma UnclosedAt(b: string, i: nat, start: nat, end: nat, brace: nat)
    requires i <= |b| && start == SkipBlanks(b, i) < |b| && end == KeyEnd(b, start) && brace == NextBrace(b, end) < |b|
    requires Trim(b[start..end]) != "" && StaysOpen(b[brace + 1..], 0)
    ensures NextOption(b, i) == Stop(Unclosed(Trim(b[start..end])))
  {
    NeverCloses(b, brace + 1, 0);
  }

  lemma NoClosingThere(b: string, i: nat, k: TypedKey, text: string)
    requires i <= |b| && b[i..] == Front(k, "{" + text) && KeyTyped(k) && StaysOpen(text, 0)
    ensures NextOption(b, i) == Stop(Unclosed(k.key))
  {
    var rest := "{" + text;
    var start, end, brace := KeyThere(b, i, k, rest);
    Cut(b, brace, "{", text);
    assert brace < |b| && b[brace + 1..] == text;
    UnclosedAt(b, i, start, end, brace);
  }

  lemma EndingThere(b: string, i: nat, e: Ending)
    requires i <= |b| && b[i..] == Tail(e) && WellEnded(e)
    ensures NextOption(b, i) == Stop(Outcome([], e))
  {
    match e
    case OnlyBlanks(_) => BlanksThere(b, i);
    case NoKey(_, _, _) => NoKeyThere(b, i, e);
    case NoOpening(front) => NoOpeningThere(b, i, front);
    case NoClosing(front, text) => NoClosingThere(b, i, front, text);
  }

  lemma ScanStops(b: string, i: nat, r: Scanned)
    requires i <= |b| && NextOption(b, i) == Stop(r)
    ensures Scan(b, i) == r
  {}

  /** Options as typed and what they end with determine the result by their characters. */
  lemma TypedScan(ts: seq<Typed>, e: Ending)
    requires AllTyped(ts) && WellEnded(e)
    ensures Scan(Body(ts, Tail(e)), 0) == Outcome(Meant(ts), e)
  {
    var b := Body(ts, Tail(e));
    TypedPieces(ts, Tail(e));
    assert b[0..] == b;
    var j := ScanPieces(b, 0, PiecesOf(ts), Tail(e));
    EndingThere(b, j, e);
    ScanStops(b, j, Outcome([], e));
  }

  // ---------- Every body is typed options and an ending ----------

  lemma {:induction false} TrimParts(x: string) returns (before: string, bare: string, after: string)
    ensures x == before + (bare + after) && AllWhite(before) && AllWhite(after) && Bare(bare)
  {
    if x != "" && White(x[0]) {
      before, bare, after := TrimParts(x[1..]);
      Strings.Front(x);
      Strings.Assoc([x[0]], before, bare + after);
      before := [x[0]] + before;
    } else if x != "" && White(x[|x| - 1]) {
      before, bare, after := TrimParts(x[..|x| - 1]);
      Strings.Back(x);
      Strings.Assoc(before, bare + after, [x[|x| - 1]]);
      Strings.Assoc(bare, after, [x[|x| - 1]]);
      after := after + [x[|x| - 1]];
    } else {
      before, bare, after := "", x, "";
      Strings.NoText(x);
    }
  }

  /** A key text with what stands before and behind it, as typed. */
  lemma KeyAsTyped(blanks: string, word: string, gap: string) returns (k: TypedKey)
    requires AllBlank(blanks) && KeyText(word) && GapText(gap)
    ensures KeyTyped(k) && k.blanks == blanks && Word(k) == word && k.gap == gap
  {
    var lead, key, trail := TrimParts(word);
    TrimsBoth(lead, key, trail);
    TrimEmpty();
    k := TypedKey(blanks, lead, key, trail, gap);
  }

  lemma PieceAsTyped(p: Piece) returns (t: Typed)
    requires WellFormed(p)
    ensures WellTyped(t) && PieceOf(t) == p
  {
    var front := KeyAsTyped(p.blanks, p.key, p.gap);
    var before, text, after := TrimParts(p.text);
    TextBalanced(before, text, after);
    t := Typed(front, before, text, after);
  }

  lemma CutsFront(b: string, i: nat, start: nat, end: nat, brace: nat, k: TypedKey)
    requires i <= start <= end <= brace <= |b|
    requires k.blanks == b[i..start] && Word(k) == b[start..end] && k.gap == b[end..brace]
    ensures b[i..] == Front(k, b[brace..])
  {
    Join(b, end, brace);
    Join(b, start, end);
    Join(b, i, start);
  }

  lemma TrimmedAway(x: string)
    requires Trim(x) == ""
    ensures AllWhite(x)
  {
    var before, bare, after := TrimParts(x);
    TrimsBoth(before, bare, after);
    Strings.NoText(after);
  }

  lemma NoKeyCuts(b: string, i: nat, start: nat, end: nat)
    requires i <= |b| && start == SkipBlanks(b, i) < |b| && end == KeyEnd(b, start) && AllWhite(b[start..end])
    ensures WellEnded(NoKey(b[i..start], b[start..end], b[end..]))
  {
    Skipped(b, i);
    KeyRead(b, start);
    CutChars(b, start, end);
    assert end < |b| ==> b[end..][0] == b[end];
  }

  lemma NoKeyEnding(b: string, i: nat) returns (e: Ending)
    requires i <= |b| && NextOption(b, i) == Stop(EmptyKey)
    ensures WellEnded(e) && Tail(e) == b[i..]
  {
    var start := SkipBlanks(b, i);
    var end := KeyEnd(b, start);
    TrimmedAway(b[start..end]);
    NoKeyCuts(b, i, start, end);
    e := NoKey(b[i..start], b[start..end], b[end..]);
    Join(b, start, end);
    Join(b, i, start);
  }

  lemma StoppedAtKey(b: string, i: nat) returns (start: nat, end: nat, brace: nat)
    requires i <= |b| && NextOption(b, i).Stop? && !NextOption(b, i).result.Options? && NextOption(b, i).result != EmptyKey
    ensures start == SkipBlanks(b, i) < |b| && end == KeyEnd(b, start) && brace == NextBrace(b, end)
    ensures Trim(b[start..end]) != "" && (brace < |b| ==> Closing(b, brace + 1, 1).1 > 0)
  {
    start := SkipBlanks(b, i);
    end := KeyEnd(b, start);
    brace := NextBrace(b, end);
  }

  lemma KeyEnding(b: string, i: nat) returns (e: Ending)
    requires i <= |b| && NextOption(b, i).Stop? && !NextOption(b, i).result.Options? && NextOption(b, i).result != EmptyKey
    ensures WellEnded(e) && Tail(e) == b[i..]
  {
    var start, end, brace := StoppedAtKey(b, i);
    CutsKey(b, i, start, end, brace);
    var k := KeyAsTyped(b[i..start], b[start..end], b[end..brace]);
    CutsFront(b, i, start, end, brace, k);
    e := EndingBehind(b, brace, k);
  }

  lemma EndingBehind(b: string, brace: nat, k: TypedKey) returns (e: Ending)
    requires brace <= |b| && KeyTyped(k) && (brace < |b| ==> b[brace] == '{' && Closing(b, brace + 1, 1).1 > 0)
    ensures WellEnded(e) && Tail(e) == Front(k, b[brace..])
  {
    if brace == |b| {
      e := NoOpening(k);
    } else {
      e := NoClosing(k, b[brace + 1..]);
      NeverCloses(b, brace + 1, 0);
      JoinChar(b, brace);
    }
  }

  lemma CutsKey(b: string, i: nat, start: nat, end: nat, brace: nat)
    requires i <= |b| && start == SkipBlanks(b, i) < |b| && end == KeyEnd(b, start) && brace == NextBrace(b, end)
    requires Trim(b[start..end]) != ""
    ensures AllBlank(b[i..start]) && KeyText(b[start..end]) && GapText(b[end..brace])
  {
    Skipped(b, i);
    KeyRead(b, start);
    BraceFound(b, end);
    TrimEmpty();
    assert b[start..end] != "" && b[start..end][0] == b[start];
    assert b[end..brace] != "" ==> b[end..brace][0] == b[end];
  }

  lemma StopEnding(b: string, i: nat) returns (e: Ending)
    requires i <= |b| && NextOption(b, i).Stop?
    ensures WellEnded(e) && Tail(e) == b[i..]
  {
    if NextOption(b, i).result.Options? {
      Skipped(b, i);
      e := OnlyBlanks(b[i..]);
    } else if NextOption(b, i).result == EmptyKey {
      e := NoKeyEnding(b, i);
    } else {
      e := KeyEnding(b, i);
    }
  }

  lemma {:induction false} BodyFrom(b: string, i: nat) returns (ts: seq<Typed>, e: Ending)
    requires i <= |b|
    ensures AllTyped(ts) && WellEnded(e) && b[i..] == Body(ts, Tail(e))
    decreases |b| - i
  {
    if NextOption(b, i).Stop? {
      e := StopEnding(b, i);
      ts := [];
    } else {
      var p := FoundPiece(b, i);
      var t := PieceAsTyped(p);
      var rest;
      rest, e := BodyFrom(b, NextOption(b, i).next);
      ts := [t] + rest;
      assert ts[1..] == rest;
    }
  }

  /** Whatever the body, it is options as typed and an ending, and these determine what the scanner returns. */
  lemma EveryBody(b: string) returns (ts: seq<Typed>, e: Ending)
    ensures AllTyped(ts) && WellEnded(e) && b == Body(ts, Tail(e)) && Scan(b, 0) == Outcome(Meant(ts), e)
  {
    assert b[0..] == b;
    ts, e := BodyFrom(b, 0);
    TypedScan(ts, e);
  }

  /** A carriage return is no blank: options on indented lines that end in a carriage return and a newline
      are an empty key. */
  lemma CarriageReturn(ts: seq<Typed>, rest: string)
    requires AllTyped(ts)
    ensures Scan(Body(ts, "\r\n" + (" " + rest)), 0) == EmptyKey
  {
    var e := NoKey("", "\r\n", " " + rest);
    assert AllWhite("\r\n") && (" " + rest)[0] == ' ';
    Strings.NoText("\r\n" + (" " + rest));
    TypedScan(ts, e);
  }
}
