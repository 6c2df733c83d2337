/** Go's strconv.Atoi, as its callers see it when they ignore the error: the number it leaves behind. */
module Atoi {
  import opened Decimal
  import opened Strings

  const MAX_UINT64 := 18446744073709551615

  datatype Unsigned = Syntax | Range | Value(n: nat)

  /** The digit loop of strconv.ParseUint, with the number read so far. It gives up at the first
      character that is no digit or at the first digit that makes the number too large. */
  function ParseUint(s: string, n: nat): Unsigned {
    if s == "" then Value(n)
    else if !Digit(s[0]) then Syntax
    else
      var m := 10 * n + (s[0] - '0') as int;
      if m > MAX_UINT64 then Range else ParseUint(s[1..], m)
  }

  function Unsign(s: string): string {
    if s != "" && s[0] in {'+', '-'} then s[1..] else s
  }

  /** Zero for what is no number, the nearest limit for what is out of range. */
  function AtoiValue(s: string): int {
    var digits, negative := Unsign(s), s != "" && s[0] == '-';
    if digits == "" then 0
    else
      match ParseUint(digits, 0)
      case Syntax => 0
      case Range => if negative then MIN_INT64 else MAX_INT64
      case Value(n) =>
        var i: int := n;
        if negative then (if -i < MIN_INT64 then MIN_INT64 else -i) else if i > MAX_INT64 then MAX_INT64 else i
  }

  /** The text begins with a number that is too large, whatever follows it. */
  ghost predicate Overflows(s: string) {
    exists k :: 0 <= k <= |s| && TooLarge(s[..k])
  }

  predicate TooLarge(s: string) {
    Digits(s) && Num(s) > MAX_UINT64
  }

  lemma NumNext(p: string, c: char)
    requires Digits(p) && Digit(c)
    ensures Digits(p + [c]) && Num(p + [c]) == 10 * Num(p) + (c - '0') as int
  {
    Cut(p, [c]);
  }

  lemma {:induction false} NumGrows(p: string, s: string)
    requires Digits(p) && Digits(s)
    ensures Digits(p + s) && Num(p + s) >= Num(p)
  {
    if s == "" {
      NoText(p);
    } else {
      var init, last := s[..|s| - 1], s[|s| - 1];
      NumGrows(p, init);
      NumNext(p + init, last);
      Back(s);
      Assoc(p, init, [last]);
    }
  }

  ghost predicate OverflowsFrom(p: string, s: string) {
    exists k :: 0 <= k <= |s| && TooLarge(p + s[..k])
  }

  lemma PrefixMoved(p: string, s: string, k: nat)
    requires s != "" && k < |s|
    ensures p + s[..k + 1] == (p + [s[0]]) + s[1..][..k]
  {
    assert s[..k + 1] == [s[0]] + s[1..][..k];
    Assoc(p, [s[0]], s[1..][..k]);
  }

  lemma OverflowsLater(p: string, s: string)
    requires !TooLarge(p) && s != ""
    ensures OverflowsFrom(p, s) <==> OverflowsFrom(p + [s[0]], s[1..])
  {
    if OverflowsFrom(p, s) {
      var k :| 0 <= k <= |s| && TooLarge(p + s[..k]);
      NoText(p);
      PrefixMoved(p, s, k - 1);
    }
    if OverflowsFrom(p + [s[0]], s[1..]) {
      var k :| 0 <= k <= |s[1..]| && TooLarge((p + [s[0]]) + s[1..][..k]);
      PrefixMoved(p, s, k);
    }
  }

  lemma GarbageNext(p: string, s: string)
    requires !TooLarge(p) && s != "" && !Digit(s[0])
    ensures !OverflowsFrom(p, s)
  {
    NoText(p);
    forall k | 0 < k <= |s| ensures !TooLarge(p + s[..k]) {
      assert (p + s[..k])[|p|] == s[0];
    }
  }

  /** The loop after the digits `p` stops early exactly when a longer prefix is too large. */
  lemma {:induction false} LoopRange(p: string, s: string)
    requires Digits(p) && Num(p) <= MAX_UINT64
    ensures ParseUint(s, Num(p)).Range? <==> OverflowsFrom(p, s)
    decreases |s|
  {
    if s == "" {
      NoText(p);
    } else if !Digit(s[0]) {
      GarbageNext(p, s);
    } else {
      var q := p + [s[0]];
      NumNext(p, s[0]);
      OverflowsLater(p, s);
      if TooLarge(q) {
        NoText(q);
        assert OverflowsFrom(q, s[1..]) by { assert s[1..][..0] == ""; }
      } else {
        LoopRange(q, s[1..]);
      }
    }
  }

  lemma DigitsOfRest(p: string, s: string)
    requires Digits(p) && s != "" && Digit(s[0])
    ensures (p + [s[0]]) + s[1..] == p + s
    ensures Digits(s) <==> Digits(s[1..])
    ensures Digits(s) ==> Digits(p + s)
  {
    Front(s);
    Assoc(p, [s[0]], s[1..]);
    assert forall k :: 0 < k < |s| ==> s[k] == s[1..][k - 1];
  }

  /** It reads to the end exactly when all is digits and the number fits. */
  lemma {:induction false} LoopValue(p: string, s: string)
    requires Digits(p) && Num(p) <= MAX_UINT64
    ensures ParseUint(s, Num(p)).Value? <==> Digits(s) && Digits(p + s) && Num(p + s) <= MAX_UINT64
    ensures ParseUint(s, Num(p)).Value? ==> ParseUint(s, Num(p)).n == Num(p + s)
    decreases |s|
  {
    if s == "" {
      NoText(p);
    } else if Digit(s[0]) {
      var q := p + [s[0]];
      NumNext(p, s[0]);
      DigitsOfRest(p, s);
      if Num(q) > MAX_UINT64 {
        if Digits(s[1..]) { NumGrows(q, s[1..]); }
      } else {
        LoopValue(q, s[1..]);
      }
    }
  }

  /** The loop on a whole text. */
  lemma LoopExact(d: string)
    ensures ParseUint(d, 0).Range? <==> Overflows(d)
    ensures ParseUint(d, 0).Value? <==> Digits(d) && Num(d) <= MAX_UINT64
    ensures ParseUint(d, 0).Value? ==> ParseUint(d, 0).n == Num(d)
  {
    assert Num("") == 0;
    NoText(d);
    LoopRange("", d);
    LoopValue("", d);
    forall k | 0 <= k <= |d| ensures "" + d[..k] == d[..k] {
      NoText(d[..k]);
    }
    assert Overflows(d) ==> OverflowsFrom("", d) by {
      if k :| 0 <= k <= |d| && TooLarge(d[..k]) { assert TooLarge("" + d[..k]); }
    }
  }

  /** The value is zero for zero, for what is no number, and for nothing else; a number too large in
      front of the garbage makes it a limit. */
  lemma AtoiZero(s: string)
    ensures var d := Unsign(s);
      AtoiValue(s) == 0 <==> !Overflows(d) && (d == "" || !Digits(d) || Num(d) == 0)
  {
    var d := Unsign(s);
    LoopExact(d);
    assert !Overflows("") by { LoopExact(""); }
    assert TooLarge(d) ==> Overflows(d) by { assert d[..|d|] == d; }
  }

  /** Any other value within the limits is that of the number itself. */
  lemma AtoiNumber(s: string, x: int)
    requires x != 0 && MIN_INT64 < x < MAX_INT64
    ensures var d := Unsign(s);
      AtoiValue(s) == x <==> d != "" && Digits(d) && x == if s[0] == '-' then -(Num(d) as int) else Num(d)
  {
    LoopExact(Unsign(s));
  }

  /** A text that begins with a number too large is no small number. */
  lemma OverflowIsNoNumber(d: string)
    requires Overflows(d) && Digits(d)
    ensures Num(d) > MAX_UINT64
  {
    var k :| 0 <= k <= |d| && TooLarge(d[..k]);
    NumGrows(d[..k], d[k..]);
    assert d[..k] + d[k..] == d;
  }

  // ---------- Every text, by its sign, its digits and what follows them ----------

  datatype Notation = Notation(sign: string, digits: string, rest: string)

  /** An optional sign, all the digits behind it, and the rest. */
  predicate WellNoted(t: Notation) {
    && t.sign in {"", "+", "-"} && Digits(t.digits) && (t.rest == "" || !Digit(t.rest[0]))
    && (t.sign == "" && t.digits == "" && t.rest != "" ==> t.rest[0] !in "+-")
  }

  function Text(t: Notation): string {
    t.sign + (t.digits + t.rest)
  }

  /** The nearest number in the range of int64. */
  function Clamped(x: int): int {
    if x < MIN_INT64 then MIN_INT64 else if x > MAX_INT64 then MAX_INT64 else x
  }

  /** The number that Atoi leaves behind: zero without digits or with garbage behind them, unless they are
      beyond uint64 already. */
  function Left(t: Notation): int
    requires Digits(t.digits)
  {
    if Num(t.digits) <= MAX_UINT64 && (t.digits == "" || t.rest != "") then 0
    else Clamped(if t.sign == "-" then -(Num(t.digits) as int) else Num(t.digits))
  }

  lemma SignCut(t: Notation)
    requires WellNoted(t)
    ensures Unsign(Text(t)) == t.digits + t.rest
    ensures Text(t) != "" && Text(t)[0] == '-' <==> t.sign == "-"
  {
    var d := t.digits + t.rest;
    NoText(d);
    if t.sign != "" {
      Cut(t.sign, d);
      assert Text(t)[0] == t.sign[0];
    } else if d != "" {
      assert d[0] == if t.digits != "" then t.digits[0] else t.rest[0];
    }
  }

  lemma DigitsFirst(digits: string, rest: string)
    requires Digits(digits) && (rest == "" || !Digit(rest[0]))
    ensures Overflows(digits + rest) <==> Num(digits) > MAX_UINT64
    ensures Digits(digits + rest) <==> rest == ""
  {
    var d := digits + rest;
    Cut(digits, rest);
    if Num(digits) > MAX_UINT64 {
      assert TooLarge(d[..|digits|]);
    }
    forall k | 0 <= k <= |d| && TooLarge(d[..k]) ensures Num(digits) > MAX_UINT64 {
      if k > |digits| { BeyondDigits(digits, rest, k); }
      assert d[..k] == digits[..k];
      NumGrows(d[..k], digits[k..]);
      Split(digits, k);
    }
    if rest != "" {
      assert d[|digits|] == rest[0];
    }
  }

  lemma BeyondDigits(digits: string, rest: string, k: nat)
    requires |digits| < k <= |digits + rest| && !Digit(rest[0])
    ensures !Digits((digits + rest)[..k])
  {
    var d := digits + rest;
    assert d[..k][|digits|] == d[|digits|] == rest[0];
  }

  /** What Atoi leaves behind for a text of any sign, digits and rest. */
  lemma AtoiText(t: Notation)
    requires WellNoted(t)
    ensures AtoiValue(Text(t)) == Left(t)
  {
    var d := t.digits + t.rest;
    SignCut(t);
    LoopExact(d);
    DigitsFirst(t.digits, t.rest);
    NoText(t.digits);
  }

  lemma {:induction false} DigitsInFront(s: string) returns (digits: string, rest: string)
    ensures s == digits + rest && Digits(digits) && (rest == "" || !Digit(rest[0]))
  {
    if s == "" || !Digit(s[0]) {
      digits, rest := "", s;
      NoText(s);
    } else {
      digits, rest := DigitsInFront(s[1..]);
      Front(s);
      Assoc([s[0]], digits, rest);
      digits := [s[0]] + digits;
    }
  }

  /** Every text has such a notation. */
  lemma EveryNotation(s: string) returns (t: Notation)
    ensures WellNoted(t) && Text(t) == s && AtoiValue(s) == Left(t)
  {
    var sign := if s != "" && s[0] in "+-" then s[..1] else "";
    assert sign != "" ==> sign == [s[0]];
    var digits, rest := DigitsInFront(s[|sign|..]);
    t := Notation(sign, digits, rest);
    Split(s, |sign|);
    AtoiText(t);
  }
}
