/** Slash-separated keys and the paths they spell: strings.Split, strings.TrimPrefix, and the
    key that a path gets below a prefix. */
module Paths {
  import opened Strings

  type Path = seq<string>

  predicate NoSlash(s: string) {
    '/' !in s
  }

  predicate SlashFreePath(q: Path) {
    forall i :: 0 <= i < |q| ==> NoSlash(q[i])
  }

  /** strings.Split(s, "/"). */
  function Split(s: string): (q: Path)
    ensures q != []
  {
    if s == "" then [""]
    else
      var rest := Split(s[1..]);
      if s[0] == '/' then [""] + rest else [[s[0]] + rest[0]] + rest[1..]
  }

  /** What a path adds to the key of its parent. */
  function Suffix(q: Path): string {
    if q == [] then "" else "/" + (q[0] + Suffix(q[1..]))
  }

  lemma NoNames(q: Path)
    ensures q[..0] == []
  {}

  lemma NextName(q: Path, i: nat)
    requires i < |q|
    ensures q[..i] + [q[i]] == q[..i + 1]
    ensures i + 1 == |q| ==> q[..i] + [q[i]] == q
  {}

  function TrimPrefix(key: string, prefix: string): string {
    if prefix <= key then key[|prefix|..] else key
  }

  lemma {:induction false} SplitIsSlashFree(s: string)
    ensures SlashFreePath(Split(s))
  {
    if s != "" {
      SplitIsSlashFree(s[1..]);
      var rest := Split(s[1..]);
      assert NoSlash(rest[0]);
    }
  }

  /** Splitting loses nothing. */
  lemma {:induction false} SuffixOfSplit(s: string)
    ensures Suffix(Split(s)) == "/" + s
  {
    if s == "" {
      assert Suffix([""]) == "/" + ("" + "");
    } else {
      var rest := Split(s[1..]);
      SuffixOfSplit(s[1..]);
      Front(s);
      if s[0] == '/' {
        SuffixCons("", rest);
        NoText(Suffix(rest));
      } else {
        SuffixCons([s[0]] + rest[0], rest[1..]);
        SuffixParts(rest, s[1..]);
        Assoc([s[0]], rest[0], Suffix(rest[1..]));
      }
    }
  }

  lemma SuffixCons(name: string, q: Path)
    ensures Suffix([name] + q) == "/" + (name + Suffix(q))
  {
    assert ([name] + q)[1..] == q;
  }

  /** The key of a path through the child `k`. */
  lemma ChildKey(parent: string, k: string, q: Path)
    ensures parent + "/" + k + Suffix(q) == parent + Suffix([k] + q)
  {
    SuffixCons(k, q);
    Assoc(parent + "/", k, Suffix(q));
    Assoc(parent, "/", k + Suffix(q));
  }

  lemma SuffixParts(q: Path, s: string)
    requires q != [] && Suffix(q) == "/" + s
    ensures q[0] + Suffix(q[1..]) == s
  {
    SameRest("/", q[0] + Suffix(q[1..]), s);
  }

  lemma SplitInjective(s: string, t: string)
    requires Split(s) == Split(t)
    ensures s == t
  {
    SuffixOfSplit(s);
    SuffixOfSplit(t);
    SameRest("/", s, t);
  }

  /** Splitting a slash-free name followed by more names cuts the name off. */
  lemma {:induction false} SplitName(name: string, s: string)
    requires NoSlash(name)
    ensures Split(name) == [name]
    ensures Split(name + ("/" + s)) == [name] + Split(s)
  {
    if name == "" {
      NoText("/" + s);
      Cut("/", s);
    } else {
      var rest := name[1..];
      assert NoSlash(rest) by {
        assert forall c :: c in rest ==> c in name;
      }
      SplitName(rest, s);
      Front(name);
      Assoc([name[0]], rest, "/" + s);
      Cut([name[0]], rest + ("/" + s));
    }
  }

  /** What follows the slash of a key. */
  lemma {:induction false} SplitOfSuffix(q: Path)
    requires q != [] && SlashFreePath(q)
    ensures Suffix(q) == "/" + (q[0] + Suffix(q[1..]))
    ensures Split(q[0] + Suffix(q[1..])) == q
  {
    var name, rest := q[0], q[1..];
    assert q == [name] + rest;
    if rest == [] {
      SplitName(name, "");
      NoText(name);
    } else {
      SplitOfSuffix(rest);
      SplitName(name, rest[0] + Suffix(rest[1..]));
    }
  }

  /** Slash-free paths are told apart by their keys. */
  lemma SuffixInjective(p: Path, q: Path)
    requires SlashFreePath(p) && SlashFreePath(q) && Suffix(p) == Suffix(q)
    ensures p == q
  {
    if p != [] && q != [] {
      SplitOfSuffix(p);
      SplitOfSuffix(q);
      SuffixParts(p, q[0] + Suffix(q[1..]));
    }
  }

  lemma TrimKey(prefix: string, s: string)
    ensures TrimPrefix(prefix + ("/" + s), prefix + "/") == s
  {
    Assoc(prefix, "/", s);
    Cut(prefix + "/", s);
  }

  lemma TrimmedKey(prefix: string, key: string)
    requires prefix + "/" <= key
    ensures key == prefix + ("/" + TrimPrefix(key, prefix + "/"))
  {
    var s := TrimPrefix(key, prefix + "/");
    assert key == (prefix + "/") + s;
    Assoc(prefix, "/", s);
  }

  lemma SuffixKey(prefix: string, q: Path)
    requires q != [] && SlashFreePath(q)
    ensures Split(TrimPrefix(prefix + Suffix(q), prefix + "/")) == q
    ensures TrimPrefix(prefix + Suffix(q), prefix + "/") == "" <==> q == [""]
  {
    var s := q[0] + Suffix(q[1..]);
    SplitOfSuffix(q);
    TrimKey(prefix, s);
    if q == [""] {
      assert q[1..] == [];
    }
  }
}
