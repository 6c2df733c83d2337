/** Consul key/value pairs as a tree of sections, and the tree as pairs again. */
module ConsulTree {
  import opened Decimal
  import opened Paths

  /** A configuration value, as far as the conversion tells them apart; floats come with the text
      that the %f verb prints for them. */
  datatype Scalar =
    | Nil | Str(s: string) | Whole(i: int) | Float(text: string) | Flag(b: bool)
    | Strs(strs: seq<string>) | Wholes(ints: seq<int>) | Floats(texts: seq<string>) | Flags(flags: seq<bool>)
    | Unsupported

  datatype Tree = Leaf(value: Scalar) | Dir(children: map<string, Tree>)

  datatype Pair = Pair(key: string, value: string)

  /** What a path leads to. */
  datatype Node = Absent | Text(text: Scalar) | Section

  function At(t: Tree, q: Path): Node {
    if q == [] then (if t.Leaf? then Text(t.value) else Section)
    else if t.Dir? && q[0] in t.children then At(t.children[q[0]], q[1..])
    else Absent
  }

  function Empty(): Tree {
    Dir(map[])
  }

  function Children(t: Tree): map<string, Tree> {
    if t.Leaf? then map[] else t.children
  }

  /** Storing a value under a path: a leaf on the way becomes a section, a section at the end
      keeps the value out. */
  function Put(t: Tree, q: Path, v: Scalar): Tree
    requires q != []
    decreases |q|
  {
    var c := Children(t);
    var k := q[0];
    if |q| == 1 then
      if k in c && c[k].Dir? then Dir(c) else Dir(c[k := Leaf(v)])
    else
      Dir(c[k := Put(if k in c then c[k] else Empty(), q[1..], v)])
  }

  /** One step of reading the pairs: the prefix is cut off, an empty rest is skipped. */
  function AddPair(t: Tree, prefix: string, pair: Pair): Tree {
    var key := TrimPrefix(pair.key, prefix + "/");
    if key == "" then t else Put(t, Split(key), Str(pair.value))
  }

  function Build(prefix: string, pairs: seq<Pair>): Tree {
    if pairs == [] then Empty()
    else AddPair(Build(prefix, pairs[..|pairs| - 1]), prefix, pairs[|pairs| - 1])
  }

  lemma {:induction false} AtJoined(t: Tree, p: Path, q: Path)
    ensures p != [] && t.Dir? && p[0] in t.children ==> At(t, p + q) == At(t.children[p[0]], p[1..] + q)
    ensures At(t, p) == Absent ==> At(t, p + q) == Absent
    ensures At(t, p).Text? && q != [] ==> At(t, p + q) == Absent
    decreases |p|
  {
    if p == [] {
      assert p + q == q;
    } else {
      assert (p + q)[1..] == p[1..] + q;
      if t.Dir? && p[0] in t.children {
        AtJoined(t.children[p[0]], p[1..], q);
      }
    }
  }

  /** What lies above something that is there is a section. */
  lemma AboveIsSection(t: Tree, p: Path, q: Path)
    requires p < q && At(t, q) != Absent
    ensures At(t, p) == Section
  {
    AtJoined(t, p, q[|p|..]);
    assert p + q[|p|..] == q;
  }

  // ---------- What the built tree holds ----------

  /** The path a pair is stored under; none when its key is the prefix itself. */
  function PathOf(prefix: string, pair: Pair): Option<Path> {
    var key := TrimPrefix(pair.key, prefix + "/");
    if key == "" then None else Some(Split(key))
  }

  /** Some pair lies strictly below the path. */
  predicate Extended(prefix: string, pairs: seq<Pair>, q: Path) {
    exists i :: 0 <= i < |pairs| && PathOf(prefix, pairs[i]).Some? && q < PathOf(prefix, pairs[i]).value
  }

  /** The value of the last pair stored under the path. */
  function LastValue(prefix: string, pairs: seq<Pair>, q: Path): Option<string> {
    if pairs == [] then None
    else
      var last := pairs[|pairs| - 1];
      if PathOf(prefix, last) == Some(q) then Some(last.value)
      else LastValue(prefix, pairs[..|pairs| - 1], q)
  }

  /** What the pairs say about a path, regardless of how they are stored. */
  function Stated(prefix: string, pairs: seq<Pair>, q: Path): Node {
    if q == [] || Extended(prefix, pairs, q) then Section
    else
      var v := LastValue(prefix, pairs, q);
      if v.Some? then Text(Str(v.value)) else Absent
  }

  /** Below another child nothing changes. */
  lemma AtPutElsewhere(t: Tree, p: Path, v: Scalar, q: Path)
    requires p != [] && (q == [] || q[0] != p[0])
    ensures At(Put(t, p, v), q) == if q == [] then Section else At(t, q)
  {}

  function ChildOrEmpty(t: Tree, k: string): Tree {
    if k in Children(t) then Children(t)[k] else Empty()
  }

  lemma AtChild(t: Tree, q: Path)
    requires q != []
    ensures q[1..] != [] || (t.Dir? && q[0] in t.children) ==> At(t, q) == At(ChildOrEmpty(t, q[0]), q[1..])
  {}

  lemma AtPutLast(t: Tree, p: Path, v: Scalar, q: Path)
    requires |p| == 1 && q != [] && q[0] == p[0]
    ensures At(Put(t, p, v), q) == AfterPut(At(t, p), At(t, q), p, v, q)
  {
    TailOrder(p, q);
    assert p[1..] == [];
  }

  lemma {:induction false} AtPut(t: Tree, p: Path, v: Scalar, q: Path)
    requires p != []
    ensures At(Put(t, p, v), q) == AfterPut(At(t, p), At(t, q), p, v, q)
    decreases |p|
  {
    if q == [] || q[0] != p[0] {
      AtPutElsewhere(t, p, v, q);
    } else if |p| == 1 {
      AtPutLast(t, p, v, q);
    } else {
      TailOrder(p, q);
      AtChild(t, p);
      AtChild(t, q);
      AtPut(ChildOrEmpty(t, p[0]), p[1..], v, q[1..]);
    }
  }

  /** What `q` leads to after storing `v` under `p`, from what both led to before. */
  function AfterPut(atP: Node, atQ: Node, p: Path, v: Scalar, q: Path): Node {
    if q == [] || q < p then Section else if q == p && atP != Section then Text(v) else atQ
  }

  lemma TailOrder(p: Path, q: Path)
    requires p != [] && q != [] && p[0] == q[0]
    ensures q < p <==> q[1..] < p[1..]
    ensures q == p <==> q[1..] == p[1..]
  {
    assert p == [p[0]] + p[1..] && q == [q[0]] + q[1..];
  }

  /** Every path of the built tree holds what the pairs state about it. */
  lemma {:induction false} AtBuild(prefix: string, pairs: seq<Pair>, q: Path)
    ensures At(Build(prefix, pairs), q) == Stated(prefix, pairs, q)
  {
    if pairs != [] {
      var init, last := pairs[..|pairs| - 1], pairs[|pairs| - 1];
      AtBuild(prefix, init, q);
      var p := PathOf(prefix, last);
      ExtendedByLast(prefix, pairs, q);
      if p.Some? {
        AtPut(Build(prefix, init), p.value, Str(last.value), q);
      }
    }
  }

  lemma ExtendedByLast(prefix: string, pairs: seq<Pair>, q: Path)
    requires pairs != []
    ensures var p := PathOf(prefix, pairs[|pairs| - 1]);
      Extended(prefix, pairs, q) <==> Extended(prefix, pairs[..|pairs| - 1], q) || (p.Some? && q < p.value)
  {
    var init, last := pairs[..|pairs| - 1], pairs[|pairs| - 1];
    assert pairs == init + [last];
    if Extended(prefix, init, q) {
      var i :| 0 <= i < |init| && PathOf(prefix, init[i]).Some? && q < PathOf(prefix, init[i]).value;
      assert pairs[i] == init[i];
    }
    if PathOf(prefix, last).Some? && q < PathOf(prefix, last).value {
      assert pairs[|pairs| - 1] == last;
    }
  }

  lemma OneStep(t: Tree, k: string)
    requires t.Dir?
    ensures At(t, [k]) != Absent <==> k in t.children
  {
    assert [k][1..] == [];
  }

  /** A tree is determined by what its paths hold. */
  lemma {:induction false} Extensional(a: Tree, b: Tree)
    requires forall q :: At(a, q) == At(b, q)
    ensures a == b
  {
    assert At(a, []) == At(b, []);
    if a.Dir? {
      forall k ensures k in a.children <==> k in b.children {
        OneStep(a, k);
        OneStep(b, k);
      }
      forall k | k in a.children ensures a.children[k] == b.children[k] {
        forall q ensures At(a.children[k], q) == At(b.children[k], q) {
          assert At(a, [k] + q) == At(b, [k] + q);
          assert ([k] + q)[1..] == q;
        }
        Extensional(a.children[k], b.children[k]);
      }
    }
  }

  // ---------- Order of the pairs ----------

  /** The last value under a path is the value of some pair, and every pair states one. */
  lemma LastValueStated(prefix: string, pairs: seq<Pair>, q: Path)
    ensures LastValue(prefix, pairs, q).None? <==>
      forall i :: 0 <= i < |pairs| ==> PathOf(prefix, pairs[i]) != Some(q)
    ensures LastValue(prefix, pairs, q).Some? ==> StatedBy(prefix, pairs, q, LastValue(prefix, pairs, q).value)
  {
    NoLastValue(prefix, pairs, q);
    if LastValue(prefix, pairs, q).Some? {
      var i := LastOfPath(prefix, pairs, q);
    }
  }

  ghost predicate StatedBy(prefix: string, pairs: seq<Pair>, q: Path, value: string) {
    exists i :: 0 <= i < |pairs| && PathOf(prefix, pairs[i]) == Some(q) && pairs[i].value == value
  }

  lemma {:induction false} NoLastValue(prefix: string, pairs: seq<Pair>, q: Path)
    ensures LastValue(prefix, pairs, q).None? <==>
      forall i :: 0 <= i < |pairs| ==> PathOf(prefix, pairs[i]) != Some(q)
  {
    if pairs != [] {
      NoLastValue(prefix, pairs[..|pairs| - 1], q);
      assert pairs == pairs[..|pairs| - 1] + [pairs[|pairs| - 1]];
    }
  }

  lemma {:induction false} LastOfPath(prefix: string, pairs: seq<Pair>, q: Path) returns (i: nat)
    requires LastValue(prefix, pairs, q).Some?
    ensures i < |pairs| && PathOf(prefix, pairs[i]) == Some(q) && pairs[i].value == LastValue(prefix, pairs, q).value
    ensures forall j :: i < j < |pairs| ==> PathOf(prefix, pairs[j]) != Some(q)
  {
    var n := |pairs| - 1;
    if PathOf(prefix, pairs[n]) == Some(q) {
      i := n;
    } else {
      var init := pairs[..n];
      i := LastOfPath(prefix, init, q);
      assert pairs == init + [pairs[n]];
    }
  }

  /** Two pairs under one path, which no other path extends, agree. */
  ghost predicate Unambiguous(prefix: string, pairs: seq<Pair>) {
    forall i, j :: 0 <= i < |pairs| && 0 <= j < |pairs| ==> Agree(prefix, pairs, pairs[i], pairs[j])
  }

  ghost predicate Agree(prefix: string, pairs: seq<Pair>, a: Pair, b: Pair) {
    var p := PathOf(prefix, a);
    p.Some? && p == PathOf(prefix, b) ==> a.value == b.value || Extended(prefix, pairs, p.value)
  }

  ghost predicate SamePairs(a: seq<Pair>, b: seq<Pair>) {
    multiset(a) == multiset(b)
  }

  lemma SameMembers(a: seq<Pair>, b: seq<Pair>)
    requires SamePairs(a, b)
    ensures forall x :: x in a <==> x in b
  {
    assert forall x :: x in a <==> x in multiset(a);
    assert forall x :: x in b <==> x in multiset(b);
  }

  lemma SameExtended(prefix: string, a: seq<Pair>, b: seq<Pair>, q: Path)
    requires SamePairs(a, b) && Extended(prefix, a, q)
    ensures Extended(prefix, b, q)
  {
    SameMembers(a, b);
    var i :| 0 <= i < |a| && PathOf(prefix, a[i]).Some? && q < PathOf(prefix, a[i]).value;
    assert a[i] in b;
  }

  lemma SameStated(prefix: string, a: seq<Pair>, b: seq<Pair>, q: Path)
    requires SamePairs(a, b) && Unambiguous(prefix, a)
    ensures Stated(prefix, a, q) == Stated(prefix, b, q)
  {
    SameMembers(a, b);
    if Extended(prefix, a, q) {
      SameExtended(prefix, a, b, q);
    } else if Extended(prefix, b, q) {
      SameExtended(prefix, b, a, q);
    } else {
      LastValueStated(prefix, a, q);
      LastValueStated(prefix, b, q);
      var v, w := LastValue(prefix, a, q), LastValue(prefix, b, q);
      if v.Some? {
        var i :| 0 <= i < |a| && PathOf(prefix, a[i]) == Some(q) && a[i].value == v.value;
        assert a[i] in b;
      }
      if w.Some? {
        var j :| 0 <= j < |b| && PathOf(prefix, b[j]) == Some(q) && b[j].value == w.value;
        assert b[j] in a;
        var j' :| 0 <= j' < |a| && a[j'] == b[j];
        var i :| 0 <= i < |a| && PathOf(prefix, a[i]) == Some(q) && a[i].value == v.value;
        assert Agree(prefix, a, a[i], a[j']);
      }
    }
  }

  /** The pair at one position moved to the end. */
  function MovedLast(pairs: seq<Pair>, i: nat): seq<Pair>
    requires i < |pairs|
  {
    pairs[..i] + pairs[i + 1..] + [pairs[i]]
  }

  lemma MovedLastSame(pairs: seq<Pair>, i: nat)
    requires i < |pairs|
    ensures SamePairs(pairs, MovedLast(pairs, i))
  {
    assert pairs == pairs[..i] + [pairs[i]] + pairs[i + 1..];
  }

  /** The order of the pairs is irrelevant exactly when they are unambiguous. */
  lemma Confluence(prefix: string, pairs: seq<Pair>)
    ensures Unambiguous(prefix, pairs) <==>
      forall other | SamePairs(pairs, other) :: Build(prefix, other) == Build(prefix, pairs)
  {
    if Unambiguous(prefix, pairs) {
      forall other | SamePairs(pairs, other) ensures Build(prefix, other) == Build(prefix, pairs) {
        forall q ensures At(Build(prefix, other), q) == At(Build(prefix, pairs), q) {
          AtBuild(prefix, other, q);
          AtBuild(prefix, pairs, q);
          SameStated(prefix, pairs, other, q);
        }
        Extensional(Build(prefix, other), Build(prefix, pairs));
      }
    } else {
      var i, j :| 0 <= i < |pairs| && 0 <= j < |pairs| && !Agree(prefix, pairs, pairs[i], pairs[j]);
      LastWins(prefix, pairs, i);
      LastWins(prefix, pairs, j);
      MovedLastSame(pairs, i);
      MovedLastSame(pairs, j);
      assert Build(prefix, MovedLast(pairs, i)) != Build(prefix, MovedLast(pairs, j));
    }
  }

  /** A pair moved to the end decides its path unless another path extends it. */
  lemma LastWins(prefix: string, pairs: seq<Pair>, i: nat)
    requires i < |pairs| && PathOf(prefix, pairs[i]).Some?
    requires !Extended(prefix, pairs, PathOf(prefix, pairs[i]).value)
    ensures At(Build(prefix, MovedLast(pairs, i)), PathOf(prefix, pairs[i]).value) == Text(Str(pairs[i].value))
  {
    var q, other := PathOf(prefix, pairs[i]).value, MovedLast(pairs, i);
    MovedLastSame(pairs, i);
    AtBuild(prefix, other, q);
    if Extended(prefix, other, q) {
      SameExtended(prefix, other, pairs, q);
    }
  }

  predicate DistinctKeys(prefix: string, pairs: seq<Pair>) {
    forall i, j :: 0 <= i < |pairs| && 0 <= j < |pairs| && i != j ==>
      TrimPrefix(pairs[i].key, prefix + "/") != TrimPrefix(pairs[j].key, prefix + "/")
  }

  lemma SamePathSameKey(prefix: string, a: Pair, b: Pair)
    requires PathOf(prefix, a).Some? && PathOf(prefix, a) == PathOf(prefix, b)
    ensures TrimPrefix(a.key, prefix + "/") == TrimPrefix(b.key, prefix + "/")
  {
    SplitInjective(TrimPrefix(a.key, prefix + "/"), TrimPrefix(b.key, prefix + "/"));
  }

  /** Pairs with distinct stored keys build the same tree in any order. */
  lemma DistinctKeysConfluent(prefix: string, pairs: seq<Pair>, other: seq<Pair>)
    requires DistinctKeys(prefix, pairs) && SamePairs(pairs, other)
    ensures Build(prefix, other) == Build(prefix, pairs)
  {
    forall i, j | 0 <= i < |pairs| && 0 <= j < |pairs| ensures Agree(prefix, pairs, pairs[i], pairs[j]) {
      var p := PathOf(prefix, pairs[i]);
      if p.Some? && p == PathOf(prefix, pairs[j]) {
        SamePathSameKey(prefix, pairs[i], pairs[j]);
        assert i == j;
      }
    }
    Confluence(prefix, pairs);
  }

  lemma TwoPairs(prefix: string, a: Pair, b: Pair, q: Path)
    requires q != [] && PathOf(prefix, a) == PathOf(prefix, b) == Some(q)
    ensures At(Build(prefix, [a, b]), q) == Text(Str(b.value))
  {
    AtBuild(prefix, [a, b], q);
  }

  /** A key below the prefix and the same key without it are one path: the later pair wins. */
  lemma RawKeyAmbiguous(prefix: string, key: string, v: string, w: string)
    requires key != "" && !(prefix + "/" <= key) && v != w
    ensures var a, b := Pair(prefix + ("/" + key), v), Pair(key, w);
      Build(prefix, [a, b]) != Build(prefix, [b, a])
  {
    var a, b := Pair(prefix + ("/" + key), v), Pair(key, w);
    TrimKey(prefix, key);
    TwoPairs(prefix, a, b, Split(key));
    TwoPairs(prefix, b, a, Split(key));
  }

  lemma AmbiguousExample()
    ensures Build("p", [Pair("p/a", "1"), Pair("a", "2")]) != Build("p", [Pair("a", "2"), Pair("p/a", "1")])
  {
    assert "p" + ("/" + "a") == "p/a";
    assert "a"[0] != ("p" + "/")[0];
    assert "1"[0] != "2"[0];
    RawKeyAmbiguous("p", "a", "1", "2");
  }
}
