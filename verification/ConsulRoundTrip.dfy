/** Flattening and rebuilding: when the tree comes back, and which pairs survive. */
module ConsulRoundTrip {
  import opened Decimal
  import opened Paths
  import opened ConsulTree
  import opened ConsulFlatten

  function RenderedText(v: Scalar): Scalar {
    var bytes := AnyToBytes(v);
    Str(if bytes.Some? then bytes.value else "")
  }

  /** The tree with every leaf replaced by its stored text. */
  function Rendered(t: Tree): Tree {
    match t
    case Leaf(v) => Leaf(RenderedText(v))
    case Dir(c) => Dir(map k | k in c :: Rendered(c[k]))
  }

  function RenderedNode(n: Node): Node {
    if n.Text? then Text(RenderedText(n.text)) else n
  }

  lemma {:induction false} AtRendered(t: Tree, q: Path)
    ensures At(Rendered(t), q) == RenderedNode(At(t, q))
    decreases |q|
  {
    if q != [] && t.Dir? && q[0] in t.children {
      AtRendered(t.children[q[0]], q[1..]);
    }
  }

  /** The pairs of a map, in any order and with any repetition. */
  ghost predicate Lists(pairs: seq<Pair>, res: map<string, string>) {
    && (forall i :: 0 <= i < |pairs| ==> pairs[i].key in res && res[pairs[i].key] == pairs[i].value)
    && (forall key :: key in res ==> Pair(key, res[key]) in pairs)
  }

  ghost predicate Supported(t: Tree) {
    forall q :: At(t, q).Text? ==> AnyToBytes(At(t, q).text).Some?
  }

  ghost predicate NoEmptySection(t: Tree) {
    forall q :: q != [] && At(t, q) == Section ==> HasChild(t, q)
  }

  ghost predicate HasChild(t: Tree, q: Path) {
    exists k :: At(t, q + [k]) != Absent
  }

  /** The trees that survive the trip through the store. */
  ghost predicate Storable(t: Tree) {
    && SlashFree(t)
    && Supported(t)
    && NoEmptySection(t)
    && !At(t, [""]).Text?
  }

  // ---------- Storable trees come back ----------

  ghost predicate LeafAt(t: Tree, r: Path) {
    At(t, r).Text?
  }

  /** A tree whose sections all have children has a leaf. */
  lemma {:induction false} SomeLeaf(t: Tree)
    requires forall q :: At(t, q) == Section ==> HasChild(t, q)
    ensures exists r :: LeafAt(t, r)
  {
    if t.Leaf? {
      assert LeafAt(t, []);
    } else {
      assert At(t, []) == Section && HasChild(t, []);
      var k :| At(t, [] + [k]) != Absent;
      assert [] + [k] == [k];
      var sub := t.children[k];
      forall q | At(sub, q) == Section ensures HasChild(sub, q) {
        ChildOfSub(t, k, q);
      }
      SomeLeaf(sub);
      var r :| LeafAt(sub, r);
      assert ([k] + r)[1..] == r;
      assert LeafAt(t, [k] + r);
    }
  }

  lemma {:induction false} LeafBelow(t: Tree, q: Path)
    requires At(t, q) == Section
    requires forall r :: q <= r && At(t, r) == Section ==> HasChild(t, r)
    ensures exists r :: q < r && LeafAt(t, r)
    decreases |q|
  {
    if q == [] {
      forall r | At(t, r) == Section ensures HasChild(t, r) {
        assert [] <= r;
      }
      SomeLeaf(t);
      var r :| LeafAt(t, r);
      assert r != [] && q < r;
    } else {
      var k, sub, rest := q[0], t.children[q[0]], q[1..];
      assert q == [k] + rest;
      forall r | rest <= r && At(sub, r) == Section ensures HasChild(sub, r) {
        ChildOfSub(t, k, r);
        assert q <= [k] + r;
      }
      LeafBelow(sub, rest);
      var r :| rest < r && LeafAt(sub, r);
      ChildOfSub(t, k, r);
      assert q < [k] + r && LeafAt(t, [k] + r);
    }
  }

  lemma ChildOfSub(t: Tree, k: string, r: Path)
    requires t.Dir? && k in t.children
    ensures At(t, [k] + r) == At(t.children[k], r)
    ensures HasChild(t, [k] + r) ==> HasChild(t.children[k], r)
  {
    assert ([k] + r)[1..] == r;
    if HasChild(t, [k] + r) {
      var j :| At(t, [k] + r + [j]) != Absent;
      assert ([k] + r + [j])[1..] == r + [j];
      assert At(t.children[k], r + [j]) != Absent;
    }
  }

  /** Each listed pair is stored under the path of its leaf. */
  lemma PairFromLeaf(prefix: string, t: Tree, res: map<string, string>, pairs: seq<Pair>, i: nat) returns (q: Path)
    requires t.Dir? && IsFlattening(res, prefix, t) && Lists(pairs, res) && SlashFree(t) && i < |pairs|
    ensures q != [] && FromLeaf(prefix, t, q, pairs[i].key, pairs[i].value)
    ensures PathOf(prefix, pairs[i]) == if q == [""] then None else Some(q)
  {
    assert FromTree(prefix, t, pairs[i].key, res[pairs[i].key]);
    q :| FromLeaf(prefix, t, q, pairs[i].key, pairs[i].value);
    SuffixKey(prefix, q);
  }

  /** Each supported leaf is listed. */
  lemma LeafIsListed(prefix: string, t: Tree, res: map<string, string>, pairs: seq<Pair>, q: Path) returns (i: nat)
    requires t.Dir? && IsFlattening(res, prefix, t) && Lists(pairs, res) && Storable(t) && LeafAt(t, q)
    ensures i < |pairs| && PathOf(prefix, pairs[i]) == Some(q)
    ensures Str(pairs[i].value) == RenderedText(At(t, q).text)
  {
    var key, value := prefix + Suffix(q), AnyToBytes(At(t, q).text).value;
    assert FromLeaf(prefix, t, q, key, value);
    assert FromTree(prefix, t, key, value);
    assert Pair(key, res[key]) in pairs;
    i :| 0 <= i < |pairs| && pairs[i] == Pair(key, value);
    assert q != [];
    SuffixKey(prefix, q);
  }

  lemma StoredStated(prefix: string, t: Tree, res: map<string, string>, pairs: seq<Pair>, q: Path)
    requires t.Dir? && IsFlattening(res, prefix, t) && Lists(pairs, res) && Storable(t)
    ensures Stated(prefix, pairs, q) == RenderedNode(At(t, q))
  {
    if q == [] {
    } else if Extended(prefix, pairs, q) {
      var i :| 0 <= i < |pairs| && PathOf(prefix, pairs[i]).Some? && q < PathOf(prefix, pairs[i]).value;
      var r := PairFromLeaf(prefix, t, res, pairs, i);
      AboveIsSection(t, q, r);
    } else if At(t, q) == Section {
      LeafBelow(t, q);
      var r :| q < r && LeafAt(t, r);
      var i := LeafIsListed(prefix, t, res, pairs, r);
      assert false;
    } else {
      LastValueStated(prefix, pairs, q);
      var v := LastValue(prefix, pairs, q);
      if v.Some? {
        var i :| 0 <= i < |pairs| && PathOf(prefix, pairs[i]) == Some(q) && pairs[i].value == v.value;
        var r := PairFromLeaf(prefix, t, res, pairs, i);
      }
      if At(t, q).Text? {
        var i := LeafIsListed(prefix, t, res, pairs, q);
      }
    }
  }

  // ---------- Trees that come back are storable ----------

  /** Whatever is built is slash-free, has no empty section and no leaf without a name. */
  lemma BuiltIsStorable(prefix: string, pairs: seq<Pair>)
    ensures Storable(Build(prefix, pairs))
  {
    var t := Build(prefix, pairs);
    forall q | At(t, q) != Absent ensures SlashFreePath(q) {
      AtBuild(prefix, pairs, q);
      StatedIsSlashFree(prefix, pairs, q);
    }
    forall q | At(t, q).Text? ensures AnyToBytes(At(t, q).text).Some? {
      AtBuild(prefix, pairs, q);
    }
    forall q | q != [] && At(t, q) == Section ensures HasChild(t, q) {
      AtBuild(prefix, pairs, q);
      var k := StatedChild(prefix, pairs, q);
      AtBuild(prefix, pairs, q + [k]);
    }
    AtBuild(prefix, pairs, [""]);
    NamelessIsSkipped(prefix, pairs);
  }

  lemma StatedIsSlashFree(prefix: string, pairs: seq<Pair>, q: Path)
    requires Stated(prefix, pairs, q) != Absent
    ensures SlashFreePath(q)
  {
    if q != [] {
      LastValueStated(prefix, pairs, q);
      var i :| 0 <= i < |pairs| && PathOf(prefix, pairs[i]).Some? && q <= PathOf(prefix, pairs[i]).value;
      SplitIsSlashFree(TrimPrefix(pairs[i].key, prefix + "/"));
    }
  }

  lemma StatedChild(prefix: string, pairs: seq<Pair>, q: Path) returns (k: string)
    requires Extended(prefix, pairs, q)
    ensures Stated(prefix, pairs, q + [k]) != Absent
  {
    var i :| 0 <= i < |pairs| && PathOf(prefix, pairs[i]).Some? && q < PathOf(prefix, pairs[i]).value;
    var p := PathOf(prefix, pairs[i]).value;
    k := p[|q|];
    PrefixOfStated(prefix, pairs, i, q + [k]);
  }

  lemma PrefixOfStated(prefix: string, pairs: seq<Pair>, i: nat, r: Path)
    requires i < |pairs| && PathOf(prefix, pairs[i]).Some? && r <= PathOf(prefix, pairs[i]).value
    ensures Stated(prefix, pairs, r) != Absent
  {
    LastValueStated(prefix, pairs, r);
    assert r == PathOf(prefix, pairs[i]).value || r < PathOf(prefix, pairs[i]).value;
  }

  lemma NamelessIsSkipped(prefix: string, pairs: seq<Pair>)
    ensures LastValue(prefix, pairs, [""]).None?
  {
    LastValueStated(prefix, pairs, [""]);
    forall i | 0 <= i < |pairs| ensures PathOf(prefix, pairs[i]) != Some([""]) {
      var key := TrimPrefix(pairs[i].key, prefix + "/");
      if Split(key) == [""] {
        SplitInjective(key, "");
      }
    }
  }

  ghost predicate SameShape(b: Tree, t: Tree) {
    forall q :: At(b, q) == RenderedNode(At(t, q))
  }

  lemma ShapeIsStorable(b: Tree, t: Tree)
    requires SameShape(b, t) && Storable(b)
    ensures SlashFree(t) && NoEmptySection(t) && !At(t, [""]).Text?
  {
    forall q | At(t, q) != Absent ensures SlashFreePath(q) {
      assert At(b, q) != Absent;
    }
    forall q | q != [] && At(t, q) == Section ensures HasChild(t, q) {
      assert At(b, q) == Section;
      var k :| At(b, q + [k]) != Absent;
      assert At(t, q + [k]) != Absent;
    }
    assert At(b, [""]) == RenderedNode(At(t, [""]));
  }

  lemma ListedIsSupported(prefix: string, t: Tree, res: map<string, string>, pairs: seq<Pair>, q: Path)
    requires t.Dir? && IsFlattening(res, prefix, t) && Lists(pairs, res) && SlashFree(t)
    requires At(Build(prefix, pairs), q).Text?
    ensures At(t, q).Text? && AnyToBytes(At(t, q).text).Some?
  {
    AtBuild(prefix, pairs, q);
    LastValueStated(prefix, pairs, q);
    var i :| 0 <= i < |pairs| && PathOf(prefix, pairs[i]) == Some(q);
    var r := PairFromLeaf(prefix, t, res, pairs, i);
  }

  lemma ComesBackStorable(prefix: string, t: Tree, res: map<string, string>, pairs: seq<Pair>)
    requires t.Dir? && IsFlattening(res, prefix, t) && Lists(pairs, res)
    requires Build(prefix, pairs) == Rendered(t)
    ensures Storable(t)
  {
    var b := Build(prefix, pairs);
    BuiltIsStorable(prefix, pairs);
    forall q: Path ensures At(b, q) == RenderedNode(At(t, q)) {
      AtRendered(t, q);
    }
    ShapeIsStorable(b, t);
    forall q | At(t, q).Text? ensures AnyToBytes(At(t, q).text).Some? {
      assert At(b, q).Text?;
      ListedIsSupported(prefix, t, res, pairs, q);
    }
  }

  /** Flattening a tree and building it again, the pairs in any order, gives back the tree with its
      leaves rendered exactly when the tree is storable. */
  lemma RoundTrip(prefix: string, t: Tree, res: map<string, string>, pairs: seq<Pair>)
    requires t.Dir? && IsFlattening(res, prefix, t) && Lists(pairs, res)
    ensures Build(prefix, pairs) == Rendered(t) <==> Storable(t)
  {
    if Storable(t) {
      forall q ensures At(Build(prefix, pairs), q) == At(Rendered(t), q) {
        AtBuild(prefix, pairs, q);
        AtRendered(t, q);
        StoredStated(prefix, t, res, pairs, q);
      }
      Extensional(Build(prefix, pairs), Rendered(t));
    } else if Build(prefix, pairs) == Rendered(t) {
      ComesBackStorable(prefix, t, res, pairs);
    }
  }

  lemma NotStorable(t: Tree, name: string)
    requires t.Dir? && name in t.children && !NoSlash(name)
    ensures !Storable(t)
  {
    assert At(t, [name]) != Absent && !NoSlash([name][0]);
  }

  /** A name with a slash does not come back, whatever stands below it. */
  lemma SlashNameLost(prefix: string, t: Tree, name: string, res: map<string, string>, pairs: seq<Pair>)
    requires t.Dir? && name in t.children && !NoSlash(name)
    requires IsFlattening(res, prefix, t) && Lists(pairs, res)
    ensures Build(prefix, pairs) != Rendered(t)
  {
    NotStorable(t, name);
    RoundTrip(prefix, t, res, pairs);
  }

  lemma SlashExample(v: string, res: map<string, string>, pairs: seq<Pair>)
    requires IsFlattening(res, "p", Dir(map["a/b" := Leaf(Str(v))])) && Lists(pairs, res)
    ensures Build("p", pairs) != Rendered(Dir(map["a/b" := Leaf(Str(v))]))
  {
    assert "a/b"[1] == '/';
    SlashNameLost("p", Dir(map["a/b" := Leaf(Str(v))]), "a/b", res, pairs);
  }

  // ---------- Building and flattening ----------

  ghost predicate Survives(prefix: string, pairs: seq<Pair>, key: string, value: string) {
    exists q :: key == prefix + Suffix(q) && Stated(prefix, pairs, q) == Text(Str(value))
  }

  lemma SurvivesFromTree(prefix: string, pairs: seq<Pair>, key: string, value: string)
    ensures Survives(prefix, pairs, key, value) <==> FromTree(prefix, Build(prefix, pairs), key, value)
  {
    var t := Build(prefix, pairs);
    if Survives(prefix, pairs, key, value) {
      var q :| key == prefix + Suffix(q) && Stated(prefix, pairs, q) == Text(Str(value));
      AtBuild(prefix, pairs, q);
      assert FromLeaf(prefix, t, q, key, value);
    }
    if FromTree(prefix, t, key, value) {
      var q :| FromLeaf(prefix, t, q, key, value);
      AtBuild(prefix, pairs, q);
    }
  }

  /** Flattening what was built from any pairs returns exactly the stated values. */
  lemma FlattenBuilt(prefix: string, pairs: seq<Pair>, res: map<string, string>, key: string, value: string)
    requires IsFlattening(res, prefix, Build(prefix, pairs))
    ensures key in res && res[key] == value <==> Survives(prefix, pairs, key, value)
  {
    BuiltIsStorable(prefix, pairs);
    SurvivesFromTree(prefix, pairs, key, value);
  }

  /** A key below the prefix. */
  predicate Below(prefix: string, key: string) {
    prefix + "/" < key
  }

  /** The pair is the last one of its key, and no other path extends its own. */
  predicate Surviving(prefix: string, pairs: seq<Pair>, i: nat)
    requires i < |pairs|
  {
    && (forall j :: i < j < |pairs| ==> pairs[j].key != pairs[i].key)
    && PathOf(prefix, pairs[i]).Some?
    && !Extended(prefix, pairs, PathOf(prefix, pairs[i]).value)
  }

  lemma BelowKey(prefix: string, pair: Pair)
    requires Below(prefix, pair.key)
    ensures PathOf(prefix, pair).Some? && pair.key == prefix + Suffix(PathOf(prefix, pair).value)
  {
    TrimmedKey(prefix, pair.key);
    SuffixOfSplit(TrimPrefix(pair.key, prefix + "/"));
  }

  ghost predicate AllBelow(prefix: string, pairs: seq<Pair>) {
    forall i :: 0 <= i < |pairs| ==> Below(prefix, pairs[i].key)
  }

  /** The pair that states a surviving value. */
  lemma SurvivorFound(prefix: string, pairs: seq<Pair>, q: Path, value: string) returns (i: nat)
    requires AllBelow(prefix, pairs) && Stated(prefix, pairs, q) == Text(Str(value))
    ensures i < |pairs| && pairs[i] == Pair(prefix + Suffix(q), value) && Surviving(prefix, pairs, i)
  {
    i := LastOfPath(prefix, pairs, q);
    BelowKey(prefix, pairs[i]);
  }

  lemma SurvivorStated(prefix: string, pairs: seq<Pair>, i: nat)
    requires AllBelow(prefix, pairs) && i < |pairs| && Surviving(prefix, pairs, i)
    ensures Survives(prefix, pairs, pairs[i].key, pairs[i].value)
  {
    BelowKey(prefix, pairs[i]);
    var q := PathOf(prefix, pairs[i]).value;
    LastValueStated(prefix, pairs, q);
    var j := LastOfPath(prefix, pairs, q);
    BelowKey(prefix, pairs[j]);
    assert Stated(prefix, pairs, q) == Text(Str(pairs[i].value));
  }

  /** Keys below the prefix come back as they were: exactly the surviving pairs. */
  lemma SurvivingPairs(prefix: string, pairs: seq<Pair>, res: map<string, string>, key: string, value: string)
    requires IsFlattening(res, prefix, Build(prefix, pairs)) && AllBelow(prefix, pairs)
    ensures key in res && res[key] == value <==>
      exists i :: 0 <= i < |pairs| && pairs[i] == Pair(key, value) && Surviving(prefix, pairs, i)
  {
    FlattenBuilt(prefix, pairs, res, key, value);
    if Survives(prefix, pairs, key, value) {
      var q :| key == prefix + Suffix(q) && Stated(prefix, pairs, q) == Text(Str(value));
      var i := SurvivorFound(prefix, pairs, q, value);
    }
    if i :| 0 <= i < |pairs| && pairs[i] == Pair(key, value) && Surviving(prefix, pairs, i) {
      SurvivorStated(prefix, pairs, i);
    }
  }
}
