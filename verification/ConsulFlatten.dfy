/** A configuration tree as key/value pairs, and the way back. */
module ConsulFlatten {
  import opened Decimal
  import opened Paths
  import opened Strings
  import opened ConsulTree

  function FlagText(b: bool): string {
    if b then "true" else "false"
  }

  /** strings.Join(texts, ","). */
  function JoinComma(texts: seq<string>): string {
    if texts == [] then "" else if |texts| == 1 then texts[0] else texts[0] + "," + JoinComma(texts[1..])
  }

  /** The bytes stored for a value; none for a type the conversion does not know. */
  function AnyToBytes(v: Scalar): Option<string> {
    match v
    case Nil => Some("")
    case Str(s) => Some(s)
    case Whole(i) => Some(SignedDec(i))
    case Float(text) => Some(text)
    case Flag(b) => Some(FlagText(b))
    case Strs(strs) => Some(JoinComma(strs))
    case Wholes(ints) => Some(JoinComma(seq(|ints|, k requires 0 <= k < |ints| => SignedDec(ints[k]))))
    case Floats(texts) => Some(JoinComma(texts))
    case Flags(flags) => Some(JoinComma(seq(|flags|, k requires 0 <= k < |flags| => FlagText(flags[k]))))
    case Unsupported => None
  }

  /** Some leaf of the tree is stored under the key with the value. */
  ghost predicate FromTree(parent: string, t: Tree, key: string, value: string) {
    exists q :: FromLeaf(parent, t, q, key, value)
  }

  ghost predicate FromLeaf(parent: string, t: Tree, q: Path, key: string, value: string) {
    key == parent + Suffix(q) && At(t, q).Text? && AnyToBytes(At(t, q).text) == Some(value)
  }

  /** No name on any path contains the separator. */
  ghost predicate SlashFree(t: Tree) {
    forall q :: At(t, q) != Absent ==> SlashFreePath(q)
  }

  ghost predicate Complete(parent: string, t: Tree, res: map<string, string>) {
    forall key, value :: FromTree(parent, t, key, value) ==> key in res && res[key] == value
  }

  lemma ChildOf(parent: string, t: Tree, k: string, key: string, value: string)
    requires t.Dir? && k in t.children
    ensures FromTree(parent + "/" + k, t.children[k], key, value) ==> FromTree(parent, t, key, value)
  {
    if FromTree(parent + "/" + k, t.children[k], key, value) {
      var q :| FromLeaf(parent + "/" + k, t.children[k], q, key, value);
      ChildKey(parent, k, q);
      assert ([k] + q)[1..] == q;
      assert FromLeaf(parent, t, [k] + q, key, value);
    }
  }

  lemma ChildSlashFree(t: Tree, k: string)
    requires t.Dir? && k in t.children && SlashFree(t)
    ensures NoSlash(k) && SlashFree(t.children[k])
  {
    assert At(t, [k]) != Absent;
    assert SlashFreePath([k]) && NoSlash([k][0]);
    forall q | At(t.children[k], q) != Absent ensures SlashFreePath(q) {
      assert ([k] + q)[1..] == q;
      assert At(t, [k] + q) != Absent;
      assert forall i :: 0 <= i < |q| ==> q[i] == ([k] + q)[i + 1];
    }
  }

  lemma SiblingKeys(parent: string, t: Tree, j: string, k: string, key: string, v: string, w: string)
    requires t.Dir? && j in t.children && k in t.children && SlashFree(t)
    requires FromTree(parent + "/" + j, t.children[j], key, v)
    requires FromTree(parent + "/" + k, t.children[k], key, w)
    ensures j == k
  {
    var p :| FromLeaf(parent + "/" + j, t.children[j], p, key, v);
    var q :| FromLeaf(parent + "/" + k, t.children[k], q, key, w);
    var p', q' := [j] + p, [k] + q;
    assert p'[1..] == p && q'[1..] == q;
    assert At(t, p') != Absent && At(t, q') != Absent;
    ChildKey(parent, j, p);
    ChildKey(parent, k, q);
    SameRest(parent, Suffix(p'), Suffix(q'));
    SuffixInjective(p', q');
    assert p'[0] == q'[0];
  }

  /** The closure that walks the tree; children are visited in any order. */
  method Dfs(parent: string, t: Tree, before: map<string, string>) returns (res: map<string, string>)
    ensures forall key :: key in before ==> key in res
    ensures forall key :: key in res ==>
      (key in before && before[key] == res[key]) || FromTree(parent, t, key, res[key])
    ensures SlashFree(t) ==> Complete(parent, t, res)
    decreases t
  {
    res := before;
    if t.Leaf? {
      var val := AnyToBytes(t.value);
      if val.Some? {
        res := res[parent := val.value];
        NoText(parent);
        assert FromLeaf(parent, t, [], parent, val.value);
      }
      LeafKeys(parent, t);
    } else {
      var todo := t.children.Keys;
      while todo != {}
        invariant todo <= t.children.Keys
        invariant forall key :: key in before ==> key in res
        invariant forall key :: key in res ==>
          (key in before && before[key] == res[key]) || FromTree(parent, t, key, res[key])
        invariant SlashFree(t) ==>
          forall k :: k in t.children && k !in todo ==> Complete(parent + "/" + k, t.children[k], res)
        decreases todo
      {
        var k :| k in todo;
        ghost var was := res;
        todo := todo - {k};
        res := Dfs(parent + "/" + k, t.children[k], res);
        forall key | key in res ensures
          (key in before && before[key] == res[key]) || FromTree(parent, t, key, res[key])
        {
          ChildOf(parent, t, k, key, res[key]);
        }
        if SlashFree(t) {
          ChildSlashFree(t, k);
          forall j | j in t.children && j !in todo ensures Complete(parent + "/" + j, t.children[j], res) {
            if j != k {
              StillComplete(parent, t, j, k, was, res);
            }
          }
        }
      }
      if SlashFree(t) {
        AllChildrenComplete(parent, t, res);
      }
    }
  }

  lemma LeafKeys(parent: string, t: Tree)
    requires t.Leaf?
    ensures forall key, value :: FromTree(parent, t, key, value) ==> key == parent && AnyToBytes(t.value) == Some(value)
  {
    forall key, value | FromTree(parent, t, key, value) ensures key == parent && AnyToBytes(t.value) == Some(value) {
      var q :| FromLeaf(parent, t, q, key, value);
      NoText(parent);
    }
  }

  lemma StillComplete(parent: string, t: Tree, j: string, k: string, was: map<string, string>, res: map<string, string>)
    requires t.Dir? && j in t.children && k in t.children && j != k && SlashFree(t)
    requires Complete(parent + "/" + j, t.children[j], was)
    requires forall key :: key in was ==> key in res
    requires forall key :: key in res ==>
      (key in was && was[key] == res[key]) || FromTree(parent + "/" + k, t.children[k], key, res[key])
    ensures Complete(parent + "/" + j, t.children[j], res)
  {
    forall key, value | FromTree(parent + "/" + j, t.children[j], key, value)
      ensures key in res && res[key] == value
    {
      if FromTree(parent + "/" + k, t.children[k], key, res[key]) {
        SiblingKeys(parent, t, j, k, key, value, res[key]);
      }
    }
  }

  lemma AllChildrenComplete(parent: string, t: Tree, res: map<string, string>)
    requires t.Dir?
    requires forall k :: k in t.children ==> Complete(parent + "/" + k, t.children[k], res)
    ensures Complete(parent, t, res)
  {
    forall key, value | FromTree(parent, t, key, value) ensures key in res && res[key] == value {
      var q :| FromLeaf(parent, t, q, key, value);
      var k := q[0];
      assert [k] + q[1..] == q;
      ChildKey(parent, k, q[1..]);
      assert FromLeaf(parent + "/" + k, t.children[k], q[1..], key, value);
      assert FromTree(parent + "/" + k, t.children[k], key, value);
      assert Complete(parent + "/" + k, t.children[k], res);
    }
  }

  /** What flattening a tree can return: nothing but leaves of the tree, and all of them when no
      name contains the separator. */
  ghost predicate IsFlattening(res: map<string, string>, prefix: string, t: Tree) {
    && (forall key :: key in res ==> FromTree(prefix, t, key, res[key]))
    && (SlashFree(t) ==> Complete(prefix, t, res))
  }

  /** Flattening never reports an error: the error of an unsupported leaf is dropped with its key. */
  method ConvertObjectToKeys(prefix: string, root: Option<Tree>) returns (res: Option<map<string, string>>)
    requires root.Some? ==> root.value.Dir?
    ensures res.None? <==> root.None?
    ensures root.Some? ==> IsFlattening(res.value, prefix, root.value)
  {
    if root.None? {
      return None;
    }
    var keys := Dfs(prefix, root.value, map[]);
    return Some(keys);
  }
}
