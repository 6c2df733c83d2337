/** The read side of a bootstrap on trees: the sections built from the store are merged over those
    of the configuration file, and the result is flattened again. */
module ConsulMerge {
  import opened Paths
  import opened ConsulTree
  import opened ConsulFlatten
  import opened ConsulRoundTrip

  /** Sections are merged child by child; elsewhere the second tree wins. */
  function Merge(a: Tree, b: Tree): Tree {
    if a.Leaf? || b.Leaf? then b
    else
      Dir(map k | k in a.children.Keys + b.children.Keys ::
        if k !in b.children then a.children[k]
        else if k !in a.children then b.children[k]
        else Merge(a.children[k], b.children[k]))
  }

  /** No path is a leaf of one tree and a section of the other. */
  ghost predicate Compatible(a: Tree, b: Tree) {
    forall q :: At(a, q) != Absent && At(b, q) != Absent ==> (At(a, q) == Section <==> At(b, q) == Section)
  }

  lemma CompatibleChild(a: Tree, b: Tree, k: string)
    requires Compatible(a, b) && a.Dir? && b.Dir? && k in a.children && k in b.children
    ensures Compatible(a.children[k], b.children[k])
  {
    forall q | At(a.children[k], q) != Absent && At(b.children[k], q) != Absent
      ensures At(a.children[k], q) == Section <==> At(b.children[k], q) == Section
    {
      assert ([k] + q)[1..] == q;
      assert At(a, [k] + q) == At(a.children[k], q) && At(b, [k] + q) == At(b.children[k], q);
    }
  }

  lemma {:induction false} AtMerge(a: Tree, b: Tree, q: Path)
    requires Compatible(a, b)
    ensures At(Merge(a, b), q) == if At(b, q) != Absent then At(b, q) else At(a, q)
    decreases |q|
  {
    assert At(a, []) == Section <==> At(b, []) == Section;
    if q != [] && a.Dir? && b.Dir? && q[0] in a.children && q[0] in b.children {
      CompatibleChild(a, b, q[0]);
      AtMerge(a.children[q[0]], b.children[q[0]], q[1..]);
    }
  }

  lemma MergeSlashFree(a: Tree, b: Tree)
    requires Compatible(a, b) && SlashFree(a) && SlashFree(b)
    ensures SlashFree(Merge(a, b))
  {
    forall q | At(Merge(a, b), q) != Absent ensures SlashFreePath(q) {
      AtMerge(a, b, q);
    }
  }

  /** Slash-free trees are flattened to exactly their leaves. */
  lemma ExactFlattening(res: map<string, string>, prefix: string, t: Tree, key: string, value: string)
    requires IsFlattening(res, prefix, t) && SlashFree(t)
    ensures FromTree(prefix, t, key, value) <==> key in res && res[key] == value
  {}

  /** A key stands for one path. */
  lemma OnePath(prefix: string, t: Tree, p: Path, key: string, value: string)
    requires SlashFree(t) && SlashFreePath(p) && key == prefix + Suffix(p) && FromTree(prefix, t, key, value)
    ensures FromLeaf(prefix, t, p, key, value)
  {
    var q :| FromLeaf(prefix, t, q, key, value);
    Strings.SameRest(prefix, Suffix(p), Suffix(q));
    SuffixInjective(p, q);
  }

  lemma MergedLeaf(prefix: string, a: Tree, b: Tree, q: Path, key: string, value: string)
    requires Compatible(a, b) && SlashFree(a) && SlashFree(b) && FromLeaf(prefix, Merge(a, b), q, key, value)
    ensures SlashFreePath(q)
    ensures FromLeaf(prefix, b, q, key, value) || (FromLeaf(prefix, a, q, key, value) && At(b, q) == Absent)
  {
    AtMerge(a, b, q);
  }

  lemma LeafOfMerged(prefix: string, a: Tree, b: Tree, q: Path, key: string, value: string)
    requires Compatible(a, b)
    requires FromLeaf(prefix, b, q, key, value) || (FromLeaf(prefix, a, q, key, value) && At(b, q) == Absent)
    ensures FromTree(prefix, Merge(a, b), key, value)
  {
    AtMerge(a, b, q);
    assert FromLeaf(prefix, Merge(a, b), q, key, value);
  }

  /** What the three flattenings have to do with the trees. */
  ghost predicate Flattened(prefix: string, a: Tree, b: Tree, file: map<string, string>, store: map<string, string>,
                            res: map<string, string>) {
    && Compatible(a, b) && SlashFree(a) && SlashFree(b) && Supported(b)
    && IsFlattening(file, prefix, a) && IsFlattening(store, prefix, b) && IsFlattening(res, prefix, Merge(a, b))
  }

  lemma MergedEntry(prefix: string, a: Tree, b: Tree, file: map<string, string>, store: map<string, string>,
                    res: map<string, string>, key: string)
    requires Flattened(prefix, a, b, file, store, res) && key in res
    ensures key in file + store && (file + store)[key] == res[key]
  {
    var value := res[key];
    var q :| FromLeaf(prefix, Merge(a, b), q, key, value);
    MergedLeaf(prefix, a, b, q, key, value);
    if FromLeaf(prefix, b, q, key, value) {
      ExactFlattening(store, prefix, b, key, value);
    } else {
      ExactFlattening(file, prefix, a, key, value);
      if key in store {
        OnePath(prefix, b, q, key, store[key]);
      }
    }
  }

  lemma NoneInStore(prefix: string, a: Tree, b: Tree, store: map<string, string>, q: Path, key: string, value: string)
    requires Compatible(a, b) && SlashFree(b) && Supported(b) && IsFlattening(store, prefix, b) && key !in store
    requires FromLeaf(prefix, a, q, key, value)
    ensures At(b, q) == Absent
  {
    if At(b, q).Text? {
      var v := AnyToBytes(At(b, q).text).value;
      assert FromLeaf(prefix, b, q, key, v);
      ExactFlattening(store, prefix, b, key, v);
    }
  }

  lemma EntryMerged(prefix: string, a: Tree, b: Tree, file: map<string, string>, store: map<string, string>,
                    res: map<string, string>, key: string)
    requires Flattened(prefix, a, b, file, store, res) && key in file + store
    ensures key in res
  {
    MergeSlashFree(a, b);
    var value := (file + store)[key];
    if key in store {
      var q :| FromLeaf(prefix, b, q, key, value);
      LeafOfMerged(prefix, a, b, q, key, value);
    } else {
      var q :| FromLeaf(prefix, a, q, key, value);
      NoneInStore(prefix, a, b, store, q, key, value);
      LeafOfMerged(prefix, a, b, q, key, value);
    }
    ExactFlattening(res, prefix, Merge(a, b), key, value);
  }

  /** Flattening merged trees merges the flattenings: the second one's entries win. */
  lemma FlattenMerged(prefix: string, a: Tree, b: Tree, file: map<string, string>, store: map<string, string>,
                      res: map<string, string>)
    requires Flattened(prefix, a, b, file, store, res)
    ensures res == file + store
  {
    forall key | key in res ensures key in file + store && (file + store)[key] == res[key] {
      MergedEntry(prefix, a, b, file, store, res, key);
    }
    forall key | key in file + store ensures key in res {
      EntryMerged(prefix, a, b, file, store, res, key);
    }
  }

  // ---------- What a read makes of the store ----------

  /** The store as its key/value pairs, in some order. */
  ghost predicate PairsOf(store: map<string, string>, pairs: seq<Pair>) {
    && (forall i :: 0 <= i < |pairs| ==> pairs[i].key in store && store[pairs[i].key] == pairs[i].value)
    && (forall key :: key in store ==> Pair(key, store[key]) in pairs)
    && (forall i, j :: 0 <= i < j < |pairs| ==> pairs[i].key != pairs[j].key)
  }

  /** The entries that a listing of the prefix returns: those whose key begins with it. */
  function Listed(prefix: string, store: map<string, string>): map<string, string> {
    map key | key in store && prefix <= key :: store[key]
  }

  /** The key under which a listed entry is written back. */
  function Rekeyed(prefix: string, key: string): string {
    prefix + ("/" + TrimPrefix(key, prefix + "/"))
  }

  /** The listed entries under their new keys, later ones in place of earlier ones. */
  function Reread(prefix: string, pairs: seq<Pair>): map<string, string> {
    if pairs == [] then map[]
    else
      var before, last := Reread(prefix, pairs[..|pairs| - 1]), pairs[|pairs| - 1];
      if PathOf(prefix, last).None? then before else before[Rekeyed(prefix, last.key) := last.value]
  }

  ghost predicate ConflictFree(prefix: string, pairs: seq<Pair>) {
    forall i :: 0 <= i < |pairs| && PathOf(prefix, pairs[i]).Some? ==>
      !Extended(prefix, pairs, PathOf(prefix, pairs[i]).value)
  }

  lemma RekeyedPath(prefix: string, pair: Pair)
    requires PathOf(prefix, pair).Some?
    ensures var q := PathOf(prefix, pair).value;
      q != [] && SlashFreePath(q) && Rekeyed(prefix, pair.key) == prefix + Suffix(q)
  {
    var key := TrimPrefix(pair.key, prefix + "/");
    SuffixOfSplit(key);
    SplitIsSlashFree(key);
  }

  lemma SamePath(prefix: string, p: Path, q: Path)
    requires SlashFreePath(p) && SlashFreePath(q)
    ensures prefix + Suffix(p) == prefix + Suffix(q) <==> p == q
  {
    if prefix + Suffix(p) == prefix + Suffix(q) {
      Strings.SameRest(prefix, Suffix(p), Suffix(q));
      SuffixInjective(p, q);
    }
  }

  lemma {:induction false} RereadAt(prefix: string, pairs: seq<Pair>, q: Path)
    requires SlashFreePath(q)
    ensures prefix + Suffix(q) in Reread(prefix, pairs) <==> LastValue(prefix, pairs, q).Some?
    ensures prefix + Suffix(q) in Reread(prefix, pairs) ==>
      Reread(prefix, pairs)[prefix + Suffix(q)] == LastValue(prefix, pairs, q).value
  {
    if pairs != [] {
      var init, last := pairs[..|pairs| - 1], pairs[|pairs| - 1];
      RereadAt(prefix, init, q);
      if PathOf(prefix, last).Some? {
        RekeyedPath(prefix, last);
        SamePath(prefix, PathOf(prefix, last).value, q);
      }
    }
  }

  /** Every entry comes from a pair. */
  lemma {:induction false} RereadFrom(prefix: string, pairs: seq<Pair>, key: string) returns (i: nat)
    requires key in Reread(prefix, pairs)
    ensures i < |pairs| && PathOf(prefix, pairs[i]).Some?
    ensures key == Rekeyed(prefix, pairs[i].key) && Reread(prefix, pairs)[key] == pairs[i].value
  {
    var n := |pairs| - 1;
    if PathOf(prefix, pairs[n]).Some? && key == Rekeyed(prefix, pairs[n].key) {
      i := n;
    } else {
      i := RereadFrom(prefix, pairs[..n], key);
    }
  }

  /** Every pair with a path has its key. */
  lemma {:induction false} RereadHas(prefix: string, pairs: seq<Pair>, i: nat)
    requires i < |pairs| && PathOf(prefix, pairs[i]).Some?
    ensures Rekeyed(prefix, pairs[i].key) in Reread(prefix, pairs)
  {
    var n := |pairs| - 1;
    if i < n {
      assert pairs[..n][i] == pairs[i];
      RereadHas(prefix, pairs[..n], i);
    }
  }

  lemma RereadLeaf(prefix: string, pairs: seq<Pair>, key: string)
    requires ConflictFree(prefix, pairs) && key in Reread(prefix, pairs)
    ensures FromTree(prefix, Build(prefix, pairs), key, Reread(prefix, pairs)[key])
  {
    var i := RereadFrom(prefix, pairs, key);
    var q := PathOf(prefix, pairs[i]).value;
    RekeyedPath(prefix, pairs[i]);
    RereadAt(prefix, pairs, q);
    SurvivesFromTree(prefix, pairs, key, Reread(prefix, pairs)[key]);
  }

  lemma LeafReread(prefix: string, pairs: seq<Pair>, key: string, value: string)
    requires FromTree(prefix, Build(prefix, pairs), key, value)
    ensures key in Reread(prefix, pairs) && Reread(prefix, pairs)[key] == value
  {
    BuiltIsStorable(prefix, pairs);
    var q :| FromLeaf(prefix, Build(prefix, pairs), q, key, value);
    AtBuild(prefix, pairs, q);
    RereadAt(prefix, pairs, q);
  }

  /** Without conflicts the listed entries come back under their new keys. */
  lemma RereadIsFlattening(prefix: string, pairs: seq<Pair>)
    requires ConflictFree(prefix, pairs)
    ensures IsFlattening(Reread(prefix, pairs), prefix, Build(prefix, pairs))
  {
    var res, t := Reread(prefix, pairs), Build(prefix, pairs);
    forall key | key in res ensures FromTree(prefix, t, key, res[key]) {
      RereadLeaf(prefix, pairs, key);
    }
    forall key, value | FromTree(prefix, t, key, value) ensures key in res && res[key] == value {
      LeafReread(prefix, pairs, key, value);
    }
  }

  /** Reading the store, merging it over the file and flattening the result again gives the file's
      entries overridden by the listed ones under their new keys. */
  lemma ReadSide(prefix: string, t: Tree, pairs: seq<Pair>, file: map<string, string>, res: map<string, string>)
    requires SlashFree(t) && IsFlattening(file, prefix, t)
    requires ConflictFree(prefix, pairs) && Compatible(t, Build(prefix, pairs))
    requires IsFlattening(res, prefix, Merge(t, Build(prefix, pairs)))
    ensures res == file + Reread(prefix, pairs)
  {
    BuiltIsStorable(prefix, pairs);
    RereadIsFlattening(prefix, pairs);
    FlattenMerged(prefix, t, Build(prefix, pairs), file, Reread(prefix, pairs), res);
  }

  /** The keys of a flattened section lie below the prefix. */
  lemma FlatteningBelow(prefix: string, t: Tree, file: map<string, string>, key: string)
    requires t.Dir? && IsFlattening(file, prefix, t) && key in file
    ensures prefix + "/" <= key
  {
    var q :| FromLeaf(prefix, t, q, key, file[key]);
    Strings.Assoc(prefix, "/", q[0] + Suffix(q[1..]));
  }

  lemma RekeyedBelow(prefix: string, key: string)
    ensures prefix + "/" <= Rekeyed(prefix, key)
    ensures TrimPrefix(Rekeyed(prefix, key), prefix + "/") == TrimPrefix(key, prefix + "/")
    ensures prefix + "/" <= key <==> Rekeyed(prefix, key) == key
  {
    TrimKey(prefix, TrimPrefix(key, prefix + "/"));
    Strings.Assoc(prefix, "/", TrimPrefix(key, prefix + "/"));
    if prefix + "/" <= key {
      TrimmedKey(prefix, key);
    }
  }

  /** The entry with this key is written back as it was. */
  predicate KeptByRead(prefix: string, file: map<string, string>, store: map<string, string>, key: string)
    requires key in store
  {
    Below(prefix, key) || (key == prefix + "/" && key in file && file[key] == store[key])
  }

  /** A key of the result lies strictly below the prefix. */
  lemma RereadBelow(prefix: string, pairs: seq<Pair>, key: string)
    requires key in Reread(prefix, pairs)
    ensures Below(prefix, key)
  {
    var i := RereadFrom(prefix, pairs, key);
    RekeyedBelow(prefix, pairs[i].key);
    assert prefix + "/" == key ==> TrimPrefix(key, prefix + "/") == "";
  }

  lemma WrittenBackKept(prefix: string, t: Tree, pairs: seq<Pair>, file: map<string, string>,
                        store: map<string, string>, key: string)
    requires t.Dir? && IsFlattening(file, prefix, t) && file + Reread(prefix, pairs) == file + store && key in store
    ensures KeptByRead(prefix, file, store, key)
  {
    assert key in file + store && (file + store)[key] == store[key];
    if key in Reread(prefix, pairs) {
      RereadBelow(prefix, pairs, key);
    } else {
      assert key in file + Reread(prefix, pairs);
      FlatteningBelow(prefix, t, file, key);
    }
  }

  /** An entry strictly below the prefix keeps its key. */
  lemma BelowIsKept(prefix: string, key: string)
    requires Below(prefix, key)
    ensures Rekeyed(prefix, key) == key && TrimPrefix(key, prefix + "/") != ""
  {
    RekeyedBelow(prefix, key);
    TrimmedKey(prefix, key);
    if TrimPrefix(key, prefix + "/") == "" {
      Strings.NoText("/");
    }
  }

  lemma RereadKept(prefix: string, pairs: seq<Pair>, file: map<string, string>, store: map<string, string>, key: string)
    requires PairsOf(store, pairs) && (forall k :: k in store ==> KeptByRead(prefix, file, store, k))
    ensures key in Reread(prefix, pairs) <==> key in store && Below(prefix, key)
    ensures key in Reread(prefix, pairs) ==> Reread(prefix, pairs)[key] == store[key]
  {
    if key in Reread(prefix, pairs) {
      var i := RereadFrom(prefix, pairs, key);
      assert KeptByRead(prefix, file, store, pairs[i].key);
      RekeyedBelow(prefix, pairs[i].key);
      RereadBelow(prefix, pairs, key);
    }
    if key in store && Below(prefix, key) {
      var i :| 0 <= i < |pairs| && pairs[i] == Pair(key, store[key]);
      BelowIsKept(prefix, key);
      RereadHas(prefix, pairs, i);
    }
  }

  lemma KeptWrittenBack(prefix: string, pairs: seq<Pair>, file: map<string, string>, store: map<string, string>)
    requires PairsOf(store, pairs) && (forall k :: k in store ==> KeptByRead(prefix, file, store, k))
    ensures file + Reread(prefix, pairs) == file + store
  {
    var a, b := file + Reread(prefix, pairs), file + store;
    forall key ensures key in a <==> key in b ensures key in a && key in b ==> a[key] == b[key] {
      RereadKept(prefix, pairs, file, store, key);
      assert key in store ==> KeptByRead(prefix, file, store, key);
    }
  }

  /** The read leaves the listed entries as they are, over those of the file, exactly when all their
      keys lie below the prefix and a slash; the bare prefix with its slash is skipped. */
  lemma ReadSideExact(prefix: string, t: Tree, pairs: seq<Pair>, file: map<string, string>, store: map<string, string>,
                      res: map<string, string>)
    requires t.Dir? && SlashFree(t) && IsFlattening(file, prefix, t) && PairsOf(store, pairs)
    requires ConflictFree(prefix, pairs) && Compatible(t, Build(prefix, pairs))
    requires IsFlattening(res, prefix, Merge(t, Build(prefix, pairs)))
    ensures res == file + store <==> forall key :: key in store ==> KeptByRead(prefix, file, store, key)
  {
    ReadSide(prefix, t, pairs, file, res);
    if res == file + store {
      forall key | key in store ensures KeptByRead(prefix, file, store, key) {
        WrittenBackKept(prefix, t, pairs, file, store, key);
      }
    } else if forall key :: key in store ==> KeptByRead(prefix, file, store, key) {
      KeptWrittenBack(prefix, pairs, file, store);
    }
  }

  // ---------- Entries outside the prefix ----------

  /** The key begins with the prefix, but not with the prefix and a slash: another service's. */
  predicate Outside(prefix: string, key: string) {
    key != "" && prefix <= key && !(prefix + "/" <= key)
  }

  /** The key under which an entry outside is written back. */
  predicate CopyKey(prefix: string, store: map<string, string>, key: string) {
    && prefix + "/" <= key
    && Outside(prefix, TrimPrefix(key, prefix + "/")) && TrimPrefix(key, prefix + "/") in store
  }

  /** The entries outside under their new keys. */
  function Copies(prefix: string, store: map<string, string>): map<string, string> {
    map key | key in (set k | k in store :: Rekeyed(prefix, k)) && CopyKey(prefix, store, key) ::
      store[TrimPrefix(key, prefix + "/")]
  }

  lemma CopyRekeyed(prefix: string, store: map<string, string>, key: string)
    requires CopyKey(prefix, store, key)
    ensures key == Rekeyed(prefix, TrimPrefix(key, prefix + "/"))
    ensures key in Copies(prefix, store)
  {
    TrimmedKey(prefix, key);
  }

  lemma CopyFound(prefix: string, store: map<string, string>, k: string)
    requires Outside(prefix, k) && k in store
    ensures var key := Rekeyed(prefix, k);
      key in Copies(prefix, store) && Copies(prefix, store)[key] == store[k]
  {
    RekeyedBelow(prefix, k);
    CopyRekeyed(prefix, store, Rekeyed(prefix, k));
  }

  /** An entry that a read writes back is there already or is the copy of an entry outside; all copies
      are written back. */
  lemma RereadStore(prefix: string, store: map<string, string>, pairs: seq<Pair>, key: string)
    requires PairsOf(Listed(prefix, store), pairs)
    ensures key in Reread(prefix, pairs) && key !in store ==>
      key in Copies(prefix, store) && Reread(prefix, pairs)[key] == Copies(prefix, store)[key]
    ensures key in Copies(prefix, store) ==> key in Reread(prefix, pairs)
  {
    if key in Copies(prefix, store) {
      CopyReread(prefix, store, pairs, key);
    }
    if key in Reread(prefix, pairs) && key !in store {
      var i := RereadFrom(prefix, pairs, key);
      assert pairs[i].key in Listed(prefix, store);
      RekeyedBelow(prefix, pairs[i].key);
      CopyFound(prefix, store, pairs[i].key);
    }
  }

  /** Copies stay as they are when entries are added. */
  lemma CopiesGrow(prefix: string, before: map<string, string>, after: map<string, string>, key: string)
    requires forall k :: k in before ==> k in after && after[k] == before[k]
    requires key in Copies(prefix, before)
    ensures key in Copies(prefix, after) && Copies(prefix, after)[key] == Copies(prefix, before)[key]
  {
    CopyRekeyed(prefix, after, key);
  }

  /** They are the same when all that is added lies below the prefix. */
  lemma SameCopies(prefix: string, before: map<string, string>, after: map<string, string>)
    requires forall k :: k in before ==> k in after && after[k] == before[k]
    requires forall k :: k in after && k !in before ==> prefix + "/" <= k
    ensures Copies(prefix, after) == Copies(prefix, before)
  {
    forall key ensures key in Copies(prefix, after) <==> key in Copies(prefix, before) {
      if CopyKey(prefix, before, key) { CopyRekeyed(prefix, after, key); }
      if CopyKey(prefix, after, key) { CopyRekeyed(prefix, before, key); }
    }
  }

  lemma CopyReread(prefix: string, store: map<string, string>, pairs: seq<Pair>, key: string)
    requires PairsOf(Listed(prefix, store), pairs) && CopyKey(prefix, store, key)
    ensures key in Reread(prefix, pairs)
  {
    var k := TrimPrefix(key, prefix + "/");
    assert k in Listed(prefix, store);
    var i :| 0 <= i < |pairs| && pairs[i] == Pair(k, Listed(prefix, store)[k]);
    CopyRekeyed(prefix, store, key);
    RereadHas(prefix, pairs, i);
  }

  lemma ListingNext(store: map<string, string>, rest: map<string, string>, key: string, before: seq<Pair>)
    requires key in store && rest == store - {key} && PairsOf(rest, before)
    ensures PairsOf(store, before + [Pair(key, store[key])])
  {
    var pairs := before + [Pair(key, store[key])];
    forall k | k in store ensures Pair(k, store[k]) in pairs {
      if k == key {
        assert pairs[|before|] == Pair(key, store[key]);
      } else {
        assert k in rest && Pair(k, rest[k]) in before;
      }
    }
  }

  /** Some listing of a store. */
  lemma {:induction false} SomeListing(store: map<string, string>) returns (pairs: seq<Pair>)
    ensures PairsOf(store, pairs)
    decreases store.Keys
  {
    if store == map[] {
      pairs := [];
    } else {
      var key :| key in store;
      var rest := store - {key};
      var before := SomeListing(rest);
      ListingNext(store, rest, key, before);
      pairs := before + [Pair(key, store[key])];
    }
  }
}
