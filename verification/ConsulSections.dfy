/** The nested maps that the converter fills in place, one object for each section. */
module ConsulSections {
  import opened Decimal
  import opened Paths
  import opened ConsulTree

  datatype Entry = Value(text: string) | Child(section: Section)

  /** A map of one nesting level; `path` is where it hangs. */
  class Section {
    var entries: map<string, Entry>
    ghost const path: Path

    constructor (ghost p: Path)
      ensures entries == map[] && path == p
    {
      entries := map[];
      path := p;
    }
  }

  /** The entries are what the tree holds right below the path. */
  ghost predicate Mirror(entries: map<string, Entry>, path: Path, sections: set<Section>, t: Tree) {
    && At(t, path) == Node.Section
    && (forall k :: k !in entries ==> At(t, path + [k]) == Absent)
    && (forall k :: k in entries ==>
          match entries[k]
          case Value(text) => At(t, path + [k]) == Text(Str(text))
          case Child(c) => At(t, path + [k]) == Node.Section && c in sections && c.path == path + [k])
  }

  ghost predicate Mirrors(s: Section, sections: set<Section>, t: Tree)
    reads s
  {
    Mirror(s.entries, s.path, sections, t)
  }

  /** The sections are a tree of maps under the root, each at a path of its own. */
  ghost predicate Represents(root: Section, sections: set<Section>, t: Tree)
    reads sections
  {
    && root in sections && root.path == []
    && (forall s :: s in sections ==> Mirrors(s, sections, t))
    && (forall s, r :: s in sections && r in sections && s.path == r.path ==> s == r)
  }

  /** The tree with a section opened at every step of a path. */
  function Open(t: Tree, p: Path): Tree
    decreases |p|
  {
    var c := Children(t);
    if p == [] then Dir(c) else Dir(c[p[0] := Open(if p[0] in c then c[p[0]] else Empty(), p[1..])])
  }

  lemma {:induction false} AtOpen(t: Tree, p: Path, q: Path)
    ensures At(Open(t, p), q) == if q <= p then Node.Section else At(t, q)
    decreases |p|
  {
    if p != [] && q != [] && p[0] == q[0] {
      var c := Children(t);
      AtOpen(if p[0] in c then c[p[0]] else Empty(), p[1..], q[1..]);
      assert p == [p[0]] + p[1..] && q == [q[0]] + q[1..];
      assert q <= p <==> q[1..] <= p[1..];
    }
  }

  ghost predicate SameNodes(a: Tree, b: Tree) {
    forall q :: At(a, q) == At(b, q)
  }

  lemma OpenNext(t: Tree, p: Path, key: string)
    ensures SameNodes(Open(Open(t, p), p + [key]), Open(t, p + [key]))
  {
    forall q: Path ensures At(Open(Open(t, p), p + [key]), q) == At(Open(t, p + [key]), q) {
      AtOpen(t, p, q);
      AtOpen(t, p + [key], q);
      AtOpen(Open(t, p), p + [key], q);
      if q <= p {
        Longer(q, p, key);
      }
    }
  }

  lemma Longer(q: Path, p: Path, key: string)
    requires q <= p
    ensures q <= p + [key]
  {}

  lemma PutLast(t: Tree, p: Path, key: string, v: Scalar)
    ensures SameNodes(Put(Open(t, p), p + [key], v), Put(t, p + [key], v))
  {
    forall q: Path ensures At(Put(Open(t, p), p + [key], v), q) == At(Put(t, p + [key], v), q) {
      AtPut(Open(t, p), p + [key], v, q);
      AtPut(t, p + [key], v, q);
      AtOpen(t, p, q);
      AtOpen(t, p, p + [key]);
    }
  }

  /** Opening one more section changes a single entry of a single section. */
  lemma OpenOne(t: Tree, sp: Path, key: string)
    requires At(t, sp) == Node.Section
    ensures var u := Open(t, sp + [key]);
      && (forall rp: Path, k :: At(u, rp + [k]) == if rp == sp && k == key then Node.Section else At(t, rp + [k]))
      && (forall q :: At(t, q) == Node.Section ==> At(u, q) == Node.Section)
      && (At(t, sp + [key]) != Node.Section ==> forall k :: At(u, sp + [key] + [k]) == Absent)
  {
    var p := sp + [key];
    var u := Open(t, p);
    forall q: Path ensures At(t, q) == Node.Section ==> At(u, q) == Node.Section {
      AtOpen(t, p, q);
    }
    forall rp: Path, k
      ensures At(u, rp + [k]) == if rp == sp && k == key then Node.Section else At(t, rp + [k])
    {
      var q := rp + [k];
      AtOpen(t, p, q);
      if rp == sp && k == key {
        assert q == p;
      } else if q <= p {
        NextStep(rp, k, sp, key);
        if q != sp {
          AboveIsSection(t, q, sp);
        }
      }
    }
    if At(t, p) != Node.Section {
      forall k ensures At(u, p + [k]) == Absent {
        AtOpen(t, p, p + [k]);
        AtJoined(t, p, [k]);
      }
    }
  }

  lemma NextStep(rp: Path, k: string, sp: Path, key: string)
    requires rp + [k] <= sp + [key]
    ensures (rp == sp && k == key) || rp + [k] <= sp
  {
    var q, p := rp + [k], sp + [key];
    assert q == p[..|q|];
    if |rp| < |sp| {
      assert p[..|q|] == sp[..|q|];
    } else {
      assert rp == q[..|rp|] && k == q[|rp|];
      assert sp == p[..|sp|] && key == p[|sp|];
    }
  }

  lemma SameRepresents(root: Section, sections: set<Section>, t: Tree, u: Tree)
    requires Represents(root, sections, t) && SameNodes(t, u)
    ensures Represents(root, sections, u)
  {
    forall s | s in sections ensures Mirrors(s, sections, u) {
      assert Mirrors(s, sections, t);
      assert At(t, s.path) == At(u, s.path);
      assert forall k :: At(t, s.path + [k]) == At(u, s.path + [k]);
    }
  }

  /** The section that gets a new nested map. */
  lemma OpenedHere(entries: map<string, Entry>, sp: Path, key: string, sections: set<Section>, next: Section, t: Tree)
    requires Mirror(entries, sp, sections, t) && next.path == sp + [key]
    ensures Mirror(entries[key := Child(next)], sp, sections + {next}, Open(t, sp + [key]))
  {
    OpenOne(t, sp, key);
  }

  /** Every other one. */
  lemma OpenedElsewhere(entries: map<string, Entry>, rp: Path, sections: set<Section>, more: set<Section>, t: Tree,
                        sp: Path, key: string)
    requires Mirror(entries, rp, sections, t) && rp != sp && At(t, sp) == Node.Section && sections <= more
    ensures Mirror(entries, rp, more, Open(t, sp + [key]))
  {
    OpenOne(t, sp, key);
  }

  /** The new map itself. */
  lemma OpenedNew(sp: Path, key: string, sections: set<Section>, t: Tree)
    requires At(t, sp) == Node.Section && At(t, sp + [key]) != Node.Section
    ensures Mirror(map[], sp + [key], sections, Open(t, sp + [key]))
  {
    OpenOne(t, sp, key);
    AtOpen(t, sp + [key], sp + [key]);
  }

  /** A new nested map in place of nothing or of a value. */
  method OpenSection(s: Section, key: string, ghost root: Section, ghost before: set<Section>, ghost t: Tree)
    returns (next: Section)
    requires Represents(root, before, t) && s in before
    requires key !in s.entries || s.entries[key].Value?
    modifies s
    ensures fresh(next) && next.path == s.path + [key]
    ensures s.entries == old(s.entries)[key := Child(next)]
    ensures Represents(root, before + {next}, Open(t, s.path + [key]))
  {
    ghost var u := Open(t, s.path + [key]);
    assert Mirrors(s, before, t);
    next := new Section(s.path + [key]);
    OpenedNew(s.path, key, before + {next}, t);
    s.entries := s.entries[key := Child(next)];
    forall r | r in before ensures Mirrors(r, before + {next}, u) && r.path != next.path {
      assert old(Mirrors(r, before, t));
      if r == s {
        OpenedHere(old(s.entries), s.path, key, before, next, t);
      } else {
        OpenedElsewhere(r.entries, r.path, before, before + {next}, t, s.path, key);
      }
    }
  }

  lemma AlreadyOpen(s: Section, key: string, root: Section, sections: set<Section>, t: Tree)
    requires Represents(root, sections, t) && s in sections
    requires key in s.entries && s.entries[key].Child?
    ensures s.entries[key].section in sections && s.entries[key].section.path == s.path + [key]
    ensures Represents(root, sections, Open(t, s.path + [key]))
  {
    assert Mirrors(s, sections, t);
    OpenOne(t, s.path, key);
    forall r | r in sections ensures Mirrors(r, sections, Open(t, s.path + [key])) {
      assert Mirrors(r, sections, t);
    }
  }

  /** Storing one more value changes a single entry of a single section, unless a section is there. */
  lemma PutOne(t: Tree, sp: Path, key: string, v: Scalar)
    requires At(t, sp) == Node.Section
    ensures var u := Put(t, sp + [key], v);
      && (forall rp: Path, k :: At(u, rp + [k]) ==
            if rp == sp && k == key && At(t, sp + [key]) != Node.Section then Text(v) else At(t, rp + [k]))
      && (forall q :: At(t, q) == Node.Section ==> At(u, q) == Node.Section)
  {
    var p := sp + [key];
    var u := Put(t, p, v);
    forall q: Path ensures At(t, q) == Node.Section ==> At(u, q) == Node.Section {
      AtPut(t, p, v, q);
    }
    forall rp: Path, k
      ensures At(u, rp + [k]) ==
        if rp == sp && k == key && At(t, p) != Node.Section then Text(v) else At(t, rp + [k])
    {
      var q := rp + [k];
      AtPut(t, p, v, q);
      if rp == sp && k == key {
        assert q == p;
      } else if q <= p {
        NextStep(rp, k, sp, key);
        if q != sp {
          AboveIsSection(t, q, sp);
        }
      }
    }
  }

  /** The section that gets the value. */
  lemma StoredHere(entries: map<string, Entry>, sp: Path, key: string, value: string, sections: set<Section>, t: Tree)
    requires Mirror(entries, sp, sections, t)
    ensures Mirror(if key in entries && entries[key].Child? then entries else entries[key := Value(value)],
                   sp, sections, Put(t, sp + [key], Str(value)))
  {
    PutOne(t, sp, key, Str(value));
  }

  lemma StoredElsewhere(entries: map<string, Entry>, rp: Path, sections: set<Section>, t: Tree, sp: Path, key: string,
                        v: Scalar)
    requires Mirror(entries, rp, sections, t) && rp != sp && At(t, sp) == Node.Section
    ensures Mirror(entries, rp, sections, Put(t, sp + [key], v))
  {
    PutOne(t, sp, key, v);
  }

  /** The last name of a key: its value is stored unless a section is there. */
  method StoreValue(s: Section, key: string, value: string, ghost root: Section, ghost sections: set<Section>, ghost t: Tree)
    requires Represents(root, sections, t) && s in sections
    modifies s
    ensures Represents(root, sections, Put(t, s.path + [key], Str(value)))
  {
    ghost var u := Put(t, s.path + [key], Str(value));
    assert Mirrors(s, sections, t);
    StoredHere(s.entries, s.path, key, value, sections, t);
    if !(key in s.entries && s.entries[key].Child?) {
      s.entries := s.entries[key := Value(value)];
    }
    forall r | r in sections ensures Mirrors(r, sections, u) {
      assert old(Mirrors(r, sections, t));
      if r != s {
        StoredElsewhere(r.entries, r.path, sections, t, s.path, key, Str(value));
      }
    }
  }

  lemma StartOpened(root: Section, sections: set<Section>, t: Tree)
    requires Represents(root, sections, t)
    ensures Represents(root, sections, Open(t, []))
  {
    assert At(t, root.path) == Node.Section by { assert Mirrors(root, sections, t); }
    forall q: Path ensures At(t, q) == At(Open(t, []), q) {
      AtOpen(t, [], q);
    }
    SameRepresents(root, sections, t, Open(t, []));
  }

  lemma OpenedTwice(root: Section, sections: set<Section>, t: Tree, p: Path, key: string)
    requires Represents(root, sections, Open(Open(t, p), p + [key]))
    ensures Represents(root, sections, Open(t, p + [key]))
  {
    OpenNext(t, p, key);
    SameRepresents(root, sections, Open(Open(t, p), p + [key]), Open(t, p + [key]));
  }

  /** One turn of the walk: the section for the next name, which is made if it is not there. */
  method WalkOn(section: Section, keys: Path, i: nat, ghost config: Section, ghost before: set<Section>, ghost t: Tree)
    returns (next: Section, ghost sections: set<Section>)
    requires i < |keys| && section in before && section.path == keys[..i]
    requires Represents(config, before, Open(t, keys[..i]))
    modifies before
    ensures before <= sections && fresh(sections - before)
    ensures next in sections && next.path == keys[..i + 1]
    ensures Represents(config, sections, Open(t, keys[..i + 1]))
  {
    ghost var p := section.path;
    var key := keys[i];
    NextName(keys, i);
    if key !in section.entries || section.entries[key].Value? {
      next := OpenSection(section, key, config, before, Open(t, p));
      sections := before + {next};
    } else {
      AlreadyOpen(section, key, config, before, Open(t, p));
      next := section.entries[key].section;
      sections := before;
    }
    OpenedTwice(config, sections, t, p, key);
  }

  /** The end of the walk. */
  method StoreLast(section: Section, key: string, value: string, ghost config: Section, ghost sections: set<Section>,
                   ghost t: Tree)
    requires Represents(config, sections, Open(t, section.path)) && section in sections
    modifies section
    ensures Represents(config, sections, Put(t, section.path + [key], Str(value)))
  {
    ghost var p := section.path;
    StoreValue(section, key, value, config, sections, Open(t, p));
    PutLast(t, p, key, Str(value));
    SameRepresents(config, sections, Put(Open(t, p), p + [key], Str(value)), Put(t, p + [key], Str(value)));
  }

  /** Stores a value under a key, walking and rewriting the nested maps. */
  method AddToObject(config: Section, parentKey: string, value: string, ghost before: set<Section>, ghost t: Tree)
    returns (ghost sections: set<Section>)
    requires Represents(config, before, t)
    modifies before
    ensures before <= sections && fresh(sections - before)
    ensures Represents(config, sections, Put(t, Split(parentKey), Str(value)))
  {
    var keys := Split(parentKey);
    var childSection := config;
    sections := before;
    StartOpened(config, sections, t);
    NoNames(keys);
    var i := 0;
    while i < |keys| - 1
      invariant 0 <= i < |keys|
      invariant before <= sections && fresh(sections - before)
      invariant childSection in sections && childSection.path == keys[..i]
      invariant Represents(config, sections, Open(t, keys[..i]))
    {
      childSection, sections := WalkOn(childSection, keys, i, config, sections, t);
      i := i + 1;
    }
    NextName(keys, i);
    StoreLast(childSection, keys[i], value, config, sections, t);
  }

  lemma EmptyObject(config: Section, prefix: string)
    requires config.entries == map[] && config.path == []
    ensures Represents(config, {config}, Build(prefix, []))
  {
    forall k ensures At(Build(prefix, []), [] + [k]) == Absent {
      assert ([] + [k])[0] == k;
    }
  }

  lemma BuildNext(prefix: string, pairs: seq<Pair>, n: nat, key: string)
    requires n < |pairs| && key == TrimPrefix(pairs[n].key, prefix + "/")
    ensures Build(prefix, pairs[..n + 1]) ==
      if key == "" then Build(prefix, pairs[..n])
      else Put(Build(prefix, pairs[..n]), Split(key), Str(pairs[n].value))
  {
    assert pairs[..n + 1][..n] == pairs[..n];
  }

  /** Reads all pairs into a new object. */
  method ConvertPairsToObject(prefix: string, pairs: seq<Pair>) returns (config: Section, ghost sections: set<Section>)
    ensures fresh(sections) && Represents(config, sections, Build(prefix, pairs))
  {
    config := new Section([]);
    sections := {config};
    EmptyObject(config, prefix);
    assert pairs[..0] == [];
    var n := 0;
    while n < |pairs|
      invariant 0 <= n <= |pairs|
      invariant fresh(sections) && Represents(config, sections, Build(prefix, pairs[..n]))
    {
      sections := ConvertPair(config, prefix, pairs, n, sections);
      n := n + 1;
    }
    assert pairs[..|pairs|] == pairs;
  }

  /** One turn of that loop. */
  method ConvertPair(config: Section, prefix: string, pairs: seq<Pair>, n: nat, ghost before: set<Section>)
    returns (ghost sections: set<Section>)
    requires n < |pairs| && Represents(config, before, Build(prefix, pairs[..n]))
    modifies before
    ensures before <= sections && fresh(sections - before)
    ensures Represents(config, sections, Build(prefix, pairs[..n + 1]))
  {
    var key := TrimPrefix(pairs[n].key, prefix + "/");
    BuildNext(prefix, pairs, n, key);
    sections := before;
    if |key| > 0 {
      sections := AddToObject(config, key, pairs[n].value, before, Build(prefix, pairs[..n]));
    }
  }

  lemma ChildSection(above: Section, k: string, sections: set<Section>, t: Tree) returns (s: Section)
    requires Mirrors(above, sections, t) && At(t, above.path + [k]) == Node.Section
    ensures s in sections && s.path == above.path + [k]
  {
    assert k in above.entries;
    s := above.entries[k].section;
  }

  lemma {:induction false} SectionAt(root: Section, sections: set<Section>, t: Tree, q: Path) returns (s: Section)
    requires Represents(root, sections, t) && At(t, q) == Node.Section
    ensures s in sections && s.path == q
    decreases |q|
  {
    if q == [] {
      s := root;
    } else {
      var p, k := q[..|q| - 1], q[|q| - 1];
      assert q == p + [k];
      AboveIsSection(t, p, q);
      var above := SectionAt(root, sections, t, p);
      s := ChildSection(above, k, sections, t);
    }
  }

  /** Right below a path on which two trees agree they agree as well. */
  lemma SameBelow(root: Section, sections: set<Section>, t: Tree, u: Tree, p: Path, k: string)
    requires Represents(root, sections, t) && Represents(root, sections, u) && At(t, p) == At(u, p)
    ensures At(t, p + [k]) == At(u, p + [k])
  {
    if At(t, p) == Node.Section {
      var s := SectionAt(root, sections, t, p);
      assert Mirrors(s, sections, t) && Mirrors(s, sections, u);
    } else {
      AtJoined(t, p, [k]);
      AtJoined(u, p, [k]);
    }
  }

  lemma {:induction false} RepresentsNode(root: Section, sections: set<Section>, t: Tree, u: Tree, q: Path)
    requires Represents(root, sections, t) && Represents(root, sections, u)
    ensures At(t, q) == At(u, q)
    decreases |q|
  {
    if q == [] {
      assert Mirrors(root, sections, t) && Mirrors(root, sections, u);
    } else {
      var p, k := q[..|q| - 1], q[|q| - 1];
      assert q == p + [k];
      RepresentsNode(root, sections, t, u, p);
      SameBelow(root, sections, t, u, p, k);
    }
  }

  /** The nested maps stand for one tree only. */
  lemma RepresentsOneTree(root: Section, sections: set<Section>, t: Tree, u: Tree)
    requires Represents(root, sections, t) && Represents(root, sections, u)
    ensures t == u
  {
    forall q ensures At(t, q) == At(u, q) {
      RepresentsNode(root, sections, t, u, q);
    }
    Extensional(t, u);
  }
}
