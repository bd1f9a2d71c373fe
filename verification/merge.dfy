/** internal/merge/merge.go: the merged tree and the loops that build it. */
module Merge {
  import opened Wrappers
  import opened GoPath
  import opened Sorting
  import opened Overlay
  import opened OverlayTheorems

  function ParentKey(k: string): string {
    Canon(Dir(k))
  }

  /** The proper non-root ancestors of a path, as keys. */
  function AncestorKeys(k: string): set<string> {
    set i | 0 < i < |Components(k)| :: Abs(Components(k)[..i])
  }

  function Missing(m: Entries): set<string> {
    AncestorsOf(m.Keys) - m.Keys
  }

  function Synthetic(k: string): Entry {
    Entry(k, DirHeader(k), -1)
  }

  /** The entries together with a synthetic directory for every missing ancestor. */
  function WithParents(m: Entries): Entries {
    AddSynthetic(m, Missing(m))
  }

  function AddSynthetic(m: Entries, ks: set<string>): Entries {
    map k | k in m.Keys + ks :: if k in m then m[k] else Synthetic(k)
  }

  /** The entries of one layer, markers included as ordinary files. */
  function LayerEntries(es: seq<TarEntry>): Entries {
    if es == [] then map["/" := ROOT_ENTRY]
    else
      var e := es[|es| - 1];
      var full := Canon("/" + e.filename);
      LayerEntries(es[..|es| - 1])[full := Entry(full, e.header, 0)]
  }

  ghost predicate PathsAreKeys(m: Entries) {
    CanonicalKeys(m) && forall k | k in m :: m[k].path == k
  }

  ghost predicate IsChild(m: Entries, parent: string, k: string) {
    k in m && k != "/" && ParentKey(k) == parent
  }

  /** children lists, under every parent, exactly its child keys in strictly ascending order. */
  ghost predicate IsChildIndex(children: map<string, seq<string>>, m: Entries) {
    && (forall parent :: parent in children <==> exists k :: IsChild(m, parent, k))
    && (forall parent | parent in children ::
          && Ascending(Less, children[parent])
          && forall k :: k in children[parent] <==> IsChild(m, parent, k))
  }

  /** The entries of those names that are present. */
  function Present(m: Entries, names: seq<string>): seq<Entry> {
    if names == [] then []
    else
      var n := names[|names| - 1];
      Present(m, names[..|names| - 1]) + if n in m then [m[n]] else []
  }

  predicate NoDuplicates<T(==)>(s: seq<T>) {
    forall i, j | 0 <= i < j < |s| :: s[i] != s[j]
  }

  /** A delete loop under way: keys with the prefix are gone, save keep and those still to do. */
  function Dropping(m: Entries, prefix: string, keep: string, todo: set<string>): Entries {
    map k | k in m && (k in todo || k == keep || !(prefix <= k)) :: m[k]
  }

  lemma DroppingNone(m: Entries, prefix: string, keep: string)
    ensures Dropping(m, prefix, keep, m.Keys) == m
  {
  }

  lemma DroppingOne(m: Entries, prefix: string, keep: string, todo: set<string>, k: string)
    requires k in todo && k in Dropping(m, prefix, keep, todo)
    ensures Dropping(m, prefix, keep, todo - {k})
         == if k != keep && prefix <= k then Dropping(m, prefix, keep, todo) - {k} else Dropping(m, prefix, keep, todo)
    ensures todo <= Dropping(m, prefix, keep, todo).Keys ==> todo - {k} <= Dropping(m, prefix, keep, todo - {k}).Keys
  {
  }

  lemma DroppedSubtree(m: Entries, p: string)
    ensures Dropping(m - {p}, p + "/", p, {}) == WithoutSubtree(m, p)
  {
  }

  lemma DroppedChildren(m: Entries, p: string)
    ensures Dropping(m, if Canon(p) == "/" then "/" else Canon(p) + "/", p, {}) == WithoutChildren(m, p)
  {
  }

  class Tree {
    var entries: Entries
    var children: map<string, seq<string>>

    constructor ()
      ensures entries == map["/" := ROOT_ENTRY]
      ensures children == map[]
    {
      entries := map["/" := ROOT_ENTRY];
      children := map[];
    }

    ghost predicate Valid()
      reads this
    {
      PathsAreKeys(entries)
    }

    ghost predicate Indexed()
      reads this
    {
      Valid() && IsChildIndex(children, entries)
    }

    method Get(p: string) returns (e: Option<Entry>)
      ensures e == At(entries, Components(p))
    {
      CanonIsAbs(p);
      var key := Canon(p);
      e := if key in entries then Some(entries[key]) else None;
    }

    method Children(p: string) returns (out: seq<Entry>)
      ensures Canon(p) !in children ==> out == []
      ensures Canon(p) in children ==> out == Present(entries, children[Canon(p)])
    {
      var key := Canon(p);
      var names := if key in children then children[key] else [];
      out := [];
      for i := 0 to |names|
        invariant out == Present(entries, names[..i])
      {
        assert names[..i + 1][..i] == names[..i];
        if names[i] in entries {
          out := out + [entries[names[i]]];
        }
      }
      assert names[..|names|] == names;
    }

    method DeleteSubtree(p: string)
      modifies this`entries
      ensures entries == WithoutSubtree(old(entries), p)
    {
      hide Dropping;
      entries := entries - {p};
      var prefix := p + "/";
      var todo := entries.Keys;
      DroppingNone(entries, prefix, p);
      while todo != {}
        invariant todo <= entries.Keys
        invariant entries == Dropping(old(entries) - {p}, prefix, p, todo)
        decreases |todo|
      {
        var k :| k in todo;
        DroppingOne(old(entries) - {p}, prefix, p, todo, k);
        todo := todo - {k};
        if prefix <= k {
          entries := entries - {k};
        }
      }
      DroppedSubtree(old(entries), p);
    }

    method DeleteChildren(p: string)
      modifies this`entries
      ensures entries == WithoutChildren(old(entries), p)
    {
      hide Dropping, Canon;
      var prefix := Canon(p);
      if prefix != "/" {
        prefix := prefix + "/";
      }
      var todo := entries.Keys;
      DroppingNone(entries, prefix, p);
      while todo != {}
        invariant todo <= entries.Keys
        invariant entries == Dropping(old(entries), prefix, p, todo)
        decreases |todo|
      {
        var k :| k in todo;
        DroppingOne(old(entries), prefix, p, todo, k);
        todo := todo - {k};
        if k != p && prefix <= k {
          entries := entries - {k};
        }
      }
      DroppedChildren(old(entries), p);
    }

    method ApplyLayer(layer: Layer, layerIdx: int)
      modifies this`entries
      ensures entries == OnePass(old(entries), layer, layerIdx)
    {
      var sorted := Sort(layer, FilenameLess);
      for i := 0 to |sorted|
        invariant entries == ApplyAll(old(entries), sorted[..i], layerIdx)
      {
        assert sorted[..i + 1][..i] == sorted[..i];
        Apply(sorted[i], layerIdx);
      }
      assert sorted[..|sorted|] == sorted;
    }

    /** The body of applyLayer's loop. */
    method Apply(e: TarEntry, layerIdx: int)
      modifies this`entries
      ensures entries == ApplyEntry(old(entries), e, layerIdx)
    {
      var full := Canon("/" + e.filename);
      var base := Base(e.filename);
      var dir := Canon("/" + Dir(e.filename));
      if base == WH_OPAQUE {
        DeleteChildren(dir);
      } else if WH_PREFIX <= base {
        var target := Canon(PathJoin([dir, base[|WH_PREFIX|..]]));
        DeleteSubtree(target);
      } else {
        entries := entries[full := Entry(full, e.header, layerIdx)];
      }
    }

    /** The upward walk of synthesizeParents from one path. */
    method CollectMissing(p: string, missing: set<string>) returns (r: set<string>)
      requires p != "/" && Abs(Components(p)) == p
      ensures r == missing + (AncestorKeys(p) - entries.Keys)
    {
      ghost var cs := Components(p);
      AbsRoot(cs);
      ParentOfAbs(cs);
      r := missing;
      var parent := Canon(Dir(p));
      ghost var i := |cs| - 1;
      AbsRoot(cs[..i]);
      while parent != "/"
        invariant 0 <= i < |cs| && parent == Abs(cs[..i])
        invariant parent == "/" <==> i == 0
        invariant r == missing + ((set j | i < j < |cs| :: Abs(cs[..j])) - entries.Keys)
        decreases i
      {
        if parent !in entries {
          r := r + {parent};
        }
        assert (set j | i - 1 < j < |cs| :: Abs(cs[..j])) == (set j | i < j < |cs| :: Abs(cs[..j])) + {parent};
        ParentOfAbs(cs[..i]);
        assert cs[..i][..i - 1] == cs[..i - 1];
        parent := Canon(Dir(parent));
        i := i - 1;
        AbsRoot(cs[..i]);
      }
    }

    /** The first loop of synthesizeParents. */
    method FindMissing() returns (missing: set<string>)
      requires Valid()
      ensures missing == Missing(entries)
    {
      hide Components, Abs, AncestorKeys, Canon, Dir, AncestorsOf;
      RootHasNoAncestors();
      missing := {};
      var todo := entries.Keys;
      ghost var done: set<string> := {};
      while todo != {}
        invariant done + todo == entries.Keys
        invariant missing == AncestorsOf(done) - entries.Keys
        decreases |todo|
      {
        var p :| p in todo;
        todo := todo - {p};
        AncestorsOfMore(done, p);
        MinusUnion(AncestorsOf(done), AncestorKeys(p), entries.Keys);
        done := done + {p};
        if p != "/" {
          missing := CollectMissing(p, missing);
        }
      }
      assert done == entries.Keys;
    }

    method SynthesizeParents()
      requires Valid()
      modifies this`entries
      ensures entries == WithParents(old(entries))
    {
      hide AddSynthetic, Components, Abs, AncestorsOf, PathsAreKeys;
      var missing := FindMissing();
      var todo := missing;
      ghost var added: set<string> := {};
      AddNoSynthetic(entries);
      while todo != {}
        invariant added + todo == missing && added !! todo
        invariant entries == AddSynthetic(old(entries), added)
        decreases |todo|
      {
        var p :| p in todo;
        todo := todo - {p};
        AddOneSynthetic(old(entries), added, p);
        added := added + {p};
        entries := entries[p := Entry(p, DirHeader(p), -1)];
      }
      assert added == missing;
    }

    /** The first indexing loop: append every key to its parent's list. */
    method GroupByParent()
      requires children == map[]
      modifies this`children
      ensures Grouped(children, entries, entries.Keys)
    {
      hide Canon, Dir, Grouped, NoDuplicates;
      GroupNone(entries);
      var todo := entries.Keys;
      ghost var done: set<string> := {};
      while todo != {}
        invariant done + todo == entries.Keys && done !! todo
        invariant Grouped(children, entries, done)
        decreases |todo|
      {
        var p :| p in todo;
        todo := todo - {p};
        if p != "/" {
          var parent := Canon(Dir(p));
          var siblings := if parent in children then children[parent] else [];
          GroupOneMore(children, entries, done, p);
          children := children[parent := siblings + [p]];
        } else {
          GroupRoot(children, entries, done);
        }
        done := done + {p};
      }
      assert done == entries.Keys;
    }

    /** The second indexing loop: sort every list. */
    method IndexChildren()
      requires Valid() && children == map[]
      modifies this`children
      ensures Indexed()
    {
      hide Grouped, Less, Sort, Ascending, IsChildIndex;
      GroupByParent();
      var parents := children.Keys;
      while parents != {}
        invariant parents <= children.Keys
        invariant Grouped(children, entries, entries.Keys)
        invariant forall q | q in children && q !in parents :: Ascending(Less, children[q])
        decreases |parents|
      {
        var parent :| parent in parents;
        parents := parents - {parent};
        SortedGroup(children, entries, parent);
        children := children[parent := Sort(children[parent], Less)];
      }
      GroupedIsIndex(children, entries);
    }
  }

  lemma RootHasNoAncestors()
    ensures AncestorKeys("/") == {} && AncestorsOf({}) == {}
  {
    ComponentsAbs([]);
  }

  lemma MinusUnion(a: set<string>, b: set<string>, c: set<string>)
    ensures (a - c) + (b - c) == (a + b) - c
  {
  }

  lemma AddNoSynthetic(m: Entries)
    ensures AddSynthetic(m, {}) == m
  {
  }

  lemma AddOneSynthetic(m: Entries, ks: set<string>, p: string)
    requires p !in m
    ensures AddSynthetic(m, ks + {p}) == AddSynthetic(m, ks)[p := Synthetic(p)]
  {
  }

  function AncestorsOf(ks: set<string>): set<string> {
    set k, a | k in ks && a in AncestorKeys(k) :: a
  }

  lemma AncestorsOfMore(ks: set<string>, p: string)
    ensures AncestorsOf(ks + {p}) == AncestorsOf(ks) + AncestorKeys(p)
  {
  }

  /** Among the keys in done, parent q has its child keys listed once, and no list without any. */
  ghost predicate GroupedAt(children: map<string, seq<string>>, m: Entries, done: set<string>, q: string) {
    && (q in children <==> exists k :: k in done && IsChild(m, q, k))
    && (q in children ==>
          && NoDuplicates(children[q])
          && forall k :: k in children[q] <==> k in done && IsChild(m, q, k))
  }

  ghost predicate Grouped(children: map<string, seq<string>>, m: Entries, done: set<string>) {
    forall q :: GroupedAt(children, m, done, q)
  }

  lemma GroupNone(m: Entries)
    ensures Grouped(map[], m, {})
  {
  }

  /** The root is nobody's child. */
  lemma GroupRoot(children: map<string, seq<string>>, m: Entries, done: set<string>)
    requires Grouped(children, m, done)
    ensures Grouped(children, m, done + {"/"})
  {
    hide ParentKey;
    forall q ensures GroupedAt(children, m, done + {"/"}, q) {
      assert GroupedAt(children, m, done, q);
      assert forall k | IsChild(m, q, k) :: k in done + {"/"} <==> k in done;
    }
  }

  /** Adding p to the list of its parent. */
  function AddChild(children: map<string, seq<string>>, p: string): map<string, seq<string>> {
    var parent := ParentKey(p);
    children[parent := (if parent in children then children[parent] else []) + [p]]
  }

  lemma GroupOneMoreAt(children: map<string, seq<string>>, m: Entries, done: set<string>, p: string, q: string)
    requires GroupedAt(children, m, done, q) && p in m && p !in done && p != "/"
    ensures GroupedAt(AddChild(children, p), m, done + {p}, q)
  {
    hide ParentKey;
    assert forall k | k in done + {p} :: k == p || k in done;
    assert IsChild(m, q, p) <==> q == ParentKey(p);
    if q == ParentKey(p) {
      assert p in done + {p} && IsChild(m, q, p);
    } else if q in children {
      var k :| k in done && IsChild(m, q, k);
      assert k in done + {p};
    }
  }

  lemma GroupOneMore(children: map<string, seq<string>>, m: Entries, done: set<string>, p: string)
    requires Grouped(children, m, done) && p in m && p !in done && p != "/"
    ensures Grouped(AddChild(children, p), m, done + {p})
  {
    hide AddChild, GroupedAt;
    forall q ensures GroupedAt(AddChild(children, p), m, done + {p}, q) {
      GroupOneMoreAt(children, m, done, p, q);
    }
  }

  lemma SortedGroup(children: map<string, seq<string>>, m: Entries, q: string)
    requires Grouped(children, m, m.Keys) && q in children
    ensures Grouped(children[q := Sort(children[q], Less)], m, m.Keys)
    ensures Ascending(Less, Sort(children[q], Less))
  {
    hide ParentKey, IsChild, Less, Sort;
    assert GroupedAt(children, m, m.Keys, q);
    SortNames(children[q]);
    var sorted := children[q := Sort(children[q], Less)];
    forall r ensures GroupedAt(sorted, m, m.Keys, r) {
      assert GroupedAt(children, m, m.Keys, r);
    }
  }

  /** A grouping of all keys whose lists are sorted is the children index. */
  lemma GroupedIsIndex(children: map<string, seq<string>>, m: Entries)
    requires Grouped(children, m, m.Keys) && forall q | q in children :: Ascending(Less, children[q])
    ensures IsChildIndex(children, m)
  {
    hide ParentKey, Less;
    forall q ensures q in children <==> exists k :: IsChild(m, q, k) {
      assert GroupedAt(children, m, m.Keys, q);
      if k :| IsChild(m, q, k) {
        assert k in m.Keys;
      }
    }
    forall q | q in children ensures forall k :: k in children[q] <==> IsChild(m, q, k) {
      assert GroupedAt(children, m, m.Keys, q);
    }
  }

  lemma NoDuplicatesPermuted(s: seq<string>, t: seq<string>)
    requires NoDuplicates(s) && multiset(s) == multiset(t)
    ensures NoDuplicates(t)
  {
    forall i, j | 0 <= i < j < |t| ensures t[i] != t[j] {
      assert t == t[..i] + [t[i]] + t[i + 1..j] + [t[j]] + t[j + 1..];
      assert multiset{t[i], t[j]} <= multiset(t);
      PairInPermutation(s, t[i], t[j]);
    }
  }

  /** sort.Strings on distinct names: same members, strictly ascending. */
  lemma SortNames(names: seq<string>)
    requires NoDuplicates(names)
    ensures Ascending(Less, Sort(names, Less)) && NoDuplicates(Sort(names, Less))
    ensures forall k :: k in Sort(names, Less) <==> k in names
  {
    hide Sort;
    var s := Sort(names, Less);
    StringsStrictWeak();
    SortSorted(names, Less);
    SamePermMembers(names, s);
    NoDuplicatesPermuted(names, s);
    hide Less;
    forall i, j | 0 <= i < j < |s| ensures Less(s[i], s[j]) {
      LessTotal(s[i], s[j]);
    }
  }

  lemma ApplyEntryPaths(m: Entries, e: TarEntry, layerIdx: int)
    requires PathsAreKeys(m)
    ensures PathsAreKeys(ApplyEntry(m, e, layerIdx))
  {
    ApplyEntryCanonical(m, e, layerIdx);
  }

  lemma {:induction false} ApplyAllPaths(m: Entries, es: seq<TarEntry>, layerIdx: int)
    requires PathsAreKeys(m)
    ensures PathsAreKeys(ApplyAll(m, es, layerIdx))
  {
    if es != [] {
      ApplyAllPaths(m, es[..|es| - 1], layerIdx);
      ApplyEntryPaths(ApplyAll(m, es[..|es| - 1], layerIdx), es[|es| - 1], layerIdx);
    }
  }

  lemma {:induction false} FoldedPaths(layers: seq<Layer>)
    ensures PathsAreKeys(Folded(layers))
  {
    if layers == [] {
      ComponentsAbs([]);
    } else {
      FoldedPaths(layers[..|layers| - 1]);
      ApplyAllPaths(Folded(layers[..|layers| - 1]), Sort(layers[|layers| - 1], FilenameLess), |layers| - 1);
    }
  }

  lemma {:induction false} LayerEntriesPaths(es: seq<TarEntry>)
    ensures PathsAreKeys(LayerEntries(es))
  {
    if es == [] {
      ComponentsAbs([]);
    } else {
      LayerEntriesPaths(es[..|es| - 1]);
      CanonIsAbs("/" + es[|es| - 1].filename);
      ComponentsAbs(Components("/" + es[|es| - 1].filename));
    }
  }

  lemma WithParentsPaths(m: Entries)
    requires PathsAreKeys(m)
    ensures PathsAreKeys(WithParents(m))
  {
    forall k | k in WithParents(m) && k !in m ensures Abs(Components(k)) == k {
      var d, i :| d in m && 0 < i < |Components(d)| && k == Abs(Components(d)[..i]);
      ComponentsAbs(Components(d)[..i]);
    }
  }

  /** Merge folds layers, lowest first, into a single indexed tree. */
  method MergeLayers(layers: seq<Layer>) returns (tree: Tree)
    ensures fresh(tree) && tree.Indexed()
    ensures tree.entries == WithParents(Folded(layers))
  {
    tree := new Tree();
    for li := 0 to |layers|
      invariant fresh(tree)
      invariant tree.entries == Folded(layers[..li]) && tree.children == map[]
    {
      assert layers[..li + 1][..li] == layers[..li];
      tree.ApplyLayer(layers[li], li);
    }
    assert layers[..|layers|] == layers;
    FoldedPaths(layers);
    tree.SynthesizeParents();
    WithParentsPaths(Folded(layers));
    tree.IndexChildren();
  }

  /** LayerTree builds the indexed tree of one layer without whiteout semantics. */
  method LayerTree(es: seq<TarEntry>) returns (tree: Tree)
    ensures fresh(tree) && tree.Indexed()
    ensures tree.entries == WithParents(LayerEntries(es))
  {
    tree := new Tree();
    for i := 0 to |es|
      invariant fresh(tree)
      invariant tree.entries == LayerEntries(es[..i]) && tree.children == map[]
    {
      assert es[..i + 1][..i] == es[..i];
      var full := Canon("/" + es[i].filename);
      tree.entries := tree.entries[full := Entry(full, es[i].header, 0)];
    }
    assert es[..|es|] == es;
    LayerEntriesPaths(es);
    tree.SynthesizeParents();
    WithParentsPaths(LayerEntries(es));
    tree.IndexChildren();
  }
}
