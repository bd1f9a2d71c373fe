/** Properties of finished trees: synthetic parents, the children index and determinism. */
module MergeTheorems {
  import opened Wrappers
  import opened GoPath
  import opened Sorting
  import opened Overlay
  import opened OverlayTheorems
  import opened Merge

  /** Closing under parents leaves no path with an absent ancestor. */
  lemma AncestorsPresent(m: Entries, k: string, i: int)
    requires PathsAreKeys(m) && k in WithParents(m) && 0 < i < |Components(k)|
    ensures Abs(Components(k)[..i]) in WithParents(m)
  {
    hide Components, Abs;
    var a := Abs(Components(k)[..i]);
    if k in m {
      assert a in AncestorKeys(k);
    } else {
      var d, j :| d in m && 0 < j < |Components(d)| && k == Abs(Components(d)[..j]);
      ComponentsAbs(Components(d)[..j]);
      assert Components(k)[..i] == Components(d)[..i];
      assert a in AncestorKeys(d);
    }
  }

  ghost predicate HasBelow(m: Entries, p: seq<string>) {
    exists k :: k in m && IsAncestor(p, Components(k))
  }

  /** A non-root path gets a synthetic directory exactly when it has no entry but something below it has. */
  lemma SyntheticExactly(m: Entries, p: seq<string>)
    requires PathsAreKeys(m) && Proper(p) && p != []
    ensures At(WithParents(m), p)
         == if Abs(p) in m then At(m, p)
            else if HasBelow(m, p) then Some(Entry(Abs(p), Header('5', Abs(p), "", 0x1ED, 0), -1))
            else None
  {
    if k :| k in m && IsAncestor(p, Components(k)) {
      assert p == Components(k)[..|p|];
      assert Abs(p) in AncestorKeys(k);
    }
    if Abs(p) in AncestorsOf(m.Keys) {
      var k, i :| k in m && 0 < i < |Components(k)| && Abs(p) == Abs(Components(k)[..i]);
      AbsInjective(p, Components(k)[..i]);
      assert IsAncestor(p, Components(k));
    }
  }

  /** Merge, exactly: the non-synthetic entry at p is the overlay's, save entries shadowed in their own layer. */
  lemma MergedAt(layers: seq<Layer>, p: seq<string>, x: Entry)
    requires WellFormedLayers(layers) && Proper(p) && p != [] && x.layerIdx >= 0
    ensures At(WithParents(Folded(layers)), p) == Some(x) <==>
            Shows(layers, p, x) && !Shadowed(layers[x.layerIdx], p)
  {
    FoldedPaths(layers);
    SyntheticExactly(Folded(layers), p);
    FoldedAt(layers, p, x);
  }

  /** With markers sorting first in every layer, Merge shows at each path exactly what the overlay shows. */
  lemma MergeComputesOverlay(layers: seq<Layer>, p: seq<string>, x: Entry)
    requires WellFormedLayers(layers) && Proper(p) && p != [] && x.layerIdx >= 0
    requires forall i | 0 <= i < |layers| :: MarkersFirst(layers[i])
    ensures At(WithParents(Folded(layers)), p) == Some(x) <==> Shows(layers, p, x)
  {
    MergedAt(layers, p, x);
    if Shows(layers, p, x) {
      assert MarkersFirst(layers[x.layerIdx]);
    }
  }

  /** Entry i is the last of the list to stand for path p; a marker stands for its own name. */
  ghost predicate LastNamed(es: seq<TarEntry>, p: seq<string>, i: int) {
    && 0 <= i < |es| && Components("/" + es[i].filename) == p
    && forall j | i < j < |es| :: Components("/" + es[j].filename) != p
  }

  lemma LayerEntriesMore(init: seq<TarEntry>, e: TarEntry, p: seq<string>)
    requires Proper(p)
    ensures At(LayerEntries(init + [e]), p)
         == if Components("/" + e.filename) == p then Some(Entry(Abs(p), e.header, 0)) else At(LayerEntries(init), p)
  {
    hide Components, Abs, Canon;
    assert (init + [e])[..|init|] == init;
    CanonIsAbs("/" + e.filename);
    if Abs(Components("/" + e.filename)) == Abs(p) {
      AbsInjective(Components("/" + e.filename), p);
    }
  }

  lemma LastNamedMore(init: seq<TarEntry>, e: TarEntry, p: seq<string>, i: int)
    ensures LastNamed(init + [e], p, i) <==>
            if Components("/" + e.filename) == p then i == |init| else LastNamed(init, p, i)
  {
    hide Components;
    var es := init + [e];
    assert es[|init|] == e && forall j | 0 <= j < |init| :: es[j] == init[j];
    if LastNamed(es, p, i) && i < |init| {
      assert Components("/" + es[|init|].filename) != p;
    }
  }

  /** LayerTree, exactly: a path shows the last entry of that path, whatever its base name; the root always shows. */
  lemma {:induction false} LayerEntryIff(es: seq<TarEntry>, p: seq<string>, x: Entry)
    requires Proper(p)
    ensures At(LayerEntries(es), p) == Some(x) <==>
            || (exists i :: LastNamed(es, p, i) && x == Entry(Abs(p), es[i].header, 0))
            || (p == [] && (forall i :: !LastNamed(es, p, i)) && x == Entry("/", Header('5', "/", "", 0x1ED, 0), 0))
  {
    if es == [] {
      assert Abs([]) == "/";
      AbsRoot(p);
    } else {
      hide Components, Abs, LastNamed, At, LayerEntries;
      var init, e := es[..|es| - 1], es[|es| - 1];
      assert es == init + [e];
      LayerEntryIff(init, p, x);
      LayerEntriesMore(init, e, p);
      forall i ensures LastNamed(es, p, i) <==>
                       if Components("/" + e.filename) == p then i == |init| else LastNamed(init, p, i) {
        LastNamedMore(init, e, p, i);
      }
      forall i | LastNamed(init, p, i) ensures 0 <= i < |init| && es[i] == init[i] {
        LastNamedRange(init, p, i);
      }
      if Components("/" + e.filename) == p {
        assert LastNamed(es, p, |init|) && es[|init|] == e;
      } else {
        assert forall i :: LastNamed(es, p, i) <==> LastNamed(init, p, i);
      }
    }
  }

  lemma LastNamedRange(es: seq<TarEntry>, p: seq<string>, i: int)
    requires LastNamed(es, p, i)
    ensures 0 <= i < |es|
  {
  }

  /** A path's index entries are exactly the keys one component below it. */
  lemma ChildKeys(m: Entries, d: seq<string>, k: string)
    requires PathsAreKeys(m) && Proper(d)
    ensures IsChild(m, Abs(d), k) <==>
            k in m && |Components(k)| == |d| + 1 && Components(k)[..|d|] == d
  {
    if k in m {
      var cs := Components(k);
      AbsRoot(cs);
      if cs != [] {
        ParentOfAbs(cs);
        if Abs(cs[..|cs| - 1]) == Abs(d) {
          AbsInjective(cs[..|cs| - 1], d);
        }
      }
    }
  }

  /** Following Children from "/" reaches every non-root entry of a merged tree, one component a step. */
  lemma ReachedByChildren(m: Entries, children: map<string, seq<string>>, k: string, i: int)
    requires PathsAreKeys(m) && IsChildIndex(children, WithParents(m))
    requires k in WithParents(m) && 0 <= i < |Components(k)|
    ensures var cs := Components(k);
            Abs(cs[..i]) in children && Abs(cs[..i + 1]) in children[Abs(cs[..i])]
  {
    hide Components, Abs, WithParents, ParentKey;
    var t := WithParents(m);
    var cs := Components(k);
    WithParentsPaths(m);
    assert Abs(cs) == k;
    var step := Abs(cs[..i + 1]);
    if i + 1 < |cs| {
      AncestorsPresent(m, k, i + 1);
    } else {
      assert cs[..i + 1] == cs;
    }
    ComponentsAbs(cs[..i + 1]);
    assert cs[..i + 1][..i] == cs[..i];
    ChildKeys(t, cs[..i], step);
    assert IsChild(t, Abs(cs[..i]), step);
  }

  /** The entries determine their children index. */
  lemma IndexUnique(m: Entries, a: map<string, seq<string>>, b: map<string, seq<string>>)
    requires IsChildIndex(a, m) && IsChildIndex(b, m)
    ensures a == b
  {
    hide ParentKey;
    StringsStrictWeak();
    forall q | q in a ensures q in b && a[q] == b[q] {
      AscendingUnique(Less, a[q], b[q]);
    }
  }

  /** Two merges of the same layers, each layer in any entry order, give equal trees. */
  lemma MergeOrderIndependent(a: seq<Layer>, b: seq<Layer>,
                              ca: map<string, seq<string>>, cb: map<string, seq<string>>)
    requires SameUpToOrder(a, b) && forall i | 0 <= i < |a| :: DistinctNames(a[i])
    requires IsChildIndex(ca, WithParents(Folded(a))) && IsChildIndex(cb, WithParents(Folded(b)))
    ensures WithParents(Folded(a)) == WithParents(Folded(b)) && ca == cb
  {
    FoldedOrderIndependent(a, b);
    IndexUnique(WithParents(Folded(a)), ca, cb);
  }
}
