/** What the layer fold computes, path by path, against the overlay the image format asks for. */
module OverlayTheorems {
  import opened Wrappers
  import opened GoPath
  import opened Sorting
  import opened Overlay

  // ---- one layer: the sorted pass against "markers first, then entries" ----

  function Markers(layer: Layer): (r: seq<TarEntry>)
    ensures forall e :: e in r <==> e in layer && IsMarker(e)
  {
    if layer == [] then []
    else
      assert layer == [layer[0]] + layer[1..];
      (if IsMarker(layer[0]) then [layer[0]] else []) + Markers(layer[1..])
  }

  function Regulars(layer: Layer): (r: seq<TarEntry>)
    ensures forall e :: e in r <==> e in layer && !IsMarker(e)
  {
    if layer == [] then []
    else
      assert layer == [layer[0]] + layer[1..];
      (if IsMarker(layer[0]) then [] else [layer[0]]) + Regulars(layer[1..])
  }

  /** The image format's order: all of the layer's markers hide lower content, then its entries are added. */
  function TwoPass(m: Entries, layer: Layer, layerIdx: int): Entries {
    ApplyAll(ApplyAll(m, Markers(layer), layerIdx), Regulars(layer), layerIdx)
  }

  lemma TwoPassAt(m: Entries, layer: Layer, layerIdx: int, p: seq<string>)
    requires WellFormedLayer(layer) && Proper(p)
    ensures forall e | e in layer && Defines(e, p) ::
              At(TwoPass(m, layer, layerIdx), p) == Some(Entry(Abs(p), e.header, layerIdx))
    ensures !DefinedAt(layer, p) && HiddenBy(layer, p) ==> At(TwoPass(m, layer, layerIdx), p) == None
    ensures !DefinedAt(layer, p) && !HiddenBy(layer, p) ==> At(TwoPass(m, layer, layerIdx), p) == At(m, p)
  {
    var ms, rs := Markers(layer), Regulars(layer);
    var lower := ApplyAll(m, ms, layerIdx);
    ApplyAllAt(m, ms, layerIdx, p);
    ApplyAllAt(lower, rs, layerIdx, p);
    var i, j := LastTouch(ms, p), LastTouch(rs, p);
    if i >= 0 {
      assert ms[i] in ms;
    }
    if j >= 0 {
      assert rs[j] in rs;
    }
    forall e | e in layer && Defines(e, p)
      ensures At(TwoPass(m, layer, layerIdx), p) == Some(Entry(Abs(p), e.header, layerIdx))
    {
      assert e in rs;
      DefinerUnique(layer, p, e, rs[j]);
    }
    if w :| w in layer && Hides(w, p) {
      assert w in ms;
    }
  }

  ghost predicate CanonicalKeys(m: Entries) {
    forall k | k in m :: Abs(Components(k)) == k
  }

  lemma ApplyEntryCanonical(m: Entries, e: TarEntry, layerIdx: int)
    requires CanonicalKeys(m)
    ensures CanonicalKeys(ApplyEntry(m, e, layerIdx))
  {
    CanonIsAbs("/" + e.filename);
    ComponentsAbs(Components("/" + e.filename));
  }

  lemma {:induction false} ApplyAllCanonical(m: Entries, es: seq<TarEntry>, layerIdx: int)
    requires CanonicalKeys(m)
    ensures CanonicalKeys(ApplyAll(m, es, layerIdx))
  {
    if es != [] {
      ApplyAllCanonical(m, es[..|es| - 1], layerIdx);
      ApplyEntryCanonical(ApplyAll(m, es[..|es| - 1], layerIdx), es[|es| - 1], layerIdx);
    }
  }

  lemma {:induction false} FoldedCanonical(layers: seq<Layer>)
    ensures CanonicalKeys(Folded(layers))
  {
    if layers == [] {
      ComponentsAbs([]);
    } else {
      FoldedCanonical(layers[..|layers| - 1]);
      ApplyAllCanonical(Folded(layers[..|layers| - 1]), Sort(layers[|layers| - 1], FilenameLess), |layers| - 1);
    }
  }

  /** Maps with canonical keys are equal when they agree at every path. */
  lemma AgreeEverywhere(a: Entries, b: Entries)
    requires CanonicalKeys(a) && CanonicalKeys(b)
    requires forall p | Proper(p) :: At(a, p) == At(b, p)
    ensures a == b
  {
    forall k ensures k in a <==> k in b {
      assert At(a, Components(k)) == At(b, Components(k));
    }
    forall k | k in a ensures a[k] == b[k] {
      assert At(a, Components(k)) == At(b, Components(k));
    }
  }

  /**
   The sorted single pass has the effect of "all markers, then all entries" exactly when no
   entry sorts below a marker of its own layer in whose scope it lies.
   */
  lemma OnePassIsTwoPassIff(m: Entries, layer: Layer, layerIdx: int)
    requires WellFormedLayer(layer) && CanonicalKeys(m)
    ensures OnePass(m, layer, layerIdx) == TwoPass(m, layer, layerIdx) <==> MarkersFirst(layer)
  {
    ApplyAllCanonical(m, Sort(layer, FilenameLess), layerIdx);
    ApplyAllCanonical(m, Markers(layer), layerIdx);
    ApplyAllCanonical(ApplyAll(m, Markers(layer), layerIdx), Regulars(layer), layerIdx);
    if MarkersFirst(layer) {
      forall p | Proper(p) ensures At(OnePass(m, layer, layerIdx), p) == At(TwoPass(m, layer, layerIdx), p) {
        OnePassAt(m, layer, layerIdx, p);
        TwoPassAt(m, layer, layerIdx, p);
        if e :| e in layer && Defines(e, p) {
          assert !Shadowed(layer, p);
        }
      }
      AgreeEverywhere(OnePass(m, layer, layerIdx), TwoPass(m, layer, layerIdx));
    } else {
      var e, w :| e in layer && w in layer && Shadows(w, e);
      var p := EntryPath(e);
      NormalisedCanon(e.filename);
      assert Defines(e, p) && Shadowed(layer, p);
      OnePassAt(m, layer, layerIdx, p);
      TwoPassAt(m, layer, layerIdx, p);
    }
  }

  lemma OneLevelName(dir: string, name: string)
    requires IsComponent(dir) && IsComponent(name)
    ensures Normalised(dir + "/" + name)
    ensures NameComponents(dir + "/" + name) == [dir, name]
  {
    SplitCons(dir, name);
    SplitNoSlash(name);
    assert |dir + "/" + name| > 1;
  }

  /** In any directory, a name that sorts below the opaque marker is shadowed by it. */
  lemma SiblingShadowed(dir: string, name: string, h: Header)
    requires IsComponent(dir) && IsComponent(name) && !(WH_PREFIX <= name)
    ensures Shadows(TarEntry(dir + "/" + WH_OPAQUE, h), TarEntry(dir + "/" + name, h)) <==> Less(name, WH_OPAQUE)
    ensures WellFormed(TarEntry(dir + "/" + WH_OPAQUE, h)) && WellFormed(TarEntry(dir + "/" + name, h))
  {
    OneLevelName(dir, WH_OPAQUE);
    OneLevelName(dir, name);
    LessAfterPrefix(dir + "/", name, WH_OPAQUE);
    assert [dir, WH_OPAQUE][..1] == [dir];
    assert IsAncestor([dir], [dir, name]);
  }

  lemma BelowOpaque()
    ensures Less(".bashrc", WH_OPAQUE) && Less("-x", WH_OPAQUE)
  {
    assert ".bashrc"[1..] == "bashrc" && WH_OPAQUE[1..] == "wh..wh..opq";
  }

  /**
   The comment at applyLayer says whiteouts sort early.  Both "root/.bashrc" and "root/-x" sort
   below the opaque marker of the same directory, so such a layer loses its own files.
   */
  lemma MarkersDoNotAlwaysSortFirst(h: Header)
    ensures Shadows(TarEntry("root" + "/" + WH_OPAQUE, h), TarEntry("root" + "/" + "-x", h))
    ensures var layer := [TarEntry("root" + "/" + WH_OPAQUE, h), TarEntry("root" + "/" + ".bashrc", h)];
            WellFormedLayer(layer) && !MarkersFirst(layer) && At(Folded([layer]), ["root", ".bashrc"]) == None
  {
    BelowOpaque();
    SiblingShadowed("root", "-x", h);
    SiblingShadowed("root", ".bashrc", h);
    OneLevelName("root", ".bashrc");
    OneLevelName("root", WH_OPAQUE);
    LostEntry(TarEntry("root" + "/" + WH_OPAQUE, h), TarEntry("root" + "/" + ".bashrc", h));
  }

  lemma LostEntry(w: TarEntry, e: TarEntry)
    requires WellFormed(w) && WellFormed(e) && w.filename != e.filename && Shadows(w, e)
    ensures WellFormedLayer([w, e]) && !MarkersFirst([w, e])
    ensures At(Folded([[w, e]]), EntryPath(e)) == None
  {
    var layer := [w, e];
    assert w in layer && e in layer;
    NormalisedCanon(e.filename);
    assert Defines(e, EntryPath(e)) && Shadowed(layer, EntryPath(e));
    assert [layer][..0] == [];
    OnePassAt(Folded([]), layer, 0, EntryPath(e));
  }

  /** The counterpart: "root/bin" sorts above the opaque marker of its directory and is kept, in either tar order. */
  lemma BinIsKept(h: Header)
    ensures var w, e := TarEntry("root" + "/" + WH_OPAQUE, h), TarEntry("root" + "/" + "bin", h);
            WellFormedLayer([w, e]) && MarkersFirst([w, e])
            && At(Folded([[w, e]]), ["root", "bin"]) == Some(Entry(Abs(["root", "bin"]), h, 0))
  {
    var w, e := TarEntry("root" + "/" + WH_OPAQUE, h), TarEntry("root" + "/" + "bin", h);
    assert !Less("bin", WH_OPAQUE);
    assert IsComponent("root") && IsComponent("bin") && !(WH_PREFIX <= "bin");
    SiblingShadowed("root", "bin", h);
    OneLevelName("root", "bin");
    OneLevelName("root", WH_OPAQUE);
    LoneEntryKept(w, e);
  }

  lemma PairLayer(w: TarEntry, e: TarEntry)
    requires WellFormed(w) && WellFormed(e) && w.filename != e.filename
    requires IsMarker(w) && !IsMarker(e) && !Shadows(w, e)
    ensures WellFormedLayer([w, e]) && MarkersFirst([w, e]) && Defines(e, EntryPath(e)) && e in [w, e]
  {
    hide WellFormed, IsMarker, EntryPath, FilenameLess;
    assert !Shadows(e, e) && !Shadows(e, w) && !Shadows(w, w);
  }

  lemma LoneEntryKept(w: TarEntry, e: TarEntry)
    requires WellFormed(w) && WellFormed(e) && w.filename != e.filename
    requires IsMarker(w) && !IsMarker(e) && !Shadows(w, e)
    ensures WellFormedLayer([w, e]) && MarkersFirst([w, e])
    ensures At(Folded([[w, e]]), EntryPath(e)) == Some(Entry(Abs(EntryPath(e)), e.header, 0))
  {
    NormalisedCanon(e.filename);
    PairLayer(w, e);
    assert [[w, e]][..0] == [];
    assert Folded([[w, e]]) == OnePass(Folded([]), [w, e], 0);
    hide Folded, OnePass, Defines, Shadows, WellFormed, WellFormedLayer, IsMarker, At, Abs;
    OnePassAt(Folded([]), [w, e], 0, EntryPath(e));
  }

  /** The two markers, spelled out: ".wh." and a name, and ".wh..wh..opq". */
  lemma MarkersSpelled(dir: string, name: string, h: Header, p: seq<string>)
    requires IsComponent(dir) && IsComponent(name) && name != ".wh..opq"
    ensures Hides(TarEntry(dir + "/" + (".wh." + name), h), p) <==> [dir, name] <= p
    ensures Hides(TarEntry(dir + "/" + ".wh..wh..opq", h), p) <==> [dir] <= p && |p| > 1
  {
    assert ".wh." + ".wh..opq" == ".wh..wh..opq";
    assert (".wh." + name)[4..] == name;
    assert IsComponent(".wh." + name) && IsComponent(".wh..wh..opq");
    OneLevelName(dir, ".wh." + name);
    OneLevelName(dir, ".wh..wh..opq");
    assert [dir, ".wh." + name][..1] == [dir] && [dir, ".wh..wh..opq"][..1] == [dir];
    assert [dir] + [name] == [dir, name];
  }

  lemma {:induction false} LessAfterPrefix(pre: string, a: string, b: string)
    ensures Less(pre + a, pre + b) <==> Less(a, b)
  {
    if pre == "" {
      assert pre + a == a && pre + b == b;
    } else {
      LessAfterPrefix(pre[1..], a, b);
      assert (pre + a)[1..] == pre[1..] + a;
      assert (pre + b)[1..] == pre[1..] + b;
    }
  }

  // ---- the stack of layers ----

  ghost predicate WellFormedLayers(layers: seq<Layer>) {
    forall i | 0 <= i < |layers| :: WellFormedLayer(layers[i])
  }

  lemma WinnerUnique(layers: seq<Layer>, p: seq<string>, i: int, j: int)
    requires Winner(layers, p, i) && Winner(layers, p, j)
    ensures i == j
  {
  }

  lemma WinnerOfInit(layers: seq<Layer>, p: seq<string>, j: int)
    requires layers != []
    ensures var init, top := layers[..|layers| - 1], layers[|layers| - 1];
            Winner(layers, p, j) <==>
            (j == |layers| - 1 && DefinedAt(top, p)) ||
            (!DefinedAt(top, p) && !HiddenBy(top, p) && Winner(init, p, j))
  {
    var init := layers[..|layers| - 1];
    forall k | 0 <= k < |init| ensures init[k] == layers[k] {
    }
  }

  /** The topmost layer's own entry of a path is what the overlay shows there. */
  lemma ShowsDefinedAtTop(layers: seq<Layer>, p: seq<string>, e: TarEntry, x: Entry)
    requires layers != [] && WellFormedLayer(layers[|layers| - 1])
    requires e in layers[|layers| - 1] && Defines(e, p)
    ensures Shows(layers, p, x) <==> x == Entry(Abs(p), e.header, |layers| - 1)
  {
    var n := |layers| - 1;
    hide Defines, WellFormedLayer, Abs;
    assert Winner(layers, p, n);
    if Shows(layers, p, x) {
      WinnerUnique(layers, p, n, x.layerIdx);
      var f :| f in layers[n] && Defines(f, p) && f.header == x.header;
      DefinerUnique(layers[n], p, e, f);
    }
  }

  /** A topmost layer without the path shows what is below it, unless it hides the path. */
  lemma ShowsUndefinedAtTop(layers: seq<Layer>, p: seq<string>, x: Entry)
    requires layers != [] && !DefinedAt(layers[|layers| - 1], p)
    ensures Shows(layers, p, x) <==>
            Shows(layers[..|layers| - 1], p, x) && !HiddenBy(layers[|layers| - 1], p)
  {
    hide DefinedAt, HiddenBy, Defines;
    WinnerOfInit(layers, p, x.layerIdx);
    if 0 <= x.layerIdx < |layers| - 1 {
      assert layers[..|layers| - 1][x.layerIdx] == layers[x.layerIdx];
    }
  }

  /**
   The fold, exactly: x is the entry at a non-root p iff the overlay shows x at p and no
   later-sorting marker of x's own layer has p in its scope.
   */
  lemma {:induction false} FoldedAt(layers: seq<Layer>, p: seq<string>, x: Entry)
    requires WellFormedLayers(layers) && Proper(p) && p != []
    ensures At(Folded(layers), p) == Some(x) <==>
            Shows(layers, p, x) && !Shadowed(layers[x.layerIdx], p)
  {
    if layers == [] {
      AbsRoot(p);
    } else {
      var n := |layers| - 1;
      var init, top := layers[..n], layers[n];
      FoldedAt(init, p, x);
      OnePassAt(Folded(init), top, n, p);
      hide OnePass, At, Defines, HiddenBy, Shadowed, WellFormedLayer;
      if e :| e in top && Defines(e, p) {
        hide Shows;
        ShowsDefinedAtTop(layers, p, e, x);
      } else {
        ShowsUndefinedAtTop(layers, p, x);
        assert Shows(init, p, x) ==> init[x.layerIdx] == layers[x.layerIdx];
      }
    }
  }

  ghost predicate Undefined(layers: seq<Layer>, p: seq<string>) {
    forall i | 0 <= i < |layers| :: !DefinedAt(layers[i], p)
  }

  lemma UndefinedOfInit(layers: seq<Layer>, p: seq<string>)
    requires layers != []
    ensures Undefined(layers, p) <==> Undefined(layers[..|layers| - 1], p) && !DefinedAt(layers[|layers| - 1], p)
  {
    var init := layers[..|layers| - 1];
    assert forall i | 0 <= i < |init| :: init[i] == layers[i];
  }

  lemma NothingHidesRoot(layer: Layer)
    ensures !HiddenBy(layer, []) && !Shadowed(layer, [])
  {
  }

  /** The root is never hidden: it is the highest layer's own root entry, or the one the fold starts with. */
  lemma {:induction false} RootAt(layers: seq<Layer>, x: Entry)
    requires WellFormedLayers(layers)
    ensures At(Folded(layers), []) == Some(x) <==>
            Shows(layers, [], x) || (x == Entry("/", Header('5', "/", "", 0x1ED, 0), 0) && Undefined(layers, []))
  {
    if layers == [] {
      assert Abs([]) == "/";
    } else {
      var n := |layers| - 1;
      var init, top := layers[..n], layers[n];
      RootAt(init, x);
      UndefinedOfInit(layers, []);
      NothingHidesRoot(top);
      OnePassAt(Folded(init), top, n, []);
      hide OnePass, At, Defines, HiddenBy, Shadowed, WellFormedLayer, Shows, Undefined;
      if e :| e in top && Defines(e, []) {
        ShowsDefinedAtTop(layers, [], e, x);
      } else {
        ShowsUndefinedAtTop(layers, [], x);
      }
    }
  }

  /** Every fold entry of a non-root path carries the index of a real layer. */
  lemma FoldedHasSource(layers: seq<Layer>, p: seq<string>)
    requires WellFormedLayers(layers) && Proper(p) && p != [] && Abs(p) in Folded(layers)
    ensures Shows(layers, p, Folded(layers)[Abs(p)])
    ensures 0 <= Folded(layers)[Abs(p)].layerIdx < |layers|
  {
    FoldedAt(layers, p, Folded(layers)[Abs(p)]);
  }

  ghost predicate IsOverlay(m: Entries, layers: seq<Layer>) {
    forall p, x | Proper(p) && p != [] :: At(m, p) == Some(x) <==> Shows(layers, p, x)
  }

  /**
   The fold is the overlay of its layers exactly when no path's winning entry lies in the scope
   of a later-sorting marker of its own layer.
   */
  lemma FoldedIsOverlayIff(layers: seq<Layer>)
    requires WellFormedLayers(layers)
    ensures IsOverlay(Folded(layers), layers) <==>
            forall p, j | Proper(p) && p != [] && Winner(layers, p, j) :: !Shadowed(layers[j], p)
  {
    if IsOverlay(Folded(layers), layers) {
      forall p, j | Proper(p) && p != [] && Winner(layers, p, j) ensures !Shadowed(layers[j], p) {
        var e :| e in layers[j] && Defines(e, p);
        var x := Entry(Abs(p), e.header, j);
        assert Shows(layers, p, x);
        assert At(Folded(layers), p) == Some(x);
        FoldedAt(layers, p, x);
      }
    }
    if forall p, j | Proper(p) && p != [] && Winner(layers, p, j) :: !Shadowed(layers[j], p) {
      forall p, x | Proper(p) && p != []
        ensures At(Folded(layers), p) == Some(x) <==> Shows(layers, p, x)
      {
        FoldedAt(layers, p, x);
        if Shows(layers, p, x) {
          assert Winner(layers, p, x.layerIdx);
        }
      }
    }
  }

  /** The property internal/merge promises, under the side condition its sort needs. */
  lemma FoldedIsOverlay(layers: seq<Layer>)
    requires WellFormedLayers(layers)
    requires forall i | 0 <= i < |layers| :: MarkersFirst(layers[i])
    ensures IsOverlay(Folded(layers), layers)
  {
    FoldedIsOverlayIff(layers);
    forall p, j | Proper(p) && p != [] && Winner(layers, p, j) ensures !Shadowed(layers[j], p) {
      assert MarkersFirst(layers[j]);
    }
  }

  // ---- the order of a layer's entries does not matter ----

  lemma DistinctPermutation(s: Layer, t: Layer)
    requires DistinctNames(s) && multiset(s) == multiset(t)
    ensures DistinctNames(t)
  {
    forall i, j | 0 <= i < j < |t| ensures t[i].filename != t[j].filename {
      assert t == t[..i] + [t[i]] + t[i + 1..j] + [t[j]] + t[j + 1..];
      assert multiset{t[i], t[j]} <= multiset(t);
      PairInPermutation(s, t[i], t[j]);
      var a, b :| 0 <= a < |s| && 0 <= b < |s| && a != b && s[a] == t[i] && s[b] == t[j];
    }
  }

  /** With distinct names there is only one list sort.Slice can produce. */
  lemma SortedLayerUnique(layer: Layer, t: Layer)
    requires DistinctNames(layer) && multiset(t) == multiset(layer) && SortedBy(FilenameLess, t)
    ensures t == Sort(layer, FilenameLess)
  {
    var s := Sort(layer, FilenameLess);
    FilenameStrictWeak();
    SortSorted(layer, FilenameLess);
    DistinctPermutation(layer, s);
    DistinctPermutation(layer, t);
    StrictlyAscending(s);
    StrictlyAscending(t);
    SamePermMembers(s, t);
    AscendingUnique(FilenameLess, s, t);
  }

  lemma StrictlyAscending(s: Layer)
    requires DistinctNames(s) && SortedBy(FilenameLess, s)
    ensures Ascending(FilenameLess, s)
  {
    forall i, j | 0 <= i < j < |s| ensures FilenameLess(s[i], s[j]) {
      LessTotal(s[i].filename, s[j].filename);
    }
  }

  lemma OnePassOrderIndependent(m: Entries, a: Layer, b: Layer, layerIdx: int)
    requires DistinctNames(a) && multiset(a) == multiset(b)
    ensures OnePass(m, a, layerIdx) == OnePass(m, b, layerIdx)
  {
    FilenameStrictWeak();
    SortSorted(b, FilenameLess);
    SortedLayerUnique(a, Sort(b, FilenameLess));
  }

  ghost predicate SameUpToOrder(a: seq<Layer>, b: seq<Layer>) {
    && |a| == |b|
    && forall i | 0 <= i < |a| :: multiset(a[i]) == multiset(b[i])
  }

  /** Permuting entries inside layers leaves the merged entries as they are. */
  lemma {:induction false} FoldedOrderIndependent(a: seq<Layer>, b: seq<Layer>)
    requires SameUpToOrder(a, b) && forall i | 0 <= i < |a| :: DistinctNames(a[i])
    ensures Folded(a) == Folded(b)
  {
    if a != [] {
      var n := |a| - 1;
      FoldedOrderIndependent(a[..n], b[..n]);
      OnePassOrderIndependent(Folded(a[..n]), a[n], b[n], n);
    }
  }
}
