/**
 The meaning of internal/merge/merge.go on values: what one tar entry, one layer and a stack
 of layers do to the path-keyed entry map, and what the OCI Image Format Specification
 (layer.md, "Whiteouts" and "Opaque Whiteout") says each path should show.
 */
module Overlay {
  import opened Wrappers
  import opened GoPath
  import opened Sorting

  const TYPE_DIR: char := '5'
  const TYPE_SYMLINK: char := '2'
  const WH_PREFIX := ".wh."
  const WH_OPAQUE := ".wh..wh..opq"

  /** tar.Header, as far as the tree and the directory view look at it. */
  datatype Header = Header(typeflag: char, name: string, linkname: string, mode: int, size: int)

  /** tarfs.Entry: one record of a layer's table of contents. */
  datatype TarEntry = TarEntry(filename: string, header: Header)

  datatype Entry = Entry(path: string, header: Header, layerIdx: int) {
    predicate IsDir() {
      header.typeflag == TYPE_DIR || path == "/"
    }

    predicate IsSymlink() {
      header.typeflag == TYPE_SYMLINK
    }
  }

  type Entries = map<string, Entry>
  type Layer = seq<TarEntry>

  function DirHeader(name: string): Header {
    Header(TYPE_DIR, name, "", 0x1ED, 0)
  }

  const ROOT_ENTRY := Entry("/", DirHeader("/"), 0)

  // ---- what the code does to the map ----

  function WithoutSubtree(m: Entries, p: string): Entries {
    map k | k in m && k != p && !(p + "/" <= k) :: m[k]
  }

  function WithoutChildren(m: Entries, p: string): Entries {
    var prefix := if Canon(p) == "/" then "/" else Canon(p) + "/";
    map k | k in m && (k == p || !(prefix <= k)) :: m[k]
  }

  /** One iteration of applyLayer's loop. */
  function ApplyEntry(m: Entries, e: TarEntry, layerIdx: int): Entries {
    var full := Canon("/" + e.filename);
    var base := Base(e.filename);
    var dir := Canon("/" + Dir(e.filename));
    if base == WH_OPAQUE then WithoutChildren(m, dir)
    else if WH_PREFIX <= base then WithoutSubtree(m, Canon(PathJoin([dir, base[|WH_PREFIX|..]])))
    else m[full := Entry(full, e.header, layerIdx)]
  }

  function ApplyAll(m: Entries, es: seq<TarEntry>, layerIdx: int): Entries {
    if es == [] then m
    else ApplyEntry(ApplyAll(m, es[..|es| - 1], layerIdx), es[|es| - 1], layerIdx)
  }

  predicate FilenameLess(a: TarEntry, b: TarEntry) {
    Less(a.filename, b.filename)
  }

  function OnePass(m: Entries, layer: Layer, layerIdx: int): Entries {
    ApplyAll(m, Sort(layer, FilenameLess), layerIdx)
  }

  /** The entry map once every layer has been applied, lowest first. */
  function Folded(layers: seq<Layer>): Entries {
    if layers == [] then map["/" := ROOT_ENTRY]
    else OnePass(Folded(layers[..|layers| - 1]), layers[|layers| - 1], |layers| - 1)
  }

  // ---- what an entry means for a path, component-wise ----

  function EntryPath(e: TarEntry): seq<string> {
    NameComponents(e.filename)
  }

  predicate IsMarker(e: TarEntry) {
    var p := EntryPath(e);
    p != [] && WH_PREFIX <= p[|p| - 1]
  }

  /** e is a file, directory or link of its layer at p. */
  predicate Defines(e: TarEntry, p: seq<string>) {
    !IsMarker(e) && EntryPath(e) == p
  }

  /**
   Marker e hides lower layers' p: an opaque marker hides everything below its directory, a
   whiteout of a name hides that name and everything below it.
   */
  predicate Hides(e: TarEntry, p: seq<string>) {
    && IsMarker(e)
    && var q := EntryPath(e);
       var dir, last := q[..|q| - 1], q[|q| - 1];
       if last == WH_OPAQUE then IsAncestor(dir, p)
       else dir + [last[|WH_PREFIX|..]] <= p
  }

  predicate Touches(e: TarEntry, p: seq<string>) {
    Defines(e, p) || Hides(e, p)
  }

  /** A normalised name, and a whiteout names a real component. */
  predicate WellFormed(e: TarEntry) {
    && Normalised(e.filename)
    && (IsMarker(e) ==>
          var last := EntryPath(e)[|EntryPath(e)| - 1];
          last == WH_OPAQUE || IsComponent(last[|WH_PREFIX|..]))
  }

  ghost predicate DistinctNames(layer: Layer) {
    forall i, j | 0 <= i < j < |layer| :: layer[i].filename != layer[j].filename
  }

  ghost predicate WellFormedLayer(layer: Layer) {
    DistinctNames(layer) && forall e | e in layer :: WellFormed(e)
  }

  ghost predicate DefinedAt(layer: Layer, p: seq<string>) {
    exists e :: e in layer && Defines(e, p)
  }

  ghost predicate HiddenBy(layer: Layer, p: seq<string>) {
    exists e :: e in layer && Hides(e, p)
  }

  /** Marker w of the layer sorts after e although e lies in its scope. */
  predicate Shadows(w: TarEntry, e: TarEntry) {
    !IsMarker(e) && Hides(w, EntryPath(e)) && FilenameLess(e, w)
  }

  ghost predicate Shadowed(layer: Layer, p: seq<string>) {
    exists e, w :: e in layer && w in layer && EntryPath(e) == p && Shadows(w, e)
  }

  ghost predicate MarkersFirst(layer: Layer) {
    forall e, w | e in layer && w in layer :: !Shadows(w, e)
  }

  /** Layer j is the highest to define p and no layer above j hides it. */
  ghost predicate Winner(layers: seq<Layer>, p: seq<string>, j: int) {
    && 0 <= j < |layers|
    && DefinedAt(layers[j], p)
    && forall k | j < k < |layers| :: !DefinedAt(layers[k], p) && !HiddenBy(layers[k], p)
  }

  /** The overlay of the layers shows entry x at p. */
  ghost predicate Shows(layers: seq<Layer>, p: seq<string>, x: Entry) {
    && x.path == Abs(p)
    && Winner(layers, p, x.layerIdx)
    && exists e :: e in layers[x.layerIdx] && Defines(e, p) && e.header == x.header
  }

  function At(m: Entries, p: seq<string>): Option<Entry> {
    if Abs(p) in m then Some(m[Abs(p)]) else None
  }

  // ---- one entry ----

  lemma MarkerBase(e: TarEntry)
    requires WellFormed(e)
    ensures IsMarker(e) <==> WH_PREFIX <= Base(e.filename)
    ensures IsMarker(e) ==> Base(e.filename) == EntryPath(e)[|EntryPath(e)| - 1]
  {
    NormalisedBase(e.filename);
    if e.filename != "." {
      NormalisedCanon(e.filename);
    }
  }

  lemma WithoutChildrenAt(m: Entries, dir: seq<string>, p: seq<string>)
    requires Proper(dir) && Proper(p)
    ensures At(WithoutChildren(m, Abs(dir)), p) == if IsAncestor(dir, p) then None else At(m, p)
  {
    CanonOfAbs(dir);
    AbsRoot(dir);
    AbsRoot(p);
    if dir != [] {
      PrefixIsAncestry(dir, p);
    }
    if Abs(dir) == Abs(p) {
      AbsInjective(dir, p);
    }
    hide Canon;
    assert dir == [] ==> "/" <= Abs(p);
  }

  lemma WithoutSubtreeAt(m: Entries, target: seq<string>, p: seq<string>)
    requires Proper(target) && Proper(p) && target != []
    ensures At(WithoutSubtree(m, Abs(target)), p) == if target <= p then None else At(m, p)
  {
    PrefixIsAncestry(target, p);
    if Abs(target) == Abs(p) {
      AbsInjective(target, p);
    }
    assert target <= p <==> target == p || IsAncestor(target, p);
  }

  /** What one loop iteration does to a single path. */
  lemma ApplyEntryAt(m: Entries, e: TarEntry, layerIdx: int, p: seq<string>)
    requires WellFormed(e) && Proper(p)
    ensures At(ApplyEntry(m, e, layerIdx), p)
         == if Defines(e, p) then Some(Entry(Abs(p), e.header, layerIdx))
            else if Hides(e, p) then None
            else At(m, p)
  {
    hide Canon, Base, Dir, PathJoin, Abs, NameComponents, WithoutChildren, WithoutSubtree;
    MarkerBase(e);
    NormalisedCanon(e.filename);
    var q := EntryPath(e);
    if IsMarker(e) {
      var dir, last := q[..|q| - 1], q[|q| - 1];
      MarkerName(e);
      NormalisedDir(e.filename);
      if last == WH_OPAQUE {
        WithoutChildrenAt(m, dir, p);
      } else {
        JoinUnder(dir, last[|WH_PREFIX|..]);
        WithoutSubtreeAt(m, dir + [last[|WH_PREFIX|..]], p);
      }
    } else if Abs(q) == Abs(p) {
      AbsInjective(q, p);
    }
  }

  lemma MarkerName(e: TarEntry)
    requires IsMarker(e)
    ensures e.filename != "."
  {
  }

  // ---- a sequence of entries: the last one to touch the path decides ----

  function LastTouch(es: seq<TarEntry>, p: seq<string>): (r: int)
    ensures -1 <= r < |es|
    ensures r >= 0 ==> Touches(es[r], p)
    ensures forall i | r < i < |es| :: !Touches(es[i], p)
  {
    if es == [] then -1
    else if Touches(es[|es| - 1], p) then |es| - 1
    else LastTouch(es[..|es| - 1], p)
  }

  lemma {:induction false} ApplyAllAt(m: Entries, es: seq<TarEntry>, layerIdx: int, p: seq<string>)
    requires Proper(p) && forall e | e in es :: WellFormed(e)
    ensures At(ApplyAll(m, es, layerIdx), p)
         == var r := LastTouch(es, p);
            if r < 0 then At(m, p)
            else if Defines(es[r], p) then Some(Entry(Abs(p), es[r].header, layerIdx))
            else None
  {
    if es != [] {
      ApplyAllAt(m, es[..|es| - 1], layerIdx, p);
      ApplyEntryAt(ApplyAll(m, es[..|es| - 1], layerIdx), es[|es| - 1], layerIdx, p);
    }
  }

  // ---- one layer ----

  lemma FilenameStrictWeak()
    ensures StrictWeak(FilenameLess)
  {
    StringsStrictWeak();
  }

  lemma DistinctIsByEntry(layer: Layer, e: TarEntry, f: TarEntry)
    requires DistinctNames(layer) && e in layer && f in layer && e.filename == f.filename
    ensures e == f
  {
  }

  lemma DefinerUnique(layer: Layer, p: seq<string>, e: TarEntry, f: TarEntry)
    requires WellFormedLayer(layer) && e in layer && f in layer && Defines(e, p) && Defines(f, p)
    ensures e == f
  {
    NormalisedInjective(e.filename, f.filename);
    DistinctIsByEntry(layer, e, f);
  }

  /** The last entry of the sorted layer to touch a path sorts no lower than any other that does. */
  lemma LastSorted(layer: Layer, p: seq<string>)
    ensures var s := Sort(layer, FilenameLess);
            var r := LastTouch(s, p);
            && (r >= 0 ==> s[r] in layer)
            && forall e | e in layer && Touches(e, p) :: r >= 0 && !FilenameLess(s[r], e)
  {
    hide Sort, Touches;
    var s := Sort(layer, FilenameLess);
    SamePermMembers(layer, s);
    FilenameStrictWeak();
    SortSorted(layer, FilenameLess);
    var r := LastTouch(s, p);
    forall e | e in layer && Touches(e, p) ensures r >= 0 && !FilenameLess(s[r], e) {
      var i :| 0 <= i < |s| && s[i] == e;
      LessTotal(e.filename, e.filename);
    }
  }

  /** A path the layer defines: its last touch is its one definer, or a marker sorting above it. */
  lemma DefinedLast(layer: Layer, p: seq<string>, e: TarEntry, last: TarEntry)
    requires WellFormedLayer(layer) && e in layer && Defines(e, p) && last in layer && Touches(last, p)
    requires forall f | f in layer && Touches(f, p) :: !FilenameLess(last, f)
    ensures Defines(last, p) ==> last == e && !Shadowed(layer, p)
    ensures !Defines(last, p) ==> Shadowed(layer, p)
  {
    if Defines(last, p) {
      DefinerUnique(layer, p, e, last);
      forall f, w | f in layer && w in layer && EntryPath(f) == p ensures !Shadows(w, f) {
        if Defines(f, p) {
          DefinerUnique(layer, p, e, f);
        }
      }
    } else {
      DefinerBeforeHider(layer, p, e, last);
      assert Shadows(last, e);
    }
  }

  /** The sorted pass over one layer, path by path. */
  lemma OnePassAt(m: Entries, layer: Layer, layerIdx: int, p: seq<string>)
    requires WellFormedLayer(layer) && Proper(p)
    ensures forall e | e in layer && Defines(e, p) && !Shadowed(layer, p) ::
              At(OnePass(m, layer, layerIdx), p) == Some(Entry(Abs(p), e.header, layerIdx))
    ensures DefinedAt(layer, p) && Shadowed(layer, p) ==> At(OnePass(m, layer, layerIdx), p) == None
    ensures !DefinedAt(layer, p) && HiddenBy(layer, p) ==> At(OnePass(m, layer, layerIdx), p) == None
    ensures !DefinedAt(layer, p) && !HiddenBy(layer, p) ==> At(OnePass(m, layer, layerIdx), p) == At(m, p)
  {
    hide Sort, Abs, At, Defines, Hides, FilenameLess, Shadowed, LastTouch, ApplyAll;
    var s := Sort(layer, FilenameLess);
    SamePermMembers(layer, s);
    LastSorted(layer, p);
    ApplyAllAt(m, s, layerIdx, p);
    var r := LastTouch(s, p);
    if e :| e in layer && Defines(e, p) {
      DefinedLast(layer, p, e, s[r]);
      forall f | f in layer && Defines(f, p) ensures f == e {
        DefinerUnique(layer, p, e, f);
      }
    }
  }

  lemma DefinerBeforeHider(layer: Layer, p: seq<string>, e: TarEntry, w: TarEntry)
    requires WellFormedLayer(layer) && e in layer && w in layer && Defines(e, p) && Hides(w, p)
    ensures FilenameLess(e, w) || FilenameLess(w, e)
  {
    LessTotal(e.filename, w.filename);
    if e.filename == w.filename {
      DistinctIsByEntry(layer, e, w);
    }
  }
}
