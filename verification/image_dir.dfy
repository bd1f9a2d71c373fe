/** The directory view of internal/mount/mount.go: imageDir.Lookup, Readdir and imageFile.Open. */
module ImageDir {
  import opened Wrappers
  import opened GoPath
  import opened Overlay
  import opened OverlayTheorems
  import opened Merge
  import opened MergeTheorems

  const META_DIR_NAME := "@@meta"

  /** S_IFDIR, S_IFLNK and S_IFREG. */
  datatype Mode = Directory | Symlink | Regular

  /** The inode a lookup hands out. */
  datatype Node = MetaNode | DirNode(path: string) | LinkNode(target: string) | FileNode(entry: Entry) {
    function GetMode(): Mode {
      match this
      case MetaNode => Directory
      case DirNode(_) => Directory
      case LinkNode(_) => Symlink
      case FileNode(_) => Regular
    }
  }

  datatype DirEntry = DirEntry(name: string, mode: Mode)

  function EntryMode(e: Entry): Mode {
    if e.IsDir() then Directory else if e.IsSymlink() then Symlink else Regular
  }

  function NodeAt(path: string, e: Entry): Node {
    if e.IsDir() then DirNode(path)
    else if e.IsSymlink() then LinkNode(e.header.linkname)
    else FileNode(e)
  }

  /** imageDir.Lookup; None is ENOENT. */
  function Lookup(m: Entries, path: string, child: string): Option<Node> {
    if path == "/" && child == META_DIR_NAME then Some(MetaNode)
    else
      var childPath := JoinInImage(path, child);
      match At(m, Components(childPath))
      case None => None
      case Some(e) => Some(NodeAt(childPath, e))
  }

  function Listing(es: seq<Entry>): seq<DirEntry> {
    if es == [] then []
    else
      var e := es[|es| - 1];
      Listing(es[..|es| - 1]) + [DirEntry(Base(e.path), EntryMode(e))]
  }

  /** The directory stream Readdir produces. */
  function Stream(m: Entries, children: map<string, seq<string>>, path: string): seq<DirEntry> {
    var names := if Canon(path) in children then children[Canon(path)] else [];
    (if path == "/" then [DirEntry(META_DIR_NAME, Directory)] else []) + Listing(Present(m, names))
  }

  method Readdir(tree: Tree, path: string) returns (out: seq<DirEntry>)
    ensures out == Stream(tree.entries, tree.children, path)
  {
    hide Base, Canon;
    var children := tree.Children(path);
    out := [];
    if path == "/" {
      out := out + [DirEntry(META_DIR_NAME, Directory)];
    }
    ghost var first := out;
    for i := 0 to |children|
      invariant out == first + Listing(children[..i])
    {
      assert children[..i + 1][..i] == children[..i];
      var e := children[i];
      var mode := Regular;
      if e.IsDir() {
        mode := Directory;
      } else if e.IsSymlink() {
        mode := Symlink;
      }
      out := out + [DirEntry(Base(e.path), mode)];
    }
    assert children[..|children|] == children;
    assert Present(tree.entries, []) == [];
  }

  // ---- Readdir against Lookup ----

  lemma JoinInImageAbs(d: seq<string>, c: string)
    requires Proper(d) && IsComponent(c)
    ensures JoinInImage(Abs(d), c) == Abs(d + [c])
    ensures Components(JoinInImage(Abs(d), c)) == d + [c]
  {
    AbsRoot(d);
    if d != [] {
      UnderComponents(d, c);
    }
    assert [] + [c] == [c];
    ComponentsAbs(d + [c]);
  }

  lemma ListingMore(m: Entries, init: seq<string>, last: string)
    requires last in m
    ensures Listing(Present(m, init + [last])) == Listing(Present(m, init)) + [DirEntry(Base(m[last].path), EntryMode(m[last]))]
  {
    hide Base, EntryMode;
    assert (init + [last])[..|init|] == init;
    var es := Present(m, init);
    assert Present(m, init + [last]) == es + [m[last]];
    assert (es + [m[last]])[..|es|] == es;
  }

  /** The entry at index i of a fully present list of names. */
  lemma {:induction false} ListingAt(m: Entries, names: seq<string>, i: int)
    requires (forall n | n in names :: n in m) && 0 <= i < |names|
    ensures |Listing(Present(m, names))| == |names|
    ensures Listing(Present(m, names))[i] == DirEntry(Base(m[names[i]].path), EntryMode(m[names[i]]))
  {
    hide Base, EntryMode, Listing, Present;
    var n := |names| - 1;
    var init, last := names[..n], names[n];
    assert names == init + [last] && last in names;
    ListingMore(m, init, last);
    if n == 0 {
      NothingListed(m);
    } else {
      forall k | k in init ensures k in m {
        assert k in names;
      }
      ListingAt(m, init, if i < n then i else 0);
    }
  }

  lemma NothingListed(m: Entries)
    ensures Listing(Present(m, [])) == []
  {
  }

  lemma MetaIsComponent()
    ensures IsComponent(META_DIR_NAME)
  {
  }

  /** The child keys of d, as they appear in the index. */
  lemma IndexedChild(m: Entries, children: map<string, seq<string>>, d: seq<string>, c: string)
    requires PathsAreKeys(m) && IsChildIndex(children, m) && Proper(d) && IsComponent(c)
    ensures Abs(d + [c]) in m <==> Abs(d) in children && Abs(d + [c]) in children[Abs(d)]
  {
    ComponentsAbs(d + [c]);
    assert (d + [c])[..|d|] == d;
    ChildKeys(m, d, Abs(d + [c]));
    assert IsChild(m, Abs(d), Abs(d + [c])) <==> Abs(d + [c]) in m;
  }

  lemma IndexedIsChild(m: Entries, children: map<string, seq<string>>, parent: string, k: string)
    requires IsChildIndex(children, m) && parent in children && k in children[parent]
    ensures IsChild(m, parent, k)
  {
    hide ParentKey;
  }

  lemma IndexedName(m: Entries, children: map<string, seq<string>>, d: seq<string>, k: string)
    requires PathsAreKeys(m) && IsChildIndex(children, m) && Proper(d)
    requires Abs(d) in children && k in children[Abs(d)]
    ensures k in m && IsComponent(Base(k)) && k == Abs(d + [Base(k)])
  {
    hide ParentKey, Base, Abs, Components, IsChildIndex;
    IndexedIsChild(m, children, Abs(d), k);
    ChildKeys(m, d, k);
    var cs := Components(k);
    assert Abs(cs) == k;
    BaseOfAbs(cs);
    assert cs == d + [cs[|d|]];
  }

  /** The index list of a directory, empty when it has none. */
  function ChildNames(children: map<string, seq<string>>, d: seq<string>): seq<string> {
    if Abs(d) in children then children[Abs(d)] else []
  }

  lemma StreamIs(m: Entries, children: map<string, seq<string>>, d: seq<string>)
    requires Proper(d)
    ensures Stream(m, children, Abs(d))
         == (if d == [] then [DirEntry(META_DIR_NAME, Directory)] else []) + Listing(Present(m, ChildNames(children, d)))
  {
    CanonOfAbs(d);
    AbsRoot(d);
  }

  ghost predicate Lists(s: seq<DirEntry>, name: string, mode: Mode) {
    DirEntry(name, mode) in s
  }

  lemma ListedByMode(m: Entries, children: map<string, seq<string>>, d: seq<string>, c: string, mode: Mode)
    requires PathsAreKeys(m) && IsChildIndex(children, m) && Proper(d)
    ensures DirEntry(c, mode) in Listing(Present(m, ChildNames(children, d))) <==>
            IsComponent(c) && Abs(d + [c]) in m && EntryMode(m[Abs(d + [c])]) == mode
  {
    hide ParentKey, Abs, Base;
    var names := ChildNames(children, d);
    var l := Listing(Present(m, names));
    forall n | n in names ensures n in m {
      IndexedName(m, children, d, n);
    }
    if names == [] {
      assert l == [];
    } else {
      ListingAt(m, names, 0);
    }
    if DirEntry(c, mode) in l {
      var i :| 0 <= i < |l| && l[i] == DirEntry(c, mode);
      ListingAt(m, names, i);
      IndexedName(m, children, d, names[i]);
    }
    if IsComponent(c) && Abs(d + [c]) in m {
      IndexedChild(m, children, d, c);
      var i :| 0 <= i < |names| && names[i] == Abs(d + [c]);
      ListingAt(m, names, i);
      IndexedName(m, children, d, names[i]);
      SameBase(d, c);
      assert l[i] in l;
    }
  }

  /** What Readdir lists besides the synthetic directory, name by name and by tar type. */
  lemma ListedExactly(m: Entries, children: map<string, seq<string>>, d: seq<string>, c: string, mode: Mode)
    requires PathsAreKeys(m) && IsChildIndex(children, m) && Proper(d)
    ensures DirEntry(c, mode) in Listing(Present(m, ChildNames(children, d))) <==>
            && IsComponent(c) && Abs(d + [c]) in m
            && var typeflag := m[Abs(d + [c])].header.typeflag;
               mode == if typeflag == '5' then Directory else if typeflag == '2' then Symlink else Regular
  {
    hide Abs, Listing, Present, ChildNames, IsChildIndex, PathsAreKeys, EntryMode;
    ListedByMode(m, children, d, c, mode);
    if IsComponent(c) && Abs(d + [c]) in m {
      AbsRoot(d + [c]);
      EntryModeSpelled(m, Abs(d + [c]));
    }
  }

  lemma EntryModeSpelled(m: Entries, path: string)
    requires PathsAreKeys(m) && path in m && path != "/"
    ensures var typeflag := m[path].header.typeflag;
            EntryMode(m[path]) == if typeflag == '5' then Directory else if typeflag == '2' then Symlink else Regular
  {
  }

  lemma SameBase(d: seq<string>, c: string)
    requires Proper(d) && IsComponent(c)
    ensures Base(Abs(d + [c])) == c
  {
    BaseOfAbs(d + [c]);
  }

  /** The names Readdir lists are exactly the single components Lookup accepts. */
  lemma ReaddirNamesAreLookups(m: Entries, children: map<string, seq<string>>, d: seq<string>, c: string)
    requires PathsAreKeys(m) && IsChildIndex(children, m) && Proper(d)
    ensures (exists mode :: Lists(Stream(m, children, Abs(d)), c, mode)) <==>
            IsComponent(c) && Lookup(m, Abs(d), c).Some?
  {
    hide IsChildIndex, PathsAreKeys, Stream;
    StreamIs(m, children, d);
    AbsRoot(d);
    MetaIsComponent();
    var s := Stream(m, children, Abs(d));
    var l := Listing(Present(m, ChildNames(children, d)));
    if mode :| Lists(s, c, mode) {
      ListedByMode(m, children, d, c, mode);
      if DirEntry(c, mode) in l {
        JoinInImageAbs(d, c);
      }
    }
    if IsComponent(c) && Lookup(m, Abs(d), c).Some? {
      JoinInImageAbs(d, c);
      if d == [] && c == META_DIR_NAME {
        assert s[0] == DirEntry(c, Directory);
        assert Lists(s, c, Directory);
      } else {
        var mode := EntryMode(m[Abs(d + [c])]);
        ListedByMode(m, children, d, c, mode);
        assert Lists(s, c, mode);
      }
    }
  }

  /** A real entry sits where the root's synthetic directory is shown. */
  predicate RealMeta(m: Entries, d: seq<string>) {
    d == [] && Abs([META_DIR_NAME]) in m
  }

  /** Listed modes are the modes Lookup reports, unless a real non-directory "/@@meta" is in the way. */
  lemma ReaddirModesAgreeIff(m: Entries, children: map<string, seq<string>>, d: seq<string>)
    requires PathsAreKeys(m) && IsChildIndex(children, m) && Proper(d)
    ensures (forall c, mode | Lists(Stream(m, children, Abs(d)), c, mode) ::
               Lookup(m, Abs(d), c).Some? && Lookup(m, Abs(d), c).value.GetMode() == mode)
       <==> !(RealMeta(m, d) && EntryMode(m[Abs([META_DIR_NAME])]) != Directory)
  {
    hide IsChildIndex, PathsAreKeys, Stream;
    StreamIs(m, children, d);
    AbsRoot(d);
    MetaIsComponent();
    assert [] + [META_DIR_NAME] == [META_DIR_NAME];
    var s := Stream(m, children, Abs(d));
    forall c, mode | Lists(s, c, mode) && !(d == [] && c == META_DIR_NAME)
      ensures Lookup(m, Abs(d), c).Some? && Lookup(m, Abs(d), c).value.GetMode() == mode
    {
      ListedByMode(m, children, d, c, mode);
      JoinInImageAbs(d, c);
    }
    if d == [] {
      forall mode ensures Lists(s, META_DIR_NAME, mode) <==>
                          mode == Directory || (RealMeta(m, d) && EntryMode(m[Abs([META_DIR_NAME])]) == mode)
      {
        ListedByMode(m, children, d, META_DIR_NAME, mode);
      }
      if RealMeta(m, d) {
        assert Lists(s, META_DIR_NAME, EntryMode(m[Abs([META_DIR_NAME])]));
      }
    }
  }

  ghost predicate DistinctListing(s: seq<DirEntry>) {
    forall i, j | 0 <= i < j < |s| :: s[i].name != s[j].name
  }

  lemma ListingDistinct(m: Entries, children: map<string, seq<string>>, d: seq<string>)
    requires PathsAreKeys(m) && IsChildIndex(children, m) && Proper(d)
    ensures DistinctListing(Listing(Present(m, ChildNames(children, d))))
  {
    hide ParentKey, Abs, Base;
    var names := ChildNames(children, d);
    var l := Listing(Present(m, names));
    forall n | n in names ensures n in m {
      IndexedName(m, children, d, n);
    }
    if names == [] {
      assert l == [];
    } else {
      ListingAt(m, names, 0);
      forall i, j | 0 <= i < j < |l| ensures l[i].name != l[j].name {
        ListingAt(m, names, i);
        ListingAt(m, names, j);
        IndexedName(m, children, d, names[i]);
        IndexedName(m, children, d, names[j]);
        LessTotal(names[i], names[j]);
      }
    }
  }

  /** Readdir never lists a name twice, except "@@meta" when the image really has that path. */
  lemma ReaddirDistinctIff(m: Entries, children: map<string, seq<string>>, d: seq<string>)
    requires PathsAreKeys(m) && IsChildIndex(children, m) && Proper(d)
    ensures DistinctListing(Stream(m, children, Abs(d))) <==> !RealMeta(m, d)
  {
    hide IsChildIndex, PathsAreKeys, Stream, Listing, Present;
    StreamIs(m, children, d);
    ListingDistinct(m, children, d);
    MetaIsComponent();
    assert [] + [META_DIR_NAME] == [META_DIR_NAME];
    var s := Stream(m, children, Abs(d));
    var l := Listing(Present(m, ChildNames(children, d)));
    if d == [] {
      assert s == [DirEntry(META_DIR_NAME, Directory)] + l;
      forall i | 0 <= i < |l| && l[i].name == META_DIR_NAME ensures RealMeta(m, d) {
        assert DirEntry(META_DIR_NAME, l[i].mode) in l;
        ListedByMode(m, children, d, META_DIR_NAME, l[i].mode);
      }
      if RealMeta(m, d) {
        ListedByMode(m, children, d, META_DIR_NAME, EntryMode(m[Abs([META_DIR_NAME])]));
        var i :| 0 <= i < |l| && l[i].name == META_DIR_NAME;
        assert s[0].name == s[i + 1].name;
      }
    }
  }

  // ---- walking by names ----

  /** Where a sequence of lookups leads: a node, some names below the metadata directory, or nowhere. */
  datatype Walked = Reaches(node: Node) | InMeta(names: seq<string>) | Missing

  /** One more name, from where the walk has led. */
  function WalkOn(m: Entries, from: Walked, name: string): Walked {
    match from
    case Reaches(DirNode(p)) =>
      var node := Lookup(m, p, name);
      if node == None then Missing else Reaches(node.value)
    case Reaches(MetaNode) => InMeta([name])
    case InMeta(names) => InMeta(names + [name])
    case _ => Missing
  }

  /** Looking names up one after the other from the image root. */
  function Walk(m: Entries, cs: seq<string>): Walked {
    if cs == [] then Reaches(DirNode("/"))
    else WalkOn(m, Walk(m, cs[..|cs| - 1]), cs[|cs| - 1])
  }

  /** All proper non-root ancestors are tar directories. */
  ghost predicate ThroughDirectories(m: Entries, cs: seq<string>) {
    forall i | 0 < i < |cs| :: Abs(cs[..i]) in m && m[Abs(cs[..i])].header.typeflag == '5'
  }

  lemma ThroughMore(m: Entries, init: seq<string>, last: string)
    requires init != []
    ensures ThroughDirectories(m, init + [last]) <==>
            ThroughDirectories(m, init) && Abs(init) in m && m[Abs(init)].header.typeflag == '5'
  {
    hide Abs;
    var cs := init + [last];
    assert cs[..|init|] == init;
    assert forall i | 0 < i < |init| :: cs[..i] == init[..i];
  }

  /** A lookup in the directory d of the image, by the tar type of what is there. */
  lemma LookupAnswers(m: Entries, d: seq<string>, c: string)
    requires PathsAreKeys(m) && Proper(d) && IsComponent(c)
    ensures var path := Abs(d + [c]);
            Lookup(m, Abs(d), c)
            == if d == [] && c == "@@meta" then Some(MetaNode)
               else if path !in m then None
               else if m[path].header.typeflag == '5' then Some(DirNode(path))
               else if m[path].header.typeflag == '2' then Some(LinkNode(m[path].header.linkname))
               else Some(FileNode(m[path]))
  {
    AbsRoot(d);
    AbsRoot(d + [c]);
    JoinInImageAbs(d, c);
    hide Abs, JoinInImage, Components, CanonicalKeys;
  }

  /**
   Where walking ought to lead: to the entries all of whose proper ancestors are directories,
   except that every path beginning with "@@meta" belongs to the metadata view.
   */
  ghost function WalkTarget(m: Entries, cs: seq<string>): Walked
    requires cs != []
  {
    var path := Abs(cs);
    if cs == ["@@meta"] then Reaches(MetaNode)
    else if cs[0] == "@@meta" then InMeta(cs[1..])
    else if path !in m || !ThroughDirectories(m, cs) then Missing
    else if m[path].header.typeflag == '5' then Reaches(DirNode(path))
    else if m[path].header.typeflag == '2' then Reaches(LinkNode(m[path].header.linkname))
    else Reaches(FileNode(m[path]))
  }

  lemma WalkOne(m: Entries, c: string)
    requires PathsAreKeys(m) && IsComponent(c)
    ensures Walk(m, [c]) == WalkTarget(m, [c])
  {
    assert Abs([]) == "/" && [] + [c] == [c] && [c][..0] == [];
    assert Walk(m, []) == Reaches(DirNode("/"));
    LookupAnswers(m, [], c);
    hide Lookup, Abs, PathsAreKeys;
  }

  lemma WalkMore(m: Entries, init: seq<string>, last: string)
    requires PathsAreKeys(m) && Proper(init) && init != [] && IsComponent(last) && Walk(m, init) == WalkTarget(m, init)
    ensures Walk(m, init + [last]) == WalkTarget(m, init + [last])
  {
    hide Walk, Lookup, Abs, ThroughDirectories, PathsAreKeys;
    var cs := init + [last];
    assert cs[..|cs| - 1] == init && cs[1..] == init[1..] + [last] && cs[0] == init[0];
    WalkSteps(m, init, last);
    LookupAnswers(m, init, last);
    ThroughMore(m, init, last);
  }

  lemma WalkSteps(m: Entries, init: seq<string>, last: string)
    ensures Walk(m, init + [last]) == WalkOn(m, Walk(m, init), last)
  {
    assert (init + [last])[..|init|] == init;
  }

  /**
   Walking reaches exactly the entries all of whose proper ancestors are directories, except that
   every path beginning with "@@meta" belongs to the metadata view, whatever the image has there.
   */
  lemma {:induction false} WalkReaches(m: Entries, cs: seq<string>)
    requires PathsAreKeys(m) && Proper(cs) && cs != []
    ensures Walk(m, cs) == WalkTarget(m, cs)
  {
    hide Walk, WalkTarget, PathsAreKeys;
    var init, last := cs[..|cs| - 1], cs[|cs| - 1];
    assert cs == init + [last] && last in cs;
    if init == [] {
      assert cs == [last];
      WalkOne(m, last);
    } else {
      WalkReaches(m, init);
      WalkMore(m, init, last);
    }
  }

  // ---- what a file node opens ----

  /** imageFile.Open: the layer and the name it asks that layer's file system for; None is EIO. */
  function OpenTarget(layerCount: nat, e: Entry): (r: Option<(nat, string)>)
    ensures r == None <==> !(0 <= e.layerIdx < layerCount)
  {
    if e.layerIdx < 0 || e.layerIdx >= layerCount then None
    else Some((e.layerIdx, if "/" <= e.path then e.path[1..] else e.path))
  }

  lemma FileNodeEntry(m: Entries, path: string, child: string, x: Entry)
    requires PathsAreKeys(m) && Lookup(m, path, child) == Some(FileNode(x))
    ensures At(m, Components(JoinInImage(path, child))) == Some(x) && !x.IsDir()
    ensures x.path == Abs(Components(JoinInImage(path, child)))
  {
  }

  /**
   Every file node a lookup on a merged tree hands out opens: the range check cannot fail, and
   the name asked for is that of a non-marker entry of the layer with the node's own header.
   */
  lemma FileNodesOpen(layers: seq<Layer>, path: string, child: string, x: Entry)
    requires WellFormedLayers(layers)
    requires Lookup(WithParents(Folded(layers)), path, child) == Some(FileNode(x))
    ensures 0 <= x.layerIdx < |layers|
    ensures exists e :: e in layers[x.layerIdx] && !IsMarker(e) && e.header == x.header
                     && OpenTarget(|layers|, x) == Some((x.layerIdx, e.filename))
  {
    hide Folded, Components, AddSynthetic, PathsAreKeys, Lookup;
    var m := Folded(layers);
    var p := Components(JoinInImage(path, child));
    FoldedPaths(layers);
    WithParentsPaths(m);
    FileNodeEntry(WithParents(m), path, child, x);
    AbsRoot(p);
    SyntheticExactly(m, p);
    FoldedHasSource(layers, p);
    var e :| e in layers[x.layerIdx] && Defines(e, p) && e.header == x.header;
    assert WellFormed(e);
    assert e.filename != ".";
    NormalisedTrim(e.filename);
  }

  /** Synthetic directories are never handed out as files. */
  lemma SyntheticNeverOpened(layers: seq<Layer>, path: string, child: string, x: Entry)
    requires WellFormedLayers(layers)
    requires At(WithParents(Folded(layers)), Components(JoinInImage(path, child))) == Some(x) && x.layerIdx < 0
    ensures Lookup(WithParents(Folded(layers)), path, child).Some?
    ensures Lookup(WithParents(Folded(layers)), path, child).value.GetMode() == Directory
  {
    if Lookup(WithParents(Folded(layers)), path, child) == Some(FileNode(x)) {
      FileNodesOpen(layers, path, child, x);
    }
    var p := Components(JoinInImage(path, child));
    FoldedPaths(layers);
    WithParentsPaths(Folded(layers));
    if p != [] {
      SyntheticExactly(Folded(layers), p);
      if Abs(p) in Folded(layers) {
        FoldedHasSource(layers, p);
      }
    } else {
      AbsRoot(p);
    }
  }

  // ---- an image with a file of the reserved name ----

  lemma MetaLayer(h: Header)
    ensures var e := TarEntry(META_DIR_NAME, h);
            WellFormedLayer([e]) && Defines(e, [META_DIR_NAME]) && !Shadowed([e], [META_DIR_NAME])
  {
    SplitNoSlash(META_DIR_NAME);
    var e := TarEntry(META_DIR_NAME, h);
    assert EntryPath(e) == [META_DIR_NAME] && !IsMarker(e) && WellFormed(e);
  }

  lemma MetaFolded(h: Header)
    ensures At(Folded([[TarEntry(META_DIR_NAME, h)]]), [META_DIR_NAME]) == Some(Entry(Abs([META_DIR_NAME]), h, 0))
  {
    hide Defines, Shadowed, WellFormedLayer, OnePass, Abs, At;
    var e := TarEntry(META_DIR_NAME, h);
    MetaLayer(h);
    MetaIsComponent();
    assert [[e]][..0] == [] && e in [e];
    OnePassAt(Folded([]), [e], 0, [META_DIR_NAME]);
  }

  lemma MetaMerged(h: Header)
    requires h.typeflag != TYPE_DIR
    ensures var m := WithParents(Folded([[TarEntry(META_DIR_NAME, h)]]));
            PathsAreKeys(m) && RealMeta(m, []) && EntryMode(m[Abs([META_DIR_NAME])]) != Directory
  {
    hide PathsAreKeys, WithParents, Folded, Abs;
    var m := Folded([[TarEntry(META_DIR_NAME, h)]]);
    MetaFolded(h);
    FoldedPaths([[TarEntry(META_DIR_NAME, h)]]);
    WithParentsPaths(m);
    MetaIsComponent();
    SyntheticExactly(m, [META_DIR_NAME]);
    AbsRoot([META_DIR_NAME]);
  }

  lemma RealMetaListed(m: Entries, children: map<string, seq<string>>)
    requires PathsAreKeys(m) && IsChildIndex(children, m) && RealMeta(m, [])
    ensures !DistinctListing(Stream(m, children, "/"))
    ensures Lists(Stream(m, children, "/"), META_DIR_NAME, EntryMode(m[Abs([META_DIR_NAME])]))
  {
    hide IsChildIndex, PathsAreKeys, Stream, Listing, Present, DistinctListing;
    assert Abs([]) == "/";
    MetaIsComponent();
    ReaddirDistinctIff(m, children, []);
    assert [] + [META_DIR_NAME] == [META_DIR_NAME];
    ListedByMode(m, children, [], META_DIR_NAME, EntryMode(m[Abs([META_DIR_NAME])]));
    StreamIs(m, children, []);
  }

  /** One file called "@@meta" suffices: the merged root lists it beside the synthetic directory. */
  lemma MetaListedTwice(h: Header, children: map<string, seq<string>>)
    requires h.typeflag != TYPE_DIR
    requires IsChildIndex(children, WithParents(Folded([[TarEntry(META_DIR_NAME, h)]])))
    ensures var m := WithParents(Folded([[TarEntry(META_DIR_NAME, h)]]));
            && !DistinctListing(Stream(m, children, "/"))
            && (exists mode :: mode != Directory && Lists(Stream(m, children, "/"), META_DIR_NAME, mode))
            && Lookup(m, "/", META_DIR_NAME) == Some(MetaNode)
  {
    hide IsChildIndex, PathsAreKeys, Stream, DistinctListing, Folded, WithParents, Lists, Abs, EntryMode;
    MetaMerged(h);
    RealMetaListed(WithParents(Folded([[TarEntry(META_DIR_NAME, h)]])), children);
  }
}
