# Verification model of ocifuse

ocifuse mounts OCI images as a file system. This project models its core in Dafny and proves
what that core is for. Code that updates state in place is modelled as classes and loops, each
method proved against a function or relation on values; the promises are then proved about
those functions for all inputs, all runs, or all interleavings.

| file | models |
|---|---|
| `go_path.dfy`, `sorting.dfy` | the Go `path`, `strings` and `sort` functions in use, and `canon` |
| `overlay.dfy`, `overlay_theorems.dfy`, `merge.dfy`, `merge_theorems.dfy` | `internal/merge/merge.go` |
| `image_dir.dfy` | `imageDir.Lookup`, `imageDir.Readdir`, `imageFile.Open` of `internal/mount/mount.go` |
| `lru.dfy`, `lru_inclusion.dfy`, `chunk_cache.dfy` | `internal/layer/chunkcache.go` |
| `resolve_image.dfy` | `Filesystem.resolveImage` of `internal/mount/mount.go` |
| `fs_path.dfy` | `internal/fspath/parse.go`, and the segment classifier and names of `internal/mount/mount.go` |
| `disk_cache.dfy`, `disk_lru.dfy`, `transport.dfy`, `decimal.dfy` | `internal/cache/cache.go`, `internal/oci/transport.go` |

How the pieces fit:

* **Overlay merge.** `Merge.Tree` has the maps of the Go tree and its loops; its methods equal
  `ApplyEntry`, `OnePass`, `Folded` and `WithParents`. Independently, `Shows` says component-wise
  what the OCI Image Format Specification (layer.md, "Whiteouts" and "Opaque Whiteout") wants at
  a path: the highest defining layer wins unless a later layer hides the path. `FoldedAt`,
  `FoldedIsOverlayIff` and `MergedAt` connect the two.
* **Chunk cache.** `Cache` and `LayerView` have the Go fields and loops. Other readers enter as
  arbitrary steps before and during every chunk fetch; upstream may fail at any fetch. The
  recency list equals functions on sequences whose closed form, inclusion across caps and
  fetch counts are proved in `Lru` and `LruInclusion`.
* **Image resolution.** Every caller is a program counter; critical sections and unlocked
  stretches are steps; all statements are about every state of every run.
* **Path grammar.** One grammar, three users: whole-path parser, segment walker, name printer.
* **Disk cache and transport.** Files with times, size accounting, and a round tripper that
  cannot be told apart from its origin over whole runs. Files deleted from outside leave the
  tracked size too high until the next start; every contract holds for any such `Drift`.

Where the code differs from what its comments or its purpose suggest, the model follows the code
and the exact condition is proved:

* `internal/merge/merge.go:136-137` says whiteouts sort early. They do not always:
  `root/.bashrc` and `root/-x` sort below `root/.wh..wh..opq` and are deleted by their own
  layer's marker (`MarkersDoNotAlwaysSortFirst`). The sorted pass has the promised effect if and
  only if no entry sorts below a marker of its layer in whose scope it lies
  (`OnePassIsTwoPassIff`, and `FoldedIsOverlayIff` for whole stacks).
* A chunk cache with a larger positive cap can lose a chunk the smaller one keeps once a read
  fails upstream, and then read more often (`InclusionCanFail`, `InclusionFailsOnBlobs`). It holds
  a superset throughout a run if and only if no successful read that both caches miss makes it
  evict a chunk the smaller one keeps (`LargerCapIncludesIff`). That never happens without a cap
  (`AbsentCapIncludes`), with chunks of one size (`EqualChunksInclude`) or without failures
  (`LargerCapReadsLess`).
* A real `/@@meta` in an image is listed twice, and its mode is misreported when it is not a
  directory; these are the only exceptions (`ReaddirDistinctIff`, `ReaddirModesAgreeIff`, with an
  image in `MetaListedTwice`).
* A tag's symlink target as a first path segment is taken for a registry with a port exactly
  when the digest is all decimal digits (`SymlinkTargetResolvesIff`, with one in
  `DecimalDigestTaken`).
* Parse cleans the path inside the image and the walker does not, so they differ on names such as
  `.` and `..` behind others, which a file system never looks up (`WalkAgreesWithParse`,
  `WalkEndsInImage`).
* The `"\n\n"` framing round-trips exactly for content types without a blank line inside and
  without a newline at the end, whatever the body (`FramingRoundTripsIff`).
* `itoa` returns an empty string for negative numbers; no length is negative (`Itoa`).

## Model

| member | source | states |
|---|---|---|
| GoPath.CanonIsAbs | internal/merge/merge.go:213-224 | for every string, `canon` gives the absolute path of the components left once empty, `.` and `..` segments are resolved at the root |
| GoPath.CleanMore | internal/merge/merge.go:222-222 | what one more segment does to a cleaned path: `""` and `.` nothing, `..` drops the segment before it, stays in front of a relative path and is ignored at the root, any other is added |
| GoPath.ComponentsMore | internal/merge/merge.go:213-224 | read as rooted, `p/c` is p for `""` and `.`, its parent (never above the root) for `..`, and p with c added otherwise |
| GoPath.CanonIdempotent | internal/merge/merge.go:213-224 | canonicalising twice is canonicalising once |
| GoPath.AbsInjective | internal/merge/merge.go:213-224 | two canonical paths are the same string only if they have the same components |
| GoPath.PrefixIsAncestry | internal/merge/merge.go:188-211 | the delete loops' byte-prefix test on canonical paths holds iff the one path is a proper ancestor of the other, so `/a` never catches `/ab` |
| GoPath.ParentOfAbs | internal/merge/merge.go:173-173 | the parent step of the code drops exactly the last component |
| GoPath.BaseMore | internal/merge/merge.go:145-145 | the base of a name, element by element: the last non-empty one, `/` for slashes alone, `.` for nothing |
| GoPath.DirMore | internal/merge/merge.go:146-146 | the directory of `p/c` is p cleaned, that of a single name is `.` |
| GoPath.JoinUnder | internal/merge/merge.go:152-152 | the whiteout target is the named component below the marker's directory |
| Sorting.SortSorted | internal/merge/merge.go:139-141 | the sort used for layers, names and cache files leaves no pair out of order for any strict weak order |
| GoPath.LessIff | internal/merge/merge.go:141-141 | a string is below another iff at their first difference it ends or has the smaller character |
| Sorting.AscendingUnique | internal/merge/merge.go:128-130 | a strictly ascending list is determined by its elements |
| Overlay.ApplyEntryAt | internal/merge/merge.go:143-161 | at any path, one tar entry sets the path it defines, removes exactly what its marker's scope covers by components, and leaves the rest alone |
| Overlay.ApplyAllAt | internal/merge/merge.go:143-161 | after any sequence of entries a path is decided by the last one to touch it |
| Overlay.OnePassAt | internal/merge/merge.go:138-162 | one layer, path by path: defined and not shadowed shows, shadowed or hidden is gone, untouched keeps the lower entry |
| OverlayTheorems.OnePassIsTwoPassIff | internal/merge/merge.go:134-162 | the sorted pass equals "all markers on the lower tree, then all entries" iff no entry sorts below a marker of its layer in whose scope it lies |
| OverlayTheorems.SiblingShadowed | internal/merge/merge.go:136-141 | in any directory, a file is deleted by its own layer's opaque marker iff its name sorts below `.wh..wh..opq` |
| OverlayTheorems.BinIsKept | internal/merge/merge.go:136-141 | `root/bin`, which sorts above the opaque marker of its directory, is kept beside it |
| OverlayTheorems.MarkersSpelled | internal/merge/merge.go:21-24 | `dir/.wh.name` hides exactly `dir/name` and what is below it, `dir/.wh..wh..opq` exactly what is below `dir` |
| OverlayTheorems.MarkersDoNotAlwaysSortFirst | internal/merge/merge.go:136-137 | concrete layers refute the comment: `root/-x` and `root/.bashrc` lie below the opaque marker, and the merged tree lacks `root/.bashrc` |
| OverlayTheorems.LostEntry | internal/merge/merge.go:134-162 | every entry shadowed by a marker of its own layer is absent from a merge of the two |
| OverlayTheorems.FoldedAt | internal/merge/merge.go:107-162 | for any stack of well-formed layers, x is the entry at a non-root path iff the overlay shows x there and x is not shadowed in its own layer |
| OverlayTheorems.RootAt | internal/merge/merge.go:107-117 | no marker ever removes the root: it is the highest layer's own root entry, or the initial directory if no layer has one |
| OverlayTheorems.FoldedHasSource | internal/merge/merge.go:107-162 | every non-root entry comes from an existing layer and is what the overlay shows |
| OverlayTheorems.FoldedIsOverlayIff | internal/merge/merge.go:107-162 | the fold is the image format's overlay at every path iff no winning entry is shadowed in its own layer |
| OverlayTheorems.FoldedIsOverlay | internal/merge/merge.go:107-162 | layers whose markers sort before the entries in their scope merge to the overlay |
| OverlayTheorems.WinnerUnique | internal/merge/merge.go:106-117 | the overlay names at most one layer for a path |
| OverlayTheorems.SortedLayerUnique | internal/merge/merge.go:139-141 | with distinct names there is only one list the unstable sort can produce |
| OverlayTheorems.FoldedOrderIndependent | internal/merge/merge.go:107-162 | permuting entries inside layers leaves the merged entries as they are |
| Merge.Tree.Get | internal/merge/merge.go:51-58 | looks up by the components of the given path, whatever its spelling |
| Merge.Tree.Children | internal/merge/merge.go:61-71 | the present entries of the indexed names, in index order, nothing without an index list |
| Merge.Tree.DeleteSubtree | internal/merge/merge.go:188-196 | the delete loop, in any map order, removes exactly the path and the keys under its prefix |
| Merge.Tree.DeleteChildren | internal/merge/merge.go:198-211 | the delete loop, in any map order, removes exactly the keys under the prefix and keeps the directory |
| Merge.Tree.ApplyLayer | internal/merge/merge.go:138-162 | the in-place layer pass has the value the overlay theorems are about |
| Merge.Tree.CollectMissing | internal/merge/merge.go:173-177 | the upward walk adds exactly the absent proper non-root ancestors |
| Merge.Tree.FindMissing | internal/merge/merge.go:168-178 | collects exactly the absent ancestors of all keys, in any map order |
| Merge.Tree.SynthesizeParents | internal/merge/merge.go:167-186 | adds a directory with index -1 for each absent ancestor and changes no present entry |
| Merge.Tree.GroupByParent | internal/merge/merge.go:121-127 | every key but the root is in its parent's list once, in any map order |
| Merge.Tree.IndexChildren | internal/merge/merge.go:121-130 | the index has, for exactly the paths with children, their strictly ascending list of exactly the child keys |
| Merge.MergeLayers | internal/merge/merge.go:107-132 | the finished tree is the closed fold of the layers and is indexed |
| Merge.LayerTree | internal/merge/merge.go:77-104 | the finished per-layer tree has markers as ordinary entries, is closed under parents and is indexed |
| MergeTheorems.LayerEntryIff | internal/merge/merge.go:73-91 | in the per-layer view a path shows x iff x is the last listed entry of that path, markers included, or the initial root where none is listed |
| MergeTheorems.AncestorsPresent | internal/merge/merge.go:164-186 | in a finished tree every non-root proper ancestor of an entry is present |
| MergeTheorems.SyntheticExactly | internal/merge/merge.go:164-186 | a path gets a directory of mode 0755 with index -1 iff it has no entry and something below it has; other paths are unchanged |
| MergeTheorems.MergedAt | internal/merge/merge.go:107-211 | Merge's non-synthetic entry at a path is x iff the overlay shows x there and x is not shadowed in its own layer |
| MergeTheorems.MergeComputesOverlay | internal/merge/merge.go:107-211 | with markers sorting first, Merge's non-synthetic entries are exactly the overlay's |
| MergeTheorems.ChildKeys | internal/merge/merge.go:121-127 | the keys indexed under a path are exactly those one component longer |
| MergeTheorems.ReachedByChildren | internal/merge/merge.go:61-71 | following children from `/` reaches every entry, one component a step |
| MergeTheorems.IndexUnique | internal/merge/merge.go:121-130 | the entries determine the index, so map iteration order does not show |
| MergeTheorems.MergeOrderIndependent | internal/merge/merge.go:107-132 | two merges of the same layers, entries in any order, give equal entries and equal indexes |
| ImageDir.Readdir | internal/mount/mount.go:416-435 | the listing loop produces the stream the agreement theorems are about |
| ImageDir.ListedExactly | internal/mount/mount.go:416-435 | a name is listed with a mode iff the tree has an entry one component below the directory whose tar type has that mode |
| ImageDir.ReaddirNamesAreLookups | internal/mount/mount.go:385-435 | the names listed at a directory are exactly the single components Lookup accepts there |
| ImageDir.ReaddirModesAgreeIff | internal/mount/mount.go:385-435 | listed modes equal looked-up modes everywhere iff there is no real non-directory `/@@meta` at the root |
| ImageDir.ReaddirDistinctIff | internal/mount/mount.go:416-435 | no name is listed twice iff there is no real `/@@meta` at the root |
| ImageDir.MetaListedTwice | internal/mount/mount.go:416-435 | one layer with a single file `@@meta` merges to a root that lists the name twice, once with a wrong mode, and looks up the metadata view |
| ImageDir.LookupAnswers | internal/mount/mount.go:385-413 | a lookup gives the metadata view for `@@meta` at the root, ENOENT for an absent entry, a directory for tar type 5, a link to its linkname for type 2, and a file otherwise |
| ImageDir.WalkReaches | internal/mount/mount.go:385-414 | walking by names reaches an entry iff all its proper ancestors are directories, and gives the directory, the link to its linkname or the file, by tar type; every path beginning with `@@meta` belongs to the metadata view, whatever the image has there |
| ImageDir.FileNodesOpen | internal/mount/mount.go:456-466 | every file node a merged tree hands out passes the range check and opens the name of a non-marker entry of that layer with the node's header |
| ImageDir.SyntheticNeverOpened | internal/mount/mount.go:398-409 | an entry with a negative layer index is only ever shown as a directory |
| ImageDir.OpenTarget | internal/mount/mount.go:456-461 | an open is refused iff the layer index is out of range |
| Lru.EvictIsLongestFit | internal/layer/chunkcache.go:94-106 | evicting from the back leaves the longest prefix that fits the cap |
| Lru.ClosedForm | internal/layer/chunkcache.go:69-107 | after any sequence of gets and puts the list is the longest prefix of the recency order of all keys used that fits the cap |
| LruInclusion.FetchRunIsRun | internal/layer/chunkcache.go:160-173 | a run of fetchChunk calls, failing or not, is the run of the gets and puts it performs |
| LruInclusion.FetchClosedForm | internal/layer/chunkcache.go:160-173 | after any such calls the list has the closed form |
| Lru.LongestFitUnique | internal/layer/chunkcache.go:69-107 | that prefix is unique, so the closed form determines the list |
| Lru.RecencyUnique | internal/layer/chunkcache.go:69-107 | the recency order lists each used key once and nothing else |
| Lru.RecencyOrder | internal/layer/chunkcache.go:69-107 | the recency order is by descending last use |
| LruInclusion.FetchKeepsPrefix | internal/layer/chunkcache.go:160-173 | list extension, one call: the smaller cap's list stays a prefix of the larger's iff the call does not fail on a chunk that only the larger holds while the smaller holds something |
| LruInclusion.LargerCapExtendsIff | internal/layer/chunkcache.go:80-107 | list extension over any run: the smaller cap's list is a prefix of the larger's throughout iff no failing call moves the larger list alone |
| LruInclusion.FetchKeepsSuperset | internal/layer/chunkcache.go:160-173 | one call on a list and a part of it: it stays a part, and the larger cache still holds all the smaller's chunks, iff a successful read both miss does not push the larger over its cap at the last chunk the smaller keeps |
| LruInclusion.LargerCapIncludesIff | internal/layer/chunkcache.go:80-107 | over any run, failures included, a larger or absent cap holds a superset of the smaller cap's chunks after every call iff it never evicts, in a successful read both miss, a chunk the smaller keeps; and then it reads upstream no more often |
| LruInclusion.AbsentCapIncludes | internal/layer/chunkcache.go:94-96 | without a cap the cache holds a superset of any cap's chunks and reads upstream no more often, in every run, whatever fails |
| LruInclusion.EqualChunksInclude | internal/layer/chunkcache.go:80-107 | with chunks of one size a larger cap holds a superset and reads upstream no more often, in every run, whatever fails |
| LruInclusion.InclusionCanFail | internal/layer/chunkcache.go:160-172 | a run with one failure in which cap 5 lacks a chunk that cap 4 holds, and two calls later has read upstream more often |
| ChunkCache.InclusionFailsOnBlobs | internal/layer/chunkcache.go:160-172 | the same run on three-byte and one-byte blobs with a chunk size of three |
| LruInclusion.LargerCapReadsLess | internal/layer/chunkcache.go:80-107 | without failures the larger cap's list begins with the smaller's and it reads upstream no more often |
| Lru.FetchAllConcat | internal/layer/chunkcache.go:119-158 | consecutive fetch sequences compose: same list and same upstream reads as one sequence |
| Lru.UnboundedFetchesOnce | internal/layer/chunkcache.go:94-96 | without a cap no chunk is read upstream twice in any sequential run |
| ChunkCache.Cache.constructor | internal/layer/chunkcache.go:44-54 | a new cache is empty and valid; a non-positive chunk size becomes 1 MiB |
| ChunkCache.Cache.Used | internal/layer/chunkcache.go:63-67 | the sum of the cached data lengths, within the cap if there is one |
| ChunkCache.Cache.Get | internal/layer/chunkcache.go:69-78 | returns the cached data iff present, moves the key to the front, keeps map, list and total in step |
| ChunkCache.Cache.Put | internal/layer/chunkcache.go:80-107 | a present key keeps its data; a new one enters in front and the least recent are dropped to the cap; map, list and total stay in step |
| ChunkCache.Cache.EvictToCap | internal/layer/chunkcache.go:97-106 | the eviction loop restores the cap and drops the same keys from map and list |
| ChunkCache.Cache.Interfere | internal/layer/chunkcache.go:69-107 | other readers' gets and puts keep the cache valid and its chunks the blobs' bytes, and leave the list of that run |
| ChunkCache.Cache.Replay | internal/layer/chunkcache.go:69-107 | any sequence of gets and puts on a cache leaves the list of that run, from an empty cache the longest fitting prefix of the recency order |
| ChunkCache.LayerView.FetchChunk | internal/layer/chunkcache.go:160-173 | returns exactly the blob's bytes of the chunk, or an error only when upstream fails on a miss; the list is that after the get, the other readers' steps and the put |
| ChunkCache.LayerView.ReadChunk | internal/layer/chunkcache.go:129-152 | each turn of the loop writes the blob's bytes at the read position and makes progress to the next chunk |
| ChunkCache.LayerView.ReadWindow | internal/layer/chunkcache.go:128-152 | the loop fills the buffer with the window, or stops with a correct prefix when upstream fails |
| ChunkCache.LayerView.ReadAt | internal/layer/chunkcache.go:119-158 | under any interference and failures: the bytes are the blob's from the offset, the rest of the buffer is untouched, EOF iff short at the end, upstream reads only for chunks under the window and each at most once, without a cap none that was cached before; alone on the cache, list and upstream reads are those of one fetch per chunk, up to the failing one if one fails |
| ChunkCache.ChunkPiece | internal/layer/chunkcache.go:130-146 | the slice copied out of a cached chunk is the same window of the blob |
| ChunkCache.NextWindow | internal/layer/chunkcache.go:129-135 | after a chunk the read position is in the next chunk, or the read is at its end |
| ChunkCache.RunOfThen | internal/layer/chunkcache.go:119-158 | undisturbed reads one after the other act as one run over all their chunks |
| ChunkCache.RunOfUnbounded | internal/layer/chunkcache.go:119-158 | without a cap such a run reads upstream exactly the chunks not cached before, each once |
| ChunkCache.ReadIsCalls | internal/layer/chunkcache.go:119-173 | a finished read continues a run of fetchChunk calls by one successful call per chunk: same list, as many more upstream reads |
| ChunkCache.FailedReadIsCalls | internal/layer/chunkcache.go:119-173 | a read that fails upstream continues it by its successful calls and the failing one |
| ChunkCache.ReadOne | internal/layer/chunkcache.go:119-158 | a read returns a beginning of what a plain read of the blob returns, all of it when undisturbed |
| ChunkCache.ReadInTurn | internal/layer/chunkcache.go:119-158 | any sequence of reads of any layers: undisturbed, every output is the plain read's, list and upstream reads are those of one run over all chunks, and without a cap no chunk is read upstream twice |
| ResolveImage.NextInv | internal/mount/mount.go:71-115 | every step of every caller keeps the invariant and only adds images |
| ResolveImage.RunInv | internal/mount/mount.go:71-115 | the invariant holds in every state of every run |
| ResolveImage.ImagesWrittenOnce | internal/mount/mount.go:102-109 | in any interleaving `images[d]` is written at most once and holds an image of digest d |
| ResolveImage.CallersAgree | internal/mount/mount.go:71-115 | any two successful calls that end with images of the same digest, on whatever path, return the same published object |
| ResolveImage.CallReturnsResolved | internal/mount/mount.go:71-115 | once the registry has resolved a flight to digest d, every successful call of that flight (leader by re-check, publication or adoption, or follower) returns the published image of d |
| ResolveImage.KeySeparates | internal/mount/mount.go:82-82 | for printed references, in which no `@` is last or followed by another, equal keys mean equal references and equal platforms |
| ResolveImage.FollowersShareCall | internal/mount/mount.go:82-83 | a follower waits for a flight led by a call for the same reference and the same platform |
| ResolveImage.OneResolutionPerCall | internal/mount/mount.go:82-83 | at most one caller per reference and platform is resolving at any time |
| ResolveImage.FastPathDigest | internal/mount/mount.go:72-81 | the fast path returns an object of exactly the digest asked for |
| ResolveImage.PublishedAtOnce | internal/mount/mount.go:72-81 | a call for a published digest returns it in its first step and touches nothing |
| ResolveImage.EntersOnce | internal/mount/mount.go:82-83 | any other call enters the group, joins the running flight of its key or leads a new one |
| ResolveImage.SecondLook | internal/mount/mount.go:88-93 | a digest found published after the resolution is returned, otherwise its layers are opened |
| ResolveImage.OpensOnlyUnpublished | internal/mount/mount.go:88-95 | layers are opened only for a digest that is not published |
| ResolveImage.PublishesOrDrops | internal/mount/mount.go:102-109 | a built image is published where there is none and dropped for the published one otherwise |
| ResolveImage.ObjectsDiffer | internal/mount/mount.go:99-109 | in every run all published objects, and all built ones still to be published or dropped, are different objects |
| ResolveImage.ACallSucceeds | internal/mount/mount.go:71-115 | for any call by tag and any digest some run resolves, publishes and returns an image of it |
| ResolveImage.ResultsStand | internal/mount/mount.go:111-114 | a returned result never changes later in the run |
| ResolveImage.NoDeadlock | internal/mount/mount.go:71-115 | while some call has not returned some caller can step, so no follower waits for a vanished leader |
| ResolveImage.CallsFinish | internal/mount/mount.go:71-115 | a run of n calls has at most 8n steps, and when nobody can step every call has returned |
| FsPath.CheckAllDigits | internal/fspath/parse.go:132-139 | the loop answers whether every character is a decimal digit |
| FsPath.RegistryIff | internal/fspath/parse.go:111-130 | host:port is a registry iff the port is a non-empty number; without a colon iff there is a dot |
| FsPath.TrimExactly | internal/fspath/parse.go:50-50 | trimming takes off exactly the slashes at both ends |
| FsPath.FindRef | internal/fspath/parse.go:56-65 | the scan finds the first reference-bearing segment, the first segment exempt when it looks like a registry |
| FsPath.RefIndex | internal/fspath/parse.go:56-65 | the index is that of a reference-bearing segment with none before it, or -1 and there is none |
| FsPath.ParseRefSegment | internal/fspath/parse.go:71-97 | with the segment rewritten in place the loop-free half of the parser has the grammar's value |
| FsPath.ParsePath | internal/fspath/parse.go:49-98 | the parser as written computes the grammar the lemmas are about |
| FsPath.ParseJoined | internal/fspath/parse.go:49-69 | a path joined from plain segments is parsed into exactly those segments |
| FsPath.ParseIgnoresSlashes | internal/fspath/parse.go:50-53 | slashes around a path change nothing, and slashes alone give no segments and no reference |
| FsPath.ParseWithoutRef | internal/fspath/parse.go:56-69 | a path without a reference-bearing segment gives exactly its segments |
| FsPath.ParseWithRef | internal/fspath/parse.go:56-97 | at the first reference-bearing segment: an empty or unreadable platform suffix is reported first, then an unreadable reference; otherwise the reference without suffix, the platform read with slashes for dashes, and the joined rest |
| GoPath.PathJoinSpelled | internal/fspath/parse.go:94-96 | the joined rest is the names scanned as a relative path, `.` if nothing is left and nothing for no names |
| FsPath.ClassifySpelled | internal/mount/mount.go:198-214 | no reference gives an intermediate segment, a tag a tag segment and a digest a digest segment with the parsed platform, an error is passed on |
| FsPath.WalkIntermediate | internal/mount/mount.go:198-209 | walking segment by segment, every segment before the one Parse picks is intermediate |
| FsPath.WalkAgreesWithParse | internal/mount/mount.go:198-214 | at that segment the walker gives Parse's reference and platform, or its error; descending through the rest gives Parse's in-image path iff path cleaning leaves those names alone |
| FsPath.WalkEndsInImage | internal/mount/mount.go:489-494 | below the reference, descending through names other than `.` and `..` gives exactly Parse's in-image path |
| FsPath.InImageIff | internal/fspath/parse.go:93-96 | the joined and cleaned tail equals the tail spelled out iff it is a lone `.`, or has no `.` and every `..` before all other names |
| FsPath.ClassifyLast | internal/mount/mount.go:198-214 | below intermediate segments a name is a reference iff the grammar says so in that position, and then a tag or digest segment by the kind of reference |
| FsPath.PlatformRoundTrip | internal/fspath/parse.go:104-109 | a printed platform without `-` and `/` in its parts reaches the library in canonical form and, where the library follows the documented grammar on it, parses back to itself |
| FsPath.ParsedPlatformPrintsBack | internal/fspath/parse.go:100-109 | where the library follows the documented `os/arch[/variant]` grammar, every accepted suffix is the printed form of its platform, save for one dash left behind an empty variant; single-part forms are outside that grammar |
| FsPath.SiblingParsesBack | internal/mount/mount.go:291-314 | a sibling name looked up where it is listed gives the tag and platform it was printed for |
| FsPath.SymlinkTargetResolvesIff | internal/mount/mount.go:219-221 | a tag's symlink target resolves to its digest reference, except as first segment with an all-decimal digest, when it is an intermediate directory |
| FsPath.DecimalDigestTaken | internal/mount/mount.go:219-221 | the symlink target of `ubuntu:latest` with 64 decimal digits, looked up at the mount root, is an intermediate directory |
| FsPath.Inode.AddPlatformSiblings | internal/mount/mount.go:291-314 | existing children stay, exactly the platforms other than the current one get a name, the first of equal names wins and points at its digest |
| DiskCache.TotalWithout | internal/cache/cache.go:48-66 | the stored total splits at any file, so walk order does not matter |
| DiskCache.Cache.constructor | internal/cache/cache.go:34-45 | a cache with a cap starts with the exact size on disk |
| DiskCache.Cache.Rescan | internal/cache/cache.go:48-66 | the walk, in any order, sets the size to the sum of the stored sizes |
| DiskCache.Cache.Open | internal/cache/cache.go:75-84 | returns the content, touches only that file's time, keeps the total |
| DiskCache.Cache.Write | internal/cache/cache.go:94-139 | the tracked size stays as far off the stored total as it was, so exact if it was exact; files go only by an oldest-first eviction when the tracked size is over the cap; the cap holds afterwards unless the tracked size is too low; a file newer than all others stays iff it fits by itself; a failed write changes nothing |
| DiskCache.Cache.Walk | internal/cache/cache.go:150-157 | lists every stored file once with its size and time |
| DiskCache.Cache.OldestFirst | internal/cache/cache.go:158-158 | the sorted listing is still complete and ascends by time |
| DiskCache.Cache.Evict | internal/cache/cache.go:144-173 | removes a prefix of an oldest-first listing, stops as soon as the tracked size fits or nothing is left, keeps the tracked size as far off the total as it was |
| DiskCache.EvictedAreOldest | internal/cache/cache.go:141-173 | no evicted file was modified after a surviving one |
| DiskCache.EvictionIsMinimal | internal/cache/cache.go:162-165 | putting back the last file removed would exceed the cap, and it is the newest of the removed |
| DiskCache.NewestStaysIff | internal/cache/cache.go:141-173 | an eviction spares the most recently used file iff it fits the cap by itself |
| DiskCache.EvictionOnlyRemoves | internal/cache/cache.go:162-172 | survivors are unchanged, nothing appears, the rest fits or nothing is left |
| DiskCache.Cache.Size | internal/cache/cache.go:175-181 | the tracked size, which is the stored total when it is exact |
| DiskLru.EvictionIsLru | internal/cache/cache.go:141-173 | with distinct times, oldest-first eviction of the files is eviction from the back of their recency list |
| DiskLru.Replay | internal/cache/cache.go:73-173 | any sequence of opens and writes on an empty cache, at growing times and with one size per key, leaves the files of the longest most-recently-used-first prefix that fits the cap |
| Transport.FramingRoundTripsIff | internal/oci/transport.go:119-141 | reading back what was framed gives content type and body, for every body, iff the content type has no blank line and no trailing newline |
| Transport.UnframeIff | internal/oci/transport.go:119-128 | a stored file reads as a content type and a body iff it is these two around its first blank line, and is unreadable iff it has none |
| Transport.PlainIsFramable | internal/oci/transport.go:130-141 | content types without newlines meet that condition |
| Transport.IndexOf | internal/oci/transport.go:120-120 | the first occurrence, or -1 and there is none |
| Transport.DigestPathIff | internal/oci/transport.go:29-32 | the digest paths are exactly `/v2/<name>/manifests` or `/blobs` followed by `/sha256:` and 64 hex digits, with a non-empty name without newlines |
| Transport.CacheableIffMarked | internal/oci/transport.go:38-50 | a content type is cacheable iff it contains one of the four marks, in any case |
| Transport.CachingTransport.LoadCached | internal/oci/transport.go:109-128 | gives the framed entry of a stored readable file, touches only its time |
| Transport.CachingTransport.RoundTrip | internal/oci/transport.go:52-82 | the answer has the origin's status, content type and body whatever the cache holds and however far its tracked size is off; requests for tags, ranges and other verbs go to the network and store nothing; the network is asked iff no readable entry is stored, its uncacheable answers pass unchanged and a body that cannot be read is an error that stores nothing; no other stored file changes; a stored answer newer than the rest is kept iff it fits the tracked cap; the cache stays honest |
| Transport.CachingTransport.Run | internal/oci/transport.go:52-82 | over any run with files deleted from outside, failed stores and other writers every answer is transparent, an error only where the network or reading its answer failed, and only digest paths asked for by a plain GET are newly stored; the tracked size never falls against the stored total, and stays exact without such deletions |
| Transport.ToResponse | internal/oci/transport.go:92-107 | the length header denotes the body's length |
| Decimal.DigitsDenote | internal/oci/transport.go:143-157 | the digits printed denote the number, are decimal and have no leading zero |
| Decimal.Itoa | internal/oci/transport.go:143-157 | the backward loop fits its 20-byte buffer for every 64-bit length and prints the decimal notation, nothing for a negative number |

## Left out

- Layer access (`internal/layer/layer.go`: gsip, tarfs, ranger, TOC encoding): a layer is a list of file names with headers; headers keep type, name, link name, mode and size.
- MergeTheorems.MergeComputesOverlay: assumes names that are `.` or relative clean paths, distinct per layer, and whiteouts that name a real component; a bare `.wh.` marker can delete the root entry and is excluded.
- OverlayTheorems.FoldedIsOverlay: where an upper layer replaces a directory by a non-directory, the code keeps the lower descendants, which the image format does not; the overlay stated here keeps them too, and no conformance is claimed for that case.
- The metadata view of `internal/mount/meta.go` is not part of this model: a walk below `@@meta` is only known to be there.
- ChunkCache.LayerView.ReadAt: upstream serves exactly the promised size or fails; readers that return fewer bytes are not modelled, and the list of upstream reads names the successful ones.
- ChunkCache.LayerView.ReadChunk: offsets and sizes are unbounded integers, so 64-bit overflow of offset plus length is not modelled.
- ResolveImage.CallersAgree: mutex sections are atomic steps; singleflight panics, `Forget` and context cancellation are not modelled; `resolveTagDigest` has no shared map and is left out.
- FsPath.ParsePath: `name.ParseReference` and `v1.ParsePlatform` are parameters; an error says which text was rejected, not why.
- FsPath.ParsedPlatformPrintsBack: speaks of suffixes on which the library follows the `os/arch[/variant]` grammar of the comment at `internal/fspath/parse.go:100-103`; a library may also accept others, such as `~linux`.
- FsPath.SiblingParsesBack: assumes of the library that the tag's own `base:tag` segment parses to the tag and that the platform's canonical form parses by the documented grammar, and that no printed part contains a separator of the grammar.
- FsPath.PlatformRoundTrip: assumes that the library reads the canonical `os/arch[/variant]` form by its documented grammar.
- FsPath.SymlinkTargetResolvesIff: assumes of the reference parser that the digest's spelling parses to the digest reference.
- DiskCache.Cache.Write: sequential only, because the old size is read outside the lock; file-system errors, temporary files and pruning of empty directories are not modelled, and a failing write is one that stores nothing.
- Transport.CachingTransport.RoundTrip: keys are compared as strings, so two spellings that `filepath.Join` would map to one file are distinct; lower-casing is ASCII; a response is its status, content type, length and body.
- Sorting.SortSorted: `sort.Slice` and `sort.Strings` are one insertion sort; for distinct names every sort gives the same list (`SortedLayerUnique`), for files of equal time one order is fixed.
- Strings are sequences of characters, with no encoding; Go compares bytes.
- FUSE plumbing, inode creation, time-outs and attribute filling of `internal/mount/mount.go`: they add only easy members.
- Registry transport, authentication and the platform choice in `internal/oci/oci.go`: outside the modelled protocols.
- Size parsing and cache-directory choice in `cmd/ocifuse/main.go`: floating point and environment lookups.
