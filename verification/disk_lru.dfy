/**
 Whole runs of internal/cache/cache.go: with times that only grow and one size per key, eviction
 by modification time is least-recently-used eviction, so the recency list of module Lru
 describes the files.
 */
module DiskLru {
  import opened Lru
  import opened Wrappers
  import DiskCache

  type Bytes = DiskCache.Bytes
  type Files = DiskCache.Files

  /** The file sizes a run uses, by key. */
  type KeySizes = string -> nat

  function K(key: string): ChunkKey {
    ChunkKey(key, 0)
  }

  function ListSizes(size: KeySizes): Sizes {
    (k: ChunkKey) => size(k.layer)
  }

  /** An open of a cached value, or a write of some content. */
  datatype DiskOp = Touch(key: string) | Store(key: string, content: Bytes)

  function ListOps(ops: seq<DiskOp>): seq<Op> {
    seq(|ops|, i requires 0 <= i < |ops| =>
      match ops[i] case Touch(k) => Op.Get(K(k)) case Store(k, _) => Op.Put(K(k)))
  }

  /** list has the stored files' keys, most recently used first. */
  ghost predicate Lists(files: Files, list: seq<ChunkKey>, size: KeySizes) {
    && Unique(list)
    && (forall k | k in list :: k == K(k.layer) && k.layer in files)
    && (forall key | key in files :: K(key) in list && |files[key].content| == size(key))
    && (forall i, j | 0 <= i < j < |list| :: Time(files, list[j]) < Time(files, list[i]))
  }

  function Time(files: Files, k: ChunkKey): int {
    if k.layer in files then files[k.layer].mtime else 0
  }

  /** No file has been used at or after now. */
  ghost predicate AllBefore(files: Files, now: int) {
    forall key | key in files :: files[key].mtime < now
  }

  lemma {:induction false} TotalOfList(files: Files, list: seq<ChunkKey>, size: KeySizes)
    requires Lists(files, list, size)
    ensures DiskCache.Total(files) == Total(ListSizes(size), list)
  {
    hide Lists, DiskCache.Total;
    if list == [] {
      EmptyListed(files, size);
      DiskCache.TotalNone();
    } else {
      var last := list[|list| - 1];
      LastListed(files, list, size);
      DiskCache.TotalWithout(files, last.layer);
      WithoutLast(files, list, size);
      TotalOfList(files - {last.layer}, list[..|list| - 1], size);
    }
  }

  lemma EmptyListed(files: Files, size: KeySizes)
    requires Lists(files, [], size)
    ensures files == map[]
  {
  }

  lemma LastListed(files: Files, list: seq<ChunkKey>, size: KeySizes)
    requires Lists(files, list, size) && list != []
    ensures var last := list[|list| - 1];
            last.layer in files && |files[last.layer].content| == size(last.layer)
  {
    assert list[|list| - 1] in list;
  }

  lemma WithoutLast(files: Files, list: seq<ChunkKey>, size: KeySizes)
    requires Lists(files, list, size) && list != []
    ensures Lists(files - {list[|list| - 1].layer}, list[..|list| - 1], size)
  {
    var n := |list| - 1;
    var init, last := list[..n], list[n];
    var left := files - {last.layer};
    assert list == init + [last];
    assert last == K(last.layer) && last !in init;
    forall k | k in init ensures k == K(k.layer) && k.layer in left && Time(left, k) == Time(files, k) {
      assert k in list;
    }
    forall key | key in left ensures K(key) in init && left[key] == files[key] {
      assert K(key) in list;
    }
    forall i, j | 0 <= i < j < n ensures Time(left, init[j]) < Time(left, init[i]) {
      assert Time(files, list[j]) < Time(files, list[i]);
      assert init[i] in init && init[j] in init;
    }
  }

  lemma ListedKey(files: Files, list: seq<ChunkKey>, size: KeySizes, k: ChunkKey)
    requires Lists(files, list, size) && k in list
    ensures k == K(k.layer) && k.layer in files
  {
  }

  lemma ListedOrder(files: Files, list: seq<ChunkKey>, size: KeySizes, i: nat, j: nat)
    requires Lists(files, list, size) && i < j < |list|
    ensures Time(files, list[j]) < Time(files, list[i])
  {
  }

  lemma UsedNowTimes(files: Files, list: seq<ChunkKey>, size: KeySizes, key: string, f: DiskCache.File, i: nat, j: nat)
    requires Lists(files, list, size) && AllBefore(files, f.mtime)
    requires i < j < |ToFront(list, K(key))|
    ensures var now, front := files[key := f], ToFront(list, K(key));
            Time(now, front[j]) < Time(now, front[i])
  {
    hide Lists, ToFront, Remove, Unique;
    var k, front := K(key), ToFront(list, K(key));
    ListedUnique(files, list, size);
    FrontMembers(list, k);
    ToFrontOrder(list, k, i, j);
    assert front[j] in front;
    ListedKey(files, list, size, front[j]);
    if i > 0 {
      var a, b :| 0 <= a < b < |list| && list[a] == front[i] && list[b] == front[j];
      ListedKey(files, list, size, list[a]);
      ListedOrder(files, list, size, a, b);
    }
  }

  lemma FrontMembers(list: seq<ChunkKey>, k: ChunkKey)
    requires Unique(list)
    ensures Unique(ToFront(list, k)) && forall x :: x in ToFront(list, k) <==> x in list || x == k
  {
    RemoveFacts(list, k);
  }

  /** Using a listed file now moves it to the front. */
  lemma UsedNow(files: Files, list: seq<ChunkKey>, size: KeySizes, key: string, f: DiskCache.File)
    requires Lists(files, list, size) && AllBefore(files, f.mtime) && |f.content| == size(key)
    ensures Lists(files[key := f], ToFront(list, K(key)), size)
  {
    hide ToFront, Remove, Unique, Time;
    var k, now, front := K(key), files[key := f], ToFront(list, K(key));
    ListedUnique(files, list, size);
    FrontMembers(list, k);
    forall i, j | 0 <= i < j < |front| ensures Time(now, front[j]) < Time(now, front[i]) {
      UsedNowTimes(files, list, size, key, f, i, j);
    }
  }

  lemma FewerListed(files: Files, list: seq<ChunkKey>, size: KeySizes, left: Files, m: nat)
    requires Lists(files, list, size) && m <= |list|
    requires forall key | key in left :: key in files && left[key] == files[key]
    requires forall i | 0 <= i < |list| :: list[i].layer in left <==> i < m
    ensures Lists(left, list[..m], size)
  {
    forall key | key in left ensures K(key) in list[..m] {
      var i :| 0 <= i < |list| && list[i] == K(key);
      assert list[..m][i] == K(key);
    }
    forall i | 0 <= i < m ensures list[i] == K(list[i].layer) && Time(left, list[i]) == Time(files, list[i]) {
      assert list[i] in list;
    }
  }

  /** How many keys of a list are left, when what is gone is older than what is left. */
  lemma {:induction false} Cut(list: seq<ChunkKey>, left: Files) returns (m: nat)
    requires forall i, j | 0 <= i < j < |list| && list[j].layer in left :: list[i].layer in left
    ensures m <= |list| && forall i | 0 <= i < |list| :: list[i].layer in left <==> i < m
  {
    if list == [] {
      m := 0;
    } else if list[|list| - 1].layer in left {
      m := |list|;
    } else {
      m := Cut(list[..|list| - 1], left);
    }
  }

  lemma OlderGoFirst(cap: int, files: Files, left: Files, list: seq<ChunkKey>, size: KeySizes, i: nat, j: nat)
    requires Lists(files, list, size) && DiskCache.EvictsTo(cap, files, left)
    requires i < j < |list| && list[j].layer in left
    ensures list[i].layer in left
  {
    hide DiskCache.EvictsTo;
    assert list[i] in list && list[j] in list;
    assert Time(files, list[j]) < Time(files, list[i]);
    if list[i].layer !in left {
      DiskCache.EvictedAreOldest(cap, files, left, list[i].layer, list[j].layer);
      assert false;
    }
  }

  /** Oldest-first eviction of the files is eviction from the back of the list. */
  lemma EvictionIsLru(cap: int, files: Files, left: Files, list: seq<ChunkKey>, size: KeySizes)
    requires cap > 0 && Lists(files, list, size) && DiskCache.EvictsTo(cap, files, left)
    ensures Lists(left, Evict(cap, ListSizes(size), list), size)
  {
    hide DiskCache.EvictsTo, Evict, Lists, LongestFit, DiskCache.Total, Total;
    forall i, j | 0 <= i < j < |list| && list[j].layer in left ensures list[i].layer in left {
      OlderGoFirst(cap, files, left, list, size, i, j);
    }
    var m := Cut(list, left);
    DiskCache.EvictionOnlyRemoves(cap, files, left);
    FewerListed(files, list, size, left, m);
    TotalOfList(left, list[..m], size);
    DiskCache.TotalNone();
    if m < |list| {
      NextDoesNotFit(cap, files, left, list, size, m);
    }
    LongestFitIs(cap, ListSizes(size), list, m);
    EvictIsLongestFit(cap, ListSizes(size), list);
    LongestFitUnique(cap, ListSizes(size), list, list[..m], Evict(cap, ListSizes(size), list));
  }

  lemma LongestFitIs(cap: int, size: Sizes, list: seq<ChunkKey>, m: nat)
    requires cap > 0 && m <= |list| && Total(size, list[..m]) <= cap
    requires m < |list| ==> Total(size, list[..m + 1]) > cap
    ensures LongestFit(cap, size, list, list[..m])
  {
  }

  lemma NextDoesNotFit(cap: int, files: Files, left: Files, list: seq<ChunkKey>, size: KeySizes, m: nat)
    requires Lists(files, list, size) && DiskCache.EvictsTo(cap, files, left) && m < |list|
    requires forall i | 0 <= i < |list| :: list[i].layer in left <==> i < m
    requires DiskCache.Total(left) == Total(ListSizes(size), list[..m])
    ensures Total(ListSizes(size), list[..m + 1]) > cap
  {
    hide DiskCache.EvictsTo;
    var next := list[m];
    assert next in list && next.layer in files && next.layer !in left;
    var last := DiskCache.EvictionIsMinimal(cap, files, left);
    var i :| 0 <= i < |list| && list[i] == K(last);
    assert m < i ==> Time(files, list[i]) < Time(files, next);
    assert i == m;
    assert list[..m + 1][..m] == list[..m];
  }

  /** A write of a fresh or stored key, with the times and sizes of the run. */
  lemma WriteIsPut(cap: int, files: Files, left: Files, list: seq<ChunkKey>, size: KeySizes, key: string,
                   f: DiskCache.File, drift: int)
    requires Lists(files, list, size) && AllBefore(files, f.mtime) && |f.content| == size(key)
    requires cap > 0 ==> drift == 0 && DiskCache.Total(files) <= cap
    requires DiskCache.Stored(cap, drift, files, left, key, f)
    ensures Lists(left, AfterPut(cap, ListSizes(size), list, K(key)), size)
  {
    hide DiskCache.EvictsTo, Lists, Evict, DiskCache.Total, Total;
    var stored, sizes, k := files[key := f], ListSizes(size), K(key);
    UsedNow(files, list, size, key, f);
    TotalOfList(files, list, size);
    TotalOfList(stored, ToFront(list, k), size);
    ListedUnique(files, list, size);
    RemoveFacts(list, k);
    if k in list {
      TotalToFront(sizes, list, k);
    } else {
      assert ToFront(list, k) == [k] + list;
      if cap > 0 && DiskCache.Total(stored) <= cap {
        EvictDone(cap, sizes, [k] + list);
      } else if cap > 0 {
        EvictionIsLru(cap, stored, left, [k] + list, size);
      }
    }
  }

  lemma ListedUnique(files: Files, list: seq<ChunkKey>, size: KeySizes)
    requires Lists(files, list, size)
    ensures Unique(list)
    ensures forall key :: key in files <==> K(key) in list
  {
  }

  lemma NothingListed(size: KeySizes)
    ensures Lists(map[], [], size)
  {
  }

  ghost predicate Growing(times: nat -> int) {
    forall i, j | i < j :: times(i) < times(j)
  }

  ghost predicate UsesSizes(ops: seq<DiskOp>, size: KeySizes) {
    forall i | 0 <= i < |ops| && ops[i].Store? :: |ops[i].content| == size(ops[i].key)
  }

  /** The state of a run: the list describes the files, all used in the past, and the cap holds. */
  ghost predicate InStep(cap: int, files: Files, list: seq<ChunkKey>, size: KeySizes, now: int) {
    && Lists(files, list, size) && AllBefore(files, now)
    && (cap > 0 ==> DiskCache.Total(files) <= cap)
  }

  /** One operation, on the disk and on the list. */
  method Do(cache: DiskCache.Cache, op: DiskOp, now: int, next: int, ghost list: seq<ChunkKey>, ghost size: KeySizes)
    requires cache.Accounted() && InStep(cache.cap, cache.files, list, size, now) && now < next
    requires op.Store? ==> |op.content| == size(op.key)
    modifies cache
    ensures cache.Accounted()
    ensures InStep(cache.cap, cache.files, Perform(cache.cap, ListSizes(size), list, ListOps([op])[0]), size, next)
  {
    hide Lists, DiskCache.Total, DiskCache.Stored, AfterPut, ToFront, DiskCache.Newest;
    ListedUnique(cache.files, list, size);
    match op
    case Touch(key) =>
      ghost var was := cache.files;
      var content := cache.Open(key, now);
      if key in was {
        Sized(was, list, size, key);
        UsedNow(was, list, size, key, DiskCache.File(was[key].content, now));
      }
    case Store(key, content) =>
      ghost var was := cache.files;
      cache.Write(key, Some(content), now);
      WriteIsPut(cache.cap, was, cache.files, list, size, key, DiskCache.File(content, now), cache.Drift());
      StoredTimes(cache.cap, cache.Drift(), was, cache.files, key, DiskCache.File(content, now));
  }

  lemma Sized(files: Files, list: seq<ChunkKey>, size: KeySizes, key: string)
    requires Lists(files, list, size) && key in files
    ensures |files[key].content| == size(key)
  {
  }

  lemma StoredTimes(cap: int, drift: int, was: Files, now: Files, key: string, f: DiskCache.File)
    requires DiskCache.Stored(cap, drift, was, now, key, f)
    ensures forall k | k in now :: now[k] == f || (k in was && now[k] == was[k])
  {
    if now != was[key := f] {
      DiskCache.EvictionOnlyRemoves(cap - drift, was[key := f], now);
    }
  }

  /**
   Any sequence of opens and writes on an empty cache, at growing times and with one size per key:
   the files are those of the longest most-recently-used-first prefix that fits the cap.
   */
  method Replay(cache: DiskCache.Cache, ops: seq<DiskOp>, times: nat -> int, ghost size: KeySizes)
    requires cache.Accounted() && cache.files == map[] && Growing(times) && UsesSizes(ops, size)
    modifies cache
    ensures cache.Accounted()
    ensures var list := Run(cache.cap, ListSizes(size), [], ListOps(ops));
            && Lists(cache.files, list, size)
            && LongestFit(cache.cap, ListSizes(size), Recency(Uses(cache.cap, ListSizes(size), ListOps(ops))), list)
  {
    hide InStep, Lists, Run, Perform, LongestFit;
    StartInStep(cache.cap, size, times(0));
    ghost var list: seq<ChunkKey> := [];
    RunNothing(cache.cap, ListSizes(size), []);
    assert ListOps(ops[..0]) == [];
    for i := 0 to |ops|
      invariant cache.Accounted()
      invariant list == Run(cache.cap, ListSizes(size), [], ListOps(ops[..i]))
      invariant InStep(cache.cap, cache.files, list, size, times(i))
    {
      assert ListOps(ops[..i + 1]) == ListOps(ops[..i]) + [ListOps([ops[i]])[0]];
      RunMore(cache.cap, ListSizes(size), [], ListOps(ops[..i]), ListOps([ops[i]])[0]);
      Do(cache, ops[i], times(i), times(i + 1), list, size);
      list := Perform(cache.cap, ListSizes(size), list, ListOps([ops[i]])[0]);
    }
    assert ops[..|ops|] == ops;
    InStepLists(cache.cap, cache.files, list, size, times(|ops|));
    ClosedForm(cache.cap, ListSizes(size), ListOps(ops));
  }

  lemma StartInStep(cap: int, size: KeySizes, now: int)
    ensures InStep(cap, map[], [], size, now)
  {
    NothingListed(size);
    DiskCache.TotalNone();
  }

  lemma InStepLists(cap: int, files: Files, list: seq<ChunkKey>, size: KeySizes, now: int)
    requires InStep(cap, files, list, size, now)
    ensures Lists(files, list, size)
  {
  }
}
