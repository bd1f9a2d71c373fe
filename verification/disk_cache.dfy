/** internal/cache/cache.go: the disk store, its size accounting and its eviction by modification time. */
module DiskCache {
  import opened Wrappers
  import opened Sorting

  type Bytes = seq<char>

  /** A stored file; mtime is its modification time. */
  datatype File = File(content: Bytes, mtime: int)

  type Files = map<string, File>

  /** One line of evict's directory walk. */
  datatype Listed = Listed(path: string, size: nat, mtime: int)

  predicate Before(a: Listed, b: Listed) {
    a.mtime < b.mtime
  }

  // ---- total size ----

  ghost function Total(files: Files): nat {
    if files == map[] then 0
    else
      var k :| k in files;
      |files[k].content| + Total(files - {k})
  }

  /** Any one file can be split off the total. */
  lemma {:induction false} TotalWithout(files: Files, k: string)
    requires k in files
    ensures Total(files) == |files[k].content| + Total(files - {k})
    decreases |files|
  {
    var j :| j in files && Total(files) == |files[j].content| + Total(files - {j});
    if j != k {
      TotalWithout(files - {j}, k);
      TotalWithout(files - {k}, j);
      assert files - {j} - {k} == files - {k} - {j};
    }
  }

  lemma {:induction false} TotalMinus(files: Files, keys: set<string>)
    ensures Total(files - keys) <= Total(files)
    decreases |keys|
  {
    if keys == {} {
      assert files - keys == files;
    } else {
      var k :| k in keys;
      TotalMinus(files, keys - {k});
      var left := files - (keys - {k});
      assert left - {k} == files - keys;
      if k in left {
        TotalWithout(left, k);
      } else {
        assert left - {k} == left;
      }
    }
  }

  lemma TotalWith(files: Files, k: string, f: File)
    ensures Total(files[k := f]) + (if k in files then |files[k].content| else 0) == Total(files) + |f.content|
  {
    var g := files[k := f];
    TotalWithout(g, k);
    assert g - {k} == files - {k};
    if k in files {
      TotalWithout(files, k);
    } else {
      assert files - {k} == files;
    }
  }

  // ---- the walk and the order of eviction ----

  /** A listing names every stored file once, with its size and time. */
  ghost predicate ListsAll(l: seq<Listed>, files: Files) {
    && DistinctPaths(l)
    && (forall i | 0 <= i < |l| :: l[i].path in files && l[i].size == |files[l[i].path].content| && l[i].mtime == files[l[i].path].mtime)
    && (forall k | k in files :: exists i :: 0 <= i < |l| && l[i].path == k)
  }

  /** The files left once the first n of a listing are removed. */
  function Without(files: Files, l: seq<Listed>, n: nat): Files
    requires n <= |l|
  {
    map k | k in files && !(exists i :: 0 <= i < n && l[i].path == k) :: files[k]
  }

  /**
   The outcome of an eviction: a prefix of an oldest-first listing is gone, nothing else; the
   rest fits, or nothing is left; and the removal stopped as soon as it did.
   */
  ghost predicate EvictsTo(cap: int, was: Files, now: Files) {
    exists l: seq<Listed>, n: nat :: EvictsBy(cap, was, now, l, n)
  }

  ghost predicate EvictsBy(cap: int, was: Files, now: Files, l: seq<Listed>, n: nat) {
    && n <= |l| && ListsAll(l, was) && SortedBy(Before, l)
    && now == Without(was, l, n)
    && (Total(now) <= cap || n == |l|)
    && (n > 0 ==> Total(Without(was, l, n - 1)) > cap)
  }

  lemma BeforeStrictWeak()
    ensures StrictWeak(Before)
  {
  }

  ghost predicate DistinctPaths(l: seq<Listed>) {
    forall i, j | 0 <= i < j < |l| :: l[i].path != l[j].path
  }

  lemma PermutedPaths(l: seq<Listed>, s: seq<Listed>)
    requires DistinctPaths(l) && multiset(l) == multiset(s)
    ensures DistinctPaths(s)
  {
    forall i, j | 0 <= i < j < |s| ensures s[i].path != s[j].path {
      assert s == s[..i] + [s[i]] + s[i + 1..j] + [s[j]] + s[j + 1..];
      assert multiset{s[i], s[j]} <= multiset(s);
      PairInPermutation(l, s[i], s[j]);
    }
  }

  lemma PermutedListing(l: seq<Listed>, s: seq<Listed>, files: Files)
    requires ListsAll(l, files) && multiset(l) == multiset(s)
    ensures ListsAll(s, files)
  {
    hide DistinctPaths;
    SamePermMembers(l, s);
    PermutedPaths(l, s);
    forall i | 0 <= i < |s|
      ensures s[i].path in files && s[i].size == |files[s[i].path].content| && s[i].mtime == files[s[i].path].mtime
    {
      assert s[i] in l;
    }
    forall k | k in files ensures exists i :: 0 <= i < |s| && s[i].path == k {
      var i :| 0 <= i < |l| && l[i].path == k;
      assert l[i] in s;
    }
  }

  lemma WithoutOneMore(files: Files, l: seq<Listed>, n: nat)
    requires ListsAll(l, files) && n < |l|
    ensures l[n].path in files && l[n].path in Without(files, l, n)
    ensures Without(files, l, n)[l[n].path] == files[l[n].path] && l[n].size == |files[l[n].path].content|
    ensures Without(files, l, n + 1) == Without(files, l, n) - {l[n].path}
  {
  }

  lemma WithoutNone(files: Files, l: seq<Listed>)
    ensures Without(files, l, 0) == files
  {
  }

  lemma WithoutAll(files: Files, l: seq<Listed>)
    requires ListsAll(l, files)
    ensures Without(files, l, |l|) == map[] && Total(Without(files, l, |l|)) == 0
  {
  }

  /** Every other file was last used before now. */
  ghost predicate Newest(files: Files, key: string, now: int) {
    forall k | k in files && k != key :: files[k].mtime < now
  }

  /** The most recently used file survives an eviction exactly when it fits the cap by itself. */
  lemma NewestStaysIff(cap: int, was: Files, now: Files, key: string)
    requires EvictsTo(cap, was, now) && key in was && Newest(was, key, was[key].mtime)
    ensures key in now <==> |was[key].content| <= cap
  {
    hide Total, SortedBy, ListsAll, Newest;
    var l: seq<Listed>, n: nat :| EvictsBy(cap, was, now, l, n);
    if key in now {
      EvictionOnlyRemoves(cap, was, now);
      TotalWithout(now, key);
    } else {
      var i :| 0 <= i < n && l[i].path == key;
      NewestIsLast(was, l, key, i);
      OnlyTheLast(was, l, key);
      assert n == |l|;
    }
  }

  lemma NewestIsLast(was: Files, l: seq<Listed>, key: string, i: nat)
    requires ListsAll(l, was) && SortedBy(Before, l) && i < |l| && l[i].path == key
    requires Newest(was, key, was[key].mtime)
    ensures i == |l| - 1
  {
    var last := l[|l| - 1];
    assert i < |l| - 1 ==> !Before(last, l[i]);
    assert last.path != key ==> last.mtime < was[key].mtime;
  }

  lemma OnlyTheLast(was: Files, l: seq<Listed>, key: string)
    requires ListsAll(l, was) && l != [] && l[|l| - 1].path == key
    ensures Total(Without(was, l, |l| - 1)) == |was[key].content|
  {
    var left := Without(was, l, |l| - 1);
    WithoutOneMore(was, l, |l| - 1);
    WithoutAll(was, l);
    TotalWithout(left, key);
  }

  /** now is was with the file stored, and evicted from if the size tracked, drift off the total, is over the cap. */
  ghost predicate Stored(cap: int, drift: int, was: Files, now: Files, key: string, f: File) {
    var stored := was[key := f];
    if cap <= 0 || Total(stored) + drift <= cap then now == stored else EvictsTo(cap - drift, stored, now)
  }

  /** What a write leaves fits, unless the tracked size is too low, and keeps the newest file if it can. */
  lemma WriteSettles(cap: int, drift: int, was: Files, now: Files, key: string, f: File)
    requires Stored(cap, drift, was, now, key, f)
    ensures cap > 0 && drift >= 0 ==> Total(now) <= cap
    ensures Newest(was, key, f.mtime) ==> (key in now <==> cap <= 0 || |f.content| + drift <= cap)
  {
    hide EvictsTo, Total;
    var stored := was[key := f];
    TotalWithout(stored, key);
    if cap > 0 && Total(stored) + drift > cap {
      EvictionOnlyRemoves(cap - drift, stored, now);
      TotalNone();
      if Newest(was, key, f.mtime) {
        NewestStaysIff(cap - drift, stored, now, key);
      }
    }
  }

  lemma TotalNone()
    ensures Total(map[]) == 0
  {
  }

  class Cache {
    const cap: int
    var size: int
    var files: Files

    /** How far the tracked size is off the sum of the stored sizes: files may vanish behind its back. */
    ghost function Drift(): int
      reads this
    {
      size - Total(files)
    }

    /** The tracked size is the sum of the stored sizes. */
    ghost predicate Accounted()
      reads this
    {
      cap > 0 ==> Drift() == 0
    }

    /** New: with a cap, the size is seeded from what is on disk. */
    constructor (maxBytes: int, onDisk: Files)
      ensures cap == maxBytes && files == onDisk && Accounted()
      ensures maxBytes <= 0 ==> size == 0
    {
      cap := maxBytes;
      files := onDisk;
      size := 0;
      new;
      if maxBytes > 0 {
        Rescan();
      }
    }

    method Rescan()
      modifies this`size
      ensures size == Total(files)
    {
      var total := 0;
      var todo := files;
      while todo != map[]
        invariant todo.Keys <= files.Keys && (forall k | k in todo :: todo[k] == files[k])
        invariant total + Total(todo) == Total(files)
        decreases |todo|
      {
        var k :| k in todo;
        TotalWithout(todo, k);
        total := total + |todo[k].content|;
        todo := todo - {k};
      }
      size := total;
    }

    /** Open: the content, and a touch of the modification time.  None is os.ErrNotExist. */
    method Open(key: string, now: int) returns (content: Option<Bytes>)
      modifies this`files
      ensures key !in old(files) ==> content == None && files == old(files)
      ensures key in old(files) ==>
                content == Some(old(files)[key].content) && files == old(files)[key := File(old(files)[key].content, now)]
      ensures Total(files) == Total(old(files))
    {
      if key !in files {
        return None;
      }
      TotalWith(files, key, File(files[key].content, now));
      content := Some(files[key].content);
      files := files[key := File(files[key].content, now)];
    }

    /**
     Write: output is what the callback produced, None when it (or the file system) failed.  The
     file replaces any old one; with a cap, eviction runs when the tracked size is over it, and
     brings the tracked size, however far off, under the cap.
     */
    method Write(key: string, output: Option<Bytes>, now: int)
      modifies this
      ensures old(Accounted()) ==> Accounted()
      ensures output == None ==> files == old(files) && size == old(size)
      ensures if cap > 0 then Drift() == old(Drift()) else size == old(size)
      ensures output.Some? ==> Stored(cap, Drift(), old(files), files, key, File(output.value, now))
      ensures output.Some? && cap > 0 && Drift() >= 0 ==> Total(files) <= cap
      ensures output.Some? && Newest(old(files), key, now) ==>
                (key in files <==> cap <= 0 || |output.value| + Drift() <= cap)
    {
      hide Total, EvictsTo, Newest;
      var oldSize := 0;
      if key in files {
        oldSize := |files[key].content|;
      }
      if output == None {
        return;
      }
      TotalWith(files, key, File(output.value, now));
      files := files[key := File(output.value, now)];
      if cap > 0 {
        var newSize := |output.value|;
        size := size + newSize - oldSize;
        var over := size > cap;
        if over {
          Evict();
        }
      }
      WriteSettles(cap, Drift(), old(files), files, key, File(output.value, now));
    }

    /** The directory walk of evict, in some order. */
    method Walk() returns (entries: seq<Listed>)
      ensures ListsAll(entries, files)
    {
      entries := [];
      var todo := files.Keys;
      while todo != {}
        invariant todo <= files.Keys
        invariant forall i, j | 0 <= i < j < |entries| :: entries[i].path != entries[j].path
        invariant forall i | 0 <= i < |entries| ::
                    && entries[i].path in files && entries[i].path !in todo
                    && entries[i].size == |files[entries[i].path].content| && entries[i].mtime == files[entries[i].path].mtime
        invariant forall k | k in files && k !in todo :: exists i :: 0 <= i < |entries| && entries[i].path == k
        decreases |todo|
      {
        var k :| k in todo;
        ghost var before := entries;
        entries := entries + [Listed(k, |files[k].content|, files[k].mtime)];
        todo := todo - {k};
        forall x | x in files && x !in todo ensures exists i :: 0 <= i < |entries| && entries[i].path == x {
          if x == k {
            assert entries[|before|].path == x;
          } else {
            var i :| 0 <= i < |before| && before[i].path == x;
            assert entries[i].path == x;
          }
        }
      }
    }

    /** evict's sort.Slice. */
    method OldestFirst(entries: seq<Listed>) returns (sorted: seq<Listed>)
      requires ListsAll(entries, files)
      ensures ListsAll(sorted, files) && SortedBy(Before, sorted)
    {
      hide ListsAll;
      sorted := Sort(entries, Before);
      BeforeStrictWeak();
      SortSorted(entries, Before);
      PermutedListing(entries, sorted, files);
    }

    /** evict: oldest first until the tracked size is within the cap, or no file is left. */
    method Evict()
      requires cap > 0
      modifies this
      ensures Drift() == old(Drift()) && EvictsTo(cap - Drift(), old(files), files)
    {
      hide ListsAll, SortedBy, Without, Total;
      var entries := Walk();
      var sorted := OldestFirst(entries);
      WithoutNone(files, sorted);
      ghost var drift := Drift();
      var i := 0;
      while i < |sorted| && size > cap
        invariant 0 <= i <= |sorted|
        invariant files == Without(old(files), sorted, i) && Drift() == drift
        invariant i > 0 ==> Total(Without(old(files), sorted, i - 1)) > cap - drift
      {
        WithoutOneMore(old(files), sorted, i);
        TotalWithout(files, sorted[i].path);
        files := files - {sorted[i].path};
        size := size - sorted[i].size;
        i := i + 1;
      }
      assert EvictsBy(cap - drift, old(files), files, sorted, i);
    }

    /** Files are deleted from outside; the tracked size does not notice. */
    method Vanish(keys: set<string>)
      modifies this`files
      ensures files == old(files) - keys
      ensures Drift() >= old(Drift())
    {
      TotalMinus(files, keys);
      files := files - keys;
    }

    method Size() returns (n: int)
      ensures n == size && (Accounted() && cap > 0 ==> n == Total(files))
    {
      n := size;
    }
  }

  /** Eviction is by age: no file that went was modified after one that stayed. */
  lemma EvictedAreOldest(cap: int, was: Files, now: Files, gone: string, kept: string)
    requires EvictsTo(cap, was, now) && gone in was && gone !in now && kept in now
    ensures kept in was && now[kept] == was[kept] && was[gone].mtime <= was[kept].mtime
  {
    var l: seq<Listed>, n: nat :| EvictsBy(cap, was, now, l, n);
    var i :| 0 <= i < n && l[i].path == gone;
    var j :| 0 <= j < |l| && l[j].path == kept;
    assert !Before(l[j], l[i]);
  }

  /** Eviction is minimal: what is left plus one of the removed files no longer fits. */
  lemma EvictionIsMinimal(cap: int, was: Files, now: Files) returns (last: string)
    requires EvictsTo(cap, was, now) && now != was
    ensures last in was && last !in now
    ensures Total(now) + |was[last].content| > cap
    ensures forall k | k in was && k !in now :: was[k].mtime <= was[last].mtime
  {
    hide Total, Without, ListsAll, SortedBy;
    var l: seq<Listed>, n: nat :| EvictsBy(cap, was, now, l, n);
    WithoutNone(was, l);
    last := l[n - 1].path;
    WithoutOneMore(was, l, n - 1);
    TotalWithout(Without(was, l, n - 1), last);
    forall k | k in was && k !in now ensures was[k].mtime <= was[last].mtime {
      RemovedIsOlder(was, l, n, k);
    }
  }

  lemma RemovedIsOlder(was: Files, l: seq<Listed>, n: nat, k: string)
    requires ListsAll(l, was) && SortedBy(Before, l) && 0 < n <= |l|
    requires k in was && k !in Without(was, l, n)
    ensures was[k].mtime <= was[l[n - 1].path].mtime
  {
    var i :| 0 <= i < n && l[i].path == k;
    if i < n - 1 {
      assert !Before(l[n - 1], l[i]);
    }
  }

  /** Nothing survives an eviction changed, nothing appears, and what is left fits. */
  lemma EvictionOnlyRemoves(cap: int, was: Files, now: Files)
    requires EvictsTo(cap, was, now)
    ensures forall k | k in now :: k in was && now[k] == was[k]
    ensures Total(now) <= cap || now == map[]
  {
    var l: seq<Listed>, n: nat :| EvictsBy(cap, was, now, l, n);
    WithoutAll(was, l);
  }
}
