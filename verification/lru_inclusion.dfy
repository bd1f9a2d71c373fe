/**
 The same fetchChunk calls against two caps of internal/layer/chunkcache.go: when the larger
 (or absent) cap holds a superset of the smaller cap's chunks.
 */
module LruInclusion {
  import opened Lru

  datatype Fetch = Fetch(key: ChunkKey, upstreamOk: bool)

  function FetchRun(cap: int, size: Sizes, fs: seq<Fetch>): seq<ChunkKey> {
    if fs == [] then []
    else
      var f := fs[|fs| - 1];
      AfterFetch(cap, size, FetchRun(cap, size, fs[..|fs| - 1]), f.key, f.upstreamOk)
  }

  /** The gets and puts the calls perform. */
  function FetchOps(cap: int, size: Sizes, fs: seq<Fetch>): seq<Op> {
    if fs == [] then []
    else
      var init, f := fs[..|fs| - 1], fs[|fs| - 1];
      FetchOps(cap, size, init) + [Get(f.key)] + if f.upstreamOk && f.key !in FetchRun(cap, size, init) then [Put(f.key)] else []
  }

  lemma {:induction false} FetchRunIsRun(cap: int, size: Sizes, fs: seq<Fetch>)
    ensures FetchRun(cap, size, fs) == Run(cap, size, [], FetchOps(cap, size, fs))
  {
    if fs != [] {
      var init, f := fs[..|fs| - 1], fs[|fs| - 1];
      var ops := FetchOps(cap, size, init);
      FetchRunIsRun(cap, size, init);
      RunMore(cap, size, [], ops, Get(f.key));
      RunMore(cap, size, [], ops + [Get(f.key)], Put(f.key));
      assert ops + [Get(f.key)] + [] == ops + [Get(f.key)];
    }
  }

  /** After any calls, failing or not, the list has the closed form. */
  lemma FetchClosedForm(cap: int, size: Sizes, fs: seq<Fetch>)
    ensures LongestFit(cap, size, Recency(Uses(cap, size, FetchOps(cap, size, fs))), FetchRun(cap, size, fs))
  {
    FetchRunIsRun(cap, size, fs);
    ClosedForm(cap, size, FetchOps(cap, size, fs));
  }

  /** How many of the calls read upstream. */
  function Misses(cap: int, size: Sizes, fs: seq<Fetch>): nat {
    if fs == [] then 0
    else
      var init := fs[..|fs| - 1];
      Misses(cap, size, init) + if fs[|fs| - 1].key in FetchRun(cap, size, init) then 0 else 1
  }

  /** cap c holds at least what cap b holds: it is larger, or unbounded. */
  predicate AtLeast(c: int, b: int) {
    c <= 0 || (0 < b <= c)
  }

  predicate Fits(cap: int, size: Sizes, s: seq<ChunkKey>) {
    cap > 0 ==> Total(size, s) <= cap
  }

  /** A shorter fitting prefix is a prefix of the longest fit. */
  lemma FitIncludes(c: int, size: Sizes, r: seq<ChunkKey>, longest: seq<ChunkKey>, l: seq<ChunkKey>)
    requires LongestFit(c, size, r, longest) && l <= r && Fits(c, size, l)
    ensures l <= longest
  {
    if |longest| < |l| {
      assert l[..|longest| + 1] == r[..|longest| + 1];
      TotalMonotone(size, l, |longest| + 1);
    }
  }

  lemma FitsLarger(c: int, b: int, size: Sizes, r: seq<ChunkKey>, l: seq<ChunkKey>)
    requires AtLeast(c, b) && LongestFit(b, size, r, l)
    ensures Fits(c, size, l) && l <= r
  {
  }

  /** What a put leaves is a prefix of the list with the key in front. */
  lemma PutIsPrefix(cap: int, size: Sizes, s: seq<ChunkKey>, k: ChunkKey)
    requires k !in s
    ensures AfterPut(cap, size, s, k) <= [k] + s
    ensures LongestFit(cap, size, [k] + s, AfterPut(cap, size, s, k))
  {
    if cap > 0 {
      EvictIsLongestFit(cap, size, [k] + s);
    }
  }

  // ---- list extension ----

  /**
   A failing call moves neither list or both, unless it misses the smaller cache, which holds
   something, and hits the larger one.
   */
  predicate FailuresMoveBoth(c: int, b: int, size: Sizes, fs: seq<Fetch>) {
    forall i | 0 <= i < |fs| :: MovesBothAt(c, b, size, fs, i)
  }

  predicate MovesBothAt(c: int, b: int, size: Sizes, fs: seq<Fetch>, i: nat)
    requires i < |fs|
  {
    !fs[i].upstreamOk && fs[i].key in FetchRun(c, size, fs[..i]) ==>
      fs[i].key in FetchRun(b, size, fs[..i]) || FetchRun(b, size, fs[..i]) == []
  }

  /** A hit in both lists moves the key to the front of both. */
  lemma BothHit(lc: seq<ChunkKey>, lb: seq<ChunkKey>, k: ChunkKey)
    requires lb <= lc && k in lb
    ensures ToFront(lb, k) <= ToFront(lc, k)
  {
    var rest := lc[|lb|..];
    assert lc == lb + rest;
    RemoveConcat(lb, rest, k);
    assert ToFront(lc, k) == ToFront(lb, k) + rest;
  }

  /** A put that the longer list answers from memory and the shorter does not. */
  lemma OnlyLargerHits(b: int, size: Sizes, lc: seq<ChunkKey>, lb: seq<ChunkKey>, k: ChunkKey)
    requires lb <= lc && k in lc && k !in lb
    ensures AfterPut(b, size, lb, k) <= ToFront(lc, k)
  {
    hide LongestFit, AfterPut, Remove;
    var rest := lc[|lb|..];
    assert lc == lb + rest;
    RemoveConcat(lb, rest, k);
    PutIsPrefix(b, size, lb, k);
    assert ToFront(lc, k) == ([k] + lb) + Remove(rest, k);
  }

  lemma BothMiss(c: int, b: int, size: Sizes, lc: seq<ChunkKey>, lb: seq<ChunkKey>, k: ChunkKey)
    requires AtLeast(c, b) && lb <= lc && k !in lc
    ensures AfterPut(b, size, lb, k) <= AfterPut(c, size, lc, k)
  {
    hide Total, LongestFit, Fits, AfterPut;
    assert forall i | 0 <= i < |lb| :: lb[i] == lc[i];
    PutIsPrefix(b, size, lb, k);
    PutIsPrefix(c, size, lc, k);
    FitsLarger(c, b, size, [k] + lb, AfterPut(b, size, lb, k));
    assert [k] + lc == [k] + lb + lc[|lb|..];
    FitIncludes(c, size, [k] + lc, AfterPut(c, size, lc, k), AfterPut(b, size, lb, k));
  }

  /** One call, on a list and on a longer list of a larger cap. */
  lemma FetchKeepsPrefix(c: int, b: int, size: Sizes, lc: seq<ChunkKey>, lb: seq<ChunkKey>, k: ChunkKey, upstreamOk: bool)
    requires AtLeast(c, b) && lb <= lc
    ensures AfterFetch(b, size, lb, k, upstreamOk) <= AfterFetch(c, size, lc, k, upstreamOk)
       <==> (!upstreamOk && k in lc ==> k in lb || lb == [])
  {
    hide AfterPut, Remove;
    if k in lb {
      BothHit(lc, lb, k);
    } else if k in lc {
      OnlyLargerHits(b, size, lc, lb, k);
      assert lb != [] ==> lb[0] in lb;
    } else {
      BothMiss(c, b, size, lc, lb, k);
    }
  }

  /** The larger cap's list extends the smaller's after every call of the run. */
  predicate StaysAhead(c: int, b: int, size: Sizes, fs: seq<Fetch>) {
    forall i | 0 <= i <= |fs| :: AheadAt(c, b, size, fs, i)
  }

  predicate AheadAt(c: int, b: int, size: Sizes, fs: seq<Fetch>, i: nat)
    requires i <= |fs|
  {
    FetchRun(b, size, fs[..i]) <= FetchRun(c, size, fs[..i])
  }

  /**
   List extension: the larger cap's list has the smaller cap's as its beginning throughout the run
   exactly when no failing call moves the larger list alone.
   */
  lemma {:induction false} LargerCapExtendsIff(c: int, b: int, size: Sizes, fs: seq<Fetch>)
    requires AtLeast(c, b)
    ensures StaysAhead(c, b, size, fs) <==> FailuresMoveBoth(c, b, size, fs)
  {
    if fs == [] {
      assert fs[..0] == [];
    } else {
      var init, f := fs[..|fs| - 1], fs[|fs| - 1];
      LargerCapExtendsIff(c, b, size, init);
      LastCall(c, b, size, fs);
      if StaysAhead(c, b, size, init) {
        FetchKeepsPrefix(c, b, size, FetchRun(c, size, init), FetchRun(b, size, init), f.key, f.upstreamOk);
      }
      hide FetchRun, AfterFetch, StaysAhead, FailuresMoveBoth;
    }
  }

  /** Both sides of the equivalence, split into the run so far and its last call. */
  lemma LastCall(c: int, b: int, size: Sizes, fs: seq<Fetch>)
    requires fs != []
    ensures var init, n := fs[..|fs| - 1], |fs| - 1;
            && (StaysAhead(c, b, size, fs) <==> StaysAhead(c, b, size, init) && AheadAt(c, b, size, fs, |fs|))
            && (FailuresMoveBoth(c, b, size, fs) <==> FailuresMoveBoth(c, b, size, init) && MovesBothAt(c, b, size, fs, n))
            && (StaysAhead(c, b, size, init) ==> FetchRun(b, size, init) <= FetchRun(c, size, init))
    ensures fs[..|fs|] == fs
  {
    hide FetchRun;
    var init := fs[..|fs| - 1];
    assert forall i | 0 <= i <= |init| :: init[..i] == fs[..i];
    assert forall i | 0 <= i <= |init| :: AheadAt(c, b, size, fs, i) <==> AheadAt(c, b, size, init, i);
    assert forall i | 0 <= i < |init| :: MovesBothAt(c, b, size, fs, i) <==> MovesBothAt(c, b, size, init, i);
    assert AheadAt(c, b, size, init, |init|) <==> FetchRun(b, size, init) <= FetchRun(c, size, init);
  }

  // ---- superset ----

  /** a is b with some keys left out. */
  predicate IsSub(a: seq<ChunkKey>, b: seq<ChunkKey>) {
    a == [] || (b != [] && if a[0] == b[0] then IsSub(a[1..], b[1..]) else IsSub(a, b[1..]))
  }

  lemma {:induction false} SubIncluded(a: seq<ChunkKey>, b: seq<ChunkKey>)
    requires IsSub(a, b)
    ensures Includes(b, a)
  {
    if a != [] {
      assert b == [b[0]] + b[1..] && a == [a[0]] + a[1..];
      SubIncluded(if a[0] == b[0] then a[1..] else a, b[1..]);
    }
  }

  lemma {:induction false} SubCons(a: seq<ChunkKey>, x: ChunkKey, b: seq<ChunkKey>)
    requires IsSub(a, b)
    ensures IsSub(a, [x] + b)
    decreases |b|, 1
  {
    assert ([x] + b)[1..] == b;
    if a != [] && a[0] == x {
      SubTail(a, b);
    }
  }

  lemma {:induction false} SubTail(a: seq<ChunkKey>, b: seq<ChunkKey>)
    requires IsSub(a, b) && a != []
    ensures IsSub(a[1..], b)
    decreases |b|, 0
  {
    assert b == [b[0]] + b[1..];
    if a[0] == b[0] {
      SubCons(a[1..], b[0], b[1..]);
    } else {
      SubTail(a, b[1..]);
      SubCons(a[1..], b[0], b[1..]);
    }
  }

  lemma SubNone(b: seq<ChunkKey>)
    ensures IsSub([], b)
  {
  }

  lemma SubBoth(a: seq<ChunkKey>, x: ChunkKey, b: seq<ChunkKey>)
    requires IsSub(a, b)
    ensures IsSub([x] + a, [x] + b)
  {
    assert ([x] + a)[1..] == a && ([x] + b)[1..] == b;
  }

  lemma {:induction false} SubRemove(a: seq<ChunkKey>, b: seq<ChunkKey>, k: ChunkKey)
    requires IsSub(a, b) && Unique(b)
    ensures IsSub(Remove(a, k), Remove(b, k))
  {
    if a != [] {
      var rest := b[1..];
      assert b == [b[0]] + rest;
      assert forall i | 0 <= i < |rest| :: rest[i] == b[i + 1];
      if a[0] == b[0] {
        SubRemove(a[1..], rest, k);
        if a[0] != k {
          SubBoth(Remove(a[1..], k), a[0], Remove(rest, k));
        }
      } else if b[0] == k {
        SubIncluded(a, rest);
        assert b[0] !in rest;
        RemoveAbsent(a, k);
      } else {
        SubRemove(a, rest, k);
        SubCons(Remove(a, k), b[0], Remove(rest, k));
      }
    }
  }

  lemma {:induction false} RemoveAbsent(s: seq<ChunkKey>, k: ChunkKey)
    requires k !in s
    ensures Remove(s, k) == s
  {
    if s != [] {
      assert s == [s[0]] + s[1..];
      RemoveAbsent(s[1..], k);
    }
  }

  lemma {:induction false} SubPrefix(p: seq<ChunkKey>, a: seq<ChunkKey>, b: seq<ChunkKey>)
    requires p <= a && IsSub(a, b)
    ensures IsSub(p, b)
  {
    if p != [] {
      if a[0] == b[0] {
        SubPrefix(p[1..], a[1..], b[1..]);
      } else {
        SubPrefix(p, a, b[1..]);
      }
    }
  }

  /** A list whose last key lies among the first n of b comes from those alone. */
  lemma {:induction false} SubUpTo(a: seq<ChunkKey>, b: seq<ChunkKey>, n: nat)
    requires IsSub(a, b) && Unique(b) && n <= |b| && (a != [] ==> a[|a| - 1] in b[..n])
    ensures IsSub(a, b[..n])
  {
    if a != [] {
      var x, rest := a[|a| - 1], b[1..];
      assert b[..n] == [b[0]] + rest[..n - 1] && b[..n][1..] == rest[..n - 1];
      assert forall i | 0 <= i < |rest| :: rest[i] == b[i + 1];
      var tail := if a[0] == b[0] then a[1..] else a;
      SubIncluded(tail, rest);
      if tail != [] {
        assert tail[|tail| - 1] == x && x in tail;
        assert b[0] !in rest;
      }
      SubUpTo(tail, rest, n - 1);
    }
  }

  /**
   The smaller cache's put of k keeps a key up to which the larger cache, putting k too, is over
   its cap: the larger one evicts a key the smaller keeps.
   */
  predicate DropsKept(c: int, b: int, size: Sizes, lc: seq<ChunkKey>, lb: seq<ChunkKey>, k: ChunkKey) {
    && c > 0 && k !in lc
    && var kept, all := AfterPut(b, size, lb, k), [k] + lc;
    kept != [] && exists j :: 0 <= j < |all| && all[j] == kept[|kept| - 1] && Total(size, all[..j + 1]) > c
  }

  /** A put that both caches miss. */
  lemma BothPut(c: int, b: int, size: Sizes, lc: seq<ChunkKey>, lb: seq<ChunkKey>, k: ChunkKey)
    requires AtLeast(c, b) && Unique(lc) && IsSub(lb, lc) && k !in lc
    ensures !DropsKept(c, b, size, lc, lb, k) ==> IsSub(AfterPut(b, size, lb, k), AfterPut(c, size, lc, k))
    ensures DropsKept(c, b, size, lc, lb, k) ==> !Includes(AfterPut(c, size, lc, k), AfterPut(b, size, lb, k))
  {
    hide IsSub, AfterPut, Total, LongestFit, Unique, Includes;
    var all, kept, held := [k] + lc, AfterPut(b, size, lb, k), AfterPut(c, size, lc, k);
    SubIncluded(lb, lc);
    UniqueCons(k, lc);
    AbsentFrom(k, lb, lc);
    PutIsPrefix(b, size, lb, k);
    PutIsPrefix(c, size, lc, k);
    SubBoth(lb, k, lc);
    SubPrefix(kept, [k] + lb, all);
    if DropsKept(c, b, size, lc, lb, k) {
      var j :| 0 <= j < |all| && all[j] == kept[|kept| - 1] && Total(size, all[..j + 1]) > c;
      NotHeld(c, size, all, held, j);
      LastNotIncluded(held, kept);
    } else if kept == [] {
      SubNone(held);
    } else {
      var j := IndexOfLast(kept, all);
      KeptSurvives(c, size, all, kept, held, j);
    }
  }

  lemma UniqueCons(k: ChunkKey, s: seq<ChunkKey>)
    requires Unique(s) && k !in s
    ensures Unique([k] + s)
  {
  }

  lemma AbsentFrom(k: ChunkKey, a: seq<ChunkKey>, b: seq<ChunkKey>)
    requires Includes(b, a) && k !in b
    ensures k !in a
  {
  }

  lemma LastNotIncluded(b: seq<ChunkKey>, a: seq<ChunkKey>)
    requires a != [] && a[|a| - 1] !in b
    ensures !Includes(b, a)
  {
    assert a[|a| - 1] in a;
  }

  lemma IndexOfLast(a: seq<ChunkKey>, b: seq<ChunkKey>) returns (j: nat)
    requires a != [] && IsSub(a, b)
    ensures j < |b| && b[j] == a[|a| - 1]
  {
    SubIncluded(a, b);
    assert a[|a| - 1] in a;
    j :| j < |b| && b[j] == a[|a| - 1];
  }

  /** A part of the list whose last key lies within the cap is held as a whole. */
  lemma KeptSurvives(c: int, size: Sizes, all: seq<ChunkKey>, kept: seq<ChunkKey>, held: seq<ChunkKey>, j: nat)
    requires Unique(all) && kept != [] && IsSub(kept, all) && LongestFit(c, size, all, held)
    requires j < |all| && all[j] == kept[|kept| - 1] && (c > 0 ==> Total(size, all[..j + 1]) <= c)
    ensures IsSub(kept, held)
  {
    hide IsSub, Total, Unique;
    assert held == all[..|held|];
    FitIncludes(c, size, all, held, all[..j + 1]);
    assert held[j] == all[j];
    SubUpTo(kept, all, |held|);
  }

  /** A key up to which the list is over the cap is not held. */
  lemma NotHeld(c: int, size: Sizes, all: seq<ChunkKey>, held: seq<ChunkKey>, j: nat)
    requires c > 0 && Unique(all) && LongestFit(c, size, all, held)
    requires j < |all| && Total(size, all[..j + 1]) > c
    ensures all[j] !in held
  {
    hide Total;
    if all[j] in held {
      var i :| 0 <= i < |held| && held[i] == all[j];
      assert all[i] == all[j];
      assert held[..j + 1] == all[..j + 1];
      TotalMonotone(size, held, j + 1);
    }
  }

  /**
   One call on two caches, the smaller one's list a part of the larger one's: it stays so, and the
   larger cache keeps all the smaller one's chunks, unless a successful read that both miss makes
   the larger cache evict what the smaller keeps.
   */
  lemma FetchKeepsSuperset(c: int, b: int, size: Sizes, lc: seq<ChunkKey>, lb: seq<ChunkKey>, k: ChunkKey, upstreamOk: bool)
    requires AtLeast(c, b) && Unique(lc) && IsSub(lb, lc)
    ensures var drops := upstreamOk && DropsKept(c, b, size, lc, lb, k);
            var lc', lb' := AfterFetch(c, size, lc, k, upstreamOk), AfterFetch(b, size, lb, k, upstreamOk);
            && (IsSub(lb', lc') <==> !drops)
            && (Includes(lc', lb') <==> !drops)
  {
    hide AfterPut, IsSub, DropsKept;
    SubIncluded(lb, lc);
    SubRemove(lb, lc, k);
    var lc', lb' := AfterFetch(c, size, lc, k, upstreamOk), AfterFetch(b, size, lb, k, upstreamOk);
    if k in lc {
      assert !DropsKept(c, b, size, lc, lb, k) by {
        NoDropOnHit(c, b, size, lc, lb, k);
      }
      if k in lb {
        SubBoth(Remove(lb, k), k, Remove(lc, k));
      } else {
        RemoveAbsent(lb, k);
        if upstreamOk {
          SubBoth(lb, k, Remove(lc, k));
          PutIsPrefix(b, size, lb, k);
          SubPrefix(lb', [k] + lb, lc');
        } else {
          SubCons(lb, k, Remove(lc, k));
        }
      }
    } else if upstreamOk {
      BothPut(c, b, size, lc, lb, k);
    }
    if IsSub(lb', lc') {
      SubIncluded(lb', lc');
    }
  }

  lemma NoDropOnHit(c: int, b: int, size: Sizes, lc: seq<ChunkKey>, lb: seq<ChunkKey>, k: ChunkKey)
    requires k in lc
    ensures !DropsKept(c, b, size, lc, lb, k)
  {
  }

  // ---- whole runs ----

  /** After every call of the run the larger cap holds all the smaller cap holds. */
  predicate HoldsMore(c: int, b: int, size: Sizes, fs: seq<Fetch>) {
    forall i | 0 <= i <= |fs| :: HoldsMoreAt(c, b, size, fs, i)
  }

  predicate HoldsMoreAt(c: int, b: int, size: Sizes, fs: seq<Fetch>, i: nat)
    requires i <= |fs|
  {
    Includes(FetchRun(c, size, fs[..i]), FetchRun(b, size, fs[..i]))
  }

  predicate NeverDropsKept(c: int, b: int, size: Sizes, fs: seq<Fetch>) {
    forall i | 0 <= i < |fs| :: !DropsKeptAt(c, b, size, fs, i)
  }

  predicate DropsKeptAt(c: int, b: int, size: Sizes, fs: seq<Fetch>, i: nat)
    requires i < |fs|
  {
    fs[i].upstreamOk && DropsKept(c, b, size, FetchRun(c, size, fs[..i]), FetchRun(b, size, fs[..i]), fs[i].key)
  }

  lemma {:induction false} FetchRunUnique(cap: int, size: Sizes, fs: seq<Fetch>)
    ensures Unique(FetchRun(cap, size, fs)) && Fits(cap, size, FetchRun(cap, size, fs))
  {
    if fs != [] {
      var init, f := fs[..|fs| - 1], fs[|fs| - 1];
      FetchRunUnique(cap, size, init);
      AfterFetchUnique(cap, size, FetchRun(cap, size, init), f.key, f.upstreamOk);
    }
  }

  lemma AfterFetchUnique(cap: int, size: Sizes, s: seq<ChunkKey>, k: ChunkKey, upstreamOk: bool)
    requires Unique(s) && Fits(cap, size, s)
    ensures var s' := AfterFetch(cap, size, s, k, upstreamOk);
            Unique(s') && Fits(cap, size, s')
  {
    RemoveFacts(s, k);
    if k in s {
      TotalToFront(size, s, k);
    } else {
      PutIsPrefix(cap, size, s, k);
    }
  }

  /**
   The same calls against a larger or absent cap, whichever of them fail upstream: it holds a
   superset of the smaller cap's chunks throughout exactly when it never evicts a chunk that the
   same call makes the smaller one keep; and then it reads upstream no more often.
   */
  lemma {:induction false} LargerCapIncludesIff(c: int, b: int, size: Sizes, fs: seq<Fetch>)
    requires AtLeast(c, b)
    ensures HoldsMore(c, b, size, fs) <==> NeverDropsKept(c, b, size, fs)
    ensures HoldsMore(c, b, size, fs) ==> IsSub(FetchRun(b, size, fs), FetchRun(c, size, fs))
    ensures HoldsMore(c, b, size, fs) ==> Misses(c, size, fs) <= Misses(b, size, fs)
  {
    if fs == [] {
      assert fs[..0] == [];
    } else {
      var init, f := fs[..|fs| - 1], fs[|fs| - 1];
      LargerCapIncludesIff(c, b, size, init);
      LastFetch(c, b, size, fs);
      if HoldsMore(c, b, size, init) {
        FetchRunUnique(c, size, init);
        FetchKeepsSuperset(c, b, size, FetchRun(c, size, init), FetchRun(b, size, init), f.key, f.upstreamOk);
      }
      hide FetchRun, AfterFetch, HoldsMore, NeverDropsKept, IsSub, DropsKept;
    }
  }

  /** Both sides of the equivalence, split into the run so far and its last call. */
  lemma LastFetch(c: int, b: int, size: Sizes, fs: seq<Fetch>)
    requires fs != []
    ensures var init, n := fs[..|fs| - 1], |fs| - 1;
            && (HoldsMore(c, b, size, fs) <==> HoldsMore(c, b, size, init) && HoldsMoreAt(c, b, size, fs, |fs|))
            && (NeverDropsKept(c, b, size, fs) <==> NeverDropsKept(c, b, size, init) && !DropsKeptAt(c, b, size, fs, n))
            && (HoldsMore(c, b, size, init) ==> Includes(FetchRun(c, size, init), FetchRun(b, size, init)))
    ensures fs[..|fs|] == fs
  {
    hide FetchRun, Includes, DropsKept;
    var init := fs[..|fs| - 1];
    assert forall i | 0 <= i <= |init| :: init[..i] == fs[..i];
    assert forall i | 0 <= i <= |init| :: HoldsMoreAt(c, b, size, fs, i) <==> HoldsMoreAt(c, b, size, init, i);
    assert forall i | 0 <= i < |init| :: DropsKeptAt(c, b, size, fs, i) <==> DropsKeptAt(c, b, size, init, i);
    assert HoldsMoreAt(c, b, size, init, |init|) <==> Includes(FetchRun(c, size, init), FetchRun(b, size, init));
  }

  /** Without a cap the cache holds the most and reads the least in every run, failures included. */
  lemma AbsentCapIncludes(c: int, b: int, size: Sizes, fs: seq<Fetch>)
    requires c <= 0
    ensures HoldsMore(c, b, size, fs) && Includes(FetchRun(c, size, fs), FetchRun(b, size, fs))
    ensures Misses(c, size, fs) <= Misses(b, size, fs)
  {
    assert forall i | 0 <= i < |fs| :: !DropsKeptAt(c, b, size, fs, i);
    LargerCapIncludesIff(c, b, size, fs);
    assert fs[..|fs|] == fs && HoldsMoreAt(c, b, size, fs, |fs|);
  }

  // ---- chunks of one size ----

  lemma {:induction false} TotalEqual(size: Sizes, u: nat, s: seq<ChunkKey>)
    requires forall x | x in s :: size(x) == u
    ensures Total(size, s) == |s| * u
  {
    if s != [] {
      TotalEqual(size, u, s[..|s| - 1]);
      assert s[|s| - 1] in s;
      assert |s| * u == (|s| - 1) * u + u;
    }
  }

  /** In a part of b, the last key of b can only come last. */
  lemma {:induction false} SubLast(a: seq<ChunkKey>, b: seq<ChunkKey>, i: nat)
    requires IsSub(a, b) && Unique(b) && b != [] && i < |a| && a[i] == b[|b| - 1]
    ensures i == |a| - 1
  {
    if |b| > 1 {
      assert b[1..][|b| - 2] == b[|b| - 1];
      if a[0] == b[0] {
        SubLast(a[1..], b[1..], i - 1);
      } else {
        SubLast(a, b[1..], i);
      }
    }
  }

  /** Cap b has room for one more chunk of size u. */
  predicate Room(b: int, u: nat, s: seq<ChunkKey>) {
    (|s| + 1) * u <= b
  }

  /** The smaller list is a part of the larger; while it has room left, the keys are the same. */
  predicate InStep(b: int, u: nat, size: Sizes, lc: seq<ChunkKey>, lb: seq<ChunkKey>) {
    && Unique(lc) && IsSub(lb, lc)
    && (forall x | x in lc :: size(x) == u)
    && (Room(b, u, lb) ==> Includes(lb, lc))
  }

  lemma OrderedProducts(x: int, y: int, u: nat)
    requires x <= y
    ensures x * u <= y * u
  {
    assert y * u == x * u + (y - x) * u && (y - x) * u >= 0;
  }

  lemma {:induction false} UniqueLength(a: seq<ChunkKey>, b: seq<ChunkKey>)
    requires Unique(a) && Includes(b, a)
    ensures |a| <= |b|
  {
    if a != [] {
      var k, rest := a[0], a[1..];
      assert a == [k] + rest && k !in rest;
      RemoveLength(b, k);
      forall x | x in rest ensures x in Remove(b, k) {
        RemoveKeeps(b, k, x);
      }
      UniqueLength(rest, Remove(b, k));
    }
  }

  /** What a put keeps of equal chunks: all of them, or as many as leave no room. */
  lemma EqualPut(b: int, u: nat, size: Sizes, s: seq<ChunkKey>, k: ChunkKey)
    requires b > 0 && k !in s && size(k) == u && forall x | x in s :: size(x) == u
    ensures AfterPut(b, size, s, k) <= [k] + s && |AfterPut(b, size, s, k)| * u <= b
    ensures AfterPut(b, size, s, k) == [k] + s || !Room(b, u, AfterPut(b, size, s, k))
  {
    var all, kept := [k] + s, AfterPut(b, size, s, k);
    PutIsPrefix(b, size, s, k);
    assert kept == all[..|kept|];
    TotalEqual(size, u, kept);
    if |kept| < |all| {
      TotalEqual(size, u, all[..|kept| + 1]);
    }
  }

  lemma EqualNeverDrops(c: int, b: int, u: nat, size: Sizes, lc: seq<ChunkKey>, lb: seq<ChunkKey>, k: ChunkKey)
    requires 0 < b <= c && InStep(b, u, size, lc, lb) && Fits(c, size, lc)
    requires k !in lc && size(k) == u
    ensures !DropsKept(c, b, size, lc, lb, k)
  {
    hide IsSub;
    var all, kept := [k] + lc, AfterPut(b, size, lb, k);
    SubIncluded(lb, lc);
    EqualPut(b, u, size, lb, k);
    TotalEqual(size, u, lc);
    forall j | 0 <= j < |all| && kept != [] && all[j] == kept[|kept| - 1] ensures Total(size, all[..j + 1]) <= c {
      TotalEqual(size, u, all[..j + 1]);
      if j < |lc| {
        OrderedProducts(j + 1, |lc|, u);
      } else if |kept| == 1 {
        assert all[j] == k == all[0];
      } else if kept == [k] + lb {
        LastOfRoomy(b, u, size, lc, lb, |kept|);
        OrderedProducts(j + 1, |kept|, u);
      } else {
        assert lb[|kept| - 2] == kept[|kept| - 1] == lc[|lc| - 1];
        SubLast(lb, lc, |kept| - 2);
      }
    }
  }

  /** A list that takes k without eviction had room, so it has as many keys as the larger one. */
  lemma LastOfRoomy(b: int, u: nat, size: Sizes, lc: seq<ChunkKey>, lb: seq<ChunkKey>, n: nat)
    requires InStep(b, u, size, lc, lb) && n == |lb| + 1 && n * u <= b
    ensures |lc| <= |lb|
  {
    UniqueLength(lc, lb);
  }

  lemma ToFrontMembers(s: seq<ChunkKey>, k: ChunkKey)
    requires Unique(s) && k in s
    ensures Includes(s, ToFront(s, k)) && Includes(ToFront(s, k), s) && |ToFront(s, k)| == |s|
  {
    RemoveFacts(s, k);
    RemoveLength(s, k);
  }

  lemma {:induction false} SubUnique(a: seq<ChunkKey>, b: seq<ChunkKey>)
    requires IsSub(a, b) && Unique(b)
    ensures Unique(a)
  {
    if a != [] {
      assert b == [b[0]] + b[1..] && b[0] !in b[1..];
      var tail := if a[0] == b[0] then a[1..] else a;
      assert forall i | 0 <= i < |b[1..]| :: b[1..][i] == b[i + 1];
      SubUnique(tail, b[1..]);
      SubIncluded(tail, b[1..]);
      if a[0] == b[0] {
        assert forall i | 0 < i < |a| :: a[i] == tail[i - 1] && tail[i - 1] in tail;
      }
    }
  }

  /** Every key of the list after a call was there before, or is the call's own. */
  lemma AfterFetchMembers(cap: int, size: Sizes, s: seq<ChunkKey>, k: ChunkKey, upstreamOk: bool)
    requires Unique(s)
    ensures forall x | x in AfterFetch(cap, size, s, k, upstreamOk) :: x in s || (x == k && upstreamOk)
  {
    if k in s {
      RemoveFacts(s, k);
    } else if upstreamOk {
      PutIsPrefix(cap, size, s, k);
    }
  }

  /** A call that leaves room has dropped nothing. */
  lemma RoomBefore(b: int, u: nat, size: Sizes, s: seq<ChunkKey>, k: ChunkKey, upstreamOk: bool)
    requires b > 0 && Unique(s) && size(k) == u && forall x | x in s :: size(x) == u
    requires Room(b, u, AfterFetch(b, size, s, k, upstreamOk))
    ensures Room(b, u, s) && Includes(AfterFetch(b, size, s, k, upstreamOk), s)
    ensures upstreamOk ==> k in AfterFetch(b, size, s, k, upstreamOk)
  {
    hide AfterPut, Unique, Remove;
    if k in s {
      ToFrontMembers(s, k);
    } else if upstreamOk {
      EqualPut(b, u, size, s, k);
      OrderedProducts(|s| + 1, |s| + 2, u);
    }
  }

  /** With equal chunks the keys still agree after a call that leaves the smaller cache room. */
  lemma RoomAgrees(c: int, b: int, u: nat, size: Sizes, lc: seq<ChunkKey>, lb: seq<ChunkKey>, k: ChunkKey, upstreamOk: bool)
    requires 0 < b <= c && InStep(b, u, size, lc, lb) && size(k) == u
    requires Room(b, u, AfterFetch(b, size, lb, k, upstreamOk))
    ensures Includes(AfterFetch(b, size, lb, k, upstreamOk), AfterFetch(c, size, lc, k, upstreamOk))
  {
    hide IsSub, Unique, AfterFetch, Room;
    SubIncluded(lb, lc);
    SubUnique(lb, lc);
    AfterFetchMembers(c, size, lc, k, upstreamOk);
    RoomBefore(b, u, size, lb, k, upstreamOk);
  }

  lemma InStepKept(c: int, b: int, u: nat, size: Sizes, lc: seq<ChunkKey>, lb: seq<ChunkKey>, k: ChunkKey, upstreamOk: bool)
    requires 0 < b <= c && InStep(b, u, size, lc, lb) && Fits(c, size, lc) && size(k) == u
    ensures !(upstreamOk && DropsKept(c, b, size, lc, lb, k))
    ensures InStep(b, u, size, AfterFetch(c, size, lc, k, upstreamOk), AfterFetch(b, size, lb, k, upstreamOk))
  {
    if k !in lc {
      EqualNeverDrops(c, b, u, size, lc, lb, k);
    } else {
      NoDropOnHit(c, b, size, lc, lb, k);
    }
    FetchKeepsSuperset(c, b, size, lc, lb, k, upstreamOk);
    AfterFetchUnique(c, size, lc, k, upstreamOk);
    AfterFetchMembers(c, size, lc, k, upstreamOk);
    if Room(b, u, AfterFetch(b, size, lb, k, upstreamOk)) {
      RoomAgrees(c, b, u, size, lc, lb, k, upstreamOk);
    }
    hide AfterFetch, DropsKept, IsSub;
  }

  lemma {:induction false} InStepThroughout(c: int, b: int, u: nat, size: Sizes, fs: seq<Fetch>)
    requires 0 < b <= c && forall i | 0 <= i < |fs| :: size(fs[i].key) == u
    ensures InStep(b, u, size, FetchRun(c, size, fs), FetchRun(b, size, fs)) && NeverDropsKept(c, b, size, fs)
  {
    if fs != [] {
      var init, f := fs[..|fs| - 1], fs[|fs| - 1];
      InStepThroughout(c, b, u, size, init);
      FetchRunUnique(c, size, init);
      InStepKept(c, b, u, size, FetchRun(c, size, init), FetchRun(b, size, init), f.key, f.upstreamOk);
      LastFetch(c, b, size, fs);
      hide InStep, AfterFetch, DropsKept, NeverDropsKept, HoldsMore;
    }
  }

  /** Chunks of one size: a larger or absent cap holds more and reads less in every run, failures included. */
  lemma EqualChunksInclude(c: int, b: int, u: nat, size: Sizes, fs: seq<Fetch>)
    requires AtLeast(c, b) && forall i | 0 <= i < |fs| :: size(fs[i].key) == u
    ensures HoldsMore(c, b, size, fs) && Misses(c, size, fs) <= Misses(b, size, fs)
  {
    if c <= 0 {
      AbsentCapIncludes(c, b, size, fs);
    } else {
      InStepThroughout(c, b, u, size, fs);
      LargerCapIncludesIff(c, b, size, fs);
    }
  }

  // ---- a run in which the larger cap falls behind ----

  /** One three-byte chunk, three one-byte chunks. */
  predicate OneLarge(size: Sizes) {
    size(ChunkKey("X", 0)) == 3 && size(ChunkKey("A", 0)) == size(ChunkKey("B", 0)) == size(ChunkKey("E", 0)) == 1
  }

  function Call(i: nat): Fetch
    requires i < 7
  {
    var X, A, B, E := ChunkKey("X", 0), ChunkKey("A", 0), ChunkKey("B", 0), ChunkKey("E", 0);
    [Fetch(X, true), Fetch(B, true), Fetch(A, true), Fetch(X, false), Fetch(E, true), Fetch(B, true), Fetch(A, true)][i]
  }

  /** The first n calls: X is dropped by the smaller cache only, and its next read fails upstream. */
  function FailingRun(n: nat): seq<Fetch>
    requires n <= 7
  {
    if n == 0 then [] else FailingRun(n - 1) + [Call(n - 1)]
  }

  /** The run leaves the list s after n upstream reads. */
  predicate Leaves(cap: int, size: Sizes, fs: seq<Fetch>, s: seq<ChunkKey>, n: nat) {
    FetchRun(cap, size, fs) == s && Misses(cap, size, fs) == n
  }

  lemma LeavesNext(cap: int, size: Sizes, fs: seq<Fetch>, f: Fetch, s: seq<ChunkKey>, n: nat)
    requires Leaves(cap, size, fs, s, n)
    ensures Leaves(cap, size, fs + [f], AfterFetch(cap, size, s, f.key, f.upstreamOk), if f.key in s then n else n + 1)
  {
    assert (fs + [f])[..|fs|] == fs;
  }

  /** Totals of the short lists of the example. */
  lemma ShortTotals(size: Sizes, a: ChunkKey, b: ChunkKey, c: ChunkKey, d: ChunkKey)
    ensures Total(size, [a]) == size(a)
    ensures Total(size, [a, b]) == size(a) + size(b)
    ensures Total(size, [a, b, c]) == size(a) + size(b) + size(c)
    ensures Total(size, [a, b, c, d]) == size(a) + size(b) + size(c) + size(d)
  {
    TotalOne(size, a);
    assert [a, b][..1] == [a] && [a, b, c][..2] == [a, b] && [a, b, c, d][..3] == [a, b, c];
  }

  lemma FetchFits(cap: int, size: Sizes, s: seq<ChunkKey>, k: ChunkKey, r: seq<ChunkKey>)
    requires cap > 0 && k !in s && r == [k] + s && Total(size, r) <= cap
    ensures AfterFetch(cap, size, s, k, true) == r
  {
  }

  lemma FetchDropsOne(cap: int, size: Sizes, s: seq<ChunkKey>, k: ChunkKey, r: seq<ChunkKey>, last: ChunkKey)
    requires cap > 0 && k !in s && r + [last] == [k] + s && Total(size, r + [last]) > cap && Total(size, r) <= cap
    ensures AfterFetch(cap, size, s, k, true) == r
  {
    assert (r + [last])[..|r|] == r;
    assert AfterFetch(cap, size, s, k, true) == Evict(cap, size, r + [last]);
    assert Evict(cap, size, r) == r;
  }

  lemma FetchHitsThird(cap: int, size: Sizes, a: ChunkKey, b: ChunkKey, x: ChunkKey, ok: bool)
    requires a != x && b != x
    ensures AfterFetch(cap, size, [a, b, x], x, ok) == [x, a, b]
  {
    assert [a, b, x][1..] == [b, x] && [b, x][1..] == [x] && [x][1..] == [];
    assert Remove([x], x) == [] && Remove([b, x], x) == [b] && Remove([a, b, x], x) == [a, b];
    assert [x] + [a, b] == [x, a, b];
  }

  lemma AtFour(size: Sizes)
    requires OneLarge(size)
    ensures Leaves(4, size, FailingRun(5), [ChunkKey("E", 0), ChunkKey("A", 0), ChunkKey("B", 0)], 5)
    ensures Misses(4, size, FailingRun(7)) == 5
  {
    hide Total, FetchRun, Misses, Remove, Evict, AfterFetch, Leaves;
    var X, A, B, E := ChunkKey("X", 0), ChunkKey("A", 0), ChunkKey("B", 0), ChunkKey("E", 0);
    LeavesNone(4, size);
    LeavesNext(4, size, FailingRun(0), Call(0), [], 0);
    ShortTotals(size, X, X, X, X);
    FetchFits(4, size, [], X, [X]);
    LeavesNext(4, size, FailingRun(1), Call(1), [X], 1);
    ShortTotals(size, B, X, X, X);
    FetchFits(4, size, [X], B, [B, X]);
    LeavesNext(4, size, FailingRun(2), Call(2), [B, X], 2);
    ShortTotals(size, A, B, X, X);
    assert [A, B] + [X] == [A] + [B, X] == [A, B, X];
    FetchDropsOne(4, size, [B, X], A, [A, B], X);
    LeavesNext(4, size, FailingRun(3), Call(3), [A, B], 3);
    FetchFails(4, size, [A, B], X);
    LeavesNext(4, size, FailingRun(4), Call(4), [A, B], 4);
    ShortTotals(size, E, A, B, X);
    FetchFits(4, size, [A, B], E, [E, A, B]);
    LeavesNext(4, size, FailingRun(5), Call(5), [E, A, B], 5);
    FetchHitsThird(4, size, E, A, B, true);
    LeavesNext(4, size, FailingRun(6), Call(6), [B, E, A], 5);
    LeavesMeans(4, size, FailingRun(7), AfterFetch(4, size, [B, E, A], A, true), 5);
  }

  lemma AtFive(size: Sizes)
    requires OneLarge(size)
    ensures Leaves(5, size, FailingRun(5), [ChunkKey("E", 0), ChunkKey("X", 0), ChunkKey("A", 0)], 4)
    ensures Misses(5, size, FailingRun(7)) == 6
  {
    hide Total, FetchRun, Misses, Remove, Evict, AfterFetch, Leaves;
    var X, A, B, E := ChunkKey("X", 0), ChunkKey("A", 0), ChunkKey("B", 0), ChunkKey("E", 0);
    LeavesNone(5, size);
    LeavesNext(5, size, FailingRun(0), Call(0), [], 0);
    ShortTotals(size, X, X, X, X);
    FetchFits(5, size, [], X, [X]);
    LeavesNext(5, size, FailingRun(1), Call(1), [X], 1);
    ShortTotals(size, B, X, X, X);
    FetchFits(5, size, [X], B, [B, X]);
    LeavesNext(5, size, FailingRun(2), Call(2), [B, X], 2);
    ShortTotals(size, A, B, X, X);
    FetchFits(5, size, [B, X], A, [A, B, X]);
    LeavesNext(5, size, FailingRun(3), Call(3), [A, B, X], 3);
    FetchHitsThird(5, size, A, B, X, false);
    LeavesNext(5, size, FailingRun(4), Call(4), [X, A, B], 3);
    ShortTotals(size, E, X, A, B);
    assert [E, X, A] + [B] == [E] + [X, A, B] == [E, X, A, B];
    FetchDropsOne(5, size, [X, A, B], E, [E, X, A], B);
    LeavesNext(5, size, FailingRun(5), Call(5), [E, X, A], 4);
    ShortTotals(size, B, E, X, A);
    assert [B, E, X] + [A] == [B] + [E, X, A] == [B, E, X, A];
    FetchDropsOne(5, size, [E, X, A], B, [B, E, X], A);
    LeavesNext(5, size, FailingRun(6), Call(6), [B, E, X], 5);
    LeavesMeans(5, size, FailingRun(7), AfterFetch(5, size, [B, E, X], A, true), 6);
  }

  lemma LeavesNone(cap: int, size: Sizes)
    ensures Leaves(cap, size, [], [], 0)
  {
  }

  lemma LeavesMeans(cap: int, size: Sizes, fs: seq<Fetch>, s: seq<ChunkKey>, n: nat)
    requires Leaves(cap, size, fs, s, n)
    ensures FetchRun(cap, size, fs) == s && Misses(cap, size, fs) == n
  {
  }

  lemma FetchFails(cap: int, size: Sizes, s: seq<ChunkKey>, k: ChunkKey)
    requires k !in s
    ensures AfterFetch(cap, size, s, k, false) == s
  {
  }

  /**
   A larger cap can fall behind: upstream fails on a chunk only the larger cache still holds, the
   hit moves that chunk forward, and the larger cache drops B, which the smaller keeps.  Two calls
   later it has read upstream more often.
   */
  lemma InclusionCanFail(size: Sizes)
    requires OneLarge(size)
    ensures AtLeast(5, 4)
    ensures ChunkKey("B", 0) in FetchRun(4, size, FailingRun(5))
    ensures ChunkKey("B", 0) !in FetchRun(5, size, FailingRun(5))
    ensures Misses(5, size, FailingRun(7)) > Misses(4, size, FailingRun(7))
  {
    AtFour(size);
    AtFive(size);
  }

  // ---- runs without failures ----

  function Succeeding(keys: seq<ChunkKey>): seq<Fetch> {
    seq(|keys|, i requires 0 <= i < |keys| => Fetch(keys[i], true))
  }

  lemma {:induction false} FetchAllIsRun(cap: int, size: Sizes, keys: seq<ChunkKey>)
    ensures FetchAll(cap, size, [], keys) == FetchRun(cap, size, Succeeding(keys))
    ensures |Fetched(cap, size, [], keys)| == Misses(cap, size, Succeeding(keys))
  {
    if keys != [] {
      var init := keys[..|keys| - 1];
      FetchAllIsRun(cap, size, init);
      assert Succeeding(keys)[..|init|] == Succeeding(init);
    }
  }

  lemma ExtensionIncludes(c: int, b: int, size: Sizes, fs: seq<Fetch>)
    requires StaysAhead(c, b, size, fs)
    ensures HoldsMore(c, b, size, fs)
  {
    forall i | 0 <= i <= |fs| ensures HoldsMoreAt(c, b, size, fs, i) {
      assert AheadAt(c, b, size, fs, i);
    }
  }

  /** Calls appended to a run: first those for keys, all successful, then a failing one for a key not held. */
  lemma {:induction false} RunThenKeys(cap: int, size: Sizes, fs: seq<Fetch>, keys: seq<ChunkKey>)
    ensures FetchRun(cap, size, fs + Succeeding(keys)) == FetchAll(cap, size, FetchRun(cap, size, fs), keys)
    ensures Misses(cap, size, fs + Succeeding(keys)) == Misses(cap, size, fs) + |Fetched(cap, size, FetchRun(cap, size, fs), keys)|
  {
    if keys == [] {
      assert fs + Succeeding(keys) == fs;
    } else {
      var init := keys[..|keys| - 1];
      RunThenKeys(cap, size, fs, init);
      var all, last := fs + Succeeding(keys), Fetch(keys[|keys| - 1], true);
      assert all[..|all| - 1] == fs + Succeeding(init) && all[|all| - 1] == last;
      hide Succeeding, AfterFetch;
    }
  }

  lemma RunThenFailure(cap: int, size: Sizes, fs: seq<Fetch>, k: ChunkKey)
    requires k !in FetchRun(cap, size, fs)
    ensures FetchRun(cap, size, fs + [Fetch(k, false)]) == FetchRun(cap, size, fs)
    ensures Misses(cap, size, fs + [Fetch(k, false)]) == Misses(cap, size, fs) + 1
  {
    assert (fs + [Fetch(k, false)])[..|fs|] == fs;
  }

  /** Reads that never fail, from an empty cache: the larger cap's list begins with the smaller's. */
  lemma LargerCapReadsLess(c: int, b: int, size: Sizes, keys: seq<ChunkKey>)
    requires AtLeast(c, b)
    ensures FetchAll(b, size, [], keys) <= FetchAll(c, size, [], keys)
    ensures |Fetched(c, size, [], keys)| <= |Fetched(b, size, [], keys)|
  {
    var fs := Succeeding(keys);
    LargerCapExtendsIff(c, b, size, fs);
    assert FailuresMoveBoth(c, b, size, fs) && AheadAt(c, b, size, fs, |fs|);
    assert fs[..|fs|] == fs;
    ExtensionIncludes(c, b, size, fs);
    LargerCapIncludesIff(c, b, size, fs);
    FetchAllIsRun(c, size, keys);
    FetchAllIsRun(b, size, keys);
  }
}
