/**
 The recency list of internal/layer/chunkcache.go on values: what get, put and fetchChunk do
 to it, its closed form, and what a larger cap changes.
 */
module Lru {
  /** Layer digest and chunk index. */
  datatype ChunkKey = ChunkKey(layer: string, idx: nat)

  type Sizes = ChunkKey -> nat

  function Total(size: Sizes, s: seq<ChunkKey>): nat {
    if s == [] then 0 else Total(size, s[..|s| - 1]) + size(s[|s| - 1])
  }

  /** list.Remove of the element holding k. */
  function Remove(s: seq<ChunkKey>, k: ChunkKey): seq<ChunkKey> {
    if s == [] then []
    else if s[0] == k then s[1..]
    else [s[0]] + Remove(s[1..], k)
  }

  function ToFront(s: seq<ChunkKey>, k: ChunkKey): seq<ChunkKey> {
    [k] + Remove(s, k)
  }

  /** Drop from the back while over cap. */
  function Evict(cap: int, size: Sizes, s: seq<ChunkKey>): seq<ChunkKey> {
    if s != [] && Total(size, s) > cap then Evict(cap, size, s[..|s| - 1]) else s
  }

  function AfterGet(s: seq<ChunkKey>, k: ChunkKey): seq<ChunkKey> {
    if k in s then ToFront(s, k) else s
  }

  function AfterPut(cap: int, size: Sizes, s: seq<ChunkKey>, k: ChunkKey): seq<ChunkKey> {
    if k in s then ToFront(s, k)
    else if cap <= 0 then [k] + s
    else Evict(cap, size, [k] + s)
  }

  /** fetchChunk: a get, and on a miss a put once the upstream read has succeeded. */
  function AfterFetch(cap: int, size: Sizes, s: seq<ChunkKey>, k: ChunkKey, upstreamOk: bool): seq<ChunkKey> {
    if k in s then AfterGet(s, k)
    else if upstreamOk then AfterPut(cap, size, s, k)
    else s
  }

  predicate Unique(s: seq<ChunkKey>) {
    forall i, j | 0 <= i < j < |s| :: s[i] != s[j]
  }

  // ---- runs ----

  datatype Op = Get(key: ChunkKey) | Put(key: ChunkKey)

  function Perform(cap: int, size: Sizes, s: seq<ChunkKey>, op: Op): seq<ChunkKey> {
    match op
    case Get(k) => AfterGet(s, k)
    case Put(k) => AfterPut(cap, size, s, k)
  }

  /** The list left by a sequence of gets and puts. */
  function Run(cap: int, size: Sizes, start: seq<ChunkKey>, ops: seq<Op>): seq<ChunkKey> {
    if ops == [] then start
    else Perform(cap, size, Run(cap, size, start, ops[..|ops| - 1]), ops[|ops| - 1])
  }

  lemma RunMore(cap: int, size: Sizes, start: seq<ChunkKey>, ops: seq<Op>, op: Op)
    ensures Run(cap, size, start, ops + [op]) == Perform(cap, size, Run(cap, size, start, ops), op)
  {
    assert (ops + [op])[..|ops|] == ops;
  }

  lemma RunOne(cap: int, size: Sizes, start: seq<ChunkKey>, op: Op)
    ensures Run(cap, size, start, [op]) == Perform(cap, size, start, op)
  {
    RunMore(cap, size, start, [], op);
    assert [] + [op] == [op];
  }

  lemma RunNothing(cap: int, size: Sizes, start: seq<ChunkKey>)
    ensures Run(cap, size, start, []) == start
  {
  }

  lemma {:induction false} RunConcat(cap: int, size: Sizes, start: seq<ChunkKey>, a: seq<Op>, b: seq<Op>)
    ensures Run(cap, size, start, a + b) == Run(cap, size, Run(cap, size, start, a), b)
  {
    if b == [] {
      assert a + b == a;
    } else {
      var init := b[..|b| - 1];
      assert (a + b)[..|a + b| - 1] == a + init;
      RunConcat(cap, size, start, a, init);
    }
  }

  /** Without a cap nothing leaves the list. */
  lemma {:induction false} RunKeeps(cap: int, size: Sizes, start: seq<ChunkKey>, ops: seq<Op>)
    requires cap <= 0
    ensures Includes(Run(cap, size, start, ops), start)
  {
    if ops != [] {
      var s, op := Run(cap, size, start, ops[..|ops| - 1]), ops[|ops| - 1];
      RunKeeps(cap, size, start, ops[..|ops| - 1]);
      ToFrontKeeps(s, op.key);
    }
  }

  /** The keys used along a run from an empty list, oldest first: every put, and every get that hits. */
  function Uses(cap: int, size: Sizes, ops: seq<Op>): seq<ChunkKey> {
    if ops == [] then []
    else
      var init := ops[..|ops| - 1];
      var op := ops[|ops| - 1];
      Uses(cap, size, init) + if op.Put? || op.key in Run(cap, size, [], init) then [op.key] else []
  }

  /** The distinct keys of a use history, most recently used first. */
  function Recency(uses: seq<ChunkKey>): seq<ChunkKey> {
    if uses == [] then []
    else ToFront(Recency(uses[..|uses| - 1]), uses[|uses| - 1])
  }

  /** l is the longest prefix of r whose sizes fit in cap; all of r when there is no cap. */
  predicate LongestFit(cap: int, size: Sizes, r: seq<ChunkKey>, l: seq<ChunkKey>) {
    && l <= r
    && (cap <= 0 ==> l == r)
    && (cap > 0 ==> Total(size, l) <= cap)
    && (cap > 0 && |l| < |r| ==> Total(size, r[..|l| + 1]) > cap)
  }

  // ---- list facts ----

  lemma {:induction false} RemoveFacts(s: seq<ChunkKey>, k: ChunkKey)
    requires Unique(s)
    ensures Unique(Remove(s, k)) && k !in Remove(s, k)
    ensures forall x :: x in Remove(s, k) <==> x in s && x != k
    ensures k !in s ==> Remove(s, k) == s
  {
    if s != [] {
      RemoveFacts(s[1..], k);
      assert s == [s[0]] + s[1..];
      assert forall i | 0 <= i < |s[1..]| :: s[1..][i] == s[i + 1];
      var t := Remove(s[1..], k);
      forall i | 0 <= i < |t| ensures t[i] != s[0] {
        assert t[i] in t;
      }
    }
  }

  predicate Includes(b: seq<ChunkKey>, a: seq<ChunkKey>) {
    forall k | k in a :: k in b
  }

  lemma {:induction false} RemoveKeeps(s: seq<ChunkKey>, k: ChunkKey, x: ChunkKey)
    requires x in s && x != k
    ensures x in Remove(s, k)
  {
    assert s == [s[0]] + s[1..];
    if s[0] != k && s[0] != x {
      RemoveKeeps(s[1..], k, x);
    }
  }

  lemma ToFrontKeeps(s: seq<ChunkKey>, k: ChunkKey)
    ensures Includes(ToFront(s, k), s)
  {
    forall x | x in s ensures x in ToFront(s, k) {
      if x != k {
        RemoveKeeps(s, k, x);
      }
    }
  }

  lemma {:induction false} RemoveFirst(a: seq<ChunkKey>, b: seq<ChunkKey>, k: ChunkKey)
    requires k in a
    ensures Remove(a + b, k) == Remove(a, k) + b
  {
    var rest := a[1..];
    assert (a + b)[1..] == rest + b;
    if a[0] != k {
      assert a == [a[0]] + rest;
      RemoveFirst(rest, b, k);
    }
  }

  lemma {:induction false} RemoveSecond(a: seq<ChunkKey>, b: seq<ChunkKey>, k: ChunkKey)
    requires k !in a
    ensures Remove(a + b, k) == a + Remove(b, k)
  {
    if a == [] {
      assert a + b == b;
    } else {
      var rest := a[1..];
      assert a == [a[0]] + rest && (a + b)[1..] == rest + b;
      RemoveSecond(rest, b, k);
    }
  }

  lemma RemoveConcat(a: seq<ChunkKey>, b: seq<ChunkKey>, k: ChunkKey)
    ensures k in a ==> Remove(a + b, k) == Remove(a, k) + b
    ensures k !in a ==> Remove(a + b, k) == a + Remove(b, k)
  {
    hide Remove;
    if k in a {
      RemoveFirst(a, b, k);
    } else {
      RemoveSecond(a, b, k);
    }
  }

  lemma {:induction false} TotalConcat(size: Sizes, a: seq<ChunkKey>, b: seq<ChunkKey>)
    ensures Total(size, a + b) == Total(size, a) + Total(size, b)
  {
    if b == [] {
      assert a + b == a;
    } else {
      var init := b[..|b| - 1];
      assert (a + b)[..|a + b| - 1] == a + init;
      TotalConcat(size, a, init);
    }
  }

  lemma TotalOne(size: Sizes, k: ChunkKey)
    ensures Total(size, [k]) == size(k)
  {
    assert [k][..0] == [];
  }

  lemma {:induction false} TotalRemove(size: Sizes, s: seq<ChunkKey>, k: ChunkKey)
    requires k in s
    ensures Total(size, Remove(s, k)) + size(k) == Total(size, s)
  {
    assert s == [s[0]] + s[1..];
    TotalConcat(size, [s[0]], s[1..]);
    TotalOne(size, s[0]);
    if s[0] != k {
      TotalRemove(size, s[1..], k);
      TotalConcat(size, [s[0]], Remove(s[1..], k));
    }
  }

  lemma TotalToFront(size: Sizes, s: seq<ChunkKey>, k: ChunkKey)
    requires k in s
    ensures Total(size, ToFront(s, k)) == Total(size, s)
  {
    TotalRemove(size, s, k);
    TotalConcat(size, [k], Remove(s, k));
    TotalOne(size, k);
  }

  lemma TotalMonotone(size: Sizes, s: seq<ChunkKey>, i: nat)
    requires i <= |s|
    ensures Total(size, s[..i]) <= Total(size, s)
  {
    assert s == s[..i] + s[i..];
    TotalConcat(size, s[..i], s[i..]);
  }

  /** One turn of the eviction loop. */
  lemma DropLast(cap: int, size: Sizes, s: seq<ChunkKey>)
    requires Unique(s) && s != [] && Total(size, s) > cap
    ensures var t := s[..|s| - 1];
            && Evict(cap, size, s) == Evict(cap, size, t) && Total(size, s) == Total(size, t) + size(s[|s| - 1])
            && Unique(t) && s[|s| - 1] !in t && forall k :: k in s <==> k in t || k == s[|s| - 1]
  {
    assert s == s[..|s| - 1] + [s[|s| - 1]];
  }

  lemma TotalNone(size: Sizes)
    ensures Total(size, []) == 0
  {
  }

  lemma EvictDone(cap: int, size: Sizes, s: seq<ChunkKey>)
    requires Total(size, s) <= cap
    ensures Evict(cap, size, s) == s
  {
  }

  /** Evicting from the back leaves the longest fitting prefix. */
  lemma {:induction false} EvictIsLongestFit(cap: int, size: Sizes, s: seq<ChunkKey>)
    requires cap > 0
    ensures LongestFit(cap, size, s, Evict(cap, size, s))
  {
    if s != [] && Total(size, s) > cap {
      var init := s[..|s| - 1];
      EvictIsLongestFit(cap, size, init);
      var l := Evict(cap, size, init);
      if |l| < |init| {
        assert s[..|l| + 1] == init[..|l| + 1];
      } else {
        assert s[..|l| + 1] == s;
      }
    }
  }

  lemma LongestFitUnique(cap: int, size: Sizes, r: seq<ChunkKey>, a: seq<ChunkKey>, b: seq<ChunkKey>)
    requires LongestFit(cap, size, r, a) && LongestFit(cap, size, r, b)
    ensures a == b
  {
    assert a == r[..|a|] && b == r[..|b|];
    if |a| < |b| {
      assert b[..|a| + 1] == r[..|a| + 1];
      TotalMonotone(size, b, |a| + 1);
    } else if |b| < |a| {
      assert a[..|b| + 1] == r[..|b| + 1];
      TotalMonotone(size, a, |b| + 1);
    }
  }

  /** Evicting a longer list down to cap never reaches past the point where it was already over. */
  lemma LongestFitOfPrefix(cap: int, size: Sizes, r: seq<ChunkKey>, s: seq<ChunkKey>, l: seq<ChunkKey>)
    requires cap > 0 && s <= r && LongestFit(cap, size, s, l)
    requires |s| < |r| ==> Total(size, r[..|s| + 1]) > cap
    ensures LongestFit(cap, size, r, l)
  {
    assert s == r[..|s|];
    if |l| < |s| {
      assert r[..|l| + 1] == s[..|l| + 1];
    }
  }

  // ---- the closed form ----

  lemma {:induction false} RecencyUnique(uses: seq<ChunkKey>)
    ensures Unique(Recency(uses))
    ensures forall k :: k in Recency(uses) <==> k in uses
  {
    if uses != [] {
      var init, k := uses[..|uses| - 1], uses[|uses| - 1];
      assert uses == init + [k];
      RecencyUnique(init);
      RemoveFacts(Recency(init), k);
    }
  }

  /** A key's most recent use. */
  function LastUse(uses: seq<ChunkKey>, k: ChunkKey): (i: int)
    ensures -1 <= i < |uses|
    ensures i >= 0 ==> uses[i] == k
    ensures forall j | i < j < |uses| :: uses[j] != k
  {
    if uses == [] then -1
    else if uses[|uses| - 1] == k then |uses| - 1
    else LastUse(uses[..|uses| - 1], k)
  }

  lemma {:induction false} RemoveOrder(s: seq<ChunkKey>, k: ChunkKey, i: int, j: int)
    requires Unique(s) && 0 <= i < j < |Remove(s, k)|
    ensures exists a, b :: 0 <= a < b < |s| && s[a] == Remove(s, k)[i] && s[b] == Remove(s, k)[j]
  {
    if s[0] == k {
      assert s[i + 1] == Remove(s, k)[i] && s[j + 1] == Remove(s, k)[j];
    } else if i == 0 {
      RemoveFacts(s[1..], k);
      assert Remove(s, k)[j] in Remove(s[1..], k);
      var b :| 0 <= b < |s[1..]| && s[1..][b] == Remove(s, k)[j];
      assert s[0] == Remove(s, k)[0] && s[b + 1] == Remove(s, k)[j];
    } else {
      RemoveOrder(s[1..], k, i - 1, j - 1);
      var a, b :| 0 <= a < b < |s[1..]| && s[1..][a] == Remove(s, k)[i] && s[1..][b] == Remove(s, k)[j];
      assert s[a + 1] == Remove(s, k)[i] && s[b + 1] == Remove(s, k)[j];
    }
  }

  /** Two positions behind the front of ToFront come from two positions of the list, in the same order. */
  lemma ToFrontOrder(r: seq<ChunkKey>, k: ChunkKey, i: int, j: int)
    requires Unique(r) && 0 <= i < j < |ToFront(r, k)|
    ensures ToFront(r, k)[j] != k
    ensures i == 0 ==> ToFront(r, k)[i] == k
    ensures i > 0 ==> ToFront(r, k)[i] != k
    ensures i > 0 ==> exists a, b :: 0 <= a < b < |r| && r[a] == ToFront(r, k)[i] && r[b] == ToFront(r, k)[j]
  {
    var t := Remove(r, k);
    RemoveFacts(r, k);
    assert t[j - 1] in t;
    if i > 0 {
      assert t[i - 1] in t;
      RemoveOrder(r, k, i - 1, j - 1);
    }
  }

  lemma LastUseOfInit(uses: seq<ChunkKey>, k: ChunkKey)
    requires uses != [] && uses[|uses| - 1] != k
    ensures LastUse(uses, k) == LastUse(uses[..|uses| - 1], k)
  {
  }

  /** Recency lists keys by descending last use. */
  lemma {:induction false} RecencyOrder(uses: seq<ChunkKey>, i: int, j: int)
    requires 0 <= i < j < |Recency(uses)|
    ensures LastUse(uses, Recency(uses)[i]) > LastUse(uses, Recency(uses)[j])
  {
    var init, k := uses[..|uses| - 1], uses[|uses| - 1];
    var r := Recency(init);
    RecencyUnique(init);
    var x, y := Recency(uses)[i], Recency(uses)[j];
    assert Recency(uses) == ToFront(r, k);
    ToFrontOrder(r, k, i, j);
    LastUseOfInit(uses, y);
    if i > 0 {
      LastUseOfInit(uses, x);
      var a, b :| 0 <= a < b < |r| && r[a] == x && r[b] == y;
      RecencyOrder(init, a, b);
    }
  }

  /** Reordering a prefix without changing its keys keeps it the longest fit. */
  lemma FitReordered(cap: int, size: Sizes, s: seq<ChunkKey>, t: seq<ChunkKey>, rest: seq<ChunkKey>)
    requires LongestFit(cap, size, s + rest, s) && |t| == |s| && Total(size, t) == Total(size, s)
    ensures LongestFit(cap, size, t + rest, t)
  {
    if rest != [] && cap > 0 {
      assert (s + rest)[..|s| + 1] == s + [rest[0]];
      assert (t + rest)[..|t| + 1] == t + [rest[0]];
      TotalConcat(size, s, [rest[0]]);
      TotalConcat(size, t, [rest[0]]);
    }
  }

  lemma AfterGetFit(cap: int, size: Sizes, r: seq<ChunkKey>, s: seq<ChunkKey>, k: ChunkKey)
    requires LongestFit(cap, size, r, s) && k in s
    ensures LongestFit(cap, size, ToFront(r, k), ToFront(s, k))
  {
    var rest := r[|s|..];
    assert r == s + rest;
    RemoveConcat(s, rest, k);
    assert ToFront(r, k) == ToFront(s, k) + rest;
    TotalToFront(size, s, k);
    RemoveLength(s, k);
    FitReordered(cap, size, s, ToFront(s, k), rest);
  }

  lemma {:induction false} RemoveLength(s: seq<ChunkKey>, k: ChunkKey)
    requires k in s
    ensures |Remove(s, k)| == |s| - 1
  {
    assert s == [s[0]] + s[1..];
    if s[0] != k {
      RemoveLength(s[1..], k);
    }
  }

  lemma AfterPutFit(cap: int, size: Sizes, r: seq<ChunkKey>, s: seq<ChunkKey>, k: ChunkKey)
    requires LongestFit(cap, size, r, s) && Unique(r)
    ensures LongestFit(cap, size, ToFront(r, k), AfterPut(cap, size, s, k))
  {
    assert Remove([], k) == [];
    hide Total, Evict, Remove;
    var rest := r[|s|..];
    assert r == s + rest;
    RemoveConcat(s, rest, k);
    if k in s {
      AfterGetFit(cap, size, r, s, k);
    } else if cap <= 0 {
      RemoveFacts(r, k);
    } else {
      var front := [k] + s;
      var r' := ToFront(r, k);
      assert r' == front + Remove(rest, k);
      EvictIsLongestFit(cap, size, front);
      if |front| < |r'| {
        FirstLeftOut(cap, size, s, rest, k);
        assert r'[..|front| + 1] == front + [Remove(rest, k)[0]];
      }
      LongestFitOfPrefix(cap, size, r', front, Evict(cap, size, front));
    }
  }

  /** Putting a fresh key in front keeps the first left-out key over the cap. */
  lemma FirstLeftOut(cap: int, size: Sizes, s: seq<ChunkKey>, rest: seq<ChunkKey>, k: ChunkKey)
    requires rest != [] && Remove(rest, k) != []
    requires Total(size, (s + rest)[..|s| + 1]) > cap
    ensures Total(size, [k] + s + [Remove(rest, k)[0]]) > cap
  {
    assert (s + rest)[..|s| + 1] == s + [rest[0]];
    var x := Remove(rest, k)[0];
    TotalConcat(size, s, [rest[0]]);
    TotalConcat(size, [k], s);
    TotalConcat(size, [k] + s, [x]);
    TotalOne(size, k);
    TotalOne(size, rest[0]);
    TotalOne(size, x);
  }

  /**
   After any sequence of gets and puts the list is the longest most-recent-first prefix of the
   recency order of all keys used so far whose total fits in the cap.
   */
  lemma {:induction false} ClosedForm(cap: int, size: Sizes, ops: seq<Op>)
    ensures LongestFit(cap, size, Recency(Uses(cap, size, ops)), Run(cap, size, [], ops))
  {
    if ops != [] {
      var init, op := ops[..|ops| - 1], ops[|ops| - 1];
      ClosedForm(cap, size, init);
      var uses, s := Uses(cap, size, init), Run(cap, size, [], init);
      RecencyUnique(uses);
      if op.Put? || op.key in s {
        assert Uses(cap, size, ops) == uses + [op.key];
        assert (uses + [op.key])[..|uses|] == uses;
      } else {
        assert Uses(cap, size, ops) == uses + [];
        assert uses + [] == uses;
      }
      match op
      case Get(k) =>
        if k in s {
          AfterGetFit(cap, size, Recency(uses), s, k);
        }
      case Put(k) =>
        AfterPutFit(cap, size, Recency(uses), s, k);
    }
  }

  // ---- fetching lists of keys without upstream errors ----

  function FetchAll(cap: int, size: Sizes, s: seq<ChunkKey>, keys: seq<ChunkKey>): seq<ChunkKey> {
    if keys == [] then s
    else AfterFetch(cap, size, FetchAll(cap, size, s, keys[..|keys| - 1]), keys[|keys| - 1], true)
  }

  /** The keys read upstream along the way. */
  function Fetched(cap: int, size: Sizes, s: seq<ChunkKey>, keys: seq<ChunkKey>): seq<ChunkKey> {
    if keys == [] then []
    else
      var init, k := keys[..|keys| - 1], keys[|keys| - 1];
      Fetched(cap, size, s, init) + if k in FetchAll(cap, size, s, init) then [] else [k]
  }

  /** Consecutive reads are one run over the concatenated keys. */
  lemma {:induction false} FetchAllConcat(cap: int, size: Sizes, s: seq<ChunkKey>, a: seq<ChunkKey>, b: seq<ChunkKey>)
    ensures FetchAll(cap, size, s, a + b) == FetchAll(cap, size, FetchAll(cap, size, s, a), b)
    ensures Fetched(cap, size, s, a + b) == Fetched(cap, size, s, a) + Fetched(cap, size, FetchAll(cap, size, s, a), b)
  {
    if b == [] {
      assert a + b == a;
    } else {
      var init := b[..|b| - 1];
      assert (a + b)[..|a + b| - 1] == a + init;
      FetchAllConcat(cap, size, s, a, init);
    }
  }

  /** Without a cap nothing is ever dropped, so no key is read upstream twice in any run. */
  lemma {:induction false} UnboundedFetchesOnce(cap: int, size: Sizes, s: seq<ChunkKey>, keys: seq<ChunkKey>)
    requires cap <= 0 && Unique(s)
    ensures Unique(FetchAll(cap, size, s, keys)) && Unique(Fetched(cap, size, s, keys))
    ensures forall k :: k in FetchAll(cap, size, s, keys) <==> k in s || k in keys
    ensures forall k :: k in Fetched(cap, size, s, keys) <==> k in keys && k !in s
  {
    if keys != [] {
      var init, k := keys[..|keys| - 1], keys[|keys| - 1];
      assert keys == init + [k];
      UnboundedFetchesOnce(cap, size, s, init);
      RemoveFacts(FetchAll(cap, size, s, init), k);
    }
  }

  /** The keys of layer chunks i..j. */
  function ChunkRange(layer: string, i: nat, j: nat): seq<ChunkKey> {
    if i >= j then [] else ChunkRange(layer, i, j - 1) + [ChunkKey(layer, j - 1)]
  }

  // ---- sizes matter only on the listed keys ----

  predicate SameSizes(a: Sizes, b: Sizes, s: seq<ChunkKey>) {
    forall i | 0 <= i < |s| :: a(s[i]) == b(s[i])
  }

  lemma {:induction false} TotalSame(a: Sizes, b: Sizes, s: seq<ChunkKey>)
    requires SameSizes(a, b, s)
    ensures Total(a, s) == Total(b, s)
  {
    if s != [] {
      TotalSame(a, b, s[..|s| - 1]);
    }
  }

  lemma {:induction false} EvictSame(cap: int, a: Sizes, b: Sizes, s: seq<ChunkKey>)
    requires SameSizes(a, b, s)
    ensures Evict(cap, a, s) == Evict(cap, b, s)
  {
    TotalSame(a, b, s);
    if s != [] && Total(a, s) > cap {
      EvictSame(cap, a, b, s[..|s| - 1]);
    }
  }
}
