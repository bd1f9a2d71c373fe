/** internal/layer/chunkcache.go: the shared chunk cache and the reader that fronts a layer blob with it. */
module ChunkCache {
  import opened Wrappers
  import opened Lru
  import LruInclusion

  type byte = bv8

  /** The compressed blob behind every layer digest. */
  type Blobs = string -> seq<byte>

  function Min(a: int, b: int): int {
    if a < b then a else b
  }

  /** A chunk that exists: it starts inside its layer's blob. */
  predicate InBlob(w: Blobs, chunkSize: int, k: ChunkKey)
    requires chunkSize > 0
  {
    ChunkStart(k.idx, chunkSize) < |w(k.layer)|
  }

  /** A blob's bytes in the window of chunk k. */
  function ChunkOf(w: Blobs, chunkSize: int, k: ChunkKey): (c: seq<byte>)
    requires chunkSize > 0 && InBlob(w, chunkSize, k)
    ensures |c| > 0
  {
    var start := ChunkStart(k.idx, chunkSize);
    w(k.layer)[start..Min(start + chunkSize, |w(k.layer)|)]
  }

  function ChunkSizes(w: Blobs, chunkSize: int): Sizes {
    (k: ChunkKey) => if chunkSize > 0 && InBlob(w, chunkSize, k) then |ChunkOf(w, chunkSize, k)| else 0
  }

  function SizesOf(items: map<ChunkKey, seq<byte>>): Sizes {
    (k: ChunkKey) => if k in items then |items[k]| else 0
  }

  /** What another reader of the same cache may do between two steps of this one. */
  datatype EnvStep = EnvGet(key: ChunkKey) | EnvPut(key: ChunkKey)

  /** The gets and puts of other readers' steps: chunks that do not exist are never inserted. */
  function EnvOps(w: Blobs, chunkSize: int, steps: seq<EnvStep>): seq<Op> {
    if steps == [] then []
    else EnvOps(w, chunkSize, steps[..|steps| - 1]) + EnvOp(w, chunkSize, steps[|steps| - 1])
  }

  function EnvOp(w: Blobs, chunkSize: int, step: EnvStep): seq<Op> {
    match step
    case EnvGet(k) => [Op.Get(k)]
    case EnvPut(k) => if chunkSize > 0 && InBlob(w, chunkSize, k) then [Op.Put(k)] else []
  }

  /** The data a caller stores under every key, and its lengths. */
  type Store = ChunkKey -> seq<byte>

  function Lengths(data: Store): Sizes {
    (k: ChunkKey) => |data(k)|
  }

  class Cache {
    const cap: int
    const chunkSize: int
    var used: int
    var items: map<ChunkKey, seq<byte>>
    var lru: seq<ChunkKey>

    /** Map and list hold the same keys, used is the sum of the data lengths, and a cap is kept. */
    ghost predicate Valid()
      reads this
    {
      && chunkSize > 0
      && Unique(lru)
      && (forall k :: k in items <==> k in lru)
      && used == Total(SizesOf(items), lru)
      && (cap > 0 ==> used <= cap)
    }

    /** Every cached chunk is its layer's bytes in the chunk's window. */
    ghost predicate Faithful(w: Blobs)
      reads this
      requires chunkSize > 0
    {
      forall k | k in items :: InBlob(w, chunkSize, k) && items[k] == ChunkOf(w, chunkSize, k)
    }

    constructor (capBytes: int, chunkBytes: int)
      ensures Valid() && items == map[] && lru == [] && used == 0
      ensures cap == capBytes && chunkSize == if chunkBytes <= 0 then 0x10_0000 else chunkBytes
    {
      cap := capBytes;
      chunkSize := if chunkBytes <= 0 then 0x10_0000 else chunkBytes;
      used := 0;
      items := map[];
      lru := [];
    }

    method Used() returns (n: int)
      requires Valid()
      ensures n == Total(SizesOf(items), lru)
      ensures cap > 0 ==> n <= cap
    {
      n := used;
    }

    method Get(key: ChunkKey) returns (data: Option<seq<byte>>)
      requires Valid()
      modifies this`lru
      ensures Valid() && lru == AfterGet(old(lru), key)
      ensures data == if key in items then Some(items[key]) else None
    {
      if key !in items {
        return None;
      }
      RemoveFacts(lru, key);
      TotalToFront(SizesOf(items), lru, key);
      lru := ToFront(lru, key);
      return Some(items[key]);
    }

    method Put(key: ChunkKey, data: seq<byte>)
      requires Valid()
      modifies this
      ensures Valid()
      ensures lru == AfterPut(cap, SizesOf(old(items)[key := data]), old(lru), key)
      ensures key in old(items) ==> items == old(items)
      ensures key !in old(items) ==> items == map k | k in old(items)[key := data] && k in lru :: old(items)[key := data][k]
    {
      if key in items {
        RemoveFacts(lru, key);
        TotalToFront(SizesOf(items), lru, key);
        lru := ToFront(lru, key);
        return;
      }
      TotalConcat(SizesOf(items[key := data]), [key], lru);
      TotalOne(SizesOf(items[key := data]), key);
      TotalSame(SizesOf(items[key := data]), SizesOf(items), lru);
      lru := [key] + lru;
      items := items[key := data];
      used := used + |data|;
      if cap <= 0 {
        return;
      }
      EvictToCap();
    }

    /** put's eviction loop. */
    method EvictToCap()
      requires chunkSize > 0 && cap > 0 && Unique(lru)
      requires (forall k :: k in items <==> k in lru) && used == Total(SizesOf(items), lru)
      modifies this
      ensures Valid()
      ensures lru == Evict(cap, SizesOf(old(items)), old(lru))
      ensures items == map k | k in old(items) && k in lru :: old(items)[k]
    {
      hide Evict, Total, Unique;
      ghost var size := SizesOf(items);
      while used > cap
        invariant Unique(lru) && (forall k | k in lru :: k in old(items))
        invariant Evict(cap, size, lru) == Evict(cap, size, old(lru))
        invariant items == map k | k in old(items) && k in lru :: old(items)[k]
        invariant used == Total(size, lru)
        decreases |lru|
      {
        if lru == [] {
          TotalNone(size);
          break;
        }
        var oldest := lru[|lru| - 1];
        DropLast(cap, size, lru);
        lru := lru[..|lru| - 1];
        used := used - |items[oldest]|;
        items := items - {oldest};
      }
      TotalNone(size);
      EvictDone(cap, size, lru);
      TotalSame(size, SizesOf(items), lru);
    }

    /** Steps of other readers: lookups, and insertions of chunks they read themselves. */
    method Interfere(w: Blobs, steps: seq<EnvStep>)
      requires Valid() && Faithful(w)
      modifies this
      ensures Valid() && Faithful(w)
      ensures lru == Run(cap, ChunkSizes(w, chunkSize), old(lru), EnvOps(w, chunkSize, steps))
      ensures steps == [] ==> lru == old(lru) && items == old(items) && used == old(used)
    {
      hide Valid, Faithful, ChunkSizes, EnvOp;
      ValidChunkSize(this);
      for i := 0 to |steps|
        invariant Valid() && Faithful(w)
        invariant lru == Run(cap, ChunkSizes(w, chunkSize), old(lru), EnvOps(w, chunkSize, steps[..i]))
        invariant i == 0 ==> lru == old(lru) && items == old(items) && used == old(used)
      {
        assert steps[..i + 1][..i] == steps[..i];
        RunConcat(cap, ChunkSizes(w, chunkSize), old(lru), EnvOps(w, chunkSize, steps[..i]), EnvOp(w, chunkSize, steps[i]));
        InterfereOnce(w, steps[i]);
      }
      assert steps[..|steps|] == steps;
    }

    method InterfereOnce(w: Blobs, step: EnvStep)
      requires Valid() && Faithful(w)
      modifies this
      ensures Valid() && Faithful(w)
      ensures lru == Run(cap, ChunkSizes(w, chunkSize), old(lru), EnvOp(w, chunkSize, step))
    {
      hide Run, AfterGet, AfterPut, Total, Unique;
      match step
      case EnvGet(k) =>
        RunOne(cap, ChunkSizes(w, chunkSize), lru, Op.Get(k));
        var _ := Get(k);
      case EnvPut(k) =>
        if InBlob(w, chunkSize, k) {
          RunOne(cap, ChunkSizes(w, chunkSize), lru, Op.Put(k));
          FaithfulPut(w, this, k);
          Put(k, ChunkOf(w, chunkSize, k));
        } else {
          RunNothing(cap, ChunkSizes(w, chunkSize), lru);
        }
    }

    /** Any sequence of gets and puts, every key with data of its own. */
    method Replay(ops: seq<Op>, data: Store)
      requires Valid() && forall k | k in items :: items[k] == data(k)
      modifies this
      ensures Valid() && forall k | k in items :: items[k] == data(k)
      ensures lru == Run(cap, Lengths(data), old(lru), ops)
      ensures old(lru) == [] ==> LongestFit(cap, Lengths(data), Recency(Uses(cap, Lengths(data), ops)), lru)
    {
      for i := 0 to |ops|
        invariant Valid() && forall k | k in items :: items[k] == data(k)
        invariant lru == Run(cap, Lengths(data), old(lru), ops[..i])
      {
        RunMore(cap, Lengths(data), old(lru), ops[..i], ops[i]);
        assert ops[..i + 1] == ops[..i] + [ops[i]];
        match ops[i]
        case Get(k) =>
          var _ := Get(k);
        case Put(k) =>
          PutSizes(this, k, data(k), Lengths(data));
          Put(k, data(k));
      }
      assert ops[..|ops|] == ops;
      ClosedForm(cap, Lengths(data), ops);
    }
  }

  /** put's effect on the list under any sizes that agree with the data held and inserted. */
  lemma PutSizes(c: Cache, key: ChunkKey, data: seq<byte>, size: Sizes)
    requires c.Valid() && size(key) == |data| && forall k | k in c.items :: size(k) == |c.items[k]|
    ensures AfterPut(c.cap, SizesOf(c.items[key := data]), c.lru, key) == AfterPut(c.cap, size, c.lru, key)
  {
    if key !in c.lru {
      EvictSame(c.cap, SizesOf(c.items[key := data]), size, [key] + c.lru);
    }
  }

  lemma FaithfulPut(w: Blobs, c: Cache, key: ChunkKey)
    requires c.Valid() && c.Faithful(w) && InBlob(w, c.chunkSize, key)
    ensures var all := c.items[key := ChunkOf(w, c.chunkSize, key)];
            AfterPut(c.cap, SizesOf(all), c.lru, key) == AfterPut(c.cap, ChunkSizes(w, c.chunkSize), c.lru, key)
  {
    PutSizes(c, key, ChunkOf(w, c.chunkSize, key), ChunkSizes(w, c.chunkSize));
  }

  lemma ValidChunkSize(c: Cache)
    requires c.Valid()
    ensures c.chunkSize > 0
  {
  }

  /** Cutting a read at the end of the blob, measured from its start and from its offset. */
  lemma ReadLength(length: nat, off: int, size: int)
    ensures Min(off + length, size) - off == Min(length, size - off)
    ensures Min(length, size - off) <= length && Min(length, size - off) <= size - off
    ensures Min(length, size - off) == length || Min(length, size - off) == size - off
  {
  }

  datatype ReadError = Nil | EOF | Upstream

  class LayerView {
    const global: Cache
    const layer: string
    const size: int

    constructor (global: Cache, layer: string, size: int)
      ensures this.global == global && this.layer == layer && this.size == size
    {
      this.global := global;
      this.layer := layer;
      this.size := size;
    }

    /**
     fetchChunk.  Upstream serves exactly the blob unless it fails; others may use the cache
     while the upstream read is under way.
     */
    method FetchChunk(w: Blobs, idx: nat, fails: bool, meanwhile: seq<EnvStep>)
      returns (chunk: Option<seq<byte>>, hit: bool)
      requires global.Valid() && global.Faithful(w)
      requires size == |w(layer)| && InBlob(w, global.chunkSize, ChunkKey(layer, idx))
      modifies global
      ensures global.Valid() && global.Faithful(w)
      ensures hit <==> ChunkKey(layer, idx) in old(global.lru)
      ensures chunk == if hit || !fails then Some(ChunkOf(w, global.chunkSize, ChunkKey(layer, idx))) else None
      ensures var sizes, key := ChunkSizes(w, global.chunkSize), ChunkKey(layer, idx);
              var mid := Run(global.cap, sizes, old(global.lru), EnvOps(w, global.chunkSize, meanwhile));
              global.lru == if hit then AfterGet(old(global.lru), key) else if fails then mid else AfterPut(global.cap, sizes, mid, key)
      ensures meanwhile == [] ==>
                global.lru == AfterFetch(global.cap, ChunkSizes(w, global.chunkSize), old(global.lru), ChunkKey(layer, idx), !fails)
    {
      var key := ChunkKey(layer, idx);
      var data := global.Get(key);
      if data.Some? {
        return data, true;
      }
      global.Interfere(w, meanwhile);
      if fails {
        return None, false;
      }
      var buf := ChunkOf(w, global.chunkSize, key);
      FaithfulPut(w, global, key);
      global.Put(key, buf);
      return Some(buf), false;
    }

    /**
     ReadAt.  sched gives other readers' steps before and during each chunk fetch, outage the
     upstream reads that fail; fetched lists the chunks read upstream.
     */
    method ReadAt(p: array<byte>, off: int, w: Blobs, sched: nat -> seq<EnvStep>, outage: nat -> bool)
      returns (n: nat, err: ReadError, fetched: seq<ChunkKey>)
      requires global.Valid() && global.Faithful(w) && size == |w(layer)|
      modifies p, global
      ensures global.Valid() && global.Faithful(w)
      ensures off < 0 || off >= size ==> n == 0 && err == EOF && fetched == []
      ensures off < 0 || off >= size || p.Length == 0 ==> global.lru == old(global.lru)
      ensures 0 <= off < size ==> n <= Min(p.Length, size - off) && p[..n] == w(layer)[off..off + n]
      ensures n <= p.Length && p[n..] == old(p[n..])
      ensures err == Nil ==> n == p.Length
      ensures err == EOF ==> n < p.Length || off < 0 || off >= size
      ensures err == EOF && 0 <= off < size ==> n == size - off
      ensures err == Upstream ==> 0 <= off < size && n < Min(p.Length, size - off) && exists t :: outage(t)
      ensures 0 <= off < size && p.Length == 0 ==> fetched == []
      ensures 0 <= off < size && 0 < p.Length ==>
                var first, last := ChunkIndex(off, global.chunkSize), ChunkIndex(off + Min(p.Length, size - off) - 1, global.chunkSize);
                AscendingChunks(fetched, layer, first, last + 1)
      ensures global.cap <= 0 ==> forall k | k in fetched :: k !in old(global.lru)
      ensures 0 <= off < size && 0 < p.Length && Calm(sched) ==>
                var sizes := ChunkSizes(w, global.chunkSize);
                if err != Upstream then
                  RunOf(global.cap, sizes, old(global.lru), ReadKeys(layer, global.chunkSize, off, Min(p.Length, size - off)),
                        global.lru, fetched)
                else
                  FailedRun(global.cap, sizes, old(global.lru), layer, ChunkIndex(off, global.chunkSize),
                            ChunkIndex(off + n, global.chunkSize), global.lru, fetched)
    {
      hide Cache.Valid, Cache.Faithful, Filled, ReadKeys, RunOf, FailedRun, AscendingChunks, ChunkRange, ChunkIndex, ChunkSizes, Calm;
      ValidChunkSize(global);
      ReadLength(p.Length, off, size);
      if off < 0 || off >= size {
        return 0, EOF, [];
      }
      var end := Min(off + p.Length, size);
      ghost var job := Job(layer, global.chunkSize, global.cap, ChunkSizes(w, global.chunkSize), off, end,
                           w(layer), p[..], global.lru, Calm(sched));
      CalmSteps(sched);
      var done;
      n, done, fetched := ReadWindow(p, off, end, w, sched, outage, job);
      WindowMeans(job, n, done, p[..], global.lru, fetched);
      FilledMeans(p[..], old(p[..]), w(layer), off, n);
      err := if !done then Upstream else if n < p.Length then EOF else Nil;
    }

    /** ReadAt's loop over the chunks under [off, end); done is false when an upstream read failed. */
    method ReadWindow(p: array<byte>, off: int, end: int, w: Blobs, sched: nat -> seq<EnvStep>, outage: nat -> bool,
                      ghost job: Job)
      returns (written: nat, done: bool, fetched: seq<ChunkKey>)
      requires global.Valid() && global.Faithful(w) && size == |w(layer)|
      requires 0 <= off <= end <= size && end - off <= p.Length && global.chunkSize > 0
      requires job == Job(layer, global.chunkSize, global.cap, ChunkSizes(w, global.chunkSize), off, end, w(layer),
                          p[..], global.lru, job.calm)
      requires job.calm ==> forall t: nat :: sched(t) == []
      modifies p, global
      ensures global.Valid() && global.Faithful(w)
      ensures WindowRead(job, written, done, p[..], global.lru, fetched)
      ensures !done ==> exists t :: outage(t)
    {
      fetched := [];
      written := 0;
      var cur := off;
      var step: nat := 0;
      ProgressStart(job);
      hide *;
      while cur < end
        invariant global.Valid() && global.Faithful(w)
        invariant off <= cur <= end && written == cur - off
        invariant Progress(job, cur, p[..], global.lru, fetched)
        decreases end - cur
      {
        ghost var lru, was, sofar := global.lru, p[..], fetched;
        var n, ok, hit := ReadChunk(p, off, cur, end, w, sched(step), sched(step + 1), outage(step), job);
        if !ok {
          ProgressFailed(job, cur, was, lru, global.lru, fetched);
          return written, false, fetched;
        }
        if !hit {
          fetched := fetched + [ChunkKey(layer, ChunkIndex(cur, global.chunkSize))];
        }
        ProgressMore(job, cur, n, was, p[..], lru, global.lru, sofar, hit);
        written := written + n;
        cur := cur + n;
        step := step + 2;
        if n == 0 {
          break;
        }
      }
      ProgressDone(job, p[..], global.lru, fetched);
      done := true;
    }

    /** One turn of ReadAt's loop: fetch the chunk under cur and copy what the read wants of it. */
    method ReadChunk(p: array<byte>, off: int, cur: int, end: int, w: Blobs,
                     before: seq<EnvStep>, meanwhile: seq<EnvStep>, fails: bool, ghost job: Job)
      returns (n: nat, ok: bool, hit: bool)
      requires global.Valid() && global.Faithful(w) && size == |w(layer)|
      requires 0 <= off <= cur < end <= size && end - off <= p.Length == |job.was|
      requires job == Job(layer, global.chunkSize, global.cap, ChunkSizes(w, global.chunkSize), off, end, w(layer),
                          job.was, job.before, job.calm)
      requires job.calm ==> before == [] && meanwhile == []
      modifies p, global
      ensures global.Valid() && global.Faithful(w)
      ensures ok ==> cur + n <= end && Turn(job, cur, n, old(p[..]), p[..], old(global.lru), global.lru, hit)
      ensures !ok ==> fails && n == 0 && p[..] == old(p[..])
      ensures !ok && job.calm ==> global.lru == old(global.lru) && ChunkKey(layer, ChunkIndex(cur, global.chunkSize)) !in global.lru
    {
      hide *;
      EnvOpsNone(w, global.chunkSize);
      ValidChunkSize(global);
      StartInBlob(w, global.chunkSize, layer, cur);
      ChunkPlan(cur, end, size, global.chunkSize);
      var idx := ChunkIndex(cur, global.chunkSize);
      var chunkStart := ChunkStart(idx, global.chunkSize);
      var chunkEnd := Min(chunkStart + global.chunkSize, size);
      global.Interfere(w, before);
      ghost var mid := global.lru;
      var chunk;
      chunk, hit := FetchChunk(w, idx, fails, meanwhile);
      FetchedList(global.cap, ChunkSizes(w, global.chunkSize), ChunkKey(layer, idx), old(global.lru),
                  EnvOps(w, global.chunkSize, before), mid, EnvOps(w, global.chunkSize, meanwhile), global.lru, hit, fails);
      if chunk == None {
        return 0, false, hit;
      }
      var copyEnd := Min(chunkEnd, end);
      ChunkPiece(w, global.chunkSize, ChunkKey(layer, idx), cur, copyEnd);
      n := CopyInto(p, cur - off, chunk.value[cur - chunkStart..copyEnd - chunkStart]);
      ok := true;
      TurnIs(job, cur, n, old(p[..]), p[..], old(global.lru), global.lru, hit);
    }
  }

  /** FetchChunk between other readers' steps, on the list. */
  lemma FetchedList(cap: int, size: Sizes, key: ChunkKey, s0: seq<ChunkKey>, before: seq<Op>, s1: seq<ChunkKey>,
                    meanwhile: seq<Op>, s2: seq<ChunkKey>, hit: bool, fails: bool)
    requires s1 == Run(cap, size, s0, before) && (hit <==> key in s1)
    requires var mid := Run(cap, size, s1, meanwhile);
             s2 == if hit then AfterGet(s1, key) else if fails then mid else AfterPut(cap, size, mid, key)
    ensures before == [] && meanwhile == [] ==>
              && (hit <==> key in s0)
              && (hit || !fails ==> s2 == AfterFetch(cap, size, s0, key, true))
              && (!hit && fails ==> s2 == s0)
    ensures cap <= 0 ==> Includes(s2, s0) && (key in s0 ==> hit)
  {
    var mid := Run(cap, size, s1, meanwhile);
    if cap <= 0 {
      RunKeeps(cap, size, s0, before);
      RunKeeps(cap, size, s1, meanwhile);
      ToFrontKeeps(s1, key);
      ToFrontKeeps(mid, key);
    }
    hide ToFront;
  }

  lemma EnvOpsNone(w: Blobs, chunkSize: int)
    ensures EnvOps(w, chunkSize, []) == []
  {
  }

  /** The part of its chunk a read wants lies at the read position, and the next chunk begins behind it. */
  lemma ChunkPlan(cur: int, end: int, size: int, cs: int)
    requires 0 <= cur < end <= size && cs > 0
    ensures var idx := ChunkIndex(cur, cs);
            var start := ChunkStart(idx, cs);
            var chunkEnd := Min(start + cs, size);
            var copyEnd := Min(chunkEnd, end);
            && 0 <= start <= cur < copyEnd <= chunkEnd && copyEnd <= end
            && (copyEnd < end ==> ChunkIndex(copyEnd, cs) == idx + 1)
            && (copyEnd == end ==> ChunkIndex(end - 1, cs) == idx)
  {
    Window(cur, cs);
    hide ChunkIndex, ChunkStart;
    var start := ChunkStart(ChunkIndex(cur, cs), cs);
    NextWindow(ChunkIndex(cur, cs), cs, Min(Min(start + cs, size), end), end);
  }

  // ---- reads one after the other ----

  /** One read of a layer. */
  datatype Request = Request(view: LayerView, off: int, length: nat)

  /** What a plain read of the blob returns. */
  function Plain(blob: seq<byte>, off: int, length: nat): seq<byte> {
    if 0 <= off < |blob| then blob[off..off + Min(length, |blob| - off)] else []
  }

  /** The chunks under a read. */
  function ChunksUnder(w: Blobs, chunkSize: int, r: Request): seq<ChunkKey>
    requires chunkSize > 0
  {
    var size := |w(r.view.layer)|;
    if 0 <= r.off < size && r.length > 0 then ReadKeys(r.view.layer, chunkSize, r.off, Min(r.length, size - r.off))
    else []
  }

  function AllChunksUnder(w: Blobs, chunkSize: int, requests: seq<Request>): seq<ChunkKey>
    requires chunkSize > 0
  {
    if requests == [] then []
    else AllChunksUnder(w, chunkSize, requests[..|requests| - 1]) + ChunksUnder(w, chunkSize, requests[|requests| - 1])
  }

  ghost predicate AllQuiet(scheds: nat -> nat -> seq<EnvStep>, outages: nat -> nat -> bool) {
    forall i :: Quiet(scheds(i), outages(i))
  }

  lemma QuietHasNoOutage(sched: nat -> seq<EnvStep>, outage: nat -> bool)
    requires Quiet(sched, outage)
    ensures Calm(sched) && !exists t :: outage(t)
  {
  }

  method ReadOne(cache: Cache, r: Request, w: Blobs, sched: nat -> seq<EnvStep>, outage: nat -> bool, ghost quiet: bool)
    returns (out: seq<byte>, fetched: seq<ChunkKey>)
    requires cache.Valid() && cache.Faithful(w) && r.view.global == cache && r.view.size == |w(r.view.layer)|
    requires cache.chunkSize > 0 && (quiet ==> Quiet(sched, outage))
    modifies cache
    ensures cache.Valid() && cache.Faithful(w)
    ensures ReadDone(w, cache.cap, cache.chunkSize, r, old(cache.lru), out, cache.lru, fetched, quiet)
  {
    hide Cache.Valid, Cache.Faithful, ReadKeys, RunOf, FailedRun, AscendingChunks, ChunkIndex, ChunkSizes, Quiet, Calm;
    RunOfNothing(cache.cap, ChunkSizes(w, cache.chunkSize), cache.lru);
    var p := new byte[r.length];
    var n, err;
    n, err, fetched := r.view.ReadAt(p, r.off, w, sched, outage);
    out := p[..n];
    if quiet {
      QuietHasNoOutage(sched, outage);
    }
  }

  lemma RunOfNothing(cap: int, size: Sizes, s: seq<ChunkKey>)
    ensures RunOf(cap, size, s, [], s, [])
  {
  }

  /** Every output is a beginning of what its read asks for; all of it, when whole. */
  ghost predicate Answers(w: Blobs, requests: seq<Request>, outs: seq<seq<byte>>, whole: bool) {
    && |outs| == |requests|
    && forall i | 0 <= i < |requests| ::
         && outs[i] <= Plain(w(requests[i].view.layer), requests[i].off, requests[i].length)
         && (whole ==> outs[i] == Plain(w(requests[i].view.layer), requests[i].off, requests[i].length))
  }

  /** The requests so far are answered, and undisturbed have been one run over their chunks. */
  ghost predicate InTurn(w: Blobs, cache: CacheView, requests: seq<Request>, outs: seq<seq<byte>>,
                         lru: seq<ChunkKey>, fetched: seq<ChunkKey>, quiet: bool)
    requires cache.chunkSize > 0
  {
    && Answers(w, requests, outs, quiet)
    && (quiet ==> RunOf(cache.cap, ChunkSizes(w, cache.chunkSize), cache.was, AllChunksUnder(w, cache.chunkSize, requests), lru, fetched))
  }

  /** A cache's parameters and the list a sequence of reads found. */
  datatype CacheView = CacheView(cap: int, chunkSize: int, was: seq<ChunkKey>)

  /** One request has been read. */
  ghost predicate ReadDone(w: Blobs, cap: int, chunkSize: int, r: Request, mid: seq<ChunkKey>, out: seq<byte>,
                           lru: seq<ChunkKey>, more: seq<ChunkKey>, quiet: bool)
    requires chunkSize > 0
  {
    && out <= Plain(w(r.view.layer), r.off, r.length)
    && (quiet ==> out == Plain(w(r.view.layer), r.off, r.length)
                  && RunOf(cap, ChunkSizes(w, chunkSize), mid, ChunksUnder(w, chunkSize, r), lru, more))
  }

  lemma InTurnStart(w: Blobs, cache: CacheView, quiet: bool)
    requires cache.chunkSize > 0
    ensures InTurn(w, cache, [], [], cache.was, [], quiet)
  {
  }

  lemma InTurnMore(w: Blobs, cache: CacheView, requests: seq<Request>, outs: seq<seq<byte>>, mid: seq<ChunkKey>,
                   fetched: seq<ChunkKey>, r: Request, out: seq<byte>, lru: seq<ChunkKey>, more: seq<ChunkKey>, quiet: bool)
    requires cache.chunkSize > 0 && InTurn(w, cache, requests, outs, mid, fetched, quiet)
    requires ReadDone(w, cache.cap, cache.chunkSize, r, mid, out, lru, more, quiet)
    ensures InTurn(w, cache, requests + [r], outs + [out], lru, fetched + more, quiet)
  {
    hide Plain, RunOf, ChunksUnder, ChunkSizes;
    assert (requests + [r])[..|requests|] == requests;
    if quiet {
      RunOfThen(cache.cap, ChunkSizes(w, cache.chunkSize), cache.was, AllChunksUnder(w, cache.chunkSize, requests), mid,
                fetched, ChunksUnder(w, cache.chunkSize, r), lru, more);
    }
  }

  lemma InTurnDone(w: Blobs, cache: CacheView, requests: seq<Request>, outs: seq<seq<byte>>,
                   lru: seq<ChunkKey>, fetched: seq<ChunkKey>, quiet: bool)
    requires cache.chunkSize > 0 && Unique(cache.was) && InTurn(w, cache, requests, outs, lru, fetched, quiet)
    ensures Answers(w, requests, outs, quiet)
    ensures quiet ==>
              RunOf(cache.cap, ChunkSizes(w, cache.chunkSize), cache.was, AllChunksUnder(w, cache.chunkSize, requests), lru, fetched)
    ensures quiet && cache.cap <= 0 ==>
              && Unique(fetched)
              && forall k :: k in fetched <==> k in AllChunksUnder(w, cache.chunkSize, requests) && k !in cache.was
  {
    hide RunOf, AllChunksUnder, Unique;
    if quiet && cache.cap <= 0 {
      RunOfUnbounded(cache.cap, ChunkSizes(w, cache.chunkSize), cache.was, AllChunksUnder(w, cache.chunkSize, requests), lru, fetched);
    }
  }

  /**
   Reads of any layers, one after the other, through one cache.  Undisturbed, every read returns
   the blob's bytes, and without a cap the whole sequence reads no chunk upstream twice.
   */
  method ReadInTurn(cache: Cache, requests: seq<Request>, w: Blobs, scheds: nat -> nat -> seq<EnvStep>, outages: nat -> nat -> bool)
    returns (outs: seq<seq<byte>>, fetched: seq<ChunkKey>)
    requires cache.Valid() && cache.Faithful(w)
    requires forall r | r in requests :: r.view.global == cache && r.view.size == |w(r.view.layer)|
    modifies cache
    ensures cache.Valid() && cache.Faithful(w)
    ensures Answers(w, requests, outs, AllQuiet(scheds, outages))
    ensures AllQuiet(scheds, outages) ==>
              RunOf(cache.cap, ChunkSizes(w, cache.chunkSize), old(cache.lru), AllChunksUnder(w, cache.chunkSize, requests),
                    cache.lru, fetched)
    ensures AllQuiet(scheds, outages) && cache.cap <= 0 ==>
              && Unique(fetched)
              && forall k :: k in fetched <==> k in AllChunksUnder(w, cache.chunkSize, requests) && k !in old(cache.lru)
  {
    hide *;
    ValidChunkSize(cache);
    ValidUnique(cache);
    ghost var view, quiet := CacheView(cache.cap, cache.chunkSize, cache.lru), AllQuiet(scheds, outages);
    outs, fetched := [], [];
    InTurnStart(w, view, quiet);
    assert requests[..0] == [];
    for i := 0 to |requests|
      invariant cache.Valid() && cache.Faithful(w)
      invariant InTurn(w, view, requests[..i], outs, cache.lru, fetched, quiet)
    {
      assert requests[..i + 1] == requests[..i] + [requests[i]] && requests[i] in requests;
      QuietAt(scheds, outages, i);
      ghost var mid := cache.lru;
      var out, more := ReadOne(cache, requests[i], w, scheds(i), outages(i), quiet);
      InTurnMore(w, view, requests[..i], outs, mid, fetched, requests[i], out, cache.lru, more, quiet);
      outs, fetched := outs + [out], fetched + more;
    }
    assert requests[..|requests|] == requests;
    InTurnDone(w, view, requests, outs, cache.lru, fetched, quiet);
  }

  lemma QuietAt(scheds: nat -> nat -> seq<EnvStep>, outages: nat -> nat -> bool, i: nat)
    ensures AllQuiet(scheds, outages) ==> Quiet(scheds(i), outages(i))
  {
  }

  lemma ValidUnique(c: Cache)
    requires c.Valid()
    ensures Unique(c.lru)
  {
  }

  // ---- a real cache in which the larger cap falls behind ----

  function SmallBlobs(): Blobs {
    (layer: string) => if layer == "X" then [1, 2, 3] else [0]
  }

  /** A three-byte layer, one-byte layers and a chunk size of three: LruInclusion.InclusionCanFail is about real chunks. */
  lemma InclusionFailsOnBlobs()
    ensures var sizes := ChunkSizes(SmallBlobs(), 3);
            && ChunkKey("B", 0) in LruInclusion.FetchRun(4, sizes, LruInclusion.FailingRun(5))
            && ChunkKey("B", 0) !in LruInclusion.FetchRun(5, sizes, LruInclusion.FailingRun(5))
            && LruInclusion.Misses(5, sizes, LruInclusion.FailingRun(7)) > LruInclusion.Misses(4, sizes, LruInclusion.FailingRun(7))
  {
    LruInclusion.InclusionCanFail(ChunkSizes(SmallBlobs(), 3));
  }

  /** Distinct chunks of the layer, in order, from first up to (not including) next. */
  ghost predicate AscendingChunks(keys: seq<ChunkKey>, layer: string, first: nat, next: nat) {
    && (forall i | 0 <= i < |keys| :: keys[i].layer == layer && first <= keys[i].idx < next)
    && (forall i, j | 0 <= i < j < |keys| :: keys[i].idx < keys[j].idx)
  }

  lemma NoneAscending(layer: string, first: nat)
    ensures AscendingChunks([], layer, first, first)
  {
  }

  lemma AscendingMore(keys: seq<ChunkKey>, layer: string, first: nat, next: nat, last: nat)
    requires AscendingChunks(keys, layer, first, next) && first <= next < last
    ensures AscendingChunks(keys, layer, first, last)
    ensures AscendingChunks(keys + [ChunkKey(layer, next)], layer, first, last)
  {
  }

  /** now is was with piece written at position at. */
  ghost predicate Spliced(now: seq<byte>, was: seq<byte>, at: nat, piece: seq<byte>) {
    && |now| == |was| && at + |piece| <= |was|
    && now == was[..at] + piece + was[at + |piece|..]
  }

  /** The first n bytes are the blob's from off on, the others are as they were. */
  ghost predicate Filled(now: seq<byte>, was: seq<byte>, blob: seq<byte>, off: nat, n: nat) {
    && |now| == |was| && n <= |was| && off + n <= |blob|
    && now[..n] == blob[off..off + n]
    && now[n..] == was[n..]
  }

  lemma FilledNone(was: seq<byte>, blob: seq<byte>, off: nat)
    requires off <= |blob|
    ensures Filled(was, was, blob, off, 0)
  {
  }

  lemma FilledMeans(now: seq<byte>, was: seq<byte>, blob: seq<byte>, off: nat, n: nat)
    requires Filled(now, was, blob, off, n)
    ensures |now| == |was| && n <= |was| && off + n <= |blob|
    ensures now[..n] == blob[off..off + n] && now[n..] == was[n..]
  {
  }

  lemma FilledMore(had: seq<byte>, now: seq<byte>, was: seq<byte>, blob: seq<byte>, off: nat, at: nat, n: nat)
    requires Filled(had, was, blob, off, at) && off + at + n <= |blob|
    requires Spliced(now, had, at, blob[off + at..off + at + n])
    ensures Filled(now, was, blob, off, at + n)
  {
    assert blob[off..off + at + n] == blob[off..off + at] + blob[off + at..off + at + n];
    assert now[..at + n] == had[..at] + blob[off + at..off + at + n];
    assert now[at + n..] == had[at + n..] == was[at..][n..];
    assert was[at..][n..] == was[at + n..];
  }

  lemma StartInBlob(w: Blobs, chunkSize: int, layer: string, cur: int)
    requires chunkSize > 0 && 0 <= cur < |w(layer)|
    ensures InBlob(w, chunkSize, ChunkKey(layer, ChunkIndex(cur, chunkSize)))
  {
    Window(cur, chunkSize);
  }

  /** A slice of a chunk is a slice of the blob. */
  lemma ChunkPiece(w: Blobs, chunkSize: int, k: ChunkKey, from: int, to: int)
    requires chunkSize > 0 && InBlob(w, chunkSize, k)
    requires ChunkStart(k.idx, chunkSize) <= from <= to <= Min(ChunkStart(k.idx, chunkSize) + chunkSize, |w(k.layer)|)
    ensures var start := ChunkStart(k.idx, chunkSize);
            && |ChunkOf(w, chunkSize, k)| == Min(start + chunkSize, |w(k.layer)|) - start
            && ChunkOf(w, chunkSize, k)[from - start..to - start] == w(k.layer)[from..to]
  {
    hide ChunkStart;
    var start, end := ChunkStart(k.idx, chunkSize), Min(ChunkStart(k.idx, chunkSize) + chunkSize, |w(k.layer)|);
    SliceOfSlice(w(k.layer), start, end, from, to);
  }

  lemma SliceOfSlice(b: seq<byte>, start: nat, end: nat, from: nat, to: nat)
    requires start <= from <= to <= end <= |b|
    ensures b[start..end][from - start..to - start] == b[from..to]
  {
    var inner := b[start..end][from - start..to - start];
    assert |inner| == to - from;
    assert forall i | 0 <= i < |inner| :: inner[i] == b[from..to][i];
  }

  /** What a read set out to do: its window, the blob, and the buffer and recency list it found. */
  datatype Job = Job(layer: string, chunkSize: int, cap: int, sizes: Sizes, off: nat, end: nat,
                     blob: seq<byte>, was: seq<byte>, before: seq<ChunkKey>, calm: bool)
  {
    predicate WellFormed() {
      chunkSize > 0 && off <= end <= |blob| && end - off <= |was|
    }

    /** The chunk the read position cur is about to ask for, one past the last chunk at the end. */
    function Next(cur: nat): nat
      requires WellFormed()
    {
      if cur < end then ChunkIndex(cur, chunkSize)
      else if off < end then ChunkIndex(end - 1, chunkSize) + 1
      else ChunkIndex(off, chunkSize)
    }
  }

  /** ReadAt's loop invariant: the window up to cur has been read chunk by chunk. */
  ghost predicate Progress(job: Job, cur: nat, now: seq<byte>, lru: seq<ChunkKey>, fetched: seq<ChunkKey>) {
    && job.WellFormed() && job.off <= cur <= job.end
    && var first, next := ChunkIndex(job.off, job.chunkSize), job.Next(cur);
    && first <= next
    && Filled(now, job.was, job.blob, job.off, cur - job.off)
    && AscendingChunks(fetched, job.layer, first, next)
    && (cur == job.off ==> fetched == [] && lru == job.before)
    && (job.calm ==> RunOf(job.cap, job.sizes, job.before, ChunkRange(job.layer, first, next), lru, fetched))
    && (job.cap <= 0 ==> Includes(lru, job.before) && forall k | k in fetched :: k !in job.before)
  }

  lemma ProgressStart(job: Job)
    requires job.WellFormed()
    ensures Progress(job, job.off, job.was, job.before, [])
  {
    var first := ChunkIndex(job.off, job.chunkSize);
    FilledNone(job.was, job.blob, job.off);
    NoneAscending(job.layer, first);
    RunNone(job.cap, job.sizes, job.before, job.layer, first);
  }

  /**
   A turn at cur: the next n bytes of the blob are in place, the position moved to the next chunk
   or to the end, and undisturbed the list is that after fetching the chunk under cur.
   */
  ghost predicate Turn(job: Job, cur: nat, n: nat, had: seq<byte>, now: seq<byte>, mid: seq<ChunkKey>,
                       after: seq<ChunkKey>, hit: bool)
    requires job.WellFormed() && job.off <= cur < job.end && cur + n <= job.end
  {
    var i := ChunkIndex(cur, job.chunkSize);
    && 0 < n && Spliced(now, had, cur - job.off, job.blob[cur..cur + n])
    && (cur + n < job.end ==> ChunkIndex(cur + n, job.chunkSize) == i + 1)
    && (cur + n == job.end ==> ChunkIndex(job.end - 1, job.chunkSize) == i)
    && (job.calm ==> after == AfterFetch(job.cap, job.sizes, mid, ChunkKey(job.layer, i), true))
    && (job.calm ==> (hit <==> ChunkKey(job.layer, i) in mid))
    && (job.cap <= 0 ==> Includes(after, mid) && (ChunkKey(job.layer, i) in mid ==> hit))
  }

  lemma TurnIs(job: Job, cur: nat, n: nat, had: seq<byte>, now: seq<byte>, mid: seq<ChunkKey>,
               after: seq<ChunkKey>, hit: bool)
    requires job.WellFormed() && job.off <= cur < job.end && cur + n <= job.end
    requires 0 < n && Spliced(now, had, cur - job.off, job.blob[cur..cur + n])
    requires var i := ChunkIndex(cur, job.chunkSize);
             && (cur + n < job.end ==> ChunkIndex(cur + n, job.chunkSize) == i + 1)
             && (cur + n == job.end ==> ChunkIndex(job.end - 1, job.chunkSize) == i)
             && (job.calm ==> after == AfterFetch(job.cap, job.sizes, mid, ChunkKey(job.layer, i), true))
             && (job.calm ==> (hit <==> ChunkKey(job.layer, i) in mid))
             && (job.cap <= 0 ==> Includes(after, mid) && (ChunkKey(job.layer, i) in mid ==> hit))
    ensures Turn(job, cur, n, had, now, mid, after, hit)
  {
  }

  lemma ProgressMore(job: Job, cur: nat, n: nat, had: seq<byte>, now: seq<byte>, mid: seq<ChunkKey>,
                     after: seq<ChunkKey>, fetched: seq<ChunkKey>, hit: bool)
    requires Progress(job, cur, had, mid, fetched)
    requires job.off <= cur < job.end && cur + n <= job.end && Turn(job, cur, n, had, now, mid, after, hit)
    ensures n > 0
    ensures Progress(job, cur + n, now, after,
                     if hit then fetched else fetched + [ChunkKey(job.layer, ChunkIndex(cur, job.chunkSize))])
  {
    hide ChunkIndex, Filled, Spliced, AscendingChunks, RunOf, ChunkRange;
    var first, next := ChunkIndex(job.off, job.chunkSize), job.Next(cur);
    FilledMore(had, now, job.was, job.blob, job.off, cur - job.off, n);
    AscendingMore(fetched, job.layer, first, next, next + 1);
    if job.calm {
      RunGrows(job.cap, job.sizes, job.before, job.layer, first, next, mid, fetched, after, hit);
    }
  }

  /** What a read of the window has done, to its end or up to a failed upstream read. */
  ghost predicate WindowRead(job: Job, written: nat, done: bool, now: seq<byte>, lru: seq<ChunkKey>, fetched: seq<ChunkKey>) {
    && job.WellFormed() && Filled(now, job.was, job.blob, job.off, written)
    && (if done then written == job.end - job.off else written < job.end - job.off)
    && (job.off == job.end ==> fetched == [] && lru == job.before)
    && (job.cap <= 0 ==> forall k | k in fetched :: k !in job.before)
    && (job.off < job.end ==>
          var first, last := ChunkIndex(job.off, job.chunkSize), ChunkIndex(job.end - 1, job.chunkSize);
          && AscendingChunks(fetched, job.layer, first, last + 1)
          && (job.calm ==>
                if done then
                  RunOf(job.cap, job.sizes, job.before, ReadKeys(job.layer, job.chunkSize, job.off, job.end - job.off), lru, fetched)
                else
                  FailedRun(job.cap, job.sizes, job.before, job.layer, first, ChunkIndex(job.off + written, job.chunkSize), lru, fetched)))
  }

  lemma WindowMeans(job: Job, written: nat, done: bool, now: seq<byte>, lru: seq<ChunkKey>, fetched: seq<ChunkKey>)
    requires WindowRead(job, written, done, now, lru, fetched)
    ensures job.WellFormed() && Filled(now, job.was, job.blob, job.off, written)
    ensures if done then written == job.end - job.off else written < job.end - job.off
    ensures job.off == job.end ==> fetched == [] && lru == job.before
    ensures job.cap <= 0 ==> forall k | k in fetched :: k !in job.before
    ensures job.off < job.end ==>
              var first, last := ChunkIndex(job.off, job.chunkSize), ChunkIndex(job.end - 1, job.chunkSize);
              && AscendingChunks(fetched, job.layer, first, last + 1)
              && (job.calm ==>
                    if done then
                      RunOf(job.cap, job.sizes, job.before, ReadKeys(job.layer, job.chunkSize, job.off, job.end - job.off), lru, fetched)
                    else
                      FailedRun(job.cap, job.sizes, job.before, job.layer, first, ChunkIndex(job.off + written, job.chunkSize), lru, fetched))
  {
  }

  lemma ProgressDone(job: Job, now: seq<byte>, lru: seq<ChunkKey>, fetched: seq<ChunkKey>)
    requires Progress(job, job.end, now, lru, fetched)
    ensures WindowRead(job, job.end - job.off, true, now, lru, fetched)
  {
  }

  lemma ProgressFailed(job: Job, cur: nat, now: seq<byte>, lru: seq<ChunkKey>, after: seq<ChunkKey>, fetched: seq<ChunkKey>)
    requires Progress(job, cur, now, lru, fetched) && cur < job.end
    requires job.calm ==> after == lru && ChunkKey(job.layer, ChunkIndex(cur, job.chunkSize)) !in lru
    ensures WindowRead(job, cur - job.off, false, now, after, fetched)
  {
    IndexMonotone(cur, job.end - 1, job.chunkSize);
    AscendingMore(fetched, job.layer, ChunkIndex(job.off, job.chunkSize), ChunkIndex(cur, job.chunkSize),
                  ChunkIndex(job.end - 1, job.chunkSize) + 1);
  }

  /** No upstream read fails and nobody else uses the cache. */
  ghost predicate Quiet(sched: nat -> seq<EnvStep>, outage: nat -> bool) {
    forall t :: !outage(t) && sched(t) == []
  }

  /** Nobody else uses the cache. */
  ghost predicate Calm(sched: nat -> seq<EnvStep>) {
    forall t :: sched(t) == []
  }

  lemma CalmSteps(sched: nat -> seq<EnvStep>)
    ensures Calm(sched) ==> forall t: nat :: sched(t) == []
  {
  }

  /** fetched and the list left behind are those of fetching the keys one after the other. */
  ghost predicate RunOf(cap: int, size: Sizes, before: seq<ChunkKey>, keys: seq<ChunkKey>,
                        after: seq<ChunkKey>, fetched: seq<ChunkKey>)
  {
    after == FetchAll(cap, size, before, keys) && fetched == Fetched(cap, size, before, keys)
  }

  /** The chunks first up to next were fetched, then reading chunk next failed: it is not held. */
  ghost predicate FailedRun(cap: int, size: Sizes, before: seq<ChunkKey>, layer: string, first: nat, next: nat,
                            after: seq<ChunkKey>, fetched: seq<ChunkKey>)
  {
    RunOf(cap, size, before, ChunkRange(layer, first, next), after, fetched) && ChunkKey(layer, next) !in after
  }

  /** A read that finishes continues a run of fetchChunk calls by one successful call a chunk. */
  lemma ReadIsCalls(cap: int, size: Sizes, fs: seq<LruInclusion.Fetch>, keys: seq<ChunkKey>,
                    after: seq<ChunkKey>, fetched: seq<ChunkKey>)
    requires RunOf(cap, size, LruInclusion.FetchRun(cap, size, fs), keys, after, fetched)
    ensures var calls := fs + LruInclusion.Succeeding(keys);
            && LruInclusion.FetchRun(cap, size, calls) == after
            && LruInclusion.Misses(cap, size, calls) == LruInclusion.Misses(cap, size, fs) + |fetched|
  {
    LruInclusion.RunThenKeys(cap, size, fs, keys);
  }

  /** A read that fails upstream continues it by its successful calls and the failing one. */
  lemma FailedReadIsCalls(cap: int, size: Sizes, fs: seq<LruInclusion.Fetch>, layer: string, first: nat, next: nat,
                          after: seq<ChunkKey>, fetched: seq<ChunkKey>)
    requires FailedRun(cap, size, LruInclusion.FetchRun(cap, size, fs), layer, first, next, after, fetched)
    ensures var calls := fs + LruInclusion.Succeeding(ChunkRange(layer, first, next))
                         + [LruInclusion.Fetch(ChunkKey(layer, next), false)];
            && LruInclusion.FetchRun(cap, size, calls) == after
            && LruInclusion.Misses(cap, size, calls) == LruInclusion.Misses(cap, size, fs) + |fetched| + 1
  {
    var keys := ChunkRange(layer, first, next);
    ReadIsCalls(cap, size, fs, keys, after, fetched);
    LruInclusion.RunThenFailure(cap, size, fs + LruInclusion.Succeeding(keys), ChunkKey(layer, next));
  }

  /** Reads one after the other are a single run over all their keys. */
  lemma RunOfThen(cap: int, size: Sizes, s0: seq<ChunkKey>, a: seq<ChunkKey>, s1: seq<ChunkKey>, fa: seq<ChunkKey>,
                  b: seq<ChunkKey>, s2: seq<ChunkKey>, fb: seq<ChunkKey>)
    requires RunOf(cap, size, s0, a, s1, fa) && RunOf(cap, size, s1, b, s2, fb)
    ensures RunOf(cap, size, s0, a + b, s2, fa + fb)
  {
    FetchAllConcat(cap, size, s0, a, b);
  }

  /** Without a cap, a sequential run reads each chunk upstream at most once, and only if it was not cached. */
  lemma RunOfUnbounded(cap: int, size: Sizes, before: seq<ChunkKey>, keys: seq<ChunkKey>,
                       after: seq<ChunkKey>, fetched: seq<ChunkKey>)
    requires cap <= 0 && Unique(before) && RunOf(cap, size, before, keys, after, fetched)
    ensures Unique(fetched)
    ensures forall k :: k in fetched <==> k in keys && k !in before
    ensures forall k :: k in after <==> k in before || k in keys
  {
    UnboundedFetchesOnce(cap, size, before, keys);
  }

  lemma RunNone(cap: int, size: Sizes, before: seq<ChunkKey>, layer: string, first: nat)
    ensures RunOf(cap, size, before, ChunkRange(layer, first, first), before, [])
  {
  }

  lemma RunGrows(cap: int, size: Sizes, before: seq<ChunkKey>, layer: string, first: nat, next: nat,
                mid: seq<ChunkKey>, fetched: seq<ChunkKey>, after: seq<ChunkKey>, hit: bool)
    requires first <= next && RunOf(cap, size, before, ChunkRange(layer, first, next), mid, fetched)
    requires after == AfterFetch(cap, size, mid, ChunkKey(layer, next), true)
    requires hit <==> ChunkKey(layer, next) in mid
    ensures RunOf(cap, size, before, ChunkRange(layer, first, next + 1), after,
                  if hit then fetched else fetched + [ChunkKey(layer, next)])
  {
    RangeMore(layer, first, next);
    assert fetched + [] == fetched;
  }

  lemma RangeMore(layer: string, i: nat, j: nat)
    requires i <= j
    ensures ChunkRange(layer, i, j + 1) == ChunkRange(layer, i, j) + [ChunkKey(layer, j)]
    ensures ChunkRange(layer, i, j + 1)[..|ChunkRange(layer, i, j)|] == ChunkRange(layer, i, j)
  {
  }

  /** copy(p[at:], src), for a source that fits. */
  method CopyInto(p: array<byte>, at: nat, src: seq<byte>) returns (n: nat)
    requires at + |src| <= p.Length
    modifies p
    ensures n == |src|
    ensures Spliced(p[..], old(p[..]), at, src)
  {
    n := 0;
    while n < |src|
      invariant n <= |src|
      invariant forall i | 0 <= i < p.Length :: p[i] == if at <= i < at + n then src[i - at] else old(p[i])
    {
      p[at + n] := src[n];
      n := n + 1;
    }
  }

  /** The chunk a position lies in, and where a chunk starts. */
  function ChunkIndex(x: int, cs: int): nat
    requires x >= 0 && cs > 0
  {
    DivNonNegative(x, cs);
    x / cs
  }

  function ChunkStart(idx: nat, cs: int): nat
    requires cs > 0
  {
    MulNonNegative(idx, cs);
    idx * cs
  }

  lemma MulNonNegative(a: nat, b: nat)
    ensures a * b >= 0
  {
  }

  lemma DivNonNegative(x: int, cs: int)
    requires x >= 0 && cs > 0
    ensures x / cs >= 0
  {
  }

  lemma MulStep(a: int, b: int, cs: int)
    requires a < b && cs > 0
    ensures a * cs + cs <= b * cs
  {
    MulNonNegative(b - a - 1, cs);
    assert b * cs == (b - a - 1) * cs + a * cs + cs;
  }

  lemma Window(x: int, cs: int)
    requires x >= 0 && cs > 0
    ensures ChunkStart(ChunkIndex(x, cs), cs) <= x < ChunkStart(ChunkIndex(x, cs), cs) + cs
  {
  }

  lemma IndexMonotone(x: int, y: int, cs: int)
    requires 0 <= x <= y && cs > 0
    ensures ChunkIndex(x, cs) <= ChunkIndex(y, cs)
  {
    Window(x, cs);
    Window(y, cs);
    hide ChunkIndex;
    if ChunkIndex(y, cs) < ChunkIndex(x, cs) {
      MulStep(ChunkIndex(y, cs), ChunkIndex(x, cs), cs);
    }
  }

  lemma IndexUnique(x: int, cs: int, q: nat)
    requires x >= 0 && cs > 0 && ChunkStart(q, cs) <= x < ChunkStart(q, cs) + cs
    ensures ChunkIndex(x, cs) == q
  {
    Window(x, cs);
    var r := ChunkIndex(x, cs);
    hide ChunkIndex;
    if r < q {
      MulStep(r, q, cs);
    } else if q < r {
      MulStep(q, r, cs);
    }
  }

  /** The read position after chunk idx: the start of the next chunk, or the end of the read. */
  lemma NextWindow(idx: nat, cs: int, cur: int, end: int)
    requires cs > 0 && ChunkStart(idx, cs) < cur <= end && cur <= ChunkStart(idx, cs) + cs
    requires cur < end ==> cur == ChunkStart(idx, cs) + cs
    ensures cur < end ==> ChunkIndex(cur, cs) == idx + 1
    ensures cur == end ==> ChunkIndex(end - 1, cs) == idx
  {
    hide ChunkIndex;
    if cur < end {
      IndexUnique(cur, cs, idx + 1);
    } else {
      IndexUnique(end - 1, cs, idx);
    }
  }

  function ReadKeys(layer: string, chunkSize: int, off: int, want: int): seq<ChunkKey>
    requires chunkSize > 0 && off >= 0 && want > 0
  {
    ChunkRange(layer, ChunkIndex(off, chunkSize), ChunkIndex(off + want - 1, chunkSize) + 1)
  }
}
