/** internal/oci/transport.go: the caching round tripper over the disk store. */
module Transport {
  import opened Wrappers
  import opened Decimal
  import DiskCache

  type Bytes = DiskCache.Bytes

  datatype Request = Request(verb: string, range: string, path: string)

  /** http.Response as far as callers of the transport look at it. */
  datatype Response = Response(status: int, contentType: string, contentLength: int, body: Bytes)

  datatype Outcome = Answer(resp: Response) | NetError

  // ---- which requests and responses may be cached ----

  predicate EndsWith(s: string, t: string) {
    |t| <= |s| && s[|s| - |t|..] == t
  }

  predicate IsHexDigit(c: char) {
    '0' <= c <= '9' || 'a' <= c <= 'f'
  }

  /** What precedes the final "/sha256:" and 64 hex digits, if the path ends so. */
  function BeforeDigest(path: string): Option<string> {
    if |path| < 72 then None
    else
      var head, hex := path[..|path| - 64], path[|path| - 64..];
      if EndsWith(head, "/sha256:") && AllHex(hex) then Some(head[..|head| - 8])
      else None
  }

  /** "/v2/" followed by at least one character, none a newline. */
  predicate IsRepository(s: string) {
    "/v2/" <= s && |s| > 4 && '\n' !in s[4..]
  }

  /** digestPathRE: /v2/<name>/(manifests|blobs)/sha256:<64 hex digits>. */
  predicate IsDigestPath(path: string) {
    match BeforeDigest(path)
    case None => false
    case Some(head) =>
      (EndsWith(head, "/manifests") && IsRepository(head[..|head| - 10])) || (EndsWith(head, "/blobs") && IsRepository(head[..|head| - 6]))
  }

  predicate AllHex(s: string) {
    forall i | 0 <= i < |s| :: IsHexDigit(s[i])
  }

  /** What digestPathRE matches, spelled out from its parts. */
  predicate Spells(path: string, name: string, kind: string, hex: string) {
    && name != "" && '\n' !in name && (kind == "manifests" || kind == "blobs")
    && |hex| == 64 && (forall i | 0 <= i < 64 :: '0' <= hex[i] <= '9' || 'a' <= hex[i] <= 'f')
    && path == "/v2/" + name + "/" + kind + "/sha256:" + hex
  }

  lemma SpelledIsDigestPath(path: string, name: string, kind: string, hex: string)
    requires Spells(path, name, kind, hex)
    ensures IsDigestPath(path)
  {
    var repo := "/v2/" + name;
    var head := repo + "/" + kind;
    assert path == head + "/sha256:" + hex;
    assert path[..|path| - 64] == head + "/sha256:" && path[|path| - 64..] == hex;
    assert BeforeDigest(path) == Some(head);
    assert repo[4..] == name;
    if kind == "manifests" {
      assert head == repo + "/manifests";
      assert head[..|head| - 10] == repo;
    } else {
      assert head == repo + "/blobs";
      assert head[..|head| - 6] == repo;
    }
  }

  /** A path that ends in a repository, a kind and a digest, taken apart. */
  lemma DigestPathParts(path: string) returns (name: string, kind: string, hex: string)
    requires IsDigestPath(path)
    ensures Spells(path, name, kind, hex)
  {
    var head := BeforeDigest(path).value;
    hex := path[|path| - 64..];
    assert path == head + "/sha256:" + hex;
    kind := if EndsWith(head, "/manifests") && IsRepository(head[..|head| - 10]) then "manifests" else "blobs";
    var repo := head[..|head| - |kind| - 1];
    assert head == repo + "/" + kind;
    name := repo[4..];
    assert repo == "/v2/" + name;
  }

  /** Digest paths are exactly "/v2/<name>/manifests" or "/blobs" with a sha256 digest of 64 hex digits. */
  lemma DigestPathIff(path: string)
    ensures IsDigestPath(path) <==> exists name, kind, hex :: Spells(path, name, kind, hex)
  {
    hide IsDigestPath, Spells;
    if IsDigestPath(path) {
      var name, kind, hex := DigestPathParts(path);
    }
    if name, kind, hex :| Spells(path, name, kind, hex) {
      SpelledIsDigestPath(path, name, kind, hex);
    }
  }

  predicate Cacheable(req: Request) {
    req.verb == "GET" && req.range == "" && IsDigestPath(req.path)
  }

  function ToLower(s: string): string {
    seq(|s|, i requires 0 <= i < |s| => if 'A' <= s[i] <= 'Z' then (s[i] as int + 32) as char else s[i])
  }

  lemma OccursAfter(s: string, t: string, j: int)
    requires s != "" && j >= 1
    ensures OccursAt(s, t, j) <==> OccursAt(s[1..], t, j - 1)
  {
    if j + |t| <= |s| {
      var a, b := s[j..j + |t|], s[1..][j - 1..j - 1 + |t|];
      assert |a| == |b| && forall i | 0 <= i < |a| :: a[i] == b[i];
    }
  }

  predicate OccursAt(s: string, t: string, j: int) {
    0 <= j && j + |t| <= |s| && s[j..j + |t|] == t
  }

  /** bytes.Index: the first occurrence. */
  function IndexOf(s: string, t: string): (i: int)
    ensures i == -1 || OccursAt(s, t, i)
    ensures forall j :: OccursAt(s, t, j) ==> 0 <= i <= j
    decreases |s|
  {
    if t <= s then 0
    else if s == "" then -1
    else
      var i := IndexOf(s[1..], t);
      assert forall j | j >= 1 :: OccursAt(s, t, j) <==> OccursAt(s[1..], t, j - 1) by {
        forall j | j >= 1 ensures OccursAt(s, t, j) <==> OccursAt(s[1..], t, j - 1) {
          OccursAfter(s, t, j);
        }
      }
      if i < 0 then -1 else i + 1
  }

  predicate Contains(s: string, t: string) {
    IndexOf(s, t) >= 0
  }

  predicate CacheableContentType(contentType: string) {
    var ct := ToLower(contentType);
    || Contains(ct, "manifest")
    || Contains(ct, "image.index")
    || Contains(ct, "image.config") || Contains(ct, "container.image.v1+json")
  }

  lemma OccursChar(s: string, t: string, j: int, i: int)
    requires 0 <= i < |t|
    ensures OccursAt(s, t, j) ==> t[i] in s
  {
    if OccursAt(s, t, j) {
      assert s[j + i] == s[j..j + |t|][i];
    }
  }

  predicate IsMark(mark: string) {
    mark == "manifest" || mark == "image.index" || mark == "image.config" || mark == "container.image.v1+json"
  }

  /** A letter and its capital are alike. */
  predicate SameIgnoringCase(a: string, lower: string) {
    |a| == |lower| && forall i | 0 <= i < |a| :: a[i] == lower[i] || ('A' <= a[i] <= 'Z' && lower[i] as int == a[i] as int + 32)
  }

  /** s is before, one of the four marks in any case, and after. */
  predicate Marked(s: string, before: string, written: string, mark: string, after: string) {
    IsMark(mark) && SameIgnoringCase(written, mark) && s == before + written + after
  }

  lemma MarkLetters(mark: string)
    requires IsMark(mark)
    ensures forall i | 0 <= i < |mark| :: !('A' <= mark[i] <= 'Z')
  {
  }

  lemma OccursLower(s: string, mark: string, j: nat)
    requires forall i | 0 <= i < |mark| :: !('A' <= mark[i] <= 'Z')
    ensures OccursAt(ToLower(s), mark, j) <==> j + |mark| <= |s| && SameIgnoringCase(s[j..j + |mark|], mark)
  {
    if j + |mark| <= |s| {
      var low, part := ToLower(s)[j..j + |mark|], s[j..j + |mark|];
      assert forall i | 0 <= i < |mark| :: low[i] == ToLower(s)[j + i] && part[i] == s[j + i];
      if SameIgnoringCase(part, mark) {
        assert low == mark;
      }
    }
  }

  /** A mark in the lower-cased string is the mark in any case in the string. */
  lemma LowerMarked(s: string, mark: string)
    requires forall i | 0 <= i < |mark| :: !('A' <= mark[i] <= 'Z')
    ensures Contains(ToLower(s), mark) <==>
            exists before, written, after :: SameIgnoringCase(written, mark) && s == before + written + after
  {
    hide IndexOf, ToLower, SameIgnoringCase, OccursAt;
    var n, j := |mark|, IndexOf(ToLower(s), mark);
    if j >= 0 {
      OccursLower(s, mark, j);
      assert s == s[..j] + s[j..j + n] + s[j + n..];
    }
    if before, written, after :| SameIgnoringCase(written, mark) && s == before + written + after {
      AlikeLength(written, mark);
      assert s[|before|..|before| + n] == written;
      OccursLower(s, mark, |before|);
    }
  }

  lemma AlikeLength(a: string, lower: string)
    requires SameIgnoringCase(a, lower)
    ensures |a| == |lower|
  {
  }

  /** A content type is cacheable exactly when it contains one of the four marks, in any case. */
  lemma CacheableIffMarked(contentType: string)
    ensures CacheableContentType(contentType) <==>
            exists before, written, mark, after :: Marked(contentType, before, written, mark, after)
  {
    hide Contains, ToLower, SameIgnoringCase;
    var ct := ToLower(contentType);
    forall mark | IsMark(mark)
      ensures Contains(ct, mark) <==> exists before, written, after :: Marked(contentType, before, written, mark, after)
    {
      MarkLetters(mark);
      LowerMarked(contentType, mark);
      if before, written, after :| SameIgnoringCase(written, mark) && contentType == before + written + after {
        assert Marked(contentType, before, written, mark, after);
      }
    }
    if CacheableContentType(contentType) {
      var mark := if Contains(ct, "manifest") then "manifest" else if Contains(ct, "image.index") then "image.index"
                  else if Contains(ct, "image.config") then "image.config" else "container.image.v1+json";
      assert IsMark(mark) && Contains(ct, mark);
    }
  }

  // ---- the on-disk framing ----

  const SEPARATOR := "\n\n"

  function Frame(contentType: string, body: Bytes): Bytes {
    contentType + SEPARATOR + body
  }

  /** The first separator splits content type and body. */
  function Unframe(raw: Bytes): Option<(string, Bytes)> {
    var idx := IndexOf(raw, SEPARATOR);
    if idx < 0 then None else Some((raw[..idx], raw[idx + 2..]))
  }

  /** No blank line inside, no newline at the end. */
  predicate Framable(contentType: string) {
    !Contains(contentType, SEPARATOR) && !EndsWith(contentType, "\n")
  }

  /** Whatever the body, the framing gives back what was framed exactly when the content type is framable. */
  lemma FramingRoundTripsIff(contentType: string, body: Bytes)
    ensures Unframe(Frame(contentType, body)) == Some((contentType, body)) <==> Framable(contentType)
  {
    hide IndexOf;
    var raw := Frame(contentType, body);
    var n := |contentType|;
    var i := IndexOf(raw, SEPARATOR);
    assert OccursAt(raw, SEPARATOR, n);
    if i == n {
      assert raw[..n] == contentType && raw[n + 2..] == body;
      EarlierSeparator(contentType, body);
    } else if i == n - 1 {
      assert raw[i] == raw[i..i + 2][0] == '\n';
      assert contentType[n - 1..] == [raw[i]];
    } else {
      assert contentType[i..i + 2] == raw[i..i + 2];
      assert OccursAt(contentType, SEPARATOR, i);
    }
  }

  /** A separator inside the content type, or a newline at its end, shows in the frame before its end. */
  lemma EarlierSeparator(contentType: string, body: Bytes)
    ensures !Framable(contentType) ==> exists j :: j < |contentType| && OccursAt(Frame(contentType, body), SEPARATOR, j)
  {
    var raw := Frame(contentType, body);
    var n := |contentType|;
    var j := IndexOf(contentType, SEPARATOR);
    if j >= 0 {
      assert raw[j..j + 2] == contentType[j..j + 2];
      assert OccursAt(raw, SEPARATOR, j);
    }
    if EndsWith(contentType, "\n") {
      assert raw[n - 1] == contentType[n - 1] == contentType[n - 1..][0];
      assert raw[n] == '\n';
      assert OccursAt(raw, SEPARATOR, n - 1);
    }
  }

  /** Reading a stored file splits it at its first blank line, and fails without one. */
  lemma UnframeIff(raw: Bytes, contentType: string, body: Bytes)
    ensures Unframe(raw) == Some((contentType, body)) <==> raw == contentType + "\n\n" + body && Framable(contentType)
    ensures Unframe(raw) == None <==> forall ct, b :: raw != Frame(ct, b)
  {
    hide IndexOf, Framable;
    var i := IndexOf(raw, SEPARATOR);
    FramingRoundTripsIff(contentType, body);
    if i >= 0 {
      assert raw == raw[..i] + SEPARATOR + raw[i + 2..];
      assert raw == Frame(raw[..i], raw[i + 2..]);
      FramingRoundTripsIff(raw[..i], raw[i + 2..]);
    }
    if ct, b :| raw == Frame(ct, b) {
      assert raw[|ct|..|ct| + 2] == SEPARATOR;
      assert OccursAt(raw, SEPARATOR, |ct|);
    }
  }

  /** A content type without newlines, as HTTP headers have, is framable. */
  lemma PlainIsFramable(contentType: string)
    requires '\n' !in contentType
    ensures Framable(contentType)
  {
    OccursChar(contentType, SEPARATOR, IndexOf(contentType, SEPARATOR), 0);
    OccursChar(contentType, "\n", |contentType| - 1, 0);
  }

  // ---- the transport ----

  function KeyOf(path: string): string {
    "registry" + path
  }

  /** The origin's answers on digest paths are a fixed function of the path. */
  type Origin = string -> Response

  /** Content types the framing carries, and bodies whose length fits Go's 64-bit int. */
  ghost predicate FramableOrigin(origin: Origin) {
    forall path | IsDigestPath(path) ::
      && Framable(origin(path).contentType)
      && |Frame(origin(path).contentType, origin(path).body)| < 0x8000_0000_0000_0000
  }

  /** The network's answer to req, when there is one on a digest path, is the origin's. */
  predicate FromOrigin(origin: Origin, req: Request, base: Outcome) {
    Cacheable(req) && base.Answer? ==> base.resp == origin(req.path)
  }

  /** Every stored digest path holds the origin's cacheable 200 answer. */
  ghost predicate Honest(origin: Origin, files: DiskCache.Files) {
    forall path | IsDigestPath(path) && KeyOf(path) in files ::
      && files[KeyOf(path)].content == Frame(origin(path).contentType, origin(path).body)
      && origin(path).status == 200 && CacheableContentType(origin(path).contentType)
  }

  predicate Storable(o: Outcome) {
    o.Answer? && o.resp.status == 200 && CacheableContentType(o.resp.contentType)
  }

  predicate SameAnswer(a: Response, b: Response) {
    a.status == b.status && a.contentType == b.contentType && a.body == b.body
  }

  /** The caller cannot tell the cache is there: status, content type and body are the origin's. */
  predicate Transparent(origin: Origin, req: Request, base: Outcome, out: Outcome) {
    if Cacheable(req) then out.Answer? ==> SameAnswer(out.resp, origin(req.path))
    else out == base
  }

  /** Environment of one round trip: times, and whether reading the stored file, the body, or storing fails. */
  datatype Env = Env(loadFails: bool, readFails: bool, storeFails: bool, now: int)

  /** toResponse, with the header it prints. */
  method ToResponse(contentType: string, body: Bytes) returns (resp: Response, lengthHeader: string)
    requires |body| < 0x8000_0000_0000_0000
    ensures resp == Response(200, contentType, |body|, body)
    ensures Value(lengthHeader) == |body|
  {
    lengthHeader := Itoa(|body|);
    DigitsDenote(|body|);
    resp := Response(200, contentType, |body|, body);
  }

  class CachingTransport {
    const cache: DiskCache.Cache

    constructor (cache: DiskCache.Cache)
      ensures this.cache == cache
    {
      this.cache := cache;
    }

    /** loadCached: None when absent, unreadable or not framed. */
    method LoadCached(key: string, fails: bool, now: int) returns (entry: Option<(string, Bytes)>)
      modifies cache`files
      ensures key !in old(cache.files) ==> entry == None && cache.files == old(cache.files)
      ensures key in old(cache.files) ==>
                && cache.files == old(cache.files)[key := DiskCache.File(old(cache.files)[key].content, now)]
                && entry == if fails then None else Unframe(old(cache.files)[key].content)
      ensures DiskCache.Total(cache.files) == DiskCache.Total(old(cache.files))
    {
      var raw := cache.Open(key, now);
      if raw == None || fails {
        return None;
      }
      return Unframe(raw.value);
    }

    /**
     RoundTrip.  base is what the wrapped transport answers if asked; asked says whether it was.
     */
    method RoundTrip(ghost origin: Origin, req: Request, base: Outcome, env: Env)
      returns (out: Outcome, asked: bool)
      requires Honest(origin, cache.files) && FramableOrigin(origin) && FromOrigin(origin, req, base)
      modifies cache
      ensures Honest(origin, cache.files)
      ensures cache.cap > 0 ==> cache.Drift() == old(cache.Drift())
      ensures Transparent(origin, req, base, out)
      ensures out == NetError ==> asked && (base == NetError || env.readFails)
      ensures !Cacheable(req) ==> asked && cache.files == old(cache.files)
      ensures asked <==> !(Cacheable(req) && KeyOf(req.path) in old(cache.files) && !env.loadFails)
      ensures asked && !Storable(base) ==> out == base
      ensures env.readFails && asked && Cacheable(req) && Storable(base) ==> out == NetError
      ensures Cacheable(req) && Storable(out) ==> out.resp.contentLength == |out.resp.body|
      ensures cache.files.Keys <= old(cache.files).Keys + {KeyOf(req.path)}
      ensures !asked || env.storeFails || !Storable(out) ==> cache.files.Keys == old(cache.files).Keys
      ensures cache.cap <= 0 ==> old(cache.files).Keys <= cache.files.Keys
      ensures forall k | k in cache.files && k != KeyOf(req.path) :: k in old(cache.files) && cache.files[k] == old(cache.files)[k]
      ensures asked && Cacheable(req) && Storable(out) && !env.storeFails
              && DiskCache.Newest(old(cache.files), KeyOf(req.path), env.now) ==>
                (KeyOf(req.path) in cache.files <==>
                 cache.cap <= 0 || |Frame(out.resp.contentType, out.resp.body)| + cache.Drift() <= cache.cap)
      ensures Cacheable(req) && KeyOf(req.path) in old(cache.files) && !env.loadFails ==> !asked && out.Answer?
      ensures Cacheable(req) && Storable(out) && !env.storeFails && cache.cap <= 0 ==> KeyOf(req.path) in cache.files
    {
      hide IsDigestPath, CacheableContentType, Unframe, Frame, Framable, DiskCache.Total, DiskCache.Stored;
      if req.verb != "GET" || req.range != "" || !IsDigestPath(req.path) {
        return base, true;
      }
      var key := KeyOf(req.path);
      if key in cache.files {
        FramingRoundTripsIff(origin(req.path).contentType, origin(req.path).body);
        FrameLength(origin(req.path).contentType, origin(req.path).body);
      }
      var entry := LoadCached(key, env.loadFails, env.now);
      if entry.Some? {
        var resp, _ := ToResponse(entry.value.0, entry.value.1);
        return Answer(resp), false;
      }
      if base == NetError {
        return NetError, true;
      }
      var resp := base.resp;
      if resp.status != 200 {
        return base, true;
      }
      if !CacheableContentType(resp.contentType) {
        return base, true;
      }
      if env.readFails {
        return NetError, true;
      }
      var stored := if env.storeFails then None else Some(Frame(resp.contentType, resp.body));
      StoreHonest(origin, cache.files, req.path, env.now);
      cache.Write(key, stored, env.now);
      return Answer(resp.(contentLength := |resp.body|)), true;
    }

    /** Files are deleted from outside. */
    method Lose(ghost origin: Origin, keys: set<string>)
      requires Honest(origin, cache.files)
      modifies cache`files
      ensures Honest(origin, cache.files) && cache.files.Keys <= old(cache.files).Keys
      ensures cache.Drift() >= old(cache.Drift())
    {
      hide IsDigestPath, CacheableContentType, Frame, DiskCache.Total;
      cache.Vanish(keys);
    }

    /** Another component stores under a key of its own, possibly evicting anything. */
    method StoreOther(ghost origin: Origin, key: string, content: Option<Bytes>, now: int)
      requires Honest(origin, cache.files) && !("registry" <= key)
      modifies cache
      ensures Honest(origin, cache.files)
      ensures cache.files.Keys <= old(cache.files).Keys + {key}
      ensures cache.cap > 0 ==> cache.Drift() == old(cache.Drift())
    {
      hide IsDigestPath, CacheableContentType, Frame, DiskCache.Total, DiskCache.Stored;
      if content.Some? {
        OtherHonest(origin, cache.files, key, DiskCache.File(content.value, now));
      }
      cache.Write(key, content, now);
    }

    /**
     A whole run: requests interleaved with losses and with other components' writes.  Every
     request is answered transparently, however far the losses leave the tracked size off, and only
     requested digest paths are newly stored.  Without losses the tracked size stays exact.
     */
    method Run(ghost origin: Origin, events: seq<Event>) returns (outs: seq<Option<Outcome>>)
      requires Honest(origin, cache.files) && FramableOrigin(origin)
      requires forall i | 0 <= i < |events| :: Admissible(origin, events[i])
      modifies cache
      ensures Honest(origin, cache.files)
      ensures |outs| == |events|
      ensures forall i | 0 <= i < |events| && events[i].Ask? ::
                outs[i].Some? && Answered(origin, events[i], outs[i].value)
      ensures forall p | KeyOf(p) in cache.files && KeyOf(p) !in old(cache.files) :: AskedFor(events, p)
      ensures cache.cap > 0 ==> cache.Drift() >= old(cache.Drift())
      ensures old(cache.Accounted()) && Lossless(events) ==> cache.Accounted()
    {
      hide IsDigestPath, CacheableContentType, Frame, DiskCache.Total, Transparent, Honest, FramableOrigin, Lossless;
      NothingLost();
      outs := [];
      for i := 0 to |events|
        invariant Honest(origin, cache.files)
        invariant |outs| == i
        invariant forall j | 0 <= j < i && events[j].Ask? ::
                    outs[j].Some? && Answered(origin, events[j], outs[j].value)
        invariant forall p | KeyOf(p) in cache.files && KeyOf(p) !in old(cache.files) :: AskedFor(events, p)
        invariant cache.cap > 0 ==> cache.Drift() >= old(cache.Drift())
        invariant cache.cap > 0 && Lossless(events[..i]) ==> cache.Drift() == old(cache.Drift())
      {
        assert Admissible(origin, events[i]);
        assert events[..i + 1] == events[..i] + [events[i]];
        LosslessMore(events[..i], events[i]);
        match events[i]
        case Ask(req, base, env) =>
          ghost var before := cache.files;
          var out, _ := RoundTrip(origin, req, base, env);
          outs := outs + [Some(out)];
          forall p | KeyOf(p) in cache.files && KeyOf(p) !in before ensures AskedFor(events, p) {
            KeyOfInjective(p, req.path);
            assert Cacheable(req);
          }
        case Vanish(keys) =>
          Lose(origin, keys);
          outs := outs + [None];
        case Other(key, content, now) =>
          StoreOther(origin, key, content, now);
          assert forall p :: KeyOf(p) != key;
          outs := outs + [None];
      }
      assert events[..|events|] == events;
    }
  }

  datatype Event =
    | Ask(req: Request, base: Outcome, env: Env)
    | Vanish(keys: set<string>)
    | Other(key: string, content: Option<Bytes>, now: int)

  predicate Admissible(origin: Origin, e: Event) {
    match e
    case Ask(req, base, _) => FromOrigin(origin, req, base)
    case Vanish(_) => true
    case Other(key, _, _) => !("registry" <= key)
  }

  /** The request is answered transparently, and with an error only if the network or reading its answer failed. */
  predicate Answered(origin: Origin, e: Event, out: Outcome)
    requires e.Ask?
  {
    && Transparent(origin, e.req, e.base, out)
    && (out == NetError ==> e.base == NetError || e.env.readFails)
  }

  /** No file is deleted from outside during the run. */
  predicate Lossless(events: seq<Event>) {
    forall i | 0 <= i < |events| :: !events[i].Vanish?
  }

  lemma NothingLost()
    ensures Lossless([])
  {
  }

  lemma LosslessMore(events: seq<Event>, e: Event)
    ensures Lossless(events + [e]) <==> Lossless(events) && !e.Vanish?
  {
    assert (events + [e])[|events|] == e;
    assert forall i | 0 <= i < |events| :: (events + [e])[i] == events[i];
  }

  /** Some plain GET of the run asked for the digest path p. */
  ghost predicate AskedFor(events: seq<Event>, p: string) {
    exists i :: 0 <= i < |events| && events[i].Ask? && Cacheable(events[i].req) && events[i].req.path == p
  }

  lemma KeyOfInjective(p: string, q: string)
    ensures KeyOf(p) == KeyOf(q) ==> p == q
  {
    assert KeyOf(p)[8..] == p && KeyOf(q)[8..] == q;
  }

  /** A write that keeps the files honest does so whatever it evicts. */
  lemma StoredHonest(origin: Origin, files: DiskCache.Files, key: string, f: DiskCache.File)
    requires Honest(origin, files[key := f])
    ensures forall cap, drift, left | DiskCache.Stored(cap, drift, files, left, key, f) ::
              Honest(origin, left) && left.Keys <= files.Keys + {key} && (cap <= 0 ==> left == files[key := f])
              && forall k | k in left && k != key :: k in files && left[k] == files[k]
  {
    hide IsDigestPath, CacheableContentType, Frame, DiskCache.Total, DiskCache.EvictsTo;
    var stored := files[key := f];
    forall cap, drift, left | DiskCache.Stored(cap, drift, files, left, key, f)
      ensures Honest(origin, left) && left.Keys <= files.Keys + {key} && (cap <= 0 ==> left == stored)
      ensures forall k | k in left && k != key :: k in files && left[k] == files[k]
    {
      if left != stored {
        DiskCache.EvictionOnlyRemoves(cap - drift, stored, left);
      }
    }
  }

  lemma OtherHonest(origin: Origin, files: DiskCache.Files, key: string, f: DiskCache.File)
    requires Honest(origin, files) && !("registry" <= key)
    ensures forall cap, drift, left | DiskCache.Stored(cap, drift, files, left, key, f) ::
              Honest(origin, left) && left.Keys <= files.Keys + {key} && (cap <= 0 ==> left == files[key := f])
  {
    StoredHonest(origin, files, key, f);
  }

  lemma FrameLength(contentType: string, body: Bytes)
    ensures |body| <= |Frame(contentType, body)|
  {
  }

  lemma StoreHonest(origin: Origin, files: DiskCache.Files, path: string, now: int)
    requires Honest(origin, files) && IsDigestPath(path)
    requires origin(path).status == 200 && CacheableContentType(origin(path).contentType)
    ensures var f := DiskCache.File(Frame(origin(path).contentType, origin(path).body), now);
            forall cap, drift, left | DiskCache.Stored(cap, drift, files, left, KeyOf(path), f) ::
              Honest(origin, left) && left.Keys <= files.Keys + {KeyOf(path)} && (cap <= 0 ==> left == files[KeyOf(path) := f])
              && forall k | k in left && k != KeyOf(path) :: k in files && left[k] == files[k]
  {
    var f := DiskCache.File(Frame(origin(path).contentType, origin(path).body), now);
    forall p | KeyOf(p) == KeyOf(path) ensures p == path {
      KeyOfInjective(p, path);
    }
    StoredHonest(origin, files, KeyOf(path), f);
  }
}
