/**
 The path grammar: internal/fspath/parse.go, with the segment classifier, symlink target and
 sibling names of internal/mount/mount.go.  name.ParseReference and v1.ParsePlatform are
 parameters.
 */
module FsPath {
  import opened Wrappers
  import opened GoPath

  datatype Platform = Platform(os: string, arch: string, variant: string)

  /** name.Reference: repo is Context().RepositoryStr(). */
  datatype Ref = TagRef(repo: string, tag: string) | DigestRef(repo: string, digest: string)

  /** name.ParseReference and v1.ParsePlatform; None is an error. */
  datatype Library = Library(parseReference: string -> Option<Ref>, parsePlatform: string -> Option<Platform>)

  datatype Parsed = Parsed(intermediate: seq<string>, ref: Option<Ref>, inImage: string, platform: Option<Platform>)

  datatype ParseResult = Ok(parsed: Parsed) | BadPlatform(spec: string) | BadRef(refStr: string)

  // ---- string helpers ----

  function TrimLeft(s: string): string {
    if s != "" && s[0] == '/' then TrimLeft(s[1..]) else s
  }

  function TrimRight(s: string): string {
    if s != "" && s[|s| - 1] == '/' then TrimRight(s[..|s| - 1]) else s
  }

  /** strings.Trim(s, "/"). */
  function Trim(s: string): string {
    TrimRight(TrimLeft(s))
  }

  predicate AllSlashes(s: string) {
    forall i | 0 <= i < |s| :: s[i] == '/'
  }

  lemma {:induction false} TrimLeftExactly(s: string) returns (n: nat)
    ensures n <= |s| && AllSlashes(s[..n]) && TrimLeft(s) == s[n..]
    ensures TrimLeft(s) == "" || TrimLeft(s)[0] != '/'
  {
    n := 0;
    if s != "" && s[0] == '/' {
      n := TrimLeftExactly(s[1..]);
      assert s[..n + 1] == [s[0]] + s[1..][..n];
      n := n + 1;
    }
  }

  lemma {:induction false} TrimRightExactly(s: string) returns (n: nat)
    ensures n <= |s| && AllSlashes(s[n..]) && TrimRight(s) == s[..n]
    ensures TrimRight(s) == "" || TrimRight(s)[|TrimRight(s)| - 1] != '/'
  {
    n := |s|;
    if s != "" && s[|s| - 1] == '/' {
      n := TrimRightExactly(s[..|s| - 1]);
      assert s[n..] == s[..|s| - 1][n..] + [s[|s| - 1]];
    }
  }

  /** Trim takes off slashes, all of those at the ends, and nothing else. */
  lemma TrimExactly(s: string) returns (before: string, after: string)
    ensures AllSlashes(before) && AllSlashes(after) && s == before + Trim(s) + after
    ensures Trim(s) == "" || (Trim(s)[0] != '/' && Trim(s)[|Trim(s)| - 1] != '/')
  {
    hide TrimLeft, TrimRight, AllSlashes;
    var t := TrimLeft(s);
    var n := TrimLeftExactly(s);
    var k := TrimRightExactly(t);
    before, after := s[..n], t[k..];
    assert s == before + t && t == Trim(s) + after;
  }

  /** strings.IndexByte. */
  function IndexOf(s: string, c: char): (i: int)
    ensures -1 <= i < |s|
    ensures i < 0 <==> c !in s
    ensures i >= 0 ==> s[i] == c && c !in s[..i]
  {
    if s == "" then -1
    else
      assert s == [s[0]] + s[1..];
      if s[0] == c then 0
      else
        var i := IndexOf(s[1..], c);
        if i < 0 then -1
        else
          assert s[..i + 1] == [s[0]] + s[1..][..i];
          i + 1
  }

  /** strings.LastIndex of a single byte. */
  function LastIndexOf(s: string, c: char): (i: int)
    ensures -1 <= i < |s|
    ensures i < 0 <==> c !in s
    ensures i >= 0 ==> s[i] == c && c !in s[i + 1..]
  {
    if s == "" then -1
    else
      assert s == s[..|s| - 1] + [s[|s| - 1]];
      if s[|s| - 1] == c then |s| - 1
      else
        var i := LastIndexOf(s[..|s| - 1], c);
        if i < 0 then -1
        else
          assert s[i + 1..] == s[..|s| - 1][i + 1..] + [s[|s| - 1]];
          i
  }

  predicate AllDigits(s: string) {
    forall i | 0 <= i < |s| :: '0' <= s[i] <= '9'
  }

  method CheckAllDigits(s: string) returns (b: bool)
    ensures b <==> AllDigits(s)
  {
    for i := 0 to |s|
      invariant AllDigits(s[..i])
    {
      if s[i] < '0' || s[i] > '9' {
        return false;
      }
    }
    assert s[..|s|] == s;
    return true;
  }

  // ---- the grammar ----

  predicate IsRegistrySegment(s: string) {
    var i := LastIndexOf(s, ':');
    if i >= 0 then
      var port := s[i + 1..];
      port != "" && AllDigits(port)
    else '.' in s
  }

  /** Segment i of a path bears the reference, if no earlier one does. */
  predicate BearsRef(i: nat, s: string) {
    !(i == 0 && IsRegistrySegment(s)) && (':' in s || '@' in s)
  }

  /** The first reference-bearing segment, or -1. */
  function RefIndex(segs: seq<string>): (r: int)
    ensures -1 <= r < |segs|
    ensures r >= 0 ==> BearsRef(r, segs[r])
    ensures forall i: nat | i < |segs| && (r < 0 || i < r) :: !BearsRef(i, segs[i])
  {
    if segs == [] then -1
    else
      var init := segs[..|segs| - 1];
      var r := RefIndex(init);
      assert forall i | 0 <= i < |init| :: init[i] == segs[i];
      if r >= 0 then r
      else if BearsRef(|init|, segs[|init|]) then |init|
      else -1
  }

  function DashesToSlashes(s: string): string {
    seq(|s|, i requires 0 <= i < |s| => if s[i] == '-' then '/' else s[i])
  }

  /** The "os/arch[/variant]" grammar v1.ParsePlatform is documented to follow. */
  function GrammarPlatform(s: string): Option<Platform> {
    var parts := Split(s);
    if |parts| == 2 then Some(Platform(parts[0], parts[1], ""))
    else if |parts| == 3 then Some(Platform(parts[0], parts[1], parts[2]))
    else None
  }

  predicate FollowsGrammar(lib: Library, s: string) {
    lib.parsePlatform(s) == GrammarPlatform(s)
  }

  function ParsePlatformSpec(s: string, lib: Library): Option<Platform> {
    if s == "" then None else lib.parsePlatform(DashesToSlashes(s))
  }

  /** A reference-bearing segment without its "~platform" suffix. */
  function RefPart(s: string): string {
    var i := IndexOf(s, '~');
    if i >= 0 then s[..i] else s
  }

  /** The reference-bearing segment last after the segments prefix, at the image root. */
  function ParseRef(prefix: seq<string>, last: string, lib: Library): ParseResult {
    var t := IndexOf(last, '~');
    var platform := if t >= 0 then ParsePlatformSpec(last[t + 1..], lib) else None;
    if t >= 0 && platform == None then BadPlatform(last[t + 1..])
    else
      var refStr := Join(prefix + [RefPart(last)]);
      match lib.parseReference(refStr)
      case None => BadRef(refStr)
      case Some(ref) => Ok(Parsed([], Some(ref), "/", platform))
  }

  function ImagePath(tail: seq<string>): string {
    if tail == [] then "/" else "/" + PathJoin(tail)
  }

  function ParseAt(segs: seq<string>, i: nat, lib: Library): ParseResult
    requires i < |segs|
  {
    var r := ParseRef(segs[..i], segs[i], lib);
    if r.Ok? then Ok(r.parsed.(inImage := ImagePath(segs[i + 1..]))) else r
  }

  /** Parse, once the path is split. */
  function Parsing(segs: seq<string>, lib: Library): ParseResult {
    var i := RefIndex(segs);
    if i < 0 then Ok(Parsed(segs, None, "", None)) else ParseAt(segs, i, lib)
  }

  /** What Parse returns for a path. */
  function Parse(p: string, lib: Library): ParseResult {
    var q := Trim(p);
    if q == "" then Ok(Parsed([], None, "", None))
    else Parsing(Split(q), lib)
  }

  /** The scan for the reference segment. */
  method FindRef(segs: seq<string>) returns (refIdx: int)
    ensures refIdx == RefIndex(segs)
  {
    hide IsRegistrySegment;
    refIdx := -1;
    var i := 0;
    while i < |segs|
      invariant 0 <= i <= |segs| && refIdx == -1
      invariant forall j: nat | j < i :: !BearsRef(j, segs[j])
    {
      if !(i == 0 && IsRegistrySegment(segs[i])) {
        if ':' in segs[i] || '@' in segs[i] {
          refIdx := i;
          break;
        }
      }
      i := i + 1;
    }
    RefIndexUnique(segs, refIdx);
  }

  /** Parse as written: the reference segment is rewritten in place. */
  method ParsePath(p: string, lib: Library) returns (r: ParseResult)
    ensures r == Parse(p, lib)
  {
    hide Trim, Split, Join, RefIndex, PathJoin, ParsePlatformSpec;
    var q := Trim(p);
    if q == "" {
      return Ok(Parsed([], None, "", None));
    }
    var segs := Split(q);
    var refIdx := FindRef(segs);
    if refIdx < 0 {
      return Ok(Parsed(segs, None, "", None));
    }
    r := ParseRefSegment(segs, refIdx, lib);
  }

  method ParseRefSegment(split: seq<string>, refIdx: nat, lib: Library) returns (r: ParseResult)
    requires refIdx < |split|
    ensures r == ParseAt(split, refIdx, lib)
  {
    hide Join, PathJoin, ParsePlatformSpec, IndexOf;
    var segs := split;
    var platform: Option<Platform> := None;
    var last := segs[refIdx];
    var t := IndexOf(last, '~');
    if t >= 0 {
      var spec := last[t + 1..];
      segs := segs[refIdx := last[..t]];
      platform := ParsePlatformSpec(spec, lib);
      if platform == None {
        return BadPlatform(spec);
      }
    }
    assert segs[..refIdx + 1] == split[..refIdx] + [RefPart(last)];
    assert segs[refIdx + 1..] == split[refIdx + 1..];
    var refStr := Join(segs[..refIdx + 1]);
    var ref := lib.parseReference(refStr);
    if ref == None {
      return BadRef(refStr);
    }
    var inImage := "/";
    if segs[refIdx + 1..] != [] {
      inImage := "/" + PathJoin(segs[refIdx + 1..]);
    }
    return Ok(Parsed([], ref, inImage, platform));
  }

  // ---- one segment at a time ----

  datatype Segment =
    | Intermediate(full: string)
    | TagSegment(ref: Ref, platform: Option<Platform>)
    | DigestSegment(ref: Ref, platform: Option<Platform>)
    | Rejected(error: ParseResult)

  function FullPath(accumulated: string, child: string): string {
    if accumulated == "" then child else accumulated + "/" + child
  }

  /** What a path classifies as, from Parse's answer. */
  function SegmentOf(full: string, r: ParseResult): Segment {
    match r
    case Ok(parsed) =>
      if parsed.ref == None then Intermediate(full)
      else if parsed.ref.value.DigestRef? then DigestSegment(parsed.ref.value, parsed.platform)
      else TagSegment(parsed.ref.value, parsed.platform)
    case error => Rejected(error)
  }

  /** classifySegment. */
  function Classify(accumulated: string, child: string, lib: Library): Segment {
    var full := FullPath(accumulated, child);
    SegmentOf(full, Parse(full, lib))
  }

  /** The kind of segment follows from Parse's answer: no reference, a tag, a digest, or an error. */
  lemma ClassifySpelled(accumulated: string, child: string, lib: Library)
    ensures var full := if accumulated == "" then child else accumulated + "/" + child;
            var seg := Classify(accumulated, child, lib);
            match Parse(full, lib)
            case Ok(parsed) =>
              && (parsed.ref == None ==> seg == Intermediate(full))
              && (parsed.ref.Some? && parsed.ref.value.TagRef? ==> seg == TagSegment(parsed.ref.value, parsed.platform))
              && (parsed.ref.Some? && parsed.ref.value.DigestRef? ==> seg == DigestSegment(parsed.ref.value, parsed.platform))
            case error => seg == Rejected(error)
  {
  }

  /** A non-empty name without a slash: what a lookup is given. */
  predicate Plain(s: string) {
    s != "" && '/' !in s
  }

  predicate AllPlain(segs: seq<string>) {
    forall i | 0 <= i < |segs| :: Plain(segs[i])
  }

  /** Segments whose joining neither begins nor ends with a slash. */
  predicate Ended(segs: seq<string>) {
    segs != [] && NoSlashes(segs) && segs[0] != "" && segs[|segs| - 1] != ""
  }

  lemma {:induction false} JoinEnd(segs: seq<string>)
    requires segs != [] && NoSlashes(segs) && segs[|segs| - 1] != ""
    ensures Join(segs) != "" && Join(segs)[|Join(segs)| - 1] != '/'
  {
    var last := segs[|segs| - 1];
    if |segs| == 1 {
      assert last[|last| - 1] in last;
    } else {
      JoinEnd(segs[1..]);
    }
  }

  lemma JoinEnds(segs: seq<string>)
    requires Ended(segs)
    ensures Join(segs) != "" && Join(segs)[0] != '/' && Join(segs)[|Join(segs)| - 1] != '/'
  {
    JoinEnd(segs);
    assert segs[0][0] in segs[0];
  }

  lemma PlainEnds(segs: seq<string>)
    requires segs != [] && AllPlain(segs)
    ensures Ended(segs)
  {
  }

  /** Parsing a joined path sees exactly the segments it was joined from. */
  lemma ParseJoined(segs: seq<string>, lib: Library)
    requires Ended(segs)
    ensures Trim(Join(segs)) == Join(segs) && Split(Join(segs)) == segs
    ensures Parse(Join(segs), lib) == Parsing(segs, lib)
  {
    JoinEnds(segs);
    SplitJoin(segs);
  }

  // ---- what Parse returns, spelled out ----

  lemma {:induction false} TrimLeftPadded(a: string, s: string)
    requires AllSlashes(a)
    ensures TrimLeft(a + s) == TrimLeft(s)
  {
    if a == "" {
      assert a + s == s;
    } else {
      assert (a + s)[1..] == a[1..] + s;
      TrimLeftPadded(a[1..], s);
    }
  }

  lemma {:induction false} TrimRightPadded(s: string, b: string)
    requires AllSlashes(b)
    ensures TrimRight(s + b) == TrimRight(s)
  {
    if b == "" {
      assert s + b == s;
    } else {
      assert (s + b)[..|s + b| - 1] == s + b[..|b| - 1];
      TrimRightPadded(s, b[..|b| - 1]);
    }
  }

  lemma {:induction false} TrimLeftFront(s: string, b: string)
    requires AllSlashes(b)
    ensures TrimRight(TrimLeft(s + b)) == TrimRight(TrimLeft(s))
  {
    if s == "" {
      assert s + b == b && b + "" == b;
      TrimLeftPadded(b, "");
    } else if s[0] == '/' {
      assert (s + b)[1..] == s[1..] + b;
      TrimLeftFront(s[1..], b);
    } else {
      TrimRightPadded(s, b);
    }
  }

  /** Slashes around a path do not matter, and with nothing else there are no segments. */
  lemma ParseIgnoresSlashes(before: string, p: string, after: string, lib: Library)
    requires AllSlashes(before) && AllSlashes(after)
    ensures Parse(before + p + after, lib) == Parse(p, lib)
    ensures Parse(before, lib) == Ok(Parsed([], None, "", None))
  {
    hide Parsing, TrimLeft, TrimRight;
    assert before + p + after == before + (p + after);
    TrimLeftPadded(before, p + after);
    TrimLeftFront(p, after);
    assert before + "" == before;
    TrimLeftPadded(before, "");
    TrimOfNothing();
  }

  lemma TrimOfNothing()
    ensures Trim("") == "" && TrimLeft("") == "" && TrimRight("") == ""
  {
  }

  /** A host with a numeric port, or a dotted name. */
  ghost predicate RegistrySpelled(s: string) {
    (exists host, port :: HostPort(s, host, port)) || (':' !in s && '.' in s)
  }

  predicate HostPort(s: string, host: string, port: string) {
    s == host + ":" + port && port != "" && forall i | 0 <= i < |port| :: '0' <= port[i] <= '9'
  }

  /** Segment s at position i is a reference if no earlier one is. */
  ghost predicate Marked(i: nat, s: string) {
    (':' in s || '@' in s) && !(i == 0 && RegistrySpelled(s))
  }

  lemma RegistryIsSpelled(s: string)
    ensures IsRegistrySegment(s) <==> RegistrySpelled(s)
  {
    var i := LastIndexOf(s, ':');
    if i >= 0 {
      var host, port := s[..i], s[i + 1..];
      assert s == host + ":" + port;
      RegistryIff(host, port);
      assert IsRegistrySegment(s) ==> HostPort(s, host, port);
    }
    if host, port :| HostPort(s, host, port) {
      DigitsOnly(port);
      RegistryIff(host, port);
    }
  }

  lemma BearsRefSpelled(i: nat, s: string)
    ensures BearsRef(i, s) <==> Marked(i, s)
  {
    hide IsRegistrySegment, RegistrySpelled;
    RegistryIsSpelled(s);
  }

  /** A path none of whose segments is a reference gives its segments and nothing else. */
  lemma ParseWithoutRef(segs: seq<string>, lib: Library)
    requires Ended(segs) && forall i: nat | i < |segs| :: !Marked(i, segs[i])
    ensures Parse(Join(segs), lib) == Ok(Parsed(segs, None, "", None))
  {
    hide Join, Parse, BearsRef, Marked, Ended;
    forall i: nat | i < |segs| ensures !BearsRef(i, segs[i]) {
      BearsRefSpelled(i, segs[i]);
    }
    RefIndexUnique(segs, -1);
    ParseJoined(segs, lib);
  }

  /**
   A path whose first reference is segment i, "own" with or without "~spec": the platform is read
   from spec with slashes for dashes, the reference from all segments up to own, and what follows is
   the path in the image; an empty or unreadable spec is reported before an unreadable reference.
   */
  lemma ParseWithRef(segs: seq<string>, i: nat, own: string, spec: Option<string>, lib: Library)
    requires Ended(segs) && i < |segs| && Marked(i, segs[i]) && forall j: nat | j < i :: !Marked(j, segs[j])
    requires '~' !in own && segs[i] == own + if spec.Some? then "~" + spec.value else ""
    ensures var refStr := Join(segs[..i] + [own]);
            var platform := if spec.Some? then lib.parsePlatform(DashesToSlashes(spec.value)) else None;
            var inImage := if i == |segs| - 1 then "/" else "/" + PathJoin(segs[i + 1..]);
            Parse(Join(segs), lib)
            == if spec.Some? && (spec.value == "" || platform == None) then BadPlatform(spec.value)
               else if lib.parseReference(refStr) == None then BadRef(refStr)
               else Ok(Parsed([], lib.parseReference(refStr), inImage, platform))
  {
    hide Join, Parse, BearsRef, Marked, Ended, PathJoin, DashesToSlashes;
    BearsRefSpelled(i, segs[i]);
    forall j: nat | j < i ensures !BearsRef(j, segs[j]) {
      BearsRefSpelled(j, segs[j]);
    }
    RefIndexUnique(segs, i);
    ParseJoined(segs, lib);
    ParseRefSpelled(segs[..i], segs[i], own, spec, lib);
    assert |segs| - 1 == i <==> segs[i + 1..] == [];
    hide ParseRef, RefIndex;
  }

  lemma ParseRefSpelled(prefix: seq<string>, last: string, own: string, spec: Option<string>, lib: Library)
    requires '~' !in own && last == own + if spec.Some? then "~" + spec.value else ""
    ensures var refStr := Join(prefix + [own]);
            var platform := if spec.Some? then lib.parsePlatform(DashesToSlashes(spec.value)) else None;
            ParseRef(prefix, last, lib)
            == if spec.Some? && (spec.value == "" || platform == None) then BadPlatform(spec.value)
               else if lib.parseReference(refStr) == None then BadRef(refStr)
               else Ok(Parsed([], lib.parseReference(refStr), "/", platform))
  {
    CutSpelled(last, own, spec);
    hide IndexOf, RefPart, Join, DashesToSlashes;
  }

  /** Where a reference segment is cut. */
  lemma CutSpelled(last: string, own: string, spec: Option<string>)
    requires '~' !in own && last == own + if spec.Some? then "~" + spec.value else ""
    ensures RefPart(last) == own && (IndexOf(last, '~') >= 0 <==> spec.Some?)
    ensures spec.Some? ==> last[IndexOf(last, '~') + 1..] == spec.value
  {
    if spec.Some? {
      assert last == own + ['~'] + spec.value;
      IndexOfConcat(own, '~', spec.value);
    }
  }

  lemma JoinSnoc(segs: seq<string>, c: string)
    requires AllPlain(segs)
    ensures FullPath(Join(segs), c) == Join(segs + [c])
  {
    if segs == [] {
      assert segs + [c] == [c];
    } else {
      PlainEnds(segs);
      JoinEnds(segs);
      JoinConcat(segs, [c]);
    }
  }

  lemma RefIndexUnique(segs: seq<string>, r: int)
    requires -1 <= r < |segs|
    requires r >= 0 ==> BearsRef(r, segs[r])
    requires forall i: nat | i < |segs| && (r < 0 || i < r) :: !BearsRef(i, segs[i])
    ensures RefIndex(segs) == r
  {
  }

  /** The index of the reference in a path of which segment k is the last. */
  lemma RefIndexOfPrefix(segs: seq<string>, k: nat)
    requires k < |segs|
    ensures var r := RefIndex(segs);
            RefIndex(segs[..k + 1]) == if 0 <= r <= k then r else -1
  {
    var r := RefIndex(segs);
    RefIndexUnique(segs[..k + 1], if 0 <= r <= k then r else -1);
  }

  lemma EndedSnoc(init: seq<string>, child: string)
    requires AllPlain(init) && Plain(child)
    ensures Ended(init + [child])
  {
    PlainEnds(init + [child]);
  }

  /** Classifying a name after plain segments is parsing them all. */
  lemma ClassifyJoined(init: seq<string>, child: string, lib: Library)
    requires AllPlain(init) && Plain(child)
    ensures var segs := init + [child];
            Classify(Join(init), child, lib) == SegmentOf(Join(segs), Parsing(segs, lib))
  {
    hide Join, Parse, Parsing, SegmentOf, FullPath, Plain;
    JoinSnoc(init, child);
    EndedSnoc(init, child);
    ParseJoined(init + [child], lib);
  }

  /** Up to the reference Parse finds, every segment classifies as intermediate. */
  lemma WalkIntermediate(segs: seq<string>, k: nat, lib: Library)
    requires AllPlain(segs) && k < |segs| && (RefIndex(segs) < 0 || k < RefIndex(segs))
    ensures Classify(Join(segs[..k]), segs[k], lib) == Intermediate(Join(segs[..k + 1]))
  {
    hide Join, RefIndex, Classify, ParseAt, Plain;
    assert segs[..k] + [segs[k]] == segs[..k + 1];
    RefIndexOfPrefix(segs, k);
    ClassifyJoined(segs[..k], segs[k], lib);
  }

  /** Names descended one after the other below the image root. */
  function Descend(path: string, names: seq<string>): string {
    if names == [] then path
    else JoinInImage(Descend(path, names[..|names| - 1]), names[|names| - 1])
  }

  /**
   At the reference segment, walking and parsing the whole path agree: same error, or the same
   reference and platform; and descending through the remaining names gives Parse's InImage
   exactly when path.Clean leaves those names alone.
   */
  lemma WalkAgreesWithParse(segs: seq<string>, lib: Library)
    requires AllPlain(segs) && RefIndex(segs) >= 0
    ensures var i := RefIndex(segs);
            var seg := Classify(Join(segs[..i]), segs[i], lib);
            match Parse(Join(segs), lib)
            case Ok(parsed) =>
              && parsed.ref.Some?
              && (parsed.ref.value.TagRef? ==> seg == TagSegment(parsed.ref.value, parsed.platform))
              && (parsed.ref.value.DigestRef? ==> seg == DigestSegment(parsed.ref.value, parsed.platform))
              && (parsed.inImage == Descend("/", segs[i + 1..]) <==> CleanNames(segs[i + 1..]))
            case error => seg == Rejected(error)
  {
    hide Join, RefIndex, CleanNames, Descend, Classify, Parse, ParseRef, ImagePath, Plain;
    var i := RefIndex(segs);
    assert segs[..i] + [segs[i]] == segs[..i + 1];
    PlainEnds(segs);
    ParseJoined(segs, lib);
    RefIndexOfPrefix(segs, i);
    ClassifyJoined(segs[..i], segs[i], lib);
    ParseAtHead(segs, i, lib);
    InImageIff(segs[i + 1..]);
  }

  lemma ParsedHasRef(prefix: seq<string>, last: string, lib: Library)
    ensures ParseRef(prefix, last, lib).Ok? ==>
              ParseRef(prefix, last, lib).parsed.ref.Some? && ParseRef(prefix, last, lib).parsed.inImage == "/"
  {
    hide Join, ParsePlatformSpec, IndexOf, RefPart;
  }

  /** What follows the reference segment matters only for the path inside the image. */
  lemma ParseAtHead(segs: seq<string>, i: nat, lib: Library)
    requires i < |segs|
    ensures ParseAt(segs[..i + 1], i, lib) == ParseRef(segs[..i], segs[i], lib)
    ensures ParseRef(segs[..i], segs[i], lib).Ok? ==> ParseRef(segs[..i], segs[i], lib).parsed.ref.Some?
  {
    hide ParseRef;
    ParsedHasRef(segs[..i], segs[i], lib);
    assert segs[..i + 1][..i] == segs[..i] && segs[..i + 1][i] == segs[i];
  }

  /** Names path.Clean leaves alone: "." by itself, or no "." and every ".." before all other names. */
  predicate CleanNames(cs: seq<string>) {
    cs == ["."] || UpThenDown(cs)
  }

  predicate UpThenDown(cs: seq<string>) {
    forall i | 0 <= i < |cs| :: cs[i] != "." && (cs[i] == ".." ==> forall j | 0 <= j < i :: cs[j] == "..")
  }

  lemma ProperIsClean(cs: seq<string>)
    requires Proper(cs)
    ensures CleanNames(cs)
  {
  }

  /** Names a file system looks up are never "." or "..": below them, descending is where Parse says. */
  lemma WalkEndsInImage(segs: seq<string>, lib: Library)
    requires AllPlain(segs) && RefIndex(segs) >= 0 && Proper(segs[RefIndex(segs) + 1..])
    ensures Parse(Join(segs), lib).Ok? ==>
              Parse(Join(segs), lib).parsed.inImage == Descend("/", segs[RefIndex(segs) + 1..])
  {
    hide Join, RefIndex, CleanNames, Descend, Classify, Parse, Plain, Proper;
    WalkAgreesWithParse(segs, lib);
    ProperIsClean(segs[RefIndex(segs) + 1..]);
  }

  /** path.Clean's scan either keeps all names or ends up with fewer. */
  lemma {:induction false} ScanKeeps(cs: seq<string>, stack: seq<string>)
    requires AllPlain(cs) && UpThenDown(stack) && NoSlashes(stack)
    ensures var r := CleanSegments(false, cs, stack);
            && NoSlashes(r) && |r| <= |stack| + |cs|
            && (UpThenDown(stack + cs) ==> r == stack + cs)
            && (!UpThenDown(stack + cs) ==> |r| < |stack| + |cs|)
    decreases |cs|
  {
    if cs == [] {
      assert stack + cs == stack;
    } else {
      var c, rest := cs[0], cs[1..];
      assert (stack + cs)[|stack|] == c;
      assert stack + [c] + rest == stack + cs;
      if c == "." {
        ScanKeeps(rest, stack);
      } else if c == ".." && stack != [] && stack[|stack| - 1] != ".." {
        assert (stack + cs)[|stack| - 1] == stack[|stack| - 1];
        ScanKeeps(rest, stack[..|stack| - 1]);
      } else {
        ScanKeeps(rest, stack + [c]);
      }
    }
  }

  lemma {:induction false} NonEmptyPlain(cs: seq<string>)
    requires AllPlain(cs)
    ensures NonEmpty(cs) == cs
  {
    if cs != [] {
      NonEmptyPlain(cs[1..]);
    }
  }

  lemma PathJoinKeepsIff(cs: seq<string>)
    requires AllPlain(cs) && cs != []
    ensures PathJoin(cs) == Join(cs) <==> CleanNames(cs)
  {
    NonEmptyPlain(cs);
    SplitJoin(cs);
    PlainEnds(cs);
    JoinEnds(cs);
    ScanKeeps(cs, []);
    assert [] + cs == cs;
    var r := CleanSegments(false, cs, []);
    hide Split, CleanSegments;
    assert !IsRooted(Join(cs));
    if r == [] {
      assert Clean(Join(cs)) == ".";
      SplitNoSlash(".");
      assert Join(["."]) == ".";
    } else if Join(r) == Join(cs) {
      SplitJoin(r);
    }
  }

  /** Descending through names spells the path out; Parse joins and cleans it. */
  lemma InImageIff(cs: seq<string>)
    requires AllPlain(cs)
    ensures ImagePath(cs) == Descend("/", cs) <==> CleanNames(cs)
  {
    DescendIsAbs(cs);
    if cs != [] {
      PathJoinKeepsIff(cs);
      assert ("/" + PathJoin(cs))[1..] == PathJoin(cs) && Abs(cs)[1..] == Join(cs);
    }
  }

  lemma {:induction false} DescendIsAbs(cs: seq<string>)
    requires AllPlain(cs)
    ensures Descend("/", cs) == Abs(cs)
  {
    if cs != [] {
      var init, last := cs[..|cs| - 1], cs[|cs| - 1];
      assert cs == init + [last];
      DescendIsAbs(init);
      if init != [] {
        PlainEnds(init);
        JoinEnds(init);
        assert Abs(init)[1..] == Join(init);
        JoinConcat(init, [last]);
      }
    }
  }

  // ---- names the mount prints ----

  /** The symlink target of a tag: the digest sibling in the same directory. */
  function TagSymlinkTarget(ref: Ref, digest: string): string {
    Base(ref.repo) + "@" + digest
  }

  function PlatformSpec(p: Platform): string {
    p.os + "-" + p.arch + if p.variant != "" then "-" + p.variant else ""
  }

  /** The name addPlatformSiblings gives the symlink of a platform. */
  function SiblingName(ref: Ref, p: Platform): string
    requires ref.TagRef?
  {
    Base(ref.repo) + ":" + ref.tag + "~" + PlatformSpec(p)
  }

  /** The platform as the image format writes it. */
  function Canonical(p: Platform): string {
    p.os + "/" + p.arch + if p.variant != "" then "/" + p.variant else ""
  }

  predicate Free(s: string, cs: string) {
    forall c | c in cs :: c !in s
  }

  lemma DashesConcat(a: string, b: string)
    requires '-' !in a
    ensures DashesToSlashes(a + "-" + b) == a + "/" + DashesToSlashes(b)
    ensures DashesToSlashes(a) == a
  {
    assert forall i | 0 <= i < |a| :: a[i] in a;
  }

  /** A printed platform reaches the library in its canonical form. */
  lemma SpecIsCanonical(p: Platform)
    requires Free(p.os, "-/") && Free(p.arch, "-/") && Free(p.variant, "-/")
    ensures PlatformSpec(p) != "" && DashesToSlashes(PlatformSpec(p)) == Canonical(p)
  {
    assert '-' in "-/";
    DashesConcat(p.os, p.arch);
    DashesConcat(p.arch, p.variant);
    DashesConcat(p.variant, "");
    if p.variant != "" {
      var rest := p.arch + "-" + p.variant;
      assert PlatformSpec(p) == p.os + "-" + rest;
      DashesConcat(p.os, rest);
      assert p.os + "/" + (p.arch + "/" + p.variant) == Canonical(p);
    }
  }

  lemma GrammarReadsTwo(a: string, b: string)
    requires '/' !in a && '/' !in b
    ensures GrammarPlatform(a + "/" + b) == Some(Platform(a, b, ""))
  {
    SplitNoSlash(b);
    SplitCons(a, b);
    hide Split;
    assert Split(a + "/" + b) == [a, b];
  }

  lemma GrammarReadsThree(a: string, b: string, c: string)
    requires '/' !in a && '/' !in b && '/' !in c
    ensures GrammarPlatform(a + "/" + (b + "/" + c)) == Some(Platform(a, b, c))
  {
    SplitNoSlash(c);
    SplitCons(b, c);
    SplitCons(a, b + "/" + c);
    hide Split;
    assert Split(b + "/" + c) == [b, c];
    assert Split(a + "/" + (b + "/" + c)) == [a, b, c];
  }

  lemma GrammarReadsCanonical(p: Platform)
    requires Free(p.os, "-/") && Free(p.arch, "-/") && Free(p.variant, "-/")
    ensures GrammarPlatform(Canonical(p)) == Some(p)
  {
    hide GrammarPlatform;
    assert '/' in "-/";
    if p.variant == "" {
      assert Canonical(p) == p.os + "/" + p.arch;
      GrammarReadsTwo(p.os, p.arch);
    } else {
      assert Canonical(p) == p.os + "/" + (p.arch + "/" + p.variant);
      GrammarReadsThree(p.os, p.arch, p.variant);
    }
  }

  /** The printed platform parses back. */
  lemma PlatformRoundTrip(p: Platform, lib: Library)
    requires Free(p.os, "-/") && Free(p.arch, "-/") && Free(p.variant, "-/")
    requires FollowsGrammar(lib, Canonical(p))
    ensures ParsePlatformSpec(PlatformSpec(p), lib) == Some(p)
  {
    hide PlatformSpec, Canonical, GrammarPlatform, DashesToSlashes;
    SpecIsCanonical(p);
    GrammarReadsCanonical(p);
  }

  lemma SlashedPart(s: string, at: nat, part: string)
    requires '/' !in s && '/' !in part && at + |part| <= |s|
    requires DashesToSlashes(s)[at..at + |part|] == part
    ensures s[at..at + |part|] == part && '-' !in part
  {
    var t := DashesToSlashes(s);
    forall i | 0 <= i < |part| ensures s[at + i] == part[i] && part[i] != '-' {
      assert t[at..at + |part|][i] == t[at + i];
      assert part[i] in part && s[at + i] in s;
    }
  }

  lemma SlashedTwo(s: string, a: string, b: string)
    requires '/' !in s && '/' !in a && '/' !in b && DashesToSlashes(s) == a + "/" + b
    ensures s == a + "-" + b && '-' !in a && '-' !in b
  {
    var t := DashesToSlashes(s);
    assert t[0..|a|] == a && t[|a| + 1..|a| + 1 + |b|] == b && t[|a|] == '/';
    SlashedPart(s, 0, a);
    SlashedPart(s, |a| + 1, b);
    assert s[|a|] in s;
    assert s == s[0..|a|] + [s[|a|]] + s[|a| + 1..|a| + 1 + |b|];
  }

  lemma SlashedThree(s: string, a: string, b: string, c: string)
    requires '/' !in s && '/' !in a && '/' !in b && '/' !in c && DashesToSlashes(s) == a + "/" + (b + "/" + c)
    ensures s == a + "-" + b + "-" + c && '-' !in a && '-' !in b && '-' !in c
  {
    var t := DashesToSlashes(s);
    var rest := s[|a| + 1..];
    assert t[0..|a|] == a && t[|a|] == '/';
    SlashedPart(s, 0, a);
    assert s[|a|] in s;
    assert s == s[0..|a|] + [s[|a|]] + rest;
    assert DashesToSlashes(rest) == t[|a| + 1..] == b + "/" + c;
    SlashedTwo(rest, b, c);
  }

  lemma {:induction false} SplitIs(t: string)
    ensures |Split(t)| == 2 ==> t == Split(t)[0] + "/" + Split(t)[1]
    ensures |Split(t)| == 3 ==> t == Split(t)[0] + "/" + (Split(t)[1] + "/" + Split(t)[2])
  {
    JoinSplit(t);
    var segs := Split(t);
    if |segs| >= 2 {
      assert Join(segs) == segs[0] + "/" + Join(segs[1..]);
    }
    if |segs| == 3 {
      assert Join(segs[1..]) == segs[1] + "/" + segs[2];
    }
  }

  /** Only printed platforms parse, save for a dash left over behind an empty variant. */
  lemma ParsedPlatformPrintsBack(s: string, p: Platform, lib: Library)
    requires '/' !in s && ParsePlatformSpec(s, lib) == Some(p) && FollowsGrammar(lib, DashesToSlashes(s))
    ensures s == PlatformSpec(p) || (p.variant == "" && s == PlatformSpec(p) + "-")
    ensures '-' !in p.os && '-' !in p.arch && '-' !in p.variant
  {
    hide Split, DashesToSlashes;
    var t := DashesToSlashes(s);
    SplitIs(t);
    if |Split(t)| == 2 {
      SlashedTwo(s, p.os, p.arch);
    } else {
      SlashedThree(s, p.os, p.arch, p.variant);
      PrintedThree(p);
    }
  }

  lemma PrintedThree(p: Platform)
    ensures p.variant != "" ==> PlatformSpec(p) == p.os + "-" + p.arch + "-" + p.variant
    ensures p.variant == "" ==> PlatformSpec(p) + "-" == p.os + "-" + p.arch + "-" + p.variant
  {
    var front := p.os + "-" + p.arch;
    assert front + ("-" + p.variant) == front + "-" + p.variant;
    assert front + "" == front;
  }

  /** host:port is a registry exactly when the port is a number; a host alone, when it has a dot. */
  lemma RegistryIff(host: string, port: string)
    requires ':' !in port
    ensures IsRegistrySegment(host + ":" + port) <==> port != "" && AllDigits(port)
    ensures IsRegistrySegment(port) <==> '.' in port
  {
    assert host + ":" + port == host + [':'] + port;
    LastIndexOfConcat(host, ':', port);
    assert (host + ":" + port)[|host| + 1..] == port;
  }

  lemma IndexOfConcat(a: string, c: char, b: string)
    requires c !in a
    ensures IndexOf(a + [c] + b, c) == |a|
  {
    var s := a + [c] + b;
    var i := IndexOf(s, c);
    assert s[|a|] == c;
  }

  lemma LastIndexOfConcat(a: string, c: char, b: string)
    requires c !in b
    ensures LastIndexOf(a + [c] + b, c) == |a|
  {
    var s := a + [c] + b;
    var i := LastIndexOf(s, c);
    assert s[|a|] == c;
  }

  /** A last segment below plain intermediate ones: where the reference is, and what Parse makes of it. */
  lemma ClassifyLast(prefix: seq<string>, child: string, lib: Library)
    requires AllPlain(prefix) && RefIndex(prefix) < 0 && Plain(child)
    ensures !BearsRef(|prefix|, child) ==> Classify(Join(prefix), child, lib) == Intermediate(FullPath(Join(prefix), child))
    ensures BearsRef(|prefix|, child) ==>
              var seg := Classify(Join(prefix), child, lib);
              match ParseAt(prefix + [child], |prefix|, lib)
              case Ok(parsed) =>
                && (parsed.ref == None ==> seg == Intermediate(FullPath(Join(prefix), child)))
                && (parsed.ref.Some? && parsed.ref.value.TagRef? ==> seg == TagSegment(parsed.ref.value, parsed.platform))
                && (parsed.ref.Some? && parsed.ref.value.DigestRef? ==> seg == DigestSegment(parsed.ref.value, parsed.platform))
              case error => seg == Rejected(error)
  {
    hide Join, RefIndex, Classify, ParseAt, Plain, FullPath, BearsRef;
    var segs := prefix + [child];
    JoinSnoc(prefix, child);
    LastBears(prefix, child);
    ClassifyJoined(prefix, child, lib);
  }

  lemma LastBears(prefix: seq<string>, child: string)
    requires RefIndex(prefix) < 0
    ensures RefIndex(prefix + [child]) == if BearsRef(|prefix|, child) then |prefix| else -1
  {
    hide BearsRef;
    assert (prefix + [child])[..|prefix|] == prefix;
  }

  /** Where Parse cuts a sibling name, and that it is a reference in every position. */
  lemma SiblingShape(base: string, tag: string, spec: string, n: nat)
    requires '/' !in base && '~' !in base && '/' !in tag && ':' !in tag && '~' !in tag
    requires '/' !in spec && ':' !in spec
    ensures var child := base + ":" + tag + "~" + spec;
            && Plain(child) && BearsRef(n, child)
            && IndexOf(child, '~') == |base + ":" + tag|
            && RefPart(child) == base + ":" + tag
            && child[IndexOf(child, '~') + 1..] == spec
  {
    var own := base + ":" + tag;
    var child := own + "~" + spec;
    assert '~' !in own && '/' !in own;
    assert child == own + ['~'] + spec;
    IndexOfConcat(own, '~', spec);
    var port := tag + "~" + spec;
    assert child == base + [':'] + port;
    LastIndexOfConcat(base, ':', port);
    assert child[|base| + 1..] == port;
    assert port[|tag|] == '~';
    assert child[|base|] == ':';
  }

  /**
   Looked up in the directory it is listed in, a sibling name yields the tag it was printed for
   and exactly its platform.  Assumed of the library: the tag's own "base:tag" segment parses to
   the tag, and the platform's canonical form by the documented grammar.
   */
  lemma SiblingParsesBack(prefix: seq<string>, ref: Ref, p: Platform, lib: Library)
    requires AllPlain(prefix) && RefIndex(prefix) < 0
    requires ref.TagRef? && Free(Base(ref.repo), "/~") && Free(ref.tag, "/:~")
    requires Free(p.os, "-/:~") && Free(p.arch, "-/:~") && Free(p.variant, "-/:~")
    requires lib.parseReference(Join(prefix + [Base(ref.repo) + ":" + ref.tag])) == Some(ref)
    requires FollowsGrammar(lib, Canonical(p))
    ensures Classify(Join(prefix), SiblingName(ref, p), lib) == TagSegment(ref, Some(p))
  {
    hide Join, Classify, PlatformSpec, ParsePlatformSpec, IndexOf, RefPart, BearsRef, Base, RefIndex;
    var child := SiblingName(ref, p);
    assert '/' in "/~" && '~' in "/~" && '/' in "/:~" && ':' in "/:~" && '~' in "/:~";
    SpecFree(p);
    SiblingShape(Base(ref.repo), ref.tag, PlatformSpec(p), |prefix|);
    PlatformRoundTrip(p, lib);
    ClassifyLast(prefix, child, lib);
    assert (prefix + [child])[..|prefix|] == prefix;
  }

  lemma SpecFree(p: Platform)
    requires Free(p.os, "-/:~") && Free(p.arch, "-/:~") && Free(p.variant, "-/:~")
    ensures '/' !in PlatformSpec(p) && ':' !in PlatformSpec(p) && '~' !in PlatformSpec(p)
    ensures Free(p.os, "-/") && Free(p.arch, "-/") && Free(p.variant, "-/")
  {
    assert '-' in "-/:~" && '/' in "-/:~" && ':' in "-/:~" && '~' in "-/:~";
    assert forall c | c in "-/" :: c == '-' || c == '/';
  }

  /**
   A tag's symlink target, looked up in the tag's directory, is the digest reference, except as
   a first segment with an all-decimal digest, which is taken for a registry with a port.
   */
  lemma SymlinkTargetResolvesIff(prefix: seq<string>, ref: Ref, alg: string, hex: string, target: Ref, lib: Library)
    requires AllPlain(prefix) && RefIndex(prefix) < 0
    requires Free(Base(ref.repo), "/~") && Free(alg, "/~") && Free(hex, "/:~")
    requires target == DigestRef(ref.repo, alg + ":" + hex)
    requires lib.parseReference(Join(prefix + [TagSymlinkTarget(ref, alg + ":" + hex)])) == Some(target)
    ensures Classify(Join(prefix), TagSymlinkTarget(ref, alg + ":" + hex), lib)
         == if prefix == [] && hex != "" && AllDigits(hex) then Intermediate(TagSymlinkTarget(ref, alg + ":" + hex))
            else DigestSegment(target, None)
  {
    var child := Base(ref.repo) + "@" + alg + ":" + hex;
    assert '/' in "/~" && '~' in "/~" && '/' in "/:~" && ':' in "/:~" && '~' in "/:~";
    TargetSpelled(ref, alg, hex);
    hide Join, Classify, IndexOf, LastIndexOf, RefPart, Base, RefIndex, IsRegistrySegment, ParseAt, TagSymlinkTarget;
    TargetShape(Base(ref.repo), alg, hex);
    PlainDigestClassifies(prefix, child, target, lib);
  }

  lemma DecimalTargetIsIntermediate(ref: Ref, alg: string, hex: string, lib: Library)
    requires Free(Base(ref.repo), "/~") && Free(alg, "/~") && hex != "" && AllDigits(hex)
    ensures Classify("", TagSymlinkTarget(ref, alg + ":" + hex), lib) == Intermediate(TagSymlinkTarget(ref, alg + ":" + hex))
  {
    assert '/' in "/~" && '~' in "/~";
    DigitsOnly(hex);
    TargetSpelled(ref, alg, hex);
    TargetShape(Base(ref.repo), alg, hex);
    var child := TagSymlinkTarget(ref, alg + ":" + hex);
    assert Join([]) == "" && FullPath("", child) == child;
    RefIndexUnique([], -1);
    hide Join, Classify, Base, RefIndex, IsRegistrySegment, ParseAt, TagSymlinkTarget, FullPath, IndexOf, RefPart, AllDigits;
    ClassifyLast([], child, lib);
  }

  lemma DigitsOnly(s: string)
    requires AllDigits(s)
    ensures '/' !in s && '~' !in s && ':' !in s
  {
  }

  lemma UbuntuBase()
    ensures Base("library/ubuntu") == "ubuntu"
  {
    hide Split;
    SplitNoSlash("ubuntu");
    SplitCons("library", "ubuntu");
    assert "library" + "/" + "ubuntu" == "library/ubuntu";
    assert Split("library/ubuntu") == ["library", "ubuntu"];
  }

  /** A decimal digest: the symlink of "ubuntu:latest", followed at the mount root, leads to a directory. */
  lemma DecimalDigestTaken(lib: Library)
    ensures var hex := seq(64, i => '7');
            var target := TagSymlinkTarget(TagRef("library/ubuntu", "latest"), "sha256" + ":" + hex);
            |hex| == 64 && Classify("", target, lib) == Intermediate(target)
  {
    hide Base, Classify, TagSymlinkTarget;
    var hex := seq(64, i => '7');
    UbuntuBase();
    assert hex[0] == '7' && AllDigits(hex);
    DecimalTargetIsIntermediate(TagRef("library/ubuntu", "latest"), "sha256", hex, lib);
  }

  /** How a last segment with an '@' and without a platform suffix classifies. */
  lemma PlainDigestClassifies(prefix: seq<string>, child: string, target: Ref, lib: Library)
    requires AllPlain(prefix) && RefIndex(prefix) < 0 && target.DigestRef?
    requires Plain(child) && '@' in child && IndexOf(child, '~') < 0 && RefPart(child) == child
    requires lib.parseReference(Join(prefix + [child])) == Some(target)
    ensures Classify(Join(prefix), child, lib)
         == if prefix == [] && IsRegistrySegment(child) then Intermediate(child) else DigestSegment(target, None)
  {
    assert Join([]) == "";
    hide Join, Classify, IndexOf, RefPart, RefIndex, IsRegistrySegment, ParseAt;
    ClassifyLast(prefix, child, lib);
    ParseLastPlain(prefix, child, target, lib);
  }

  lemma TargetSpelled(ref: Ref, alg: string, hex: string)
    ensures TagSymlinkTarget(ref, alg + ":" + hex) == Base(ref.repo) + "@" + alg + ":" + hex
  {
    hide Base;
    assert Base(ref.repo) + "@" + (alg + ":" + hex) == Base(ref.repo) + "@" + alg + ":" + hex;
  }

  /** A last segment without a platform suffix parses to its reference and the image root. */
  lemma ParseLastPlain(prefix: seq<string>, child: string, ref: Ref, lib: Library)
    requires IndexOf(child, '~') < 0 && RefPart(child) == child && lib.parseReference(Join(prefix + [child])) == Some(ref)
    ensures ParseAt(prefix + [child], |prefix|, lib) == Ok(Parsed([], Some(ref), "/", None))
  {
    hide Join, IndexOf, RefPart, ParsePlatformSpec;
    assert (prefix + [child])[..|prefix|] == prefix;
  }

  lemma TargetShape(base: string, alg: string, hex: string)
    requires '/' !in base && '~' !in base && '/' !in alg && '~' !in alg && '/' !in hex && '~' !in hex && ':' !in hex
    ensures var child := base + "@" + alg + ":" + hex;
            && Plain(child) && '@' in child && IndexOf(child, '~') < 0 && RefPart(child) == child
            && (IsRegistrySegment(child) <==> hex != "" && AllDigits(hex))
  {
    var front := base + "@" + alg;
    var child := front + ":" + hex;
    RegistryIff(front, hex);
    assert child[|base|] == '@';
    assert '~' !in child && '/' !in child;
  }

  // ---- the loop that adds the siblings ----

  datatype PlatformDigest = PlatformDigest(platform: Platform, digest: string)

  predicate SamePlatform(a: Platform, b: Platform) {
    a.os == b.os && a.arch == b.arch && a.variant == b.variant
  }

  /** The children of a directory inode: symlink names and their targets. */
  class Inode {
    var children: map<string, string>

    constructor ()
      ensures children == map[]
    {
      children := map[];
    }

    /** addPlatformSiblings: existing children stay; of several platforms with one name the first wins. */
    method AddPlatformSiblings(ref: Ref, current: Option<Platform>, platforms: seq<PlatformDigest>)
      modifies this
      ensures ref.DigestRef? ==> children == old(children)
      ensures forall n | n in old(children) :: n in children && children[n] == old(children)[n]
      ensures ref.TagRef? ==>
                forall n | n !in old(children) ::
                  n in children <==> exists i :: 0 <= i < |platforms| && current != Some(platforms[i].platform)
                                                 && SiblingName(ref, platforms[i].platform) == n
      ensures ref.TagRef? ==>
                forall n | n in children && n !in old(children) ::
                  exists i :: 0 <= i < |platforms| && current != Some(platforms[i].platform)
                              && SiblingName(ref, platforms[i].platform) == n
                              && children[n] == Base(ref.repo) + "@" + platforms[i].digest
                              && forall j | 0 <= j < i :: current == Some(platforms[j].platform) || SiblingName(ref, platforms[j].platform) != n
    {
      if !ref.TagRef? {
        return;
      }
      var base := Base(ref.repo);
      for k := 0 to |platforms|
        invariant forall n | n in old(children) :: n in children && children[n] == old(children)[n]
        invariant forall n | n !in old(children) ::
                    n in children <==> exists i :: 0 <= i < k && current != Some(platforms[i].platform)
                                                   && SiblingName(ref, platforms[i].platform) == n
        invariant forall n | n in children && n !in old(children) ::
                    exists i :: 0 <= i < k && current != Some(platforms[i].platform)
                                && SiblingName(ref, platforms[i].platform) == n
                                && children[n] == base + "@" + platforms[i].digest
                                && forall j | 0 <= j < i :: current == Some(platforms[j].platform) || SiblingName(ref, platforms[j].platform) != n
      {
        var pd := platforms[k];
        if !(current.Some? && SamePlatform(current.value, pd.platform)) {
          var spec := pd.platform.os + "-" + pd.platform.arch;
          if pd.platform.variant != "" {
            spec := spec + "-" + pd.platform.variant;
          }
          var name := base + ":" + ref.tag + "~" + spec;
          assert spec == PlatformSpec(pd.platform);
          if name !in children {
            children := children[name := base + "@" + pd.digest];
          }
        }
      }
    }
  }
}
