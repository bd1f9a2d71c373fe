/**
 Go's strings and path packages as far as the repository uses them, over '/'-separated
 strings, together with canon of internal/merge/merge.go and joinInImage of internal/mount/mount.go.

 A canonical path is the image under Abs of a list of proper components.  The lemmas relate
 what the code does on bytes (prefix tests, Clean, Dir, Base, Join) to component lists.
 */
module GoPath {

  /** strings.Split(s, "/"). */
  function Split(s: string): (segs: seq<string>)
    ensures |segs| >= 1
    ensures forall i | 0 <= i < |segs| :: '/' !in segs[i]
  {
    if s == "" then [""]
    else
      var rest := Split(s[1..]);
      if s[0] == '/' then [""] + rest else [[s[0]] + rest[0]] + rest[1..]
  }

  /** strings.Join(segs, "/"). */
  function Join(segs: seq<string>): string {
    if segs == [] then ""
    else if |segs| == 1 then segs[0]
    else segs[0] + "/" + Join(segs[1..])
  }

  /** A path component that path.Clean leaves alone. */
  predicate IsComponent(c: string) {
    c != "" && c != "." && c != ".." && '/' !in c
  }

  predicate Proper(cs: seq<string>) {
    forall i | 0 <= i < |cs| :: IsComponent(cs[i])
  }

  /** The segment stack path.Clean maintains while it scans a path. */
  function CleanSegments(rooted: bool, segs: seq<string>, stack: seq<string>): seq<string>
    decreases |segs|
  {
    if segs == [] then stack
    else if segs[0] == "" || segs[0] == "." then CleanSegments(rooted, segs[1..], stack)
    else if segs[0] == ".." then
      if stack != [] && stack[|stack| - 1] != ".." then
        CleanSegments(rooted, segs[1..], stack[..|stack| - 1])
      else if rooted then CleanSegments(rooted, segs[1..], stack)
      else CleanSegments(rooted, segs[1..], stack + [".."])
    else CleanSegments(rooted, segs[1..], stack + [segs[0]])
  }

  predicate IsRooted(p: string) {
    p != "" && p[0] == '/'
  }

  /** path.Clean. */
  function Clean(p: string): string {
    var cs := CleanSegments(IsRooted(p), Split(p), []);
    if IsRooted(p) then "/" + Join(cs)
    else if cs == [] then "."
    else Join(cs)
  }

  /** path.Dir: Clean of everything up to and including the last slash. */
  function Dir(p: string): string {
    var segs := Split(p);
    Clean(Join(segs[..|segs| - 1] + [""]))
  }

  function LastNonEmpty(segs: seq<string>): string {
    if segs == [] then "/"
    else if segs[|segs| - 1] != "" then segs[|segs| - 1]
    else LastNonEmpty(segs[..|segs| - 1])
  }

  /** path.Base: the last element once trailing slashes are gone, "/" if only slashes were there. */
  function Base(p: string): string {
    if p == "" then "." else LastNonEmpty(Split(p))
  }

  function NonEmpty(elems: seq<string>): seq<string> {
    if elems == [] then []
    else (if elems[0] == "" then [] else [elems[0]]) + NonEmpty(elems[1..])
  }

  /** path.Join: joins the non-empty elements and cleans the result. */
  function PathJoin(elems: seq<string>): string {
    var es := NonEmpty(elems);
    if es == [] then "" else Clean(Join(es))
  }

  /** canon: leading slash, no trailing slash, "" and "." are the root. */
  function Canon(p: string): string {
    if p == "" || p == "." then "/"
    else Clean(if "/" <= p then p else "/" + p)
  }

  /** The canonical string of a component list. */
  function Abs(cs: seq<string>): string {
    "/" + Join(cs)
  }

  /** The components a path has once it is read as rooted. */
  function Components(p: string): (cs: seq<string>)
    ensures Proper(cs)
  {
    CleanRootedIsProper(Split(p), []);
    CleanSegments(true, Split(p), [])
  }

  /** joinInImage of internal/mount/mount.go. */
  function JoinInImage(parent: string, child: string): string {
    if parent == "/" then "/" + child else parent + "/" + child
  }

  /** Go's < on strings: bytewise lexicographic. */
  predicate Less(a: string, b: string) {
    if b == "" then false
    else if a == "" then true
    else a[0] < b[0] || (a[0] == b[0] && Less(a[1..], b[1..]))
  }

  lemma {:induction false} LessTotal(a: string, b: string)
    ensures Less(a, b) || a == b || Less(b, a)
    ensures !(Less(a, b) && Less(b, a))
    ensures !Less(a, a)
  {
    if a != "" {
      LessTotal(a[1..], a[1..]);
    }
    if a != "" && b != "" {
      LessTotal(a[1..], b[1..]);
      assert a == [a[0]] + a[1..] && b == [b[0]] + b[1..];
    }
  }

  lemma {:induction false} LessTransitive(a: string, b: string, c: string)
    requires Less(a, b) && Less(b, c)
    ensures Less(a, c)
  {
    if a != "" {
      if a[0] == b[0] == c[0] {
        LessTransitive(a[1..], b[1..], c[1..]);
      }
    }
  }

  /** a and b agree up to i, where a ends or has the smaller byte. */
  predicate LessAt(a: string, b: string, i: nat) {
    i <= |a| && i < |b| && a[..i] == b[..i] && (i == |a| || a[i] < b[i])
  }

  /** The order is that of the first difference; a proper beginning comes first. */
  lemma {:induction false} LessIff(a: string, b: string)
    ensures Less(a, b) <==> exists i: nat :: LessAt(a, b, i)
  {
    if a == "" && b != "" {
      assert LessAt(a, b, 0);
    } else if a != "" && b != "" && a[0] < b[0] {
      assert LessAt(a, b, 0);
    } else if a != "" && b != "" && a[0] == b[0] {
      LessIff(a[1..], b[1..]);
      LessTailIff(a, b);
    }
  }

  lemma LessTailIff(a: string, b: string)
    requires a != "" && b != "" && a[0] == b[0]
    ensures (exists i: nat :: LessAt(a, b, i)) <==> exists i: nat :: LessAt(a[1..], b[1..], i)
  {
    assert a == [a[0]] + a[1..] && b == [b[0]] + b[1..];
    if i: nat :| LessAt(a[1..], b[1..], i) {
      assert a[..i + 1] == [a[0]] + a[1..][..i] && b[..i + 1] == [b[0]] + b[1..][..i];
      assert LessAt(a, b, i + 1);
    }
    if i: nat :| LessAt(a, b, i) {
      assert a[..i] == [a[0]] + a[1..][..i - 1] && b[..i] == [b[0]] + b[1..][..i - 1];
      assert a[1..][..i - 1] == a[..i][1..] && b[1..][..i - 1] == b[..i][1..];
      assert LessAt(a[1..], b[1..], i - 1);
    }
  }

  // ---- Split and Join ----

  lemma {:induction false} SplitNoSlash(a: string)
    requires '/' !in a
    ensures Split(a) == [a]
  {
    if a != "" {
      SplitNoSlash(a[1..]);
      assert Split(a) == [[a[0]] + a[1..]] + [a[1..]][1..];
      assert [a[0]] + a[1..] == a;
    }
  }

  lemma {:induction false} SplitCons(a: string, s: string)
    requires '/' !in a
    ensures Split(a + "/" + s) == [a] + Split(s)
  {
    if a == "" {
      assert a + "/" + s == "/" + s;
      assert ("/" + s)[1..] == s;
    } else {
      SplitCons(a[1..], s);
      assert (a + "/" + s)[1..] == a[1..] + "/" + s;
      assert ([a[1..]] + Split(s))[1..] == Split(s);
      assert [a[0]] + a[1..] == a;
    }
  }

  predicate NoSlashes(segs: seq<string>) {
    forall i | 0 <= i < |segs| :: '/' !in segs[i]
  }

  lemma {:induction false} SplitJoin(segs: seq<string>)
    requires segs != [] && NoSlashes(segs)
    ensures Split(Join(segs)) == segs
  {
    if |segs| == 1 {
      SplitNoSlash(segs[0]);
    } else {
      SplitCons(segs[0], Join(segs[1..]));
      SplitJoin(segs[1..]);
    }
  }

  lemma {:induction false} JoinSplit(s: string)
    ensures Join(Split(s)) == s
  {
    if s != "" {
      JoinSplit(s[1..]);
      var rest := Split(s[1..]);
      if s[0] == '/' {
        assert ([""] + rest)[1..] == rest;
      } else if |rest| > 1 {
        assert ([[s[0]] + rest[0]] + rest[1..])[1..] == rest[1..];
      }
    }
  }

  lemma {:induction false} JoinConcat(a: seq<string>, b: seq<string>)
    requires a != [] && b != []
    ensures Join(a + b) == Join(a) + "/" + Join(b)
  {
    if |a| == 1 {
      assert (a + b)[1..] == b;
    } else {
      JoinConcat(a[1..], b);
      assert (a + b)[1..] == a[1..] + b;
      assert a[0] + "/" + (Join(a[1..]) + "/" + Join(b)) == (a[0] + "/" + Join(a[1..])) + "/" + Join(b);
    }
  }

  // ---- Clean ----

  lemma {:induction false} CleanRootedIsProper(segs: seq<string>, stack: seq<string>)
    requires NoSlashes(segs) && Proper(stack)
    ensures Proper(CleanSegments(true, segs, stack))
    decreases |segs|
  {
    if segs == [] {
    } else if segs[0] == "" || segs[0] == "." {
      CleanRootedIsProper(segs[1..], stack);
    } else if segs[0] == ".." {
      if stack != [] {
        CleanRootedIsProper(segs[1..], stack[..|stack| - 1]);
      } else {
        CleanRootedIsProper(segs[1..], stack);
      }
    } else {
      CleanRootedIsProper(segs[1..], stack + [segs[0]]);
    }
  }

  /**
   One more segment: "" and "." change nothing, ".." drops the component before it (or stays, in a
   relative path that has none, or is ignored at the root), anything else is added.
   */
  lemma {:induction false} CleanMore(rooted: bool, segs: seq<string>, c: string, stack: seq<string>)
    ensures var r := CleanSegments(rooted, segs, stack);
            CleanSegments(rooted, segs + [c], stack)
            == if c == "" || c == "." then r
               else if c != ".." then r + [c]
               else if r != [] && r[|r| - 1] != ".." then r[..|r| - 1]
               else if rooted then r
               else r + [".."]
    decreases |segs|
  {
    if segs == [] {
      assert segs + [c] == [c] && [c][1..] == [];
    } else {
      var rest := segs[1..];
      assert (segs + [c])[0] == segs[0] && (segs + [c])[1..] == rest + [c];
      var next := if segs[0] == "" || segs[0] == "." then stack
                  else if segs[0] != ".." then stack + [segs[0]]
                  else if stack != [] && stack[|stack| - 1] != ".." then stack[..|stack| - 1]
                  else if rooted then stack
                  else stack + [".."];
      CleanMore(rooted, rest, c, next);
    }
  }

  /** A path and one more element, read as rooted: ".." goes to the parent, and never above the root. */
  lemma ComponentsMore(p: string, c: string)
    requires '/' !in c
    ensures Components("") == []
    ensures Components(p + "/" + c)
         == if c == "" || c == "." then Components(p)
            else if c != ".." then Components(p) + [c]
            else if Components(p) == [] then []
            else Components(p)[..|Components(p)| - 1]
  {
    SplitNoSlash("");
    SplitNoSlash(c);
    SplitMore(p, c);
    CleanMore(true, Split(p), c, []);
    var cs := Components(p);
    assert cs != [] ==> IsComponent(cs[|cs| - 1]);
  }

  lemma {:induction false} SplitMore(p: string, c: string)
    requires '/' !in c
    ensures Split(p + "/" + c) == Split(p) + [c]
  {
    JoinSplit(p);
    JoinConcat(Split(p), [c]);
    SplitJoin(Split(p) + [c]);
  }

  /** Proper components pass through the scan unchanged, and a trailing "" is dropped. */
  lemma {:induction false} CleanProper(rooted: bool, cs: seq<string>, tail: seq<string>, stack: seq<string>)
    requires Proper(cs) && (tail == [] || tail == [""])
    ensures CleanSegments(rooted, cs + tail, stack) == stack + cs
    decreases |cs|
  {
    if cs == [] {
      assert cs + tail == tail;
    } else {
      assert (cs + tail)[0] == cs[0] && (cs + tail)[1..] == cs[1..] + tail;
      CleanProper(rooted, cs[1..], tail, stack + [cs[0]]);
      assert stack + [cs[0]] + cs[1..] == stack + cs;
    }
  }

  lemma SplitAbs(cs: seq<string>)
    requires Proper(cs)
    ensures Split(Abs(cs)) == if cs == [] then ["", ""] else [""] + cs
  {
    SplitCons("", Join(cs));
    assert "" + "/" + Join(cs) == Abs(cs);
    if cs == [] {
      assert Split("") == [""];
    } else {
      SplitJoin(cs);
    }
  }

  lemma ComponentsAbs(cs: seq<string>)
    requires Proper(cs)
    ensures Components(Abs(cs)) == cs
  {
    SplitAbs(cs);
    if cs != [] {
      assert ([""] + cs)[1..] == cs;
      assert cs + [] == cs;
      CleanProper(true, cs, [], []);
    } else {
      assert ["", ""][1..] == [""];
    }
  }

  lemma AbsInjective(a: seq<string>, b: seq<string>)
    requires Proper(a) && Proper(b) && Abs(a) == Abs(b)
    ensures a == b
  {
    ComponentsAbs(a);
    ComponentsAbs(b);
  }

  lemma CleanOfRooted(p: string)
    requires IsRooted(p)
    ensures Clean(p) == Abs(Components(p))
  {
  }

  /** canon computes the canonical string of the path's components, for every string. */
  lemma CanonIsAbs(p: string)
    ensures Canon(p) == Abs(Components(p))
  {
    if p == "" || p == "." {
      SplitNoSlash(".");
      assert Join([]) == "";
    } else if "/" <= p {
      CleanOfRooted(p);
    } else {
      var q := "/" + p;
      CleanOfRooted(q);
      SplitCons("", p);
      assert "" + "/" + p == q;
      assert ([""] + Split(p))[1..] == Split(p);
    }
  }

  /** canon is idempotent. */
  lemma CanonIdempotent(p: string)
    ensures Canon(Canon(p)) == Canon(p)
  {
    CanonIsAbs(p);
    CanonIsAbs(Canon(p));
    ComponentsAbs(Components(p));
  }

  lemma CanonOfAbs(cs: seq<string>)
    requires Proper(cs)
    ensures Canon(Abs(cs)) == Abs(cs)
  {
    CanonIsAbs(Abs(cs));
    ComponentsAbs(cs);
  }

  lemma AbsRoot(cs: seq<string>)
    requires Proper(cs)
    ensures Abs(cs) == "/" <==> cs == []
  {
    if Abs(cs) == "/" {
      AbsInjective(cs, []);
    }
  }

  predicate IsAncestor(q: seq<string>, p: seq<string>) {
    |q| < |p| && q <= p
  }

  lemma AncestorIsPrefix(q: seq<string>, p: seq<string>)
    requires q != [] && IsAncestor(q, p)
    ensures Abs(q) + "/" <= Abs(p)
  {
    var r := p[|q|..];
    assert p == q + r;
    JoinConcat(q, r);
    assert Abs(p) == Abs(q) + "/" + Join(r);
  }

  lemma PrefixIsAncestor(q: seq<string>, p: seq<string>, t: string)
    requires Proper(q) && Proper(p) && q != []
    requires Abs(p) == Abs(q) + "/" + t
    ensures IsAncestor(q, p)
  {
    var s := q + Split(t);
    JoinConcat(q, Split(t));
    JoinSplit(t);
    assert Join(p) == Abs(p)[1..];
    assert Join(q) + "/" + t == (Abs(q) + "/" + t)[1..];
    SplitJoin(s);
    if p == [] {
      SplitNoSlash("");
    } else {
      SplitJoin(p);
    }
    assert p == s;
  }

  /** The byte-prefix test of the delete loops is component-wise proper ancestry. */
  lemma PrefixIsAncestry(q: seq<string>, p: seq<string>)
    requires Proper(q) && Proper(p) && q != []
    ensures Abs(q) + "/" <= Abs(p) <==> IsAncestor(q, p)
  {
    if IsAncestor(q, p) {
      AncestorIsPrefix(q, p);
    }
    if Abs(q) + "/" <= Abs(p) {
      var n := |Abs(q) + "/"|;
      assert Abs(p) == Abs(p)[..n] + Abs(p)[n..];
      PrefixIsAncestor(q, p, Abs(p)[n..]);
    }
  }

  // ---- Dir, Base and Join on canonical paths ----

  lemma ParentOfAbs(cs: seq<string>)
    requires Proper(cs) && cs != []
    ensures Canon(Dir(Abs(cs))) == Abs(cs[..|cs| - 1])
  {
    SplitAbs(cs);
    var init := cs[..|cs| - 1];
    var segs := Split(Abs(cs));
    assert segs[..|segs| - 1] == [""] + init;
    var d := [""] + (init + [""]);
    assert segs[..|segs| - 1] + [""] == d;
    SplitJoin(d);
    assert d[1..] == init + [""];
    assert Join(d) == "" + "/" + Join(init + [""]);
    CleanProper(true, init, [""], []);
    assert [] + init == init;
    assert Components(Join(d)) == init;
    CleanOfRooted(Join(d));
    assert Dir(Abs(cs)) == Abs(init);
    CanonOfAbs(init);
  }

  lemma {:induction false} LastNonEmptyIsLast(segs: seq<string>)
    requires segs != [] && segs[|segs| - 1] != ""
    ensures LastNonEmpty(segs) == segs[|segs| - 1]
  {
  }

  lemma BaseOfAbs(cs: seq<string>)
    requires Proper(cs) && cs != []
    ensures Base(Abs(cs)) == cs[|cs| - 1]
  {
    SplitAbs(cs);
    assert ([""] + cs)[|cs|] == cs[|cs| - 1];
  }

  lemma JoinUnder(dir: seq<string>, c: string)
    requires Proper(dir) && IsComponent(c)
    ensures Canon(PathJoin([Abs(dir), c])) == Abs(dir + [c])
  {
    var es := [Abs(dir), c];
    assert es[1..] == [c] && [c][1..] == [];
    assert NonEmpty([c]) == [c];
    assert NonEmpty(es) == es;
    var s := Abs(dir) + "/" + c;
    assert Join(es) == s;
    CleanOfRooted(s);
    UnderComponents(dir, c);
    CanonOfAbs(dir + [c]);
  }

  lemma UnderComponents(dir: seq<string>, c: string)
    requires Proper(dir) && IsComponent(c)
    ensures Components(Abs(dir) + "/" + c) == dir + [c]
    ensures dir != [] ==> Abs(dir) + "/" + c == Abs(dir + [c])
  {
    var s := Abs(dir) + "/" + c;
    if dir == [] {
      assert s == "" + "/" + ("" + "/" + c);
      SplitCons("", "" + "/" + c);
      SplitCons("", c);
      SplitNoSlash(c);
      assert Split(s) == ["", "", c];
      assert ["", "", c][1..] == ["", c] && ["", c][1..] == [c];
      CleanProper(true, [c], [], []);
      assert [c] + [] == [c] && [] + [c] == [c];
      assert Components(s) == CleanSegments(true, ["", c], []) == CleanSegments(true, [c], []);
    } else {
      JoinConcat(dir, [c]);
      assert s == Abs(dir + [c]);
      ComponentsAbs(dir + [c]);
    }
  }

  // ---- normalised tar names: "." or a relative clean path ----

  /** The components of a normalised relative name. */
  function NameComponents(f: string): seq<string> {
    if f == "." then [] else Split(f)
  }

  /** A name path.Clean would leave alone, relative and inside the root. */
  predicate Normalised(f: string) {
    f == "." || Proper(Split(f))
  }

  lemma NormalisedCanon(f: string)
    requires Normalised(f)
    ensures Proper(NameComponents(f))
    ensures Canon("/" + f) == Abs(NameComponents(f))
  {
    if f == "." {
      CanonIsAbs("/.");
      assert "/" + f == "/.";
      SplitCons("", ".");
      SplitNoSlash(".");
      assert "" + "/" + "." == "/.";
      assert ["", "."][1..] == ["."];
      assert Components("/.") == [];
    } else {
      JoinSplit(f);
      CanonOfAbs(Split(f));
    }
  }

  lemma NormalisedInjective(f: string, g: string)
    requires Normalised(f) && Normalised(g) && NameComponents(f) == NameComponents(g)
    ensures f == g
  {
    JoinSplit(f);
    JoinSplit(g);
    SplitNoSlash(".");
  }

  lemma NormalisedBase(f: string)
    requires Normalised(f)
    ensures Base(f) == if f == "." then "." else NameComponents(f)[|NameComponents(f)| - 1]
  {
    if f == "." {
      SplitNoSlash(".");
    } else {
      assert Split("") == [""];
      LastNonEmptyIsLast(Split(f));
    }
  }

  lemma NormalisedDir(f: string)
    requires Normalised(f) && f != "."
    ensures Canon("/" + Dir(f)) == Abs(NameComponents(f)[..|NameComponents(f)| - 1])
  {
    var cs := Split(f);
    var init := cs[..|cs| - 1];
    var d := init + [""];
    SplitJoin(d);
    CleanProper(false, init, [""], []);
    if init == [] {
      assert d == [""];
      assert Join(d) == "";
      assert Dir(f) == ".";
      NormalisedCanon(".");
    } else {
      assert d[0] == init[0] && init[0][0] in init[0];
      assert Join(d) == init[0] + "/" + Join(d[1..]);
      assert !IsRooted(Join(d));
      assert [] + init == init;
      assert Dir(f) == Join(init);
      CanonOfAbs(init);
    }
  }

  /** TrimPrefix(Abs path, "/") recovers a normalised non-root name. */
  lemma NormalisedTrim(f: string)
    requires Normalised(f) && f != "."
    ensures Abs(NameComponents(f))[1..] == f
  {
    JoinSplit(f);
  }

  // ---- path.Base and path.Dir, element by element ----

  /** The last element, trailing slashes aside: "." for no path, "/" for slashes alone. */
  lemma BaseMore(p: string, c: string)
    requires '/' !in c
    ensures Base("") == "."
    ensures c != "" ==> Base(c) == c
    ensures Base(p + "/" + c) == if c != "" then c else if p == "" then "/" else Base(p)
  {
    SplitNoSlash(c);
    SplitMore(p, c);
    assert Split("") == [""] && [""][..0] == [] && LastNonEmpty([""]) == "/";
    assert p + "/" + c != "";
    assert (Split(p) + [c])[..|Split(p)|] == Split(p);
  }

  /** What precedes the last element, cleaned; "." if nothing does. */
  lemma DirMore(p: string, c: string)
    requires '/' !in c
    ensures Dir(c) == "."
    ensures Dir(p + "/" + c) == Clean(p + "/")
  {
    SplitNoSlash(c);
    SplitMore(p, c);
    SplitNoSlash("");
    JoinSplit(p);
    JoinConcat(Split(p), [""]);
    assert (Split(p) + [c])[..|Split(p)|] == Split(p);
    assert [c][..0] + [""] == [""] && Join([""]) == "";
    assert p + "/" + "" == p + "/";
  }

  // ---- path.Join ----

  lemma {:induction false} ScanSkipsEmpty(rooted: bool, elems: seq<string>, stack: seq<string>)
    ensures CleanSegments(rooted, NonEmpty(elems), stack) == CleanSegments(rooted, elems, stack)
    decreases |elems|
  {
    if elems != [] {
      var c, rest := elems[0], elems[1..];
      var es := NonEmpty(rest);
      if c != "" {
        assert NonEmpty(elems) == [c] + es && ([c] + es)[1..] == es;
      } else {
        assert [] + es == es;
      }
      var next := if c == "" || c == "." then stack
                  else if c != ".." then stack + [c]
                  else if stack != [] && stack[|stack| - 1] != ".." then stack[..|stack| - 1]
                  else if rooted then stack
                  else stack + [".."];
      ScanSkipsEmpty(rooted, rest, next);
    }
  }

  lemma {:induction false} NonEmptyNames(elems: seq<string>)
    requires NoSlashes(elems)
    ensures NoSlashes(NonEmpty(elems)) && (forall i | 0 <= i < |NonEmpty(elems)| :: NonEmpty(elems)[i] != "")
  {
    if elems != [] {
      NonEmptyNames(elems[1..]);
    }
  }

  lemma {:induction false} NonEmptyNone(elems: seq<string>)
    ensures NonEmpty(elems) == [] <==> forall i | 0 <= i < |elems| :: elems[i] == ""
  {
    if elems != [] {
      NonEmptyNone(elems[1..]);
      assert elems == [elems[0]] + elems[1..];
    }
  }

  /** path.Join of names: they are scanned as a relative path, and nothing at all gives "". */
  lemma PathJoinSpelled(elems: seq<string>)
    requires NoSlashes(elems)
    ensures var r := CleanSegments(false, elems, []);
            PathJoin(elems) == if forall i | 0 <= i < |elems| :: elems[i] == "" then ""
                               else if r == [] then "."
                               else Join(r)
  {
    var es := NonEmpty(elems);
    NonEmptyNames(elems);
    NonEmptyNone(elems);
    ScanSkipsEmpty(false, elems, []);
    if es != [] {
      SplitJoin(es);
      assert es[0][0] in es[0];
      assert Join(es)[0] == es[0][0];
    }
  }
}
