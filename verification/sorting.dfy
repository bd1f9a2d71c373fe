/** sort.Slice and sort.Strings: some permutation in non-descending order. */
module Sorting {
  import opened GoPath

  /** What sort.Slice asks of its less function. */
  ghost predicate StrictWeak<T(!new)>(less: (T, T) -> bool) {
    && (forall a, b :: less(a, b) ==> !less(b, a))
    && (forall a, b, c :: !less(b, a) && !less(c, b) ==> !less(c, a))
  }

  ghost predicate SortedBy<T(!new)>(less: (T, T) -> bool, s: seq<T>) {
    forall i, j | 0 <= i < j < |s| :: !less(s[j], s[i])
  }

  function Insert<T(!new)>(x: T, s: seq<T>, less: (T, T) -> bool): (r: seq<T>)
    ensures multiset(r) == multiset(s) + multiset{x}
  {
    if s == [] then [x]
    else
      assert s == [s[0]] + s[1..];
      if less(s[0], x) then [s[0]] + Insert(x, s[1..], less) else [x] + s
  }

  function Sort<T(!new)>(s: seq<T>, less: (T, T) -> bool): (r: seq<T>)
    ensures multiset(r) == multiset(s)
  {
    if s == [] then []
    else
      assert s == [s[0]] + s[1..];
      Insert(s[0], Sort(s[1..], less), less)
  }

  lemma {:induction false} InsertSorted<T(!new)>(x: T, s: seq<T>, less: (T, T) -> bool)
    requires StrictWeak(less) && SortedBy(less, s)
    ensures SortedBy(less, Insert(x, s, less))
  {
    if s != [] {
      if less(s[0], x) {
        InsertSorted(x, s[1..], less);
        var rest := Insert(x, s[1..], less);
        forall i | 0 <= i < |rest| ensures !less(rest[i], s[0]) {
          assert rest[i] in multiset(rest);
          if rest[i] != x {
            assert rest[i] in multiset(s[1..]);
            assert rest[i] in s[1..];
          }
        }
      } else {
        forall i | 0 <= i < |s| ensures !less(s[i], x) {
          assert !less(s[0], x);
        }
      }
    }
  }

  lemma {:induction false} SortSorted<T(!new)>(s: seq<T>, less: (T, T) -> bool)
    requires StrictWeak(less)
    ensures SortedBy(less, Sort(s, less))
  {
    if s != [] {
      SortSorted(s[1..], less);
      InsertSorted(s[0], Sort(s[1..], less), less);
    }
  }

  lemma SamePermMembers<T>(s: seq<T>, t: seq<T>)
    requires multiset(s) == multiset(t)
    ensures forall x :: x in s <==> x in t
  {
    forall x ensures x in s <==> x in t {
      assert x in s <==> x in multiset(s);
      assert x in t <==> x in multiset(t);
    }
  }

  lemma {:induction false} PairInPermutation<T>(s: seq<T>, x: T, y: T)
    requires multiset{x, y} <= multiset(s)
    ensures exists i, j :: 0 <= i < |s| && 0 <= j < |s| && i != j && s[i] == x && s[j] == y
  {
    var i, j := PairPositions(s, x, y);
  }

  lemma {:induction false} PairPositions<T>(s: seq<T>, x: T, y: T) returns (i: nat, j: nat)
    requires multiset{x, y} <= multiset(s)
    ensures i < |s| && j < |s| && i != j && s[i] == x && s[j] == y
  {
    assert x in multiset(s);
    if s != [] {
      var rest := s[1..];
      assert s == [s[0]] + rest;
      assert multiset(s) == multiset{s[0]} + multiset(rest);
      if s[0] == x {
        assert multiset{y} <= multiset(rest);
        assert y in multiset(rest);
        var k :| 0 <= k < |rest| && rest[k] == y;
        i, j := 0, k + 1;
      } else if s[0] == y {
        assert x in multiset(rest);
        var k :| 0 <= k < |rest| && rest[k] == x;
        i, j := k + 1, 0;
      } else {
        assert multiset{x, y} <= multiset(rest);
        i, j := PairPositions(rest, x, y);
        i, j := i + 1, j + 1;
      }
    }
  }

  lemma StringsStrictWeak()
    ensures StrictWeak(Less)
  {
    forall a, b | Less(a, b) ensures !Less(b, a) {
      LessTotal(a, b);
    }
    forall a, b, c | !Less(b, a) && !Less(c, b) ensures !Less(c, a) {
      LessTotal(a, b);
      LessTotal(b, c);
      LessTotal(a, c);
      if Less(c, a) {
        if a != b && b != c {
          LessTransitive(a, b, c);
        }
      }
    }
  }

  /** Strictly ascending: the shape of a sorted list without ties. */
  ghost predicate Ascending<T(!new)>(less: (T, T) -> bool, s: seq<T>) {
    forall i, j | 0 <= i < j < |s| :: less(s[i], s[j])
  }

  lemma EmptyTogether<T>(s: seq<T>, t: seq<T>)
    requires forall x :: x in s ==> x in t
    ensures t == [] ==> s == []
  {
    if s != [] {
      assert s[0] in t;
    }
  }

  /** A strictly ascending list is determined by its elements. */
  lemma {:induction false} AscendingUnique<T(!new)>(less: (T, T) -> bool, s: seq<T>, t: seq<T>)
    requires StrictWeak(less) && Ascending(less, s) && Ascending(less, t)
    requires forall x :: x in s <==> x in t
    ensures s == t
  {
    EmptyTogether(s, t);
    EmptyTogether(t, s);
    if s != [] {
      assert s[0] in t && t[0] in s;
      assert s[0] == t[0];
      TailMembers(less, s, t);
      TailMembers(less, t, s);
      AscendingUnique(less, s[1..], t[1..]);
      assert s == [s[0]] + s[1..] && t == [t[0]] + t[1..];
    }
  }

  lemma TailMembers<T(!new)>(less: (T, T) -> bool, s: seq<T>, t: seq<T>)
    requires StrictWeak(less) && Ascending(less, s) && s != [] && t != [] && s[0] == t[0]
    requires forall x :: x in s ==> x in t
    ensures forall x :: x in s[1..] ==> x in t[1..]
  {
    forall x | x in s[1..] ensures x in t[1..] {
      var i :| 1 <= i < |s| && s[i] == x;
      assert less(s[0], s[i]) && x in t;
    }
  }
}
