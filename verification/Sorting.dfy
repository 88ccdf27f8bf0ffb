/** Orders and stable sorting, as `sort.SliceStable` and Go's string comparison provide them. */
module Sorting {

  /** Go's `<` on strings: first difference decides, a proper prefix comes first. */
  predicate StrLess(a: string, b: string)
  {
    b != "" && (a == "" || a[0] < b[0] || (a[0] == b[0] && StrLess(a[1..], b[1..])))
  }

  /** `a` and `b` agree up to position `i`, and there `a` ends or holds the smaller character. */
  predicate DecidedAt(a: string, b: string, i: nat)
  {
    i <= |a| && i < |b| && a[..i] == b[..i] && (i == |a| || a[i] < b[i])
  }

  /** `StrLess` is the lexicographic order. */
  lemma {:induction false} StrLessIsLexicographic(a: string, b: string)
    ensures StrLess(a, b) <==> exists i :: DecidedAt(a, b, i)
  {
    if b == "" {
    } else if a == "" || a[0] != b[0] {
      assert DecidedAt(a, b, 0) <==> StrLess(a, b);
      forall i: nat | DecidedAt(a, b, i) ensures i == 0 { if i > 0 { SameStart(a, b, i); } }
    } else {
      StrLessIsLexicographic(a[1..], b[1..]);
      assert !DecidedAt(a, b, 0);
      forall i: nat ensures DecidedAt(a[1..], b[1..], i) <==> DecidedAt(a, b, i + 1) {
        DecidedFurther(a, b, i);
      }
      if i: nat :| DecidedAt(a, b, i) { assert DecidedAt(a[1..], b[1..], i - 1); }
    }
  }

  lemma SameStart(a: string, b: string, i: nat)
    requires 0 < i <= |a| && i <= |b| && a[..i] == b[..i]
    ensures a[0] == b[0]
  {
    assert a[..i][0] == a[0] && b[..i][0] == b[0];
  }

  lemma DecidedFurther(a: string, b: string, i: nat)
    requires a != "" && b != "" && a[0] == b[0]
    ensures DecidedAt(a[1..], b[1..], i) <==> DecidedAt(a, b, i + 1)
  {
    if i < |a| && i < |b| {
      assert a[..i + 1] == [a[0]] + a[1..][..i] && b[..i + 1] == [b[0]] + b[1..][..i];
      assert a[1..][..i] == a[..i + 1][1..] && b[1..][..i] == b[..i + 1][1..];
    }
  }

  lemma {:induction false} StrLessIrreflexive(a: string)
    ensures !StrLess(a, a)
  {
    if a != "" { StrLessIrreflexive(a[1..]); }
  }

  lemma {:induction false} StrLessTransitive(a: string, b: string, c: string)
    requires StrLess(a, b) && StrLess(b, c)
    ensures StrLess(a, c)
  {
    if a != "" && a[0] == b[0] && b[0] == c[0] { StrLessTransitive(a[1..], b[1..], c[1..]); }
  }

  lemma {:induction false} StrLessTotal(a: string, b: string)
    ensures a == b || StrLess(a, b) || StrLess(b, a)
  {
    if a != "" && b != "" && a[0] == b[0] {
      StrLessTotal(a[1..], b[1..]);
      assert a == [a[0]] + a[1..] && b == [b[0]] + b[1..];
    }
  }

  /** Equal-length heads decide before the tails do. */
  lemma {:induction false} StrLessConcat(a: string, b: string, c: string, d: string)
    requires |a| == |b|
    ensures StrLess(a + c, b + d) <==> StrLess(a, b) || (a == b && StrLess(c, d))
    ensures a + c == b + d <==> a == b && c == d
  {
    if a == "" {
      assert a + c == c && b + d == d;
    } else {
      StrLessConcat(a[1..], b[1..], c, d);
      assert (a + c)[1..] == a[1..] + c && (b + d)[1..] == b[1..] + d;
      assert a == [a[0]] + a[1..] && b == [b[0]] + b[1..];
      assert a + c == [a[0]] + (a[1..] + c) && b + d == [b[0]] + (b[1..] + d);
      StrLessIrreflexive(a);
    }
  }

  ghost predicate StrictOrder<T(!new)>(less: (T, T) -> bool)
  {
    && (forall x :: !less(x, x))
    && (forall x, y, z :: less(x, y) && less(y, z) ==> less(x, z))
  }

  lemma StrLessIsStrictOrder()
    ensures StrictOrder(StrLess)
  {
    forall x { StrLessIrreflexive(x); }
    forall x, y, z | StrLess(x, y) && StrLess(y, z) ensures StrLess(x, z) { StrLessTransitive(x, y, z); }
  }

  ghost predicate StrictlySorted<T>(less: (T, T) -> bool, s: seq<T>)
  {
    forall i, j :: 0 <= i < j < |s| ==> less(s[i], s[j])
  }

  ghost predicate SameElements<T>(a: seq<T>, b: seq<T>)
  {
    (forall x :: x in a ==> x in b) && (forall x :: x in b ==> x in a)
  }

  /** Stable insertion: `x` goes behind everything it is not less than. */
  function Insert<T>(less: (T, T) -> bool, s: seq<T>, x: T): seq<T>
  {
    if s == [] || !less(x, s[|s| - 1]) then s + [x]
    else Insert(less, s[..|s| - 1], x) + [s[|s| - 1]]
  }

  /** A stable sort. */
  function SortBy<T>(less: (T, T) -> bool, s: seq<T>): seq<T>
  {
    if s == [] then [] else Insert(less, SortBy(less, s[..|s| - 1]), s[|s| - 1])
  }

  lemma {:induction false} InsertElements<T>(less: (T, T) -> bool, s: seq<T>, x: T)
    ensures SameElements(Insert(less, s, x), s + [x])
    ensures |Insert(less, s, x)| == |s| + 1
  {
    if !(s == [] || !less(x, s[|s| - 1])) {
      InsertElements(less, s[..|s| - 1], x);
      assert s == s[..|s| - 1] + [s[|s| - 1]];
    }
  }

  lemma {:induction false} InsertSorts<T(!new)>(less: (T, T) -> bool, s: seq<T>, x: T)
    requires StrictOrder(less) && StrictlySorted(less, s)
    requires forall y :: y in s ==> less(x, y) || less(y, x)
    ensures StrictlySorted(less, Insert(less, s, x))
  {
    if s == [] {
    } else {
      var l := s[|s| - 1];
      if less(x, l) {
        InsertSorts(less, s[..|s| - 1], x);
        InsertElements(less, s[..|s| - 1], x);
        var r := Insert(less, s[..|s| - 1], x);
        forall i | 0 <= i < |r| ensures less(r[i], l) {
          assert r[i] in r;
        }
      } else {
        assert l in s;
      }
    }
  }

  ghost predicate Comparable<T>(less: (T, T) -> bool, s: seq<T>)
  {
    forall i, j :: 0 <= i < j < |s| ==> less(s[i], s[j]) || less(s[j], s[i])
  }

  /** Sorting keeps the elements, and orders them strictly whenever no two of them tie. */
  lemma {:induction false} SortBySorts<T(!new)>(less: (T, T) -> bool, s: seq<T>)
    requires StrictOrder(less)
    ensures SameElements(SortBy(less, s), s) && |SortBy(less, s)| == |s|
    ensures Comparable(less, s) ==> StrictlySorted(less, SortBy(less, s))
  {
    if s != [] {
      var init, x := s[..|s| - 1], s[|s| - 1];
      SortBySorts(less, init);
      InsertElements(less, SortBy(less, init), x);
      assert s == init + [x];
      if Comparable(less, s) {
        assert forall i, j :: 0 <= i < j < |init| ==> init[i] == s[i] && init[j] == s[j];
        forall y | y in SortBy(less, init) ensures less(x, y) || less(y, x) {
          assert y in init;
        }
        InsertSorts(less, SortBy(less, init), x);
      }
    }
  }

  lemma OneWay<T(!new)>(less: (T, T) -> bool, x: T, y: T)
    requires StrictOrder(less) && less(x, y)
    ensures !less(y, x)
  {
    assert less(y, x) ==> less(x, x);
  }

  /** A list that is already in order is left alone. */
  lemma {:induction false} SortByFixesSorted<T(!new)>(less: (T, T) -> bool, s: seq<T>)
    requires StrictOrder(less) && StrictlySorted(less, s)
    ensures SortBy(less, s) == s
  {
    if s != [] {
      var init, x := s[..|s| - 1], s[|s| - 1];
      SortByFixesSorted(less, init);
      assert s == init + [x];
      if init != [] { OneWay(less, init[|init| - 1], x); }
    }
  }

  /** Two relations that agree on (later, earlier) pairs sort a list the same way. */
  lemma {:induction false} SortByAgrees<T(!new)>(less1: (T, T) -> bool, less2: (T, T) -> bool, s: seq<T>)
    requires forall i, j :: 0 <= i < j < |s| ==> (less1(s[j], s[i]) <==> less2(s[j], s[i]))
    requires StrictOrder(less1)
    ensures SortBy(less1, s) == SortBy(less2, s)
  {
    if s != [] {
      var init, x := s[..|s| - 1], s[|s| - 1];
      SortByAgrees(less1, less2, init);
      SortBySorts(less1, init);
      forall y | y in SortBy(less1, init) ensures less1(x, y) <==> less2(x, y) { assert y in init; }
      InsertAgrees(less1, less2, SortBy(less1, init), x);
    }
  }

  lemma {:induction false} InsertAgrees<T(!new)>(less1: (T, T) -> bool, less2: (T, T) -> bool, s: seq<T>, x: T)
    requires forall y :: y in s ==> (less1(x, y) <==> less2(x, y))
    ensures Insert(less1, s, x) == Insert(less2, s, x)
  {
    if s != [] {
      assert s[|s| - 1] in s;
      InsertAgrees(less1, less2, s[..|s| - 1], x);
    }
  }

  /** There is one strictly sorted list of a given set of elements. */
  lemma {:induction false} StrictlySortedUnique<T(!new)>(less: (T, T) -> bool, a: seq<T>, b: seq<T>)
    requires StrictOrder(less) && StrictlySorted(less, a) && StrictlySorted(less, b)
    requires SameElements(a, b)
    ensures a == b
  {
    assert a == [] || a[0] in b;
    assert b == [] || b[0] in a;
    if a != [] {
      assert a[0] == b[0];
      forall x | x in a[1..] ensures x in b[1..] {
        assert x in b && less(a[0], x) && !less(x, x);
      }
      forall x | x in b[1..] ensures x in a[1..] {
        assert x in a && less(b[0], x) && !less(x, x);
      }
      StrictlySortedUnique(less, a[1..], b[1..]);
      assert a == [a[0]] + a[1..] && b == [b[0]] + b[1..];
    }
  }

  /** Ranging over a Go map or set visits its keys once each, in no particular order. */
  method Enumerate<T(==)>(s: set<T>) returns (r: seq<T>)
    ensures forall x :: x in r <==> x in s
    ensures forall i, j :: 0 <= i < j < |r| ==> r[i] != r[j]
  {
    r := [];
    var todo := s;
    while todo != {}
      invariant todo <= s
      invariant forall x :: x in r <==> x in s - todo
      invariant forall i, j :: 0 <= i < j < |r| ==> r[i] != r[j]
    {
      var x :| x in todo;
      assert x !in r;
      todo := todo - {x};
      r := r + [x];
    }
  }

  /** The distinct strings of a set, ascending: a directory listing, or `sort.Strings` on a set. */
  method SortedStrings(s: set<string>) returns (r: seq<string>)
    ensures StrictlySorted(StrLess, r)
    ensures forall x :: x in r <==> x in s
  {
    var e := Enumerate(s);
    StrLessIsStrictOrder();
    forall i, j | 0 <= i < j < |e| ensures StrLess(e[i], e[j]) || StrLess(e[j], e[i]) { StrLessTotal(e[i], e[j]); }
    SortBySorts(StrLess, e);
    r := SortBy(StrLess, e);
  }
}
