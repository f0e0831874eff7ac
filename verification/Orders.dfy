/** Arranging things by a strict order, and why the arrangement is unique. */
module Orders {

  /** What one triple must satisfy for `less` to be a strict order. */
  predicate OrderLaws<T>(less: (T, T) -> bool, a: T, b: T, c: T) {
    && !less(a, a)
    && (less(a, b) && less(b, c) ==> less(a, c))
  }

  ghost predicate StrictOrder<T(!new)>(less: (T, T) -> bool) { forall a, b, c :: OrderLaws(less, a, b, c) }

  /** Any two different elements are ordered. */
  ghost predicate Comparable<T(!new)>(s: seq<T>, less: (T, T) -> bool) {
    forall i, j :: 0 <= i < j < |s| ==> Apart(s[i], s[j], less)
  }

  predicate Apart<T>(a: T, b: T, less: (T, T) -> bool) { less(a, b) || less(b, a) }

  ghost predicate SortedBy<T(!new)>(s: seq<T>, less: (T, T) -> bool) {
    forall i, j :: 0 <= i < j < |s| ==> less(s[i], s[j])
  }

  ghost predicate SameMembers<T(!new)>(a: seq<T>, b: seq<T>) { forall x :: x in a <==> x in b }

  // ---------------------------------------------------------------- uniqueness

  lemma NotBothWays<T(!new)>(less: (T, T) -> bool, a: T, b: T)
    requires StrictOrder(less)
    ensures !(less(a, b) && less(b, a)) && !less(a, a)
  {
    assert OrderLaws(less, a, b, a);
  }

  lemma SameFirst<T(!new)>(a: seq<T>, b: seq<T>, less: (T, T) -> bool)
    requires StrictOrder(less) && SortedBy(a, less) && SortedBy(b, less) && SameMembers(a, b) && a != []
    ensures b != [] && a[0] == b[0]
  {
    assert a[0] in b;
    var i :| 0 <= i < |b| && b[i] == a[0];
    assert b[0] in a;
    var j :| 0 <= j < |a| && a[j] == b[0];
    NotBothWays(less, a[0], b[0]);
  }

  lemma BothEmpty<T(!new)>(a: seq<T>, b: seq<T>)
    requires SameMembers(a, b)
    ensures a == [] <==> b == []
  {
    assert a != [] ==> a[0] in a;
    assert b != [] ==> b[0] in b;
  }

  lemma RestIsSame<T(!new)>(a: seq<T>, b: seq<T>, less: (T, T) -> bool)
    requires StrictOrder(less) && SortedBy(a, less) && SortedBy(b, less) && SameMembers(a, b) && a != [] && b != []
        && a[0] == b[0]
    ensures SameMembers(a[1..], b[1..])
  {
    NotBothWays(less, a[0], a[0]);
    forall x ensures x in a[1..] <==> x in b[1..] {
      assert x in a <==> x == a[0] || x in a[1..];
      assert x in b <==> x == b[0] || x in b[1..];
      FirstNotLater(a, less);
      FirstNotLater(b, less);
    }
  }

  lemma FirstNotLater<T(!new)>(a: seq<T>, less: (T, T) -> bool)
    requires StrictOrder(less) && SortedBy(a, less) && a != []
    ensures a[0] !in a[1..]
  {
    NotBothWays(less, a[0], a[0]);
    forall k | 0 <= k < |a[1..]| ensures a[1..][k] != a[0] {
      assert a[1..][k] == a[k+1] && less(a[0], a[k+1]);
    }
  }

  /** Sorted lists of the same members are the same list. */
  lemma {:induction false} SortedIsUnique<T(!new)>(a: seq<T>, b: seq<T>, less: (T, T) -> bool)
    requires StrictOrder(less) && SortedBy(a, less) && SortedBy(b, less) && SameMembers(a, b)
    ensures a == b
  {
    if a != [] {
      SameFirst(a, b, less);
      RestIsSame(a, b, less);
      SortedIsUnique(a[1..], b[1..], less);
    } else {
      BothEmpty(a, b);
    }
  }

  // ---------------------------------------------------------------- sorting

  function Insert<T>(x: T, s: seq<T>, less: (T, T) -> bool): seq<T> {
    if s == [] then [x] else if less(s[0], x) then [s[0]] + Insert(x, s[1..], less) else [x] + s
  }

  /** A library sort: the arrangement of `s` by `less`. */
  function Sort<T>(s: seq<T>, less: (T, T) -> bool): seq<T> {
    if s == [] then [] else Insert(s[0], Sort(s[1..], less), less)
  }

  lemma {:induction false} InsertHolds<T>(x: T, s: seq<T>, less: (T, T) -> bool)
    ensures multiset(Insert(x, s, less)) == multiset{x} + multiset(s)
  {
    if s != [] && less(s[0], x) {
      InsertHolds(x, s[1..], less);
      assert s == [s[0]] + s[1..];
    }
  }

  lemma {:induction false} SortHolds<T>(s: seq<T>, less: (T, T) -> bool)
    ensures multiset(Sort(s, less)) == multiset(s)
  {
    if s != [] {
      SortHolds(s[1..], less);
      InsertHolds(s[0], Sort(s[1..], less), less);
      assert s == [s[0]] + s[1..];
    }
  }

  lemma MembersOfSort<T(!new)>(s: seq<T>, less: (T, T) -> bool)
    ensures SameMembers(Sort(s, less), s) && |Sort(s, less)| == |s|
  {
    SortHolds(s, less);
    assert |multiset(Sort(s, less))| == |Sort(s, less)| && |multiset(s)| == |s|;
    forall x ensures x in Sort(s, less) <==> x in s {
      assert x in Sort(s, less) <==> x in multiset(Sort(s, less));
    }
  }

  ghost predicate ApartFrom<T(!new)>(x: T, s: seq<T>, less: (T, T) -> bool) {
    forall i :: 0 <= i < |s| ==> Apart(x, s[i], less)
  }

  lemma MemberOfInsert<T(!new)>(x: T, s: seq<T>, less: (T, T) -> bool, y: T)
    ensures y in Insert(x, s, less) <==> y == x || y in s
  {
    InsertHolds(x, s, less);
    assert y in Insert(x, s, less) <==> y in multiset(Insert(x, s, less));
  }

  lemma {:induction false} InsertSorts<T(!new)>(x: T, s: seq<T>, less: (T, T) -> bool)
    requires StrictOrder(less) && SortedBy(s, less) && ApartFrom(x, s, less)
    ensures SortedBy(Insert(x, s, less), less)
  {
    if s != [] {
      assert Apart(x, s[0], less);
      if less(s[0], x) {
        forall i | 0 <= i < |s[1..]| ensures Apart(x, s[1..][i], less) { assert s[1..][i] == s[i+1]; }
        InsertSorts(x, s[1..], less);
        var rest := Insert(x, s[1..], less);
        forall k | 0 <= k < |rest| ensures less(s[0], rest[k]) {
          MemberOfInsert(x, s[1..], less, rest[k]);
          FirstIsLess(s, less, rest[k]);
        }
      } else {
        forall k | 0 <= k < |s| ensures less(x, s[k]) {
          assert OrderLaws(less, x, s[0], s[k]);
        }
      }
    }
  }

  lemma FirstIsLess<T(!new)>(s: seq<T>, less: (T, T) -> bool, y: T)
    requires s != [] && SortedBy(s, less)
    ensures y in s[1..] ==> less(s[0], y)
  {
    if y in s[1..] {
      var k :| 0 <= k < |s[1..]| && s[1..][k] == y;
      assert s[k+1] == y;
    }
  }

  /** Sorting mutually comparable elements arranges them. */
  lemma {:induction false} SortSorts<T(!new)>(s: seq<T>, less: (T, T) -> bool)
    requires StrictOrder(less) && Comparable(s, less)
    ensures SortedBy(Sort(s, less), less)
  {
    if s != [] {
      forall i, j | 0 <= i < j < |s[1..]| ensures Apart(s[1..][i], s[1..][j], less) {
        assert s[1..][i] == s[i+1] && s[1..][j] == s[j+1];
      }
      SortSorts(s[1..], less);
      var rest := Sort(s[1..], less);
      MembersOfSort(s[1..], less);
      forall i | 0 <= i < |rest| ensures Apart(s[0], rest[i], less) {
        assert rest[i] in s[1..];
        var k :| 0 <= k < |s[1..]| && s[1..][k] == rest[i];
        assert s[k+1] == rest[i] && Apart(s[0], s[k+1], less);
      }
      InsertSorts(s[0], rest, less);
    }
  }

  /** However the elements come, sorting gives one arrangement. */
  lemma SortIgnoresOrder<T(!new)>(a: seq<T>, b: seq<T>, less: (T, T) -> bool)
    requires StrictOrder(less) && Comparable(a, less) && Comparable(b, less) && SameMembers(a, b)
    ensures Sort(a, less) == Sort(b, less)
  {
    SortSorts(a, less);
    SortSorts(b, less);
    MembersOfSort(a, less);
    MembersOfSort(b, less);
    SortedIsUnique(Sort(a, less), Sort(b, less), less);
  }

  // ---------------------------------------------------------------- strings

  /** Lexicographic order. */
  predicate TextLess(a: string, b: string) {
    b != [] && (a == [] || a[0] < b[0] || (a[0] == b[0] && TextLess(a[1..], b[1..])))
  }

  lemma {:induction false} TextIsOrdered(a: string, b: string, c: string)
    ensures !TextLess(a, a)
    ensures TextLess(a, b) && TextLess(b, c) ==> TextLess(a, c)
    ensures a != b ==> TextLess(a, b) || TextLess(b, a)
  {
    if a != [] {
      TextIsOrdered(a[1..], if b == [] then b else b[1..], if c == [] then c else c[1..]);
      if b != [] && a[0] == b[0] { assert a == [a[0]] + a[1..] && b == [b[0]] + b[1..]; }
    }
  }

  /** Up to `k` the texts agree, and there the first ends or goes before. */
  predicate PartsAt(a: string, b: string, k: nat) {
    k < |b| && k <= |a| && a[..k] == b[..k] && (k == |a| || a[k] < b[k])
  }

  lemma PartsFurtherOn(a: string, b: string, k: nat)
    requires a != [] && b != [] && a[0] == b[0]
    ensures PartsAt(a[1..], b[1..], k) == PartsAt(a, b, k + 1)
  {
    if k + 1 <= |a| && k + 1 <= |b| {
      assert a[..k+1] == [a[0]] + a[1..][..k] && b[..k+1] == [b[0]] + b[1..][..k];
      assert a[1..][..k] == a[..k+1][1..] && b[1..][..k] == b[..k+1][1..];
    }
  }

  /** Texts go by their first difference; a text goes before what it begins. */
  lemma {:induction false} TextLessExactly(a: string, b: string)
    ensures TextLess(a, b) <==> exists k: nat :: PartsAt(a, b, k)
  {
    hide PartsAt;
    PartsAtOnce(a, b);
    if a == [] || b == [] || a[0] != b[0] {
      NotAtOnce(a, b);
    } else {
      TextLessExactly(a[1..], b[1..]);
      forall k: nat ensures PartsAt(a[1..], b[1..], k) == PartsAt(a, b, k + 1) { PartsFurtherOn(a, b, k); }
      NotAtOnce(a, b);
      if k: nat :| PartsAt(a, b, k) { assert PartsAt(a[1..], b[1..], k - 1); }
    }
  }

  lemma PartsAtOnce(a: string, b: string)
    ensures forall k: nat :: k > 0 && PartsAt(a, b, k) ==> a != [] && b != [] && a[0] == b[0]
  {
    forall k: nat | k > 0 && PartsAt(a, b, k) ensures a != [] && b != [] && a[0] == b[0] {
      assert a[..k][0] == a[0] && b[..k][0] == b[0];
    }
  }

  lemma NotAtOnce(a: string, b: string)
    ensures PartsAt(a, b, 0) <==> b != [] && (a == [] || a[0] < b[0])
  {}
}
