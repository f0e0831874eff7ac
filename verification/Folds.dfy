/** Combining the elements of a sequence with an operation whose grouping and
    order do not matter. */
module Folds {

  predicate Laws<A(==)>(op: (A, A) -> A, unit: A, x: A, y: A, z: A) {
    && op(op(x, y), z) == op(x, op(y, z))
    && op(x, y) == op(y, x)
    && op(unit, x) == x
  }

  ghost predicate CommutativeMonoid<A(!new)>(op: (A, A) -> A, unit: A) {
    forall x, y, z :: Laws(op, unit, x, y, z)
  }

  function Fold<A>(xs: seq<A>, op: (A, A) -> A, unit: A): A {
    if xs == [] then unit else op(xs[0], Fold(xs[1..], op, unit))
  }

  function Map<T, A>(xs: seq<T>, f: T -> A): (ys: seq<A>)
    ensures |ys| == |xs|
  {
    seq(|xs|, i requires 0 <= i < |xs| => f(xs[i]))
  }

  lemma FoldOne<A(!new)>(x: A, op: (A, A) -> A, unit: A)
    requires CommutativeMonoid(op, unit)
    ensures Fold([x], op, unit) == x
  {
    assert [x][1..] == [];
    assert Laws(op, unit, x, unit, unit);
  }

  lemma {:induction false} FoldConcat<A(!new)>(a: seq<A>, b: seq<A>, op: (A, A) -> A, unit: A)
    requires CommutativeMonoid(op, unit)
    ensures Fold(a + b, op, unit) == op(Fold(a, op, unit), Fold(b, op, unit))
  {
    if a == [] {
      assert a + b == b;
      assert Laws(op, unit, Fold(b, op, unit), unit, unit);
    } else {
      FoldConcat(a[1..], b, op, unit);
      assert (a + b)[1..] == a[1..] + b;
      assert Laws(op, unit, a[0], Fold(a[1..], op, unit), Fold(b, op, unit));
    }
  }

  lemma FoldAppend<A(!new)>(a: seq<A>, x: A, op: (A, A) -> A, unit: A)
    requires CommutativeMonoid(op, unit)
    ensures Fold(a + [x], op, unit) == op(Fold(a, op, unit), x)
  {
    FoldConcat(a, [x], op, unit);
    FoldOne(x, op, unit);
  }

  /** The first element of one arrangement, found in the other. */
  lemma FirstElsewhere<T>(a: seq<T>, b: seq<T>) returns (k: nat)
    requires multiset(a) == multiset(b) && a != []
    ensures k < |b| && b[k] == a[0]
    ensures multiset(a[1..]) == multiset(b[..k] + b[k+1..])
  {
    assert a[0] in multiset(b);
    k :| 0 <= k < |b| && b[k] == a[0];
    AroundOne([], a[0], a[1..]);
    AroundOne(b[..k], b[k], b[k+1..]);
    assert a == [] + [a[0]] + a[1..] && [] + a[1..] == a[1..];
    assert b == b[..k] + [b[k]] + b[k+1..];
    CancelOne(multiset(a[1..]), multiset(b[..k] + b[k+1..]), a[0]);
  }

  lemma AroundOne<T>(before: seq<T>, x: T, after: seq<T>)
    ensures multiset(before + [x] + after) == multiset{x} + multiset(before + after)
  {}

  lemma CancelOne<T>(a: multiset<T>, b: multiset<T>, x: T)
    requires multiset{x} + a == multiset{x} + b
    ensures a == b
  {
    assert a == (multiset{x} + a) - multiset{x};
    assert b == (multiset{x} + b) - multiset{x};
  }

  lemma SameSize<T>(a: seq<T>, b: seq<T>)
    requires multiset(a) == multiset(b)
    ensures |a| == |b|
  {
    assert |multiset(a)| == |a| && |multiset(b)| == |b|;
  }

  lemma MoveToFront<A(!new)>(before: seq<A>, x: A, after: seq<A>, op: (A, A) -> A, unit: A)
    requires CommutativeMonoid(op, unit)
    ensures Fold(before + [x] + after, op, unit) == op(x, Fold(before + after, op, unit))
  {
    var f, g := Fold(before, op, unit), Fold(after, op, unit);
    FoldConcat(before + [x], after, op, unit);
    FoldAppend(before, x, op, unit);
    FoldConcat(before, after, op, unit);
    assert Laws(op, unit, f, x, g) && Laws(op, unit, x, f, g);
  }

  /** A fold does not depend on the order of its elements. */
  lemma {:induction false} FoldPermutation<A(!new)>(a: seq<A>, b: seq<A>, op: (A, A) -> A, unit: A)
    requires CommutativeMonoid(op, unit) && multiset(a) == multiset(b)
    ensures Fold(a, op, unit) == Fold(b, op, unit)
  {
    SameSize(a, b);
    if a != [] {
      var k := FirstElsewhere(a, b);
      FoldPermutation(a[1..], b[..k] + b[k+1..], op, unit);
      MoveToFront(b[..k], b[k], b[k+1..], op, unit);
      assert b == b[..k] + [b[k]] + b[k+1..];
    }
  }

  lemma {:induction false} MapPermutation<T, A>(a: seq<T>, b: seq<T>, f: T -> A)
    requires multiset(a) == multiset(b)
    ensures multiset(Map(a, f)) == multiset(Map(b, f))
  {
    hide Map;
    SameSize(a, b);
    if a != [] {
      var k := FirstElsewhere(a, b);
      MapPermutation(a[1..], b[..k] + b[k+1..], f);
      InsertMapped(b[..k], b[k], b[k+1..], f);
      InsertMapped([], a[0], a[1..], f);
      assert b == b[..k] + [b[k]] + b[k+1..] && a == [] + [a[0]] + a[1..] && [] + a[1..] == a[1..];
    }
  }

  lemma InsertMapped<T, A>(before: seq<T>, x: T, after: seq<T>, f: T -> A)
    ensures multiset(Map(before + [x] + after, f)) == multiset{f(x)} + multiset(Map(before + after, f))
  {
    assert Map(before + [x] + after, f) == Map(before, f) + [f(x)] + Map(after, f);
    assert Map(before + after, f) == Map(before, f) + Map(after, f);
  }

  /** Folding pairwise combinations is combining the folds. */
  lemma {:induction false} FoldPointwise<A(!new)>(xs: seq<A>, ys: seq<A>, both: seq<A>, op: (A, A) -> A, unit: A)
    requires CommutativeMonoid(op, unit) && |xs| == |ys| == |both|
    requires forall i :: 0 <= i < |both| ==> both[i] == op(xs[i], ys[i])
    ensures Fold(both, op, unit) == op(Fold(xs, op, unit), Fold(ys, op, unit))
  {
    if both == [] {
      assert Laws(op, unit, unit, unit, unit);
    } else {
      FoldPointwise(xs[1..], ys[1..], both[1..], op, unit);
      Interchange(xs[0], ys[0], Fold(xs[1..], op, unit), Fold(ys[1..], op, unit), op, unit);
    }
  }

  lemma Interchange<A(!new)>(a: A, b: A, c: A, d: A, op: (A, A) -> A, unit: A)
    requires CommutativeMonoid(op, unit)
    ensures op(op(a, b), op(c, d)) == op(op(a, c), op(b, d))
  {
    assert Laws(op, unit, a, b, op(c, d)) && Laws(op, unit, b, c, d) && Laws(op, unit, c, b, d);
    assert Laws(op, unit, a, c, op(b, d));
  }

  lemma {:induction false} FoldOfUnits<A(!new)>(xs: seq<A>, op: (A, A) -> A, unit: A)
    requires CommutativeMonoid(op, unit) && forall i :: 0 <= i < |xs| ==> xs[i] == unit
    ensures Fold(xs, op, unit) == unit
  {
    if xs != [] {
      FoldOfUnits(xs[1..], op, unit);
      assert Laws(op, unit, unit, unit, unit);
    }
  }

  /** The contribution of an element to the group with key `k`. */
  function Part<T, K(==), A>(x: T, key: T -> K, f: T -> A, unit: A, k: K): A { if key(x) == k then f(x) else unit }

  /** The fold over the elements whose key is `k`. */
  function GroupFold<T, K(==), A>(xs: seq<T>, key: T -> K, f: T -> A, op: (A, A) -> A, unit: A, k: K): A {
    Fold(Map(xs, (x: T) => Part(x, key, f, unit, k)), op, unit)
  }

  /** The fold over the elements whose key is among `keys`. */
  function KeyedFold<T, K(==), A>(xs: seq<T>, key: T -> K, f: T -> A, op: (A, A) -> A, unit: A, keys: seq<K>): A {
    Fold(Map(xs, (x: T) => if key(x) in keys then f(x) else unit), op, unit)
  }

  function GroupFolds<T, K(==), A>(xs: seq<T>, key: T -> K, f: T -> A, op: (A, A) -> A, unit: A,
                                   keys: seq<K>): (r: seq<A>)
    ensures |r| == |keys|
  {
    seq(|keys|, i requires 0 <= i < |keys| => GroupFold(xs, key, f, op, unit, keys[i]))
  }

  ghost predicate NoRepeats<K(!new)>(keys: seq<K>) { forall i, j :: 0 <= i < j < |keys| ==> keys[i] != keys[j] }

  /** Folding group by group is folding everything the groups hold. */
  lemma {:induction false} FoldByGroups<T, K(!new), A(!new)>(xs: seq<T>, key: T -> K, f: T -> A, op: (A, A) -> A,
                                                             unit: A, keys: seq<K>)
    requires CommutativeMonoid(op, unit) && NoRepeats(keys)
    ensures Fold(GroupFolds(xs, key, f, op, unit, keys), op, unit) == KeyedFold(xs, key, f, op, unit, keys)
    decreases keys
  {
    if keys == [] {
      FoldOfUnits(Map(xs, (x: T) => if key(x) in keys then f(x) else unit), op, unit);
    } else {
      var k, rest := keys[0], keys[1..];
      FoldByGroups(xs, key, f, op, unit, rest);
      assert GroupFolds(xs, key, f, op, unit, keys)[1..] == GroupFolds(xs, key, f, op, unit, rest);
      OneGroupMore(xs, key, f, op, unit, k, rest, keys);
    }
  }

  lemma OneGroupMore<T, K(!new), A(!new)>(xs: seq<T>, key: T -> K, f: T -> A, op: (A, A) -> A, unit: A, k: K,
                                          rest: seq<K>, keys: seq<K>)
    requires CommutativeMonoid(op, unit) && keys == [k] + rest && k !in rest
    ensures KeyedFold(xs, key, f, op, unit, keys)
        == op(GroupFold(xs, key, f, op, unit, k), KeyedFold(xs, key, f, op, unit, rest))
  {
    var mine, others := Map(xs, (x: T) => Part(x, key, f, unit, k)),
        Map(xs, (x: T) => if key(x) in rest then f(x) else unit);
    var both := Map(xs, (x: T) => if key(x) in keys then f(x) else unit);
    forall i | 0 <= i < |xs| ensures both[i] == op(mine[i], others[i]) {
      var x := xs[i];
      assert key(x) in keys <==> key(x) == k || key(x) in rest;
      assert Laws(op, unit, f(x), unit, unit) && Laws(op, unit, unit, unit, unit);
    }
    FoldPointwise(mine, others, both, op, unit);
  }

  /** The elements whose key is `k`, in order. */
  function Only<T, K(==)>(xs: seq<T>, key: T -> K, k: K): seq<T> {
    if xs == [] then [] else (if key(xs[0]) == k then [xs[0]] else []) + Only(xs[1..], key, k)
  }

  lemma {:induction false} OnlyAppend<T, K>(xs: seq<T>, x: T, key: T -> K, k: K)
    ensures Only(xs + [x], key, k) == Only(xs, key, k) + (if key(x) == k then [x] else [])
  {
    if xs == [] {
      assert [x][1..] == [];
    } else {
      OnlyAppend(xs[1..], x, key, k);
      assert (xs + [x])[1..] == xs[1..] + [x];
    }
  }

  lemma GroupFoldStep<T, K, A(!new)>(xs: seq<T>, key: T -> K, f: T -> A, op: (A, A) -> A, unit: A, k: K)
    requires xs != []
    ensures GroupFold(xs, key, f, op, unit, k)
        == op(Part(xs[0], key, f, unit, k), GroupFold(xs[1..], key, f, op, unit, k))
  {
    assert Map(xs, (x: T) => Part(x, key, f, unit, k))[1..] == Map(xs[1..], (x: T) => Part(x, key, f, unit, k));
  }

  lemma FoldMapStep<T, A(!new)>(x: T, xs: seq<T>, f: T -> A, op: (A, A) -> A, unit: A)
    ensures Fold(Map([x] + xs, f), op, unit) == op(f(x), Fold(Map(xs, f), op, unit))
  {
    assert Map([x] + xs, f)[1..] == Map(xs, f);
  }

  /** Folding one group's elements is its part of the whole fold. */
  lemma {:induction false} FoldOfOnly<T, K, A(!new)>(xs: seq<T>, key: T -> K, f: T -> A, op: (A, A) -> A, unit: A, k: K)
    requires CommutativeMonoid(op, unit)
    ensures Fold(Map(Only(xs, key, k), f), op, unit) == GroupFold(xs, key, f, op, unit, k)
  {
    if xs != [] {
      var rest := xs[1..];
      FoldOfOnly(rest, key, f, op, unit, k);
      GroupFoldStep(xs, key, f, op, unit, k);
      if key(xs[0]) == k {
        FoldMapStep(xs[0], Only(rest, key, k), f, op, unit);
      } else {
        assert Only(xs, key, k) == Only(rest, key, k);
        assert Laws(op, unit, GroupFold(rest, key, f, op, unit, k), unit, unit);
      }
    }
  }

  /** A group's part does not depend on the order of the elements. */
  lemma GroupFoldPermutation<T, K, A(!new)>(a: seq<T>, b: seq<T>, key: T -> K, f: T -> A, op: (A, A) -> A, unit: A,
                                            k: K)
    requires CommutativeMonoid(op, unit) && multiset(a) == multiset(b)
    ensures GroupFold(a, key, f, op, unit, k) == GroupFold(b, key, f, op, unit, k)
  {
    var part := (x: T) => Part(x, key, f, unit, k);
    MapPermutation(a, b, part);
    FoldPermutation(Map(a, part), Map(b, part), op, unit);
  }

  /** When the groups hold everything, folding group by group folds everything. */
  lemma FoldByAllGroups<T, K(!new), A(!new)>(xs: seq<T>, key: T -> K, f: T -> A, op: (A, A) -> A, unit: A, keys: seq<K>)
    requires CommutativeMonoid(op, unit) && NoRepeats(keys) && forall i :: 0 <= i < |xs| ==> key(xs[i]) in keys
    ensures Fold(GroupFolds(xs, key, f, op, unit, keys), op, unit) == Fold(Map(xs, f), op, unit)
  {
    FoldByGroups(xs, key, f, op, unit, keys);
    assert Map(xs, (x: T) => if key(x) in keys then f(x) else unit) == Map(xs, f);
  }

  lemma GroupFoldAppend<T, K, A(!new)>(xs: seq<T>, x: T, key: T -> K, f: T -> A, op: (A, A) -> A, unit: A, k: K)
    requires CommutativeMonoid(op, unit)
    ensures GroupFold(xs + [x], key, f, op, unit, k)
         == if key(x) == k then op(GroupFold(xs, key, f, op, unit, k), f(x)) else GroupFold(xs, key, f, op, unit, k)
  {
    var part := (x: T) => Part(x, key, f, unit, k);
    assert Map(xs + [x], part) == Map(xs, part) + [part(x)];
    FoldAppend(Map(xs, part), part(x), op, unit);
    assert Laws(op, unit, Fold(Map(xs, part), op, unit), unit, unit);
  }

  lemma FoldMapAppend<T, A(!new)>(xs: seq<T>, x: T, f: T -> A, op: (A, A) -> A, unit: A)
    requires CommutativeMonoid(op, unit)
    ensures Fold(Map(xs + [x], f), op, unit) == op(Fold(Map(xs, f), op, unit), f(x))
  {
    assert Map(xs + [x], f) == Map(xs, f) + [f(x)];
    FoldAppend(Map(xs, f), f(x), op, unit);
  }

  lemma SameParts<T, A(!new)>(xs: seq<T>, f: T -> A, g: T -> A, op: (A, A) -> A, unit: A)
    requires forall i :: 0 <= i < |xs| ==> f(xs[i]) == g(xs[i])
    ensures Fold(Map(xs, f), op, unit) == Fold(Map(xs, g), op, unit)
  {
    assert Map(xs, f) == Map(xs, g);
  }

  /** The part of an element in a group of groups. */
  function Inner<T, K, S(==), A>(x: T, key: T -> K, group: K -> S, f: T -> A, unit: A, s: S): A {
    if group(key(x)) == s then f(x) else unit
  }

  lemma InnerGroup<T, K(!new), S, A(!new)>(xs: seq<T>, key: T -> K, group: K -> S, f: T -> A, op: (A, A) -> A, unit: A,
                                           s: S, k: K,
                                           inner: T -> A)
    requires CommutativeMonoid(op, unit) && forall i ::
        0 <= i < |xs| ==> inner(xs[i]) == Inner(xs[i], key, group, f, unit, s)
    ensures GroupFold(xs, key, inner, op, unit, k) == if group(k) == s then GroupFold(xs, key, f, op, unit, k) else unit
  {
    if group(k) == s {
      SameParts(xs, (x: T) => Part(x, key, inner, unit, k), (x: T) => Part(x, key, f, unit, k), op, unit);
    } else {
      FoldOfUnits(Map(xs, (x: T) => Part(x, key, inner, unit, k)), op, unit);
    }
  }

  /** Folding elements into groups and some groups into one is folding the elements
      of those groups. */
  lemma GroupsOfGroups<T, K(!new), S, A(!new)>(xs: seq<T>, keys: seq<K>, key: T -> K, group: K -> S, joint: T -> S,
                                               f: T -> A, g: K -> A,
                                               op: (A, A) -> A, unit: A, s: S)
    requires CommutativeMonoid(op, unit) && NoRepeats(keys) && forall i :: 0 <= i < |xs| ==> key(xs[i]) in keys
    requires forall i :: 0 <= i < |xs| ==> joint(xs[i]) == group(key(xs[i]))
    requires forall i :: 0 <= i < |keys| ==> g(keys[i]) == GroupFold(xs, key, f, op, unit, keys[i])
    ensures GroupFold(keys, group, g, op, unit, s) == GroupFold(xs, joint, f, op, unit, s)
  {
    var inner := (x: T) => Inner(x, key, group, f, unit, s);
    forall i | 0 <= i < |keys|
      ensures Part(keys[i], group, g, unit, s) == GroupFold(xs, key, inner, op, unit, keys[i])
    {
      InnerGroup(xs, key, group, f, op, unit, s, keys[i], inner);
    }
    assert Map(keys, (k: K) => Part(k, group, g, unit, s)) == GroupFolds(xs, key, inner, op, unit, keys);
    FoldByAllGroups(xs, key, inner, op, unit, keys);
    SameParts(xs, inner, (x: T) => Part(x, joint, f, unit, s), op, unit);
  }

  /** A running value that started at `start` and has taken in `xs`. */
  ghost predicate Running<T, A>(start: A, xs: seq<T>, f: T -> A, op: (A, A) -> A, unit: A, now: A) {
    now == op(start, Fold(Map(xs, f), op, unit))
  }

  lemma RunningGrows<T, A(!new)>(start: A, xs: seq<T>, x: T, f: T -> A, op: (A, A) -> A, unit: A, now: A)
    requires CommutativeMonoid(op, unit) && Running(start, xs, f, op, unit, now)
    ensures Running(start, xs + [x], f, op, unit, op(now, f(x)))
  {
    FoldMapAppend(xs, x, f, op, unit);
    assert Laws(op, unit, start, Fold(Map(xs, f), op, unit), f(x));
  }

  lemma RunningStarts<T, A(!new)>(start: A, f: T -> A, op: (A, A) -> A, unit: A)
    requires CommutativeMonoid(op, unit)
    ensures Running(start, [], f, op, unit, start)
  {
    assert Laws(op, unit, start, unit, unit);
  }

  /** A list of exactly the members of a set, each once. */
  ghost predicate Lists<K(!new)>(keys: seq<K>, all: set<K>) { NoRepeats(keys) && forall k :: k in keys <==> k in all }

  lemma {:induction false} CountInList<K(!new)>(keys: seq<K>, k: K)
    requires NoRepeats(keys)
    ensures multiset(keys)[k] == if k in keys then 1 else 0
  {
    if keys != [] {
      assert keys == [keys[0]] + keys[1..];
      CountInList(keys[1..], k);
      assert forall i :: 1 <= i < |keys| ==> keys[0] != keys[i];
    }
  }

  /** An arrangement of a list without repeats has none. */
  lemma NoRepeatsElsewhere<K(!new)>(a: seq<K>, b: seq<K>)
    requires multiset(a) == multiset(b) && NoRepeats(a)
    ensures NoRepeats(b)
  {
    forall i, j | 0 <= i < j < |b| ensures b[i] != b[j] {
      CountInList(a, b[i]);
      if b[i] == b[j] { TwoPlaces(b, i, j); }
    }
  }

  lemma TwoPlaces<K>(b: seq<K>, i: nat, j: nat)
    requires i < j < |b| && b[i] == b[j]
    ensures multiset(b)[b[i]] >= 2
  {
    assert b == b[..i] + [b[i]] + b[i+1..j] + [b[j]] + b[j+1..];
  }

  /** Two lists of one set are arrangements of each other. */
  lemma ListingsArePermutations<K(!new)>(a: seq<K>, b: seq<K>, all: set<K>)
    requires Lists(a, all) && Lists(b, all)
    ensures multiset(a) == multiset(b)
  {
    forall k ensures multiset(a)[k] == multiset(b)[k] {
      CountInList(a, k);
      CountInList(b, k);
    }
  }

  /** Every finite set has a list. */
  lemma SomeListing<K(!new)>(all: set<K>) returns (keys: seq<K>)
    ensures Lists(keys, all)
    decreases |all|
  {
    if all == {} {
      keys := [];
    } else {
      assert (forall k :: k !in all) ==> all == {};
      var k :| k in all;
      var rest := SomeListing(all - {k});
      keys := rest + [k];
    }
  }

  /** Lists a set in whatever order it yields its members. */
  method Listing<K(!new, ==)>(all: set<K>) returns (keys: seq<K>)
    ensures Lists(keys, all)
  {
    keys := [];
    var left := all;
    while left != {}
      invariant left <= all && NoRepeats(keys) && forall k :: k in keys <==> k in all && k !in left
      decreases |left|
    {
      assert (forall k :: k !in left) ==> left == {};
      var k :| k in left;
      keys := keys + [k];
      left := left - {k};
    }
  }

  lemma SameGroupParts<T, K, A(!new)>(xs: seq<T>, key: T -> K, f: T -> A, g: T -> A, op: (A, A) -> A, unit: A, k: K)
    requires forall i :: 0 <= i < |xs| ==> f(xs[i]) == g(xs[i])
    ensures GroupFold(xs, key, f, op, unit, k) == GroupFold(xs, key, g, op, unit, k)
  {
    SameParts(xs, (x: T) => Part(x, key, f, unit, k), (x: T) => Part(x, key, g, unit, k), op, unit);
  }

  /** Values that are the groups' folds fold to the whole, when the groups hold
      everything. */
  lemma GroupsAreWhole<T, K(!new), A(!new)>(xs: seq<T>, keys: seq<K>, key: T -> K, f: T -> A, g: K -> A,
                                            op: (A, A) -> A, unit: A)
    requires CommutativeMonoid(op, unit) && NoRepeats(keys) && forall i :: 0 <= i < |xs| ==> key(xs[i]) in keys
    requires forall i :: 0 <= i < |keys| ==> g(keys[i]) == GroupFold(xs, key, f, op, unit, keys[i])
    ensures Fold(Map(keys, g), op, unit) == Fold(Map(xs, f), op, unit)
  {
    FoldByAllGroups(xs, key, f, op, unit, keys);
    assert Map(keys, g) == GroupFolds(xs, key, f, op, unit, keys);
  }

  /** Values that are the groups' folds fold to what those groups hold. */
  lemma GroupsAreTheirElements<T, K(!new), A(!new)>(xs: seq<T>, keys: seq<K>, key: T -> K, f: T -> A, g: K -> A,
                                                    held: T -> A,
                                                    op: (A, A) -> A, unit: A)
    requires CommutativeMonoid(op, unit) && NoRepeats(keys)
    requires forall i :: 0 <= i < |keys| ==> g(keys[i]) == GroupFold(xs, key, f, op, unit, keys[i])
    requires forall i :: 0 <= i < |xs| ==> held(xs[i]) == if key(xs[i]) in keys then f(xs[i]) else unit
    ensures Fold(Map(keys, g), op, unit) == Fold(Map(xs, held), op, unit)
  {
    FoldByGroups(xs, key, f, op, unit, keys);
    assert Map(keys, g) == GroupFolds(xs, key, f, op, unit, keys);
    SameParts(xs, held, (x: T) => if key(x) in keys then f(x) else unit, op, unit);
  }

  lemma PartsAreGroup<T, K, A(!new)>(xs: seq<T>, key: T -> K, f: T -> A, part: T -> A, op: (A, A) -> A, unit: A, k: K)
    requires forall i :: 0 <= i < |xs| ==> part(xs[i]) == Part(xs[i], key, f, unit, k)
    ensures Fold(Map(xs, part), op, unit) == GroupFold(xs, key, f, op, unit, k)
  {
    SameParts(xs, part, (x: T) => Part(x, key, f, unit, k), op, unit);
  }

  lemma FoldMapPermutation<T, A(!new)>(a: seq<T>, b: seq<T>, f: T -> A, op: (A, A) -> A, unit: A)
    requires CommutativeMonoid(op, unit) && multiset(a) == multiset(b)
    ensures Fold(Map(a, f), op, unit) == Fold(Map(b, f), op, unit)
  {
    MapPermutation(a, b, f);
    FoldPermutation(Map(a, f), Map(b, f), op, unit);
  }

  lemma SameMultisetSameMembers<T(!new)>(a: seq<T>, b: seq<T>)
    requires multiset(a) == multiset(b)
    ensures forall x :: x in a <==> x in b
  {
    forall x ensures x in a <==> x in b {
      assert x in a <==> x in multiset(a);
      assert x in b <==> x in multiset(b);
    }
  }

  /** What every element turns into, one after another. */
  function Flat<T, A>(xs: seq<T>, f: T -> seq<A>): seq<A> { if xs == [] then [] else f(xs[0]) + Flat(xs[1..], f) }

  lemma Associate<A>(a: seq<A>, b: seq<A>, c: seq<A>)
    ensures a + (b + c) == (a + b) + c
  {}

  lemma {:induction false} FlatConcat<T, A>(a: seq<T>, b: seq<T>, f: T -> seq<A>)
    ensures Flat(a + b, f) == Flat(a, f) + Flat(b, f)
  {
    if a == [] {
      assert a + b == b;
    } else {
      FlatConcat(a[1..], b, f);
      assert (a + b)[0] == a[0] && (a + b)[1..] == a[1..] + b;
      Associate(f(a[0]), Flat(a[1..], f), Flat(b, f));
    }
  }

  lemma FlatAppend<T, A>(xs: seq<T>, x: T, f: T -> seq<A>)
    ensures Flat(xs + [x], f) == Flat(xs, f) + f(x)
  {
    FlatConcat(xs, [x], f);
    assert [x][1..] == [] && f(x) + [] == f(x);
  }

  lemma FlatAround<T, A>(before: seq<T>, x: T, after: seq<T>, f: T -> seq<A>)
    ensures multiset(Flat(before + [x] + after, f)) == multiset(f(x)) + multiset(Flat(before + after, f))
  {
    FlatConcat(before + [x], after, f);
    FlatAppend(before, x, f);
    FlatConcat(before, after, f);
  }

  lemma {:induction false} FlatPermutation<T, A>(a: seq<T>, b: seq<T>, f: T -> seq<A>)
    requires multiset(a) == multiset(b)
    ensures multiset(Flat(a, f)) == multiset(Flat(b, f))
  {
    hide Flat;
    SameSize(a, b);
    if a != [] {
      var k := FirstElsewhere(a, b);
      FlatPermutation(a[1..], b[..k] + b[k+1..], f);
      FlatAround(b[..k], b[k], b[k+1..], f);
      FlatAround([], a[0], a[1..], f);
      assert b == b[..k] + [b[k]] + b[k+1..] && a == [] + [a[0]] + a[1..] && [] + a[1..] == a[1..];
    }
  }
}
