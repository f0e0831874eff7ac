/** Paging backwards through a newest-first list with an exclusive cursor.

    The list is asked for one element more than a page carries; the extra one
    proves that older elements exist and is never served. */
module CursorPages {
  import opened Wrappers

  /** A served page, oldest first. `nextBefore` is the key a client sends back to
      continue, absent on the last page. */
  datatype Page<T> = Page(items: seq<T>, hasMore: bool, nextBefore: Option<int>)

  ghost predicate NewestFirst<T>(list: seq<T>, key: T -> int) {
    forall i, j :: 0 <= i < j < |list| ==> key(list[i]) > key(list[j])
  }

  predicate BeforeCursor(k: int, before: Option<int>) { before.None? || k < before.value }

  /** The elements strictly before the cursor. */
  function Older<T>(list: seq<T>, key: T -> int, before: Option<int>): seq<T> {
    if list == [] then []
    else (if BeforeCursor(key(list[0]), before) then [list[0]] else []) + Older(list[1..], key, before)
  }

  function Reversed<T>(s: seq<T>): (r: seq<T>)
    ensures |r| == |s|
  {
    if s == [] then [] else Reversed(s[1..]) + [s[0]]
  }

  lemma {:induction false} ReversedAt<T>(s: seq<T>, i: nat)
    requires i < |s|
    ensures Reversed(s)[i] == s[|s| - 1 - i]
  {
    if i < |s| - 1 { ReversedAt(s[1..], i); }
  }

  function Take<T>(s: seq<T>, n: nat): seq<T> { if n <= |s| then s[..n] else s }

  /** The page a newest-first answer is served as. */
  function PageOf<T>(answer: seq<T>, key: T -> int, limit: nat): Page<T> {
    var items := Take(answer, limit);
    Page(Reversed(items), |answer| > limit,
         if |answer| > limit && items != [] then Some(key(items[|items|-1])) else None)
  }

  /** One element beyond the page is enough to serve it. */
  lemma OneExtraIsEnough<T>(list: seq<T>, key: T -> int, limit: nat)
    ensures PageOf(Take(list, limit + 1), key, limit) == PageOf(list, key, limit)
  {
    if limit + 1 <= |list| { assert list[..limit+1][..limit] == list[..limit]; }
  }

  // ---------------------------------------------------------------- older elements are a suffix

  lemma {:induction false} OlderIsSuffix<T>(list: seq<T>, key: T -> int, before: Option<int>, k: nat)
    requires NewestFirst(list, key) && k <= |list|
    requires forall i :: 0 <= i < k ==> !BeforeCursor(key(list[i]), before)
    requires forall i :: k <= i < |list| ==> BeforeCursor(key(list[i]), before)
    ensures Older(list, key, before) == list[k..]
    decreases list
  {
    if list != [] {
      var rest := list[1..];
      assert forall i :: 0 <= i < |rest| ==> rest[i] == list[i+1];
      OlderIsSuffix(rest, key, before, if k == 0 then 0 else k - 1);
    }
  }

  lemma {:induction false} OlderMember<T>(list: seq<T>, key: T -> int, before: Option<int>, x: T)
    ensures x in Older(list, key, before) <==> x in list && BeforeCursor(key(x), before)
    decreases list
  {
    if list != [] {
      OlderMember(list[1..], key, before, x);
      assert x in list <==> x == list[0] || x in list[1..];
    }
  }

  lemma OlderMembers<T(!new)>(list: seq<T>, key: T -> int, before: Option<int>)
    requires NewestFirst(list, key)
    ensures forall x :: x in Older(list, key, before) <==> x in list && BeforeCursor(key(x), before)
    ensures NewestFirst(Older(list, key, before), key)
  {
    forall x ensures x in Older(list, key, before) <==> x in list && BeforeCursor(key(x), before) {
      OlderMember(list, key, before, x);
    }
    var k := OlderFrom(list, key, before);
  }

  lemma {:induction false} OlderFrom<T>(list: seq<T>, key: T -> int, before: Option<int>) returns (k: nat)
    requires NewestFirst(list, key)
    ensures k <= |list| && Older(list, key, before) == list[k..]
    ensures forall i :: 0 <= i < k ==> !BeforeCursor(key(list[i]), before)
  {
    k := 0;
    while k < |list| && !BeforeCursor(key(list[k]), before)
      invariant k <= |list|
      invariant forall i :: 0 <= i < k ==> !BeforeCursor(key(list[i]), before)
    {
      k := k + 1;
    }
    OlderIsSuffix(list, key, before, k);
  }

  /** The cursor of a page continues exactly behind it. */
  lemma NextPageFollows<T>(list: seq<T>, key: T -> int, before: Option<int>, limit: nat)
    requires NewestFirst(list, key) && limit > 0
    ensures var older := Older(list, key, before);
      var page := PageOf(older, key, limit);
      && (page.hasMore <==> |older| > limit)
      && (page.hasMore <==> page.nextBefore.Some?)
      && (page.hasMore ==> Older(list, key, page.nextBefore) == older[limit..])
  {
    hide Older;
    var k := OlderFrom(list, key, before);
    var older := list[k..];
    if |older| > limit {
      assert older[limit-1] == list[k+limit-1];
      OlderIsSuffix(list, key, Some(key(older[limit-1])), k + limit);
    }
  }

  // ---------------------------------------------------------------- walking the pages

  /** The pages a client receives that starts at `before` and follows `nextBefore`
      until it is absent. */
  ghost predicate IsWalk<T(!new)>(list: seq<T>, key: T -> int, limit: nat, before: Option<int>, pages: seq<Page<T>>)
    decreases pages
  {
    && pages != []
    && pages[0] == PageOf(Older(list, key, before), key, limit)
    && if pages[0].nextBefore.None? then |pages| == 1
       else IsWalk(list, key, limit, pages[0].nextBefore, pages[1..])
  }

  /** Everything received, oldest first: later pages hold older elements. */
  function Received<T>(pages: seq<Page<T>>): seq<T> {
    if pages == [] then [] else Received(pages[1..]) + pages[0].items
  }

  lemma {:induction false} ReversedSplit<T>(s: seq<T>, n: nat)
    requires n <= |s|
    ensures Reversed(s) == Reversed(s[n..]) + Reversed(s[..n])
  {
    if n > 0 {
      assert s[1..][n-1..] == s[n..] && s[..n][1..] == s[1..][..n-1];
      ReversedSplit(s[1..], n - 1);
    } else {
      assert s[0..] == s;
    }
  }

  /** A complete walk reads the whole list behind the starting cursor, in order,
      every element once. */
  lemma {:induction false} WalkReadsEverything<T(!new)>(list: seq<T>, key: T -> int, limit: nat, before: Option<int>,
                                                        pages: seq<Page<T>>)
    requires NewestFirst(list, key) && limit > 0 && IsWalk(list, key, limit, before, pages)
    ensures Received(pages) == Reversed(Older(list, key, before))
    decreases pages
  {
    var older := Older(list, key, before);
    NextPageFollows(list, key, before, limit);
    if pages[0].nextBefore.None? {
      assert Take(older, limit) == older;
      assert Received(pages[1..]) == [];
    } else {
      WalkReadsEverything(list, key, limit, pages[0].nextBefore, pages[1..]);
      ReversedSplit(older, limit);
    }
  }
}
