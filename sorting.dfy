/** The stable sort the tools obtain from `Array.prototype.sort` with a
    numeric comparator on dates. Stability (equal keys keep their input
    order) is guaranteed by the language since ECMAScript 2019; the model
    states it as: for every key, the elements with that key appear in the
    result in the order they had in the input. */
module Sorting {
  import opened Common

  /** Keys never decrease from left to right. */
  predicate SortedBy<T>(s: seq<T>, key: T -> int)
  {
    forall i, j :: 0 <= i < j < |s| ==> key(s[i]) <= key(s[j])
  }

  /** Whether an element's key is `k`. */
  function HasKey<T>(key: T -> int, k: int): T -> bool
  {
    e => key(e) == k
  }

  /** The subsequence of `s` whose key is `k`. */
  function WithKey<T>(s: seq<T>, key: T -> int, k: int): (r: seq<T>)
    ensures |r| <= |s|
    ensures forall i :: 0 <= i < |r| ==> key(r[i]) == k
  {
    Filter(s, HasKey(key, k))
  }

  /** Places `x` after the leading elements whose key is not greater than
      its own, which is where a stable sort puts an element that came after
      all of a sorted `s` in the input. */
  function Insert<T>(x: T, s: seq<T>, key: T -> int): (r: seq<T>)
    ensures |r| == |s| + 1
  {
    if s == [] then [x]
    else if key(s[0]) <= key(x) then [s[0]] + Insert(x, s[1..], key)
    else [x] + s
  }

  lemma {:induction false} InsertPermutes<T>(x: T, s: seq<T>, key: T -> int)
    ensures multiset(Insert(x, s, key)) == multiset(s) + multiset{x}
  {
    if s != [] && key(s[0]) <= key(x) {
      InsertPermutes(x, s[1..], key);
      InsertAfterHead(x, s, key);
      assert s == [s[0]] + s[1..];
    }
  }

  /** No element's key is below `m`. */
  predicate KeysAtLeast<T>(s: seq<T>, key: T -> int, m: int)
  {
    forall i :: 0 <= i < |s| ==> m <= key(s[i])
  }

  lemma {:induction false} InsertKeysAtLeast<T>(x: T, s: seq<T>, key: T -> int, m: int)
    requires KeysAtLeast(s, key, m) && m <= key(x)
    ensures KeysAtLeast(Insert(x, s, key), key, m)
  {
    if s != [] && key(s[0]) <= key(x) {
      InsertKeysAtLeast(x, s[1..], key, m);
      InsertAfterHead(x, s, key);
    }
  }

  lemma ConsSorted<T>(h: T, r: seq<T>, key: T -> int)
    requires SortedBy(r, key) && KeysAtLeast(r, key, key(h))
    ensures SortedBy([h] + r, key)
  {
  }

  lemma SortedTail<T>(s: seq<T>, key: T -> int)
    requires SortedBy(s, key) && s != []
    ensures SortedBy(s[1..], key) && KeysAtLeast(s, key, key(s[0]))
  {
  }

  lemma {:induction false} InsertSorted<T>(x: T, s: seq<T>, key: T -> int)
    requires SortedBy(s, key)
    ensures SortedBy(Insert(x, s, key), key)
  {
    if s != [] {
      SortedTail(s, key);
      if key(s[0]) <= key(x) {
        var tail := s[1..];
        assert KeysAtLeast(tail, key, key(s[0]));
        InsertSorted(x, tail, key);
        InsertKeysAtLeast(x, tail, key, key(s[0]));
        InsertAfterHead(x, s, key);
        ConsSorted(s[0], Insert(x, tail, key), key);
      } else {
        assert Insert(x, s, key) == [x] + s;
        ConsSorted(x, s, key);
      }
    }
  }

  /** Stable insertion sort: the elements of `s` ordered by non-decreasing
      key. */
  function SortBy<T>(s: seq<T>, key: T -> int): (r: seq<T>)
    ensures SortedBy(r, key)
    ensures multiset(r) == multiset(s)
    ensures |r| == |s|
  {
    if s == [] then []
    else
      var init, last := s[..|s| - 1], s[|s| - 1];
      assert s == init + [last];
      var sorted := SortBy(init, key);
      InsertSorted(last, sorted, key);
      InsertPermutes(last, sorted, key);
      Insert(last, sorted, key)
  }

  lemma WithKeyAppend<T>(a: seq<T>, b: seq<T>, key: T -> int, k: int)
    ensures WithKey(a + b, key, k) == WithKey(a, key, k) + WithKey(b, key, k)
  {
    FilterAppend(a, b, HasKey(key, k));
  }

  lemma {:induction false} WithKeyInsert<T>(x: T, s: seq<T>, key: T -> int, k: int)
    requires SortedBy(s, key)
    ensures WithKey(Insert(x, s, key), key, k) == WithKey(s, key, k) + WithKey([x], key, k)
  {
    if s == [] {
    } else if key(s[0]) <= key(x) {
      WithKeyInsert(x, s[1..], key, k);
      InsertAfterHead(x, s, key);
      FilterConsStep(s[0], s[1..], Insert(x, s[1..], key), [x], HasKey(key, k));
      assert s == [s[0]] + s[1..];
    } else {
      WithKeyInsertBeforeAll(x, s, key, k);
    }
  }

  lemma InsertAfterHead<T>(x: T, s: seq<T>, key: T -> int)
    requires s != [] && key(s[0]) <= key(x)
    ensures Insert(x, s, key) == [s[0]] + Insert(x, s[1..], key)
  {
  }

  /** Filtering commutes with putting the same head in front. */
  lemma FilterConsStep<T>(h: T, tail: seq<T>, rest: seq<T>, xs: seq<T>, p: T -> bool)
    requires Filter(rest, p) == Filter(tail, p) + Filter(xs, p)
    ensures Filter([h] + rest, p) == Filter([h] + tail, p) + Filter(xs, p)
  {
    FilterAppend([h], rest, p);
    FilterAppend([h], tail, p);
    SeqAssoc(Filter([h], p), Filter(tail, p), Filter(xs, p));
  }

  lemma SeqAssoc<T>(a: seq<T>, b: seq<T>, c: seq<T>)
    ensures a + (b + c) == (a + b) + c
  {
  }

  lemma WithKeyInsertBeforeAll<T>(x: T, s: seq<T>, key: T -> int, k: int)
    requires SortedBy(s, key) && s != [] && key(s[0]) > key(x)
    ensures WithKey(Insert(x, s, key), key, k) == WithKey(s, key, k) + WithKey([x], key, k)
  {
    var p := HasKey(key, k);
    assert Insert(x, s, key) == [x] + s;
    FilterAppend([x], s, p);
    if key(x) == k {
      SortedTail(s, key);
      WithKeyAbove(s, key, k);
      SeqEmptyUnits(Filter([x], p));
    } else {
      assert Filter([x], p) == [];
      SeqEmptyUnits(Filter(s, p));
    }
  }

  lemma SeqEmptyUnits<T>(a: seq<T>)
    ensures a + [] == a && [] + a == a
  {
  }

  lemma WithKeyAbove<T>(s: seq<T>, key: T -> int, k: int)
    requires KeysAtLeast(s, key, k + 1)
    ensures WithKey(s, key, k) == []
  {
    var p := HasKey(key, k);
    forall i | 0 <= i < |s| ensures !p(s[i]) {
      assert key(s[i]) >= k + 1;
    }
    FilterNone(s, p);
  }

  /** Stability: sorting keeps, for each key, the input order of the
      elements with that key. */
  lemma {:induction false} SortByStable<T>(s: seq<T>, key: T -> int, k: int)
    ensures WithKey(SortBy(s, key), key, k) == WithKey(s, key, k)
  {
    if s != [] {
      var init, last := s[..|s| - 1], s[|s| - 1];
      SortByStable(init, key, k);
      WithKeyInsert(last, SortBy(init, key), key, k);
      WithKeyAppend(init, [last], key, k);
      assert s == init + [last];
    }
  }

  /** A sorted input is returned unchanged. */
  lemma {:induction false} SortBySorted<T>(s: seq<T>, key: T -> int)
    requires SortedBy(s, key)
    ensures SortBy(s, key) == s
  {
    if s != [] {
      SortedInit(s, key);
      SortBySorted(s[..|s| - 1], key);
      SortBySortedStep(s, key);
    }
  }

  lemma SortBySortedStep<T>(s: seq<T>, key: T -> int)
    requires s != []
    requires SortedBy(s[..|s| - 1], key) && KeysAtMost(s[..|s| - 1], key, key(s[|s| - 1]))
    requires SortBy(s[..|s| - 1], key) == s[..|s| - 1]
    ensures SortBy(s, key) == s
  {
    var init, last := s[..|s| - 1], s[|s| - 1];
    SortBySnoc(s, key);
    InsertAtEnd(last, init, key);
    assert s == init + [last];
  }

  lemma SortBySnoc<T>(s: seq<T>, key: T -> int)
    requires s != []
    ensures SortBy(s, key) == Insert(s[|s| - 1], SortBy(s[..|s| - 1], key), key)
  {
  }

  lemma SortedInit<T>(s: seq<T>, key: T -> int)
    requires SortedBy(s, key) && s != []
    ensures SortedBy(s[..|s| - 1], key)
    ensures KeysAtMost(s[..|s| - 1], key, key(s[|s| - 1]))
  {
  }

  /** No element's key exceeds `m`. */
  predicate KeysAtMost<T>(s: seq<T>, key: T -> int, m: int)
  {
    forall i :: 0 <= i < |s| ==> key(s[i]) <= m
  }

  lemma {:induction false} InsertAtEnd<T>(x: T, s: seq<T>, key: T -> int)
    requires SortedBy(s, key)
    requires KeysAtMost(s, key, key(x))
    ensures Insert(x, s, key) == s + [x]
  {
    if s != [] {
      InsertAtEnd(x, s[1..], key);
      assert s == [s[0]] + s[1..];
    }
  }

  /** Each element's key is at most its right neighbour's. */
  predicate AdjacentSortedBy<T>(s: seq<T>, key: T -> int)
  {
    forall i :: 0 <= i < |s| - 1 ==> key(s[i]) <= key(s[i + 1])
  }

  lemma {:induction false} AdjacentChain<T>(s: seq<T>, key: T -> int, i: nat, j: nat)
    requires AdjacentSortedBy(s, key)
    requires i <= j < |s|
    ensures key(s[i]) <= key(s[j])
    decreases j - i
  {
    if i < j {
      AdjacentChain(s, key, i, j - 1);
    }
  }

  /** Order between neighbours is order throughout. */
  lemma AdjacentSortedIsSorted<T>(s: seq<T>, key: T -> int)
    ensures AdjacentSortedBy(s, key) <==> SortedBy(s, key)
  {
    if AdjacentSortedBy(s, key) {
      forall i, j | 0 <= i < j < |s| ensures key(s[i]) <= key(s[j]) {
        AdjacentChain(s, key, i, j);
      }
    }
  }
}
