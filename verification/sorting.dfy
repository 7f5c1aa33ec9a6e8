/**
 * The stable ascending sort `list.sort(key=h)` that orders OPEN in
 * Rubik_2x2x2.py's `graphsearch`, written as an insertion sort: each
 * element goes after every element whose key is not larger than its own.
 */
module KeySort {

  /** Places x into `sorted` after the last element whose key is at most key(x). */
  function Insert<T>(sorted: seq<T>, x: T, key: T -> int): (r: seq<T>)
    ensures |r| == |sorted| + 1
    ensures multiset(r) == multiset(sorted) + multiset{x}
    decreases |sorted|
  {
    if |sorted| == 0 then [x]
    else if key(sorted[|sorted| - 1]) <= key(x) then sorted + [x]
    else
      var init := sorted[..|sorted| - 1];
      assert sorted == init + [sorted[|sorted| - 1]];
      Insert(init, x, key) + [sorted[|sorted| - 1]]
  }

  /** `s.sort(key=key)`. */
  function Sort<T>(s: seq<T>, key: T -> int): (r: seq<T>)
    ensures |r| == |s|
    ensures multiset(r) == multiset(s)
    decreases |s|
  {
    if |s| == 0 then []
    else
      assert s == s[..|s| - 1] + [s[|s| - 1]];
      Insert(Sort(s[..|s| - 1], key), s[|s| - 1], key)
  }

  /** Keys never decrease along s. */
  predicate Ordered<T>(s: seq<T>, key: T -> int)
  {
    forall i, j | 0 <= i < j < |s| :: key(s[i]) <= key(s[j])
  }

  /** The elements of s with key v, in their order in s. */
  function Keep<T>(s: seq<T>, key: T -> int, v: int): (r: seq<T>)
    ensures |r| <= |s|
    ensures forall i | 0 <= i < |r| :: key(r[i]) == v
    decreases |s|
  {
    if |s| == 0 then []
    else Keep(s[..|s| - 1], key, v) + (if key(s[|s| - 1]) == v then [s[|s| - 1]] else [])
  }

  lemma KeepSnoc<T>(s: seq<T>, x: T, key: T -> int, v: int)
    ensures Keep(s + [x], key, v) == Keep(s, key, v) + (if key(x) == v then [x] else [])
  {
    assert (s + [x])[..|s|] == s;
  }

  lemma {:induction false} InsertOrdered<T>(sorted: seq<T>, x: T, key: T -> int)
    requires Ordered(sorted, key)
    ensures Ordered(Insert(sorted, x, key), key)
    decreases |sorted|
  {
    if |sorted| > 0 && key(sorted[|sorted| - 1]) > key(x) {
      var init, last := sorted[..|sorted| - 1], sorted[|sorted| - 1];
      InsertOrdered(init, x, key);
      var front := Insert(init, x, key);
      forall y | y in front
        ensures key(y) <= key(last)
      {
        assert y in multiset(front);
        if y != x {
          assert y in multiset(init);
          var k :| 0 <= k < |init| && init[k] == y;
          assert sorted[k] == y;
        }
      }
      var r := front + [last];
      forall i, j | 0 <= i < j < |r|
        ensures key(r[i]) <= key(r[j])
      {
        if j == |front| {
          assert r[i] in front;
        } else {
          assert r[i] == front[i] && r[j] == front[j];
        }
      }
    }
  }

  /** An inserted element lands after every element with its key. */
  lemma {:induction false} InsertKeeps<T>(sorted: seq<T>, x: T, key: T -> int, v: int)
    ensures Keep(Insert(sorted, x, key), key, v) == Keep(sorted, key, v) + (if key(x) == v then [x] else [])
    decreases |sorted|
  {
    if |sorted| == 0 {
      assert Keep([x], key, v) == Keep([] + [x], key, v);
      KeepSnoc([], x, key, v);
    } else if key(sorted[|sorted| - 1]) <= key(x) {
      KeepSnoc(sorted, x, key, v);
    } else {
      var init, last := sorted[..|sorted| - 1], sorted[|sorted| - 1];
      assert sorted == init + [last];
      InsertKeeps(init, x, key, v);
      KeepSnoc(Insert(init, x, key), last, key, v);
      KeepSnoc(init, last, key, v);
    }
  }

  /** The result of Sort is ordered by key. */
  lemma {:induction false} SortOrdered<T>(s: seq<T>, key: T -> int)
    ensures Ordered(Sort(s, key), key)
    decreases |s|
  {
    if |s| > 0 {
      SortOrdered(s[..|s| - 1], key);
      InsertOrdered(Sort(s[..|s| - 1], key), s[|s| - 1], key);
    }
  }

  /** Stability: elements with equal keys keep their relative order. */
  lemma {:induction false} SortStable<T>(s: seq<T>, key: T -> int, v: int)
    ensures Keep(Sort(s, key), key, v) == Keep(s, key, v)
    decreases |s|
  {
    if |s| > 0 {
      SortStable(s[..|s| - 1], key, v);
      InsertKeeps(Sort(s[..|s| - 1], key), s[|s| - 1], key, v);
    }
  }

  /** With one key for all elements, sorting changes nothing (OPEN stays first-in first-out). */
  lemma {:induction false} SortConstant<T>(s: seq<T>, key: T -> int)
    requires forall i | 0 <= i < |s| :: key(s[i]) == key(s[0])
    ensures Sort(s, key) == s
    decreases |s|
  {
    if |s| > 0 {
      var init, last := s[..|s| - 1], s[|s| - 1];
      forall i | 0 <= i < |init|
        ensures key(init[i]) == key(init[0])
      {
        assert init[i] == s[i] && init[0] == s[0];
      }
      calc {
        Sort(s, key);
        Insert(Sort(init, key), last, key);
        { SortConstant(init, key); }
        Insert(init, last, key);
        { InsertLast(init, last, key); }
        init + [last];
        s;
      }
    }
  }

  /** An element whose key is not below the last key goes at the end. */
  lemma InsertLast<T>(sorted: seq<T>, x: T, key: T -> int)
    requires |sorted| > 0 ==> key(sorted[|sorted| - 1]) <= key(x)
    ensures Insert(sorted, x, key) == sorted + [x]
  {
  }
}
