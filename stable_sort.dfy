/**
 * Python's `list.sort(key=..., reverse=True)` and `sorted(..., reverse=True)`:
 * a stable sort by an integer key, largest key first, in which items with
 * equal keys keep their original relative order.  It is written as
 * insertion: each item goes after every item already placed whose key is
 * at least its own.
 */
module StableSort {

  /** Keys never increase from left to right. */
  ghost predicate SortedDesc<T>(s: seq<T>, key: T -> int) {
    forall i, j :: 0 <= i < j < |s| ==> key(s[i]) >= key(s[j])
  }

  /** The items of `s` whose key is `k`, in their order in `s`. */
  function WithKey<T>(s: seq<T>, key: T -> int, k: int): (r: seq<T>)
    ensures |r| <= |s|
  {
    if s == [] then []
    else (if key(s[0]) == k then [s[0]] else []) + WithKey(s[1..], key, k)
  }

  /** Place `x` after every item of the sorted `s` whose key is at least its own. */
  function Insert<T>(s: seq<T>, x: T, key: T -> int): (r: seq<T>)
  {
    if s == [] then [x]
    else if key(s[0]) >= key(x) then [s[0]] + Insert(s[1..], x, key)
    else [x] + s
  }

  /** The stable sort, largest key first. */
  function SortDesc<T>(s: seq<T>, key: T -> int): (r: seq<T>)
  {
    if s == [] then [] else Insert(SortDesc(s[..|s| - 1], key), s[|s| - 1], key)
  }

  /** The first `n` items, or all of them when there are fewer (`s[:n]`). */
  function Take<T>(s: seq<T>, n: nat): (r: seq<T>)
    ensures |r| == if |s| < n then |s| else n
    ensures r <= s
  {
    if |s| <= n then s else s[..n]
  }

  // ------------------------------------------------------------ WithKey

  lemma {:induction false} WithKeyAppend<T>(a: seq<T>, b: seq<T>, key: T -> int, k: int)
    ensures WithKey(a + b, key, k) == WithKey(a, key, k) + WithKey(b, key, k)
  {
    if a == [] {
      assert a + b == b;
    } else {
      var ab := a + b;
      assert ab[0] == a[0] && ab[1..] == a[1..] + b;
      WithKeyAppend(a[1..], b, key, k);
      calc {
        WithKey(ab, key, k);
        (if key(a[0]) == k then [a[0]] else []) + WithKey(a[1..] + b, key, k);
        (if key(a[0]) == k then [a[0]] else []) + (WithKey(a[1..], key, k) + WithKey(b, key, k));
        WithKey(a, key, k) + WithKey(b, key, k);
      }
    }
  }

  /** When every key of `s` is below `k`, no item of `s` has key `k`. */
  lemma {:induction false} WithKeyNone<T>(s: seq<T>, key: T -> int, k: int)
    requires forall i :: 0 <= i < |s| ==> key(s[i]) < k
    ensures WithKey(s, key, k) == []
  {
    if s != [] {
      WithKeyNone(s[1..], key, k);
    }
  }

  // ------------------------------------------------------------ Insert

  lemma {:induction false} InsertMultiset<T>(s: seq<T>, x: T, key: T -> int)
    ensures multiset(Insert(s, x, key)) == multiset(s) + multiset{x}
  {
    if s != [] && key(s[0]) >= key(x) {
      InsertMultiset(s[1..], x, key);
      assert s == [s[0]] + s[1..];
    }
  }

  /** Every item of `Insert(s, x)` is `x` or an item of `s`. */
  lemma InsertMembers<T>(s: seq<T>, x: T, key: T -> int, y: T)
    requires y in Insert(s, x, key)
    ensures y == x || y in s
  {
    InsertMultiset(s, x, key);
    assert y in multiset(Insert(s, x, key));
  }

  lemma {:induction false} InsertSorted<T>(s: seq<T>, x: T, key: T -> int)
    requires SortedDesc(s, key)
    ensures SortedDesc(Insert(s, x, key), key)
  {
    var r := Insert(s, x, key);
    if s == [] {
    } else if key(s[0]) >= key(x) {
      var t := Insert(s[1..], x, key);
      InsertSorted(s[1..], x, key);
      assert r == [s[0]] + t;
      forall j | 0 <= j < |t| ensures key(s[0]) >= key(t[j]) {
        InsertMembers(s[1..], x, key, t[j]);
      }
    } else {
      assert r == [x] + s;
      forall i, j | 0 <= i < j < |r| ensures key(r[i]) >= key(r[j]) {
        if i > 0 { assert r[i] == s[i - 1]; }
        if 1 < j { assert key(s[0]) >= key(s[j - 1]); }
      }
    }
  }

  lemma {:induction false} InsertWithKey<T>(s: seq<T>, x: T, key: T -> int, k: int)
    requires SortedDesc(s, key)
    ensures WithKey(Insert(s, x, key), key, k) == WithKey(s, key, k) + (if key(x) == k then [x] else [])
  {
    var r := Insert(s, x, key);
    if s == [] {
    } else if key(s[0]) >= key(x) {
      InsertWithKey(s[1..], x, key, k);
      assert r[0] == s[0] && r[1..] == Insert(s[1..], x, key);
    } else {
      assert r[0] == x && r[1..] == s;
      if key(x) == k {
        forall j | 0 <= j < |s| ensures key(s[j]) < k {
          if j > 0 { assert key(s[0]) >= key(s[j]); }
        }
        WithKeyNone(s, key, k);
      }
    }
  }

  /** An item whose key is no larger than any key of `s` goes at the end. */
  lemma {:induction false} InsertAtEnd<T>(s: seq<T>, x: T, key: T -> int)
    requires forall i :: 0 <= i < |s| ==> key(s[i]) >= key(x)
    ensures Insert(s, x, key) == s + [x]
  {
    if s != [] {
      InsertAtEnd(s[1..], x, key);
      assert s == [s[0]] + s[1..];
    }
  }

  // ------------------------------------------------------------ SortDesc

  /**
   * The sort is correct and stable: its result is ordered by key, largest
   * first, holds the same items, and for every key lists the items with
   * that key in exactly their input order.
   */
  lemma {:induction false} SortDescCorrect<T>(s: seq<T>, key: T -> int)
    ensures SortedDesc(SortDesc(s, key), key)
    ensures multiset(SortDesc(s, key)) == multiset(s)
    ensures forall k :: WithKey(SortDesc(s, key), key, k) == WithKey(s, key, k)
  {
    if s != [] {
      var init, last := s[..|s| - 1], s[|s| - 1];
      SortDescCorrect(init, key);
      InsertSorted(SortDesc(init, key), last, key);
      InsertMultiset(SortDesc(init, key), last, key);
      assert s == init + [last];
      forall k ensures WithKey(SortDesc(s, key), key, k) == WithKey(s, key, k) {
        InsertWithKey(SortDesc(init, key), last, key, k);
        WithKeyAppend(init, [last], key, k);
      }
    }
  }

  /** Sorting what is already in order changes nothing. */
  lemma {:induction false} SortDescOfSorted<T>(s: seq<T>, key: T -> int)
    requires SortedDesc(s, key)
    ensures SortDesc(s, key) == s
  {
    if s != [] {
      var init := s[..|s| - 1];
      SortDescOfSorted(init, key);
      InsertAtEnd(init, s[|s| - 1], key);
      assert init + [s[|s| - 1]] == s;
    }
  }

  /** A prefix of a sorted sequence is sorted, and anything after it has a key no larger than its last. */
  lemma PrefixOfSorted<T>(s: seq<T>, key: T -> int, n: nat)
    requires SortedDesc(s, key)
    ensures SortedDesc(Take(s, n), key)
    ensures var r := Take(s, n);
            forall j :: |r| <= j < |s| && r != [] ==> key(s[j]) <= key(r[|r| - 1])
  {
  }

  lemma SortDescMembers<T>(s: seq<T>, key: T -> int)
    ensures |SortDesc(s, key)| == |s|
    ensures forall x :: x in SortDesc(s, key) <==> x in s
  {
    SortDescCorrect(s, key);
    var sorted := SortDesc(s, key);
    assert |multiset(sorted)| == |multiset(s)|;
    forall x ensures x in sorted <==> x in s {
      assert x in sorted <==> x in multiset(sorted);
      assert x in s <==> x in multiset(s);
    }
  }

  lemma TopWithKey<T>(s: seq<T>, key: T -> int, n: nat, k: int)
    ensures WithKey(Take(SortDesc(s, key), n), key, k) <= WithKey(s, key, k)
  {
    var sorted := SortDesc(s, key);
    var r := Take(sorted, n);
    SortDescCorrect(s, key);
    assert sorted == r + sorted[|r|..];
    WithKeyAppend(r, sorted[|r|..], key, k);
  }

  lemma TopKeepsBetter<T>(s: seq<T>, key: T -> int, n: nat, x: T)
    requires Take(SortDesc(s, key), n) != []
    requires x in s
    requires key(x) > key(Take(SortDesc(s, key), n)[|Take(SortDesc(s, key), n)| - 1])
    ensures x in Take(SortDesc(s, key), n)
  {
    var sorted := SortDesc(s, key);
    var r := Take(sorted, n);
    SortDescCorrect(s, key);
    SortDescMembers(s, key);
    PrefixOfSorted(sorted, key, n);
    var j :| 0 <= j < |sorted| && sorted[j] == x;
    assert j < |r|;
    assert r[j] == x;
  }

  /**
   * Every item of a key above the last one kept was kept, with all its
   * copies: for such a key the kept items are exactly the input's.
   */
  lemma TopKeepsAllAbove<T>(s: seq<T>, key: T -> int, n: nat, k: int)
    requires Take(SortDesc(s, key), n) != []
    requires k > key(Take(SortDesc(s, key), n)[|Take(SortDesc(s, key), n)| - 1])
    ensures WithKey(Take(SortDesc(s, key), n), key, k) == WithKey(s, key, k)
  {
    var sorted := SortDesc(s, key);
    var r := Take(sorted, n);
    var rest := sorted[|r|..];
    SortDescCorrect(s, key);
    PrefixOfSorted(sorted, key, n);
    assert sorted == r + rest;
    WithKeyAppend(r, rest, key, k);
    forall i | 0 <= i < |rest| ensures key(rest[i]) < k {
      assert rest[i] == sorted[|r| + i];
    }
    WithKeyNone(rest, key, k);
  }

  /** The first `n` of the sorted items are ordered by key. */
  lemma TopSorted<T>(s: seq<T>, key: T -> int, n: nat)
    ensures SortedDesc(Take(SortDesc(s, key), n), key)
  {
    SortDescCorrect(s, key);
    PrefixOfSorted(SortDesc(s, key), key, n);
  }

  /** There are min(n, |s|) of them, each an item of `s`. */
  lemma TopFromInput<T>(s: seq<T>, key: T -> int, n: nat)
    ensures |Take(SortDesc(s, key), n)| == (if |s| < n then |s| else n)
    ensures forall x :: x in Take(SortDesc(s, key), n) ==> x in s
  {
    var sorted := SortDesc(s, key);
    var r := Take(sorted, n);
    SortDescMembers(s, key);
    forall x | x in r ensures x in s {
      var j :| 0 <= j < |r| && r[j] == x;
      assert sorted[j] == x;
    }
  }

  /**
   * `sorted(s, reverse=True)[:n]`: at most `n` items, ordered by key, each
   * from `s`; within a key the items are the first ones of that key in `s`;
   * and every item of `s` whose key beats the last one kept was kept.
   */
  lemma TopByKey<T>(s: seq<T>, key: T -> int, n: nat)
    ensures var r := Take(SortDesc(s, key), n);
            && |r| == (if |s| < n then |s| else n)
            && SortedDesc(r, key)
            && (forall x :: x in r ==> x in s)
            && (forall k :: WithKey(r, key, k) <= WithKey(s, key, k))
            && (r != [] ==> forall x :: x in s && key(x) > key(r[|r| - 1]) ==> x in r)
            && (r != [] ==> forall k :: k > key(r[|r| - 1]) ==> WithKey(r, key, k) == WithKey(s, key, k))
  {
    var r := Take(SortDesc(s, key), n);
    TopSorted(s, key, n);
    TopFromInput(s, key, n);
    forall k ensures WithKey(r, key, k) <= WithKey(s, key, k) {
      TopWithKey(s, key, n, k);
    }
    if r != [] {
      forall x | x in s && key(x) > key(r[|r| - 1]) ensures x in r {
        TopKeepsBetter(s, key, n, x);
      }
      forall k | k > key(r[|r| - 1]) ensures WithKey(r, key, k) == WithKey(s, key, k) {
        TopKeepsAllAbove(s, key, n, k);
      }
    }
  }
}
