/**
 * Counting strings with a Python dict, `counts[v] = counts.get(v, 0) + 1`: a dict
 * remembers its keys in the order they were first inserted, so the counted
 * items come out in first-appearance order.
 */
module Counting {

  /** The values of `s` without repeats, each where it first appears. */
  function Distinct(s: seq<string>): (r: seq<string>)
    ensures forall x :: x in r <==> x in s
  {
    if s == [] then []
    else
      var d := Distinct(s[..|s| - 1]);
      if s[|s| - 1] in d then d else d + [s[|s| - 1]]
  }

  /** How many times `x` occurs in `s`. */
  function Occurrences(s: seq<string>, x: string): nat {
    if s == [] then 0
    else Occurrences(s[..|s| - 1], x) + (if s[|s| - 1] == x then 1 else 0)
  }

  /** Each key of `keys` with the number of times it occurs in `s`. */
  function Pairs(keys: seq<string>, s: seq<string>): (r: seq<(string, nat)>)
    ensures |r| == |keys|
    ensures forall i :: 0 <= i < |r| ==> r[i] == (keys[i], Occurrences(s, keys[i]))
  {
    if keys == [] then []
    else Pairs(keys[..|keys| - 1], s) + [(keys[|keys| - 1], Occurrences(s, keys[|keys| - 1]))]
  }

  /** `counts.items()` after counting every value of `s`. */
  function Tally(s: seq<string>): seq<(string, nat)> {
    Pairs(Distinct(s), s)
  }

  function SumCounts(items: seq<(string, nat)>): nat {
    if items == [] then 0 else SumCounts(items[..|items| - 1]) + items[|items| - 1].1
  }

  ghost predicate NoDuplicates(s: seq<string>) {
    forall i, j :: 0 <= i < j < |s| ==> s[i] != s[j]
  }

  /** The position of the first occurrence of `x` in `s`. */
  function FirstIndex(s: seq<string>, x: string): (i: nat)
    requires x in s
    ensures i < |s| && s[i] == x
    ensures forall j :: 0 <= j < i ==> s[j] != x
  {
    if s[0] == x then 0 else 1 + FirstIndex(s[1..], x)
  }

  // ---------------------------------------------------------------- facts

  lemma {:induction false} OccurrencesPositive(s: seq<string>, x: string)
    ensures Occurrences(s, x) > 0 <==> x in s
  {
    if s != [] {
      var init := s[..|s| - 1];
      OccurrencesPositive(init, x);
      assert s == init + [s[|s| - 1]];
    }
  }

  lemma {:induction false} DistinctNoDuplicates(s: seq<string>)
    ensures NoDuplicates(Distinct(s))
  {
    if s != [] {
      DistinctNoDuplicates(s[..|s| - 1]);
    }
  }

  /** Distinct values number as many as the set of values. */
  lemma {:induction false} DistinctCardinality(s: seq<string>)
    ensures |Distinct(s)| == |set x | x in s|
  {
    if s != [] {
      var init, last := s[..|s| - 1], s[|s| - 1];
      DistinctCardinality(init);
      assert s == init + [last];
      if last in init {
        assert (set x | x in s) == (set x | x in init);
      } else {
        assert (set x | x in s) == (set x | x in init) + {last};
      }
    }
  }

  lemma {:induction false} FirstIndexAppend(s: seq<string>, x: string, y: string)
    requires y in s
    ensures FirstIndex(s + [x], y) == FirstIndex(s, y)
  {
    if s[0] != y {
      assert (s + [x])[1..] == s[1..] + [x];
      FirstIndexAppend(s[1..], x, y);
    }
  }

  /** Distinct values are listed in the order of their first appearance. */
  lemma {:induction false} DistinctFirstAppearanceOrder(s: seq<string>)
    ensures forall i, j :: 0 <= i < j < |Distinct(s)| ==>
              FirstIndex(s, Distinct(s)[i]) < FirstIndex(s, Distinct(s)[j])
  {
    if s != [] {
      var init, last := s[..|s| - 1], s[|s| - 1];
      DistinctFirstAppearanceOrder(init);
      assert s == init + [last];
      var d0, d := Distinct(init), Distinct(s);
      forall i, j | 0 <= i < j < |d| ensures FirstIndex(s, d[i]) < FirstIndex(s, d[j]) {
        assert d[i] == d0[i] && d[i] in init;
        FirstIndexAppend(init, last, d[i]);
        if j < |d0| {
          assert d[j] == d0[j];
          FirstIndexAppend(init, last, d[j]);
          assert FirstIndex(init, d0[i]) < FirstIndex(init, d0[j]);
        } else {
          assert d[j] == last && last !in init;
          assert forall k :: 0 <= k < |init| ==> s[k] == init[k];
          assert FirstIndex(s, last) >= |init|;
          assert FirstIndex(init, d[i]) < |init|;
        }
      }
    }
  }

  lemma OccurrencesAppend(s: seq<string>, x: string, k: string)
    ensures Occurrences(s + [x], k) == Occurrences(s, k) + (if x == k then 1 else 0)
  {
    assert (s + [x])[..|s|] == s;
  }

  lemma {:induction false} SumCountsStep(keys: seq<string>, s: seq<string>, x: string)
    requires NoDuplicates(keys)
    ensures SumCounts(Pairs(keys, s + [x])) == SumCounts(Pairs(keys, s)) + (if x in keys then 1 else 0)
  {
    if keys != [] {
      var ks, k := keys[..|keys| - 1], keys[|keys| - 1];
      assert keys == ks + [k];
      assert NoDuplicates(ks);
      SumCountsStep(ks, s, x);
      SumCountsAppendKey(ks, s + [x], k);
      SumCountsAppendKey(ks, s, k);
      OccurrencesAppend(s, x, k);
      assert x == k ==> x !in ks;
      assert x in keys <==> x in ks || x == k;
    }
  }

  lemma {:induction false} SumCountsAppendKey(keys: seq<string>, s: seq<string>, k: string)
    ensures SumCounts(Pairs(keys + [k], s)) == SumCounts(Pairs(keys, s)) + Occurrences(s, k)
  {
    assert (keys + [k])[..|keys|] == keys;
    assert Pairs(keys + [k], s)[..|keys|] == Pairs(keys, s);
  }

  /** The counts add up to the number of values counted. */
  lemma {:induction false} TallySum(s: seq<string>)
    ensures SumCounts(Tally(s)) == |s|
  {
    if s != [] {
      var init, last := s[..|s| - 1], s[|s| - 1];
      TallySum(init);
      assert s == init + [last];
      var d := Distinct(init);
      DistinctNoDuplicates(init);
      SumCountsStep(d, init, last);
      if last !in d {
        SumCountsAppendKey(d, s, last);
        OccurrencesPositive(init, last);
        assert s[..|s| - 1] == init;
      }
    }
  }

  lemma TallyEntries(s: seq<string>)
    ensures var t := Tally(s);
            forall i :: 0 <= i < |t| ==> t[i].0 in s && t[i].1 == Occurrences(s, t[i].0) && t[i].1 >= 1
  {
    var t := Tally(s);
    var d := Distinct(s);
    forall i | 0 <= i < |t| ensures t[i].0 in s && t[i].1 >= 1 {
      OccurrencesPositive(s, d[i]);
    }
  }

  lemma TallyCovers(s: seq<string>)
    ensures var t := Tally(s);
            forall x :: x in s ==> exists i :: 0 <= i < |t| && t[i].0 == x
  {
    var t := Tally(s);
    var d := Distinct(s);
    forall x | x in s ensures exists i :: 0 <= i < |t| && t[i].0 == x {
      var i :| 0 <= i < |d| && d[i] == x;
      assert t[i].0 == x;
    }
  }

  /**
   * What counting promises: one entry per distinct value, in first-appearance
   * order, each with its number of occurrences (at least one), the number of
   * entries equal to the number of distinct values, and the counts summing
   * to the number of values.
   */
  lemma TallyCorrect(s: seq<string>)
    ensures var t := Tally(s);
            && |t| == |set x | x in s|
            && (forall i :: 0 <= i < |t| ==> t[i].0 in s && t[i].1 == Occurrences(s, t[i].0) && t[i].1 >= 1)
            && (forall x :: x in s ==> exists i :: 0 <= i < |t| && t[i].0 == x)
            && (forall i, j :: 0 <= i < j < |t| ==> FirstIndex(s, t[i].0) < FirstIndex(s, t[j].0))
            && SumCounts(t) == |s|
  {
    DistinctCardinality(s);
    DistinctFirstAppearanceOrder(s);
    TallySum(s);
    TallyEntries(s);
    TallyCovers(s);
  }

  /**
   * Python's `counts[v] = counts.get(v, 0) + 1` over every value: the dict's
   * keys in insertion order and its counts.
   */
  method CountInto(values: seq<string>) returns (order: seq<string>, counts: map<string, nat>)
    ensures order == Distinct(values)
    ensures forall x :: x in counts <==> x in order
    ensures forall x :: x in counts ==> counts[x] == Occurrences(values, x)
  {
    order := [];
    counts := map[];
    var i := 0;
    while i < |values|
      invariant 0 <= i <= |values|
      invariant order == Distinct(values[..i])
      invariant forall x :: x in counts <==> x in order
      invariant forall x :: x in counts ==> counts[x] == Occurrences(values[..i], x)
    {
      var v := values[i];
      assert values[..i + 1] == values[..i] + [v];
      forall x ensures Occurrences(values[..i + 1], x) == Occurrences(values[..i], x) + (if v == x then 1 else 0) {
        OccurrencesAppend(values[..i], v, x);
      }
      if v !in counts {
        order := order + [v];
        OccurrencesPositive(values[..i], v);
      }
      counts := counts[v := (if v in counts then counts[v] else 0) + 1];
      i := i + 1;
    }
    assert values[..|values|] == values;
  }

  /** The counting loop followed by `counts.items()`. */
  method CountValues(values: seq<string>) returns (items: seq<(string, nat)>)
    ensures items == Tally(values)
  {
    var order, counts := CountInto(values);
    items := [];
    var j := 0;
    while j < |order|
      invariant 0 <= j <= |order|
      invariant items == Pairs(order[..j], values)
    {
      assert order[..j + 1][..j] == order[..j];
      items := items + [(order[j], counts[order[j]])];
      j := j + 1;
    }
    assert order[..|order|] == order;
  }
}
