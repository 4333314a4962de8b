/** The interpolated order statistic pNN is answered with. */
module Percentiles {

  ghost predicate Nondecreasing(s: seq<real>) {
    forall i, j :: 0 <= i <= j < |s| ==> s[i] <= s[j]
  }

  function InsertReal(x: real, s: seq<real>): (r: seq<real>)
    ensures |r| == |s| + 1
  {
    if s == [] then [x]
    else if x <= s[0] then [x] + s
    else [s[0]] + InsertReal(x, s[1..])
  }

  /** sort.Float64s of a copy. */
  function Sorted(v: seq<real>): (r: seq<real>)
    ensures |r| == |v|
  {
    if v == [] then [] else InsertReal(v[0], Sorted(v[1..]))
  }

  lemma {:induction false} InsertMultiset(x: real, s: seq<real>)
    ensures multiset(InsertReal(x, s)) == multiset{x} + multiset(s)
    decreases |s|
  {
    if s != [] {
      assert s == [s[0]] + s[1..];
      if x > s[0] {
        InsertMultiset(x, s[1..]);
      }
    }
  }

  lemma {:induction false} SortedMultiset(v: seq<real>)
    ensures multiset(Sorted(v)) == multiset(v)
    decreases |v|
  {
    if v != [] {
      assert v == [v[0]] + v[1..];
      SortedMultiset(v[1..]);
      InsertMultiset(v[0], Sorted(v[1..]));
    }
  }

  /** Sorting keeps the values. */
  lemma SortedMembers(v: seq<real>)
    ensures forall x :: x in Sorted(v) <==> x in v
  {
    SortedMultiset(v);
    forall x
      ensures x in Sorted(v) <==> x in v
    {
      assert x in Sorted(v) <==> x in multiset(Sorted(v));
      assert x in v <==> x in multiset(v);
    }
  }

  /** Putting x below its place keeps the order. */
  lemma {:induction false} InsertNondecreasing(x: real, s: seq<real>)
    requires Nondecreasing(s)
    ensures Nondecreasing(InsertReal(x, s))
    ensures InsertReal(x, s)[0] == if s == [] || x <= s[0] then x else s[0]
    decreases |s|
  {
    if s != [] && x > s[0] {
      InsertNondecreasing(x, s[1..]);
      ConsNondecreasing(s[0], InsertReal(x, s[1..]));
    }
  }

  lemma ConsNondecreasing(x: real, s: seq<real>)
    requires Nondecreasing(s) && (s != [] ==> x <= s[0])
    ensures Nondecreasing([x] + s)
  {
  }

  lemma {:induction false} SortedNondecreasing(v: seq<real>)
    ensures Nondecreasing(Sorted(v))
    decreases |v|
  {
    if v != [] {
      SortedNondecreasing(v[1..]);
      InsertNondecreasing(v[0], Sorted(v[1..]));
    }
  }

  lemma TailMultiset(s: seq<real>, t: seq<real>)
    requires s != [] && t != [] && s[0] == t[0] && multiset(s) == multiset(t)
    ensures multiset(s[1..]) == multiset(t[1..])
  {
    assert s == [s[0]] + s[1..] && t == [t[0]] + t[1..];
    assert multiset(s) == multiset{s[0]} + multiset(s[1..]);
    assert multiset(t) == multiset{t[0]} + multiset(t[1..]);
    assert multiset(s[1..]) == multiset(s) - multiset{s[0]};
  }

  lemma SameLeast(s: seq<real>, t: seq<real>)
    requires Nondecreasing(s) && Nondecreasing(t) && multiset(s) == multiset(t)
    ensures s == [] <==> t == []
    ensures s != [] ==> s[0] == t[0]
  {
    assert s != [] ==> s[0] in multiset(s);
    assert t != [] ==> t[0] in multiset(t);
    if s != [] {
      LeastOf(t, s[0]);
      LeastOf(s, t[0]);
    }
  }

  lemma {:induction false} SortedUnique(s: seq<real>, t: seq<real>)
    requires Nondecreasing(s) && Nondecreasing(t) && multiset(s) == multiset(t)
    ensures s == t
    decreases |s|
  {
    SameLeast(s, t);
    if s != [] {
      TailMultiset(s, t);
      SortedUnique(s[1..], t[1..]);
      assert s == [s[0]] + s[1..] && t == [t[0]] + t[1..];
    }
  }

  lemma LeastOf(s: seq<real>, x: real)
    requires Nondecreasing(s) && x in multiset(s)
    ensures s != [] && s[0] <= x
  {
    assert x in s;
  }

  function Rank(n: nat, pct: real): real
    requires n > 0
  {
    pct / 100.0 * (n - 1) as real
  }

  function Ceil(r: real): int {
    -((-r).Floor)
  }

  /** A rank strictly inside the scale indexes within the values, both ways it is rounded. */
  lemma RankInBounds(n: nat, pct: real)
    requires n > 0 && 0.0 < pct < 100.0
    ensures 0.0 <= Rank(n, pct) <= (n - 1) as real
    ensures 0 <= Rank(n, pct).Floor <= Ceil(Rank(n, pct)) < n
  {
    var f, m := pct / 100.0, (n - 1) as real;
    Scaled(f, m);
    assert Rank(n, pct) == f * m;
  }

  function Percentile(values: seq<real>, pct: real): real {
    if |values| == 0 then 0.0
    else
      var sorted := Sorted(values);
      if pct <= 0.0 then sorted[0]
      else if pct >= 100.0 then sorted[|sorted| - 1]
      else
        RankInBounds(|sorted|, pct);
        var rank := Rank(|sorted|, pct);
        var lo, hi := rank.Floor, Ceil(rank);
        if lo == hi then sorted[lo]
        else
          var frac := rank - lo as real;
          sorted[lo] + frac * (sorted[hi] - sorted[lo])
  }

  /** The line through the sorted values at whole ranks. */
  ghost function At(s: seq<real>, rank: real): real
    requires s != [] && 0.0 <= rank <= (|s| - 1) as real
  {
    var lo := rank.Floor;
    if rank == lo as real then s[lo] else s[lo] + (rank - lo as real) * (s[lo + 1] - s[lo])
  }

  /** What rank a percentile is read at, the ends included. */
  ghost function RankOf(n: nat, pct: real): (r: real)
    requires n > 0
    ensures 0.0 <= r <= (n - 1) as real
  {
    if pct <= 0.0 then 0.0
    else if pct >= 100.0 then (n - 1) as real
    else
      RankInBounds(n, pct);
      Rank(n, pct)
  }

  lemma CeilIs(r: real)
    ensures Ceil(r) == if r == r.Floor as real then r.Floor else r.Floor + 1
  {
  }

  lemma PercentileIsAt(values: seq<real>, pct: real)
    requires values != []
    ensures Percentile(values, pct) == At(Sorted(values), RankOf(|values|, pct))
  {
    hide Sorted;
    if 0.0 < pct < 100.0 {
      RankInBounds(|values|, pct);
      CeilIs(Rank(|values|, pct));
    }
  }

  lemma TimesMonotone(a: real, b: real, c: real)
    requires a <= b && c >= 0.0
    ensures a * c <= b * c
  {
    assert (b - a) * c >= 0.0;
  }

  lemma Scaled(f: real, m: real)
    requires 0.0 <= f <= 1.0 && m >= 0.0
    ensures 0.0 <= f * m <= m
  {
    TimesMonotone(0.0, f, m);
    TimesMonotone(f, 1.0, m);
    assert 0.0 * m == 0.0 && 1.0 * m == m;
  }

  lemma AtBetween(s: seq<real>, rank: real)
    requires s != [] && Nondecreasing(s) && 0.0 <= rank <= (|s| - 1) as real
    ensures var lo := rank.Floor;
            s[lo] <= At(s, rank) && (rank != lo as real ==> At(s, rank) <= s[lo + 1])
  {
    var lo := rank.Floor;
    if rank != lo as real {
      var frac, gap := rank - lo as real, s[lo + 1] - s[lo];
      Scaled(frac, gap);
      assert At(s, rank) == s[lo] + frac * gap;
    }
  }

  lemma AtMonotone(s: seq<real>, r: real, q: real)
    requires s != [] && Nondecreasing(s) && 0.0 <= r <= q <= (|s| - 1) as real
    ensures At(s, r) <= At(s, q)
  {
    AtBetween(s, r);
    AtBetween(s, q);
    var lo := r.Floor;
    if q.Floor == lo {
      if r != lo as real {
        var a, b, gap := r - lo as real, q - lo as real, s[lo + 1] - s[lo];
        TimesMonotone(a, b, gap);
        assert At(s, r) == s[lo] + a * gap && At(s, q) == s[lo] + b * gap;
      }
    }
  }

  lemma RankOfMonotone(n: nat, p: real, q: real)
    requires n > 0 && p <= q
    ensures RankOf(n, p) <= RankOf(n, q)
  {
    if 0.0 < p && q < 100.0 {
      RankMonotone(n, p, q);
    }
  }

  lemma RankMonotone(n: nat, p: real, q: real)
    requires n > 0 && p <= q
    ensures Rank(n, p) <= Rank(n, q)
  {
    var a, b, m := p / 100.0, q / 100.0, (n - 1) as real;
    TimesMonotone(a, b, m);
    assert Rank(n, p) == a * m;
    assert Rank(n, q) == b * m;
  }

  /** A higher percentile is never a smaller value. */
  lemma PercentileMonotone(values: seq<real>, p: real, q: real)
    requires p <= q
    ensures Percentile(values, p) <= Percentile(values, q)
  {
    if values != [] {
      SortedNondecreasing(values);
      PercentileIsAt(values, p);
      PercentileIsAt(values, q);
      RankOfMonotone(|values|, p, q);
      AtMonotone(Sorted(values), RankOf(|values|, p), RankOf(|values|, q));
    }
  }

  /** A percentile lies within any bounds on the values, and its ends are values. */
  lemma PercentileBounded(values: seq<real>, pct: real, lo: real, hi: real)
    requires values != [] && forall v :: v in values ==> lo <= v <= hi
    ensures lo <= Percentile(values, pct) <= hi
    ensures Percentile(values, 0.0) in values && Percentile(values, 100.0) in values
  {
    var s := Sorted(values);
    SortedNondecreasing(values);
    SortedMembers(values);
    assert forall i :: 0 <= i < |s| ==> s[i] in s;
    PercentileIsAt(values, pct);
    AtBetween(s, RankOf(|values|, pct));
  }

  /** Only the values and how often each occurs matter, not the order they arrived in. */
  lemma PercentileOfMultiset(v: seq<real>, w: seq<real>, pct: real)
    requires multiset(v) == multiset(w)
    ensures Percentile(v, pct) == Percentile(w, pct)
  {
    hide Sorted, At;
    SortedNondecreasing(v);
    SortedNondecreasing(w);
    SortedMultiset(v);
    SortedMultiset(w);
    SortedUnique(Sorted(v), Sorted(w));
    assert |v| == |Sorted(v)| == |Sorted(w)| == |w|;
    if v != [] {
      hide Percentile;
      PercentileIsAt(v, pct);
      PercentileIsAt(w, pct);
    }
  }

  function CountBelow(v: seq<real>, x: real): nat {
    if v == [] then 0 else (if v[0] < x then 1 else 0) + CountBelow(v[1..], x)
  }

  function CountAtMost(v: seq<real>, x: real): nat {
    if v == [] then 0 else (if v[0] <= x then 1 else 0) + CountAtMost(v[1..], x)
  }

  lemma {:induction false} InsertCounts(y: real, s: seq<real>, x: real)
    ensures CountBelow(InsertReal(y, s), x) == (if y < x then 1 else 0) + CountBelow(s, x)
    ensures CountAtMost(InsertReal(y, s), x) == (if y <= x then 1 else 0) + CountAtMost(s, x)
    decreases |s|
  {
    var r := InsertReal(y, s);
    if s == [] {
    } else if y <= s[0] {
      assert r[1..] == s;
    } else {
      InsertCounts(y, s[1..], x);
      assert r[1..] == InsertReal(y, s[1..]);
    }
  }

  lemma {:induction false} SortedCounts(v: seq<real>, x: real)
    ensures CountBelow(Sorted(v), x) == CountBelow(v, x)
    ensures CountAtMost(Sorted(v), x) == CountAtMost(v, x)
    decreases |v|
  {
    if v != [] {
      SortedCounts(v[1..], x);
      InsertCounts(v[0], Sorted(v[1..]), x);
    }
  }

  lemma {:induction false} NondecreasingCounts(s: seq<real>, k: nat)
    requires Nondecreasing(s) && k < |s|
    ensures CountBelow(s, s[k]) <= k < CountAtMost(s, s[k])
    decreases |s|
  {
    if k == 0 {
      NoneBelow(s, s[0]);
    } else {
      NondecreasingCounts(s[1..], k - 1);
    }
  }

  lemma {:induction false} NoneBelow(s: seq<real>, x: real)
    requires forall i :: 0 <= i < |s| ==> x <= s[i]
    ensures CountBelow(s, x) == 0
    decreases |s|
  {
    if s != [] {
      NoneBelow(s[1..], x);
    }
  }

  /** One of the values, with at most k values below it and more than k at or below it. */
  ghost predicate IsKth(values: seq<real>, k: nat, x: real) {
    x in values && CountBelow(values, x) <= k < CountAtMost(values, x)
  }

  lemma KthOfSorted(values: seq<real>, k: nat)
    requires k < |values|
    ensures IsKth(values, k, Sorted(values)[k])
  {
    var s := Sorted(values);
    SortedNondecreasing(values);
    NondecreasingCounts(s, k);
    SortedCounts(values, s[k]);
    SortedMembers(values);
  }

  /** There is only one k-th value. */
  lemma KthUnique(values: seq<real>, k: nat, x: real, y: real)
    requires IsKth(values, k, x) && IsKth(values, k, y)
    ensures x == y
  {
    if x < y {
      BelowMeansAtMost(values, x, y);
    } else if y < x {
      BelowMeansAtMost(values, y, x);
    }
  }

  lemma {:induction false} BelowMeansAtMost(v: seq<real>, x: real, y: real)
    requires x < y
    ensures CountAtMost(v, x) <= CountBelow(v, y)
    decreases |v|
  {
    if v != [] {
      BelowMeansAtMost(v[1..], x, y);
    }
  }

  /** What rank a percentile on the scale of 100 has among n values. */
  lemma RankIs(n: nat, pct: real, rank: real)
    requires n > 1 && pct * (n - 1) as real == 100.0 * rank && 0.0 <= rank <= (n - 1) as real
    ensures 0.0 <= pct <= 100.0 && RankOf(n, pct) == rank
  {
    var m := (n - 1) as real;
    WithinScale(pct, m, 100.0 * rank);
    assert pct / 100.0 * m == pct * m / 100.0;
  }

  lemma WithinScale(x: real, m: real, y: real)
    requires m > 0.0 && x * m == y && 0.0 <= y <= 100.0 * m
    ensures 0.0 <= x <= 100.0
  {
    assert x * m - 100.0 * m == (x - 100.0) * m;
  }

  /** Where pct falls on k whole steps of 100 / (n - 1) the answer is the k-th value. */
  lemma PercentileAtWholeRank(values: seq<real>, pct: real, k: nat)
    requires k < |values| && pct * (|values| - 1) as real == 100.0 * k as real
    ensures IsKth(values, k, Percentile(values, pct))
  {
    hide *;
    KthOfSorted(values, k);
    PercentileIsAt(values, pct);
    if |values| > 1 {
      RankIs(|values|, pct, k as real);
    } else {
      RankOfOne(pct);
    }
    AtWhole(Sorted(values), k);
  }

  lemma RankOfOne(pct: real)
    ensures RankOf(1, pct) == 0.0
  {
  }

  lemma AtWhole(s: seq<real>, k: nat)
    requires k < |s|
    ensures At(s, k as real) == s[k]
  {
  }

  /** Where it falls a fraction f past k steps the answer is that fraction of the way from the k-th value to the next. */
  lemma PercentileBetweenRanks(values: seq<real>, pct: real, k: nat, f: real, a: real, b: real)
    requires k + 1 < |values| && 0.0 < f < 1.0 && pct * (|values| - 1) as real == 100.0 * (k as real + f)
    requires IsKth(values, k, a) && IsKth(values, k + 1, b)
    ensures Percentile(values, pct) == (1.0 - f) * a + f * b
  {
    hide *;
    PercentileIsAt(values, pct);
    RankIs(|values|, pct, k as real + f);
    KthOfSorted(values, k);
    KthOfSorted(values, k + 1);
    KthUnique(values, k, a, Sorted(values)[k]);
    KthUnique(values, k + 1, b, Sorted(values)[k + 1]);
    AtPastWhole(Sorted(values), k, f);
    Weighted(a, b, f);
  }

  lemma AtPastWhole(s: seq<real>, k: nat, f: real)
    requires k + 1 < |s| && 0.0 < f < 1.0
    ensures At(s, k as real + f) == s[k] + f * (s[k + 1] - s[k])
  {
    var rank := k as real + f;
    assert rank.Floor == k;
    assert rank - k as real == f;
  }

  lemma Weighted(a: real, b: real, f: real)
    ensures a + f * (b - a) == (1.0 - f) * a + f * b
  {
  }

  /** The median of three values is the one in the middle. */
  lemma MedianOfThree()
    ensures Percentile([3.0, 1.0, 2.0], 50.0) == 2.0
  {
    var values := [3.0, 1.0, 2.0];
    PercentileAtWholeRank(values, 50.0, 1);
    assert values[1..] == [1.0, 2.0] && values[1..][1..] == [2.0];
    KthUnique(values, 1, Percentile(values, 50.0), 2.0);
  }
}
