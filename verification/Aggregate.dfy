/** Turning samples into statistics: one bucket for each epoch-aligned period. */
module Aggregate {
  import opened Percentiles
  import opened Sorting
  import opened SampleStore

  const NANOS_PER_MILLI: nat := 1_000_000

  /** A statistic a caller can ask for; pct is the rank of a pNN and -1 otherwise. */
  datatype Stat = Stat(name: string, pct: real)

  // ---- What a period's records amount to ----

  function SumOf(rs: seq<Sample>): real {
    if rs == [] then 0.0 else SumOf(rs[..|rs| - 1]) + rs[|rs| - 1].value
  }

  function CountOf(rs: seq<Sample>): real {
    if rs == [] then 0.0 else CountOf(rs[..|rs| - 1]) + rs[|rs| - 1].count
  }

  function MinReal(a: real, b: real): real {
    if b < a then b else a
  }

  function MaxReal(a: real, b: real): real {
    if b > a then b else a
  }

  function MinOf(rs: seq<Sample>): real
    requires rs != []
  {
    var last := rs[|rs| - 1];
    if |rs| == 1 then last.min else MinReal(MinOf(rs[..|rs| - 1]), last.min)
  }

  function MaxOf(rs: seq<Sample>): real
    requires rs != []
  {
    var last := rs[|rs| - 1];
    if |rs| == 1 then last.max else MaxReal(MaxOf(rs[..|rs| - 1]), last.max)
  }

  /** What a record contributes to a percentile: its value, or the mean of what it summarises. */
  function Representative(r: Sample): real {
    if r.count > 1.0 then r.value / r.count else r.value
  }

  function Representatives(rs: seq<Sample>): seq<real> {
    if rs == [] then [] else Representatives(rs[..|rs| - 1]) + [Representative(rs[|rs| - 1])]
  }

  /** One statistic of a nonempty period, from its records. */
  function Statistic(rs: seq<Sample>, st: Stat): real
    requires rs != []
  {
    if st.name == "Sum" then SumOf(rs)
    else if st.name == "SampleCount" then CountOf(rs)
    else if st.name == "Minimum" then MinOf(rs)
    else if st.name == "Maximum" then MaxOf(rs)
    else if st.name == "Average" then if CountOf(rs) == 0.0 then 0.0 else SumOf(rs) / CountOf(rs)
    else Percentile(Representatives(rs), st.pct)
  }

  /** One period's worth of samples. */
  class Bucket {
    const start: nat
    var values: seq<real>
    var sum: real
    var count: real
    var min: real
    var max: real
    var unit: string
    var seenAny: bool
    ghost var records: seq<Sample>

    ghost predicate Valid()
      reads this
    {
      && values == Representatives(records)
      && sum == SumOf(records)
      && count == CountOf(records)
      && (seenAny <==> records != [])
      && (seenAny ==> min == MinOf(records) && max == MaxOf(records))
    }

    constructor (at: nat)
      ensures Valid() && start == at && records == []
    {
      start := at;
      values := [];
      sum, count, min, max := 0.0, 0.0, 0.0, 0.0;
      unit := "";
      seenAny := false;
      records := [];
    }

    method Add(s: Sample)
      requires Valid()
      modifies this
      ensures Valid() && records == old(records) + [s]
      ensures unit == if s.unit != "" && old(unit) == "" then s.unit else old(unit)
    {
      ghost var after := records + [s];
      assert after[..|after| - 1] == records;
      if !seenAny {
        min, max, seenAny := s.min, s.max, true;
      } else {
        min := MinReal(min, s.min);
        max := MaxReal(max, s.max);
      }
      sum := sum + s.value;
      count := count + s.count;
      var rep := s.value;
      if s.count > 1.0 {
        rep := s.value / s.count;
      }
      values := values + [rep];
      if s.unit != "" && unit == "" {
        unit := s.unit;
      }
      records := after;
    }

    function Value(st: Stat): (v: real)
      requires Valid() && seenAny
      reads this
      ensures v == Statistic(records, st)
    {
      if st.name == "Sum" then sum
      else if st.name == "SampleCount" then count
      else if st.name == "Minimum" then min
      else if st.name == "Maximum" then max
      else if st.name == "Average" then if count == 0.0 then 0.0 else sum / count
      else Percentile(values, st.pct)
    }
  }

  // ---- Periods ----

  /** Rounds a time down to a period boundary measured from the epoch. */
  function AlignDown(t: nat, period: int): (r: nat)
    ensures period <= 0 ==> r == t
    ensures period > 0 ==> r <= t < r + period && r % period == 0
  {
    if period <= 0 then t
    else
      AlignDownFacts(t, period);
      (t / period) * period
  }

  lemma AlignDownFacts(t: nat, period: int)
    requires period > 0
    ensures 0 <= (t / period) * period <= t < (t / period) * period + period
    ensures ((t / period) * period) % period == 0
  {
    var q := t / period;
    assert t == period * q + t % period;
    assert period * q == q * period;
    MultipleMod(q, period);
  }

  lemma {:induction false} MultipleMod(q: nat, p: int)
    requires p > 0
    ensures (q * p) % p == 0
    decreases q
  {
    if q > 0 {
      MultipleMod(q - 1, p);
      assert q * p == (q - 1) * p + p;
      ModPlus((q - 1) * p, p);
    }
  }

  lemma ModPlus(a: int, p: int)
    requires p > 0
    ensures (a + p) % p == a % p
  {
    var q, r := a / p, a % p;
    assert a + p == p * (q + 1) + r;
    DivModUnique(a + p, p, q + 1, r);
  }

  lemma DivModUnique(a: int, p: int, q: int, r: int)
    requires p > 0 && a == p * q + r && 0 <= r < p
    ensures a / p == q && a % p == r
  {
    var q', r' := a / p, a % p;
    if q > q' {
      TimesApart(p, q, q');
    } else if q < q' {
      TimesApart(p, q', q);
    }
  }

  lemma TimesApart(p: int, q: int, r: int)
    requires p > 0 && q > r
    ensures p * q >= p * r + p
  {
    var k := q - r - 1;
    assert p * q == p * r + p + p * k;
    assert p * k >= 0;
  }

  /** The aligned start of the period a time falls in is the only multiple within a period below it. */
  lemma AlignDownUnique(t: nat, period: int, at: nat)
    requires period > 0 && at % period == 0 && at <= t < at + period
    ensures AlignDown(t, period) == at
  {
    var k := at / period;
    assert at == period * k;
    DivModUnique(t, period, k, t - at);
    assert (t / period) * period == k * period;
  }

  function TimeNs(s: TsSample): nat {
    s.at * NANOS_PER_MILLI
  }

  predicate InWindow(s: TsSample, from: nat, to: nat) {
    from <= TimeNs(s) < to
  }

  /** The in-window records whose aligned period starts at start, in the order they came. */
  function PeriodOf(samples: seq<TsSample>, from: nat, to: nat, period: int, start: nat): seq<Sample> {
    if samples == [] then []
    else
      var s := samples[|samples| - 1];
      var before := PeriodOf(samples[..|samples| - 1], from, to, period, start);
      if InWindow(s, from, to) && AlignDown(TimeNs(s), period) == start then before + [s.sample] else before
  }

  lemma PeriodStep(samples: seq<TsSample>, from: nat, to: nat, period: int, start: nat, i: nat)
    requires i < |samples|
    ensures PeriodOf(samples[..i + 1], from, to, period, start)
            == PeriodOf(samples[..i], from, to, period, start)
               + (if InWindow(samples[i], from, to) && AlignDown(TimeNs(samples[i]), period) == start
                  then [samples[i].sample] else [])
  {
    assert samples[..i + 1][..i] == samples[..i];
  }

  lemma PeriodStart(samples: seq<TsSample>, from: nat, to: nat, period: int)
    ensures forall start :: PeriodOf(samples[..0], from, to, period, start) == []
  {
  }

  predicate NatLess(a: nat, b: nat) {
    a < b
  }

  /** The buckets keyed so far hold the samples seen so far, each under its period's start. */
  ghost predicate Grouped(byStart: map<nat, Bucket>, seen: seq<TsSample>, from: nat, to: nat, period: int)
    reads byStart.Values
  {
    && (forall k :: k in byStart ==> byStart[k].Valid() && byStart[k].start == k)
    && (forall k :: k in byStart ==> byStart[k].records == PeriodOf(seen, from, to, period, k))
    && (forall k :: k in byStart <==> PeriodOf(seen, from, to, period, k) != [])
  }

  /** Files one in-window sample under its period, making the bucket on first sight. */
  method FileSample(byStart: map<nat, Bucket>, samples: seq<TsSample>, i: nat, from: nat, to: nat, period: int)
    returns (after: map<nat, Bucket>)
    requires i < |samples| && InWindow(samples[i], from, to)
    requires Grouped(byStart, samples[..i], from, to, period)
    modifies byStart.Values
    ensures forall k :: k in byStart ==> k in after && after[k] == byStart[k]
    ensures forall k :: k in after && k !in byStart ==> fresh(after[k])
    ensures Grouped(after, samples[..i + 1], from, to, period)
  {
    hide Representatives, SumOf, CountOf, MinOf, MaxOf, PeriodOf, AlignDown, InWindow, TimeNs;
    var s := samples[i];
    var start := AlignDown(TimeNs(s), period);
    forall k: nat {
      PeriodStep(samples, from, to, period, k, i);
    }
    after := byStart;
    if start !in after {
      var b := new Bucket(start);
      after := after[start := b];
    }
    after[start].Add(s.sample);
    assert forall k :: k in after && k != start ==> after[k] in byStart.Values;
  }

  method GroupSamples(samples: seq<TsSample>, from: nat, to: nat, period: int) returns (byStart: map<nat, Bucket>)
    ensures forall k :: k in byStart ==> fresh(byStart[k])
    ensures Grouped(byStart, samples, from, to, period)
  {
    hide Representatives, SumOf, CountOf, MinOf, MaxOf, PeriodOf, AlignDown, InWindow, TimeNs;
    PeriodStart(samples, from, to, period);
    byStart := map[];
    for i := 0 to |samples|
      invariant forall k :: k in byStart ==> fresh(byStart[k])
      invariant Grouped(byStart, samples[..i], from, to, period)
    {
      if InWindow(samples[i], from, to) {
        byStart := FileSample(byStart, samples, i, from, to, period);
      } else {
        forall k: nat {
          PeriodStep(samples, from, to, period, k, i);
        }
      }
    }
    assert samples[..|samples|] == samples;
  }

  /** Groups samples into aligned periods: one bucket for each period that holds any of the window's
      samples, holding exactly those, in order of start. */
  method Bucketize(samples: seq<TsSample>, from: nat, to: nat, period: int) returns (out: seq<Bucket>)
    ensures period <= 0 ==> out == []
    ensures forall i :: 0 <= i < |out| ==> fresh(out[i]) && out[i].Valid()
    ensures forall i, j :: 0 <= i < j < |out| ==> out[i].start < out[j].start
    ensures forall i :: 0 <= i < |out| ==>
              out[i].records == PeriodOf(samples, from, to, period, out[i].start) && out[i].records != []
    ensures period > 0 ==> forall start :: PeriodOf(samples, from, to, period, start) != [] ==>
              exists i :: 0 <= i < |out| && out[i].start == start
  {
    if period <= 0 || |samples| == 0 {
      return [];
    }
    hide PeriodOf, Bucket.Valid, Grouped;
    var byStart := GroupSamples(samples, from, to, period);
    var order := StartsInOrder(byStart.Keys);
    out := Collect(byStart, order);
    ListedAreGrouped(byStart, order, out, samples, from, to, period);
    EveryPeriodListed(byStart, order, out, samples, from, to, period);
  }

  method Collect(byStart: map<nat, Bucket>, order: seq<nat>) returns (out: seq<Bucket>)
    requires forall k :: k in order ==> k in byStart
    ensures |out| == |order| && forall i :: 0 <= i < |order| ==> out[i] == byStart[order[i]]
  {
    out := [];
    for i := 0 to |order|
      invariant |out| == i && forall k :: 0 <= k < i ==> out[k] == byStart[order[k]]
    {
      out := out + [byStart[order[i]]];
    }
  }

  lemma ListedAreGrouped(byStart: map<nat, Bucket>, order: seq<nat>, out: seq<Bucket>,
                         samples: seq<TsSample>, from: nat, to: nat, period: int)
    requires Grouped(byStart, samples, from, to, period)
    requires forall k :: k in order ==> k in byStart
    requires |out| == |order| && forall i :: 0 <= i < |order| ==> out[i] == byStart[order[i]]
    ensures forall i :: 0 <= i < |out| ==>
              out[i].Valid() && out[i].start == order[i] && out[i].records == PeriodOf(samples, from, to, period, order[i]) && out[i].records != []
  {
    hide PeriodOf, Bucket.Valid;
    assert forall i :: 0 <= i < |order| ==> order[i] in order;
  }

  lemma EveryPeriodListed(byStart: map<nat, Bucket>, order: seq<nat>, out: seq<Bucket>,
                          samples: seq<TsSample>, from: nat, to: nat, period: int)
    requires Grouped(byStart, samples, from, to, period)
    requires forall k :: k in byStart <==> k in order
    requires |out| == |order| && forall i :: 0 <= i < |order| ==> out[i] == byStart[order[i]]
    ensures forall start :: PeriodOf(samples, from, to, period, start) != [] ==>
              exists i :: 0 <= i < |out| && out[i].start == start
  {
    hide PeriodOf, Bucket.Valid;
    forall start | PeriodOf(samples, from, to, period, start) != []
      ensures exists i :: 0 <= i < |out| && out[i].start == start
    {
      var i :| 0 <= i < |order| && order[i] == start;
      assert out[i].start == start;
    }
  }

  method StartsInOrder(starts: set<nat>) returns (order: seq<nat>)
    ensures forall k :: k in starts <==> k in order
    ensures forall i, j :: 0 <= i < j < |order| ==> order[i] < order[j]
  {
    order := SortSet(starts, NatLess);
    assert forall k :: k in order <==> k in ToSet(order);
  }

  // ---- Bucketing conserves what was in the window ----

  datatype Totals = Totals(sum: real, count: real, records: nat)

  function Plus(a: Totals, b: Totals): Totals {
    Totals(a.sum + b.sum, a.count + b.count, a.records + b.records)
  }

  function TotalsOf(rs: seq<Sample>): Totals {
    Totals(SumOf(rs), CountOf(rs), |rs|)
  }

  /** The records of the samples in the window, whatever period they fall in. */
  function WindowRecords(samples: seq<TsSample>, from: nat, to: nat): seq<Sample> {
    if samples == [] then []
    else
      var s := samples[|samples| - 1];
      WindowRecords(samples[..|samples| - 1], from, to) + (if InWindow(s, from, to) then [s.sample] else [])
  }

  /** What the periods starting at the given times hold between them. */
  function PeriodTotals(starts: seq<nat>, samples: seq<TsSample>, from: nat, to: nat, period: int): Totals {
    if starts == [] then Totals(0.0, 0.0, 0)
    else Plus(PeriodTotals(starts[..|starts| - 1], samples, from, to, period),
              TotalsOf(PeriodOf(samples, from, to, period, starts[|starts| - 1])))
  }

  lemma TotalsStep(rs: seq<Sample>, r: Sample)
    ensures TotalsOf(rs + [r]) == Plus(TotalsOf(rs), TotalsOf([r]))
  {
    assert (rs + [r])[..|rs|] == rs;
    assert [r][..0] == [];
    assert SumOf([r]) == SumOf([r][..0]) + r.value;
    assert CountOf([r]) == CountOf([r][..0]) + r.count;
  }

  /** One more sample adds its record to one of the periods, if its own period is among them. */
  lemma PlusSwaps(a: Totals, b: Totals, c: Totals)
    ensures Plus(Plus(a, c), b) == Plus(Plus(a, b), c) == Plus(a, Plus(b, c))
  {
  }

  lemma {:induction false} PeriodTotalsStep(starts: seq<nat>, samples: seq<TsSample>, from: nat, to: nat, period: int)
    requires forall i, j :: 0 <= i < j < |starts| ==> starts[i] < starts[j]
    requires samples != []
    ensures var s := samples[|samples| - 1];
            var before := PeriodTotals(starts, samples[..|samples| - 1], from, to, period);
            PeriodTotals(starts, samples, from, to, period)
            == if InWindow(s, from, to) && AlignDown(TimeNs(s), period) in starts then Plus(before, TotalsOf([s.sample])) else before
    decreases |starts|
  {
    if starts != [] {
      hide SumOf, CountOf, AlignDown, InWindow, TimeNs;
      var s, k := samples[|samples| - 1], starts[|starts| - 1];
      PeriodTotalsStep(starts[..|starts| - 1], samples, from, to, period);
      TotalsStep(PeriodOf(samples[..|samples| - 1], from, to, period, k), s.sample);
      hide PeriodOf, TotalsOf;
      assert starts == starts[..|starts| - 1] + [k];
      PlusSwaps(PeriodTotals(starts[..|starts| - 1], samples[..|samples| - 1], from, to, period),
                TotalsOf(PeriodOf(samples[..|samples| - 1], from, to, period, k)), TotalsOf([s.sample]));
    }
  }

  lemma {:induction false} EmptyTotals(starts: seq<nat>, from: nat, to: nat, period: int)
    ensures PeriodTotals(starts, [], from, to, period) == Totals(0.0, 0.0, 0)
    decreases |starts|
  {
    if starts != [] {
      EmptyTotals(starts[..|starts| - 1], from, to, period);
    }
  }

  /** Over distinct periods that cover the window's samples, sums, counts and numbers of records add
      up to the window's: no sample is lost and none is counted twice. */
  lemma {:induction false} PeriodsConserve(starts: seq<nat>, samples: seq<TsSample>, from: nat, to: nat, period: int)
    requires forall i, j :: 0 <= i < j < |starts| ==> starts[i] < starts[j]
    requires forall s :: s in samples && InWindow(s, from, to) ==> AlignDown(TimeNs(s), period) in starts
    ensures PeriodTotals(starts, samples, from, to, period) == TotalsOf(WindowRecords(samples, from, to))
    decreases |samples|
  {
    if samples == [] {
      EmptyTotals(starts, from, to, period);
    } else {
      var s := samples[|samples| - 1];
      PeriodsConserve(starts, samples[..|samples| - 1], from, to, period);
      PeriodTotalsStep(starts, samples, from, to, period);
      var before := WindowRecords(samples[..|samples| - 1], from, to);
      TotalsStep(before, s.sample);
      assert s in samples;
      assert !InWindow(s, from, to) ==> before + [] == before;
    }
  }

  /** A window's sample is a record of the period its time falls in, so that period is not empty. */
  lemma {:induction false} SampleInItsPeriod(samples: seq<TsSample>, from: nat, to: nat, period: int, s: TsSample)
    requires s in samples && InWindow(s, from, to)
    ensures s.sample in PeriodOf(samples, from, to, period, AlignDown(TimeNs(s), period))
    decreases |samples|
  {
    if s != samples[|samples| - 1] {
      SampleInItsPeriod(samples[..|samples| - 1], from, to, period, s);
    }
  }

  function TotalOfBuckets(bs: seq<Bucket>): Totals
    reads bs
  {
    if bs == [] then Totals(0.0, 0.0, 0)
    else
      var b := bs[|bs| - 1];
      Plus(TotalOfBuckets(bs[..|bs| - 1]), Totals(b.sum, b.count, |b.values|))
  }

  ghost function Starts(bs: seq<Bucket>): (r: seq<nat>)
    ensures |r| == |bs| && forall i :: 0 <= i < |bs| ==> r[i] == bs[i].start
  {
    seq(|bs|, i requires 0 <= i < |bs| => bs[i].start)
  }

  lemma {:induction false} RepresentativeEach(rs: seq<Sample>)
    ensures |Representatives(rs)| == |rs|
    decreases |rs|
  {
    if rs != [] {
      RepresentativeEach(rs[..|rs| - 1]);
    }
  }

  lemma BucketTotal(b: Bucket, samples: seq<TsSample>, from: nat, to: nat, period: int)
    requires b.Valid() && b.records == PeriodOf(samples, from, to, period, b.start)
    ensures Totals(b.sum, b.count, |b.values|) == TotalsOf(PeriodOf(samples, from, to, period, b.start))
  {
    RepresentativeEach(b.records);
    hide PeriodOf, SumOf, CountOf, Representatives;
  }

  lemma {:induction false} BucketTotals(bs: seq<Bucket>, samples: seq<TsSample>, from: nat, to: nat, period: int)
    requires forall b :: b in bs ==> b.Valid() && b.records == PeriodOf(samples, from, to, period, b.start)
    ensures TotalOfBuckets(bs) == PeriodTotals(Starts(bs), samples, from, to, period)
    decreases |bs|
  {
    hide PeriodOf, TotalsOf, Plus;
    if bs != [] {
      var b := bs[|bs| - 1];
      assert b in bs;
      BucketTotal(b, samples, from, to, period);
      BucketTotals(bs[..|bs| - 1], samples, from, to, period);
      assert Starts(bs)[..|bs| - 1] == Starts(bs[..|bs| - 1]);
    }
  }

  /** What Bucketize returns adds up to the samples of the window. */
  lemma BucketsConserve(bs: seq<Bucket>, samples: seq<TsSample>, from: nat, to: nat, period: int)
    requires forall b :: b in bs ==> b.Valid() && b.records == PeriodOf(samples, from, to, period, b.start)
    requires forall i, j :: 0 <= i < j < |bs| ==> bs[i].start < bs[j].start
    requires forall start :: PeriodOf(samples, from, to, period, start) != [] ==>
               exists i :: 0 <= i < |bs| && bs[i].start == start
    ensures TotalOfBuckets(bs) == TotalsOf(WindowRecords(samples, from, to))
  {
    BucketTotals(bs, samples, from, to, period);
    forall s | s in samples && InWindow(s, from, to)
      ensures AlignDown(TimeNs(s), period) in Starts(bs)
    {
      SampleInItsPeriod(samples, from, to, period, s);
      var i :| 0 <= i < |bs| && bs[i].start == AlignDown(TimeNs(s), period);
      assert Starts(bs)[i] == bs[i].start;
    }
    PeriodsConserve(Starts(bs), samples, from, to, period);
  }

  // ---- Averages ----

  /** A record whose mean lies between its own extremes. */
  predicate Bracketed(r: Sample) {
    r.count > 0.0 && r.min * r.count <= r.value <= r.max * r.count
  }

  lemma {:induction false} BracketedSums(rs: seq<Sample>)
    requires rs != [] && forall r :: r in rs ==> Bracketed(r)
    ensures CountOf(rs) > 0.0
    ensures MinOf(rs) * CountOf(rs) <= SumOf(rs) <= MaxOf(rs) * CountOf(rs)
    decreases |rs|
  {
    var r := rs[|rs| - 1];
    assert r in rs;
    if |rs| == 1 {
      assert rs[..0] == [];
    } else {
      var init := rs[..|rs| - 1];
      BracketedSums(init);
      var c := CountOf(init);
      Widen(MinOf(rs), MinOf(init), c, MaxOf(init), MaxOf(rs));
      Widen(MinOf(rs), r.min, r.count, r.max, MaxOf(rs));
      assert MinOf(rs) * (c + r.count) == MinOf(rs) * c + MinOf(rs) * r.count;
      assert MaxOf(rs) * (c + r.count) == MaxOf(rs) * c + MaxOf(rs) * r.count;
    }
  }

  lemma Widen(lo: real, a: real, c: real, b: real, hi: real)
    requires lo <= a && b <= hi && c >= 0.0
    ensures lo * c <= a * c && b * c <= hi * c
  {
    TimesMonotone(lo, a, c);
    TimesMonotone(b, hi, c);
  }

  lemma Quotient(lo: real, sum: real, c: real, hi: real)
    requires c > 0.0
    ensures lo * c <= sum <= hi * c <==> lo <= sum / c <= hi
  {
    var q := sum / c;
    assert q * c == sum;
    if lo <= q <= hi {
      Widen(lo, q, c, q, hi);
    }
    if lo > q {
      assert (lo - q) * c > 0.0;
      assert lo * c == q * c + (lo - q) * c;
    }
    if q > hi {
      assert (q - hi) * c > 0.0;
      assert q * c == hi * c + (q - hi) * c;
    }
  }

  /** When every record's mean is bracketed by its extremes, so is the period's average by its own. */
  lemma AverageBracketed(rs: seq<Sample>)
    requires rs != [] && forall r :: r in rs ==> Bracketed(r)
    ensures MinOf(rs) <= Statistic(rs, Stat("Average", -1.0)) <= MaxOf(rs)
  {
    BracketedSums(rs);
    Quotient(MinOf(rs), SumOf(rs), CountOf(rs), MaxOf(rs));
  }

  /** What PutMetricData checks of a summary: a positive count, and extremes in order. */
  predicate AcceptedSummary(count: real, minimum: real, maximum: real) {
    count > 0.0 && minimum <= maximum
  }

  /** Those checks do not bracket the mean: alone in its period, an accepted summary's average lies
      between the reported extremes exactly when its sum does once scaled by its count. */
  lemma LoneSummaryAverage(sum: real, count: real, minimum: real, maximum: real, unit: string)
    requires AcceptedSummary(count, minimum, maximum)
    ensures var rs := [Sample(sum, count, minimum, maximum, unit)];
            MinOf(rs) <= Statistic(rs, Stat("Average", -1.0)) <= MaxOf(rs)
            <==> minimum * count <= sum <= maximum * count
  {
    var rs := [Sample(sum, count, minimum, maximum, unit)];
    assert rs[..0] == [];
    assert CountOf(rs) == count && SumOf(rs) == sum;
    Quotient(minimum, sum, count, maximum);
  }

  lemma SummaryAverageCanEscape()
    ensures AcceptedSummary(1.0, 0.0, 1.0)
    ensures var rs := [Sample(5.0, 1.0, 0.0, 1.0, "")];
            Statistic(rs, Stat("Average", -1.0)) > MaxOf(rs)
  {
    var rs := [Sample(5.0, 1.0, 0.0, 1.0, "")];
    assert rs[..0] == [];
    assert CountOf(rs) == 1.0 && SumOf(rs) == 5.0;
  }

  // ---- What each statistic says ----

  lemma StatisticsByName(rs: seq<Sample>, pct: real)
    requires rs != []
    ensures Statistic(rs, Stat("Sum", pct)) == SumOf(rs) && Statistic(rs, Stat("SampleCount", pct)) == CountOf(rs)
    ensures Statistic(rs, Stat("Minimum", pct)) == MinOf(rs) && Statistic(rs, Stat("Maximum", pct)) == MaxOf(rs)
    ensures Statistic(rs, Stat("Average", pct)) == if CountOf(rs) == 0.0 then 0.0 else SumOf(rs) / CountOf(rs)
    ensures Statistic(rs, Stat("", pct)) == Percentile(Representatives(rs), pct)
  {
    hide SumOf, CountOf, MinOf, MaxOf, Percentile, Representatives;
    assert |"Sum"| == 3 && |"SampleCount"| == 11 && |"Minimum"| == |"Maximum"| == |"Average"| == 7;
    assert "Minimum"[1] == 'i' && "Maximum"[1] == 'a' && "Average"[1] == 'v';
  }

  /** The minimum is the least of the records' minima, and the maximum the greatest of their maxima. */
  lemma ExtremesAreAttained(rs: seq<Sample>, pct: real)
    requires rs != []
    ensures var least := Statistic(rs, Stat("Minimum", pct));
            (exists r :: r in rs && r.min == least) && forall r :: r in rs ==> least <= r.min
    ensures var greatest := Statistic(rs, Stat("Maximum", pct));
            (exists r :: r in rs && r.max == greatest) && forall r :: r in rs ==> r.max <= greatest
  {
    StatisticsByName(rs, pct);
    hide Statistic;
    MinIsLeast(rs);
    MaxIsGreatest(rs);
  }

  lemma {:induction false} MinIsLeast(rs: seq<Sample>)
    requires rs != []
    ensures (exists r :: r in rs && r.min == MinOf(rs)) && forall r :: r in rs ==> MinOf(rs) <= r.min
    decreases |rs|
  {
    var init, last := rs[..|rs| - 1], rs[|rs| - 1];
    assert rs == init + [last] && last in rs;
    if init != [] {
      MinIsLeast(init);
      var r :| r in init && r.min == MinOf(init);
      assert r in rs;
    }
  }

  lemma {:induction false} MaxIsGreatest(rs: seq<Sample>)
    requires rs != []
    ensures (exists r :: r in rs && r.max == MaxOf(rs)) && forall r :: r in rs ==> r.max <= MaxOf(rs)
    decreases |rs|
  {
    var init, last := rs[..|rs| - 1], rs[|rs| - 1];
    assert rs == init + [last] && last in rs;
    if init != [] {
      MaxIsGreatest(init);
      var r :| r in init && r.max == MaxOf(init);
      assert r in rs;
    }
  }

  /** Over two stretches together sums and counts add up. */
  lemma SumsAddUp(rs: seq<Sample>, qs: seq<Sample>, pct: real)
    requires rs != [] && qs != []
    ensures Statistic(rs + qs, Stat("Sum", pct)) == Statistic(rs, Stat("Sum", pct)) + Statistic(qs, Stat("Sum", pct))
    ensures Statistic(rs + qs, Stat("SampleCount", pct)) == Statistic(rs, Stat("SampleCount", pct)) + Statistic(qs, Stat("SampleCount", pct))
  {
    StatisticsByName(rs, pct);
    StatisticsByName(qs, pct);
    StatisticsByName(rs + qs, pct);
    hide *;
    TotalsAddUp(rs, qs);
  }

  /** The average times the count is the sum. */
  lemma AverageScales(rs: seq<Sample>, pct: real)
    requires rs != [] && Statistic(rs, Stat("SampleCount", pct)) != 0.0
    ensures Statistic(rs, Stat("Average", pct)) * Statistic(rs, Stat("SampleCount", pct)) == Statistic(rs, Stat("Sum", pct))
  {
    StatisticsByName(rs, pct);
    hide *;
    TimesBack(SumOf(rs), CountOf(rs));
  }

  lemma TimesBack(sum: real, c: real)
    requires c != 0.0
    ensures sum / c * c == sum
  {
  }

  lemma {:induction false} TotalsAddUp(rs: seq<Sample>, qs: seq<Sample>)
    ensures SumOf(rs + qs) == SumOf(rs) + SumOf(qs) && CountOf(rs + qs) == CountOf(rs) + CountOf(qs)
    decreases |qs|
  {
    if qs == [] {
      assert rs + qs == rs;
    } else {
      TotalsAddUp(rs, qs[..|qs| - 1]);
      assert (rs + qs)[..|rs + qs| - 1] == rs + qs[..|qs| - 1];
    }
  }

  /** A value put alone in its period is each of its statistics but the count, which is one. */
  lemma LoneValue(d: Datum, pct: real)
    requires d.stats.Single?
    ensures var rs, v := [SampleOf(d)], d.stats.value;
            && Statistic(rs, Stat("Sum", pct)) == Statistic(rs, Stat("Average", pct)) == Statistic(rs, Stat("Minimum", pct)) == v
            && Statistic(rs, Stat("Maximum", pct)) == Statistic(rs, Stat("", pct)) == v && Statistic(rs, Stat("SampleCount", pct)) == 1.0
  {
    var rs := [SampleOf(d)];
    StatisticsByName(rs, pct);
    hide Statistic;
    LoneTotals(SampleOf(d));
    PercentileAtWholeRank([d.stats.value], pct, 0);
  }

  /** A summary put alone in its period has the sum, the count and the extremes it was sent with, and its mean,
      where it stands for more than one, for every percentile. */
  lemma LoneSummary(d: Datum, pct: real)
    requires d.stats.Summary? && d.stats.count > 0.0
    ensures var rs := [SampleOf(d)];
            && Statistic(rs, Stat("Sum", pct)) == d.stats.sum && Statistic(rs, Stat("SampleCount", pct)) == d.stats.count
            && Statistic(rs, Stat("Minimum", pct)) == d.stats.minimum && Statistic(rs, Stat("Maximum", pct)) == d.stats.maximum
            && Statistic(rs, Stat("Average", pct)) == d.stats.sum / d.stats.count
            && (d.stats.count > 1.0 ==> Statistic(rs, Stat("", pct)) == d.stats.sum / d.stats.count)
  {
    var rs := [SampleOf(d)];
    StatisticsByName(rs, pct);
    hide Statistic;
    LoneTotals(SampleOf(d));
    if d.stats.count > 1.0 {
      PercentileAtWholeRank([d.stats.sum / d.stats.count], pct, 0);
    }
  }

  lemma LoneTotals(r: Sample)
    ensures SumOf([r]) == r.value && CountOf([r]) == r.count && MinOf([r]) == r.min && MaxOf([r]) == r.max
    ensures Representatives([r]) == [Representative(r)]
  {
    assert [r][..0] == [];
  }
}
