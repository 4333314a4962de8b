/** What state an alarm should be in: M breaching datapoints out of the last N complete periods. */
module Evaluate {
  import opened Sorting
  import opened SeriesKey
  import opened SampleKey
  import opened SampleStore
  import opened Aggregate
  import opened Decimal

  const NANOS_PER_SECOND: nat := 1_000_000_000

  datatype State = Ok | InAlarm | InsufficientData

  /** What an alarm examines, and the rule it applies. Period is in seconds. */
  datatype Rule = Rule(
    series: Series,
    unit: string,
    stat: Stat,
    period: nat,
    evaluationPeriods: nat,
    datapointsToAlarm: int,
    comparison: string,
    threshold: real,
    treatMissing: string)

  datatype Verdict = Good | Breaching | Missing

  datatype Wanted = Stay | Move(to: State)

  function Breaches(op: string, value: real, threshold: real): bool {
    if op == "GreaterThanOrEqualToThreshold" then value >= threshold
    else if op == "GreaterThanThreshold" then value > threshold
    else if op == "LessThanThreshold" then value < threshold
    else if op == "LessThanOrEqualToThreshold" then value <= threshold
    else false
  }

  function Nanos(r: Rule): nat {
    r.period * NANOS_PER_SECOND
  }

  /** The start of the period now falls in, where the examined window ends. */
  function WindowEnd(r: Rule, nowNs: nat): nat {
    AlignDown(nowNs, Nanos(r))
  }

  // ---- The rule, stated over what is stored ----

  /** The samples of the alarm's series and unit in a half-open stretch of time. */
  ghost function InStretch(log: Log, r: Rule, lo: int, hi: int): set<When> {
    set id | id in log && id.series == r.series && lo <= id.ms * NANOS_PER_MILLI < hi
             && (r.unit == "" || log[id].unit == r.unit) :: When(id.ms, id.num)
  }

  ghost function Records(log: Log, s: Series, ws: seq<When>): seq<Sample>
    requires forall w :: w in ws ==> IdOf(s, w) in log
  {
    if ws == [] then [] else Records(log, s, ws[..|ws| - 1]) + [log[IdOf(s, ws[|ws| - 1])]]
  }

  lemma {:induction false} RecordsEach(log: Log, s: Series, ws: seq<When>)
    requires forall w :: w in ws ==> IdOf(s, w) in log
    ensures |Records(log, s, ws)| == |ws|
    decreases |ws|
  {
    if ws != [] {
      RecordsEach(log, s, ws[..|ws| - 1]);
    }
  }

  lemma StretchInLog(log: Log, r: Rule, lo: int, hi: int)
    ensures forall w :: w in InOrder(InStretch(log, r, lo, hi)) ==> IdOf(r.series, w) in log
    ensures InStretch(log, r, lo, hi) == {} <==> InOrder(InStretch(log, r, lo, hi)) == []
  {
    var ws := InOrder(InStretch(log, r, lo, hi));
    assert ws != [] ==> ws[0] in InStretch(log, r, lo, hi);
  }

  /** The records of a stretch, in (time, arrival) order. */
  ghost function StretchRecords(log: Log, r: Rule, lo: int, hi: int): seq<Sample> {
    StretchInLog(log, r, lo, hi);
    Records(log, r.series, InOrder(InStretch(log, r, lo, hi)))
  }

  /** A period no sample fell in is missing; any other is judged by its statistic. */
  ghost function VerdictOf(log: Log, r: Rule, lo: int, hi: int): Verdict {
    StretchInLog(log, r, lo, hi);
    RecordsEach(log, r.series, InOrder(InStretch(log, r, lo, hi)));
    if InStretch(log, r, lo, hi) == {} then Missing
    else if Breaches(r.comparison, Statistic(StretchRecords(log, r, lo, hi), r.stat), r.threshold) then Breaching
    else Good
  }

  /** The start of the i-th examined period. */
  ghost function PeriodStart(r: Rule, nowNs: nat, i: int): int {
    WindowEnd(r, nowNs) - r.evaluationPeriods * Nanos(r) + i * Nanos(r)
  }

  ghost function Verdicts(log: Log, r: Rule, nowNs: nat): (vs: seq<Verdict>)
    ensures |vs| == r.evaluationPeriods
  {
    seq(r.evaluationPeriods, i requires 0 <= i < r.evaluationPeriods =>
      VerdictOf(log, r, PeriodStart(r, nowNs, i), PeriodStart(r, nowNs, i) + Nanos(r)))
  }

  function Count(vs: seq<Verdict>, v: Verdict): nat {
    if vs == [] then 0 else Count(vs[..|vs| - 1], v) + (if vs[|vs| - 1] == v then 1 else 0)
  }

  /** The M-of-N rule under each treatment of missing periods. */
  function Decide(vs: seq<Verdict>, treatMissing: string, m: int): Wanted {
    var breaching, missing := Count(vs, Breaching), Count(vs, Missing);
    if treatMissing == "ignore" then
      if missing == |vs| then Stay else Move(if breaching >= m then InAlarm else Ok)
    else if treatMissing == "breaching" then
      Move(if breaching + missing >= m then InAlarm else Ok)
    else if treatMissing == "missing" || treatMissing == "" then
      Move(if breaching >= m then InAlarm else if missing == |vs| > 0 then InsufficientData else Ok)
    else Move(if breaching >= m then InAlarm else Ok)
  }

  /** The state the stored samples call for; Stay when that is the state the alarm is in. */
  ghost function Decision(log: Log, r: Rule, current: State, nowNs: nat): Wanted {
    var want := Decide(Verdicts(log, r, nowNs), r.treatMissing, r.datapointsToAlarm);
    if want == Move(current) then Stay else want
  }

  // ---- From the stored bytes to the verdicts ----

  function KeepUnit(samples: seq<TsSample>, unit: string): seq<TsSample> {
    if samples == [] then []
    else
      var s := samples[|samples| - 1];
      KeepUnit(samples[..|samples| - 1], unit) + (if unit == "" || s.sample.unit == unit then [s] else [])
  }

  lemma {:induction false} KeepAnyUnit(samples: seq<TsSample>)
    ensures KeepUnit(samples, "") == samples
    decreases |samples|
  {
    if samples != [] {
      KeepAnyUnit(samples[..|samples| - 1]);
    }
  }

  /** A sample read that has the unit and falls in the period starting at at. */
  predicate Passes(x: TsSample, unit: string, from: nat, to: nat, period: int, at: nat) {
    && (unit == "" || x.sample.unit == unit)
    && from <= x.at * NANOS_PER_MILLI < to
    && AlignDown(x.at * NANOS_PER_MILLI, period) == at
  }

  ghost predicate PassesAt(log: Log, s: Series, w: When, unit: string, from: nat, to: nat, period: int, at: nat) {
    IdOf(s, w) in log && Passes(TsSample(w.ms, log[IdOf(s, w)]), unit, from, to, period, at)
  }

  /** Bucketing what was read and kept picks out the records of the samples passing both filters. */
  lemma {:induction false} PeriodOfRead(log: Log, s: Series, ws: seq<When>, unit: string, from: nat, to: nat, period: int, at: nat,
                     keep: When -> bool)
    requires forall w :: w in ws ==> IdOf(s, w) in log
    requires forall w :: w in ws ==> (keep(w) <==> PassesAt(log, s, w, unit, from, to, period, at))
    ensures forall w :: w in Filter(ws, keep) ==> IdOf(s, w) in log
    ensures PeriodOf(KeepUnit(Project(log, s, ws), unit), from, to, period, at) == Records(log, s, Filter(ws, keep))
    decreases |ws|
  {
    FilterMember(ws, keep);
    if ws != [] {
      hide *;
      var n := |ws| - 1;
      assert ws[..n] + [ws[n]] == ws;
      PeriodOfRead(log, s, ws[..n], unit, from, to, period, at, keep);
      PeriodOfOneMore(log, s, ws[..n], ws[n], unit, from, to, period, at, keep);
    }
  }

  lemma PeriodOfOneMore(log: Log, s: Series, ws: seq<When>, w: When, unit: string, from: nat, to: nat, period: int, at: nat,
                        keep: When -> bool)
    requires IdOf(s, w) in log && forall x :: x in ws ==> IdOf(s, x) in log
    requires forall x :: x in Filter(ws, keep) ==> IdOf(s, x) in log
    requires PeriodOf(KeepUnit(Project(log, s, ws), unit), from, to, period, at) == Records(log, s, Filter(ws, keep))
    requires keep(w) <==> PassesAt(log, s, w, unit, from, to, period, at)
    ensures forall x :: x in ws + [w] ==> IdOf(s, x) in log
    ensures forall x :: x in Filter(ws + [w], keep) ==> IdOf(s, x) in log
    ensures PeriodOf(KeepUnit(Project(log, s, ws + [w]), unit), from, to, period, at) == Records(log, s, Filter(ws + [w], keep))
  {
    var x := TsSample(w.ms, log[IdOf(s, w)]);
    assert (ws + [w])[..|ws|] == ws;
    assert Passes(x, unit, from, to, period, at) <==> keep(w);
    hide *;
    FilterStep(ws + [w], keep);
    ProjectStep(log, s, ws, w);
    KeptPeriodStep(Project(log, s, ws), x, unit, from, to, period, at);
    if keep(w) {
      RecordsStep(log, s, Filter(ws, keep), w);
    } else {
      assert Filter(ws, keep) + [] == Filter(ws, keep);
      assert Records(log, s, Filter(ws, keep)) + [] == Records(log, s, Filter(ws, keep));
    }
  }

  lemma FilterStep<T>(s: seq<T>, keep: T -> bool)
    requires s != []
    ensures Filter(s, keep) == Filter(s[..|s| - 1], keep) + (if keep(s[|s| - 1]) then [s[|s| - 1]] else [])
  {
  }

  /** One more sample read is filed under the period when it has the unit and falls in it. */
  lemma KeptPeriodStep(read: seq<TsSample>, x: TsSample, unit: string, from: nat, to: nat, period: int, at: nat)
    ensures PeriodOf(KeepUnit(read + [x], unit), from, to, period, at)
            == PeriodOf(KeepUnit(read, unit), from, to, period, at)
               + (if Passes(x, unit, from, to, period, at) then [x.sample] else [])
  {
    hide AlignDown;
    assert (read + [x])[..|read|] == read;
    var kept := KeepUnit(read, unit);
    assert (kept + [x])[..|kept|] == kept;
    assert kept + [] == kept;
  }

  lemma RecordsStep(log: Log, s: Series, ws: seq<When>, w: When)
    requires IdOf(s, w) in log && forall x :: x in ws ==> IdOf(s, x) in log
    ensures forall x :: x in ws + [w] ==> IdOf(s, x) in log
    ensures Records(log, s, ws + [w]) == Records(log, s, ws) + [log[IdOf(s, w)]]
  {
    assert (ws + [w])[..|ws|] == ws;
  }

  lemma MultipleOfPeriod(k: nat, period: nat)
    ensures k * (period * NANOS_PER_SECOND) == (k * period * 1000) * NANOS_PER_MILLI
    ensures (k * (period * NANOS_PER_SECOND)) / NANOS_PER_MILLI == k * period * 1000
    ensures period > 0 ==> (k * (period * NANOS_PER_SECOND)) % (period * NANOS_PER_SECOND) == 0
  {
    var p := period * NANOS_PER_SECOND;
    assert k * (period * NANOS_PER_SECOND) == (k * period) * NANOS_PER_SECOND;
    if period > 0 {
      MultipleMod(k, p);
    }
  }

  /** When an alarm's window is within the clock and the key bounds. */
  predicate ClockCovers(r: Rule, nowNs: nat) {
    r.evaluationPeriods * Nanos(r) <= WindowEnd(r, nowNs) && nowNs < MILLIS_BOUND * NANOS_PER_MILLI
  }

  /** The window's bounds are whole milliseconds and whole periods. */
  lemma WindowIsAligned(r: Rule, nowNs: nat) returns (q: nat)
    requires r.period > 0 && ClockCovers(r, nowNs)
    ensures WindowEnd(r, nowNs) == q * Nanos(r) && q >= r.evaluationPeriods
    ensures WindowEnd(r, nowNs) / NANOS_PER_MILLI < MILLIS_BOUND
    ensures WindowEnd(r, nowNs) % NANOS_PER_MILLI == 0
    ensures forall i: nat :: i <= r.evaluationPeriods ==>
              PeriodStart(r, nowNs, i) == (q - r.evaluationPeriods + i) * Nanos(r)
              && PeriodStart(r, nowNs, i) % NANOS_PER_MILLI == 0
              && PeriodStart(r, nowNs, i) % Nanos(r) == 0
  {
    q := nowNs / Nanos(r);
    var n, p := r.evaluationPeriods, Nanos(r);
    MultipleOfPeriod(q, r.period);
    MillisBelow(WindowEnd(r, nowNs), nowNs);
    assert n * p == p * n && q * p == p * q;
    if q < n {
      TimesApart(p, n, q);
    }
    forall i: nat | i <= n
      ensures PeriodStart(r, nowNs, i) == (q - n + i) * p
              && PeriodStart(r, nowNs, i) % NANOS_PER_MILLI == 0
              && PeriodStart(r, nowNs, i) % p == 0
    {
      Distribute(q, n, i, p);
      MultipleOfPeriod(q - n + i, r.period);
    }
  }

  lemma Distribute(q: int, n: int, i: int, p: int)
    ensures (q - n + i) * p == q * p - n * p + i * p
  {
  }

  lemma MillisBelow(t: nat, nowNs: nat)
    requires t <= nowNs < MILLIS_BOUND * NANOS_PER_MILLI
    ensures t / NANOS_PER_MILLI < MILLIS_BOUND
  {
  }

  /** What bucketing the range read files under the i-th period is what is stored for that period. */
  lemma PeriodIsStretch(log: Log, r: Rule, nowNs: nat, i: nat)
    requires r.period > 0 && ClockCovers(r, nowNs) && i < r.evaluationPeriods
    ensures var from, to := PeriodStart(r, nowNs, 0), WindowEnd(r, nowNs);
            var at := PeriodStart(r, nowNs, i);
            && 0 <= from && 0 <= at
            && OfSeries(log, r.series, Window(log, r.series, from / NANOS_PER_MILLI, to / NANOS_PER_MILLI))
            && PeriodOf(KeepUnit(Listed(log, r.series, Window(log, r.series, from / NANOS_PER_MILLI, to / NANOS_PER_MILLI)), r.unit),
                        from, to, Nanos(r), at)
               == StretchRecords(log, r, at, at + Nanos(r))
  {
    hide PeriodOf, KeepUnit, Records, AlignDown, Filter, StrictTotal, Window, PassesAt, InStretch, InOrder;
    var q := WindowIsAligned(r, nowNs);
    var from, to := PeriodStart(r, nowNs, 0), WindowEnd(r, nowNs);
    var at := PeriodStart(r, nowNs, i);
    StretchBounds(r, nowNs, q, i);
    var window := Window(log, r.series, from / NANOS_PER_MILLI, to / NANOS_PER_MILLI);
    WindowOfSeries(log, r.series, from / NANOS_PER_MILLI, to / NANOS_PER_MILLI);
    var keep := (w: When) => PassesAt(log, r.series, w, r.unit, from, to, Nanos(r), at);
    PeriodOfRead(log, r.series, InOrder(window), r.unit, from, to, Nanos(r), at, keep);
    StretchIsKept(log, r, from, to, at, keep);
    FilterInOrder(window, keep, InStretch(log, r, at, at + Nanos(r)));
  }

  lemma FilterInOrder(ws: set<When>, keep: When -> bool, kept: set<When>)
    requires forall w :: w in kept <==> w in ws && keep(w)
    ensures Filter(InOrder(ws), keep) == InOrder(kept)
  {
    hide StrictTotal, Enumerates, Filter, Before;
    BeforeIsStrictTotal();
    FilterEnum(ws, keep, kept, Before);
  }

  lemma BeforeIsStrictTotal()
    ensures StrictTotal(Before)
  {
  }

  lemma StretchBounds(r: Rule, nowNs: nat, q: nat, i: nat)
    requires r.period > 0 && i < r.evaluationPeriods <= q
    requires WindowEnd(r, nowNs) == q * Nanos(r)
    requires PeriodStart(r, nowNs, 0) == (q - r.evaluationPeriods) * Nanos(r)
    requires PeriodStart(r, nowNs, i) == (q - r.evaluationPeriods + i) * Nanos(r)
    ensures 0 <= PeriodStart(r, nowNs, 0) <= PeriodStart(r, nowNs, i)
    ensures PeriodStart(r, nowNs, i) + Nanos(r) <= WindowEnd(r, nowNs)
  {
    WholeSteps(q, r.evaluationPeriods, i, Nanos(r));
  }

  lemma WholeSteps(q: nat, n: nat, i: nat, p: int)
    requires p > 0 && i < n <= q
    ensures 0 <= (q - n) * p <= (q - n + i) * p
    ensures (q - n + i) * p + p <= q * p
  {
    var a, b := q - n, q - n + i;
    TimesApart(p, q, b);
    assert a * p >= 0;
    if i > 0 {
      TimesApart(p, b, a);
    }
    assert a * p == p * a && b * p == p * b && q * p == p * q;
  }

  lemma StretchIsKept(log: Log, r: Rule, from: nat, to: nat, at: nat, keep: When -> bool)
    requires r.period > 0 && from <= at && at + Nanos(r) <= to
    requires from % NANOS_PER_MILLI == 0 && to % NANOS_PER_MILLI == 0 && at % Nanos(r) == 0
    requires forall w :: keep(w) <==> PassesAt(log, r.series, w, r.unit, from, to, Nanos(r), at)
    ensures forall w :: w in InStretch(log, r, at, at + Nanos(r))
                        <==> w in Window(log, r.series, from / NANOS_PER_MILLI, to / NANOS_PER_MILLI) && keep(w)
  {
    var window, stretch := Window(log, r.series, from / NANOS_PER_MILLI, to / NANOS_PER_MILLI),
                           InStretch(log, r, at, at + Nanos(r));
    forall w | w in stretch
      ensures w in window && keep(w)
    {
      AlignDownUnique(w.ms * NANOS_PER_MILLI, Nanos(r), at);
      assert IdOf(r.series, w) in log;
    }
    forall w | w in window && keep(w)
      ensures w in stretch
    {
      assert IdOf(r.series, w) in log;
    }
  }

  // ---- The evaluator ----

  method IndexByStart(buckets: seq<Bucket>) returns (byStart: map<nat, Bucket>)
    requires forall i, j :: 0 <= i < j < |buckets| ==> buckets[i].start < buckets[j].start
    ensures forall b :: b in buckets ==> b.start in byStart && byStart[b.start] == b
    ensures forall k :: k in byStart ==> byStart[k] in buckets && byStart[k].start == k
  {
    byStart := map[];
    for i := 0 to |buckets|
      invariant forall j :: 0 <= j < i ==> buckets[j].start in byStart && byStart[buckets[j].start] == buckets[j]
      invariant forall k :: k in byStart ==> byStart[k] in buckets && byStart[k].start == k
    {
      byStart := byStart[buckets[i].start := buckets[i]];
    }
  }

  /** Judges every period of the window, so that one with no bucket is seen as missing. */
  method Judge(buckets: seq<Bucket>, r: Rule, start: nat, ghost vs: seq<Verdict>) returns (verdicts: seq<Verdict>)
    requires forall i, j :: 0 <= i < j < |buckets| ==> buckets[i].start < buckets[j].start
    requires forall b :: b in buckets ==> b.Valid() && b.records != []
    requires |vs| == r.evaluationPeriods
    requires forall i :: 0 <= i < |vs| ==> vs[i] == VerdictFrom(buckets, r, start + i * Nanos(r))
    ensures verdicts == vs
  {
    hide Statistic, Breaches, Bucket.Valid, VerdictFrom;
    var byStart := IndexByStart(buckets);
    verdicts := [];
    for i := 0 to r.evaluationPeriods
      invariant verdicts == vs[..i]
    {
      var at := start + i * Nanos(r);
      assert vs[i] == VerdictFrom(buckets, r, at);
      if at !in byStart {
        NoBucketAt(buckets, r, at);
        verdicts := verdicts + [Missing];
      } else {
        var b := byStart[at];
        BucketAt(buckets, r, at, b);
        var v := BucketValue(b, r.stat);
        verdicts := verdicts + [if Breaches(r.comparison, v, r.threshold) then Breaching else Good];
      }
    }
  }

  method BucketValue(b: Bucket, st: Stat) returns (v: real)
    requires b.Valid() && b.records != []
    ensures v == Statistic(b.records, st)
  {
    v := b.Value(st);
  }

  lemma NoBucketAt(buckets: seq<Bucket>, r: Rule, at: int)
    requires forall b :: b in buckets ==> b.start != at
    ensures VerdictFrom(buckets, r, at) == Missing
  {
  }

  lemma BucketAt(buckets: seq<Bucket>, r: Rule, at: int, b: Bucket)
    requires forall i, j :: 0 <= i < j < |buckets| ==> buckets[i].start < buckets[j].start
    requires b in buckets && b.start == at && b.records != []
    ensures VerdictFrom(buckets, r, at)
            == if Breaches(r.comparison, Statistic(b.records, r.stat), r.threshold) then Breaching else Good
  {
    hide Statistic, Breaches;
    OnlyBucketAt(buckets, at, b);
  }

  lemma OnlyBucketAt(buckets: seq<Bucket>, at: int, b: Bucket)
    requires forall i, j :: 0 <= i < j < |buckets| ==> buckets[i].start < buckets[j].start
    requires b in buckets && b.start == at
    ensures forall c :: c in buckets && c.start == at ==> c == b
  {
  }

  /** What the bucket starting at at, if there is one, says of its period. */
  ghost function VerdictFrom(buckets: seq<Bucket>, r: Rule, at: int): Verdict
    reads buckets
  {
    if b :| b in buckets && b.start == at && b.records != [] then
      if Breaches(r.comparison, Statistic(b.records, r.stat), r.threshold) then Breaching else Good
    else Missing
  }

  lemma {:induction false} CountsAddUp(vs: seq<Verdict>)
    ensures Count(vs, Good) + Count(vs, Breaching) + Count(vs, Missing) == |vs|
    decreases |vs|
  {
    if vs != [] {
      CountsAddUp(vs[..|vs| - 1]);
    }
  }

  lemma CountStep(vs: seq<Verdict>, v: Verdict, w: Verdict)
    ensures Count(vs + [v], w) == Count(vs, w) + (if v == w then 1 else 0)
  {
    assert (vs + [v])[..|vs|] == vs;
  }

  /** Drops the missing periods: those left are as many as were not missing, and breach as often. */
  method WithoutMissing(verdicts: seq<Verdict>) returns (kept: seq<Verdict>)
    ensures |kept| == |verdicts| - Count(verdicts, Missing)
    ensures Count(kept, Breaching) == Count(verdicts, Breaching) && Count(kept, Missing) == 0
  {
    kept := [];
    for i := 0 to |verdicts|
      invariant |kept| == i - Count(verdicts[..i], Missing)
      invariant Count(kept, Breaching) == Count(verdicts[..i], Breaching) && Count(kept, Missing) == 0
    {
      assert verdicts[..i + 1] == verdicts[..i] + [verdicts[i]];
      CountStep(verdicts[..i], verdicts[i], Missing);
      CountStep(verdicts[..i], verdicts[i], Breaching);
      if verdicts[i] != Missing {
        CountStep(kept, verdicts[i], Breaching);
        CountStep(kept, verdicts[i], Missing);
        kept := kept + [verdicts[i]];
      }
    }
    assert verdicts[..|verdicts|] == verdicts;
  }

  method Resolve(judged: seq<Verdict>, treatMissing: string, m: int) returns (want: Wanted)
    ensures want == Decide(judged, treatMissing, m)
  {
    var treat := if treatMissing == "" then "missing" else treatMissing;
    var verdicts := judged;
    CountsAddUp(judged);
    if treat == "ignore" {
      verdicts := WithoutMissing(judged);
      if |verdicts| == 0 {
        return Stay;
      }
    }
    var breaching, missing := 0, 0;
    for i := 0 to |verdicts|
      invariant missing == Count(verdicts[..i], Missing)
      invariant breaching == Count(verdicts[..i], Breaching) + (if treat == "breaching" then Count(verdicts[..i], Missing) else 0)
    {
      assert verdicts[..i + 1] == verdicts[..i] + [verdicts[i]];
      CountStep(verdicts[..i], verdicts[i], Missing);
      CountStep(verdicts[..i], verdicts[i], Breaching);
      match verdicts[i]
      case Good =>
      case Breaching =>
        breaching := breaching + 1;
      case Missing =>
        missing := missing + 1;
        if treat == "breaching" {
          breaching := breaching + 1;
        }
    }
    assert verdicts[..|verdicts|] == verdicts;
    hide Count;
    var to := Ok;
    if breaching >= m {
      to := InAlarm;
    } else if treat == "missing" && missing == |verdicts| && |verdicts| > 0 {
      to := InsufficientData;
    }
    want := Move(to);
  }

  /** Reads the window, groups it, judges each period and applies the rule: the outcome is the
      decision the stored samples call for. */
  method EvaluateRule(store: Store, r: Rule, current: State, nowNs: nat) returns (want: Wanted)
    requires store.Valid() && WellFormed(r.series) && r.period > 0 && ClockCovers(r, nowNs)
    ensures want == Decision(store.log, r, current, nowNs)
  {
    hide PeriodOf, KeepUnit, Listed, Window, AlignDown, Statistic, Decide, VerdictFrom, VerdictOf, Verdicts, Files,
         Bucket.Valid, WellFormed, OfSeries, Project;
    var period := Nanos(r);
    var end := AlignDown(nowNs, period);
    var start := end - r.evaluationPeriods * period;
    ghost var q := WindowIsAligned(r, nowNs);
    WindowFits(r, nowNs);
    var samples := store.ReadSamples(r.series, start / NANOS_PER_MILLI, end / NANOS_PER_MILLI);
    ghost var read := samples;
    if r.unit != "" {
      samples := KeepUnit(samples, r.unit);
    } else {
      KeepAnyUnit(samples);
    }
    var buckets := Bucketize(samples, start, end, period);
    BucketsJudgeAsStored(store.log, r, nowNs, read, buckets);
    var verdicts := Judge(buckets, r, start, Verdicts(store.log, r, nowNs));
    want := Resolve(verdicts, r.treatMissing, r.datapointsToAlarm);
    if want == Move(current) {
      want := Stay;
    }
  }

  lemma WindowFits(r: Rule, nowNs: nat)
    requires r.period > 0 && ClockCovers(r, nowNs)
    ensures 0 <= PeriodStart(r, nowNs, 0) <= WindowEnd(r, nowNs)
    ensures PeriodStart(r, nowNs, 0) / NANOS_PER_MILLI < MILLIS_BOUND
    ensures WindowEnd(r, nowNs) / NANOS_PER_MILLI < MILLIS_BOUND
  {
    var q := WindowIsAligned(r, nowNs);
    assert r.evaluationPeriods * Nanos(r) >= 0;
  }

  lemma BucketJudgesAsStored(log: Log, r: Rule, nowNs: nat, read: seq<TsSample>, buckets: seq<Bucket>, i: nat)
    requires i < r.evaluationPeriods
    requires r.period > 0 && ClockCovers(r, nowNs)
    requires 0 <= PeriodStart(r, nowNs, 0)
    requires OfSeries(log, r.series, Window(log, r.series, PeriodStart(r, nowNs, 0) / NANOS_PER_MILLI, WindowEnd(r, nowNs) / NANOS_PER_MILLI))
    requires read == Listed(log, r.series, Window(log, r.series, PeriodStart(r, nowNs, 0) / NANOS_PER_MILLI, WindowEnd(r, nowNs) / NANOS_PER_MILLI))
    requires forall i, j :: 0 <= i < j < |buckets| ==> buckets[i].start < buckets[j].start
    requires forall b :: b in buckets ==>
               b.records != []
               && b.records == PeriodOf(KeepUnit(read, r.unit), PeriodStart(r, nowNs, 0), WindowEnd(r, nowNs), Nanos(r), b.start)
    requires forall start :: PeriodOf(KeepUnit(read, r.unit), PeriodStart(r, nowNs, 0), WindowEnd(r, nowNs), Nanos(r), start) != [] ==>
               exists i :: 0 <= i < |buckets| && buckets[i].start == start
    ensures Verdicts(log, r, nowNs)[i] == VerdictFrom(buckets, r, PeriodStart(r, nowNs, 0) + i * Nanos(r))
  {
    hide PeriodOf, KeepUnit, Listed, Window, AlignDown, Statistic, Breaches, StretchRecords, InStretch, VerdictFrom;
    PeriodIsStretch(log, r, nowNs, i);
    var at := PeriodStart(r, nowNs, i);
    StretchEmptiness(log, r, at, at + Nanos(r));
    if StretchRecords(log, r, at, at + Nanos(r)) == [] {
      assert forall b :: b in buckets ==> b.start != at;
      NoBucketAt(buckets, r, at);
    } else {
      var k :| 0 <= k < |buckets| && buckets[k].start == at;
      BucketAt(buckets, r, at, buckets[k]);
    }
  }

  lemma BucketsJudgeAsStored(log: Log, r: Rule, nowNs: nat, read: seq<TsSample>, buckets: seq<Bucket>)
    requires r.period > 0 && ClockCovers(r, nowNs)
    requires 0 <= PeriodStart(r, nowNs, 0)
    requires OfSeries(log, r.series, Window(log, r.series, PeriodStart(r, nowNs, 0) / NANOS_PER_MILLI, WindowEnd(r, nowNs) / NANOS_PER_MILLI))
    requires read == Listed(log, r.series, Window(log, r.series, PeriodStart(r, nowNs, 0) / NANOS_PER_MILLI, WindowEnd(r, nowNs) / NANOS_PER_MILLI))
    requires forall i, j :: 0 <= i < j < |buckets| ==> buckets[i].start < buckets[j].start
    requires forall b :: b in buckets ==>
               b.records != []
               && b.records == PeriodOf(KeepUnit(read, r.unit), PeriodStart(r, nowNs, 0), WindowEnd(r, nowNs), Nanos(r), b.start)
    requires forall start :: PeriodOf(KeepUnit(read, r.unit), PeriodStart(r, nowNs, 0), WindowEnd(r, nowNs), Nanos(r), start) != [] ==>
               exists i :: 0 <= i < |buckets| && buckets[i].start == start
    ensures forall i :: 0 <= i < r.evaluationPeriods ==>
              Verdicts(log, r, nowNs)[i] == VerdictFrom(buckets, r, PeriodStart(r, nowNs, 0) + i * Nanos(r))
  {
    forall i | 0 <= i < r.evaluationPeriods
      ensures Verdicts(log, r, nowNs)[i] == VerdictFrom(buckets, r, PeriodStart(r, nowNs, 0) + i * Nanos(r))
    {
      BucketJudgesAsStored(log, r, nowNs, read, buckets, i);
    }
    hide *;
  }

  lemma StretchEmptiness(log: Log, r: Rule, lo: int, hi: int)
    ensures InStretch(log, r, lo, hi) == {} <==> StretchRecords(log, r, lo, hi) == []
  {
    StretchInLog(log, r, lo, hi);
    RecordsEach(log, r.series, InOrder(InStretch(log, r, lo, hi)));
  }

  // ---- What each treatment of missing data comes to ----

  /** The periods of a window with one of these verdicts. */
  function PeriodsWith(vs: seq<Verdict>, kinds: set<Verdict>): set<int> {
    set i | 0 <= i < |vs| && vs[i] in kinds
  }

  lemma {:induction false} CountIsSize(vs: seq<Verdict>, v: Verdict)
    ensures Count(vs, v) == |PeriodsWith(vs, {v})|
    decreases |vs|
  {
    if vs != [] {
      var init, n := vs[..|vs| - 1], |vs| - 1;
      CountIsSize(init, v);
      assert PeriodsWith(vs, {v}) == PeriodsWith(init, {v}) + (if vs[n] == v then {n} else {});
    }
  }

  lemma SizeOfTwo(vs: seq<Verdict>, v: Verdict, w: Verdict)
    requires v != w
    ensures |PeriodsWith(vs, {v, w})| == |PeriodsWith(vs, {v})| + |PeriodsWith(vs, {w})|
  {
    var a, b := PeriodsWith(vs, {v}), PeriodsWith(vs, {w});
    assert PeriodsWith(vs, {v, w}) == a + b && a !! b;
  }

  /** The state an alarm has after a decision. */
  function StateAfter(want: Wanted, current: State): State {
    if want.Move? then want.to else current
  }

  /** Missing data breaching: ALARM exactly when at least M periods of the window are breaching or hold nothing. */
  lemma MissingAsBreaching(log: Log, r: Rule, current: State, nowNs: nat)
    requires r.treatMissing == "breaching"
    ensures StateAfter(Decision(log, r, current, nowNs), current)
            == if |PeriodsWith(Verdicts(log, r, nowNs), {Breaching, Missing})| >= r.datapointsToAlarm then InAlarm else Ok
  {
    var vs := Verdicts(log, r, nowNs);
    CountIsSize(vs, Breaching);
    CountIsSize(vs, Missing);
    SizeOfTwo(vs, Breaching, Missing);
    hide Verdicts, Count, PeriodsWith;
  }

  /** Missing data not breaching: ALARM exactly when M periods are breaching, so a period that holds nothing
      counts as one that is good. */
  lemma MissingAsGood(log: Log, r: Rule, current: State, nowNs: nat)
    requires r.treatMissing == "notBreaching"
    ensures StateAfter(Decision(log, r, current, nowNs), current)
            == if |PeriodsWith(Verdicts(log, r, nowNs), {Breaching})| >= r.datapointsToAlarm then InAlarm else Ok
  {
    CountIsSize(Verdicts(log, r, nowNs), Breaching);
    hide Verdicts, Count, PeriodsWith;
  }

  /** Missing data missing: as well, but INSUFFICIENT_DATA, exactly, where there are periods, all of them
      hold nothing, and that alone is not called an alarm. */
  lemma MissingAsMissing(log: Log, r: Rule, current: State, nowNs: nat)
    requires r.treatMissing == "missing" || r.treatMissing == ""
    ensures var vs := Verdicts(log, r, nowNs);
            StateAfter(Decision(log, r, current, nowNs), current)
            == if |PeriodsWith(vs, {Breaching})| >= r.datapointsToAlarm then InAlarm
               else if r.evaluationPeriods > 0 && forall i :: 0 <= i < r.evaluationPeriods ==> vs[i] == Missing then InsufficientData
               else Ok
    ensures r.datapointsToAlarm > 0 ==>
              (StateAfter(Decision(log, r, current, nowNs), current) == InsufficientData
               <==> r.evaluationPeriods > 0 && forall i :: 0 <= i < r.evaluationPeriods ==> Verdicts(log, r, nowNs)[i] == Missing)
  {
    var vs := Verdicts(log, r, nowNs);
    CountIsSize(vs, Breaching);
    AllCounted(vs, Missing);
    if forall i :: 0 <= i < |vs| ==> vs[i] == Missing {
      assert PeriodsWith(vs, {Breaching}) == {};
    }
    hide Verdicts, Count, PeriodsWith;
  }

  /** Missing data ignored: the state is kept where all periods hold nothing, and otherwise is ALARM exactly
      when M periods are breaching. */
  lemma MissingIgnored(log: Log, r: Rule, current: State, nowNs: nat)
    requires r.treatMissing == "ignore"
    ensures var vs := Verdicts(log, r, nowNs);
            StateAfter(Decision(log, r, current, nowNs), current)
            == if forall i :: 0 <= i < |vs| ==> vs[i] == Missing then current
               else if |PeriodsWith(vs, {Breaching})| >= r.datapointsToAlarm then InAlarm else Ok
  {
    var vs := Verdicts(log, r, nowNs);
    CountIsSize(vs, Breaching);
    AllCounted(vs, Missing);
    hide Verdicts, Count, PeriodsWith;
  }

  /** What a period's statistic breaches: on the threshold, the operators that say "or equal"; above it the
      ones that say "greater"; below it the ones that say "less". */
  lemma BreachesWhere(value: real, threshold: real)
    ensures Breaches("GreaterThanThreshold", value, threshold) <==> !Breaches("LessThanOrEqualToThreshold", value, threshold)
    ensures Breaches("LessThanThreshold", value, threshold) <==> !Breaches("GreaterThanOrEqualToThreshold", value, threshold)
    ensures value > threshold ==> Breaches("GreaterThanThreshold", value, threshold) && Breaches("GreaterThanOrEqualToThreshold", value, threshold)
    ensures value < threshold ==> Breaches("LessThanThreshold", value, threshold) && Breaches("LessThanOrEqualToThreshold", value, threshold)
    ensures value == threshold ==>
              Breaches("GreaterThanOrEqualToThreshold", value, threshold) && Breaches("LessThanOrEqualToThreshold", value, threshold)
  {
    assert |"GreaterThanOrEqualToThreshold"| == 29 && |"GreaterThanThreshold"| == 20 && |"LessThanThreshold"| == 17;
    assert |"LessThanOrEqualToThreshold"| == 26;
  }

  /** A period that holds something breaches exactly when its statistic is on the operator's side of the threshold. */
  lemma VerdictBreachesIff(log: Log, r: Rule, lo: int, hi: int)
    requires InStretch(log, r, lo, hi) != {}
    ensures StretchRecords(log, r, lo, hi) != []
    ensures var v := Statistic(StretchRecords(log, r, lo, hi), r.stat);
            && (r.comparison == "GreaterThanThreshold" ==> (VerdictOf(log, r, lo, hi) == Breaching <==> v > r.threshold))
            && (r.comparison == "GreaterThanOrEqualToThreshold" ==> (VerdictOf(log, r, lo, hi) == Breaching <==> v >= r.threshold))
            && (r.comparison == "LessThanThreshold" ==> (VerdictOf(log, r, lo, hi) == Breaching <==> v < r.threshold))
            && (r.comparison == "LessThanOrEqualToThreshold" ==> (VerdictOf(log, r, lo, hi) == Breaching <==> v <= r.threshold))
    ensures VerdictOf(log, r, lo, hi) != Missing
  {
    StretchEmptiness(log, r, lo, hi);
    BreachesWhere(Statistic(StretchRecords(log, r, lo, hi), r.stat), r.threshold);
    hide Breaches, Statistic, StretchRecords, InStretch;
  }

  /** The window lags: its periods follow on each other from one multiple of the period to the next, and the
      last of them ends where the period that now falls in starts. */
  lemma WindowLags(r: Rule, nowNs: nat, i: int)
    requires r.period > 0 && 0 <= i < r.evaluationPeriods
    ensures (PeriodStart(r, nowNs, i) - PeriodStart(r, nowNs, 0)) == i * (r.period * 1_000_000_000)
    ensures i == r.evaluationPeriods - 1 ==>
              var end := PeriodStart(r, nowNs, i) + r.period * 1_000_000_000;
              end <= nowNs < end + r.period * 1_000_000_000 && end % (r.period * 1_000_000_000) == 0
  {
    var n, p := r.evaluationPeriods, Nanos(r);
    assert n * p - (n - 1) * p == p;
  }

  // ---- What "ignore" keeps ----

  /** With missing periods ignored, the state is kept exactly when every period is missing or the others
      call for the state the alarm is in. One missing period among others does not keep it. */
  lemma IgnoreKeepsStateIff(log: Log, r: Rule, current: State, nowNs: nat)
    requires r.treatMissing == "ignore"
    ensures var vs := Verdicts(log, r, nowNs);
            Decision(log, r, current, nowNs) == Stay
            <==> || (forall i :: 0 <= i < |vs| ==> vs[i] == Missing)
                 || (Count(vs, Breaching) >= r.datapointsToAlarm && current == InAlarm)
                 || (Count(vs, Breaching) < r.datapointsToAlarm && current == Ok)
  {
    hide VerdictOf, Count;
    AllCounted(Verdicts(log, r, nowNs), Missing);
  }

  lemma {:induction false} AllCounted(vs: seq<Verdict>, v: Verdict)
    ensures Count(vs, v) == |vs| <==> forall i :: 0 <= i < |vs| ==> vs[i] == v
    ensures Count(vs, v) <= |vs|
    decreases |vs|
  {
    if vs != [] {
      var init := vs[..|vs| - 1];
      AllCounted(init, v);
      assert forall i :: 0 <= i < |init| ==> init[i] == vs[i];
    }
  }

  /** Two periods of a minute, a sample in the second alone: the first is missing, and an alarm that ignores
      missing data leaves INSUFFICIENT_DATA all the same. */
  lemma IgnoreMovesDespiteMissing(s: Series, v: Sample)
    ensures var r := Rule(s, "", Stat("SampleCount", -1.0), 60, 2, 1, "GreaterThanThreshold", 5.0, "ignore");
            var log: Log, nowNs := map[SampleId(s, 70_000, 1) := v], 120_000_000_000;
            && Verdicts(log, r, nowNs)[0] == Missing
            && Decision(log, r, InsufficientData, nowNs) != Stay
  {
    var r := Rule(s, "", Stat("SampleCount", -1.0), 60, 2, 1, "GreaterThanThreshold", 5.0, "ignore");
    var log: Log, nowNs := map[SampleId(s, 70_000, 1) := v], 120_000_000_000;
    AlignDownUnique(nowNs, Nanos(r), nowNs);
    assert InStretch(log, r, 0, 60_000_000_000) == {};
    assert When(70_000, 1) in InStretch(log, r, 60_000_000_000, 120_000_000_000) by {
      assert SampleId(s, 70_000, 1) in log;
    }
    VerdictMissingIff(log, r, 0, 60_000_000_000);
    VerdictMissingIff(log, r, 60_000_000_000, 120_000_000_000);
    hide VerdictOf;
    assert PeriodStart(r, nowNs, 0) == 0 && PeriodStart(r, nowNs, 1) == 60_000_000_000;
    assert Verdicts(log, r, nowNs)[1] != Missing;
    IgnoreKeepsStateIff(log, r, InsufficientData, nowNs);
  }

  lemma VerdictMissingIff(log: Log, r: Rule, lo: int, hi: int)
    ensures VerdictOf(log, r, lo, hi) == Missing <==> InStretch(log, r, lo, hi) == {}
  {
  }

  // ---- What cannot change the decision ----

  /** The stored samples of the alarm's series and unit in a stretch of time. */
  ghost function Relevant(log: Log, r: Rule, lo: int, hi: int): Log {
    map id | id in log && id.series == r.series && lo <= id.ms * NANOS_PER_MILLI < hi
             && (r.unit == "" || log[id].unit == r.unit) :: log[id]
  }

  /** Nothing stored at or after the start of the current period, before the window, under another
      series or, when the alarm names a unit, in another unit, can change the decision. */
  lemma OnlyTheWindowMatters(log: Log, log': Log, r: Rule, current: State, nowNs: nat)
    requires r.period > 0
    requires Relevant(log, r, PeriodStart(r, nowNs, 0), WindowEnd(r, nowNs))
             == Relevant(log', r, PeriodStart(r, nowNs, 0), WindowEnd(r, nowNs))
    ensures Decision(log, r, current, nowNs) == Decision(log', r, current, nowNs)
  {
    forall i | 0 <= i < r.evaluationPeriods
      ensures Verdicts(log, r, nowNs)[i] == Verdicts(log', r, nowNs)[i]
    {
      var at := PeriodStart(r, nowNs, i);
      WithinWindow(r, nowNs, i);
      SameStretch(log, log', r, PeriodStart(r, nowNs, 0), WindowEnd(r, nowNs), at, at + Nanos(r));
    }
    assert Verdicts(log, r, nowNs) == Verdicts(log', r, nowNs);
  }

  lemma WithinWindow(r: Rule, nowNs: nat, i: nat)
    requires i < r.evaluationPeriods && r.period > 0
    ensures PeriodStart(r, nowNs, 0) <= PeriodStart(r, nowNs, i)
    ensures PeriodStart(r, nowNs, i) + Nanos(r) <= WindowEnd(r, nowNs)
  {
    WholeSteps(r.evaluationPeriods, r.evaluationPeriods, i, Nanos(r));
  }

  lemma SameStretch(log: Log, log': Log, r: Rule, from: int, to: int, lo: int, hi: int)
    requires from <= lo && hi <= to
    requires Relevant(log, r, from, to) == Relevant(log', r, from, to)
    ensures VerdictOf(log, r, lo, hi) == VerdictOf(log', r, lo, hi)
  {
    var ids, ids' := Relevant(log, r, from, to), Relevant(log', r, from, to);
    forall w
      ensures w in InStretch(log, r, lo, hi) <==> w in InStretch(log', r, lo, hi)
    {
      var id := IdOf(r.series, w);
      assert id in ids <==> id in ids';
    }
    assert InStretch(log, r, lo, hi) == InStretch(log', r, lo, hi);
    StretchInLog(log, r, lo, hi);
    StretchInLog(log', r, lo, hi);
    var ws := InOrder(InStretch(log, r, lo, hi));
    forall w | w in ws
      ensures log[IdOf(r.series, w)] == log'[IdOf(r.series, w)]
    {
      var id := IdOf(r.series, w);
      assert id in ids && ids[id] == log[id] && ids'[id] == log'[id];
    }
    SameRecords(log, log', r.series, ws);
  }

  lemma {:induction false} SameRecords(log: Log, log': Log, s: Series, ws: seq<When>)
    requires forall w :: w in ws ==> IdOf(s, w) in log && IdOf(s, w) in log' && log[IdOf(s, w)] == log'[IdOf(s, w)]
    ensures Records(log, s, ws) == Records(log', s, ws)
    decreases |ws|
  {
    if ws != [] {
      SameRecords(log, log', s, ws[..|ws| - 1]);
    }
  }
}
