/** The sample store: puts, range reads and the retention sweep over one ordered bucket. */
module SampleStore {
  import opened Bytes
  import opened Decimal
  import opened Sorting
  import opened SeriesKey
  import opened SampleKey

  /** One stored observation; a summary stands for count of them. */
  datatype Sample = Sample(value: real, count: real, min: real, max: real, unit: string)

  datatype Statistics = Single(value: real) | Summary(count: real, sum: real, minimum: real, maximum: real)

  datatype Timestamp = Unset | At(ms: nat)

  datatype Datum = Datum(series: Series, unit: string, stats: Statistics, timestamp: Timestamp)

  function SampleOf(d: Datum): Sample {
    match d.stats
    case Single(v) => Sample(v, 1.0, v, v, d.unit)
    case Summary(count, sum, minimum, maximum) => Sample(sum, count, minimum, maximum, d.unit)
  }

  function TimeOf(d: Datum, nowMs: nat): nat {
    match d.timestamp
    case Unset => nowMs
    case At(ms) => ms
  }

  /** A stored sample with the time it was observed. */
  datatype TsSample = TsSample(at: nat, sample: Sample)

  /** When a sample of a given series was observed, ties told apart by arrival. */
  datatype When = When(ms: nat, num: nat)

  predicate Before(a: When, b: When) {
    a.ms < b.ms || (a.ms == b.ms && a.num < b.num)
  }

  function IdOf(s: Series, w: When): SampleId {
    SampleId(s, w.ms, w.num)
  }

  type Log = map<SampleId, Sample>

  /** The samples of a series a range read admits. */
  ghost function Window(log: Log, s: Series, from: nat, to: nat): set<When> {
    set id | id in log && InRange(id, s, from, to) :: When(id.ms, id.num)
  }

  ghost predicate OfSeries(log: Log, s: Series, ws: set<When>) {
    forall w :: w in ws ==> IdOf(s, w) in log
  }

  ghost function Project(log: Log, s: Series, ws: seq<When>): (r: seq<TsSample>)
    requires forall w :: w in ws ==> IdOf(s, w) in log
    ensures |r| == |ws|
    ensures forall i :: 0 <= i < |ws| ==> r[i] == TsSample(ws[i].ms, log[IdOf(s, ws[i])])
  {
    seq(|ws|, i requires 0 <= i < |ws| => TsSample(ws[i].ms, log[IdOf(s, ws[i])]))
  }

  lemma ProjectStep(log: Log, s: Series, ws: seq<When>, w: When)
    requires forall x :: x in ws ==> IdOf(s, x) in log
    requires IdOf(s, w) in log
    ensures forall x :: x in ws + [w] ==> IdOf(s, x) in log
    ensures Project(log, s, ws + [w]) == Project(log, s, ws) + [TsSample(w.ms, log[IdOf(s, w)])]
  {
  }

  ghost function InOrder(ws: set<When>): (s: seq<When>)
    ensures Enumerates(s, ws, Before)
    ensures forall w :: w in s <==> w in ws
  {
    var s := Enum(ws, Before);
    assert forall w :: w in s <==> w in ToSet(s);
    s
  }

  /** The samples of ws, in (time, arrival) order. */
  ghost function Listed(log: Log, s: Series, ws: set<When>): seq<TsSample>
    requires OfSeries(log, s, ws)
  {
    Project(log, s, InOrder(ws))
  }

  /** The log after one call's observations, numbered in the order they were sent. */
  ghost function Recorded(log: Log, sequence: nat, data: seq<Datum>, nowMs: nat): Log {
    if data == [] then log
    else
      var d := data[|data| - 1];
      Recorded(log, sequence, data[..|data| - 1], nowMs)
        [SampleId(d.series, TimeOf(d, nowMs), sequence + |data|) := SampleOf(d)]
  }

  /** A call overwrites nothing, and adds one entry for each observation and no other. */
  lemma {:induction false} RecordedAddsExactly(log: Log, sequence: nat, data: seq<Datum>, nowMs: nat)
    requires forall id :: id in log ==> id.num <= sequence
    ensures var after := Recorded(log, sequence, data, nowMs);
            && (forall id :: id in log ==> id in after && after[id] == log[id])
            && (forall id :: id in after ==> id in log || sequence < id.num <= sequence + |data|)
            && |after| == |log| + |data|
    decreases |data|
  {
    if data != [] {
      var d := data[|data| - 1];
      RecordedAddsExactly(log, sequence, data[..|data| - 1], nowMs);
      var id := SampleId(d.series, TimeOf(d, nowMs), sequence + |data|);
      assert id !in Recorded(log, sequence, data[..|data| - 1], nowMs);
    }
  }

  /** Each observation is stored under its series, its time and its place in the call. */
  lemma {:induction false} RecordedHolds(log: Log, sequence: nat, data: seq<Datum>, nowMs: nat, i: nat)
    requires i < |data|
    ensures var id := SampleId(data[i].series, TimeOf(data[i], nowMs), sequence + i + 1);
            var after := Recorded(log, sequence, data, nowMs);
            id in after && after[id] == SampleOf(data[i])
    decreases |data|
  {
    if i < |data| - 1 {
      assert data[..|data| - 1][i] == data[i];
      RecordedHolds(log, sequence, data[..|data| - 1], nowMs, i);
    }
  }

  /** An observation sent by itself is read back over just the stretches its own time is in: the time it was
      sent with, or else the time of the call. At their very end it takes a number a sequence of 32 bits has. */
  lemma PutIsReadBackIff(log: Log, sequence: nat, d: Datum, nowMs: nat, from: nat, to: nat)
    ensures var ms := if d.timestamp.At? then d.timestamp.ms else nowMs;
            When(ms, sequence + 1) in Window(Recorded(log, sequence, [d], nowMs), d.series, from, to)
            <==> from <= ms && (ms < to || (ms == to && sequence + 1 < 0xFFFF_FFFF))
  {
    var ms := if d.timestamp.At? then d.timestamp.ms else nowMs;
    assert [d][..0] == [];
    assert SampleId(d.series, ms, sequence + 1) in Recorded(log, sequence, [d], nowMs);
  }

  lemma WindowOfSeries(log: Log, s: Series, from: nat, to: nat)
    ensures OfSeries(log, s, Window(log, s, from, to))
  {
  }

  /** The unexpired keys that sort before a key. */
  ghost function Ahead(keys: set<Bytes>, k: Bytes): set<Bytes> {
    set j | j in keys && Less(j, k)
  }

  /** The bucket files exactly the log: each sample under its own key, numbered no later than sequence. */
  ghost predicate Files(bucket: map<Bytes, Sample>, log: Log, sequence: nat) {
    && (forall id :: id in log ==> Fits(id) && id.num <= sequence && KeyOf(id) in bucket && bucket[KeyOf(id)] == log[id])
    && (forall k :: k in bucket ==> exists id :: id in log && KeyOf(id) == k)
  }

  /** A sample with the next sequence number has a key of its own. */
  lemma FilesNext(bucket: map<Bytes, Sample>, log: Log, sequence: nat, id: SampleId, v: Sample)
    requires Files(bucket, log, sequence) && Fits(id) && id.num == sequence + 1
    ensures id !in log && KeyOf(id) !in bucket
    ensures Files(bucket[KeyOf(id) := v], log[id := v], sequence + 1)
  {
    hide KeyOf, Fits;
    var key := KeyOf(id);
    forall other | other in log
      ensures KeyOf(other) != key
    {
      if KeyOf(other) == key {
        SampleKeyInjective(other, id);
      }
    }
    var bucket', log' := bucket[key := v], log[id := v];
    forall k | k in bucket'
      ensures exists j :: j in log' && KeyOf(j) == k
    {
      if k == key {
        assert id in log';
      } else {
        var j :| j in log && KeyOf(j) == k;
        assert j in log';
      }
    }
  }

  /** The cursor has passed the keys of ws, all of them in the window, between first and i. */
  ghost predicate Walked(bucket: map<Bytes, Sample>, log: Log, s: Series, from: nat, to: nat,
                         cursor: seq<Bytes>, first: nat, i: nat, ws: seq<When>)
  {
    && first <= i <= |cursor|
    && |ws| == i - first
    && forall k :: 0 <= k < |ws| ==>
         && IdOf(s, ws[k]) in log
         && InRange(IdOf(s, ws[k]), s, from, to)
         && KeyOf(IdOf(s, ws[k])) == cursor[first + k]
  }

  /** What is stored under a key of the bucket. */
  lemma FiledUnder(bucket: map<Bytes, Sample>, log: Log, sequence: nat, cursor: seq<Bytes>, i: nat) returns (id: SampleId)
    requires Files(bucket, log, sequence) && Enumerates(cursor, bucket.Keys, Less) && i < |cursor|
    ensures cursor[i] in bucket && id in log && bucket[cursor[i]] == log[id] && KeyOf(id) == cursor[i] && Fits(id)
  {
    hide KeyOf, Fits;
    assert cursor[i] in ToSet(cursor);
    id :| id in log && KeyOf(id) == cursor[i];
  }

  /** From where the cursor was set down on, no key is below the range. */
  lemma NotBelow(bucket: map<Bytes, Sample>, log: Log, sequence: nat, s: Series, from: nat, to: nat,
                 cursor: seq<Bytes>, first: nat, i: nat, ws: seq<When>)
    requires Enumerates(cursor, bucket.Keys, Less)
    requires Walked(bucket, log, s, from, to, cursor, first, i, ws) && i < |cursor|
    requires !Less(cursor[first], SeriesRange(Key(s), from, to).0)
    ensures !Less(cursor[i], SeriesRange(Key(s), from, to).0)
  {
    var lo := SeriesRange(Key(s), from, to).0;
    hide Key, SeriesRange, KeyOf, Less, InRange;
    if Less(cursor[i], lo) && i > first {
      LessTransitive(cursor[first], cursor[i], lo);
    }
  }

  lemma InWindowIs(id: SampleId, s: Series, from: nat, to: nat)
    ensures InRange(id, s, from, to) ==> id == IdOf(s, When(id.ms, id.num)) && id.series == s
  {
  }

  lemma WalkedMore(bucket: map<Bytes, Sample>, log: Log, s: Series, from: nat, to: nat,
                   cursor: seq<Bytes>, first: nat, i: nat, ws: seq<When>, id: SampleId)
    requires Walked(bucket, log, s, from, to, cursor, first, i, ws) && i < |cursor|
    requires id in log && InRange(id, s, from, to) && KeyOf(id) == cursor[i] && id == IdOf(s, When(id.ms, id.num))
    ensures Walked(bucket, log, s, from, to, cursor, first, i + 1, ws + [When(id.ms, id.num)])
  {
    hide KeyOf, InRange, IdOf;
  }

  /** The next key within the bounds is a sample of the window, filed under its own time. */
  lemma NextInWindow(bucket: map<Bytes, Sample>, log: Log, sequence: nat, s: Series, from: nat, to: nat,
                     cursor: seq<Bytes>, first: nat, i: nat, ws: seq<When>)
    returns (id: SampleId)
    requires Files(bucket, log, sequence) && WellFormed(s) && from < MILLIS_BOUND && to < MILLIS_BOUND
    requires Enumerates(cursor, bucket.Keys, Less)
    requires Walked(bucket, log, s, from, to, cursor, first, i, ws) && i < |cursor|
    requires !Less(cursor[first], SeriesRange(Key(s), from, to).0)
    requires Less(cursor[i], SeriesRange(Key(s), from, to).1)
    ensures cursor[i] in bucket && id in log && bucket[cursor[i]] == log[id]
    ensures MillisAt(cursor[i], |Key(s)|) == Millis(id.ms)
    ensures id == IdOf(s, When(id.ms, id.num))
    ensures Walked(bucket, log, s, from, to, cursor, first, i + 1, ws + [When(id.ms, id.num)])
  {
    hide *;
    id := FiledUnder(bucket, log, sequence, cursor, i);
    NotBelow(bucket, log, sequence, s, from, to, cursor, first, i, ws);
    RangeIsolation(id, s, from, to);
    MillisOfSampleKey(id);
    InWindowIs(id, s, from, to);
    WalkedMore(bucket, log, s, from, to, cursor, first, i, ws, id);
  }

  /** The keys between the two bounds are the window's, so their samples in key order list it. */
  lemma WholeWindow(bucket: map<Bytes, Sample>, log: Log, sequence: nat, s: Series, from: nat, to: nat,
                    cursor: seq<Bytes>, first: nat, i: nat, ws: seq<When>)
    requires Files(bucket, log, sequence) && WellFormed(s) && from < MILLIS_BOUND && to < MILLIS_BOUND
    requires Enumerates(cursor, bucket.Keys, Less)
    requires Walked(bucket, log, s, from, to, cursor, first, i, ws)
    requires forall k :: 0 <= k < first ==> Less(cursor[k], SeriesRange(Key(s), from, to).0)
    requires i < |cursor| ==> !Less(cursor[i], SeriesRange(Key(s), from, to).1)
    ensures ws == InOrder(Window(log, s, from, to))
  {
    hide Key, Fits, WellFormed, SampleKeyFrom, SeriesRange, KeyOf;
    var window := Window(log, s, from, to);
    forall a, b | 0 <= a < b < |ws|
      ensures Before(ws[a], ws[b])
    {
      InWindowOrder(log, s, ws[a], ws[b], sequence, bucket);
    }
    forall w | w in window
      ensures w in ws
    {
      WalkedReaches(bucket, log, sequence, s, from, to, cursor, first, i, ws, w);
    }
    assert ToSet(ws) == window;
    EnumeratesUnique(ws, InOrder(window), window, Before);
  }

  lemma InWindowOrder(log: Log, s: Series, a: When, b: When, sequence: nat, bucket: map<Bytes, Sample>)
    requires Files(bucket, log, sequence)
    requires IdOf(s, a) in log && IdOf(s, b) in log
    requires Less(KeyOf(IdOf(s, a)), KeyOf(IdOf(s, b)))
    ensures Before(a, b)
  {
    KeyOrder(Key(s), a.ms, a.num, b.ms, b.num);
  }

  lemma WindowHolds(log: Log, s: Series, from: nat, to: nat, w: When)
    requires w in Window(log, s, from, to)
    ensures var id := IdOf(s, w); id in log && InRange(id, s, from, to) && id.series == s && When(id.ms, id.num) == w
  {
  }

  /** Where the cursor has the key a sample is stored under. */
  lemma StoredAt(bucket: map<Bytes, Sample>, log: Log, sequence: nat, cursor: seq<Bytes>, id: SampleId) returns (k: nat)
    requires Files(bucket, log, sequence) && Enumerates(cursor, bucket.Keys, Less) && id in log
    ensures k < |cursor| && cursor[k] == KeyOf(id) && Fits(id)
  {
    hide KeyOf, Fits;
    assert KeyOf(id) in ToSet(cursor);
    k :| 0 <= k < |cursor| && cursor[k] == KeyOf(id);
  }

  lemma InOrderOf(cursor: seq<Bytes>, keys: set<Bytes>, i: nat, k: nat)
    requires Enumerates(cursor, keys, Less) && i < k < |cursor|
    ensures Less(cursor[i], cursor[k])
  {
    hide Less;
  }

  /** What is in the range lies between where the cursor was set down and where it stopped. */
  lemma WithinReach(cursor: seq<Bytes>, keys: set<Bytes>, first: nat, i: nat, lo: Bytes, hi: Bytes, k: nat)
    requires Enumerates(cursor, keys, Less) && k < |cursor| && first <= |cursor|
    requires forall j :: 0 <= j < first ==> Less(cursor[j], lo)
    requires i < |cursor| ==> !Less(cursor[i], hi)
    requires !Less(cursor[k], lo) && Less(cursor[k], hi)
    ensures first <= k < i
  {
    if k > i {
      InOrderOf(cursor, keys, i, k);
      LessTransitive(cursor[i], cursor[k], hi);
    }
    hide *;
  }

  lemma WalkedAt(bucket: map<Bytes, Sample>, log: Log, s: Series, from: nat, to: nat,
                 cursor: seq<Bytes>, first: nat, i: nat, ws: seq<When>, sequence: nat, k: nat, id: SampleId)
    requires Files(bucket, log, sequence) && Walked(bucket, log, s, from, to, cursor, first, i, ws)
    requires first <= k < i && id in log && KeyOf(id) == cursor[k]
    ensures When(id.ms, id.num) in ws
  {
    var x := IdOf(s, ws[k - first]);
    hide KeyOf, Fits, InRange;
    SampleKeyInjective(id, x);
  }

  lemma WalkedReaches(bucket: map<Bytes, Sample>, log: Log, sequence: nat, s: Series, from: nat, to: nat,
                      cursor: seq<Bytes>, first: nat, i: nat, ws: seq<When>, w: When)
    requires Files(bucket, log, sequence) && WellFormed(s) && from < MILLIS_BOUND && to < MILLIS_BOUND
    requires Enumerates(cursor, bucket.Keys, Less)
    requires Walked(bucket, log, s, from, to, cursor, first, i, ws)
    requires forall k :: 0 <= k < first ==> Less(cursor[k], SeriesRange(Key(s), from, to).0)
    requires i < |cursor| ==> !Less(cursor[i], SeriesRange(Key(s), from, to).1)
    requires w in Window(log, s, from, to)
    ensures w in ws
  {
    hide *;
    WindowHolds(log, s, from, to, w);
    var k := StoredAt(bucket, log, sequence, cursor, IdOf(s, w));
    RangeIsolation(IdOf(s, w), s, from, to);
    var range := SeriesRange(Key(s), from, to);
    WithinReach(cursor, bucket.Keys, first, i, range.0, range.1, k);
    WalkedAt(bucket, log, s, from, to, cursor, first, i, ws, sequence, k, IdOf(s, w));
  }

  /** The cursor's first key that is not below lo. */
  method Seek(cursor: seq<Bytes>, lo: Bytes) returns (i: nat)
    ensures i <= |cursor|
    ensures forall k :: 0 <= k < i ==> Less(cursor[k], lo)
    ensures i < |cursor| ==> !Less(cursor[i], lo)
  {
    i := 0;
    while i < |cursor| && Less(cursor[i], lo)
      invariant i <= |cursor|
      invariant forall k :: 0 <= k < i ==> Less(cursor[k], lo)
    {
      i := i + 1;
    }
  }

  /** The keys the cursor passes whose time is before the cutoff. */
  method CollectStale(cursor: seq<Bytes>, cutoff: int) returns (stale: set<Bytes>)
    ensures forall k :: k in stale <==> k in cursor && IsStale(k, cutoff)
  {
    stale := {};
    for i := 0 to |cursor|
      invariant forall k :: k in stale <==> k in cursor[..i] && IsStale(k, cutoff)
    {
      assert cursor[..i + 1] == cursor[..i] + [cursor[i]];
      if IsStale(cursor[i], cutoff) {
        stale := stale + {cursor[i]};
      }
    }
    assert cursor[..|cursor|] == cursor;
  }

  class Store {
    /** The bucket, as bbolt holds it, and the sequence counter beside it. */
    var samples: map<Bytes, Sample>
    var sequence: nat
    /** What has been stored and not swept, by identity. */
    ghost var log: Log

    ghost predicate Valid()
      reads this
    {
      Files(samples, log, sequence)
    }

    constructor ()
      ensures Valid() && log == map[]
    {
      samples := map[];
      sequence := 0;
      log := map[];
    }

    /** Stores one call's observations: nothing already stored is touched, and the bucket grows by
        exactly the number of observations. */
    method PutSamples(nowMs: nat, data: seq<Datum>)
      requires Valid()
      requires forall d :: d in data ==> WellFormed(d.series) && TimeOf(d, nowMs) < MILLIS_BOUND
      requires sequence + |data| < SEQUENCE_BOUND
      modifies this
      ensures Valid()
      ensures sequence == old(sequence) + |data|
      ensures |samples| == old(|samples|) + |data|
      ensures log == Recorded(old(log), old(sequence), data, nowMs)
    {
      hide Files, WellFormed;
      for n := 0 to |data|
        invariant Valid() && sequence == old(sequence) + n
        invariant |samples| == old(|samples|) + n
        invariant log == Recorded(old(log), old(sequence), data[..n], nowMs)
      {
        PutOne(data[n], nowMs);
        assert data[..n + 1][..n] == data[..n];
      }
      assert data[..|data|] == data;
    }

    method PutOne(d: Datum, nowMs: nat)
      requires Valid()
      requires WellFormed(d.series) && TimeOf(d, nowMs) < MILLIS_BOUND && sequence + 1 < SEQUENCE_BOUND
      modifies this
      ensures Valid() && sequence == old(sequence) + 1 && |samples| == old(|samples|) + 1
      ensures var id := SampleId(d.series, TimeOf(d, nowMs), sequence);
              id !in old(log) && log == old(log)[id := SampleOf(d)]
    {
      hide Key, WellFormed, Files, SampleOf, TimeOf, SampleKeyFrom;
      var series := SeriesKeyOf(d.series);
      sequence := sequence + 1;
      var key := SampleKeyFrom(series, TimeOf(d, nowMs), sequence);
      ghost var id := SampleId(d.series, TimeOf(d, nowMs), sequence);
      FilesNext(samples, log, sequence - 1, id, SampleOf(d));
      samples := samples[key := SampleOf(d)];
      log := log[id := SampleOf(d)];
    }

    /** A range read answers the samples stored under one series in the window, in (time, arrival)
        order, and no other series' samples. */
    method ReadSamples(s: Series, from: nat, to: nat) returns (out: seq<TsSample>)
      requires Valid() && WellFormed(s) && from < MILLIS_BOUND && to < MILLIS_BOUND
      ensures OfSeries(log, s, Window(log, s, from, to))
      ensures out == Listed(log, s, Window(log, s, from, to))
    {
      hide KeyOf, Key, Fits, WellFormed, SampleKeyFrom, SeriesRange, MillisAt, Project, Window, InRange,
           Ascending, ToSet, Files;
      LessIsStrictTotal();
      var series := SeriesKeyOf(s);
      var (lo, hi) := SeriesRange(series, from, to);
      var cursor := SortSet(samples.Keys, Less);
      var i := Seek(cursor, lo);
      out := [];
      ghost var first := i;
      ghost var ws: seq<When> := [];
      while i < |cursor| && Less(cursor[i], hi)
        invariant first <= i <= |cursor|
        invariant first < |cursor| ==> !Less(cursor[first], lo)
        invariant Walked(samples, log, s, from, to, cursor, first, i, ws)
        invariant forall w :: w in ws ==> IdOf(s, w) in log
        invariant out == Project(log, s, ws)
      {
        ghost var id := NextInWindow(samples, log, sequence, s, from, to, cursor, first, i, ws);
        var ms := MillisOfKey(cursor[i], |series|);
        ProjectStep(log, s, ws, When(id.ms, id.num));
        out := out + [TsSample(ms.ms, samples[cursor[i]])];
        ws := ws + [When(id.ms, id.num)];
        i := i + 1;
      }
      WindowOfSeries(log, s, from, to);
      WholeWindow(samples, log, sequence, s, from, to, cursor, first, i, ws);
    }

    /** Drops what is past the retention window, then the first keys beyond the cap. */
    method Sweep(cutoff: int, cap: nat) returns (removed: nat)
      requires Valid()
      modifies this
      ensures Valid() && sequence == old(sequence)
      ensures removed == old(|samples|) - |samples|
      ensures |samples| == Least(|Unexpired(old(log), cutoff)|, cap)
      ensures log == Swept(old(log), cutoff, cap)
    {
      hide KeyOf, Fits, Swept, Survives, Unexpired, IsStale, Ahead, Files, StrictTotal, Ascending, ToSet;
      LessIsStrictTotal();
      var cursor := SortSet(samples.Keys, Less);
      var stale := CollectStale(cursor, cutoff);
      StaleAre(samples, log, sequence, cursor, stale, cutoff);
      SizeAfter(samples, stale, samples - stale);
      ghost var live := samples.Keys - stale;
      samples := samples - stale;
      assert samples.Keys == live;
      var excess := ExcessKeys(samples.Keys, cap);
      SizeAfter(samples, excess, samples - excess);
      samples := samples - excess;
      removed := |stale| + |excess|;
      SweptFiles(old(samples), log, sequence, cutoff, cap, stale, excess, samples);
      log := Swept(log, cutoff, cap);
    }
  }

  /** The first keys beyond the cap, in key order. */
  method ExcessKeys(keys: set<Bytes>, cap: nat) returns (excess: set<Bytes>)
    ensures excess <= keys && |excess| == if |keys| > cap then |keys| - cap else 0
    ensures forall k :: k in keys ==> (k in excess <==> |Ahead(keys, k)| < |keys| - cap)
  {
    LessIsStrictTotal();
    hide *;
    excess := {};
    if |keys| > cap {
      var rest := SortSet(keys, Less);
      KeptRanks(rest, keys, |keys| - cap);
      excess := ToSet(rest[..|keys| - cap]);
    }
  }

  function Least(a: nat, b: nat): nat {
    if a <= b then a else b
  }

  predicate IsStale(key: Bytes, cutoff: int) {
    var ms := MillisAnywhere(key);
    ms.Millis? && ms.ms < cutoff
  }

  /** The keys whose sample is not past the retention window. */
  ghost function Unexpired(log: Log, cutoff: int): set<Bytes> {
    set id | id in log && id.ms >= cutoff :: KeyOf(id)
  }

  /** What a sweep leaves: a sample stays exactly when it is unexpired and enough unexpired keys sort
      before its own to fill what the cap drops. */
  ghost predicate Survives(log: Log, cutoff: int, cap: nat, id: SampleId) {
    && id.ms >= cutoff
    && |Ahead(Unexpired(log, cutoff), KeyOf(id))| >= |Unexpired(log, cutoff)| - cap
  }

  ghost function Swept(log: Log, cutoff: int, cap: nat): Log {
    map id | id in log && Survives(log, cutoff, cap, id) :: log[id]
  }

  lemma StaleAre(bucket: map<Bytes, Sample>, log: Log, sequence: nat, cursor: seq<Bytes>, stale: set<Bytes>, cutoff: int)
    requires Files(bucket, log, sequence) && Enumerates(cursor, bucket.Keys, Less)
    requires forall k :: k in stale <==> k in cursor && IsStale(k, cutoff)
    ensures stale <= bucket.Keys
    ensures bucket.Keys - stale == Unexpired(log, cutoff)
  {
    hide KeyOf, Fits, MillisAnywhere;
    assert forall k :: k in bucket <==> k in ToSet(cursor);
    forall k | k in bucket
      ensures k in stale <==> k !in Unexpired(log, cutoff)
    {
      var id :| id in log && KeyOf(id) == k;
      MillisAnywhereOfSampleKey(id);
      SameKeySameTime(log, id, cutoff);
    }
  }

  lemma SweptFiles(bucket: map<Bytes, Sample>, log: Log, sequence: nat, cutoff: int, cap: nat,
                   stale: set<Bytes>, gone: set<Bytes>, after: map<Bytes, Sample>)
    requires Files(bucket, log, sequence)
    requires stale <= bucket.Keys && bucket.Keys - stale == Unexpired(log, cutoff)
    requires after == bucket - stale - gone
    requires forall k :: k in Unexpired(log, cutoff) ==>
               (k in gone <==> |Ahead(Unexpired(log, cutoff), k)| < |bucket| - |stale| - cap)
    ensures Files(after, Swept(log, cutoff, cap), sequence)
    ensures |Unexpired(log, cutoff)| == |bucket| - |stale|
  {
    hide KeyOf, Fits, Ahead;
    var live := Unexpired(log, cutoff);
    assert |live| == |bucket| - |stale| by {
      SizeAfter(bucket, stale, bucket - stale);
      assert (bucket - stale).Keys == live;
    }
    forall id | id in log
      ensures id in Swept(log, cutoff, cap) <==> KeyOf(id) in after
    {
      SameKeySameTime(log, id, cutoff);
    }
    RestrictedFiles(bucket, log, sequence, after, Swept(log, cutoff, cap));
  }

  /** Dropping keys from the bucket and the same samples from the log keeps them in step. */
  lemma RestrictedFiles(bucket: map<Bytes, Sample>, log: Log, sequence: nat, bucket': map<Bytes, Sample>, log': Log)
    requires Files(bucket, log, sequence)
    requires bucket'.Keys <= bucket.Keys && forall k :: k in bucket' ==> bucket'[k] == bucket[k]
    requires log'.Keys <= log.Keys && forall id :: id in log' ==> log'[id] == log[id]
    requires forall id :: id in log ==> (id in log' <==> KeyOf(id) in bucket')
    ensures Files(bucket', log', sequence)
  {
    hide KeyOf, Fits;
    forall k | k in bucket'
      ensures exists id :: id in log' && KeyOf(id) == k
    {
      var id :| id in log && KeyOf(id) == k;
      assert id in log';
    }
  }

  lemma SameKeySameTime(log: Log, id: SampleId, cutoff: int)
    requires forall j :: j in log ==> Fits(j)
    requires id in log
    ensures KeyOf(id) in Unexpired(log, cutoff) <==> id.ms >= cutoff
  {
    hide KeyOf, Fits;
    forall j | j in log && KeyOf(j) == KeyOf(id)
      ensures j == id
    {
      SampleKeyInjective(j, id);
    }
  }

  lemma SizeAfter<K, V>(m: map<K, V>, ks: set<K>, n: map<K, V>)
    requires ks <= m.Keys && n == m - ks
    ensures |n| == |m| - |ks|
  {
    assert n.Keys == m.Keys - ks;
    assert |n.Keys| == |m.Keys| - |ks|;
  }

  /** Dropping a prefix of the enumeration keeps the keys with at least that many ahead of them. */
  lemma KeptRanks(ks: seq<Bytes>, keys: set<Bytes>, over: nat)
    requires Enumerates(ks, keys, Less) && over <= |keys|
    ensures |ks| == |keys|
    ensures forall k :: k in keys ==> (k in ToSet(ks[..over]) <==> |Ahead(keys, k)| < over)
    ensures ToSet(ks[..over]) <= keys && |ToSet(ks[..over])| == over
  {
    LessIsStrictTotal();
    AscendingSize(ks, Less);
    FirstRanks(ks, keys, over, Less);
    forall k
      ensures Ahead(keys, k) == Preceding(keys, k, Less)
    {
    }
  }

  /** The samples not past a cutoff. */
  ghost function Since(log: Log, cutoff: int): set<SampleId> {
    set id | id in log && id.ms >= cutoff
  }

  /** A sweep leaves none that is past the cutoff and as many of the others as there is room for, and of these it
      drops the ones whose keys sort first. */
  lemma SweptIs(bucket: map<Bytes, Sample>, log: Log, sequence: nat, cutoff: int, cap: nat)
    requires Files(bucket, log, sequence)
    ensures var live, left := Since(log, cutoff), Swept(log, cutoff, cap).Keys;
            && left <= live
            && |left| == (if |live| < cap then |live| else cap)
            && forall a, b :: a in live && a !in left && b in left ==> Less(KeyOf(a), KeyOf(b))
  {
    SweptSize(bucket, log, sequence, cutoff, cap);
    KeysOfLive(bucket, log, sequence, cutoff);
    hide KeyOf, Less, Files, Survives;
    assert Swept(log, cutoff, cap).Keys <= Since(log, cutoff) by {
      hide Ahead, Unexpired;
    }
    forall a, b | a in Since(log, cutoff) && a !in Swept(log, cutoff, cap) && b in Swept(log, cutoff, cap)
      ensures Less(KeyOf(a), KeyOf(b))
    {
      DropsFirst(log, cutoff, cap, a, b);
    }
  }

  lemma SweptSize(bucket: map<Bytes, Sample>, log: Log, sequence: nat, cutoff: int, cap: nat)
    requires Files(bucket, log, sequence)
    ensures |Swept(log, cutoff, cap).Keys| == if |Since(log, cutoff)| < cap then |Since(log, cutoff)| else cap
  {
    var left, keys := Swept(log, cutoff, cap).Keys, Unexpired(log, cutoff);
    KeysOfLive(bucket, log, sequence, cutoff);
    var excess := Excess(keys, cap);
    KeysOfSwept(log, cutoff, cap, excess);
    hide *;
    KeysDistinctSize(log, left, keys - excess);
  }

  lemma Excess(keys: set<Bytes>, cap: nat) returns (excess: set<Bytes>)
    ensures excess <= keys && |keys - excess| == if |keys| < cap then |keys| else cap
    ensures forall k :: k in keys ==> (k in excess <==> |Ahead(keys, k)| < |keys| - cap)
  {
    LessIsStrictTotal();
    hide *;
    excess := {};
    if |keys| > cap {
      var ks := Enum(keys, Less);
      KeptRanks(ks, keys, |keys| - cap);
      excess := ToSet(ks[..|keys| - cap]);
      assert |keys - excess| == |keys| - |excess|;
    } else {
      assert keys - excess == keys;
    }
  }

  lemma KeysOfSwept(log: Log, cutoff: int, cap: nat, excess: set<Bytes>)
    requires var keys := Unexpired(log, cutoff); forall k :: k in keys ==> (k in excess <==> |Ahead(keys, k)| < |keys| - cap)
    ensures forall k :: k in Unexpired(log, cutoff) - excess <==> exists id :: id in Swept(log, cutoff, cap).Keys && KeyOf(id) == k
    ensures Swept(log, cutoff, cap).Keys <= log.Keys
  {
    hide KeyOf, Ahead;
    forall k | k in Unexpired(log, cutoff) - excess
      ensures exists id :: id in Swept(log, cutoff, cap).Keys && KeyOf(id) == k
    {
      var id :| id in log && id.ms >= cutoff && KeyOf(id) == k;
      assert Survives(log, cutoff, cap, id);
    }
  }

  lemma DropsFirst(log: Log, cutoff: int, cap: nat, a: SampleId, b: SampleId)
    requires forall a, b :: a in log && b in log && KeyOf(a) == KeyOf(b) ==> a == b
    requires a in Since(log, cutoff) && a !in Swept(log, cutoff, cap) && b in Swept(log, cutoff, cap)
    ensures Less(KeyOf(a), KeyOf(b))
  {
    hide KeyOf, Less, Ahead;
    LessTotal(KeyOf(a), KeyOf(b));
    if Less(KeyOf(b), KeyOf(a)) {
      AheadGrows(Unexpired(log, cutoff), KeyOf(b), KeyOf(a));
    }
  }

  lemma KeysOfLive(bucket: map<Bytes, Sample>, log: Log, sequence: nat, cutoff: int)
    requires Files(bucket, log, sequence)
    ensures |Unexpired(log, cutoff)| == |Since(log, cutoff)|
    ensures forall a, b :: a in log && b in log && KeyOf(a) == KeyOf(b) ==> a == b
  {
    hide KeyOf, Fits;
    forall a, b | a in log && b in log && KeyOf(a) == KeyOf(b)
      ensures a == b
    {
      SampleKeyInjective(a, b);
    }
    KeysDistinctSize(log, Since(log, cutoff), Unexpired(log, cutoff));
  }

  lemma {:induction false} KeysDistinctSize(log: Log, ids: set<SampleId>, keys: set<Bytes>)
    requires forall a, b :: a in log && b in log && KeyOf(a) == KeyOf(b) ==> a == b
    requires ids <= log.Keys
    requires forall k :: k in keys <==> exists id :: id in ids && KeyOf(id) == k
    ensures |ids| == |keys|
    decreases |ids|
  {
    hide KeyOf;
    if id :| id in ids {
      forall k
        ensures k in keys - {KeyOf(id)} <==> exists j :: j in ids - {id} && KeyOf(j) == k
      {
        if k in keys - {KeyOf(id)} {
          var j :| j in ids && KeyOf(j) == k;
          assert j in ids - {id};
        }
      }
      assert KeyOf(id) in keys;
      KeysDistinctSize(log, ids - {id}, keys - {KeyOf(id)});
    } else {
      assert keys == {};
    }
  }

  // ---- What a sweep means for one series ----

  lemma AheadGrows(keys: set<Bytes>, k: Bytes, l: Bytes)
    requires k in keys && Less(k, l)
    ensures |Ahead(keys, k)| < |Ahead(keys, l)|
  {
    LessIrreflexive(k);
    forall j | j in Ahead(keys, k)
      ensures j in Ahead(keys, l)
    {
      LessTransitive(j, k, l);
    }
    SubsetSize(Ahead(keys, k) + {k}, Ahead(keys, l));
  }

  /** Within a series a sweep drops only the oldest: whatever it drops is earlier than all it keeps. */
  lemma SweepDropsOldest(log: Log, sequence: nat, bucket: map<Bytes, Sample>, cutoff: int, cap: nat, a: SampleId, b: SampleId)
    requires Files(bucket, log, sequence)
    requires a in log && b in Swept(log, cutoff, cap) && a !in Swept(log, cutoff, cap)
    requires a.series == b.series
    ensures Earlier(a, b)
  {
    hide Ahead, Unexpired;
    KeyOrder(Key(a.series), a.ms, a.num, b.ms, b.num);
    if a.ms >= cutoff {
      SameKeySameTime(log, b, cutoff);
      LessTotal(KeyOf(a), KeyOf(b));
      if KeyOf(a) == KeyOf(b) {
        SampleKeyInjective(a, b);
      } else if Less(KeyOf(b), KeyOf(a)) {
        AheadGrows(Unexpired(log, cutoff), KeyOf(b), KeyOf(a));
      }
    }
  }

  /** A series outlives a sweep exactly when its newest unexpired sample does: when the unexpired keys
      ahead of that sample, of any series, are enough to fill what the cap drops. */
  lemma SeriesSurvivesIff(log: Log, sequence: nat, bucket: map<Bytes, Sample>, cutoff: int, cap: nat, newest: SampleId)
    requires Files(bucket, log, sequence)
    requires newest in log && newest.ms >= cutoff
    requires forall id :: id in log && id.series == newest.series && id != newest ==> Earlier(id, newest)
    ensures (exists id :: id in Swept(log, cutoff, cap) && id.series == newest.series)
            <==> |Ahead(Unexpired(log, cutoff), KeyOf(newest))| >= |Unexpired(log, cutoff)| - cap
  {
    hide Ahead, Unexpired, KeyOf, Fits;
    forall id | id in Swept(log, cutoff, cap) && id.series == newest.series
      ensures newest in Swept(log, cutoff, cap)
    {
      if newest !in Swept(log, cutoff, cap) {
        SweepDropsOldest(log, sequence, bucket, cutoff, cap, newest, id);
      }
    }
  }

  function Named(name: byte): Series {
    Series([name], [name], map[])
  }

  /** With room for one of two samples, the one whose key sorts last stays. */
  lemma LastOfTwoStays(a: SampleId, b: SampleId, v: Sample)
    requires Less(KeyOf(a), KeyOf(b))
    ensures Swept(map[a := v, b := v], 0, 1).Keys == {b}
  {
    hide KeyOf, Less;
    var log := map[a := v, b := v];
    LessAsymmetric(KeyOf(a), KeyOf(b));
    LessIrreflexive(KeyOf(a));
    LessIrreflexive(KeyOf(b));
    var u := Unexpired(log, 0);
    assert a in log && b in log;
    assert u == {KeyOf(a), KeyOf(b)};
    assert Ahead(u, KeyOf(a)) == {} && Ahead(u, KeyOf(b)) == {KeyOf(a)};
    assert a != b;
    assert |u| == 2;
  }

  /** The cap can take a quiet series whole: one sample each of two series and room for one keeps
      only the series whose key sorts last, however recent the other is. */
  lemma QuietSeriesCanVanish(v: Sample)
    ensures var quiet, noisy := SampleId(Named(97), 50, 2), SampleId(Named(98), 10, 1);
            Swept(map[quiet := v, noisy := v], 0, 1).Keys == {noisy} && Earlier(noisy, quiet)
  {
    var quiet, noisy := SampleId(Named(97), 50, 2), SampleId(Named(98), 10, 1);
    assert KeyOf(quiet)[0] == 97 && KeyOf(noisy)[0] == 98;
    LastOfTwoStays(quiet, noisy, v);
  }
}
