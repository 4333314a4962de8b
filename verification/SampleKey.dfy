/** Sample keys: <series> NUL <13-digit millis> NUL <10-digit sequence>. */
module SampleKey {
  import opened Bytes
  import opened Decimal
  import opened SeriesKey

  const MAX_UINT32: nat := 0xFFFF_FFFF

  /** What one stored observation is filed under. */
  datatype SampleId = SampleId(series: Series, ms: nat, num: nat)

  /** The bounds within which the fixed-width fields hold. */
  ghost predicate Fits(id: SampleId) {
    WellFormed(id.series) && id.ms < MILLIS_BOUND && id.num < SEQUENCE_BOUND
  }

  /** The order of one series' samples: by time, then by arrival. */
  predicate Earlier(a: SampleId, b: SampleId) {
    a.ms < b.ms || (a.ms == b.ms && a.num < b.num)
  }

  function Stamp(ms: nat, num: nat): Bytes {
    Padded(ms, 13) + [NUL] + Padded(num, 10)
  }

  function SampleKeyFrom(series: Bytes, ms: nat, num: nat): Bytes {
    series + [NUL] + Stamp(ms, num)
  }

  ghost function KeyOf(id: SampleId): Bytes {
    SampleKeyFrom(Key(id.series), id.ms, id.num)
  }

  function SeriesRange(series: Bytes, from: nat, to: nat): (Bytes, Bytes) {
    (SampleKeyFrom(series, from, 0), SampleKeyFrom(series, to, MAX_UINT32))
  }

  lemma {:induction false} PaddedHasNoNul(n: nat, w: nat)
    ensures NUL !in Padded(n, w)
    decreases n + w
  {
    if n > 0 || w > 0 {
      PaddedHasNoNul(n / 10, if w == 0 then 0 else w - 1);
    }
  }

  lemma StampOrder(ms: nat, num: nat, ms': nat, num': nat)
    requires ms < MILLIS_BOUND && num < SEQUENCE_BOUND && ms' < MILLIS_BOUND && num' < SEQUENCE_BOUND
    ensures Less(Stamp(ms, num), Stamp(ms', num')) <==> (ms < ms' || (ms == ms' && num < num'))
  {
    BoundsArePowers();
    FitsWidth(ms, 13);
    FitsWidth(ms', 13);
    var x, y := [NUL] + Padded(num, 10), [NUL] + Padded(num', 10);
    assert Stamp(ms, num) == Padded(ms, 13) + x && Stamp(ms', num') == Padded(ms', 13) + y;
    if ms < ms' {
      PaddedOrder(ms, ms', 13);
      LessSuffix(Padded(ms, 13), Padded(ms', 13), x, y);
    } else if ms' < ms {
      PaddedOrder(ms', ms, 13);
      LessSuffix(Padded(ms', 13), Padded(ms, 13), y, x);
      LessAsymmetric(Stamp(ms', num'), Stamp(ms, num));
    } else {
      LessPrefix(Padded(ms, 13), x, y);
      LessPrefix([NUL], Padded(num, 10), Padded(num', 10));
      PaddedOrderIff(num, num', 10);
    }
  }

  lemma LessAsymmetric(a: Bytes, b: Bytes)
    requires Less(a, b)
    ensures !Less(b, a)
  {
    if Less(b, a) {
      LessTransitive(a, b, a);
      LessIrreflexive(a);
    }
  }

  /** Within a series, byte order of the keys is (time, arrival) order. */
  lemma KeyOrder(series: Bytes, ms: nat, num: nat, ms': nat, num': nat)
    requires ms < MILLIS_BOUND && num < SEQUENCE_BOUND && ms' < MILLIS_BOUND && num' < SEQUENCE_BOUND
    ensures Less(SampleKeyFrom(series, ms, num), SampleKeyFrom(series, ms', num'))
            <==> (ms < ms' || (ms == ms' && num < num'))
  {
    BoundsArePowers();
    StampOrder(ms, num, ms', num');
    LessPrefix(series + [NUL], Stamp(ms, num), Stamp(ms', num'));
  }

  /** A key names one sample: the series, the time and the sequence read back out of it. */
  lemma SampleKeyInjective(a: SampleId, b: SampleId)
    requires Fits(a) && Fits(b)
    requires KeyOf(a) == KeyOf(b)
    ensures a == b
  {
    BoundsArePowers();
    PaddedHasNoNul(a.num, 10);
    PaddedHasNoNul(b.num, 10);
    PaddedHasNoNul(a.ms, 13);
    PaddedHasNoNul(b.ms, 13);
    var x, y := Key(a.series) + [NUL] + Padded(a.ms, 13), Key(b.series) + [NUL] + Padded(b.ms, 13);
    assert KeyOf(a) == x + [NUL] + Padded(a.num, 10) && KeyOf(b) == y + [NUL] + Padded(b.num, 10);
    SplitLast(NUL, x, Padded(a.num, 10), y, Padded(b.num, 10));
    SplitLast(NUL, Key(a.series), Padded(a.ms, 13), Key(b.series), Padded(b.ms, 13));
    PaddedInjective(a.num, b.num, 10);
    PaddedInjective(a.ms, b.ms, 13);
    KeyInjective(a.series, b.series);
  }

  // ---- Range isolation ----

  /** The first place two strings differ decides their order, whatever follows it. */
  lemma {:induction false} FirstDifference(a: Bytes, b: Bytes, x: Bytes, y: Bytes)
    requires a != b
    requires !(a <= b) && !(b <= a)
    ensures Less(a + x, b + y) == Less(a, b)
    decreases |a|
  {
    assert (a + x)[0] == a[0] && (b + y)[0] == b[0];
    assert (a + x)[1..] == a[1..] + x && (b + y)[1..] == b[1..] + y;
    if a[0] == b[0] {
      assert a == [a[0]] + a[1..] && b == [b[0]] + b[1..];
      assert !(a[1..] <= b[1..]) && !(b[1..] <= a[1..]);
      FirstDifference(a[1..], b[1..], x, y);
    }
  }

  /** Another series' key sorts on one side of all the keys of this one. */
  lemma OtherSeriesOutside(s: Series, t: Series, x: Bytes, lo: Bytes, hi: Bytes)
    requires WellFormed(s) && WellFormed(t) && s != t
    ensures Less(Key(t) + [NUL] + x, Key(s) + [NUL] + lo) <==> Less(Key(t) + [NUL] + x, Key(s) + [NUL] + hi)
  {
    hide Key, WellFormed;
    var a, b := Key(t), Key(s);
    if a == b {
      KeyInjective(s, t);
      assert false;
    } else if a <= b {
      PrefixDecides(t, s, x, lo);
      PrefixDecides(t, s, x, hi);
    } else if b <= a {
      PrefixDecides(s, t, lo, x);
      PrefixDecides(s, t, hi, x);
      LessAsymmetric(b + [NUL] + lo, a + [NUL] + x);
      LessAsymmetric(b + [NUL] + hi, a + [NUL] + x);
    } else {
      assert a + [NUL] + x == a + ([NUL] + x);
      assert b + [NUL] + lo == b + ([NUL] + lo) && b + [NUL] + hi == b + ([NUL] + hi);
      FirstDifference(a, b, [NUL] + x, [NUL] + lo);
      FirstDifference(a, b, [NUL] + x, [NUL] + hi);
    }
  }

  /** When one key begins another, the shorter series' samples all sort first. */
  lemma PrefixDecides(t: Series, s: Series, x: Bytes, y: Bytes)
    requires WellFormed(s) && WellFormed(t)
    requires Key(t) <= Key(s) && Key(t) != Key(s)
    ensures Less(Key(t) + [NUL] + x, Key(s) + [NUL] + y)
  {
    hide Key, WellFormed;
    var a, b := Key(t), Key(s);
    var rest := b[|a|..];
    assert b == a + rest;
    if rest[0] == NUL {
      assert b == a + [NUL] + rest[1..];
      KeyNotExtendedByNul(t, s, rest[1..]);
      assert false;
    }
    ShorterFirst(a, rest, x, [NUL] + y);
    assert b + [NUL] + y == a + rest + ([NUL] + y);
  }

  lemma ShorterFirst(a: Bytes, rest: Bytes, x: Bytes, y: Bytes)
    requires rest != [] && rest[0] != NUL
    ensures Less(a + [NUL] + x, a + rest + y)
  {
    assert a + [NUL] + x == a + ([NUL] + x);
    assert a + rest + y == a + (rest + y);
    LessPrefix(a, [NUL] + x, rest + y);
  }

  /** The samples a range read of a series admits: the window, and of the samples at its very end
      those whose sequence number is below the range's upper bound. */
  predicate InRange(id: SampleId, series: Series, from: nat, to: nat) {
    && id.series == series
    && from <= id.ms
    && (id.ms < to || (id.ms == to && id.num < MAX_UINT32))
  }

  /** The byte range of a series holds the keys of exactly the samples InRange admits. */
  lemma RangeIsolation(id: SampleId, series: Series, from: nat, to: nat)
    requires Fits(id) && WellFormed(series) && from < MILLIS_BOUND && to < MILLIS_BOUND
    ensures var (lo, hi) := SeriesRange(Key(series), from, to);
            !Less(KeyOf(id), lo) && Less(KeyOf(id), hi) <==> InRange(id, series, from, to)
  {
    if id.series == series {
      KeyOrder(Key(series), id.ms, id.num, from, 0);
      KeyOrder(Key(series), id.ms, id.num, to, MAX_UINT32);
    } else {
      OtherSeriesOutside(series, id.series, Stamp(id.ms, id.num), Stamp(from, 0), Stamp(to, MAX_UINT32));
    }
  }

  // ---- Reading the time back ----

  datatype Millis = NoMillis | Millis(ms: nat)

  /** What thirteen digit bytes at an offset spell. */
  function MillisAt(key: Bytes, seriesLen: nat): Millis {
    var start := seriesLen + 1;
    if |key| < start + 13 then NoMillis
    else
      match Parse(key[start..start + 13])
      case NotANumber => NoMillis
      case Number(v) => Millis(v)
  }

  lemma {:induction false} ParseStops(s: Bytes, i: nat)
    requires i <= |s| && Parse(s[..i]).NotANumber?
    ensures Parse(s).NotANumber?
    decreases |s| - i
  {
    if i == |s| {
      assert s[..i] == s;
    } else {
      assert s[..i + 1][..i] == s[..i];
      ParseStops(s, i + 1);
    }
  }

  method MillisOfKey(key: Bytes, seriesLen: nat) returns (r: Millis)
    ensures r == MillisAt(key, seriesLen)
  {
    var start := seriesLen + 1;
    if |key| < start + 13 {
      return NoMillis;
    }
    var ms: nat := 0;
    var digits := key[start..start + 13];
    for i := 0 to 13
      invariant Parse(digits[..i]) == Number(ms)
    {
      var c := digits[i];
      assert digits[..i + 1][..i] == digits[..i];
      if c < 48 || c > 57 {
        ParseStops(digits, i + 1);
        return NoMillis;
      }
      ms := ms * 10 + (c as int - 48);
    }
    assert digits[..13] == digits;
    r := Millis(ms);
  }

  lemma MillisOfSampleKey(id: SampleId)
    requires Fits(id)
    ensures MillisAt(KeyOf(id), |Key(id.series)|) == Millis(id.ms)
  {
    BoundsArePowers();
    FitsWidth(id.ms, 13);
    ParsePadded(id.ms, 13);
    var start := |Key(id.series)| + 1;
    assert KeyOf(id)[start..start + 13] == Padded(id.ms, 13);
  }

  /** bytes.LastIndexByte(b, 0), or |b| when there is none. */
  function LastNul(b: Bytes): (i: nat)
    ensures i <= |b|
    ensures i < |b| ==> b[i] == NUL && NUL !in b[i + 1..]
    ensures i == |b| ==> NUL !in b
  {
    LastNulFrom(b, |b|)
  }

  function LastNulFrom(b: Bytes, n: nat): (i: nat)
    requires n <= |b| && NUL !in b[n..]
    ensures i <= |b|
    ensures i < |b| ==> b[i] == NUL && NUL !in b[i + 1..]
    ensures i == |b| ==> NUL !in b
  {
    if n == 0 then
      assert b[0..] == b;
      |b|
    else if b[n - 1] == NUL then n - 1
    else
      assert b[n - 1..] == [b[n - 1]] + b[n..];
      LastNulFrom(b, n - 1)
  }

  function MillisAnywhere(key: Bytes): Millis {
    var last := LastNul(key);
    if last == |key| then NoMillis
    else
      var prev := LastNul(key[..last]);
      if prev == last then NoMillis else MillisAt(key, prev)
  }

  lemma LastNulIs(a: Bytes, x: Bytes)
    requires NUL !in x
    ensures LastNul(a + [NUL] + x) == |a|
  {
    var w := a + [NUL] + x;
    var i := LastNul(w);
    assert w[|a|] == NUL;
    assert w == w[..i] + [NUL] + w[i + 1..];
    SplitLast(NUL, w[..i], w[i + 1..], a, x);
  }

  /** Without knowing the series, the sweep reads the same time out of a key. */
  lemma MillisAnywhereOfSampleKey(id: SampleId)
    requires Fits(id)
    ensures MillisAnywhere(KeyOf(id)) == Millis(id.ms)
  {
    PaddedHasNoNul(id.num, 10);
    PaddedHasNoNul(id.ms, 13);
    var head := Key(id.series) + [NUL] + Padded(id.ms, 13);
    assert KeyOf(id) == head + [NUL] + Padded(id.num, 10);
    LastNulIs(head, Padded(id.num, 10));
    assert KeyOf(id)[..|head|] == head;
    LastNulIs(Key(id.series), Padded(id.ms, 13));
    MillisOfSampleKey(id);
  }
}
