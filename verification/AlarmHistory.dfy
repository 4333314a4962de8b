/** The alarm history bucket: how entries are keyed, and what order a listing reads them in. */
module AlarmHistory {
  import opened Bytes
  import opened Decimal
  import opened Sorting
  import opened SeriesKey
  import opened Evaluate

  datatype Change = StateUpdate(old_: State, new_: State) | ConfigurationUpdate(summary: string)

  datatype Entry = Entry(alarm: Bytes, change: Change, atMs: nat)

  /** pad13 and pad10: fills a fixed buffer from the right, dropping what does not fit. */
  method Pad(v: nat, width: nat) returns (s: array<byte>)
    ensures fresh(s) && s[..] == LowDigits(v, width)
  {
    s := new byte[width](_ => 0);
    var rest, i := v, width;
    while i > 0
      invariant 0 <= i <= width
      invariant LowDigits(v, width) == LowDigits(rest, i) + s[i..]
    {
      i := i - 1;
      ghost var tail := s[i + 1..];
      s[i] := Digit(rest % 10);
      assert s[i..] == [Digit(rest % 10)] + tail;
      rest := rest / 10;
    }
    assert s[0..] == s[..];
  }

  function HistoryKey(atMs: nat, name: Bytes, num: nat): Bytes {
    LowDigits(atMs, 13) + [NUL] + name + [NUL] + LowDigits(num, 10)
  }

  method HistoryKeyOf(atMs: nat, name: Bytes, num: nat) returns (key: Bytes)
    ensures key == HistoryKey(atMs, name, num)
  {
    var at := Pad(atMs, 13);
    var seqNo := Pad(num, 10);
    key := at[..] + [NUL];
    key := key + name + [NUL];
    key := key + seqNo[..];
  }

  /** An entry with the sequence number the bucket gave it. */
  datatype Logged = Logged(num: nat, entry: Entry)

  function KeyOfLogged(l: Logged): Bytes {
    HistoryKey(l.entry.atMs, l.entry.alarm, l.num)
  }

  /** Entries in the order they were appended, under a clock that never runs backwards. */
  ghost predicate Journal(js: seq<Logged>) {
    && (forall i :: 0 <= i < |js| ==> js[i].num < SEQUENCE_BOUND && js[i].entry.atMs < MILLIS_BOUND)
    && (forall i, j :: 0 <= i < j < |js| ==> js[i].num < js[j].num && js[i].entry.atMs <= js[j].entry.atMs)
  }

  /** The bucket files exactly the journal's entries. */
  ghost predicate Filed(bucket: map<Bytes, Entry>, js: seq<Logged>) {
    && (forall l :: l in js ==> KeyOfLogged(l) in bucket && bucket[KeyOfLogged(l)] == l.entry)
    && (forall k :: k in bucket ==> exists l :: l in js && KeyOfLogged(l) == k)
  }

  /** The sequence number can be read back, so no two entries share a key. */
  lemma KeysDiffer(a: Logged, b: Logged)
    requires a.num < SEQUENCE_BOUND && b.num < SEQUENCE_BOUND
    requires KeyOfLogged(a) == KeyOfLogged(b)
    ensures a.num == b.num
  {
    BoundsArePowers();
    FitsWidth(a.num, 10);
    FitsWidth(b.num, 10);
    var x, y := KeyOfLogged(a), KeyOfLogged(b);
    assert x[|x| - 10..] == LowDigits(a.num, 10) && y[|y| - 10..] == LowDigits(b.num, 10);
    PaddedInjective(a.num, b.num, 10);
  }

  /** One alarm's entries sort by time, then by arrival. */
  lemma SameAlarmOrder(a: Logged, b: Logged)
    requires a.entry.alarm == b.entry.alarm
    requires a.num < b.num < SEQUENCE_BOUND && a.entry.atMs <= b.entry.atMs < MILLIS_BOUND
    ensures Less(KeyOfLogged(a), KeyOfLogged(b))
  {
    hide HistoryKey, Less;
    KeyParts(a.entry.atMs, a.entry.alarm, a.num);
    KeyParts(b.entry.atMs, b.entry.alarm, b.num);
    if a.entry.atMs < b.entry.atMs {
      TimeDecides(a.entry.atMs, b.entry.atMs, [NUL] + a.entry.alarm + [NUL] + LowDigits(a.num, 10), [NUL] + a.entry.alarm + [NUL] + LowDigits(b.num, 10));
    } else {
      ArrivalDecides(LowDigits(a.entry.atMs, 13), [NUL] + a.entry.alarm + [NUL], a.num, b.num);
    }
  }

  lemma TimeDecides(atMs: nat, atMs': nat, x: Bytes, y: Bytes)
    requires atMs < atMs' < MILLIS_BOUND
    ensures Less(LowDigits(atMs, 13) + x, LowDigits(atMs', 13) + y)
  {
    BoundsArePowers();
    hide LowDigits, Padded;
    FitsWidth(atMs, 13);
    FitsWidth(atMs', 13);
    PaddedOrder(atMs, atMs', 13);
    LessSuffix(LowDigits(atMs, 13), LowDigits(atMs', 13), x, y);
  }

  lemma ArrivalDecides(at: Bytes, mid: Bytes, num: nat, num': nat)
    requires num < num' < SEQUENCE_BOUND
    ensures Less(at + (mid + LowDigits(num, 10)), at + (mid + LowDigits(num', 10)))
  {
    BoundsArePowers();
    hide LowDigits, Padded;
    FitsWidth(num, 10);
    FitsWidth(num', 10);
    PaddedOrder(num, num', 10);
    LessPrefix(mid, LowDigits(num, 10), LowDigits(num', 10));
    LessPrefix(at, mid + LowDigits(num, 10), mid + LowDigits(num', 10));
  }

  lemma KeyParts(atMs: nat, name: Bytes, num: nat)
    ensures HistoryKey(atMs, name, num) == LowDigits(atMs, 13) + ([NUL] + name + [NUL] + LowDigits(num, 10))
  {
  }

  // ---- Listing ----

  /** Which entries a listing asks for; an empty name or kind asks for all. */
  datatype Query = Query(alarm: Bytes, kind: string, from: nat, to: nat)

  function KindOf(c: Change): string {
    match c
    case StateUpdate(_, _) => "StateUpdate"
    case ConfigurationUpdate(_) => "ConfigurationUpdate"
  }

  /** A zero bound is no bound, and the end is exclusive. */
  predicate Asked(q: Query, e: Entry) {
    && (q.alarm == [] || e.alarm == q.alarm)
    && (q.kind == "" || KindOf(e.change) == q.kind)
    && (q.from == 0 || q.from <= e.atMs)
    && (q.to == 0 || e.atMs < q.to)
  }

  function Reversed<T>(s: seq<T>): (r: seq<T>)
    ensures |r| == |s|
    ensures forall i :: 0 <= i < |s| ==> r[i] == s[|s| - 1 - i]
  {
    if s == [] then [] else [s[|s| - 1]] + Reversed(s[..|s| - 1])
  }

  function Limited<T>(s: seq<T>, limit: int): seq<T> {
    if 0 < limit < |s| then s[..limit] else s
  }

  /** The entries a listing collects, before it is turned newest first. */
  ghost function Collected(bucket: map<Bytes, Entry>, ks: seq<Bytes>, q: Query): seq<Entry>
    requires forall k :: k in ks ==> k in bucket
  {
    if ks == [] then []
    else
      var e := bucket[ks[|ks| - 1]];
      Collected(bucket, ks[..|ks| - 1], q) + (if Asked(q, e) then [e] else [])
  }

  method ReverseInPlace<T>(a: array<T>)
    modifies a
    ensures a[..] == Reversed(old(a[..]))
  {
    var i, j := 0, a.Length - 1;
    while i < j
      invariant 0 <= i <= j + 1 <= a.Length && i + j == a.Length - 1
      invariant forall k :: 0 <= k < i ==> a[k] == old(a[a.Length - 1 - k]) && a[a.Length - 1 - k] == old(a[k])
      invariant forall k :: i <= k <= j ==> a[k] == old(a[k])
    {
      a[i], a[j] := a[j], a[i];
      i, j := i + 1, j - 1;
    }
    ghost var was := old(a[..]);
    assert forall k :: 0 <= k < a.Length ==> a[k] == was[a.Length - 1 - k];
  }

  method ReadHistory(bucket: map<Bytes, Entry>, q: Query, limit: int) returns (out: seq<Entry>)
    ensures forall k :: k in InByteOrder(bucket.Keys) ==> k in bucket
    ensures out == Limited(Reversed(Collected(bucket, InByteOrder(bucket.Keys), q)), limit)
  {
    hide Asked, StrictTotal;
    InByteOrderKnown(bucket.Keys);
    LessIsStrictTotal();
    var ks := SortSet(bucket.Keys, Less);
    var found := Collect(bucket, ks, q);
    var a := new Entry[|found|](i requires 0 <= i < |found| => found[i]);
    assert a[..] == found;
    ReverseInPlace(a);
    out := a[..];
    if limit > 0 && |out| > limit {
      out := out[..limit];
    }
  }

  method Collect(bucket: map<Bytes, Entry>, ks: seq<Bytes>, q: Query) returns (found: seq<Entry>)
    requires forall k :: k in ks ==> k in bucket
    ensures found == Collected(bucket, ks, q)
  {
    hide Asked;
    found := [];
    for i := 0 to |ks|
      invariant found == Collected(bucket, ks[..i], q)
    {
      assert ks[..i + 1][..i] == ks[..i];
      var e := bucket[ks[i]];
      if Asked(q, e) {
        found := found + [e];
      }
    }
    assert ks[..|ks|] == ks;
  }

  // ---- For one alarm, a listing is the journal backwards ----

  function JournalOf(js: seq<Logged>, name: Bytes): seq<Logged> {
    if js == [] then []
    else
      var l := js[|js| - 1];
      JournalOf(js[..|js| - 1], name) + (if l.entry.alarm == name then [l] else [])
  }

  lemma {:induction false} JournalOfMembers(js: seq<Logged>, name: Bytes)
    ensures forall l :: l in JournalOf(js, name) <==> l in js && l.entry.alarm == name
    decreases |js|
  {
    if js != [] {
      JournalOfMembers(js[..|js| - 1], name);
      assert js == js[..|js| - 1] + [js[|js| - 1]];
    }
  }

  lemma {:induction false} JournalOfJournal(js: seq<Logged>, name: Bytes)
    requires Journal(js)
    ensures Journal(JournalOf(js, name))
    decreases |js|
  {
    if js != [] {
      var n := |js| - 1;
      var init := js[..n];
      JournalOfJournal(init, name);
      JournalOfMembers(init, name);
      var f := JournalOf(init, name);
      forall l | l in f
        ensures l.num < js[n].num && l.entry.atMs <= js[n].entry.atMs
      {
        assert l in init;
        var k :| 0 <= k < n && init[k] == l;
        assert js[k] == l;
      }
      JournalAppend(f, js[n]);
    }
  }

  lemma JournalAppend(js: seq<Logged>, l: Logged)
    requires Journal(js) && l.num < SEQUENCE_BOUND && l.entry.atMs < MILLIS_BOUND
    requires forall m :: m in js ==> m.num < l.num && m.entry.atMs <= l.entry.atMs
    ensures Journal(js + [l])
  {
  }

  function Keys(ls: seq<Logged>): (ks: seq<Bytes>)
    ensures |ks| == |ls|
    ensures forall i :: 0 <= i < |ls| ==> ks[i] == KeyOfLogged(ls[i])
  {
    seq(|ls|, i requires 0 <= i < |ls| => KeyOfLogged(ls[i]))
  }

  /** One alarm's keys, read in byte order, are its entries in the order they were appended. */
  lemma AlarmKeysInOrder(bucket: map<Bytes, Entry>, js: seq<Logged>, name: Bytes)
    requires Journal(js) && Filed(bucket, js)
    ensures Filter(InByteOrder(bucket.Keys), k => k in bucket && bucket[k].alarm == name) == Keys(JournalOf(js, name))
  {
    hide KeyOfLogged, StrictTotal, Filter, Filed, Journal, Keys, JournalOf;
    LessIsStrictTotal();
    var keep := k => k in bucket && bucket[k].alarm == name;
    var ks := set k | k in bucket && bucket[k].alarm == name;
    JournalKeysAscend(js, name);
    JournalKeysAre(bucket, js, name);
    FilterEnum(bucket.Keys, keep, ks, Less);
    EnumeratesUnique(Keys(JournalOf(js, name)), Enum(ks, Less), ks, Less);
  }

  lemma JournalKeysAscend(js: seq<Logged>, name: Bytes)
    requires Journal(js)
    ensures Ascending(Keys(JournalOf(js, name)), Less)
  {
    hide KeyOfLogged, JournalOf;
    var ours := JournalOf(js, name);
    JournalOfJournal(js, name);
    JournalOfMembers(js, name);
    forall i, j | 0 <= i < j < |ours|
      ensures Less(Keys(ours)[i], Keys(ours)[j])
    {
      assert ours[i] in ours && ours[j] in ours;
      SameAlarmOrder(ours[i], ours[j]);
    }
  }

  lemma JournalKeysAre(bucket: map<Bytes, Entry>, js: seq<Logged>, name: Bytes)
    requires Filed(bucket, js)
    ensures ToSet(Keys(JournalOf(js, name))) == set k | k in bucket && bucket[k].alarm == name
  {
    hide KeyOfLogged, JournalOf;
    var ours := JournalOf(js, name);
    JournalOfMembers(js, name);
    forall k
      ensures k in Keys(ours) <==> k in bucket && bucket[k].alarm == name
    {
      if k in bucket && bucket[k].alarm == name {
        var l :| l in js && KeyOfLogged(l) == k;
        assert l in ours;
        var i :| 0 <= i < |ours| && ours[i] == l;
        assert Keys(ours)[i] == k;
      }
      if k in Keys(ours) {
        var i :| 0 <= i < |ours| && Keys(ours)[i] == k;
        assert ours[i] in ours;
      }
    }
  }

  function AskedOf(ls: seq<Logged>, q: Query): seq<Entry> {
    if ls == [] then []
    else
      var l := ls[|ls| - 1];
      AskedOf(ls[..|ls| - 1], q) + (if Asked(q, l.entry) then [l.entry] else [])
  }

  lemma {:induction false} CollectedSkipsOthers(bucket: map<Bytes, Entry>, ks: seq<Bytes>, q: Query, keep: Bytes -> bool)
    requires forall k :: k in ks ==> k in bucket
    requires forall k :: k in bucket && Asked(q, bucket[k]) ==> keep(k)
    ensures forall k :: k in Filter(ks, keep) ==> k in bucket
    ensures Collected(bucket, ks, q) == Collected(bucket, Filter(ks, keep), q)
    decreases |ks|
  {
    FilterMember(ks, keep);
    if ks != [] {
      var n := |ks| - 1;
      CollectedSkipsOthers(bucket, ks[..n], q, keep);
      var f := Filter(ks[..n], keep);
      FilterMember(ks[..n], keep);
      if keep(ks[n]) {
        assert (f + [ks[n]])[..|f|] == f;
      } else {
        assert Filter(ks, keep) == f;
      }
    }
  }

  lemma {:induction false} CollectedOfKeys(bucket: map<Bytes, Entry>, ls: seq<Logged>, q: Query)
    requires forall l :: l in ls ==> KeyOfLogged(l) in bucket && bucket[KeyOfLogged(l)] == l.entry
    ensures forall k :: k in Keys(ls) ==> k in bucket
    ensures Collected(bucket, Keys(ls), q) == AskedOf(ls, q)
    decreases |ls|
  {
    if ls != [] {
      hide KeyOfLogged;
      var n := |ls| - 1;
      CollectedOfKeys(bucket, ls[..n], q);
      assert Keys(ls)[..n] == Keys(ls[..n]);
    }
  }

  /** A listing for one alarm is its journal newest first: what it asked for, in the reverse of the
      order it was appended, cut to the limit. */
  lemma HistoryNewestFirst(bucket: map<Bytes, Entry>, js: seq<Logged>, q: Query, limit: int)
    requires Journal(js) && Filed(bucket, js) && q.alarm != []
    ensures forall k :: k in InByteOrder(bucket.Keys) ==> k in bucket
    ensures Limited(Reversed(Collected(bucket, InByteOrder(bucket.Keys), q)), limit)
            == Limited(Reversed(AskedOf(JournalOf(js, q.alarm), q)), limit)
  {
    hide KeyOfLogged, StrictTotal;
    var ks := InByteOrder(bucket.Keys);
    assert forall k :: k in ks ==> k in ToSet(ks);
    var keep := k => k in bucket && bucket[k].alarm == q.alarm;
    CollectedSkipsOthers(bucket, ks, q, keep);
    AlarmKeysInOrder(bucket, js, q.alarm);
    assert Filter(ks, keep) == Keys(JournalOf(js, q.alarm));
    JournalOfMembers(js, q.alarm);
    CollectedOfKeys(bucket, JournalOf(js, q.alarm), q);
  }

  // ---- What a listing asks for ----

  /** A listing of one millisecond asks for what happened in it; one that ends where another begins asks for
      nothing the other does, and the two together ask for what one over both does. No bounds ask for all times. */
  lemma StretchesSplit(q: Query, mid: nat, e: Entry)
    requires 0 < q.from <= mid <= q.to
    ensures Asked(q, e) <==> Asked(q.(to := mid), e) || Asked(q.(from := mid), e)
    ensures !(Asked(q.(to := mid), e) && Asked(q.(from := mid), e))
    ensures Asked(q.(from := mid, to := mid + 1), e) <==> e.atMs == mid && Asked(q.(from := 0, to := 0), e)
    ensures Asked(Query([], "", 0, 0), e)
  {
  }

  /** A listing for one alarm, of any length, holds exactly the alarm's entries of the kind and the time asked for. */
  lemma ListedIff(bucket: map<Bytes, Entry>, js: seq<Logged>, q: Query, e: Entry)
    requires Journal(js) && Filed(bucket, js) && q.alarm != []
    ensures forall k :: k in InByteOrder(bucket.Keys) ==> k in bucket
    ensures e in Limited(Reversed(Collected(bucket, InByteOrder(bucket.Keys), q)), 0)
            <==> (exists l :: l in js && l.entry == e) && e.alarm == q.alarm
                 && (q.kind == "" || if e.change.StateUpdate? then q.kind == "StateUpdate" else q.kind == "ConfigurationUpdate")
                 && q.from <= e.atMs && (q.to == 0 || e.atMs < q.to)
  {
    HistoryNewestFirst(bucket, js, q, 0);
    AskedOfHolds(JournalOf(js, q.alarm), q, e);
    JournalOfMembers(js, q.alarm);
    ReversedHolds(AskedOf(JournalOf(js, q.alarm), q), e);
    hide Collected, AskedOf, Reversed, JournalOf;
  }

  lemma {:induction false} AskedOfHolds(ls: seq<Logged>, q: Query, e: Entry)
    ensures e in AskedOf(ls, q) <==> Asked(q, e) && exists l :: l in ls && l.entry == e
    decreases |ls|
  {
    hide Asked;
    if ls != [] {
      var init, last := ls[..|ls| - 1], ls[|ls| - 1];
      AskedOfHolds(init, q, e);
      assert ls == init + [last];
    }
  }

  lemma ReversedHolds<T>(s: seq<T>, x: T)
    ensures x in Reversed(s) <==> x in s
  {
    if x in s {
      var i :| 0 <= i < |s| && s[i] == x;
      assert Reversed(s)[|s| - 1 - i] == x;
    }
  }

  /** A limit keeps that many of the newest, if there are more; none, or one below zero, keeps all. */
  lemma LimitKeepsNewest<T>(s: seq<T>, limit: int, i: nat)
    ensures |Limited(s, limit)| == if limit <= 0 || limit > |s| then |s| else limit
    ensures i < |Limited(s, limit)| ==> Limited(s, limit)[i] == s[i]
  {
  }
}
