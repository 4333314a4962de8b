/** Alarms: the stored configuration, the state machine that moves it, and the log it leaves. */
module Alarms {
  import opened Wrappers
  import opened Bytes
  import opened Decimal
  import opened SeriesKey
  import opened SampleStore
  import opened Aggregate
  import opened Evaluate
  import opened AlarmHistory

  const MAX_EVALUATION_WINDOW: nat := 86400

  datatype Alarm = Alarm(
    name: Bytes,
    rule: Rule,
    actionsEnabled: bool,
    state: State,
    reason: string,
    stateUpdatedMs: nat,
    updatedMs: nat,
    setManually: bool)

  datatype Outcome = Done | MissingParameter | InvalidParameter | Unsupported | NotFound

  /** What PutMetricAlarm lets an alarm examine. */
  ghost predicate Accepted(r: Rule) {
    && WellFormed(r.series)
    && 0 < r.period
    && 0 < r.evaluationPeriods
    && r.period * r.evaluationPeriods <= MAX_EVALUATION_WINDOW
    && r.datapointsToAlarm <= r.evaluationPeriods
  }

  // ---- The chain of transitions ----

  /** One alarm's state updates, oldest first. */
  function Transitions(js: seq<Logged>, name: Bytes): seq<(State, State)> {
    if js == [] then []
    else
      var e := js[|js| - 1].entry;
      Transitions(js[..|js| - 1], name)
      + (if e.alarm == name && e.change.StateUpdate? then [(e.change.old_, e.change.new_)] else [])
  }

  /** Each update leaves from the state the one before entered: a walk from one state to another. */
  predicate Chained(from: State, ts: seq<(State, State)>, to: State) {
    if ts == [] then from == to
    else ts[|ts| - 1].1 == to && Chained(from, ts[..|ts| - 1], ts[|ts| - 1].0)
  }

  /** A chain, read pair by pair: it starts at from, ends at to, and every two neighbours meet. */
  lemma {:induction false} ChainedMeans(from: State, ts: seq<(State, State)>, to: State)
    ensures Chained(from, ts, to) <==>
            && (ts == [] ==> from == to)
            && (ts != [] ==> ts[0].0 == from && ts[|ts| - 1].1 == to)
            && forall i :: 0 <= i < |ts| - 1 ==> ts[i].1 == ts[i + 1].0
    decreases |ts|
  {
    if ts != [] {
      var init := ts[..|ts| - 1];
      ChainedMeans(from, init, ts[|ts| - 1].0);
      assert forall i :: 0 <= i < |init| ==> ts[i] == init[i];
    }
  }

  ghost predicate Consistent(alarms: map<Bytes, Alarm>, history: map<Bytes, Entry>, sequence: nat, js: seq<Logged>, clock: nat) {
    && Journal(js)
    && Filed(history, js)
    && clock < MILLIS_BOUND
    && (forall l :: l in js ==> l.num <= sequence && l.entry.atMs <= clock && l.entry.alarm in alarms)
    && (forall n :: n in alarms ==> n != [] && alarms[n].name == n && Accepted(alarms[n].rule))
    && (forall n :: n in alarms ==> Chained(InsufficientData, Transitions(js, n), alarms[n].state))
  }

  lemma TransitionsAppend(js: seq<Logged>, l: Logged, name: Bytes)
    ensures Transitions(js + [l], name)
            == Transitions(js, name)
               + (if l.entry.alarm == name && l.entry.change.StateUpdate? then [(l.entry.change.old_, l.entry.change.new_)] else [])
  {
    assert (js + [l])[..|js|] == js;
  }

  lemma ChainedAppend(from: State, ts: seq<(State, State)>, mid: State, to: State)
    requires Chained(from, ts, mid)
    ensures Chained(from, ts + [(mid, to)], to)
  {
    assert (ts + [(mid, to)])[..|ts|] == ts;
  }

  lemma {:induction false} NoEntriesNoTransitions(js: seq<Logged>, name: Bytes)
    requires forall l :: l in js ==> l.entry.alarm != name
    ensures Transitions(js, name) == []
    decreases |js|
  {
    if js != [] {
      NoEntriesNoTransitions(js[..|js| - 1], name);
    }
  }

  /** What a write may record beside an alarm: nothing, a change of configuration that keeps the state,
      or the very transition the state makes. A new alarm starts with too little data. */
  ghost predicate Honest(alarms: map<Bytes, Alarm>, a: Alarm, change: Option<Change>) {
    && a.name != []
    && Accepted(a.rule)
    && var before := if a.name in alarms then alarms[a.name].state else InsufficientData;
       match change
       case Some(StateUpdate(old_, new_)) => old_ == before && new_ == a.state
       case _ => a.state == before
  }

  lemma WriteKeeps(alarms: map<Bytes, Alarm>, history: map<Bytes, Entry>, sequence: nat, js: seq<Logged>, clock: nat,
                   a: Alarm, change: Option<Change>, nowMs: nat)
    requires Consistent(alarms, history, sequence, js, clock) && Honest(alarms, a, change)
    requires clock <= nowMs < MILLIS_BOUND && sequence + 1 < SEQUENCE_BOUND
    ensures change.None? ==> Consistent(alarms[a.name := a], history, sequence, js, nowMs)
    ensures change.Some? ==>
              var l := Logged(sequence + 1, Entry(a.name, change.value, nowMs));
              Consistent(alarms[a.name := a], history[KeyOfLogged(l) := l.entry], sequence + 1, js + [l], nowMs)
  {
    hide KeyOfLogged, Accepted, Journal, Filed, Chained, Transitions;
    var alarms' := alarms[a.name := a];
    if a.name !in alarms {
      NoEntriesNoTransitions(js, a.name);
      EmptyChain(InsufficientData);
    }
    if change.Some? {
      var l := Logged(sequence + 1, Entry(a.name, change.value, nowMs));
      JournalAppend(js, l);
      FiledAppend(history, js, l);
      forall n | n in alarms'
        ensures Chained(InsufficientData, Transitions(js + [l], n), alarms'[n].state)
      {
        TransitionsAppend(js, l, n);
        if n == a.name && change.value.StateUpdate? {
          ChainedAppend(InsufficientData, Transitions(js, n), change.value.old_, change.value.new_);
        } else {
          assert Transitions(js, n) + [] == Transitions(js, n);
        }
      }
    }
  }

  lemma EmptyChain(s: State)
    ensures Chained(s, [], s)
  {
  }

  lemma FiledAppend(history: map<Bytes, Entry>, js: seq<Logged>, l: Logged)
    requires Filed(history, js) && Journal(js) && l.num < SEQUENCE_BOUND
    requires forall m :: m in js ==> m.num < l.num
    ensures Filed(history[KeyOfLogged(l) := l.entry], js + [l])
  {
    hide KeyOfLogged;
    forall m | m in js
      ensures KeyOfLogged(m) != KeyOfLogged(l)
    {
      if KeyOfLogged(m) == KeyOfLogged(l) {
        KeysDiffer(m, l);
      }
    }
    var history' := history[KeyOfLogged(l) := l.entry];
    forall k | k in history'
      ensures exists m :: m in js + [l] && KeyOfLogged(m) == k
    {
      if k == KeyOfLogged(l) {
        assert l in js + [l];
      } else {
        var m :| m in js && KeyOfLogged(m) == k;
        assert m in js + [l];
      }
    }
  }

  lemma ToggleHonest(alarms: map<Bytes, Alarm>, history: map<Bytes, Entry>, sequence: nat, js: seq<Logged>, clock: nat,
                     n: Bytes, enabled: bool, nowMs: nat)
    requires Consistent(alarms, history, sequence, js, clock) && n in alarms
    ensures alarms[n].name == n
    ensures forall summary :: Honest(alarms, alarms[n].(actionsEnabled := enabled, updatedMs := nowMs), Some(ConfigurationUpdate(summary)))
  {
  }

  function Toggle(a: Alarm, enabled: bool, nowMs: nat): Alarm {
    if a.actionsEnabled != enabled then a.(actionsEnabled := enabled, updatedMs := nowMs) else a
  }

  const SWITCHED_ON: string := "Alarm actions enabled"
  const SWITCHED_OFF: string := "Alarm actions disabled"

  /** The log once the actions of one alarm are switched: an entry if it exists and is not already so. */
  function ToldToggle(js: seq<Logged>, alarms: map<Bytes, Alarm>, n: Bytes, enabled: bool, num: nat, nowMs: nat): (js': seq<Logged>)
    ensures |js| <= |js'| <= |js| + 1
  {
    if n in alarms && alarms[n].actionsEnabled != enabled
    then js + [Logged(num, Entry(n, ConfigurationUpdate(if enabled then SWITCHED_ON else SWITCHED_OFF), nowMs))]
    else js
  }

  /** The log once the names are switched in order; one named again is by then already so. */
  function ToldToggles(js: seq<Logged>, alarms: map<Bytes, Alarm>, names: seq<Bytes>, enabled: bool, num: nat, nowMs: nat): (js': seq<Logged>)
    ensures |js| <= |js'|
  {
    if names == [] then js
    else
      var init := names[..|names| - 1];
      var before := ToldToggles(js, alarms, init, enabled, num, nowMs);
      ToldToggle(before, ToggledAll(alarms, init, enabled, nowMs), names[|names| - 1], enabled, num + |before| - |js| + 1, nowMs)
  }

  /** The alarms and the log as they are once the first i names are switched. */
  ghost predicate HasToggled(alarms: map<Bytes, Alarm>, js: seq<Logged>, num: nat, names: seq<Bytes>, i: nat, enabled: bool, nowMs: nat,
                             alarms': map<Bytes, Alarm>, js': seq<Logged>, num': nat)
  {
    && i <= |names|
    && alarms' == ToggledAll(alarms, names[..i], enabled, nowMs)
    && js' == ToldToggles(js, alarms, names[..i], enabled, num, nowMs)
    && num' == num + |js'| - |js|
  }

  lemma NoneToggled(alarms: map<Bytes, Alarm>, js: seq<Logged>, num: nat, names: seq<Bytes>, enabled: bool, nowMs: nat)
    ensures HasToggled(alarms, js, num, names, 0, enabled, nowMs, alarms, js, num)
  {
    ToggledNone(alarms, enabled, nowMs);
    hide ToggledAll;
  }

  lemma OneMoreToggled(alarms: map<Bytes, Alarm>, js: seq<Logged>, num: nat, names: seq<Bytes>, i: nat, enabled: bool, nowMs: nat,
                       alarms': map<Bytes, Alarm>, js': seq<Logged>, num': nat,
                       next: map<Bytes, Alarm>, nextJs: seq<Logged>, nextNum: nat)
    requires HasToggled(alarms, js, num, names, i, enabled, nowMs, alarms', js', num') && i < |names|
    requires next == ToggledOne(alarms', names[i], enabled, nowMs)
    requires nextJs == ToldToggle(js', alarms', names[i], enabled, nextNum, nowMs) && nextNum == num' + |nextJs| - |js'|
    ensures HasToggled(alarms, js, num, names, i + 1, enabled, nowMs, next, nextJs, nextNum)
  {
    assert names[..i + 1] == names[..i] + [names[i]];
    ToggledOneMore(alarms, names[..i], names[i], enabled, nowMs);
    ToldToggleAt(js', alarms', names[i], enabled, nextNum, num' + 1, nowMs);
    ToldOneMoreToggle(js, alarms, names[..i], names[i], enabled, num, nowMs);
    hide ToggledAll, ToggledOne, ToldToggle, ToldToggles;
  }

  lemma ToldOneMoreToggle(js: seq<Logged>, alarms: map<Bytes, Alarm>, names: seq<Bytes>, n: Bytes, enabled: bool, num: nat, nowMs: nat)
    ensures var before := ToldToggles(js, alarms, names, enabled, num, nowMs);
            ToldToggles(js, alarms, names + [n], enabled, num, nowMs)
            == ToldToggle(before, ToggledAll(alarms, names, enabled, nowMs), n, enabled, num + |before| - |js| + 1, nowMs)
  {
    hide ToggledAll, ToldToggle, SWITCHED_ON, SWITCHED_OFF;
    var all := names + [n];
    assert all[..|all| - 1] == names && all[|all| - 1] == n;
    hide *;
  }

  lemma AllToggled(alarms: map<Bytes, Alarm>, js: seq<Logged>, num: nat, names: seq<Bytes>, enabled: bool, nowMs: nat,
                   alarms': map<Bytes, Alarm>, js': seq<Logged>, num': nat)
    requires HasToggled(alarms, js, num, names, |names|, enabled, nowMs, alarms', js', num')
    ensures alarms' == ToggledAll(alarms, names, enabled, nowMs) && js' == ToldToggles(js, alarms, names, enabled, num, nowMs)
  {
    assert names[..|names|] == names;
    hide ToggledAll, ToldToggles;
  }

  lemma ToldToggleAt(js: seq<Logged>, alarms: map<Bytes, Alarm>, n: Bytes, enabled: bool, num: nat, next: nat, nowMs: nat)
    requires n in alarms && alarms[n].actionsEnabled != enabled ==> num == next
    ensures ToldToggle(js, alarms, n, enabled, num, nowMs) == ToldToggle(js, alarms, n, enabled, next, nowMs)
  {
    hide SWITCHED_ON, SWITCHED_OFF;
  }

  function ToggledOne(alarms: map<Bytes, Alarm>, n: Bytes, enabled: bool, nowMs: nat): map<Bytes, Alarm> {
    if n in alarms && alarms[n].actionsEnabled != enabled
    then alarms[n := alarms[n].(actionsEnabled := enabled, updatedMs := nowMs)]
    else alarms
  }

  function ToggledAll(alarms: map<Bytes, Alarm>, names: seq<Bytes>, enabled: bool, nowMs: nat): map<Bytes, Alarm> {
    map n | n in alarms :: if n in names then Toggle(alarms[n], enabled, nowMs) else alarms[n]
  }

  lemma ToggledNone(alarms: map<Bytes, Alarm>, enabled: bool, nowMs: nat)
    ensures ToggledAll(alarms, [], enabled, nowMs) == alarms
  {
  }

  lemma ToggledOneMore(alarms: map<Bytes, Alarm>, names: seq<Bytes>, n: Bytes, enabled: bool, nowMs: nat)
    ensures var before, after := ToggledAll(alarms, names, enabled, nowMs), ToggledAll(alarms, names + [n], enabled, nowMs);
            after == ToggledOne(before, n, enabled, nowMs)
  {
    var before, after := ToggledAll(alarms, names, enabled, nowMs), ToggledAll(alarms, names + [n], enabled, nowMs);
    assert before.Keys == alarms.Keys == after.Keys;
    assert forall m :: m in alarms && m != n ==> after[m] == before[m];
  }

  // ---- What an evaluation pass does to one alarm ----

  function MsOf(nowNs: nat): nat {
    nowNs / NANOS_PER_MILLI
  }

  /** A time no window ending at it starts before the epoch, and that has thirteen digits of milliseconds. */
  predicate LongRunning(nowNs: nat) {
    2 * MAX_EVALUATION_WINDOW * NANOS_PER_SECOND <= nowNs < MILLIS_BOUND * NANOS_PER_MILLI
  }

  lemma MsInBounds(nowNs: nat)
    requires LongRunning(nowNs)
    ensures MsOf(nowNs) < MILLIS_BOUND
  {
  }

  function Transitioned(a: Alarm, to: State, reason: string, nowMs: nat): Alarm {
    a.(state := to, reason := reason, stateUpdatedMs := nowMs)
  }

  const EVALUATED: string := "Threshold Crossed"

  /** Agreement changes nothing. The first disagreement with a state set by hand only clears the mark;
      any other moves the alarm. */
  function AfterPass(a: Alarm, want: Wanted, nowMs: nat): Alarm {
    match want
    case Stay => a
    case Move(to) =>
      if a.setManually then a.(setManually := false) else Transitioned(a, to, EVALUATED, nowMs)
  }

  datatype PutRequest = PutRequest(
    name: Bytes,
    comparison: string,
    namespace: Bytes,
    metric: Bytes,
    dims: map<Bytes, Bytes>,
    stat: Option<Stat>,
    unit: string,
    period: int,
    evaluationPeriods: int,
    datapointsToAlarm: Option<int>,
    threshold: Option<real>,
    treatMissing: string,
    actionsEnabled: Option<bool>)

  predicate AnomalyOperator(op: string) {
    op == "LessThanLowerOrGreaterThanUpperThreshold" || op == "LessThanLowerThreshold" || op == "GreaterThanUpperThreshold"
  }

  predicate ValidPeriod(secs: int) {
    secs in {1, 5, 10, 20, 30} || secs % 60 == 0
  }

  predicate ValidTreatment(treat: string) {
    treat in {"", "breaching", "notBreaching", "ignore", "missing"}
  }

  function DatapointsOf(req: PutRequest): int {
    match req.datapointsToAlarm
    case None => req.evaluationPeriods
    case Some(m) => m
  }

  /** The checks of a put, in the order they are made. */
  function Refusal(req: PutRequest): Outcome {
    if req.name == [] then MissingParameter
    else if req.comparison == "" then MissingParameter
    else if AnomalyOperator(req.comparison) then Unsupported
    else if req.namespace == [] || req.metric == [] then MissingParameter
    else if req.stat.None? then MissingParameter
    else if req.period <= 0 then MissingParameter
    else if !ValidPeriod(req.period) then InvalidParameter
    else if req.evaluationPeriods <= 0 then MissingParameter
    else if req.period * req.evaluationPeriods > MAX_EVALUATION_WINDOW then InvalidParameter
    else if DatapointsOf(req) > req.evaluationPeriods then InvalidParameter
    else if req.threshold.None? then MissingParameter
    else if !ValidTreatment(req.treatMissing) then InvalidParameter
    else if [] in req.dims || [] in req.dims.Values then InvalidParameter
    else Done
  }

  function RuleOf(req: PutRequest): Rule
    requires Refusal(req) == Done
  {
    Rule(Series(req.namespace, req.metric, req.dims), req.unit, req.stat.value, req.period, req.evaluationPeriods,
         DatapointsOf(req), req.comparison, req.threshold.value, req.treatMissing)
  }

  /** The alarm a put leaves: a replaced alarm keeps its state and loses the manual mark. */
  function PutAlarmOf(alarms: map<Bytes, Alarm>, req: PutRequest, nowMs: nat): Alarm
    requires Refusal(req) == Done
  {
    var enabled := req.actionsEnabled.None? || req.actionsEnabled.value;
    if req.name in alarms then
      var prev := alarms[req.name];
      Alarm(req.name, RuleOf(req), enabled, prev.state, prev.reason, prev.stateUpdatedMs, nowMs, false)
    else
      Alarm(req.name, RuleOf(req), enabled, InsufficientData, "Unchecked: Initial alarm creation", nowMs, nowMs, false)
  }

  /** A put is accepted exactly when nothing it must have is missing, no operator of its is one for anomalies, and
      the period, the window, the datapoints, the treatment and the dimensions are all as they may be. */
  lemma PutAcceptedIff(req: PutRequest)
    ensures Refusal(req) == Done
            <==> && req.name != [] && req.namespace != [] && req.metric != [] && req.stat.Some? && req.threshold.Some?
                 && req.comparison !in {"", "LessThanLowerOrGreaterThanUpperThreshold", "LessThanLowerThreshold", "GreaterThanUpperThreshold"}
                 && 0 < req.period && 0 < req.evaluationPeriods && req.period * req.evaluationPeriods <= 86400
                 && (req.period in {1, 5, 10, 20, 30} || exists minutes :: req.period == 60 * minutes)
                 && (req.datapointsToAlarm.Some? ==> req.datapointsToAlarm.value <= req.evaluationPeriods)
                 && req.treatMissing in {"", "breaching", "notBreaching", "ignore", "missing"}
                 && forall k :: k in req.dims ==> k != [] && req.dims[k] != []
    ensures Refusal(req) == Unsupported
            <==> req.name != [] && req.comparison in {"LessThanLowerOrGreaterThanUpperThreshold", "LessThanLowerThreshold", "GreaterThanUpperThreshold"}
  {
    assert ValidPeriod(req.period) <==> req.period in {1, 5, 10, 20, 30} || exists minutes :: req.period == 60 * minutes by {
      assert req.period % 60 == 0 ==> req.period == 60 * (req.period / 60);
    }
    hide ValidPeriod;
    assert |"LessThanLowerOrGreaterThanUpperThreshold"| > 0 && |"LessThanLowerThreshold"| > 0 && |"GreaterThanUpperThreshold"| > 0;
  }

  /** Asked for no number of datapoints, an alarm needs all its periods: treating missing data as good, a pass takes
      it to ALARM, if it is not marked, exactly when every period of the window breaches. */
  lemma DefaultNeedsEveryPeriod(log: Log, alarms: map<Bytes, Alarm>, req: PutRequest, putMs: nat, nowNs: nat)
    requires Refusal(req) == Done && req.datapointsToAlarm.None? && req.treatMissing == "notBreaching"
    ensures var a := PutAlarmOf(alarms, req, putMs);
            AfterPass(a, Decision(log, a.rule, a.state, nowNs), MsOf(nowNs)).state == InAlarm
            <==> forall i :: 0 <= i < req.evaluationPeriods ==> Verdicts(log, a.rule, nowNs)[i] == Breaching
  {
    var a := PutAlarmOf(alarms, req, putMs);
    AllHave(Verdicts(log, a.rule, nowNs), Breaching);
    MissingAsGood(log, a.rule, a.state, nowNs);
    hide Verdicts, Decision, PeriodsWith, EVALUATED, MsOf, Refusal;
  }

  /** All of the periods have a verdict exactly when as many have it as there are. */
  lemma AllHave(vs: seq<Verdict>, v: Verdict)
    ensures |PeriodsWith(vs, {v})| >= |vs| <==> forall i :: 0 <= i < |vs| ==> vs[i] == v
  {
    CountIsSize(vs, v);
    AllCounted(vs, v);
    hide Count;
  }

  /** A put drops the mark and keeps the state, so the first pass that disagrees moves the alarm; a new alarm has
      no data yet, and moves likewise. */
  lemma PutAlarmMovesAtOnce(alarms: map<Bytes, Alarm>, req: PutRequest, putMs: nat, to: State, nowMs: nat)
    requires Refusal(req) == Done
    ensures var a := PutAlarmOf(alarms, req, putMs);
            && a.name == req.name && a.updatedMs == putMs
            && (req.name in alarms ==> a.state == alarms[req.name].state && a.reason == alarms[req.name].reason && a.stateUpdatedMs == alarms[req.name].stateUpdatedMs)
            && (req.name !in alarms ==> a.state == InsufficientData && a.stateUpdatedMs == putMs)
            && (a.actionsEnabled <==> req.actionsEnabled != Some(false))
            && AfterPass(a, Move(to), nowMs).state == to && AfterPass(a, Move(to), nowMs).stateUpdatedMs == nowMs
  {
  }

  function PutSummary(existed: bool): string {
    if existed then "updated" else "created"
  }

  class Server {
    var alarms: map<Bytes, Alarm>
    var history: map<Bytes, Entry>
    var sequence: nat
    /** The history in the order it was appended, and the latest time any call has seen. */
    ghost var journal: seq<Logged>
    ghost var clock: nat

    ghost predicate Valid()
      reads this
    {
      Consistent(alarms, history, sequence, journal, clock)
    }

    constructor ()
      ensures Valid() && alarms == map[] && journal == [] && sequence == 0 && clock == 0
    {
      alarms, history, sequence := map[], map[], 0;
      journal, clock := [], 0;
    }

    /** Stores an alarm and what to record beside it, as one transaction. */
    method PutAlarm(a: Alarm, change: Option<Change>, nowMs: nat)
      requires Valid() && Honest(alarms, a, change)
      requires clock <= nowMs < MILLIS_BOUND && sequence + 1 < SEQUENCE_BOUND
      modifies this
      ensures Valid() && clock == nowMs
      ensures alarms == old(alarms)[a.name := a]
      ensures sequence == old(sequence) + (if change.Some? then 1 else 0)
      ensures journal == old(journal) + (if change.Some? then [Logged(sequence, Entry(a.name, change.value, nowMs))] else [])
    {
      hide Consistent, Honest;
      WriteKeeps(alarms, history, sequence, journal, clock, a, change, nowMs);
      alarms := alarms[a.name := a];
      clock := nowMs;
      if change.Some? {
        var entry := Entry(a.name, change.value, nowMs);
        sequence := sequence + 1;
        var key := HistoryKeyOf(nowMs, a.name, sequence);
        history := history[key := entry];
        journal := journal + [Logged(sequence, entry)];
      } else {
        assert journal + [] == journal;
      }
    }

    method Transition(a: Alarm, want: State, reason: string, nowMs: nat)
      requires Valid() && a.name in alarms && alarms[a.name].state == a.state && Accepted(a.rule)
      requires clock <= nowMs < MILLIS_BOUND && sequence + 1 < SEQUENCE_BOUND
      modifies this
      ensures Valid() && clock == nowMs && sequence == old(sequence) + 1
      ensures alarms == old(alarms)[a.name := Transitioned(a, want, reason, nowMs)]
      ensures journal == old(journal) + [Logged(sequence, Entry(a.name, StateUpdate(a.state, want), nowMs))]
    {
      NamedAndAccepted(alarms, history, sequence, journal, clock, a.name);
      hide Consistent, Accepted;
      PutAlarm(Transitioned(a, want, reason, nowMs), Some(StateUpdate(a.state, want)), nowMs);
    }

    method PutMetricAlarm(req: PutRequest, nowMs: nat) returns (r: Outcome)
      requires Valid() && (Refusal(req) == Done ==> WellFormed(RuleOf(req).series))
      requires clock <= nowMs < MILLIS_BOUND && sequence + 1 < SEQUENCE_BOUND
      modifies this
      ensures Valid() && r == Refusal(req)
      ensures r != Done ==> alarms == old(alarms) && journal == old(journal)
      ensures r == Done ==> alarms == old(alarms)[req.name := PutAlarmOf(old(alarms), req, nowMs)]
      ensures r == Done ==>
                journal == old(journal) + [Logged(sequence, Entry(req.name, ConfigurationUpdate(PutSummary(req.name in old(alarms))), nowMs))]
    {
      r := Refusal(req);
      if r != Done {
        return;
      }
      PutAlarm(PutAlarmOf(alarms, req, nowMs), Some(ConfigurationUpdate(PutSummary(req.name in alarms))), nowMs);
    }

    /** Flips an alarm by hand and marks it, so that the next pass does not undo it at once. */
    method SetAlarmState(name: Bytes, state: State, reason: string, nowMs: nat) returns (r: Outcome)
      requires Valid() && clock <= nowMs < MILLIS_BOUND && sequence + 1 < SEQUENCE_BOUND
      modifies this
      ensures Valid()
      ensures r == if name == [] || reason == "" then MissingParameter else if name !in old(alarms) then NotFound else Done
      ensures r != Done ==> alarms == old(alarms) && journal == old(journal)
      ensures r == Done ==>
                && alarms == old(alarms)[name := Transitioned(old(alarms)[name], state, reason, nowMs).(setManually := true)]
                && journal == old(journal) + [Logged(sequence, Entry(name, StateUpdate(old(alarms)[name].state, state), nowMs))]
    {
      if name == [] || reason == "" {
        return MissingParameter;
      }
      if name !in alarms {
        return NotFound;
      }
      var a := alarms[name].(setManually := true);
      Transition(a, state, reason, nowMs);
      r := Done;
    }

    method SetOneEnabled(n: Bytes, enabled: bool, nowMs: nat)
      requires Valid() && clock <= nowMs < MILLIS_BOUND && sequence + 1 < SEQUENCE_BOUND
      modifies this
      ensures Valid() && clock <= nowMs
      ensures alarms == ToggledOne(old(alarms), n, enabled, nowMs)
      ensures journal == ToldToggle(old(journal), old(alarms), n, enabled, sequence, nowMs)
      ensures sequence == old(sequence) + |journal| - |old(journal)| <= old(sequence) + 1
    {
      hide SWITCHED_ON, SWITCHED_OFF;
      if n in alarms && alarms[n].actionsEnabled != enabled {
        ToggleHonest(alarms, history, sequence, journal, clock, n, enabled, nowMs);
        hide Consistent, Honest;
        var summary := if enabled then SWITCHED_ON else SWITCHED_OFF;
        PutAlarm(alarms[n].(actionsEnabled := enabled, updatedMs := nowMs), Some(ConfigurationUpdate(summary)), nowMs);
      }
    }

    /** Enables or disables the actions of the named alarms that exist and are not already so. */
    method SetActionsEnabled(names: seq<Bytes>, enabled: bool, nowMs: nat) returns (r: Outcome)
      requires Valid() && clock <= nowMs < MILLIS_BOUND && sequence + |names| + 1 < SEQUENCE_BOUND
      modifies this
      ensures Valid() && r == if names == [] then MissingParameter else Done
      ensures alarms == ToggledAll(old(alarms), names, enabled, nowMs)
      ensures journal == ToldToggles(old(journal), old(alarms), names, enabled, old(sequence), nowMs)
    {
      hide Consistent, Honest, ToggledAll, ToldToggles, ToggledOne, ToldToggle, HasToggled;
      NoneToggled(alarms, journal, sequence, names, enabled, nowMs);
      if |names| == 0 {
        AllToggled(alarms, journal, sequence, names, enabled, nowMs, alarms, journal, sequence);
        return MissingParameter;
      }
      for i := 0 to |names|
        invariant Valid() && clock <= nowMs && sequence <= old(sequence) + i
        invariant HasToggled(old(alarms), old(journal), old(sequence), names, i, enabled, nowMs, alarms, journal, sequence)
      {
        ghost var before, js, num := alarms, journal, sequence;
        SetOneEnabled(names[i], enabled, nowMs);
        OneMoreToggled(old(alarms), old(journal), old(sequence), names, i, enabled, nowMs, before, js, num, alarms, journal, sequence);
      }
      AllToggled(old(alarms), old(journal), old(sequence), names, enabled, nowMs, alarms, journal, sequence);
      r := Done;
    }

    /** Removes the named alarms that exist, and their history with them. */
    method DeleteAlarms(names: seq<Bytes>) returns (r: Outcome)
      requires Valid()
      modifies this
      ensures Valid() && sequence == old(sequence)
      ensures r == DeleteOutcome(old(alarms), names)
      ensures r != Done ==> alarms == old(alarms) && journal == old(journal)
      ensures r == Done ==> alarms == old(alarms) - HeldNames(old(alarms), names)
      ensures r == Done ==> journal == Without(old(journal), HeldNames(old(alarms), names))
    {
      if |names| == 0 {
        return MissingParameter;
      }
      hide Consistent, Without, HeldNames, EntriesWithout;
      var gone := Existing(alarms, names);
      if gone == {} {
        return NotFound;
      }
      DeleteKeeps(alarms, history, sequence, journal, clock, gone);
      alarms := alarms - gone;
      history := EntriesWithout(history, gone);
      journal := Without(journal, gone);
      r := Done;
    }

    /** One evaluation pass: every alarm is judged on what is stored, and moved, unmarked or left. */
    method EvaluateNow(store: Store, nowNs: nat)
      requires Valid() && store.Valid()
      requires LongRunning(nowNs)
      requires clock <= MsOf(nowNs) && sequence + |alarms| + 1 < SEQUENCE_BOUND
      modifies this
      ensures Valid() && store.Valid() && store.log == old(store.log)
      ensures Passed(store.log, old(alarms), alarms, nowNs)
      ensures journal == ToldAll(old(journal), old(alarms), Found(store.log, old(alarms), nowNs), InByteOrder(old(alarms).Keys),
                                 old(sequence), MsOf(nowNs))
    {
      hide *;
      FoundIs(store.log, alarms, nowNs);
      var nowMs := MsOf(nowNs);
      var names := NamesInOrder(alarms.Keys);
      var listed := alarms;
      ghost var found := Found(store.log, alarms, nowNs);
      NonePassedOver(listed, found, names, nowMs);
      NothingTold(listed, found, names, journal, sequence, nowMs);
      for i := 0 to |names|
        invariant Valid() && store.Valid() && store.log == old(store.log)
        invariant clock <= nowMs && sequence <= old(sequence) + i
        invariant PassedOver(listed, found, alarms, names, i, nowMs)
        invariant HasTold(listed, found, names, i, old(journal), old(sequence), journal, sequence, nowMs)
      {
        PassOverNext(store, listed, found, names, i, old(journal), old(sequence), nowNs);
      }
      AllPassedOver(store.log, listed, found, alarms, names, nowNs);
      AllTold(listed, found, names, old(journal), old(sequence), journal, sequence, nowMs);
    }

    method PassOverNext(store: Store, listed: map<Bytes, Alarm>, ghost found: map<Bytes, Wanted>, names: seq<Bytes>, i: nat,
                        ghost js: seq<Logged>, ghost num: nat, nowNs: nat)
      requires Valid() && store.Valid()
      requires LongRunning(nowNs)
      requires clock <= MsOf(nowNs) && sequence + 1 < SEQUENCE_BOUND
      requires i < |names| && AllDistinct(names)
      requires FoundBy(store.log, listed, found, nowNs)
      requires PassedOver(listed, found, alarms, names, i, MsOf(nowNs))
      requires HasTold(listed, found, names, i, js, num, journal, sequence, MsOf(nowNs))
      modifies this
      ensures Valid() && clock <= MsOf(nowNs) && sequence <= old(sequence) + 1
      ensures PassedOver(listed, found, alarms, names, i + 1, MsOf(nowNs))
      ensures HasTold(listed, found, names, i + 1, js, num, journal, sequence, MsOf(nowNs))
    {
      var nowMs := MsOf(nowNs);
      NotYetPassedOver(listed, found, alarms, names, i, nowMs);
      assert found[names[i]] == Decision(store.log, listed[names[i]].rule, listed[names[i]].state, nowNs);
      hide Consistent, Decision, Files, Accepted, AfterPass, ClockCovers, WellFormed, PassedOver, FoundBy, Told, ToldAll, HasTold, AllDistinct, MsOf, LongRunning;
      PassOver(store, listed[names[i]], names[i], nowNs);
      PassedOneMore(listed, found, old(alarms), alarms, names, i, nowMs);
      ToldOneMore(listed, found, names, i, js, num, old(journal), old(sequence), journal, sequence, nowMs);
    }

    method PassOver(store: Store, a: Alarm, name: Bytes, nowNs: nat)
      requires Valid() && store.Valid() && name in alarms && alarms[name] == a
      requires LongRunning(nowNs)
      requires clock <= MsOf(nowNs) && sequence + 1 < SEQUENCE_BOUND
      modifies this
      ensures Valid() && clock <= MsOf(nowNs)
      ensures alarms == old(alarms)[name := AfterPass(a, Decision(store.log, a.rule, a.state, nowNs), MsOf(nowNs))]
      ensures journal == Told(old(journal), a, Decision(store.log, a.rule, a.state, nowNs), sequence, MsOf(nowNs))
      ensures sequence == old(sequence) + |journal| - |old(journal)| <= old(sequence) + 1
    {
      hide Consistent, Decision, Files, AfterPass, Told, ClockCovers, Accepted, WellFormed, MsOf, LongRunning;
      MsInBounds(nowNs);
      NamedAndAccepted(alarms, history, sequence, journal, clock, name);
      AcceptedCovers(a.rule, nowNs);
      var want := EvaluateRule(store, a.rule, a.state, nowNs);
      Pass(a, want, MsOf(nowNs));
    }

    /** Spares the alarm once: it keeps its state and loses its mark. */
    method Unmark(a: Alarm, nowMs: nat)
      requires Valid() && a.name in alarms && alarms[a.name] == a
      requires clock <= nowMs < MILLIS_BOUND && sequence + 1 < SEQUENCE_BOUND
      modifies this
      ensures Valid() && clock == nowMs && sequence == old(sequence) && journal == old(journal)
      ensures alarms == old(alarms)[a.name := a.(setManually := false)]
    {
      NamedAndAccepted(alarms, history, sequence, journal, clock, a.name);
      hide Consistent, Accepted;
      PutAlarm(a.(setManually := false), None, nowMs);
    }

    method Pass(a: Alarm, want: Wanted, nowMs: nat)
      requires Valid() && a.name in alarms && alarms[a.name] == a
      requires clock <= nowMs < MILLIS_BOUND && sequence + 1 < SEQUENCE_BOUND
      modifies this
      ensures Valid() && clock <= nowMs
      ensures alarms == old(alarms)[a.name := AfterPass(a, want, nowMs)]
      ensures journal == Told(old(journal), a, want, sequence, nowMs)
      ensures sequence == old(sequence) + |journal| - |old(journal)|
    {
      hide Consistent, Accepted, Transitioned, EVALUATED;
      match want
      case Stay =>
        assert alarms[a.name := a] == alarms;
      case Move(to) =>
        if a.setManually {
          Unmark(a, nowMs);
        } else {
          MoveTo(a, to, nowMs);
        }
    }

    method MoveTo(a: Alarm, to: State, nowMs: nat)
      requires Valid() && a.name in alarms && alarms[a.name] == a && !a.setManually
      requires clock <= nowMs < MILLIS_BOUND && sequence + 1 < SEQUENCE_BOUND
      modifies this
      ensures Valid() && clock <= nowMs && sequence == old(sequence) + 1
      ensures alarms == old(alarms)[a.name := AfterPass(a, Move(to), nowMs)]
      ensures journal == Told(old(journal), a, Move(to), sequence, nowMs)
    {
      NamedAndAccepted(alarms, history, sequence, journal, clock, a.name);
      ghost var js := journal;
      Transition(a, to, EVALUATED, nowMs);
      MovedIs(a, to, js, sequence, nowMs);
    }
  }

  ghost function Found(log: Log, alarms: map<Bytes, Alarm>, nowNs: nat): map<Bytes, Wanted> {
    map n | n in alarms :: Decision(log, alarms[n].rule, alarms[n].state, nowNs)
  }

  /** What a pass finds of each alarm it lists. */
  ghost predicate FoundBy(log: Log, listed: map<Bytes, Alarm>, found: map<Bytes, Wanted>, nowNs: nat) {
    forall n :: n in listed ==> n in found && found[n] == Decision(log, listed[n].rule, listed[n].state, nowNs)
  }

  lemma FoundIs(log: Log, alarms: map<Bytes, Alarm>, nowNs: nat)
    ensures FoundBy(log, alarms, Found(log, alarms, nowNs), nowNs)
    ensures Found(log, alarms, nowNs).Keys == alarms.Keys
  {
    hide Decision;
  }

  /** The log once an alarm is passed over: its transition is appended if it moves, and nothing if it is only
      unmarked or left. */
  function Told(js: seq<Logged>, a: Alarm, want: Wanted, num: nat, nowMs: nat): (js': seq<Logged>)
    ensures |js| <= |js'| <= |js| + 1
  {
    if want.Move? && !a.setManually then js + [Logged(num, Entry(a.name, StateUpdate(a.state, want.to), nowMs))] else js
  }

  /** What is appended has the next number, and where nothing is appended the number does not matter. */
  lemma ToldAt(js: seq<Logged>, a: Alarm, want: Wanted, num: nat, next: nat, nowMs: nat)
    requires want.Move? && !a.setManually ==> num == next
    ensures Told(js, a, want, num, nowMs) == Told(js, a, want, next, nowMs)
  {
  }

  lemma MovedIs(a: Alarm, to: State, js: seq<Logged>, num: nat, nowMs: nat)
    requires !a.setManually
    ensures Told(js, a, Move(to), num, nowMs) == js + [Logged(num, Entry(a.name, StateUpdate(a.state, to), nowMs))]
    ensures AfterPass(a, Move(to), nowMs) == Transitioned(a, to, EVALUATED, nowMs)
  {
    hide EVALUATED, Transitioned;
  }

  /** The log once a pass has gone over these alarms in this order. */
  ghost function ToldAll(js: seq<Logged>, listed: map<Bytes, Alarm>, found: map<Bytes, Wanted>, names: seq<Bytes>, num: nat, nowMs: nat): (js': seq<Logged>)
    ensures |js| <= |js'|
  {
    if names == [] then js
    else
      var before, n := ToldAll(js, listed, found, names[..|names| - 1], num, nowMs), names[|names| - 1];
      if n in listed && n in found then Told(before, listed[n], found[n], num + |before| - |js| + 1, nowMs) else before
  }

  /** The log as it is once a pass has dealt with the first i names. */
  ghost predicate HasTold(listed: map<Bytes, Alarm>, found: map<Bytes, Wanted>, names: seq<Bytes>, i: nat, js: seq<Logged>, num: nat,
                          js': seq<Logged>, num': nat, nowMs: nat)
  {
    i <= |names| && js' == ToldAll(js, listed, found, names[..i], num, nowMs) && num' == num + |js'| - |js|
  }

  lemma NothingTold(listed: map<Bytes, Alarm>, found: map<Bytes, Wanted>, names: seq<Bytes>, js: seq<Logged>, num: nat, nowMs: nat)
    ensures HasTold(listed, found, names, 0, js, num, js, num, nowMs)
  {
  }

  lemma ToldOneMore(listed: map<Bytes, Alarm>, found: map<Bytes, Wanted>, names: seq<Bytes>, i: nat, js: seq<Logged>, num: nat,
                    js': seq<Logged>, num': nat, next: seq<Logged>, nextNum: nat, nowMs: nat)
    requires HasTold(listed, found, names, i, js, num, js', num', nowMs)
    requires i < |names| && names[i] in listed && names[i] in found
    requires next == Told(js', listed[names[i]], found[names[i]], nextNum, nowMs) && nextNum == num' + |next| - |js'|
    ensures HasTold(listed, found, names, i + 1, js, num, next, nextNum, nowMs)
  {
    assert names[..i + 1][..i] == names[..i];
    ToldAt(js', listed[names[i]], found[names[i]], nextNum, num' + 1, nowMs);
    hide Told;
  }

  lemma AllTold(listed: map<Bytes, Alarm>, found: map<Bytes, Wanted>, names: seq<Bytes>, js: seq<Logged>, num: nat,
                js': seq<Logged>, num': nat, nowMs: nat)
    requires HasTold(listed, found, names, |names|, js, num, js', num', nowMs)
    ensures js' == ToldAll(js, listed, found, names, num, nowMs)
  {
    assert names[..|names|] == names;
  }

  /** A pass has dealt with the first i names and left the rest as they were listed. */
  ghost predicate PassedOver(listed: map<Bytes, Alarm>, found: map<Bytes, Wanted>, alarms: map<Bytes, Alarm>,
                             names: seq<Bytes>, i: nat, nowMs: nat)
  {
    && listed.Keys == found.Keys == alarms.Keys
    && Lists(names, listed.Keys)
    && forall j :: 0 <= j < |names| ==>
         alarms[names[j]] == if j < i then AfterPass(listed[names[j]], found[names[j]], nowMs) else listed[names[j]]
  }

  lemma NonePassedOver(listed: map<Bytes, Alarm>, found: map<Bytes, Wanted>, names: seq<Bytes>, nowMs: nat)
    requires listed.Keys == found.Keys && Lists(names, listed.Keys)
    ensures PassedOver(listed, found, listed, names, 0, nowMs)
  {
  }

  lemma NotYetPassedOver(listed: map<Bytes, Alarm>, found: map<Bytes, Wanted>, alarms: map<Bytes, Alarm>,
                         names: seq<Bytes>, i: nat, nowMs: nat)
    requires PassedOver(listed, found, alarms, names, i, nowMs) && i < |names|
    ensures names[i] in alarms && names[i] in listed && names[i] in found && alarms[names[i]] == listed[names[i]]
  {
  }

  lemma PassedOneMore(listed: map<Bytes, Alarm>, found: map<Bytes, Wanted>, before: map<Bytes, Alarm>, after: map<Bytes, Alarm>,
                      names: seq<Bytes>, i: nat, nowMs: nat)
    requires PassedOver(listed, found, before, names, i, nowMs) && i < |names|
    requires AllDistinct(names)
    requires names[i] in listed && names[i] in found
    requires after == before[names[i] := AfterPass(listed[names[i]], found[names[i]], nowMs)]
    ensures PassedOver(listed, found, after, names, i + 1, nowMs)
  {
    hide AfterPass;
    assert names[i] in names;
    assert after.Keys == before.Keys;
  }

  /** A pass has moved, unmarked or left each alarm as what is stored for it calls for. */
  ghost predicate Passed(log: Log, before: map<Bytes, Alarm>, after: map<Bytes, Alarm>, nowNs: nat) {
    && after.Keys == before.Keys
    && forall n :: n in before ==>
         after[n] == AfterPass(before[n], Decision(log, before[n].rule, before[n].state, nowNs), MsOf(nowNs))
  }

  lemma AllPassedOver(log: Log, listed: map<Bytes, Alarm>, found: map<Bytes, Wanted>, alarms: map<Bytes, Alarm>,
                      names: seq<Bytes>, nowNs: nat)
    requires FoundBy(log, listed, found, nowNs) && PassedOver(listed, found, alarms, names, |names|, MsOf(nowNs))
    ensures Passed(log, listed, alarms, nowNs)
  {
    hide AfterPass, Decision;
    forall n | n in alarms
      ensures alarms[n] == AfterPass(listed[n], found[n], MsOf(nowNs))
    {
      var j :| 0 <= j < |names| && names[j] == n;
    }
  }

  /** The names that some alarm has. */
  function HeldNames(alarms: map<Bytes, Alarm>, names: seq<Bytes>): set<Bytes> {
    set n | n in names && n in alarms
  }

  function DeleteOutcome(alarms: map<Bytes, Alarm>, names: seq<Bytes>): Outcome {
    if names == [] then MissingParameter else if HeldNames(alarms, names) == {} then NotFound else Done
  }

  method Existing(alarms: map<Bytes, Alarm>, names: seq<Bytes>) returns (gone: set<Bytes>)
    ensures gone == HeldNames(alarms, names)
  {
    gone := {};
    for i := 0 to |names|
      invariant gone == HeldNames(alarms, names[..i])
    {
      assert names[..i + 1] == names[..i] + [names[i]];
      if names[i] in alarms {
        gone := gone + {names[i]};
      }
    }
    assert names[..|names|] == names;
  }

  ghost predicate Lists(s: seq<Bytes>, names: set<Bytes>) {
    forall n :: n in s <==> n in names
  }

  ghost predicate AllDistinct(s: seq<Bytes>) {
    forall i, j :: 0 <= i < j < |s| ==> s[i] != s[j]
  }

  method NamesInOrder(names: set<Bytes>) returns (s: seq<Bytes>)
    ensures s == InByteOrder(names)
    ensures Lists(s, names) && |s| == |names|
    ensures AllDistinct(s)
  {
    LessIsStrictTotal();
    s := Sorting.SortSet(names, Less);
    assert forall n :: n in s <==> n in Sorting.ToSet(s);
    Sorting.AscendingSize(s, Less);
    forall i, j | 0 <= i < j < |s|
      ensures s[i] != s[j]
    {
      LessIrreflexive(s[i]);
    }
  }

  lemma NamedAndAccepted(alarms: map<Bytes, Alarm>, history: map<Bytes, Entry>, sequence: nat, js: seq<Logged>, clock: nat, n: Bytes)
    requires Consistent(alarms, history, sequence, js, clock) && n in alarms
    ensures alarms[n].name == n && Accepted(alarms[n].rule)
  {
  }

  /** A day and a bit after the epoch, the window of any accepted alarm is behind the clock. */
  lemma AcceptedCovers(r: Rule, nowNs: nat)
    requires Accepted(r)
    requires LongRunning(nowNs)
    ensures r.period > 0 && WellFormed(r.series) && ClockCovers(r, nowNs)
  {
    var day := MAX_EVALUATION_WINDOW * NANOS_PER_SECOND;
    assert r.evaluationPeriods * (r.period * NANOS_PER_SECOND) == (r.period * r.evaluationPeriods) * NANOS_PER_SECOND;
    assert r.period <= r.period * r.evaluationPeriods by {
      if r.evaluationPeriods > 1 {
        TimesApart(r.period, r.evaluationPeriods, 1);
      }
    }
    assert Nanos(r) <= day && r.evaluationPeriods * Nanos(r) <= day;
    assert WindowEnd(r, nowNs) > nowNs - Nanos(r);
  }

  // ---- Deleting ----

  function EntriesWithout(history: map<Bytes, Entry>, gone: set<Bytes>): map<Bytes, Entry> {
    map k | k in history && history[k].alarm !in gone :: history[k]
  }

  function Without(js: seq<Logged>, gone: set<Bytes>): seq<Logged> {
    if js == [] then []
    else
      var l := js[|js| - 1];
      Without(js[..|js| - 1], gone) + (if l.entry.alarm in gone then [] else [l])
  }

  lemma {:induction false} WithoutMembers(js: seq<Logged>, gone: set<Bytes>)
    ensures forall l :: l in Without(js, gone) <==> l in js && l.entry.alarm !in gone
    decreases |js|
  {
    if js != [] {
      WithoutMembers(js[..|js| - 1], gone);
      assert js == js[..|js| - 1] + [js[|js| - 1]];
    }
  }

  lemma {:induction false} WithoutJournal(js: seq<Logged>, gone: set<Bytes>)
    requires Journal(js)
    ensures Journal(Without(js, gone))
    decreases |js|
  {
    if js != [] {
      var n := |js| - 1;
      var init := js[..n];
      WithoutJournal(init, gone);
      WithoutMembers(init, gone);
      var f := Without(init, gone);
      forall l | l in f
        ensures l.num < js[n].num && l.entry.atMs <= js[n].entry.atMs
      {
        assert l in init;
        var k :| 0 <= k < n && init[k] == l;
        assert js[k] == l;
      }
      JournalAppend(f, js[n]);
      assert f + [] == f;
    }
  }

  lemma {:induction false} WithoutTransitions(js: seq<Logged>, gone: set<Bytes>, name: Bytes)
    requires name !in gone
    ensures Transitions(Without(js, gone), name) == Transitions(js, name)
    decreases |js|
  {
    if js != [] {
      var n := |js| - 1;
      WithoutTransitions(js[..n], gone, name);
      var f := Without(js[..n], gone);
      TransitionsAppend(f, js[n], name);
      assert f + [] == f;
      assert Transitions(f, name) + [] == Transitions(f, name);
    }
  }

  lemma DeleteKeeps(alarms: map<Bytes, Alarm>, history: map<Bytes, Entry>, sequence: nat, js: seq<Logged>, clock: nat, gone: set<Bytes>)
    requires Consistent(alarms, history, sequence, js, clock)
    ensures Consistent(alarms - gone, EntriesWithout(history, gone), sequence, Without(js, gone), clock)
  {
    hide KeyOfLogged, Accepted, Journal, Chained, Transitions, Without;
    var history' := EntriesWithout(history, gone);
    WithoutJournal(js, gone);
    WithoutMembers(js, gone);
    forall n | n in alarms - gone
      ensures Chained(InsufficientData, Transitions(Without(js, gone), n), alarms[n].state)
    {
      WithoutTransitions(js, gone, n);
    }
    forall k | k in history'
      ensures exists l :: l in Without(js, gone) && KeyOfLogged(l) == k
    {
      var l :| l in js && KeyOfLogged(l) == k;
      assert l in Without(js, gone);
    }
  }

  // ---- Over runs ----

  /** What can happen to an alarm between one put and the next: a pass that finds what the samples call
      for, or a switch of its actions. */
  datatype Event = Evaluated(found: Wanted, atMs: nat) | Toggled(enabled: bool, toggledMs: nat)

  /** Whether a pass finds a state other than the alarm's. */
  predicate Disagrees(a: Alarm, e: Event) {
    e.Evaluated? && e.found.Move? && e.found.to != a.state
  }

  function Next(a: Alarm, e: Event): Alarm {
    match e
    case Evaluated(found, atMs) => AfterPass(a, if found == Move(a.state) then Stay else found, atMs)
    case Toggled(enabled, toggledMs) => Toggle(a, enabled, toggledMs)
  }

  function Run(a: Alarm, es: seq<Event>): Alarm {
    if es == [] then a else Next(Run(a, es[..|es| - 1]), es[|es| - 1])
  }

  /** A mark set by hand outlasts every pass that agrees with the alarm, and no pass that does not; and
      as long as it is there the state is the one set by hand. */
  lemma {:induction false} MarkLastsUntilDisagreement(a: Alarm, es: seq<Event>)
    requires a.setManually
    ensures Run(a, es).setManually <==> forall i :: 0 <= i < |es| ==> !Disagrees(a, es[i])
    ensures Run(a, es).setManually ==> Run(a, es).state == a.state
    decreases |es|
  {
    if es != [] {
      var init := es[..|es| - 1];
      MarkLastsUntilDisagreement(a, init);
      assert forall i :: 0 <= i < |init| ==> es[i] == init[i];
    }
  }

  /** The evaluator leaves a state set by hand only after an earlier pass has disagreed with it. */
  lemma {:induction false} ManualStateNeedsTwoDisagreements(a: Alarm, es: seq<Event>)
    requires a.setManually
    ensures Run(a, es).state != a.state ==>
              exists i, j :: 0 <= i < j < |es| && Disagrees(a, es[i]) && Disagrees(a, es[j])
    decreases |es|
  {
    if es != [] {
      var n := |es| - 1;
      var init := es[..n];
      ManualStateNeedsTwoDisagreements(a, init);
      MarkLastsUntilDisagreement(a, init);
      if Run(a, init).state != a.state {
        var i, j :| 0 <= i < j < |init| && Disagrees(a, init[i]) && Disagrees(a, init[j]);
        assert es[i] == init[i] && es[j] == init[j];
      } else if Run(a, es).state != a.state {
        assert Disagrees(Run(a, init), es[n]) && Disagrees(a, es[n]);
        assert !Run(a, init).setManually;
        var i :| 0 <= i < |init| && Disagrees(a, init[i]);
        assert es[i] == init[i];
      }
    }
  }

  /** A pass agrees with an alarm set to ALARM by hand, and the next one finds OK: had the agreement cleared the
      mark the alarm would be OK, but it is spared. */
  lemma AgreedMarkStillSpares(a: Alarm, atMs: nat)
    requires a.setManually && a.state == InAlarm
    ensures var agreed := Run(a, [Evaluated(Move(InAlarm), atMs)]);
            agreed == a && Run(a, [Evaluated(Move(InAlarm), atMs), Evaluated(Move(State.Ok), atMs)]) == a.(setManually := false)
  {
    var e, f := Evaluated(Move(InAlarm), atMs), Evaluated(Move(State.Ok), atMs);
    assert [e, f][..1] == [e] && [e][..0] == [];
  }

  /** The state updates a listing of one alarm's history returns are its transitions. */
  lemma {:induction false} ListedTransitions(js: seq<Logged>, name: Bytes)
    requires name != []
    ensures var es := AskedOf(JournalOf(js, name), Query(name, "StateUpdate", 0, 0));
            && |es| == |Transitions(js, name)|
            && forall i :: 0 <= i < |es| ==> es[i].alarm == name && es[i].change.StateUpdate?
                                             && (es[i].change.old_, es[i].change.new_) == Transitions(js, name)[i]
    decreases |js|
  {
    hide Asked;
    if js != [] {
      var init, l := js[..|js| - 1], js[|js| - 1];
      ListedTransitions(init, name);
      AskedOneMore(init, l, name, Query(name, "StateUpdate", 0, 0));
      TransitionsAppend(init, l, name);
      AsksForUpdates(name, l.entry);
      assert js == init + [l];
      hide *;
    }
  }

  lemma AskedOneMore(js: seq<Logged>, l: Logged, name: Bytes, q: Query)
    ensures AskedOf(JournalOf(js + [l], name), q)
            == AskedOf(JournalOf(js, name), q) + (if l.entry.alarm == name && Asked(q, l.entry) then [l.entry] else [])
  {
    hide Asked;
    assert (js + [l])[..|js|] == js;
    var f := JournalOf(js, name);
    assert (f + [l])[..|f|] == f && f + [] == f;
    assert AskedOf(f, q) + [] == AskedOf(f, q);
  }

  lemma AsksForUpdates(name: Bytes, e: Entry)
    requires name != []
    ensures Asked(Query(name, "StateUpdate", 0, 0), e) <==> e.alarm == name && e.change.StateUpdate?
  {
    assert "StateUpdate"[0] == 'S' && "ConfigurationUpdate"[0] == 'C';
  }

  /** What DescribeAlarmHistory shows of an alarm's states is one unbroken walk: newest first, each
      update left from the state the next older one entered, the newest entered the stored state, and
      the oldest left the state every alarm begins in. */
  lemma HistoryIsOneWalk(alarms: map<Bytes, Alarm>, history: map<Bytes, Entry>, sequence: nat, js: seq<Logged>, clock: nat, name: Bytes)
    requires Consistent(alarms, history, sequence, js, clock) && name in alarms
    ensures forall k :: k in InByteOrder(history.Keys) ==> k in history
    ensures var listed := Limited(Reversed(Collected(history, InByteOrder(history.Keys), Query(name, "StateUpdate", 0, 0))), 0);
            && (forall i :: 0 <= i < |listed| ==> listed[i].alarm == name && listed[i].change.StateUpdate?)
            && (listed == [] ==> alarms[name].state == InsufficientData)
            && (listed != [] ==> listed[0].change.new_ == alarms[name].state && listed[|listed| - 1].change.old_ == InsufficientData)
            && forall i :: 0 <= i < |listed| - 1 ==> listed[i].change.old_ == listed[i + 1].change.new_
  {
    hide Transitions, Chained, Filed, Journal, InByteOrder, Collected, JournalOf;
    var q := Query(name, "StateUpdate", 0, 0);
    HistoryNewestFirst(history, js, q, 0);
    ListedTransitions(js, name);
    ChainedMeans(InsufficientData, Transitions(js, name), alarms[name].state);
  }
}
