/** What an apply calls for each resource and what it reports of it, kind by kind, and when its report,
    cut off at the call that fails, tells what the apply made. */
module Reports {
  import opened Wrappers
  import opened Provision

  /** A call made for a resource: whether it brings the resource into being, and the line that follows it. */
  datatype Call = Call(about: Res, makes: bool, line: Option<Action>)

  /** What of a declaration, and of what is there, decides the calls made for it: how many more it takes
      before the first line (a table's expiry, a key's rotation, a topic's tags, a rule's targets), whether
      the resource has to be changed, the bus of a rule, and the calls after that line with what they report. */
  datatype Traits = Traits(steps: nat, changed: bool, bus: string, rest: seq<Option<Op>>)

  /** How a resource is first dealt with: one call, so many more, and a line once they are all made. */
  datatype Opening = Opening(steps: nat, line: Option<Action>)

  function OpeningOf(r: Res, t: Traits, existed: bool): Opening {
    match r.kind
    case Table | Key => Opening(t.steps, Some(Action(if existed then Converged(t) else Created, r)))
    case Topic => Opening(t.steps, if t.rest == [] then Some(Action(Skipped, r)) else None)
    case Rule => Opening(t.steps, Some(Action(Updated, Res(Rule, t.bus + "/" + r.name))))
    case ApiDestination =>
      Opening(0, Some(Action(if existed then Updated else Created, Res(OtherWord("api-destination"), r.name))))
    case Connection => Opening(0, Some(Action(if existed then Updated else Created, r)))
    case Alarm | Dashboard => Opening(0, Some(Action(Updated, r)))
    case Activity => Opening(0, Some(Action(Created, r)))
    case Layer => Opening(0, if existed && !t.changed then None else Some(Action(Published, r)))
    case _ => if existed then Opening(t.steps, Some(Action(Converged(t), r))) else Opening(0, Some(Action(Created, r)))
  }

  function Converged(t: Traits): Op {
    if t.changed then Updated else Skipped
  }

  /** What can come after the first line: a topic's subscriptions, a function's triggers and version, a
      state machine's version, a bucket's notifications at the end, an API's deployment, and calls that
      report nothing of the resource. */
  predicate CanFollow(kind: Kind, rest: seq<Option<Op>>) {
    match kind
    case Topic => (rest == [] || Speaks(rest)) && SaysOnly(rest, {Created})
    case Function => SaysOnly(rest, {Created, Published})
    case StateMachine => SaysOnly(rest, {Published})
    case Bucket => SaysOnly(rest, {Updated}) && !SpeaksEarly(rest)
    case Api => Speaks(rest) && SaysOnly(rest, {Updated})
    case LogGroup | UsagePlan => !Speaks(rest)
    case _ => rest == []
  }

  predicate Speaks(rest: seq<Option<Op>>) {
    exists i :: 0 <= i < |rest| && rest[i].Some?
  }

  /** Whether a line is followed by another call. */
  predicate SpeaksEarly(rest: seq<Option<Op>>) {
    rest != [] && Speaks(rest[..|rest| - 1])
  }

  predicate SaysOnly(rest: seq<Option<Op>>, ops: set<Op>) {
    forall i :: 0 <= i < |rest| && rest[i].Some? ==> rest[i].value in ops
  }

  /** The calls made for a resource, in order. Reads are not among them: one that fails stops the apply
      where the call it prepares would have. */
  function CallsOf(r: Res, t: Traits, existed: bool): (calls: seq<Call>)
    ensures |calls| == OpeningOf(r, t, existed).steps + 1 + |t.rest|
    ensures forall c :: c in calls ==> c.about == r
  {
    var o := OpeningOf(r, t, existed);
    seq(o.steps + 1 + |t.rest|, i requires 0 <= i < o.steps + 1 + |t.rest| =>
      Call(r, i == 0 && !existed,
           if i < o.steps then None
           else if i == o.steps then o.line
           else if t.rest[i - o.steps - 1].Some? then Some(Action(t.rest[i - o.steps - 1].value, r))
           else None))
  }

  function Lines(calls: seq<Call>): seq<Action> {
    if calls == [] then []
    else
      var last := calls[|calls| - 1];
      Lines(calls[..|calls| - 1]) + (if last.line.Some? then [last.line.value] else [])
  }

  function MadeBy(calls: seq<Call>): set<Res> {
    set c | c in calls && c.makes :: c.about
  }

  /** The apply that fails at call n of a script. */
  function RunAt(script: seq<Call>, n: nat, message: string): ApplyRun
    requires n <= |script|
  {
    ApplyRun(Some(Failed(message)), MadeBy(script[..n]), Lines(script[..n]))
  }

  /** The calls of a script about one resource. */
  function About(script: seq<Call>, r: Res): (calls: seq<Call>)
    ensures |calls| <= |script|
    ensures forall c :: c in calls <==> c in script && c.about == r
  {
    if script == [] then []
    else
      var last := script[|script| - 1];
      About(script[..|script| - 1], r) + (if last.about == r then [last] else [])
  }

  /** Lines name the resource they are about, or a part of one that no resource of the graph is named as. */
  predicate OwnLines(script: seq<Call>, ir: set<Res>) {
    forall c :: c in script && c.line.Some? ==> c.line.value.resource == c.about || c.line.value.resource !in ir
  }

  /** The script of applying a graph: each resource's calls, in whatever order the kinds come in. */
  predicate Follows(script: seq<Call>, ir: set<Res>, world: set<Res>, traits: map<Res, Traits>) {
    && (forall r :: r in ir ==> r in traits && CanFollow(r.kind, traits[r].rest)
                                && About(script, r) == CallsOf(r, traits[r], r in world))
    && (forall c :: c in script ==> c.about in ir)
    && OwnLines(script, ir)
  }

  predicate EndsWith(script: seq<Call>, r: Res) {
    script != [] && script[|script| - 1].about == r
  }

  // ---- Where a report misleads ----

  /** Whether there is a call at which the report, cut off, has said the wrong thing of a resource: made
      and not yet told, told to be made when it was there, or made and then told to be merely updated. */
  predicate MisreportedMidway(r: Res, t: Traits, existed: bool) {
    match r.kind
    case Table | Key | Rule => !existed && t.steps > 0
    case Topic => if existed then SpeaksEarly(t.rest) else t.steps > 0 || t.rest != []
    case Function | StateMachine => existed && SpeaksEarly(t.rest)
    case Api => !existed && SpeaksEarly(t.rest)
    case _ => false
  }

  /** Whether it says the wrong thing once all calls about a resource are made. */
  predicate MisreportedAtLast(r: Res, t: Traits, existed: bool) {
    match r.kind
    case Connection | Alarm | Dashboard | Activity => existed
    case Layer => existed && t.changed
    case Function | StateMachine => existed && Speaks(t.rest)
    case Topic => existed == (t.rest != [])
    case Bucket => !existed && Speaks(t.rest)
    case Api | Rule | ApiDestination => !existed
    case _ => false
  }

  /** The report of a script never misleads where the script can fail: not between the calls about the
      resource, and not after the last of them, unless nothing comes after that. */
  predicate TellsInTime(script: seq<Call>, r: Res, t: Traits, existed: bool) {
    !MisreportedMidway(r, t, existed) && (MisreportedAtLast(r, t, existed) ==> EndsWith(script, r))
  }

  /** The report tells, of a resource that is there, whether the apply made it. */
  predicate Tells(calls: seq<Call>, r: Res, existed: bool) {
    existed || r in MadeBy(calls) ==> (SaysMade(Lines(calls), r) <==> !existed)
  }

  /** It does wherever the script fails. */
  predicate TellsThroughout(script: seq<Call>, r: Res, existed: bool) {
    forall n :: 0 <= n < |script| ==> Tells(script[..n], r, existed)
  }

  /** What the report says of a resource after the first k calls about it. */
  function OpAfter(r: Res, t: Traits, existed: bool, k: nat): Option<Op>
    requires k <= OpeningOf(r, t, existed).steps + 1 + |t.rest|
  {
    var o := OpeningOf(r, t, existed);
    if k <= o.steps then None else SaidAfter(t.rest, k - o.steps - 1, OwnOp(o.line, r))
  }

  function OwnOp(line: Option<Action>, r: Res): Option<Op> {
    if line.Some? && line.value.resource == r then Some(line.value.op) else None
  }

  function SaidAfter(rest: seq<Option<Op>>, j: nat, first: Option<Op>): Option<Op>
    requires j <= |rest|
  {
    if j == 0 then first else if rest[j - 1].Some? then rest[j - 1] else SaidAfter(rest, j - 1, first)
  }

  lemma {:induction false} LastOpAfter(r: Res, t: Traits, existed: bool, k: nat)
    requires k <= |CallsOf(r, t, existed)|
    ensures LastOp(Lines(CallsOf(r, t, existed)[..k]), r) == OpAfter(r, t, existed, k)
  {
    var calls, o := CallsOf(r, t, existed), OpeningOf(r, t, existed);
    if k > 0 {
      LastOpAfter(r, t, existed, k - 1);
      assert calls[..k][..k - 1] == calls[..k - 1];
      LastLine(calls[..k], r);
      OpAfterStep(r, t, existed, k);
    }
  }

  lemma LastLine(calls: seq<Call>, r: Res)
    requires calls != []
    ensures var line := calls[|calls| - 1].line;
            LastOp(Lines(calls), r) == if OwnOp(line, r).Some? then OwnOp(line, r) else LastOp(Lines(calls[..|calls| - 1]), r)
  {
    var before, line := Lines(calls[..|calls| - 1]), calls[|calls| - 1].line;
    if line.Some? {
      assert (before + [line.value])[..|before|] == before;
    } else {
      assert before + [] == before;
    }
  }

  lemma OpAfterStep(r: Res, t: Traits, existed: bool, k: nat)
    requires 0 < k <= |CallsOf(r, t, existed)|
    ensures var op := OwnOp(CallsOf(r, t, existed)[k - 1].line, r);
            OpAfter(r, t, existed, k) == if op.Some? then op else OpAfter(r, t, existed, k - 1)
  {
    LineAt(r, t, existed, k - 1);
    hide OpeningOf, CallsOf;
  }

  lemma LineAt(r: Res, t: Traits, existed: bool, i: nat)
    requires i < |CallsOf(r, t, existed)|
    ensures var o, line := OpeningOf(r, t, existed), CallsOf(r, t, existed)[i].line;
            OwnOp(line, r) == if i < o.steps then None else if i == o.steps then OwnOp(o.line, r) else t.rest[i - o.steps - 1]
  {
    hide OpeningOf;
  }

  /** The last thing said is the operation of one line of the rest, if there is one, and otherwise of the first. */
  lemma {:induction false} SaidAfterIs(rest: seq<Option<Op>>, j: nat, first: Option<Op>)
    requires j <= |rest|
    ensures if Speaks(rest[..j]) then SaidAfter(rest, j, first).Some? && SaidAfter(rest, j, first) in rest[..j]
            else SaidAfter(rest, j, first) == first
    decreases j
  {
    if j > 0 {
      SaidAfterIs(rest, j - 1, first);
      assert rest[..j] == rest[..j - 1] + [rest[j - 1]];
      assert rest[..j][..j - 1] == rest[..j - 1];
      SpeaksStep(rest[..j]);
    }
  }

  lemma SpeaksStep(rest: seq<Option<Op>>)
    requires rest != []
    ensures Speaks(rest) <==> rest[|rest| - 1].Some? || Speaks(rest[..|rest| - 1])
  {
    var init := rest[..|rest| - 1];
    if Speaks(init) {
      var i :| 0 <= i < |init| && init[i].Some?;
      assert rest[i].Some?;
    }
    if Speaks(rest) && rest[|rest| - 1].None? {
      var i :| 0 <= i < |rest| && rest[i].Some?;
      assert init[i].Some?;
    }
  }

  /** Whether the first k calls about a resource tell the truth of it. */
  predicate TellsAfter(r: Res, t: Traits, existed: bool, k: nat)
    requires k <= |CallsOf(r, t, existed)|
  {
    Tells(CallsOf(r, t, existed)[..k], r, existed)
  }

  lemma TellsAfterIff(r: Res, t: Traits, existed: bool, k: nat)
    requires k <= |CallsOf(r, t, existed)|
    ensures TellsAfter(r, t, existed, k)
            <==> k == 0 || (var op := OpAfter(r, t, existed, k);
                            op == Some(Created) || op == Some(Published) || (op == Some(Updated) && UpsertOnly(r.kind)) <==> !existed)
  {
    LastOpAfter(r, t, existed, k);
    hide OpeningOf, OpAfter, UpsertOnly;
    var calls := CallsOf(r, t, existed);
    if k > 0 && !existed {
      assert calls[0] in calls[..k];
      assert r in MadeBy(calls[..k]);
    }
  }

  /** A report cut off says the wrong thing of a resource at some call about it exactly as stated. */
  lemma MidwayIff(r: Res, t: Traits, existed: bool)
    requires CanFollow(r.kind, t.rest)
    ensures (exists k :: 0 <= k < |CallsOf(r, t, existed)| && !TellsAfter(r, t, existed, k)) <==> MisreportedMidway(r, t, existed)
  {
    hide MisreportedMidway, CallsOf, TellsAfter, CanFollow;
    forall k | 0 <= k < |CallsOf(r, t, existed)| && !TellsAfter(r, t, existed, k)
      ensures MisreportedMidway(r, t, existed)
    {
      MidwayFrom(r, t, existed, k);
    }
    if MisreportedMidway(r, t, existed) {
      var k := MidwayAt(r, t, existed);
    }
  }

  lemma MidwayFrom(r: Res, t: Traits, existed: bool, k: nat)
    requires CanFollow(r.kind, t.rest) && k < |CallsOf(r, t, existed)| && !TellsAfter(r, t, existed, k)
    ensures MisreportedMidway(r, t, existed)
  {
    TellsAfterIff(r, t, existed, k);
    var o := OpeningOf(r, t, existed);
    if k > o.steps {
      SaidAfterIs(t.rest, k - o.steps - 1, OwnOp(o.line, r));
      SpeaksMore(t.rest[..k - o.steps - 1], t.rest);
    }
    hide CallsOf, TellsAfter, Speaks, SpeaksEarly, SaidAfter;
  }

  lemma MidwayAt(r: Res, t: Traits, existed: bool) returns (k: nat)
    requires CanFollow(r.kind, t.rest) && MisreportedMidway(r, t, existed)
    ensures k < |CallsOf(r, t, existed)| && !TellsAfter(r, t, existed, k)
  {
    var o := OpeningOf(r, t, existed);
    k := if !existed && (o.steps > 0 || r.kind.Topic?) then 1 else o.steps + |t.rest|;
    TellsAfterIff(r, t, existed, k);
    if k > o.steps {
      SaidAfterIs(t.rest, k - o.steps - 1, OwnOp(o.line, r));
    }
    hide CallsOf, TellsAfter, Speaks, SaidAfter;
  }

  /** What is spoken in a prefix is spoken. */
  lemma SpeaksMore(said: seq<Option<Op>>, rest: seq<Option<Op>>)
    requires said <= rest
    ensures Speaks(said) ==> Speaks(rest)
    ensures Speaks(said) && |said| < |rest| ==> SpeaksEarly(rest)
  {
    if Speaks(said) {
      var i :| 0 <= i < |said| && said[i].Some?;
      assert rest[i].Some?;
      if |said| < |rest| {
        assert rest[..|rest| - 1][i].Some?;
      }
    }
  }

  /** And after the last call about it, as stated. */
  lemma AtLastIff(r: Res, t: Traits, existed: bool)
    requires CanFollow(r.kind, t.rest)
    ensures !TellsAfter(r, t, existed, |CallsOf(r, t, existed)|) <==> MisreportedAtLast(r, t, existed)
  {
    var calls := CallsOf(r, t, existed);
    TellsAfterIff(r, t, existed, |calls|);
    SaidAfterIs(t.rest, |t.rest|, OwnOp(OpeningOf(r, t, existed).line, r));
    assert t.rest[..|t.rest|] == t.rest;
    if r.kind.Rule? {
      assert t.bus + "/" + r.name != r.name by {
        assert |t.bus + "/" + r.name| > |r.name|;
      }
    }
  }

  // ---- The calls about one resource among all of them ----

  /** Where a report stands with a resource depends on the calls about it alone. */
  lemma {:induction false} AboutTells(script: seq<Call>, ir: set<Res>, r: Res)
    requires r in ir && OwnLines(script, ir)
    ensures LastOp(Lines(script), r) == LastOp(Lines(About(script, r)), r)
    decreases |script|
  {
    if script != [] {
      var init, last := script[..|script| - 1], script[|script| - 1];
      AboutTells(init, ir, r);
      LastLine(script, r);
      if last.about == r {
        assert About(script, r)[..|About(init, r)|] == About(init, r);
        LastLine(About(script, r), r);
      } else {
        assert About(script, r) == About(init, r);
        assert last in script;
      }
    }
  }

  lemma {:induction false} AboutNone(script: seq<Call>, r: Res)
    requires forall c :: c in script ==> c.about != r
    ensures About(script, r) == []
    decreases |script|
  {
    if script != [] {
      AboutNone(script[..|script| - 1], r);
    }
  }

  predicate OneEach(script: seq<Call>) {
    forall j, k :: 0 <= j < k < |script| ==> script[j].about != script[k].about
  }

  /** A script of one call for each resource. */
  lemma {:induction false} AboutOne(script: seq<Call>, i: nat)
    requires i < |script| && OneEach(script)
    ensures About(script, script[i].about) == [script[i]]
    decreases |script|
  {
    var r, init := script[i].about, script[..|script| - 1];
    if i < |init| {
      assert script[|script| - 1].about != r;
      AboutOne(init, i);
      assert About(script, r) == About(init, r);
    } else {
      AboutNone(init, r);
    }
  }

  /** A resource dealt with in one call. */
  function OnlyCall(r: Res, t: Traits, existed: bool): Call {
    Call(r, !existed, OpeningOf(r, t, existed).line)
  }

  lemma OneEachFollows(script: seq<Call>, ir: set<Res>, world: set<Res>, traits: map<Res, Traits>)
    requires OneEach(script) && OwnLines(script, ir)
    requires forall c :: c in script ==> c.about in ir
    requires forall r :: r in ir ==>
               && r in traits && traits[r].rest == [] && CanFollow(r.kind, [])
               && OpeningOf(r, traits[r], r in world).steps == 0 && OnlyCall(r, traits[r], r in world) in script
    ensures Follows(script, ir, world, traits)
  {
    forall r | r in ir
      ensures About(script, r) == CallsOf(r, traits[r], r in world)
    {
      var i :| 0 <= i < |script| && script[i] == OnlyCall(r, traits[r], r in world);
      AboutOne(script, i);
    }
  }

  lemma {:induction false} AboutPrefix(script: seq<Call>, n: nat, r: Res)
    requires n <= |script|
    ensures About(script[..n], r) <= About(script, r)
    ensures n < |script| && EndsWith(script, r) ==> |About(script[..n], r)| < |About(script, r)|
    decreases |script|
  {
    if n < |script| {
      var init := script[..|script| - 1];
      AboutPrefix(init, n, r);
      assert init[..n] == script[..n];
    } else {
      assert script[..n] == script;
    }
  }

  /** Every call about a resource is some call of the script. */
  lemma {:induction false} KthCall(script: seq<Call>, r: Res, k: nat) returns (n: nat)
    requires k < |About(script, r)|
    ensures n < |script| && |About(script[..n], r)| == k
    decreases |script|
  {
    hide *;
    var init := script[..|script| - 1];
    AtMostOneMore(script, r);
    if k < |About(init, r)| {
      n := KthCall(init, r, k);
      assert init[..n] == script[..n];
    } else {
      n := |script| - 1;
    }
  }

  lemma AtMostOneMore(script: seq<Call>, r: Res)
    requires script != []
    ensures |About(script, r)| <= |About(script[..|script| - 1], r)| + 1
  {
  }

  /** Cut off at call n, a script tells of a resource what the calls about it by then tell. */
  lemma TellsSoFar(script: seq<Call>, ir: set<Res>, world: set<Res>, traits: map<Res, Traits>, r: Res, n: nat)
    requires Follows(script, ir, world, traits) && r in ir && n <= |script|
    ensures |About(script[..n], r)| <= |CallsOf(r, traits[r], r in world)|
    ensures Tells(script[..n], r, r in world) <==> TellsAfter(r, traits[r], r in world, |About(script[..n], r)|)
  {
    hide CallsOf, UpsertOnly, CanFollow;
    AboutTells(script[..n], ir, r);
    AboutPrefix(script, n, r);
    var k := |About(script[..n], r)|;
    assert About(script[..n], r) == CallsOf(r, traits[r], r in world)[..k];
    hide About;
    assert r in MadeBy(script[..n]) <==> r in MadeBy(About(script[..n], r)) by {
      assert forall c :: c in About(script[..n], r) <==> c in script[..n] && c.about == r;
    }
  }

  /** Wherever a script fails its report tells the truth of a resource, exactly when its kind, its
      declaration and its place in the script say that it does. */
  lemma TellsThroughoutIff(script: seq<Call>, ir: set<Res>, world: set<Res>, traits: map<Res, Traits>, r: Res)
    requires Follows(script, ir, world, traits) && r in ir
    ensures TellsThroughout(script, r, r in world) <==> TellsInTime(script, r, traits[r], r in world)
  {
    assert r in traits;
    hide Follows, MisreportedMidway, MisreportedAtLast, CallsOf, Tells, TellsAfter;
    forall n | 0 <= n < |script|
      ensures Tells(script[..n], r, r in world) || MisreportedMidway(r, traits[r], r in world)
              || (MisreportedAtLast(r, traits[r], r in world) && !EndsWith(script, r))
    {
      TellsUnless(script, ir, world, traits, r, n);
    }
    if TellsThroughout(script, r, r in world) {
      TellsMidway(script, ir, world, traits, r);
      TellsAtLast(script, ir, world, traits, r);
    }
  }

  lemma TellsUnless(script: seq<Call>, ir: set<Res>, world: set<Res>, traits: map<Res, Traits>, r: Res, n: nat)
    requires Follows(script, ir, world, traits) && r in ir && n < |script|
    ensures Tells(script[..n], r, r in world) || MisreportedMidway(r, traits[r], r in world)
            || (MisreportedAtLast(r, traits[r], r in world) && !EndsWith(script, r))
  {
    TellsSoFar(script, ir, world, traits, r, n);
    AboutPrefix(script, n, r);
    MidwayIff(r, traits[r], r in world);
    AtLastIff(r, traits[r], r in world);
    hide MisreportedMidway, MisreportedAtLast, CallsOf, Tells, TellsAfter, About;
  }

  lemma TellsThere(script: seq<Call>, r: Res, existed: bool, n: nat)
    requires TellsThroughout(script, r, existed) && n < |script|
    ensures Tells(script[..n], r, existed)
  {
    hide Tells;
  }

  lemma TellsMidway(script: seq<Call>, ir: set<Res>, world: set<Res>, traits: map<Res, Traits>, r: Res)
    requires Follows(script, ir, world, traits) && r in ir
    requires TellsThroughout(script, r, r in world)
    ensures !MisreportedMidway(r, traits[r], r in world)
  {
    MidwayIff(r, traits[r], r in world);
    hide TellsThroughout, MisreportedMidway, CallsOf, Tells, TellsAfter, About;
    if k :| 0 <= k < |CallsOf(r, traits[r], r in world)| && !TellsAfter(r, traits[r], r in world, k) {
      var n := KthCall(script, r, k);
      TellsThere(script, r, r in world, n);
      TellsSoFar(script, ir, world, traits, r, n);
    }
  }

  lemma TellsAtLast(script: seq<Call>, ir: set<Res>, world: set<Res>, traits: map<Res, Traits>, r: Res)
    requires Follows(script, ir, world, traits) && r in ir
    requires TellsThroughout(script, r, r in world)
    ensures MisreportedAtLast(r, traits[r], r in world) ==> EndsWith(script, r)
  {
    hide TellsThroughout, MisreportedAtLast, CallsOf, Tells, TellsAfter, About;
    AtLastIff(r, traits[r], r in world);
    if script != [] && !EndsWith(script, r) {
      TellsThere(script, r, r in world, |script| - 1);
      TellsSoFar(script, ir, world, traits, r, |script| - 1);
      NotLastAbout(script, r);
    }
  }

  lemma NotLastAbout(script: seq<Call>, r: Res)
    requires script != [] && !EndsWith(script, r)
    ensures About(script[..|script| - 1], r) == About(script, r)
  {
    assert About(script[..|script| - 1], r) + [] == About(script[..|script| - 1], r);
  }
}
