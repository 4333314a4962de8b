/** What each call to the regions gets, whatever other threads do meanwhile: the stack of the region it asks for, or
    the sink it sends handed to all. */
module RegionCalls {
  import opened Wrappers
  import opened Regions

  /** The states a run goes through, one step of one thread at a time. */
  ghost predicate Runs(states: seq<State>, moves: seq<(int, Choice)>) {
    && |states| == |moves| + 1
    && states[0] == Initial(states[0].world.def)
    && forall k :: 0 <= k < |moves| ==> Leads(states[k], moves[k].0, moves[k].1, states[k + 1])
  }

  /** Every state reached is reached by a run, and only those are. */
  lemma {:induction false} ReachedByRun(s: State, moves: seq<(int, Choice)>) returns (states: seq<State>)
    requires Reachable(s, moves)
    ensures Runs(states, moves) && states[|moves|] == s
    decreases |moves|
  {
    hide Leads, Initial;
    if moves == [] {
      return [s];
    }
    var (t, c) := moves[|moves| - 1];
    var before: State :| Leads(before, t, c, s) && Reachable(before, moves[..|moves| - 1]);
    var earlier := ReachedByRun(before, moves[..|moves| - 1]);
    states := earlier + [s];
    forall k | 0 <= k < |moves|
      ensures Leads(states[k], moves[k].0, moves[k].1, states[k + 1])
    {
      assert k < |moves| - 1 ==> moves[..|moves| - 1][k] == moves[k];
    }
  }

  lemma {:induction false} RunReaches(states: seq<State>, moves: seq<(int, Choice)>, n: nat)
    requires Runs(states, moves) && n <= |moves|
    ensures Reachable(states[n], moves[..n]) && states[n].world.def == states[0].world.def
    decreases n
  {
    if n > 0 {
      RunReaches(states, moves, n - 1);
      assert moves[..n][..n - 1] == moves[..n - 1] && moves[..n][n - 1] == moves[n - 1];
      assert Leads(states[n - 1], moves[n - 1].0, moves[n - 1].1, states[n]);
      hide Reachable;
      DefaultStays(states[n - 1], moves[n - 1].0, moves[n - 1].1);
      hide *;
    }
  }

  lemma DefaultStays(s: State, t: int, c: Choice)
    requires Enabled(s, t, c)
    ensures Step(s, t, c).world.def == s.world.def
  {
  }

  // ---- The call a thread is making ----

  /** What a thread chose when it last was idle. */
  function LastCall(states: seq<State>, moves: seq<(int, Choice)>, n: nat, t: int): Option<Choice>
    requires n <= |moves| && n < |states|
  {
    if n == 0 then None
    else if moves[n - 1].0 == t && PcOf(states[n - 1], t).Idle? then Some(moves[n - 1].1)
    else LastCall(states, moves, n - 1, t)
  }

  /** Whether a thread has failed to make a stack since it last was idle. */
  predicate CouldNotBuild(states: seq<State>, moves: seq<(int, Choice)>, n: nat, t: int)
    requires n <= |moves| && n < |states|
  {
    if n == 0 then false
    else if moves[n - 1].0 == t && PcOf(states[n - 1], t).Idle? then false
    else if moves[n - 1].0 == t && PcOf(states[n - 1], t).AtBuild? && moves[n - 1].1.CannotBuild? then true
    else CouldNotBuild(states, moves, n - 1, t)
  }

  /** The region a call is for: the one it asks for, or the default if it names none. */
  function Meant(w: World, asked: string): string {
    if asked == "" then w.def else asked
  }

  /** A thread in the middle of a call is where that call takes it. */
  predicate Makes(w: World, pc: Pc, call: Option<Choice>, failed: bool) {
    match pc
    case Idle => true
    case AtSinkLock(to) => call == Some(SetTraceSink(to))
    case AtSinkSet(to) => call == Some(SetTraceSink(to))
    case AtSinkEach(_) => call == Some(SetTraceSink(w.sink))
    case AtCloseLock | AtCloseEach(_) | AtCloseClear => call == Some(Close)
    case AtRelease => call == Some(SetTraceSink(w.sink)) || (call == Some(Close) && w.stacks == map[])
    case _ => call.Some? && call.value.StackFor? && pc.region == Meant(w, call.value.region) && (pc.AtUnlock? && pc.got.None? ==> failed)
  }

  predicate InCall(states: seq<State>, moves: seq<(int, Choice)>, n: nat, t: int)
    requires n <= |moves| && n < |states|
  {
    Makes(states[n].world, PcOf(states[n], t), LastCall(states, moves, n, t), CouldNotBuild(states, moves, n, t))
  }

  ghost predicate AllMake(states: seq<State>, moves: seq<(int, Choice)>, n: nat)
    requires n <= |moves| && n < |states|
  {
    forall t :: InCall(states, moves, n, t)
  }

  lemma GoesOn(w: World, pc: Pc, c: Choice, call: Option<Choice>, failed: bool)
    requires Fitting(pc, c) && Makes(w, pc, call, failed)
    ensures Makes(Does(w, pc, c), Goes(w, pc, c), if pc.Idle? then Some(c) else call,
                  if pc.Idle? then false else (pc.AtBuild? && c.CannotBuild?) || failed)
  {
  }

  /** What a step of another thread does not disturb. */
  lemma OthersStay(w: World, pc: Pc, c: Choice, other: Pc, call: Option<Choice>, failed: bool)
    requires Fitting(pc, c) && Makes(w, other, call, failed)
    requires !(Writes(pc) && Writes(other))
    ensures Makes(Does(w, pc, c), other, call, failed)
  {
  }

  lemma StepMakes(states: seq<State>, moves: seq<(int, Choice)>, n: nat)
    requires Runs(states, moves) && n < |moves| && AllMake(states, moves, n) && Locked(states[n])
    ensures AllMake(states, moves, n + 1)
  {
    var s, t, c, next := states[n], moves[n].0, moves[n].1, n + 1;
    assert Leads(s, t, c, states[next]);
    forall u
      ensures InCall(states, moves, next, u)
    {
      var pc := PcOf(s, u);
      assert InCall(states, moves, n, u);
      StepMakesOne(s, t, c, u, LastCall(states, moves, n, u), CouldNotBuild(states, moves, n, u));
      hide Makes, Step, Enabled, Locked;
    }
  }

  lemma StepMakesOne(s: State, t: int, c: Choice, u: int, call: Option<Choice>, failed: bool)
    requires Enabled(s, t, c) && Locked(s) && Makes(s.world, PcOf(s, u), call, failed)
    ensures var pc, s' := PcOf(s, u), Step(s, t, c);
            if u == t then
              Makes(s'.world, PcOf(s', u), if pc.Idle? then Some(c) else call, if pc.Idle? then false else (pc.AtBuild? && c.CannotBuild?) || failed)
            else
              Makes(s'.world, PcOf(s', u), call, failed)
  {
    hide Makes, Does, Goes, Writes, Reads, Fitting;
    if u == t {
      GoesOn(s.world, PcOf(s, t), c, call, failed);
    } else {
      assert s.writer == Some(t) <==> Writes(PcOf(s, t));
      assert s.writer == Some(u) <==> Writes(PcOf(s, u));
      OthersStay(s.world, PcOf(s, t), c, PcOf(s, u), call, failed);
    }
  }

  lemma {:induction false} RunMakes(states: seq<State>, moves: seq<(int, Choice)>, n: nat)
    requires Runs(states, moves) && n <= |moves|
    ensures AllMake(states, moves, n)
    decreases n
  {
    if n == 0 {
      assert forall t :: InCall(states, moves, 0, t);
    } else {
      RunMakes(states, moves, n - 1);
      LockedAt(states, moves, n - 1);
      StepMakes(states, moves, n - 1);
      hide *;
    }
  }

  lemma LockedAt(states: seq<State>, moves: seq<(int, Choice)>, n: nat)
    requires Runs(states, moves) && n <= |moves|
    ensures Locked(states[n])
  {
    RunReaches(states, moves, n);
    ReachableInv(states[n], moves[..n]);
    hide Runs, Reachable, Filed, Living, Traced, Honest, Locked;
  }

  // ---- What a handle is worth ----

  /** What is about to be answered was stored since the last close, and whatever was stored for a region was made
      for it. */
  ghost predicate Current(s: State) {
    && (forall t :: Bears(PcOf(s, t)).Some? ==> Bears(PcOf(s, t)).value.epoch == s.world.epoch)
    && MadeFor(s.world)
  }

  ghost predicate MadeFor(w: World) {
    forall k :: k in w.given ==> w.given[k] < w.next && w.given[k] in w.regionOf && w.regionOf[w.given[k]] == k.1
  }

  lemma DoesMadeFor(w: World, pc: Pc, c: Choice)
    requires Fitting(pc, c) && MadeFor(w) && (Writes(pc) ==> Living(w, pc))
    ensures MadeFor(Does(w, pc, c))
  {
    hide Serves;
  }

  lemma StepCurrent(s: State, t: int, c: Choice)
    requires Enabled(s, t, c) && Inv(s) && Current(s)
    ensures Current(Step(s, t, c))
  {
    var pc, s' := PcOf(s, t), Step(s, t, c);
    assert Locked(s);
    WriterAfter(s, t, c);
    assert Living(s.world, WriterAt(s));
    hide Inv, Filed, Living, Traced, Honest;
    DoesMadeFor(s.world, pc, c);
    hide MadeFor, WriterAt;
    forall u | Bears(PcOf(s', u)).Some?
      ensures Bears(PcOf(s', u)).value.epoch == s'.world.epoch
    {
      BearsCurrent(s, t, c, u);
    }
  }

  lemma BearsCurrent(s: State, t: int, c: Choice, u: int)
    requires Enabled(s, t, c) && Locked(s)
    requires Bears(PcOf(s, u)).Some? ==> Bears(PcOf(s, u)).value.epoch == s.world.epoch
    ensures var s' := Step(s, t, c); Bears(PcOf(s', u)).Some? ==> Bears(PcOf(s', u)).value.epoch == s'.world.epoch
  {
    assert s.writer == Some(t) <==> Writes(PcOf(s, t));
    assert s.writer == Some(u) <==> Writes(PcOf(s, u));
    assert u in s.readers <==> Reads(PcOf(s, u));
  }

  lemma {:induction false} RunCurrent(states: seq<State>, moves: seq<(int, Choice)>, n: nat)
    requires Runs(states, moves) && n <= |moves|
    ensures Current(states[n])
    decreases n
  {
    if n > 0 {
      RunCurrent(states, moves, n - 1);
      RunReaches(states, moves, n - 1);
      ReachableInv(states[n - 1], moves[..n - 1]);
      assert Leads(states[n - 1], moves[n - 1].0, moves[n - 1].1, states[n]);
      StepCurrent(states[n - 1], moves[n - 1].0, moves[n - 1].1);
      hide *;
    }
  }

  // ---- How calls end ----

  /** Step n is the last of a thread's call. */
  ghost predicate Ends(states: seq<State>, moves: seq<(int, Choice)>, n: nat, call: Choice)
    requires Runs(states, moves)
  {
    && n < |moves|
    && var t := moves[n].0;
       !PcOf(states[n], t).Idle? && PcOf(states[n + 1], t).Idle? && LastCall(states, moves, n, t) == Some(call)
  }

  /** A call for a region ends with the stack that was made for the region it asks for, or for the default if it
      names none, which is live and its region's at that moment; or else it could not make one. */
  lemma StackForAnswers(states: seq<State>, moves: seq<(int, Choice)>, n: nat, asked: string)
    requires Runs(states, moves) && Ends(states, moves, n, StackFor(asked))
    ensures CouldNotBuild(states, moves, n, moves[n].0)
            || AnsweredNow(states[n + 1], if asked == "" then states[0].world.def else asked)
  {
    var t, c := moves[n].0, moves[n].1;
    RunMakes(states, moves, n);
    RunCurrent(states, moves, n);
    RunReaches(states, moves, n);
    ReachableInv(states[n], moves[..n]);
    assert Leads(states[n], t, c, states[n + 1]);
    assert InCall(states, moves, n, t);
    assert PcOf(states[n + 1], t) == Goes(states[n].world, PcOf(states[n], t), c);
    EndOfStackFor(states[n].world, PcOf(states[n], t), c, asked, CouldNotBuild(states, moves, n, t));
    if !CouldNotBuild(states, moves, n, t) {
      EndAnswers(states[n], t, c);
    }
    hide *;
  }

  /** Among the answers is the stack that now serves a region, which is live and was made for it. */
  predicate AnsweredNow(s: State, region: string) {
    && region in s.world.stacks
    && var id := s.world.stacks[region];
       id in s.world.live && id in s.world.regionOf && s.world.regionOf[id] == region && Answer(region, Handle(id, s.world.epoch)) in s.answers
  }

  lemma EndOfStackFor(w: World, pc: Pc, c: Choice, asked: string, failed: bool)
    requires Fitting(pc, c) && Makes(w, pc, Some(StackFor(asked)), failed) && !pc.Idle? && Goes(w, pc, c).Idle?
    ensures failed || (Bears(pc).Some? && pc.region == if asked == "" then w.def else asked)
  {
  }

  lemma EndAnswers(s: State, t: int, c: Choice)
    requires Enabled(s, t, c) && Inv(s) && Current(s) && Bears(PcOf(s, t)).Some?
    ensures AnsweredNow(Step(s, t, c), PcOf(s, t).region)
  {
    var pc := PcOf(s, t);
    assert s.writer == Some(t) <==> Writes(pc);
    assert t in s.readers <==> Reads(pc);
    assert Known(s.world, pc.region, Bears(pc).value);
    hide Serves, Traced;
  }

  /** Whatever was answered was the answer to some call for its region, and is a stack made for it. */
  lemma {:induction false} AnswersWereAsked(states: seq<State>, moves: seq<(int, Choice)>, n: nat, a: Answer)
    requires Runs(states, moves) && n <= |moves| && a in states[n].answers
    ensures a.handle.id in states[n].world.regionOf && states[n].world.regionOf[a.handle.id] == a.region
    ensures exists k: nat, asked :: k < n && Ends(states, moves, k, StackFor(asked)) && a in states[k + 1].answers
                                    && a.region == if asked == "" then states[0].world.def else asked
    decreases n
  {
    RunCurrent(states, moves, n);
    RunReaches(states, moves, n);
    ReachableInv(states[n], moves[..n]);
    assert Known(states[n].world, a.region, a.handle);
    assert MadeFor(states[n].world);
    hide Inv, Current, MadeFor, Makes;
    if n > 0 {
      var t, c := moves[n - 1].0, moves[n - 1].1;
      assert Leads(states[n - 1], t, c, states[n]);
      if a in states[n - 1].answers {
        AnswersWereAsked(states, moves, n - 1, a);
      } else {
        RunMakes(states, moves, n - 1);
        RunReaches(states, moves, n - 1);
        var pc, call := PcOf(states[n - 1], t), LastCall(states, moves, n - 1, t);
        assert InCall(states, moves, n - 1, t);
        EndsBearing(states[n - 1], t, c, call, CouldNotBuild(states, moves, n - 1, t), a);
        assert Ends(states, moves, n - 1, StackFor(call.value.region));
      }
    }
  }

  lemma EndsBearing(s: State, t: int, c: Choice, call: Option<Choice>, failed: bool, a: Answer)
    requires Enabled(s, t, c) && Makes(s.world, PcOf(s, t), call, failed) && a in Step(s, t, c).answers && a !in s.answers
    ensures !PcOf(s, t).Idle? && PcOf(Step(s, t, c), t).Idle?
    ensures call.Some? && call.value.StackFor? && a.region == if call.value.region == "" then s.world.def else call.value.region
  {
  }

  /** A call that sets the sink ends with the sink it sent, and with every region's stack having it. */
  lemma SinkIsTheOneSent(states: seq<State>, moves: seq<(int, Choice)>, n: nat, to: Option<nat>)
    requires Runs(states, moves) && Ends(states, moves, n, SetTraceSink(to))
    ensures var w := states[n + 1].world;
            w.sink == to && forall r :: r in w.stacks ==> w.stacks[r] in w.sinkOf && w.sinkOf[w.stacks[r]] == to
  {
    var t, c, s := moves[n].0, moves[n].1, states[n];
    RunMakes(states, moves, n);
    RunReaches(states, moves, n);
    ReachableInv(s, moves[..n]);
    assert Leads(s, t, c, states[n + 1]);
    assert InCall(states, moves, n, t);
    assert PcOf(states[n + 1], t) == Goes(s.world, PcOf(s, t), c);
    EndOfWrite(s.world, PcOf(s, t), c, SetTraceSink(to), CouldNotBuild(states, moves, n, t));
    assert s.writer == Some(t) <==> Writes(PcOf(s, t));
    assert WriterAt(s) == AtRelease && states[n + 1].world == s.world;
    assert Traced(s.world, AtRelease);
    hide Inv, LastCall, CouldNotBuild, Reachable;
  }

  lemma EndOfWrite(w: World, pc: Pc, c: Choice, call: Choice, failed: bool)
    requires Fitting(pc, c) && Makes(w, pc, Some(call), failed) && !call.StackFor? && !pc.Idle? && Goes(w, pc, c).Idle?
    ensures pc.AtRelease? && Does(w, pc, c) == w
    ensures call == SetTraceSink(w.sink) || (call == Close && w.stacks == map[])
  {
  }

  /** A Close ends with no region served and nothing live. */
  lemma CloseEndsEmpty(states: seq<State>, moves: seq<(int, Choice)>, n: nat)
    requires Runs(states, moves) && Ends(states, moves, n, Close)
    ensures states[n + 1].world.stacks == map[] && states[n + 1].world.live == {}
  {
    var t, c, s := moves[n].0, moves[n].1, states[n];
    RunMakes(states, moves, n);
    RunReaches(states, moves, n);
    ReachableInv(s, moves[..n]);
    assert Leads(s, t, c, states[n + 1]);
    assert InCall(states, moves, n, t);
    assert PcOf(states[n + 1], t) == Goes(s.world, PcOf(s, t), c);
    EndOfWrite(s.world, PcOf(s, t), c, Close, CouldNotBuild(states, moves, n, t));
    assert s.writer == Some(t) <==> Writes(PcOf(s, t));
    assert WriterAt(s) == AtRelease && states[n + 1].world == s.world;
    assert Living(s.world, AtRelease);
    assert forall id :: id in s.world.live ==> Serves(s.world, AtRelease, id);
    hide Inv, LastCall, CouldNotBuild, Reachable;
  }
}
