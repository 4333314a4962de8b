/** The regions' stacks, created on first use under a read-write lock, as steps that any number of threads
    take in any order. */
module Regions {
  import opened Wrappers

  /** A stack a call found or made, and how many times the regions had been closed by then. */
  datatype Handle = Handle(id: nat, epoch: nat)

  /** Where a thread is: at the step it takes next. */
  datatype Pc =
    | Idle
    | AtRLock(region: string) | AtLookup(region: string) | AtRUnlock(region: string, found: Option<Handle>)
    | AtLock(region: string) | AtRecheck(region: string) | AtBuild(region: string)
    | AtAttach(region: string, id: nat) | AtStore(region: string, id: nat) | AtUnlock(region: string, got: Option<Handle>)
    | AtSinkLock(to: Option<nat>) | AtSinkSet(to: Option<nat>) | AtSinkEach(left: set<string>)
    | AtCloseLock | AtCloseEach(left: set<string>) | AtCloseClear
    | AtRelease

  /** The regions and the stacks that were made, each with its number. */
  datatype World = World(
    def: string,                        // the default region
    stacks: map<string, nat>,           // the stack serving each region
    sink: Option<nat>,
    next: nat,                          // the number of the next stack
    live: set<nat>,                     // made and not closed
    regionOf: map<nat, string>,
    sinkOf: map<nat, Option<nat>>,
    epoch: nat,                         // times closed
    given: map<(nat, string), nat>)     // the stack stored for each region since each close

  /** What a call to stackFor returned. */
  datatype Answer = Answer(region: string, handle: Handle)

  datatype State = State(world: World, readers: set<int>, writer: Option<int>, pcs: map<int, Pc>, answers: set<Answer>)

  function PcOf(s: State, t: int): Pc {
    if t in s.pcs then s.pcs[t] else Idle
  }

  /** What is left open at a step: the call a thread makes, whether a stack can be made, which region is next. */
  datatype Choice = StackFor(region: string) | SetTraceSink(to: Option<nat>) | Close | CanBuild | CannotBuild | Next(region: string)

  predicate WantsLock(pc: Pc) {
    pc.AtLock? || pc.AtSinkLock? || pc.AtCloseLock?
  }

  /** Whether a thread can take its next step: a lock may have to be waited for. */
  predicate Enabled(s: State, t: int, c: Choice) {
    var pc := PcOf(s, t);
    && Fitting(pc, c)
    && (pc.AtRLock? ==> s.writer.None?)
    && (WantsLock(pc) ==> s.writer.None? && s.readers == {})
  }

  /** Whether a choice is one the step leaves open. */
  predicate Fitting(pc: Pc, c: Choice) {
    && (pc.Idle? ==> c.StackFor? || c.SetTraceSink? || c.Close?)
    && (pc.AtBuild? ==> c.CanBuild? || c.CannotBuild?)
    && ((pc.AtSinkEach? || pc.AtCloseEach?) && pc.left != {} ==> c.Next? && c.region in pc.left)
  }

  function Held(w: World, region: string): Option<Handle> {
    if region in w.stacks then Some(Handle(w.stacks[region], w.epoch)) else None
  }

  /** Where a thread goes next. */
  function Goes(w: World, pc: Pc, c: Choice): Pc
    requires Fitting(pc, c)
  {
    match pc
    case Idle =>
      if c.StackFor? then AtRLock(if c.region == "" then w.def else c.region)
      else if c.SetTraceSink? then AtSinkLock(c.to)
      else AtCloseLock
    case AtRLock(region) => AtLookup(region)
    case AtLookup(region) => AtRUnlock(region, Held(w, region))
    case AtRUnlock(region, found) => if found.Some? then Idle else AtLock(region)
    case AtLock(region) => AtRecheck(region)
    case AtRecheck(region) => if region in w.stacks then AtUnlock(region, Held(w, region)) else AtBuild(region)
    case AtBuild(region) => if c.CannotBuild? then AtUnlock(region, None) else AtAttach(region, w.next)
    case AtAttach(region, id) => AtStore(region, id)
    case AtStore(region, id) => AtUnlock(region, Some(Handle(id, w.epoch)))
    case AtUnlock(_, _) => Idle
    case AtSinkLock(to) => AtSinkSet(to)
    case AtSinkSet(_) => AtSinkEach(w.stacks.Keys)
    case AtSinkEach(left) => if left == {} then AtRelease else AtSinkEach(left - {c.region})
    case AtCloseLock => AtCloseEach(w.stacks.Keys)
    case AtCloseEach(left) => if left == {} then AtCloseClear else AtCloseEach(left - {c.region})
    case AtCloseClear => AtRelease
    case AtRelease => Idle
  }

  /** What a step does to the regions. */
  function Does(w: World, pc: Pc, c: Choice): World
    requires Fitting(pc, c)
  {
    match pc
    case AtBuild(region) =>
      if c.CannotBuild? then w
      else w.(next := w.next + 1, live := w.live + {w.next}, regionOf := w.regionOf[w.next := region], sinkOf := w.sinkOf[w.next := None])
    case AtAttach(_, id) => if w.sink.Some? then w.(sinkOf := w.sinkOf[id := w.sink]) else w
    case AtStore(region, id) => w.(stacks := w.stacks[region := id], given := w.given[(w.epoch, region) := id])
    case AtSinkSet(to) => w.(sink := to)
    case AtSinkEach(left) =>
      if left == {} || c.region !in w.stacks then w else w.(sinkOf := w.sinkOf[w.stacks[c.region] := w.sink])
    case AtCloseEach(left) =>
      if left == {} || c.region !in w.stacks then w else w.(live := w.live - {w.stacks[c.region]})
    case AtCloseClear => w.(stacks := map[], epoch := w.epoch + 1)
    case _ => w
  }

  /** The handle a thread carries to the end of its call. */
  function Bears(pc: Pc): Option<Handle> {
    match pc
    case AtRUnlock(_, found) => found
    case AtUnlock(_, got) => got
    case _ => None
  }

  /** One step of one thread. */
  function Step(s: State, t: int, c: Choice): State
    requires Enabled(s, t, c)
  {
    var pc := PcOf(s, t);
    State(Does(s.world, pc, c),
          if pc.AtRLock? then s.readers + {t} else if pc.AtRUnlock? then s.readers - {t} else s.readers,
          if WantsLock(pc) then Some(t) else if pc.AtUnlock? || pc.AtRelease? then None else s.writer,
          s.pcs[t := Goes(s.world, pc, c)],
          if Bears(pc).Some? then s.answers + {Answer(pc.region, Bears(pc).value)} else s.answers)
  }

  function Initial(def: string): State {
    State(World(def, map[], None, 0, {}, map[], map[], 0, map[]), {}, None, map[], {})
  }

  /** The states a run of steps leads to. */
  ghost predicate Reachable(s: State, moves: seq<(int, Choice)>)
    decreases |moves|
  {
    if moves == [] then s == Initial(s.world.def)
    else
      var (t, c) := moves[|moves| - 1];
      exists before: State :: Leads(before, t, c, s) && Reachable(before, moves[..|moves| - 1])
  }

  predicate Leads(before: State, t: int, c: Choice, after: State) {
    Enabled(before, t, c) && Step(before, t, c) == after
  }

  // ---- The invariant ----

  predicate Reads(pc: Pc) {
    pc.AtLookup? || pc.AtRUnlock?
  }

  predicate Writes(pc: Pc) {
    || pc.AtRecheck? || pc.AtBuild? || pc.AtAttach? || pc.AtStore? || pc.AtUnlock? || pc.AtSinkSet? || pc.AtSinkEach?
    || pc.AtCloseEach? || pc.AtCloseClear? || pc.AtRelease?
  }

  /** The lock is held by exactly those inside, and a writer is alone. */
  ghost predicate Locked(s: State) {
    && (forall t :: t in s.readers <==> Reads(PcOf(s, t)))
    && (forall t :: s.writer == Some(t) <==> Writes(PcOf(s, t)))
    && (s.writer.Some? ==> s.readers == {})
  }

  /** Where the writer is; Idle when there is none. */
  function WriterAt(s: State): Pc {
    if s.writer.Some? then PcOf(s, s.writer.value) else Idle
  }

  /** Each region's stack was made for it, and since the last close it has had no other. */
  ghost predicate Filed(w: World) {
    && (forall r :: r in w.stacks ==>
          var id := w.stacks[r];
          id < w.next && id in w.regionOf && w.regionOf[id] == r && id in w.sinkOf && (w.epoch, r) in w.given && w.given[(w.epoch, r)] == id)
    && (forall k :: k in w.given ==> k.0 <= w.epoch && (k.0 == w.epoch ==> k.1 in w.stacks))
  }

  predicate Making(pc: Pc) {
    pc.AtAttach? || pc.AtStore?
  }

  /** Whether a live stack is its region's own. */
  predicate Serves(w: World, pc: Pc, id: nat)
    requires id in w.regionOf
  {
    var r := w.regionOf[id];
    r in w.stacks && w.stacks[r] == id && (pc.AtCloseEach? ==> r in pc.left) && !pc.AtCloseClear?
  }

  /** With the writer at pc: a live stack is a region's own, or the one the writer is making; and a region's
      stack is live unless the writer has closed it. */
  ghost predicate Living(w: World, pc: Pc) {
    && (forall id :: id in w.live ==> id < w.next && id in w.regionOf && id in w.sinkOf)
    && (forall id :: id in w.live ==> Serves(w, pc, id) || (Making(pc) && pc.id == id && pc.region == w.regionOf[id]))
    && (pc.AtBuild? || Making(pc) ==> pc.region !in w.stacks)
    && (Making(pc) ==> pc.id in w.live && w.regionOf[pc.id] == pc.region)
    && (pc.AtCloseEach? || pc.AtSinkEach? ==> pc.left <= w.stacks.Keys)
    && (forall r :: r in w.stacks && !pc.AtCloseClear? && !(pc.AtCloseEach? && r !in pc.left) ==> w.stacks[r] in w.live)
  }

  /** With the writer at pc: every region's stack has the sink, but for those it has yet to be handed to. */
  ghost predicate Traced(w: World, pc: Pc) {
    && (forall r :: r in w.stacks ==> w.stacks[r] in w.sinkOf && (!(pc.AtSinkEach? && r in pc.left) ==> w.sinkOf[w.stacks[r]] == w.sink))
    && (Making(pc) ==> pc.id in w.sinkOf && w.sinkOf[pc.id] == if pc.AtStore? then w.sink else None)
  }

  predicate Known(w: World, region: string, h: Handle) {
    (h.epoch, region) in w.given && w.given[(h.epoch, region)] == h.id
  }

  /** What was answered, or is about to be, is what was stored. */
  ghost predicate Honest(s: State) {
    && (forall a :: a in s.answers ==> Known(s.world, a.region, a.handle))
    && (forall t :: Bears(PcOf(s, t)).Some? ==> Known(s.world, PcOf(s, t).region, Bears(PcOf(s, t)).value))
  }

  ghost predicate Inv(s: State) {
    Locked(s) && Filed(s.world) && Living(s.world, WriterAt(s)) && Traced(s.world, WriterAt(s)) && Honest(s)
  }

  // ---- Every step keeps it ----

  /** How the lock follows where threads are. */
  lemma GoesInAndOut(w: World, pc: Pc, c: Choice)
    requires Fitting(pc, c)
    ensures var next := Goes(w, pc, c);
            && (Reads(next) <==> pc.AtRLock? || (Reads(pc) && !pc.AtRUnlock?))
            && (Writes(next) <==> WantsLock(pc) || (Writes(pc) && !pc.AtUnlock? && !pc.AtRelease?))
            && (Writes(pc) ==> !Reads(pc))
  {
  }

  lemma StepLocked(s: State, t: int, c: Choice)
    requires Enabled(s, t, c) && Locked(s)
    ensures Locked(Step(s, t, c))
  {
    var s' := Step(s, t, c);
    GoesInAndOut(s.world, PcOf(s, t), c);
    assert PcOf(s', t) == Goes(s.world, PcOf(s, t), c);
    assert forall u :: u != t ==> PcOf(s', u) == PcOf(s, u);
    assert s.writer == Some(t) <==> Writes(PcOf(s, t));
    assert t in s.readers <==> Reads(PcOf(s, t));
    hide Goes, Does, Reads, Writes, Fitting;
  }

  /** Where the writer is after a step: where the step goes if the thread is inside, and unmoved if it is not. */
  lemma WriterAfter(s: State, t: int, c: Choice)
    requires Enabled(s, t, c) && Locked(s)
    ensures var pc := PcOf(s, t);
            if Writes(pc) then WriterAt(s) == pc && WriterAt(Step(s, t, c)) == (if pc.AtUnlock? || pc.AtRelease? then Idle else Goes(s.world, pc, c))
            else if WantsLock(pc) then WriterAt(s) == Idle && WriterAt(Step(s, t, c)) == Goes(s.world, pc, c)
            else WriterAt(Step(s, t, c)) == WriterAt(s)
  {
    hide Goes, Does, Fitting, Reads;
    assert s.writer == Some(t) <==> Writes(PcOf(s, t));
  }

  lemma DoesFiled(w: World, pc: Pc, c: Choice)
    requires Fitting(pc, c) && Filed(w) && Living(w, pc)
    ensures Filed(Does(w, pc, c))
  {
    if pc.AtStore? {
      StoreFiled(w, pc, c);
    } else {
      hide Serves;
    }
  }

  lemma StoreFiled(w: World, pc: Pc, c: Choice)
    requires Fitting(pc, c) && pc.AtStore? && Filed(w) && Living(w, pc)
    ensures Filed(Does(w, pc, c))
  {
    hide Serves;
    assert forall k :: k in w.given ==> k != (w.epoch, pc.region);
  }

  /** Only a thread inside the lock as its writer changes anything. */
  lemma OnlyWritersDo(w: World, pc: Pc, c: Choice)
    requires Fitting(pc, c) && !Writes(pc)
    ensures Does(w, pc, c) == w
  {
  }

  lemma DoesLiving(w: World, pc: Pc, c: Choice)
    requires Fitting(pc, c) && Writes(pc) && Filed(w) && Living(w, pc)
    ensures Living(Does(w, pc, c), if pc.AtUnlock? || pc.AtRelease? then Idle else Goes(w, pc, c))
  {
    hide Filed, Living, Does, Goes, Fitting;
    if pc.AtBuild? {
      BuildLives(w, pc, c);
    } else if pc.AtStore? {
      StoreLives(w, pc, c);
    } else if pc.AtCloseEach? {
      CloseOneLives(w, pc, c);
    } else if pc.AtCloseClear? {
      ClearLives(w, pc, c);
    } else {
      OthersLive(w, pc, c);
    }
  }

  lemma BuildLives(w: World, pc: Pc, c: Choice)
    requires pc.AtBuild? && Fitting(pc, c) && Filed(w) && Living(w, pc)
    ensures Living(Does(w, pc, c), Goes(w, pc, c))
  {
    var w', pc' := Does(w, pc, c), Goes(w, pc, c);
    forall id | id in w'.live && id != w.next
      ensures Serves(w', pc', id)
    {
      assert Serves(w, pc, id);
    }
  }

  lemma ClearLives(w: World, pc: Pc, c: Choice)
    requires pc.AtCloseClear? && Fitting(pc, c) && Living(w, pc)
    ensures Living(Does(w, pc, c), Goes(w, pc, c))
  {
  }

  /** The steps that make, store and close nothing. */
  lemma OthersLive(w: World, pc: Pc, c: Choice)
    requires Writes(pc) && !pc.AtBuild? && !pc.AtStore? && !pc.AtCloseEach? && !pc.AtCloseClear?
    requires Fitting(pc, c) && Filed(w) && Living(w, pc)
    ensures Living(Does(w, pc, c), if pc.AtUnlock? || pc.AtRelease? then Idle else Goes(w, pc, c))
  {
    var w', pc' := Does(w, pc, c), if pc.AtUnlock? || pc.AtRelease? then Idle else Goes(w, pc, c);
    assert SameStacks(w, w');
    assert Making(pc) <==> Making(pc');
    assert Making(pc) ==> pc.id == pc'.id && pc.region == pc'.region;
    assert pc'.AtBuild? ==> pc'.region !in w.stacks;
    assert pc'.AtSinkEach? ==> pc'.left <= w.stacks.Keys;
    LivingKept(w, pc, w', pc');
  }

  predicate SameStacks(w: World, w': World) {
    w'.live == w.live && w'.stacks == w.stacks && w'.regionOf == w.regionOf && w'.next == w.next && w.sinkOf.Keys <= w'.sinkOf.Keys
  }

  lemma LivingKept(w: World, pc: Pc, w': World, pc': Pc)
    requires SameStacks(w, w') && Living(w, pc)
    requires !pc.AtCloseEach? && !pc.AtCloseClear? && !pc'.AtCloseEach? && !pc'.AtCloseClear?
    requires Making(pc) <==> Making(pc')
    requires Making(pc) ==> pc.id == pc'.id && pc.region == pc'.region
    requires pc'.AtBuild? ==> pc'.region !in w.stacks
    requires pc'.AtSinkEach? ==> pc'.left <= w.stacks.Keys
    ensures Living(w', pc')
  {
    forall id | id in w.live
      ensures id in w.regionOf && (Serves(w, pc, id) ==> Serves(w', pc', id))
    {
    }
  }

  lemma StoreLives(w: World, pc: Pc, c: Choice)
    requires pc.AtStore? && Fitting(pc, c) && Filed(w) && Living(w, pc)
    ensures Living(Does(w, pc, c), Goes(w, pc, c))
  {
    var w', pc' := Does(w, pc, c), Goes(w, pc, c);
    forall id | id in w'.live
      ensures Serves(w', pc', id)
    {
      assert Serves(w, pc, id) || pc.id == id;
    }
  }

  lemma CloseOneLives(w: World, pc: Pc, c: Choice)
    requires pc.AtCloseEach? && Fitting(pc, c) && Filed(w) && Living(w, pc)
    ensures Living(Does(w, pc, c), Goes(w, pc, c))
  {
    var w', pc' := Does(w, pc, c), Goes(w, pc, c);
    forall id | id in w'.live
      ensures pc.left != {} && Serves(w', pc', id)
    {
      assert Serves(w, pc, id);
    }
  }

  /** Entering the lock finds everything in order. */
  lemma EnteringLives(w: World, pc: Pc, c: Choice)
    requires Fitting(pc, c) && WantsLock(pc) && Living(w, Idle) && Traced(w, Idle)
    ensures Living(w, Goes(w, pc, c)) && Traced(w, Goes(w, pc, c))
  {
    forall id | id in w.live
      ensures Serves(w, Goes(w, pc, c), id)
    {
      assert Serves(w, Idle, id);
    }
  }

  lemma DoesTraced(w: World, pc: Pc, c: Choice)
    requires Fitting(pc, c) && Writes(pc) && Filed(w) && Living(w, pc) && Traced(w, pc)
    ensures Traced(Does(w, pc, c), if pc.AtUnlock? || pc.AtRelease? then Idle else Goes(w, pc, c))
  {
    if pc.AtSinkEach? {
      SinkEachTraced(w, pc, c);
    } else if pc.AtBuild? {
      BuildTraced(w, pc, c);
    } else if pc.AtAttach? || pc.AtStore? {
      StoreTraced(w, pc, c);
    } else {
      hide Living, Filed;
    }
  }

  lemma SinkEachTraced(w: World, pc: Pc, c: Choice)
    requires Fitting(pc, c) && pc.AtSinkEach? && Living(w, pc) && Traced(w, pc)
    ensures Traced(Does(w, pc, c), Goes(w, pc, c))
  {
    hide Serves;
    var left' := if pc.left == {} then {} else pc.left - {c.region};
    forall r | r in w.stacks
      ensures var w' := Does(w, pc, c); w'.stacks[r] in w'.sinkOf && (r !in left' ==> w'.sinkOf[w'.stacks[r]] == w'.sink)
    {
    }
  }

  lemma BuildTraced(w: World, pc: Pc, c: Choice)
    requires Fitting(pc, c) && pc.AtBuild? && Filed(w) && Living(w, pc) && Traced(w, pc)
    ensures Traced(Does(w, pc, c), Goes(w, pc, c))
  {
    hide Serves;
    forall r | r in w.stacks
      ensures w.stacks[r] != w.next
    {
    }
    hide Filed, Living;
  }

  lemma StoreTraced(w: World, pc: Pc, c: Choice)
    requires Fitting(pc, c) && (pc.AtAttach? || pc.AtStore?) && Filed(w) && Living(w, pc) && Traced(w, pc)
    ensures Traced(Does(w, pc, c), Goes(w, pc, c))
  {
    forall r | r in w.stacks
      ensures w.stacks[r] != pc.id
    {
    }
    hide Filed, Living;
  }

  lemma DoesKnown(w: World, pc: Pc, c: Choice)
    requires Fitting(pc, c) && Filed(w) && Living(w, pc)
    ensures forall region, h :: Known(w, region, h) ==> Known(Does(w, pc, c), region, h)
    ensures Bears(Goes(w, pc, c)).Some? ==> Known(Does(w, pc, c), Goes(w, pc, c).region, Bears(Goes(w, pc, c)).value)
  {
    hide Serves;
    if pc.AtStore? {
      assert forall k :: k in w.given ==> k != (w.epoch, pc.region);
    }
  }

  lemma StepKeepsInv(s: State, t: int, c: Choice)
    requires Enabled(s, t, c) && Inv(s)
    ensures Inv(Step(s, t, c))
  {
    var pc := PcOf(s, t);
    StepLocked(s, t, c);
    WriterAfter(s, t, c);
    hide Locked, Does, Goes, Fitting, Filed, Living, Traced, Honest, Reads, WriterAt;
    if Writes(pc) {
      DoesFiled(s.world, pc, c);
      DoesLiving(s.world, pc, c);
      DoesTraced(s.world, pc, c);
    } else {
      OnlyWritersDo(s.world, pc, c);
      if WantsLock(pc) {
        EnteringLives(s.world, pc, c);
      }
    }
    StepHonest(s, t, c);
  }

  lemma StepHonest(s: State, t: int, c: Choice)
    requires Enabled(s, t, c) && Inv(s)
    ensures Honest(Step(s, t, c))
  {
    var pc, s' := PcOf(s, t), Step(s, t, c);
    WriterAfter(s, t, c);
    hide Locked, Does, Goes, Fitting, Filed, Living, Traced, Reads, WriterAt, Writes, Known;
    if Writes(pc) {
      DoesKnown(s.world, pc, c);
    } else {
      ReadsKnown(s.world, pc, c);
    }
    assert PcOf(s', t) == Goes(s.world, pc, c);
    assert forall u :: u != t ==> PcOf(s', u) == PcOf(s, u);
  }

  lemma ReadsKnown(w: World, pc: Pc, c: Choice)
    requires Fitting(pc, c) && Filed(w) && !Writes(pc)
    ensures Does(w, pc, c) == w
    ensures Bears(Goes(w, pc, c)).Some? ==> Known(w, Goes(w, pc, c).region, Bears(Goes(w, pc, c)).value)
  {
  }

  lemma {:induction false} ReachableInv(s: State, moves: seq<(int, Choice)>)
    requires Reachable(s, moves)
    ensures Inv(s)
    decreases |moves|
  {
    hide Inv;
    if moves == [] {
      InitialInv(s.world.def);
    } else {
      var (t, c) := moves[|moves| - 1];
      var before: State :| Leads(before, t, c, s) && Reachable(before, moves[..|moves| - 1]);
      ReachableInv(before, moves[..|moves| - 1]);
      StepKeepsInv(before, t, c);
    }
  }

  lemma InitialInv(def: string)
    ensures Inv(Initial(def))
  {
  }

  // ---- What holds over every run ----

  /** Under every interleaving, no region ever has two live stacks. */
  lemma OneLiveStackPerRegion(s: State, moves: seq<(int, Choice)>, a: nat, b: nat)
    requires Reachable(s, moves) && a in s.world.live && b in s.world.live
    ensures a in s.world.regionOf && b in s.world.regionOf
    ensures s.world.regionOf[a] == s.world.regionOf[b] ==> a == b
  {
    ReachableInv(s, moves);
    hide Reachable;
  }

  /** Two calls for one region with no Close between answer with the same stack. */
  lemma SameAnswer(s: State, moves: seq<(int, Choice)>, a: Answer, b: Answer)
    requires Reachable(s, moves) && a in s.answers && b in s.answers
    requires a.region == b.region && a.handle.epoch == b.handle.epoch
    ensures a.handle.id == b.handle.id
  {
    ReachableInv(s, moves);
    hide Reachable;
  }

  /** A stack that was answered with is still the region's, and live, until a Close. */
  lemma AnsweredStaysLive(s: State, moves: seq<(int, Choice)>, a: Answer)
    requires Reachable(s, moves) && a in s.answers && a.handle.epoch == s.world.epoch
    requires !WriterAt(s).AtCloseEach? && !WriterAt(s).AtCloseClear?
    ensures a.region in s.world.stacks && s.world.stacks[a.region] == a.handle.id && a.handle.id in s.world.live
  {
    ReachableInv(s, moves);
    hide Reachable;
    assert Known(s.world, a.region, a.handle);
  }

  /** Unless one is just being handed out, every region's stack has the sink that was set last. */
  lemma SinkEverywhere(s: State, moves: seq<(int, Choice)>, r: string)
    requires Reachable(s, moves) && r in s.world.stacks && !WriterAt(s).AtSinkEach?
    ensures s.world.stacks[r] in s.world.sinkOf && s.world.sinkOf[s.world.stacks[r]] == s.world.sink
  {
    ReachableInv(s, moves);
    hide Reachable;
  }

  /** After a Close nothing is left running, whoever was waiting. */
  lemma CloseStopsEverything(s: State, moves: seq<(int, Choice)>, t: int, c: Choice)
    requires Reachable(s, moves) && PcOf(s, t) == AtCloseClear && Enabled(s, t, c)
    ensures Step(s, t, c).world.live == {} && Step(s, t, c).world.stacks == map[]
  {
    ReachableInv(s, moves);
    hide Reachable;
    WriterAfter(s, t, c);
  }
}
