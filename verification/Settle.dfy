/** Settling a failed deploy in place: the stack record as it is rewritten, step by step. */
module Settle {
  import opened Wrappers
  import opened Provision
  import opened Rollback

  /** A stack record while a deploy holds it. */
  class StackRecord {
    var name: string
    var id: string
    var status: Status
    var reason: string
    var settings: Settings
    var outputs: seq<Output>
    var resources: seq<StackResource>
    var events: seq<Event>
    var created: nat
    var updated: nat

    function Snapshot(): Record
      reads this
    {
      Record(name, id, status, reason, settings, outputs, resources, events, created, updated)
    }

    constructor (r: Record)
      ensures Snapshot() == r
    {
      name, id, status, reason, settings := r.name, r.id, r.status, r.reason, r.settings;
      outputs, resources, events, created, updated := r.outputs, r.resources, r.events, r.created, r.updated;
    }

    /** Takes everything of another record but its identity, when it was made and its trail. */
    method Become(r: Record, now: nat)
      modifies this
      ensures Snapshot() == r.(id := old(id), created := old(created), events := old(events), updated := now)
    {
      name, status, reason, settings := r.name, r.status, r.reason, r.settings;
      outputs, resources, updated := r.outputs, r.resources, now;
    }

    function StackEvent(status: Status, reason: string): Event
      reads this
    {
      Event(name, id, status, reason)
    }
  }

  function ResourceEvent(r: StackResource, status: Status, reason: string): Event {
    Event(r.logical, r.physical, status, reason)
  }

  /** strings.Contains */
  predicate Contains(s: string, sub: string) {
    exists i :: 0 <= i <= |s| - |sub| && sub <= s[i..]
  }

  function Quoted(s: string): string {
    "\"" + s + "\""
  }

  function Message(err: ApplyError): string {
    match err
    case Taken(name) => "Resource with identifier '" + name + "' already exists."
    case Failed(message) => message
  }

  /** Whether an apply error is about a resource: the collision's own name, or a name the message quotes. */
  predicate Blames(err: ApplyError, r: StackResource) {
    match err
    case Taken(name) => r.physical == name && name != ""
    case Failed(message) => Contains(message, Quoted(r.logical)) || Contains(message, Quoted(r.physical))
  }

  function Marked(r: StackResource, err: ApplyError, verb: Verb): StackResource {
    if Blames(err, r) then r.(status := Failure(verb), reason := Message(err)) else r
  }

  function MarkedAll(rs: seq<StackResource>, err: ApplyError, verb: Verb): (ms: seq<StackResource>)
    ensures |ms| == |rs|
    ensures forall i :: 0 <= i < |rs| ==> ms[i] == Marked(rs[i], err, verb)
  {
    if rs == [] then [] else MarkedAll(rs[..|rs| - 1], err, verb) + [Marked(rs[|rs| - 1], err, verb)]
  }

  /** Marking changes no logical or physical name, so it does not change what is retained. */
  lemma {:induction false} MarkingKeepsRetained(t: Template, rs: seq<StackResource>, err: ApplyError, verb: Verb, createRollback: bool)
    ensures forall n :: Retains(t, MarkedAll(rs, err, verb), createRollback, n) <==> Retains(t, rs, createRollback, n)
    decreases |rs|
  {
    if rs != [] {
      MarkingKeepsRetained(t, rs[..|rs| - 1], err, verb, createRollback);
      assert MarkedAll(rs, err, verb)[..|rs| - 1] == MarkedAll(rs[..|rs| - 1], err, verb);
    }
  }

  /** The operation the last report line under a name gives, if any. */
  function TouchedOp(actions: seq<Action>, name: string): Option<Op> {
    if actions == [] then None
    else
      var last := actions[|actions| - 1];
      if last.resource.name == name then Some(last.op) else TouchedOp(actions[..|actions| - 1], name)
  }

  /** Whether something was started on a resource. */
  predicate Attempted(r: StackResource, actions: seq<Action>) {
    EndsInFailed(r.status) || TouchedOp(actions, r.physical).Some?
  }

  function AttemptedOf(rs: seq<StackResource>, actions: seq<Action>): seq<StackResource> {
    if rs == [] then []
    else
      var r := rs[|rs| - 1];
      AttemptedOf(rs[..|rs| - 1], actions) + (if Attempted(r, actions) then [r] else [])
  }

  /** Those are the resources that ended in failure or that some line of the report names. */
  lemma {:induction false} AttemptedMembers(rs: seq<StackResource>, actions: seq<Action>, r: StackResource)
    ensures r in AttemptedOf(rs, actions)
            <==> r in rs && (EndsInFailed(r.status) || exists k :: 0 <= k < |actions| && actions[k].resource.name == r.physical)
    decreases |rs|
  {
    TouchedIff(actions, r.physical);
    hide EndsInFailed;
    if rs != [] {
      var init, last := rs[..|rs| - 1], rs[|rs| - 1];
      AttemptedMembers(init, actions, r);
      assert rs == init + [last];
    }
  }

  lemma {:induction false} TouchedIff(actions: seq<Action>, name: string)
    ensures TouchedOp(actions, name).Some? <==> exists k :: 0 <= k < |actions| && actions[k].resource.name == name
    decreases |actions|
  {
    if actions != [] {
      var init := actions[..|actions| - 1];
      TouchedIff(init, name);
      assert forall k :: 0 <= k < |init| ==> init[k] == actions[k];
    }
  }

  /** An error marks as failed the resource of the name that was taken, or those whose names, in double quotes, stand
      somewhere in what it says. */
  lemma BlamesIff(err: ApplyError, r: StackResource)
    ensures err.Taken? ==> (Blames(err, r) <==> err.name != "" && r.physical == err.name)
    ensures err.Failed? ==>
              (Blames(err, r)
               <==> exists before: string, after: string, name :: name in {r.logical, r.physical} && err.message == before + "\"" + name + "\"" + after)
  {
    if err.Failed? {
      ContainsIff(err.message, Quoted(r.logical));
      ContainsIff(err.message, Quoted(r.physical));
      forall before: string, after: string, name: string
        ensures before + "\"" + name + "\"" + after == before + Quoted(name) + after
      {
      }
      hide Contains, Quoted;
    }
  }

  lemma ContainsIff(s: string, sub: string)
    ensures Contains(s, sub) <==> exists before: string, after: string :: s == before + sub + after
  {
    if Contains(s, sub) {
      var i :| 0 <= i <= |s| - |sub| && sub <= s[i..];
      assert s == s[..i] + sub + s[i + |sub|..];
    }
    if before: string, after: string :| s == before + sub + after {
      assert sub <= s[|before|..];
    }
  }

  /** How a resource of a rolled-back create is recorded. */
  function Undone(r: StackResource, left: set<string>): StackResource {
    if r.physical in left then r.(status := DeleteFailed, reason := "could not be deleted")
    else r.(status := DeleteComplete, reason := "")
  }

  function UndoneAll(rs: seq<StackResource>, left: set<string>): (us: seq<StackResource>)
    ensures |us| == |rs|
    ensures forall i :: 0 <= i < |rs| ==> us[i] == Undone(rs[i], left)
  {
    if rs == [] then [] else UndoneAll(rs[..|rs| - 1], left) + [Undone(rs[|rs| - 1], left)]
  }

  /** Everything settling needs to know about an apply that did not finish. */
  datatype FailedDeploy = FailedDeploy(
    prev: Option<Record>,
    ir: set<Res>,
    prevIR: Option<set<Res>>,
    actions: seq<Action>,
    err: ApplyError,
    update: bool,
    policy: FailurePolicy)

  const NOT_REAPPLIED: string := "The previous template could not be re-applied."

  const NOT_DELETED: string := "Resources the update created could not be deleted."

  const REASON_FAILED: string := "The following resource(s) failed."

  /** A failed create kept as it fell: what was made stays, and the stack says it failed. */
  predicate Kept(f: FailedDeploy, before: Record, after: Record, attempted: seq<StackResource>, w: set<Res>, w': set<Res>) {
    && w' == w
    && after == before.(status := Failure(VerbOf(f.update)), reason := REASON_FAILED, resources := attempted, events := after.events)
  }

  /** A create undone: what the report says it made is gone, but for what could not be destroyed. */
  predicate CreateUndone(f: FailedDeploy, before: Record, after: Record, attempted: seq<StackResource>,
                         w: set<Res>, w': set<Res>, stuck: set<Res>)
  {
    var undo := ToUndo(f.ir, f.actions, before.settings.template, before.resources);
    var left := NamesOf(undo * stuck);
    && w' == Destroyed(w, undo, stuck)
    && after.status == (if left != {} then RollbackFailed else if f.policy == DeleteStack then DeleteComplete else RollbackComplete)
    && after.resources == (if left == {} && f.policy == DeleteStack then [] else UndoneAll(attempted, left))
    && after == before.(status := after.status, reason := after.reason, outputs := [], resources := after.resources, events := after.events)
  }

  /** What an update's rollback destroys: what the report says it made that the stack did not have. */
  function NewlyMade(f: FailedDeploy, before: Record): set<Res> {
    ToUndo(f.ir, f.actions, before.settings.template, before.resources) - (if f.prevIR.Some? then f.prevIR.value else {})
  }

  /** An update undone: what it made new is gone, the previous graph is applied again, and the record is
      the previous one but for its status, its trail and when it was updated. */
  predicate UpdateUndone(f: FailedDeploy, before: Record, after: Record, w: set<Res>, w': set<Res>,
                         stuck: set<Res>, reapply: ApplyRun, now: nat)
    requires f.prev.Some?
  {
    var gone := NewlyMade(f, before);
    var destroyed := Destroyed(w, gone, stuck);
    && w' == (if f.prevIR.Some? then Applied(destroyed, f.prevIR.value, reapply) else destroyed)
    && after.status == (if f.prevIR.None? || reapply.error.Some? || gone * stuck != {} then UpdateRollbackFailed else UpdateRollbackComplete)
    && after == f.prev.value.(id := before.id, created := before.created, status := after.status, reason := after.reason,
                              events := after.events, updated := now)
  }

  /** How a failed deploy ends. */
  predicate Settled(f: FailedDeploy, before: Record, after: Record, w: set<Res>, w': set<Res>,
                    stuck: set<Res>, reapply: ApplyRun, now: nat)
    requires f.update ==> f.prev.Some?
  {
    var attempted := AttemptedOf(MarkedAll(before.resources, f.err, VerbOf(f.update)), f.actions);
    if f.policy == Keep then Kept(f, before, after, attempted, w, w')
    else if f.update then UpdateUndone(f, before, after, w, w', stuck, reapply, now)
    else CreateUndone(f, before, after, attempted, w, w', stuck)
  }

  lemma SettledDespiteMarks(f: FailedDeploy, before: Record, marked: Record, after: Record, w: set<Res>, w': set<Res>,
                            stuck: set<Res>, reapply: ApplyRun, now: nat)
    requires f.update ==> f.prev.Some?
    requires marked == before.(resources := MarkedAll(before.resources, f.err, VerbOf(f.update)))
    requires if f.policy == Keep then Kept(f, before, after, AttemptedOf(marked.resources, f.actions), w, w')
             else if f.update then UpdateUndone(f, marked, after, w, w', stuck, reapply, now)
             else CreateUndone(f, marked, after, AttemptedOf(marked.resources, f.actions), w, w', stuck)
    ensures Settled(f, before, after, w, w', stuck, reapply, now)
  {
    MarkingKeepsRetained(before.settings.template, before.resources, f.err, VerbOf(f.update), true);
    assert ToUndo(f.ir, f.actions, before.settings.template, marked.resources)
           == ToUndo(f.ir, f.actions, before.settings.template, before.resources);
  }

  lemma SettledButForTrail(f: FailedDeploy, before: Record, after: Record, w: set<Res>, w': set<Res>,
                           stuck: set<Res>, reapply: ApplyRun, now: nat, events: seq<Event>)
    requires f.update ==> f.prev.Some?
    requires Settled(f, before, after, w, w', stuck, reapply, now)
    ensures Settled(f, before, after.(events := events), w, w', stuck, reapply, now)
  {
  }

  class Account {
    var world: set<Res>

    constructor (w: set<Res>)
      ensures world == w
    {
      world := w;
    }

    /** Removes a set of resources and answers the names of those it could not. */
    method Destroy(what: set<Res>, stuck: set<Res>) returns (left: set<string>)
      modifies this
      ensures world == Destroyed(old(world), what, stuck)
      ensures left == NamesOf(what * stuck)
    {
      left := {};
      if what == {} {
        return;
      }
      world := world - (what - stuck);
      left := NamesOf(what * stuck);
    }

    method Apply(ir: set<Res>, run: ApplyRun)
      modifies this
      ensures world == Applied(old(world), ir, run)
    {
      world := Applied(world, ir, run);
    }

    /** Deletes what a failed create made. */
    method UndoCreate(st: StackRecord, f: FailedDeploy, attempted: seq<StackResource>, reason: string, stuck: set<Res>)
      returns (events: seq<Event>)
      modifies this, st
      ensures CreateUndone(f, old(st.Snapshot()), st.Snapshot(), attempted, old(world), world, stuck)
      ensures st.events == old(st.events)
      ensures events != [] && events[|events| - 1] == st.StackEvent(st.status, st.reason)
    {
      st.status, st.reason := RollbackInProgress, reason;
      events := [st.StackEvent(st.status, reason)];
      var made := MadeByApply(f.ir, f.actions, st.settings.template, st.resources);
      var left := Destroy(made, stuck);
      st.outputs := [];
      st.resources := [];
      for i := 0 to |attempted|
        invariant st.resources == UndoneAll(attempted[..i], left)
        invariant world == Destroyed(old(world), made, stuck)
        invariant st.Snapshot() == old(st.Snapshot()).(status := RollbackInProgress, reason := reason, outputs := [], resources := st.resources)
      {
        assert attempted[..i + 1][..i] == attempted[..i];
        var r := attempted[i];
        if r.physical in left {
          events := events + [ResourceEvent(r, DeleteInProgress, ""), ResourceEvent(r, DeleteFailed, "could not be deleted")];
        } else {
          if !EndsInFailed(r.status) {
            events := events + [ResourceEvent(r, DeleteInProgress, "")];
          }
          events := events + [ResourceEvent(r, DeleteComplete, "")];
        }
        st.resources := st.resources + [Undone(r, left)];
      }
      assert attempted[..|attempted|] == attempted;
      if left != {} {
        st.status, st.reason := RollbackFailed, "The following resource(s) failed to delete.";
      } else if f.policy == DeleteStack {
        events := events + [st.StackEvent(DeleteInProgress, reason)];
        st.status, st.reason, st.resources := DeleteComplete, "", [];
      } else {
        st.status, st.reason := RollbackComplete, "";
      }
      events := events + [st.StackEvent(st.status, st.reason)];
    }

    /** Destroys what the update made new to the stack and applies the previous graph again, if there is one. */
    method PutBack(st: StackRecord, f: FailedDeploy, stuck: set<Res>, reapply: ApplyRun) returns (left: set<string>, restored: bool)
      modifies this
      ensures var destroyed := Destroyed(old(world), NewlyMade(f, st.Snapshot()), stuck);
              world == if f.prevIR.Some? then Applied(destroyed, f.prevIR.value, reapply) else destroyed
      ensures left == NamesOf(NewlyMade(f, st.Snapshot()) * stuck)
      ensures restored <==> f.prevIR.Some? && reapply.error.None?
    {
      hide ToUndo, Destroyed, Applied;
      var before := if f.prevIR.Some? then f.prevIR.value else {};
      var made := MadeByApply(f.ir, f.actions, st.settings.template, st.resources);
      left := Destroy(made - before, stuck);
      restored := false;
      if f.prevIR.Some? {
        Apply(f.prevIR.value, reapply);
        restored := reapply.error.None?;
      }
    }

    /** Deletes what a failed update made new, re-applies the previous graph and restores the record. */
    method UndoUpdate(st: StackRecord, f: FailedDeploy, attempted: seq<StackResource>, reason: string, stuck: set<Res>,
                      reapply: ApplyRun, now: nat)
      returns (events: seq<Event>)
      requires f.prev.Some?
      modifies this, st
      ensures UpdateUndone(f, old(st.Snapshot()), st.Snapshot(), old(world), world, stuck, reapply, now)
      ensures st.events == old(st.events)
      ensures events != [] && events[|events| - 1] == st.StackEvent(st.status, st.reason)
    {
      hide ToUndo, Destroyed, Applied, NOT_REAPPLIED, NOT_DELETED, UpdateUndone;
      ghost var was, w := st.Snapshot(), world;
      var prev := f.prev.value;
      events := [st.StackEvent(UpdateRollbackInProgress, reason)];
      var left, restored := PutBack(st, f, stuck, reapply);
      var told := ToldBack(prev, attempted, left, restored);
      events := events + told;
      st.Become(prev, now);
      if !restored || left != {} {
        st.status := UpdateRollbackFailed;
        st.reason := if !restored then NOT_REAPPLIED else NOT_DELETED;
        events := events + [st.StackEvent(st.status, st.reason)];
      } else {
        st.status, st.reason := UpdateRollbackComplete, "";
        events := events + [st.StackEvent(UpdateRollbackCleanup, ""), st.StackEvent(st.status, "")];
      }
      UpdateIsUndone(f, was, st.Snapshot(), w, world, stuck, reapply, now, left);
    }

    /** Decides how a failed deploy ends, does the undoing and leaves the record to store. */
    method SettleFailure(st: StackRecord, f: FailedDeploy, stuck: set<Res>, reapply: ApplyRun, now: nat)
      requires f.update ==> f.prev.Some?
      modifies this, st
      ensures Settled(f, old(st.Snapshot()), st.Snapshot(), old(world), world, stuck, reapply, now)
      ensures 0 < |st.events| <= MAX_EVENTS
      ensures st.events[|st.events| - 1] == st.StackEvent(st.status, st.reason)
    {
      hide CreateUndone, UpdateUndone, Settled, MarkedAll, AttemptedOf;
      var verb := VerbOf(f.update);
      ghost var before := st.Snapshot();
      st.resources := MarkFailed(st.resources, f.err, verb);
      ghost var marked := st.Snapshot();
      var events := [st.StackEvent(InProgress(verb), "User Initiated")];
      var attempted, told := CollectAttempted(st.resources, f.actions, verb);
      events := events + told;
      if f.policy == Keep {
        st.resources := attempted;
        st.status := Failure(verb);
        st.reason := REASON_FAILED;
        events := events + [st.StackEvent(st.status, st.reason)];
      } else if !f.update {
        var more := UndoCreate(st, f, attempted, REASON_FAILED, stuck);
        events := events + more;
      } else {
        var more := UndoUpdate(st, f, attempted, REASON_FAILED, stuck, reapply, now);
        events := events + more;
      }
      SettledDespiteMarks(f, before, marked, st.Snapshot(), old(world), world, stuck, reapply, now);
      SettledButForTrail(f, before, st.Snapshot(), old(world), world, stuck, reapply, now, Bounded(st.events + events));
      st.events := Bounded(st.events + events);
    }

    /** Deletes what an update's new template no longer has, less what the old one says to keep. */
    method RemoveDropped(prev: Option<Record>, ir: set<Res>, prevIR: Option<set<Res>>, stuck: set<Res>)
      modifies this
      ensures world == if prev.None? then old(world) else AfterCleanup(old(world), ir, prevIR, prev.value, stuck)
    {
      if prev.None? || prevIR.None? {
        return;
      }
      var retain := Retained(prev.value.settings.template, prev.value.resources, false);
      var dropped := set r | r in prevIR.value && r !in ir && r.name !in retain;
      assert dropped == Unretained(prevIR.value - ir, prev.value.settings.template, prev.value.resources, false);
      if dropped == {} {
        return;
      }
      var _ := Destroy(dropped, stuck);
    }
  }

  /** What the trail says of each resource an update's rollback dealt with. */
  method ToldBack(prev: Record, attempted: seq<StackResource>, left: set<string>, restored: bool) returns (events: seq<Event>) {
    events := [];
    var was := set i | 0 <= i < |prev.resources| :: prev.resources[i].logical;
    for i := 0 to |attempted| {
      var r := attempted[i];
      if r.logical !in was {
        events := events + [if r.physical in left then ResourceEvent(r, DeleteFailed, "could not be deleted")
                            else ResourceEvent(r, DeleteComplete, "")];
      } else if restored {
        events := events + [ResourceEvent(r, Complete(UPDATE), "")];
      }
    }
  }

  lemma UpdateIsUndone(f: FailedDeploy, before: Record, after: Record, w: set<Res>, w': set<Res>, stuck: set<Res>, reapply: ApplyRun,
                       now: nat, left: set<string>)
    requires f.prev.Some? && left == NamesOf(NewlyMade(f, before) * stuck)
    requires var destroyed := Destroyed(w, NewlyMade(f, before), stuck);
             w' == if f.prevIR.Some? then Applied(destroyed, f.prevIR.value, reapply) else destroyed
    requires after.status == if f.prevIR.None? || reapply.error.Some? || left != {} then UpdateRollbackFailed else UpdateRollbackComplete
    requires after == f.prev.value.(id := before.id, created := before.created, status := after.status, reason := after.reason,
                                    events := after.events, updated := now)
    ensures UpdateUndone(f, before, after, w, w', stuck, reapply, now)
  {
    hide NewlyMade, Destroyed, Applied, NamesOf;
    LeftNames(NewlyMade(f, before), stuck);
  }

  lemma LeftNames(what: set<Res>, stuck: set<Res>)
    ensures NamesOf(what * stuck) == {} <==> what * stuck == {}
  {
    forall r | r in what * stuck
      ensures r.name in NamesOf(what * stuck)
    {
    }
  }

  method MarkFailed(rs: seq<StackResource>, err: ApplyError, verb: Verb) returns (ms: seq<StackResource>)
    ensures ms == MarkedAll(rs, err, verb)
  {
    ms := [];
    for i := 0 to |rs|
      invariant ms == MarkedAll(rs[..i], err, verb)
    {
      assert rs[..i + 1][..i] == rs[..i];
      ms := ms + [Marked(rs[i], err, verb)];
    }
    assert rs[..|rs|] == rs;
  }

  /** The resources something was started on, and the events that tell it. */
  method CollectAttempted(rs: seq<StackResource>, actions: seq<Action>, verb: Verb)
    returns (attempted: seq<StackResource>, events: seq<Event>)
    ensures attempted == AttemptedOf(rs, actions)
  {
    attempted, events := [], [];
    for i := 0 to |rs|
      invariant attempted == AttemptedOf(rs[..i], actions)
    {
      assert rs[..i + 1][..i] == rs[..i];
      var r := rs[i];
      if Attempted(r, actions) {
        attempted := attempted + [r];
        events := events + [ResourceEvent(r, InProgress(verb), ""), ResourceEvent(r, r.status, r.reason)];
      }
    }
    assert rs[..|rs|] == rs;
  }
}
