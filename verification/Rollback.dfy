/** What happens to a stack when a resource fails, and what an update or a delete takes away. */
module Rollback {
  import opened Wrappers
  import opened Provision

  datatype Verb = CREATE | UPDATE

  /** The statuses of stacks, resources and events. A failed update that was put back is UpdateRollbackComplete. */
  datatype Status =
    | InProgress(verb: Verb) | Complete(verb: Verb) | Failure(verb: Verb)
    | RollbackInProgress | RollbackComplete | RollbackFailed
    | UpdateRollbackInProgress | UpdateRollbackCleanup | UpdateRollbackComplete | UpdateRollbackFailed
    | UpdateCleanup
    | DeleteInProgress | DeleteComplete | DeleteFailed
    | ReviewInProgress

  predicate EndsInFailed(s: Status) {
    s.Failure? || s.RollbackFailed? || s.UpdateRollbackFailed? || s.DeleteFailed?
  }

  datatype DeletionPolicy = Delete | Retain | RetainExceptOnCreate

  /** A template, reduced to whether it still parses and the deletion policy each declaration has. */
  datatype Template = Template(body: string, parses: bool, declared: map<string, DeletionPolicy>)

  datatype StackResource = StackResource(logical: string, physical: string, status: Status, reason: string)

  datatype Output = Output(key: string, value: string, exportName: string)

  datatype Event = Event(logical: string, physical: string, status: Status, reason: string)

  datatype RollbackConfig = RollbackConfig(minutes: Option<int>, triggers: seq<(string, string)>)

  /** The settings a deploy declares and nothing acts on. */
  datatype DeployFields = DeployFields(
    capabilities: seq<string>, notifications: seq<string>, rollback: Option<RollbackConfig>, disableRollback: bool)

  const NO_FIELDS: DeployFields := DeployFields([], [], None, false)

  /** What of them a request sends: an empty list, like an absent value, is not sent. */
  datatype Sent = Sent(capabilities: seq<string>, notifications: seq<string>, rollback: Option<RollbackConfig>, disableRollback: Option<bool>)

  /** The fields with those a request sent in place of the old. */
  function Folded(f: DeployFields, sent: Sent): DeployFields {
    DeployFields(if sent.capabilities != [] then sent.capabilities else f.capabilities,
                 if sent.notifications != [] then sent.notifications else f.notifications,
                 if sent.rollback.Some? then sent.rollback else f.rollback,
                 if sent.disableRollback.Some? then sent.disableRollback.value else f.disableRollback)
  }

  /** Whether a change is noticed: lists are compared by length only, and a rollback configuration that is
      sent is always another one. */
  predicate Noticed(f: DeployFields, sent: Sent) {
    var g := Folded(f, sent);
    f.disableRollback != g.disableRollback || |f.capabilities| != |g.capabilities| || |f.notifications| != |g.notifications|
    || sent.rollback.Some?
  }

  /** A record once the fields of its request are stored, which they are only if a change is noticed. */
  function Refielded(rec: Record, sent: Sent): Record {
    if Noticed(rec.settings.fields, sent) then rec.(settings := rec.settings.(fields := Folded(rec.settings.fields, sent))) else rec
  }

  /** Each field is not sent, or sent as it was. */
  predicate SendsNothingNew(f: DeployFields, sent: Sent) {
    && (sent.capabilities == [] || sent.capabilities == f.capabilities)
    && (sent.notifications == [] || sent.notifications == f.notifications)
    && (sent.rollback.None? || sent.rollback == f.rollback)
    && (sent.disableRollback.None? || sent.disableRollback.value == f.disableRollback)
  }

  /** What a stack was deployed from, and the settings it keeps from one deploy to the next. */
  datatype Settings = Settings(
    template: Template,
    parameters: map<string, string>,
    tags: map<string, string>,
    protected_: bool,
    policy: string,
    parent: string,
    root: string,
    fields: DeployFields)

  /** A stored stack record, as a value. */
  datatype Record = Record(
    name: string,
    id: string,
    status: Status,
    reason: string,
    settings: Settings,
    outputs: seq<Output>,
    resources: seq<StackResource>,
    events: seq<Event>,
    created: nat,
    updated: nat)

  datatype FailurePolicy = RollBack | Keep | DeleteStack

  function PolicyOf(disableRollback: bool, onFailure: string): FailurePolicy {
    if disableRollback || onFailure == "DO_NOTHING" then Keep
    else if onFailure == "DELETE" then DeleteStack
    else RollBack
  }

  const MAX_EVENTS: nat := 500

  /** Keeps the trail to its most recent entries. */
  function Bounded(all: seq<Event>): (r: seq<Event>)
    ensures |r| <= MAX_EVENTS
    ensures all != [] ==> r != [] && r[|r| - 1] == all[|all| - 1]
    ensures |all| <= MAX_EVENTS ==> r == all
  {
    if |all| > MAX_EVENTS then all[|all| - MAX_EVENTS..] else all
  }

  function VerbOf(update: bool): Verb {
    if update then UPDATE else CREATE
  }

  // ---- What a template says to keep ----

  function PolicyFor(t: Template, logical: string): DeletionPolicy {
    if t.parses && logical in t.declared then t.declared[logical] else Delete
  }

  /** Whether the last declared resource of a physical name is one to keep. */
  predicate Retains(t: Template, rs: seq<StackResource>, createRollback: bool, name: string) {
    if rs == [] then false
    else
      var r := rs[|rs| - 1];
      var p := PolicyFor(t, r.logical);
      if r.physical == name && p != Delete then p == Retain || !createRollback
      else Retains(t, rs[..|rs| - 1], createRollback, name)
  }

  method Retained(t: Template, rs: seq<StackResource>, createRollback: bool) returns (out: set<string>)
    ensures forall n :: n in out <==> Retains(t, rs, createRollback, n)
  {
    out := {};
    if !t.parses {
      NothingRetained(t, rs, createRollback);
      return;
    }
    for i := 0 to |rs|
      invariant forall n :: n in out <==> Retains(t, rs[..i], createRollback, n)
    {
      assert rs[..i + 1][..i] == rs[..i];
      var r := rs[i];
      if r.logical in t.declared {
        match t.declared[r.logical]
        case Delete =>
        case Retain =>
          out := out + {r.physical};
        case RetainExceptOnCreate =>
          out := if createRollback then out - {r.physical} else out + {r.physical};
      }
    }
    assert rs[..|rs|] == rs;
  }

  lemma {:induction false} NothingRetained(t: Template, rs: seq<StackResource>, createRollback: bool)
    requires !t.parses
    ensures forall n :: !Retains(t, rs, createRollback, n)
    decreases |rs|
  {
    if rs != [] {
      NothingRetained(t, rs[..|rs| - 1], createRollback);
    }
  }

  /** Whether a template that parses declares a resource with a policy. */
  predicate Declares(t: Template, logical: string, p: DeletionPolicy) {
    t.parses && logical in t.declared && t.declared[logical] == p
  }

  /** A resource of this name that is declared, but not with Delete. */
  predicate Keeps(t: Template, r: StackResource, name: string) {
    r.physical == name && (Declares(t, r.logical, Retain) || Declares(t, r.logical, RetainExceptOnCreate))
  }

  /** The last such resource, which decides. */
  ghost predicate Decides(t: Template, rs: seq<StackResource>, name: string, i: nat) {
    i < |rs| && Keeps(t, rs[i], name) && forall j :: i < j < |rs| ==> !Keeps(t, rs[j], name)
  }

  /** A name is retained exactly when the last resource of that name declared with anything but Delete is declared
      Retain, or RetainExceptOnCreate and this is no create being rolled back. */
  lemma {:induction false} RetainsIff(t: Template, rs: seq<StackResource>, createRollback: bool, name: string)
    ensures Retains(t, rs, createRollback, name)
            <==> exists i: nat :: Decides(t, rs, name, i)
                                  && (Declares(t, rs[i].logical, Retain) || (Declares(t, rs[i].logical, RetainExceptOnCreate) && !createRollback))
    decreases |rs|
  {
    if rs != [] {
      var n, init := |rs| - 1, rs[..|rs| - 1];
      if Keeps(t, rs[n], name) {
        assert Decides(t, rs, name, n);
        OneDecides(t, rs, name);
      } else {
        RetainsIff(t, init, createRollback, name);
        forall i: nat
          ensures Decides(t, rs, name, i) <==> Decides(t, init, name, i)
          ensures i < n ==> init[i] == rs[i]
        {
          DecidesBefore(t, rs, name, i);
        }
        hide Decides;
      }
    }
  }

  lemma OneDecides(t: Template, rs: seq<StackResource>, name: string)
    ensures forall i: nat, j: nat :: Decides(t, rs, name, i) && Decides(t, rs, name, j) ==> i == j
  {
  }

  lemma DecidesBefore(t: Template, rs: seq<StackResource>, name: string, i: nat)
    requires rs != [] && !Keeps(t, rs[|rs| - 1], name)
    ensures Decides(t, rs, name, i) <==> Decides(t, rs[..|rs| - 1], name, i)
  {
    hide Keeps;
  }

  /** No other resource has this one's name. */
  ghost predicate Alone(rs: seq<StackResource>, i: nat) {
    i < |rs| && forall j :: 0 <= j < |rs| && j != i ==> rs[j].physical != rs[i].physical
  }

  /** A resource alone under its name is kept by a rolled-back create exactly when it is declared Retain, and by
      anything else exactly when it is declared Retain or RetainExceptOnCreate. */
  lemma AloneRetained(t: Template, rs: seq<StackResource>, i: nat)
    requires Alone(rs, i)
    ensures Retains(t, rs, true, rs[i].physical) <==> Declares(t, rs[i].logical, Retain)
    ensures Retains(t, rs, false, rs[i].physical) <==> Declares(t, rs[i].logical, Retain) || Declares(t, rs[i].logical, RetainExceptOnCreate)
  {
    RetainsIff(t, rs, true, rs[i].physical);
    RetainsIff(t, rs, false, rs[i].physical);
    assert Keeps(t, rs[i], rs[i].physical) ==> Decides(t, rs, rs[i].physical, i);
    assert forall j: nat :: Decides(t, rs, rs[i].physical, j) ==> j == i;
    hide Retains;
  }

  /** The part of a graph its template does not say to keep. */
  function Unretained(ir: set<Res>, t: Template, rs: seq<StackResource>, createRollback: bool): set<Res> {
    set r | r in ir && !Retains(t, rs, createRollback, r.name)
  }

  /** What a rollback sets out to delete: what the report says the apply made, less what is retained. */
  function ToUndo(ir: set<Res>, actions: seq<Action>, t: Template, rs: seq<StackResource>): set<Res> {
    set r | r in ir && !Retains(t, rs, true, r.name) && SaysMade(actions, r)
  }

  method MadeByApply(ir: set<Res>, actions: seq<Action>, t: Template, rs: seq<StackResource>) returns (made: set<Res>)
    ensures made == ToUndo(ir, actions, t, rs)
  {
    var did := Did(actions);
    var retain := Retained(t, rs, true);
    made := set r | r in ir && r.name !in retain && r in did
                    && (did[r].Created? || did[r].Published? || (did[r].Updated? && UpsertOnly(r.kind)));
  }

  // ---- What each way of settling leaves in the account ----

  function AfterCreateRollback(world: set<Res>, ir: set<Res>, run: ApplyRun, t: Template, rs: seq<StackResource>, stuck: set<Res>): set<Res> {
    Destroyed(Applied(world, ir, run), ToUndo(ir, run.actions, t, rs), stuck)
  }

  function AfterUpdateRollback(world: set<Res>, ir: set<Res>, prevIR: Option<set<Res>>, run: ApplyRun, t: Template,
                               rs: seq<StackResource>, stuck: set<Res>, reapply: ApplyRun): set<Res> {
    var before := if prevIR.Some? then prevIR.value else {};
    var destroyed := Destroyed(Applied(world, ir, run), ToUndo(ir, run.actions, t, rs) - before, stuck);
    if prevIR.Some? then Applied(destroyed, prevIR.value, reapply) else destroyed
  }

  function AfterCleanup(world: set<Res>, ir: set<Res>, prevIR: Option<set<Res>>, prev: Record, stuck: set<Res>): set<Res> {
    if prevIR.None? then world
    else Destroyed(world, Unretained(prevIR.value - ir, prev.settings.template, prev.resources, false), stuck)
  }

  function AfterDelete(world: set<Res>, ir: Option<set<Res>>, st: Record, stuck: set<Res>): set<Res> {
    if st.status == RollbackComplete || ir.None? then world
    else Destroyed(world, Unretained(ir.value, st.settings.template, st.resources, false), stuck)
  }

  // ---- Create: what the rollback leaves ----

  /** With everything destroyed that was asked to be, a rolled-back create leaves what was there before,
      less what it wrongly took for its own, and what it made and either kept or did not recognise. */
  lemma CreateRollbackLeaves(world: set<Res>, ir: set<Res>, run: ApplyRun, t: Template, rs: seq<StackResource>)
    ensures AfterCreateRollback(world, ir, run, t, rs, {})
            == (world - ToUndo(ir, run.actions, t, rs))
               + (set r | r in Made(world, ir, run) && (Retains(t, rs, true, r.name) || !SaysMade(run.actions, r)))
  {
    var undo := ToUndo(ir, run.actions, t, rs);
    assert undo - {} == undo;
  }

  /** A rolled-back create puts the account back, but for what its template retains, exactly when the
      last line of the report tells the truth of every resource not retained: "made" for each one the
      apply made, and not for one that was there before. */
  lemma CreateRollbackRestoresIff(world: set<Res>, ir: set<Res>, run: ApplyRun, t: Template, rs: seq<StackResource>)
    ensures AfterCreateRollback(world, ir, run, t, rs, {})
            == world + (set r | r in Made(world, ir, run) && Retains(t, rs, true, r.name))
            <==> forall r :: r in ir && r in Applied(world, ir, run) && !Retains(t, rs, true, r.name) ==>
                   (SaysMade(run.actions, r) <==> r !in world)
  {
    CreateRollbackLeaves(world, ir, run, t, rs);
    var after := AfterCreateRollback(world, ir, run, t, rs, {});
    var want := world + (set r | r in Made(world, ir, run) && Retains(t, rs, true, r.name));
    forall r | r in ir && r in Applied(world, ir, run) && !Retains(t, rs, true, r.name)
      ensures (r in after <==> r in want) <==> (SaysMade(run.actions, r) <==> r !in world)
    {
    }
    if forall r :: r in ir && r in Applied(world, ir, run) && !Retains(t, rs, true, r.name) ==>
         (SaysMade(run.actions, r) <==> r !in world)
    {
      assert after == want;
    }
  }
}
