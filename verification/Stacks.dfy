/** Deploying and deleting stacks: the store of records, the account, and the exports between stacks. */
module Stacks {
  import opened Wrappers
  import opened Provision
  import opened Rollback
  import opened Settle

  /** A nested stack's record as a deploy writes it; owner is the stack it is nested in, "" the parent. */
  datatype Child = Child(name: string, freshId: string, owner: string, template: Template,
                         parameters: map<string, string>, outputs: seq<(string, string)>, resources: seq<StackResource>)

  /** What a template transpiles to; absent are the exports it declares on outputs a condition leaves out. */
  datatype Plan = Plan(ir: set<Res>, resources: seq<StackResource>, outputs: seq<Output>, children: seq<Child>, absent: seq<string>)

  datatype Request = Request(template: Template, parameters: map<string, string>, tags: map<string, string>, plan: Option<Plan>)

  /** What the world outside answers during one call. */
  datatype Env = Env(now: nat, freshId: string, prevIR: Option<set<Res>>, probeError: Option<string>,
                     run: ApplyRun, stuck: set<Res>, reapply: ApplyRun)

  datatype Outcome = Refused | Accepted

  type Store = map<string, Record>

  /** A lookup by name: a deleted stack's record does not answer to its name. */
  function Lookup(stacks: Store, name: string): Option<Record> {
    if name in stacks && stacks[name].status != DeleteComplete then Some(stacks[name]) else None
  }

  // ---- Exports ----

  function ExportsOf(outputs: seq<Output>): set<string> {
    set i | 0 <= i < |outputs| && outputs[i].exportName != "" :: outputs[i].exportName
  }

  /** No export name belongs to two stacks. */
  ghost predicate ExportsUnique(stacks: Store) {
    forall m, n :: m in stacks && n in stacks && m != n ==> ExportsOf(stacks[m].outputs) !! ExportsOf(stacks[n].outputs)
  }

  /** Which stack exports a name. */
  method ExportOwner(stacks: Store, export_: string) returns (owner: Option<string>)
    requires export_ != ""
    ensures owner.Some? ==> owner.value in stacks && export_ in ExportsOf(stacks[owner.value].outputs)
    ensures owner.None? ==> forall n :: n in stacks ==> export_ !in ExportsOf(stacks[n].outputs)
  {
    var rest := stacks.Keys;
    while rest != {}
      invariant rest <= stacks.Keys
      invariant forall n :: n in stacks && n !in rest ==> export_ !in ExportsOf(stacks[n].outputs)
      decreases rest
    {
      var n :| n in rest;
      if export_ in ExportsOf(stacks[n].outputs) {
        return Some(n);
      }
      rest := rest - {n};
    }
    return None;
  }

  /** The export names a template declares, output or not. */
  function Claimed(plan: Plan): set<string> {
    ExportsOf(plan.outputs) + set e | e in plan.absent && e != ""
  }

  /** Whether a template declares an export another stack owns. */
  ghost predicate ClaimsAnother(stacks: Store, name: string, plan: Plan) {
    exists n :: n in stacks && n != name && !(ExportsOf(stacks[n].outputs) !! Claimed(plan))
  }

  /** Whether a deploy would claim a name another stack owns. */
  method ExportConflict(stacks: Store, name: string, plan: Plan) returns (conflict: bool)
    requires ExportsUnique(stacks)
    ensures conflict <==> ClaimsAnother(stacks, name, plan)
  {
    hide ExportsUnique;
    var names := seq(|plan.outputs|, i requires 0 <= i < |plan.outputs| => plan.outputs[i].exportName) + plan.absent;
    DeclaredNames(plan, names);
    hide Claimed, ExportsOf;
    conflict := false;
    for i := 0 to |names|
      invariant !conflict
      invariant forall j, n :: 0 <= j < i && n in stacks && n != name && names[j] != "" ==> names[j] !in ExportsOf(stacks[n].outputs)
    {
      var e := names[i];
      if e != "" {
        assert e in Claimed(plan);
        conflict := OwnedElsewhere(stacks, name, e);
        if conflict {
          return true;
        }
      }
    }
  }

  lemma DeclaredNames(plan: Plan, names: seq<string>)
    requires |names| == |plan.outputs| + |plan.absent|
    requires forall i :: 0 <= i < |plan.outputs| ==> names[i] == plan.outputs[i].exportName
    requires forall i :: 0 <= i < |plan.absent| ==> names[|plan.outputs| + i] == plan.absent[i]
    ensures forall e :: e in Claimed(plan) <==> exists i :: 0 <= i < |names| && names[i] == e && e != ""
  {
    forall e | e in Claimed(plan)
      ensures exists i :: 0 <= i < |names| && names[i] == e && e != ""
    {
      if e in ExportsOf(plan.outputs) {
        var i :| 0 <= i < |plan.outputs| && plan.outputs[i].exportName == e && e != "";
        assert names[i] == e;
      } else {
        var i :| 0 <= i < |plan.absent| && plan.absent[i] == e;
        assert names[|plan.outputs| + i] == e;
      }
    }
    forall i | 0 <= i < |names| && names[i] != ""
      ensures names[i] in Claimed(plan)
    {
      if i >= |plan.outputs| {
        assert names[i] == plan.absent[i - |plan.outputs|];
      }
    }
  }

  /** Whether a name's owner is another stack; a stack updating itself already owns its exports. */
  method OwnedElsewhere(stacks: Store, name: string, e: string) returns (elsewhere: bool)
    requires ExportsUnique(stacks) && e != ""
    ensures elsewhere <==> exists n :: n in stacks && n != name && e in ExportsOf(stacks[n].outputs)
  {
    hide ExportsOf;
    var owner := ExportOwner(stacks, e);
    elsewhere := owner.Some? && owner.value != name;
    if owner.Some? {
      assert forall n :: n in stacks && n != owner.value ==> ExportsOf(stacks[n].outputs) !! ExportsOf(stacks[owner.value].outputs);
    }
  }

  lemma PutKeepsExports(stacks: Store, name: string, rec: Record)
    requires ExportsUnique(stacks)
    requires forall n :: n in stacks && n != name ==> ExportsOf(stacks[n].outputs) !! ExportsOf(rec.outputs)
    ensures ExportsUnique(stacks[name := rec])
  {
  }

  lemma FewerKeepExports(stacks: Store, names: set<string>)
    requires ExportsUnique(stacks) && names <= stacks.Keys
    ensures ExportsUnique(map n | n in names :: stacks[n])
  {
  }

  // ---- Collisions ----

  /** The bare names a stack already holds: its recorded resources and everything its previous graph names. */
  function Owned(prev: Option<Record>, prevIR: Option<set<Res>>): set<string> {
    if prev.Some? && prevIR.Some? then
      NamesOf(prevIR.value) + set i | 0 <= i < |prev.value.resources| :: prev.value.resources[i].physical
    else {}
  }

  /** The resources a deploy would take over: looked for, there already, and under a name not owned. */
  function Colliding(world: set<Res>, ir: set<Res>, owned: set<string>): set<Res> {
    set r | r in ir && r.name !in owned && Probed(r.kind) && r in world
  }

  method RefuseTaken(world: set<Res>, ir: set<Res>, prev: Option<Record>, env: Env) returns (err: Option<ApplyError>)
    ensures env.probeError.Some? ==> err == Some(Failed(env.probeError.value))
    ensures env.probeError.None? ==> (err.None? <==> Colliding(world, ir, Owned(prev, env.prevIR)) == {})
    ensures env.probeError.None? && err.Some? ==>
              err.value.Taken? && exists r :: r in Colliding(world, ir, Owned(prev, env.prevIR)) && r.name == err.value.name
  {
    if env.probeError.Some? {
      return Some(Failed(env.probeError.value));
    }
    var taken := Colliding(world, ir, Owned(prev, env.prevIR));
    if taken == {} {
      return None;
    }
    var first :| first in taken;
    err := Some(Taken(first.name));
  }

  /** Whether a deploy goes no further than the collision check. */
  predicate Stopped(world: set<Res>, ir: set<Res>, prev: Option<Record>, env: Env) {
    env.probeError.Some? || Colliding(world, ir, Owned(prev, env.prevIR)) != {}
  }

  /** The error a deploy fails with: the probe's, a collision's, or the apply's own. */
  predicate Blamed(world: set<Res>, ir: set<Res>, prev: Option<Record>, env: Env, err: ApplyError) {
    if env.probeError.Some? then err == Failed(env.probeError.value)
    else if Colliding(world, ir, Owned(prev, env.prevIR)) != {} then
      err.Taken? && exists r :: r in Colliding(world, ir, Owned(prev, env.prevIR)) && r.name == err.name
    else env.run.error == Some(err)
  }

  /** An update of a stack that is there sees its previous graph; nothing else does. */
  function Seen(env: Env, prev: Option<Record>, isUpdate: bool): Env {
    if isUpdate && prev.Some? then env else env.(prevIR := None)
  }

  /** The apply a deploy makes: none at all when it is stopped first. */
  function RunOf(world: set<Res>, ir: set<Res>, prev: Option<Record>, env: Env): ApplyRun {
    if Stopped(world, ir, prev, env) then ApplyRun(Some(Failed("")), {}, []) else env.run
  }

  /** What a deploy leaves in the account. */
  function DeployWorld(world: set<Res>, plan: Plan, t: Template, prev: Option<Record>, isUpdate: bool, policy: FailurePolicy, all: Env): set<Res> {
    var env := Seen(all, prev, isUpdate);
    var run := RunOf(world, plan.ir, prev, env);
    if run.error.None? then
      if isUpdate && prev.Some? then AfterCleanup(Applied(world, plan.ir, run), plan.ir, env.prevIR, prev.value, env.stuck)
      else Applied(world, plan.ir, run)
    else if policy == Keep then Applied(world, plan.ir, run)
    else if isUpdate && prev.Some? then AfterUpdateRollback(world, plan.ir, env.prevIR, run, t, plan.resources, env.stuck, env.reapply)
    else AfterCreateRollback(world, plan.ir, run, t, plan.resources, env.stuck)
  }

  /** The record a deploy starts from: a previous stack's identity, settings and, for an update, trail. */
  function FreshRecord(name: string, req: Request, plan: Plan, prev: Option<Record>, isUpdate: bool, env: Env): Record {
    var verb := VerbOf(isUpdate);
    match prev
    case Some(p) =>
      Record(name, p.id, InProgress(verb), "", p.settings.(template := req.template, parameters := req.parameters, tags := req.tags, fields := NO_FIELDS),
             plan.outputs, plan.resources, if isUpdate then p.events else [], p.created, env.now)
    case None =>
      Record(name, env.freshId, InProgress(verb), "", Settings(req.template, req.parameters, req.tags, false, "", "", "", NO_FIELDS),
             plan.outputs, plan.resources, [], env.now, env.now)
  }

  /** A template that could not be transpiled on a create is recorded as a failed stack. */
  function FailureRecord(stacks: Store, name: string, req: Request, env: Env): Record {
    var at := match Lookup(stacks, name)
              case Some(p) => p
              case None => Record(name, env.freshId, Failure(CREATE), "", Settings(req.template, req.parameters, req.tags, false, "", "", "", NO_FIELDS),
                                  [], [], [], env.now, env.now);
    at.(settings := at.settings.(template := req.template, parameters := req.parameters, tags := req.tags), updated := env.now,
        status := Failure(CREATE), reason := "not transpiled",
        events := at.events + [Event(name, at.id, Failure(CREATE), "not transpiled")])
  }

  function FailureOf(plan: Plan, prev: Option<Record>, run: ApplyRun, err: ApplyError, isUpdate: bool, policy: FailurePolicy, env: Env): FailedDeploy {
    FailedDeploy(prev, plan.ir, env.prevIR, run.actions, err, isUpdate && prev.Some?, policy)
  }

  /** A nested stack's outputs carry no export name. */
  function ChildOutputs(outputs: seq<(string, string)>): (os: seq<Output>)
    ensures ExportsOf(os) == {}
  {
    if outputs == [] then []
    else
      var os := ChildOutputs(outputs[..|outputs| - 1]);
      var last := outputs[|outputs| - 1];
      var all := os + [Output(last.0, last.1, "")];
      NoNewExports(os, Output(last.0, last.1, ""));
      all
  }

  lemma NoNewExports(os: seq<Output>, o: Output)
    requires ExportsOf(os) == {} && o.exportName == ""
    ensures ExportsOf(os + [o]) == {}
  {
    assert forall i :: 0 <= i < |os| && os[i].exportName != "" ==> os[i].exportName in ExportsOf(os);
  }

  /** A child's record, with the identity of a live record of that name or a fresh one. */
  function ChildRecord(stacks: Store, c: Child, parent: Record, ownerId: string, now: nat): Record {
    var prev := Lookup(stacks, c.name);
    Record(c.name, if prev.Some? then prev.value.id else c.freshId, parent.status, parent.reason,
           Settings(c.template, c.parameters, map[], false, "", ownerId, RootOf(parent), NO_FIELDS),
           ChildOutputs(c.outputs), c.resources, [],
           if prev.Some? then prev.value.created else now, now)
  }

  function NamesOfChildren(children: seq<Child>): set<string> {
    set c | c in children :: c.name
  }

  /** A stack of the same nest that is neither its parent nor still declared. */
  predicate Removed(stacks: Store, parent: Record, children: seq<Child>, n: string)
    requires n in stacks
  {
    stacks[n].settings.root == RootOf(parent) && stacks[n].id != parent.id && n !in NamesOfChildren(children)
  }

  /** A nested stack's record is what its parent's template says of it; it is rooted where its parent is,
      shares its status and exports nothing. */
  predicate NestedAs(rec: Record, c: Child, parent: Record) {
    && rec.settings.root == RootOf(parent) && rec.status == parent.status && rec.reason == parent.reason
    && rec.settings.template == c.template && rec.settings.parameters == c.parameters && rec.resources == c.resources
    && rec.outputs == ChildOutputs(c.outputs) && ExportsOf(rec.outputs) == {}
    && (c.owner == "" ==> rec.settings.parent == parent.id)
  }

  /** The stack at the top of a nest. */
  function RootOf(rec: Record): string {
    if rec.settings.root == "" then rec.id else rec.settings.root
  }

  // ---- Updating and deleting ----

  /** The states a stack cannot be updated from. */
  predicate UpdateRefused(st: Record) {
    st.status in {RollbackComplete, RollbackFailed, Failure(CREATE)}
  }

  /** The same template, parameters and tags, on a stack whose last deploy succeeded. */
  predicate NothingToUpdate(st: Record, req: Request) {
    && req.template.body == st.settings.template.body && req.parameters == st.settings.parameters
    && (req.tags == map[] || req.tags == st.settings.tags)
    && st.status.Complete?
  }

  /** Whether a template looks as if it imports an export. */
  predicate Imports(body: string, export_: string) {
    Contains(body, export_) && Contains(body, "ImportValue")
  }

  ghost predicate Imported(stacks: Store, export_: string, self: string) {
    exists n :: n in stacks && n != self && Imports(stacks[n].settings.template.body, export_)
  }

  method ImporterOf(stacks: Store, export_: string, self: string) returns (importer: Option<string>)
    ensures importer.Some? <==> Imported(stacks, export_, self)
  {
    hide Contains;
    var rest := stacks.Keys;
    while rest != {}
      invariant rest <= stacks.Keys
      invariant forall n :: n in stacks && n !in rest && n != self ==> !Imports(stacks[n].settings.template.body, export_)
      decreases rest
    {
      var n :| n in rest;
      if n != self && Imports(stacks[n].settings.template.body, export_) {
        return Some(n);
      }
      rest := rest - {n};
    }
    return None;
  }

  /** What refuses a delete: protection, being nested, or an export another stack's template imports. */
  ghost predicate DeleteBlocked(stacks: Store, st: Record) {
    st.settings.protected_ || st.settings.parent != "" || SomeExportImported(stacks, st)
  }

  ghost predicate SomeExportImported(stacks: Store, st: Record) {
    exists i :: 0 <= i < |st.outputs| && st.outputs[i].exportName != "" && Imported(stacks, st.outputs[i].exportName, st.name)
  }

  method ExportInUse(stacks: Store, st: Record) returns (used: bool)
    ensures used <==> SomeExportImported(stacks, st)
  {
    used := false;
    for i := 0 to |st.outputs|
      invariant forall j :: 0 <= j < i && st.outputs[j].exportName != "" ==> !Imported(stacks, st.outputs[j].exportName, st.name)
    {
      if st.outputs[i].exportName != "" {
        var importer := ImporterOf(stacks, st.outputs[i].exportName, st.name);
        if importer.Some? {
          return true;
        }
      }
    }
  }

  /** A deleted stack's record. */
  function Dead(st: Record, now: nat): Record {
    st.(status := DeleteComplete, reason := "", updated := now, resources := [], outputs := [],
        events := st.events + [Event(st.name, st.id, DeleteComplete, "")])
  }

  predicate Live(stacks: Store, n: string)
    requires n in stacks
  {
    stacks[n].status != DeleteComplete
  }

  /** A line of live stacks, each nested in the one before it and the first in the stack with this id. */
  ghost predicate Chain(stacks: Store, id: string, path: seq<string>) {
    && path != []
    && (forall i :: 0 <= i < |path| ==> path[i] in stacks && Live(stacks, path[i]))
    && stacks[path[0]].settings.parent == id
    && forall i :: 0 < i < |path| ==> stacks[path[i]].settings.parent == stacks[path[i - 1]].id
  }

  ghost predicate Nested(stacks: Store, id: string, n: string) {
    exists path :: Chain(stacks, id, path) && path[|path| - 1] == n
  }

  lemma NestedStep(stacks: Store, id: string, n: string, found: set<string>)
    requires n in stacks && Live(stacks, n) && found <= stacks.Keys
    requires forall m :: m in found ==> Nested(stacks, id, m)
    requires stacks[n].settings.parent == id || exists m :: m in found && stacks[m].id == stacks[n].settings.parent
    ensures Nested(stacks, id, n)
  {
    if stacks[n].settings.parent == id {
      assert Chain(stacks, id, [n]) && [n][|[n]| - 1] == n;
    } else {
      var m :| m in found && stacks[m].id == stacks[n].settings.parent;
      var path :| Chain(stacks, id, path) && path[|path| - 1] == m;
      var longer := path + [n];
      assert Chain(stacks, id, longer) && longer[|longer| - 1] == n;
    }
  }

  lemma {:induction false} ClosedUnderNesting(stacks: Store, id: string, found: set<string>, path: seq<string>)
    requires Chain(stacks, id, path) && found <= stacks.Keys
    requires forall n :: n in stacks && Live(stacks, n) ==>
               (stacks[n].settings.parent == id || exists m :: m in found && stacks[m].id == stacks[n].settings.parent) ==> n in found
    ensures path[|path| - 1] in found
    decreases |path|
  {
    if |path| > 1 {
      var shorter := path[..|path| - 1];
      assert Chain(stacks, id, shorter);
      ClosedUnderNesting(stacks, id, found, shorter);
    }
  }

  /** A delete buries the stack and those nested in it, and leaves every other record as it was. */
  ghost predicate Buried(before: Store, name: string, now: nat, after: Store)
    requires name in before
  {
    && after.Keys == before.Keys
    && forall n :: n in before ==>
         after[n] == if n == name || Nested(before, before[name].id, n) then Dead(before[n], now) else before[n]
  }

  /** Every live stack nested in the one with this id is marked deleted. */
  predicate Among(all: Store, found: set<string>) {
    forall n :: n in found ==> n in all
  }

  /** The ids a nested stack can name as its parent, once these are found. */
  function IdsOf(all: Store, id: string, found: set<string>): set<string>
    requires Among(all, found)
  {
    {id} + (set n | n in found :: all[n].id)
  }

  function NextNested(all: Store, ids: set<string>, found: set<string>): set<string> {
    set n | n in all && n !in found && Live(all, n) && all[n].settings.parent in ids
  }

  ghost predicate AllNested(all: Store, id: string, found: set<string>) {
    forall n :: n in found ==> Nested(all, id, n)
  }

  lemma FindsMore(all: Store, id: string, found: set<string>)
    requires Among(all, found) && AllNested(all, id, found)
    ensures var next := NextNested(all, IdsOf(all, id, found), found);
            && Among(all, found + next) && AllNested(all, id, found + next)
            && IdsOf(all, id, found + next) == IdsOf(all, id, found) + (set n | n in next :: all[n].id)
            && (next != {} ==> all.Keys - (found + next) < all.Keys - found)
  {
    hide Nested, Live;
    var next := NextNested(all, IdsOf(all, id, found), found);
    forall n | n in next
      ensures Nested(all, id, n)
    {
      NestedStep(all, id, n, found);
    }
    if n :| n in next {
      assert n in all.Keys - found && n !in all.Keys - (found + next);
    }
  }

  lemma FoundAll(all: Store, id: string, found: set<string>, n: string)
    requires Among(all, found) && NextNested(all, IdsOf(all, id, found), found) == {} && Nested(all, id, n)
    ensures n in found
  {
    hide Live;
    forall m | m in all && Live(all, m) && (all[m].settings.parent == id || exists k :: k in found && all[k].id == all[m].settings.parent)
      ensures m in found
    {
      assert m !in NextNested(all, IdsOf(all, id, found), found);
    }
    var path :| Chain(all, id, path) && path[|path| - 1] == n;
    ClosedUnderNesting(all, id, found, path);
  }

  /** The live stacks nested in the one with this id, at any depth, found a level at a time. */
  method FindNested(all: Store, id: string) returns (found: set<string>)
    ensures Among(all, found)
    ensures forall n :: n in found <==> Nested(all, id, n)
  {
    hide Nested, Live, IdsOf, NextNested;
    found := {};
    var ids := {id};
    assert IdsOf(all, id, {}) == {id} by {
      OnlyOwnId(all, id);
    }
    var next := NextNested(all, ids, found);
    while next != {}
      invariant Among(all, found) && AllNested(all, id, found)
      invariant ids == IdsOf(all, id, found) && next == NextNested(all, ids, found)
      decreases all.Keys - found
    {
      FindsMore(all, id, found);
      ids := ids + (set n | n in next :: all[n].id);
      found := found + next;
      next := NextNested(all, ids, found);
    }
    forall n | Nested(all, id, n)
      ensures n in found
    {
      FoundAll(all, id, found, n);
    }
  }

  lemma OnlyOwnId(all: Store, id: string)
    ensures IdsOf(all, id, {}) == {id}
  {
  }

  ghost predicate NestBuried(before: Store, id: string, now: nat, after: Store) {
    && after.Keys == before.Keys
    && forall n :: n in before ==> after[n] == if Nested(before, id, n) then Dead(before[n], now) else before[n]
  }

  lemma BuryLast(before: Store, name: string, now: nat, mid: Store)
    requires name in before && NestBuried(before, before[name].id, now, mid)
    requires ExportsUnique(before) && forall n :: n in before ==> before[n].name == n
    ensures var after := mid[name := Dead(before[name], now)];
            Buried(before, name, now, after) && ExportsUnique(after) && forall n :: n in after ==> after[n].name == n
  {
    hide Nested, ExportsOf;
    var after := mid[name := Dead(before[name], now)];
    NoOutputsNoExports();
    forall n | n in after
      ensures ExportsOf(after[n].outputs) <= ExportsOf(before[n].outputs)
    {
    }
  }

  class Service {
    const account: Account
    var stacks: Store

    ghost predicate Valid()
      reads this
    {
      && (forall n :: n in stacks ==> stacks[n].name == n)
      && ExportsUnique(stacks)
    }

    constructor (a: Account)
      ensures Valid() && account == a && stacks == map[]
    {
      account := a;
      stacks := map[];
    }

    /** Checks names, applies, and settles or cleans up: everything a deploy does to the account. */
    method Attempt(name: string, req: Request, plan: Plan, prev: Option<Record>, isUpdate: bool, policy: FailurePolicy, env: Env)
      returns (rec: Record, done: bool)
      requires req.plan == Some(plan)
      modifies account
      ensures account.world == DeployWorld(old(account.world), plan, req.template, prev, isUpdate, policy, env)
      ensures Recorded(prev, name, req, isUpdate, policy, env, old(account.world), account.world, rec)
      ensures done <==> RunOf(old(account.world), plan.ir, prev, Seen(env, prev, isUpdate)).error.None?
    {
      hide Applied, ToUndo, Destroyed, AttemptedOf, MarkedAll, UndoneAll, Colliding, Settled, FreshRecord, Recorded, DeployWorld, AfterCleanup;
      var seen := Seen(env, prev, isUpdate);
      var st := new StackRecord(FreshRecord(name, req, plan, prev, isUpdate, env));
      ghost var w := account.world;
      ghost var run := RunOf(w, plan.ir, prev, seen);
      var err := RefuseTaken(account.world, plan.ir, prev, seen);
      var actions: seq<Action> := [];
      if err.None? {
        account.Apply(plan.ir, seen.run);
        err, actions := seen.run.error, seen.run.actions;
      }
      StoppedLeaves(w, plan.ir, prev, seen);
      done := err.None?;
      if !done {
        var f := FailedDeploy(prev, plan.ir, seen.prevIR, actions, err.value, isUpdate && prev.Some?, policy);
        account.SettleFailure(st, f, seen.stuck, seen.reapply, seen.now);
        FailedRecorded(w, account.world, name, req, prev, isUpdate, policy, env, err.value, st.Snapshot());
      } else {
        st.status := Complete(VerbOf(isUpdate));
        account.RemoveDropped(prev, plan.ir, seen.prevIR, seen.stuck);
        st.events := Bounded(st.events + [st.StackEvent(st.status, "")]);
        SucceededRecorded(w, account.world, name, req, prev, isUpdate, policy, env, st.Snapshot());
      }
      rec := st.Snapshot();
    }

    /** The whole flow: check exports, do the work, and record what happened. */
    method Deploy(name: string, req: Request, isUpdate: bool, policy: FailurePolicy, env: Env) returns (r: Outcome)
      requires Valid()
      modifies this, account
      ensures Valid()
      ensures r == Refused ==> account.world == old(account.world)
      ensures r == Refused ==>
                stacks == if req.plan.None? && !isUpdate then old(stacks)[name := FailureRecord(old(stacks), name, req, env)] else old(stacks)
      ensures r == Refused <==> req.plan.None? || ClaimsAnother(old(stacks), name, req.plan.value)
      ensures r == Accepted ==>
                && name in stacks
                && account.world == DeployWorld(old(account.world), req.plan.value, req.template, Lookup(old(stacks), name), isUpdate, policy, env)
                && Recorded(Lookup(old(stacks), name), name, req, isUpdate, policy, env, old(account.world), account.world, stacks[name])
      ensures r == Accepted && req.plan.value.children == [] ==> stacks == old(stacks)[name := stacks[name]]
      ensures r == Accepted ==> forall n :: n in stacks && n != name && n !in NamesOfChildren(req.plan.value.children) ==>
                n in old(stacks) && stacks[n] == old(stacks)[n]
      ensures r == Accepted ==> forall n :: n in old(stacks) && n !in stacks ==>
                old(stacks)[n].settings.root == RootOf(stacks[name]) && n !in NamesOfChildren(req.plan.value.children)
    {
      hide DeployWorld, Recorded, RunOf, ExportsOf, Bounded, ChildOutputs;
      if req.plan.None? {
        if !isUpdate {
          FailureKeepsExports(stacks, name, req, env);
          stacks := stacks[name := FailureRecord(stacks, name, req, env)];
        }
        return Refused;
      }
      var plan := req.plan.value;
      var conflict := ExportConflict(stacks, name, plan);
      if conflict {
        return Refused;
      }
      var prev := Lookup(stacks, name);
      ghost var w := account.world;
      var rec, done := Attempt(name, req, plan, prev, isUpdate, policy, env);
      RecordedExports(w, account.world, stacks, name, req, isUpdate, policy, env, rec);
      if done && |plan.children| > 0 {
        RecordNested(rec, plan.children, env.now);
        DropRemovedChildren(rec, plan.children);
      }
      PutKeepsExports(stacks, name, rec);
      stacks := stacks[name := rec];
      return Accepted;
    }

    /** Writes one record for each nested stack. */
    method RecordNested(parent: Record, children: seq<Child>, now: nat)
      requires Valid()
      modifies this
      ensures Valid()
      ensures forall n :: n in NamesOfChildren(children) ==>
                n in stacks && exists i :: 0 <= i < |children| && children[i].name == n && NestedAs(stacks[n], children[i], parent)
      ensures forall n :: n in stacks && n !in NamesOfChildren(children) ==> n in old(stacks) && stacks[n] == old(stacks)[n]
      ensures old(stacks).Keys <= stacks.Keys
    {
      hide ExportsOf, ExportsUnique, ChildOutputs;
      for i := 0 to |children|
        invariant Valid()
        invariant forall n :: n in NamesOfChildren(children[..i]) ==>
                    n in stacks && exists j :: 0 <= j < i && children[j].name == n && NestedAs(stacks[n], children[j], parent)
        invariant forall n :: n in stacks && n !in NamesOfChildren(children[..i]) ==> n in old(stacks) && stacks[n] == old(stacks)[n]
        invariant old(stacks).Keys <= stacks.Keys
      {
        assert children[..i + 1] == children[..i] + [children[i]];
        var c := children[i];
        var ownerId := if c.owner == "" then parent.id else if c.owner in stacks then stacks[c.owner].id else "";
        var rec := ChildRecord(stacks, c, parent, ownerId, now);
        PutKeepsExports(stacks, c.name, rec);
        assert NestedAs(rec, children[i], parent);
        stacks := stacks[c.name := rec];
      }
      assert children[..|children|] == children;
    }

    /** Drops the records of children a deploy no longer declares. */
    method DropRemovedChildren(parent: Record, children: seq<Child>)
      requires Valid()
      modifies this
      ensures Valid()
      ensures forall n :: n in stacks <==> n in old(stacks) && !Removed(old(stacks), parent, children, n)
      ensures forall n :: n in stacks ==> stacks[n] == old(stacks)[n]
    {
      hide ExportsOf;
      var all := stacks;
      var keep := set n | n in all && !Removed(all, parent, children, n);
      FewerKeepExports(all, keep);
      stacks := map n | n in keep :: all[n];
    }

    /** Stores the settings a deploy declares but nothing acts on, if it sees one change. */
    method RecordDeployFields(name: string, sent: Sent)
      requires Valid() && name in stacks
      modifies `stacks
      ensures Valid()
      ensures stacks == old(stacks)[name := Refielded(old(stacks)[name], sent)]
    {
      hide ExportsOf;
      var rec := stacks[name];
      var fields := Folded(rec.settings.fields, sent);
      PutKeepsExports(stacks, name, Refielded(rec, sent));
      if rec.settings.fields.disableRollback == fields.disableRollback
         && |rec.settings.fields.capabilities| == |fields.capabilities|
         && |rec.settings.fields.notifications| == |fields.notifications| && sent.rollback.None?
      {
        assert stacks == stacks[name := rec];
        return;
      }
      stacks := stacks[name := rec.(settings := rec.settings.(fields := fields))];
    }

    /** Deploys and then stores the request's fields, over whatever record the deploy left. */
    method DeployWithFields(name: string, req: Request, isUpdate: bool, sent: Sent, onFailure: string, env: Env) returns (r: Outcome)
      requires Valid()
      modifies this, account
      ensures Valid()
      ensures r == Refused <==> req.plan.None? || ClaimsAnother(old(stacks), name, req.plan.value)
      ensures r == Refused ==> account.world == old(account.world)
      ensures r == Refused && isUpdate ==> stacks == old(stacks)
      ensures r == Accepted ==>
                && name in stacks
                && DeployedAndFielded(old(stacks), name, req, isUpdate, sent, onFailure, env, old(account.world), account.world, stacks[name])
    {
      hide DeployWorld, Recorded, PolicyOf, ClaimsAnother, Refielded;
      r := Deploy(name, req, isUpdate, PolicyOf(sent.disableRollback == Some(true), onFailure), env);
      if r == Accepted {
        ghost var done := stacks[name];
        RecordDeployFields(name, sent);
        assert stacks[name] == Refielded(done, sent);
      }
    }

    /** A create claims a name no live stack has, or that only a change set has. */
    method CreateStack(name: string, req: Request, sent: Sent, onFailure: string, env: Env) returns (r: Outcome)
      requires Valid()
      modifies this, account
      ensures Valid()
      ensures var prev := Lookup(old(stacks), name);
              && (prev.Some? && prev.value.status != ReviewInProgress ==> stacks == old(stacks))
              && (r == Refused <==> || (prev.Some? && prev.value.status != ReviewInProgress)
                                    || req.plan.None? || ClaimsAnother(old(stacks), name, req.plan.value))
      ensures r == Refused ==> account.world == old(account.world)
      ensures r == Accepted ==>
                && name in stacks
                && DeployedAndFielded(old(stacks), name, req, false, sent, onFailure, env, old(account.world), account.world, stacks[name])
    {
      hide ClaimsAnother, DeployedAndFielded;
      var prev := Lookup(stacks, name);
      if prev.Some? && prev.value.status != ReviewInProgress {
        return Refused;
      }
      r := DeployWithFields(name, req, false, sent, onFailure, env);
    }

    /** An update needs a live stack that was created, and something to change. */
    method UpdateStack(name: string, req: Request, sent: Sent, onFailure: string, env: Env) returns (r: Outcome)
      requires Valid()
      modifies this, account
      ensures Valid()
      ensures r == Refused ==> stacks == old(stacks) && account.world == old(account.world)
      ensures var prev := Lookup(old(stacks), name);
              r == Refused <==> || prev.None? || UpdateRefused(prev.value) || NothingToUpdate(prev.value, req)
                                || req.plan.None? || ClaimsAnother(old(stacks), name, req.plan.value)
      ensures r == Accepted ==>
                && name in stacks
                && DeployedAndFielded(old(stacks), name, req, true, sent, onFailure, env, old(account.world), account.world, stacks[name])
    {
      hide ClaimsAnother, DeployedAndFielded;
      var prev := Lookup(stacks, name);
      if prev.None? || UpdateRefused(prev.value) || NothingToUpdate(prev.value, req) {
        return Refused;
      }
      r := DeployWithFields(name, req, true, sent, onFailure, env);
    }

    /** Deletes a stack with what it made and the stacks nested in it; its record stays, as deleted. */
    method DeleteStack(name: string, env: Env) returns (r: Outcome)
      requires Valid()
      modifies this, account
      ensures Valid()
      ensures var st := Lookup(old(stacks), name);
              if st.None? then r == Accepted && stacks == old(stacks) && account.world == old(account.world)
              else if DeleteBlocked(old(stacks), st.value) then r == Refused && stacks == old(stacks) && account.world == old(account.world)
              else r == Accepted
                   && account.world == AfterDelete(old(account.world), env.prevIR, st.value, env.stuck)
                   && Buried(old(stacks), name, env.now, stacks)
    {
      hide ExportsOf, SomeExportImported, AfterDelete, NestBuried, Buried, ExportsUnique;
      var found := Lookup(stacks, name);
      if found.None? {
        return Accepted;
      }
      var st := found.value;
      var used := ExportInUse(stacks, st);
      if st.settings.protected_ || st.settings.parent != "" || used {
        return Refused;
      }
      DestroyOwned(st, env);
      ghost var before := stacks;
      DeleteNested(st.id, env.now);
      ghost var nested := stacks;
      stacks := stacks[name := Dead(st, env.now)];
      BuryLast(before, name, env.now, nested);
      return Accepted;
    }

    /** A stack whose creation was rolled back owns nothing; any other owns what its template names and does not keep. */
    method DestroyOwned(st: Record, env: Env)
      modifies account
      ensures account.world == AfterDelete(old(account.world), env.prevIR, st, env.stuck)
    {
      if st.status != RollbackComplete && env.prevIR.Some? {
        var retain := Retained(st.settings.template, st.resources, false);
        var doomed := set x | x in env.prevIR.value && x.name !in retain;
        assert doomed == Unretained(env.prevIR.value, st.settings.template, st.resources, false);
        var _ := account.Destroy(doomed, env.stuck);
      }
    }

    /** Marks every live stack nested, at any depth, in the one with this id. */
    method DeleteNested(id: string, now: nat)
      modifies this
      ensures NestBuried(old(stacks), id, now, stacks)
    {
      var all := stacks;
      var found := FindNested(all, id);
      stacks := map n | n in all :: if n in found then Dead(all[n], now) else all[n];
    }
  }

  /** The record an accepted deploy leaves: complete, or settled after a failure. */
  ghost predicate Recorded(prev: Option<Record>, name: string, req: Request, isUpdate: bool, policy: FailurePolicy, env: Env,
                           w: set<Res>, w': set<Res>, rec: Record)
    requires req.plan.Some?
  {
    var seen := Seen(env, prev, isUpdate);
    var first := FreshRecord(name, req, req.plan.value, prev, isUpdate, env);
    var run := RunOf(w, req.plan.value.ir, prev, seen);
    if run.error.None? then
      rec == first.(status := Complete(VerbOf(isUpdate)), events := rec.events)
    else
      exists err :: Blamed(w, req.plan.value.ir, prev, seen, err)
                    && Settled(FailureOf(req.plan.value, prev, run, err, isUpdate, policy, seen), first, rec,
                               Applied(w, req.plan.value.ir, run), w', seen.stuck, seen.reapply, seen.now)
  }

  /** What a create or an update leaves: the account as its deploy does, and the deploy's record with the
      request's fields folded in. */
  ghost predicate DeployedAndFielded(stacks: Store, name: string, req: Request, isUpdate: bool, sent: Sent, onFailure: string, env: Env,
                                     w: set<Res>, w': set<Res>, stored: Record)
  {
    var prev, policy := Lookup(stacks, name), PolicyOf(sent.disableRollback == Some(true), onFailure);
    && req.plan.Some?
    && w' == DeployWorld(w, req.plan.value, req.template, prev, isUpdate, policy, env)
    && exists done :: Recorded(prev, name, req, isUpdate, policy, env, w, w', done) && stored == Refielded(done, sent)
  }

  /** How a deploy that succeeds leaves the account and the record. */
  lemma SucceededRecorded(w: set<Res>, w': set<Res>, name: string, req: Request, prev: Option<Record>, isUpdate: bool, policy: FailurePolicy,
                          env: Env, rec: Record)
    requires req.plan.Some?
    requires var plan, seen := req.plan.value, Seen(env, prev, isUpdate);
             var run := RunOf(w, plan.ir, prev, seen);
             && run.error.None?
             && rec == FreshRecord(name, req, plan, prev, isUpdate, env).(status := Complete(VerbOf(isUpdate)), events := rec.events)
             && w' == if prev.None? then Applied(w, plan.ir, run)
                      else AfterCleanup(Applied(w, plan.ir, run), plan.ir, seen.prevIR, prev.value, seen.stuck)
    ensures w' == DeployWorld(w, req.plan.value, req.template, prev, isUpdate, policy, env)
    ensures Recorded(prev, name, req, isUpdate, policy, env, w, w', rec)
  {
    hide Applied, FreshRecord, Destroyed, Unretained;
  }

  lemma FailedRecorded(w: set<Res>, w': set<Res>, name: string, req: Request, prev: Option<Record>, isUpdate: bool, policy: FailurePolicy,
                       env: Env, err: ApplyError, rec: Record)
    requires req.plan.Some?
    requires var plan, seen := req.plan.value, Seen(env, prev, isUpdate);
             var run := RunOf(w, plan.ir, prev, seen);
             && run.error.Some? && Blamed(w, plan.ir, prev, seen, err)
             && Settled(FailureOf(plan, prev, run, err, isUpdate, policy, seen), FreshRecord(name, req, plan, prev, isUpdate, env), rec,
                        Applied(w, plan.ir, run), w', seen.stuck, seen.reapply, seen.now)
    ensures w' == DeployWorld(w, req.plan.value, req.template, prev, isUpdate, policy, env)
    ensures Recorded(prev, name, req, isUpdate, policy, env, w, w', rec)
  {
    SettledWorld(w, w', name, req, prev, isUpdate, policy, env, err, rec);
    hide Applied, FreshRecord, Settled, Blamed, DeployWorld;
  }

  lemma StoppedLeaves(w: set<Res>, ir: set<Res>, prev: Option<Record>, seen: Env)
    ensures Stopped(w, ir, prev, seen) ==> Applied(w, ir, RunOf(w, ir, prev, seen)) == w
  {
  }

  lemma FailureKeepsExports(stacks: Store, name: string, req: Request, env: Env)
    requires ExportsUnique(stacks) && forall n :: n in stacks ==> stacks[n].name == n
    ensures ExportsUnique(stacks[name := FailureRecord(stacks, name, req, env)])
    ensures FailureRecord(stacks, name, req, env).name == name
  {
    PutKeepsExports(stacks, name, FailureRecord(stacks, name, req, env));
  }

  /** A settled failure leaves the account as the deploy's outcome says. */
  lemma SettledWorld(w: set<Res>, w': set<Res>, name: string, req: Request, prev: Option<Record>, isUpdate: bool, policy: FailurePolicy,
                     env: Env, err: ApplyError, rec: Record)
    requires req.plan.Some?
    requires var plan, seen := req.plan.value, Seen(env, prev, isUpdate);
             var run := RunOf(w, plan.ir, prev, seen);
             && run.error.Some?
             && Settled(FailureOf(plan, prev, run, err, isUpdate, policy, seen), FreshRecord(name, req, plan, prev, isUpdate, env), rec,
                        Applied(w, plan.ir, run), w', seen.stuck, seen.reapply, seen.now)
    ensures w' == DeployWorld(w, req.plan.value, req.template, prev, isUpdate, policy, env)
  {
    hide Applied, ToUndo, Destroyed, AttemptedOf, MarkedAll, UndoneAll;
  }

  /** Whatever a deploy records as exported was its own to export. */
  lemma RecordedExports(w: set<Res>, w': set<Res>, stacks: Store, name: string, req: Request, isUpdate: bool, policy: FailurePolicy,
                        env: Env, rec: Record)
    requires req.plan.Some? && ExportsUnique(stacks) && forall n :: n in stacks ==> stacks[n].name == n
    requires !ClaimsAnother(stacks, name, req.plan.value)
    requires Recorded(Lookup(stacks, name), name, req, isUpdate, policy, env, w, w', rec)
    ensures rec.name == name
    ensures forall n :: n in stacks && n != name ==> ExportsOf(stacks[n].outputs) !! ExportsOf(rec.outputs)
  {
    hide Applied, ToUndo, Destroyed, AttemptedOf, MarkedAll, UndoneAll, ExportsOf, RunOf;
    if rec.outputs == [] {
      NoOutputsNoExports();
    } else {
      assert rec.outputs == req.plan.value.outputs || (name in stacks && rec.outputs == stacks[name].outputs);
    }
  }

  lemma NoOutputsNoExports()
    ensures ExportsOf([]) == {}
  {
  }
}
