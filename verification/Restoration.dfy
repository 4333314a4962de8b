/** What deploys and deletes do to the account, over every apply that can happen to them. */
module Restoration {
  import opened Wrappers
  import opened Provision
  import opened Reports
  import opened Rollback
  import opened Settle
  import opened Stacks

  /** The graph an update started from; a create, and an update whose template is lost, start from none. */
  function Before(prev: Option<Record>, isUpdate: bool, env: Env): set<Res> {
    var seen := Seen(env, prev, isUpdate);
    if seen.prevIR.Some? then seen.prevIR.value else {}
  }

  /** Whatever happens, a deploy neither makes nor deletes anything that neither template names. */
  lemma OthersUntouched(world: set<Res>, plan: Plan, t: Template, prev: Option<Record>, isUpdate: bool, policy: FailurePolicy, env: Env, r: Res)
    requires r !in plan.ir && r !in Before(prev, isUpdate, env)
    ensures r in DeployWorld(world, plan, t, prev, isUpdate, policy, env) <==> r in world
  {
    hide Retains, SaysMade, Colliding;
  }

  /** What a failed deploy that is undone deletes of what was there: what it took for made by itself. */
  lemma LostIff(world: set<Res>, plan: Plan, t: Template, prev: Option<Record>, isUpdate: bool, policy: FailurePolicy, env: Env, r: Res)
    requires policy != Keep && RunOf(world, plan.ir, prev, Seen(env, prev, isUpdate)).error.Some?
    requires r in world
    ensures var run := RunOf(world, plan.ir, prev, Seen(env, prev, isUpdate));
            r !in DeployWorld(world, plan, t, prev, isUpdate, policy, env)
            <==> r in ToUndo(plan.ir, run.actions, t, plan.resources) && r !in Before(prev, isUpdate, env) && r !in env.stuck
  {
    hide Retains, SaysMade, Stopped;
  }

  /** New to the stack and not retained. */
  predicate Undoable(plan: Plan, t: Template, prev: Option<Record>, isUpdate: bool, env: Env, r: Res) {
    r !in Before(prev, isUpdate, env) && !Retains(t, plan.resources, true, r.name)
  }

  /** So it loses what it names and shares, new to the stack and not retained, that is reported as made. */
  lemma LostWhen(world: set<Res>, plan: Plan, t: Template, prev: Option<Record>, isUpdate: bool, policy: FailurePolicy, env: Env, r: Res)
    requires policy != Keep && env.run.error.Some? && r in world
    ensures r !in DeployWorld(world, plan, t, prev, isUpdate, policy, env)
            <==> !Stopped(world, plan.ir, prev, Seen(env, prev, isUpdate))
                 && r in plan.ir && Undoable(plan, t, prev, isUpdate, env, r) && SaysMade(env.run.actions, r) && r !in env.stuck
  {
    LostIff(world, plan, t, prev, isUpdate, policy, env, r);
    assert !SaysMade([], r);
    hide DeployWorld, Retains, SaysMade, Stopped;
  }

  /** Nothing that was there is lost to a rollback, wherever an apply fails, exactly when the collision check
      stops the deploy or the report tells in time of each resource there that is not the stack's own or retained. */
  lemma NothingLostIff(world: set<Res>, plan: Plan, t: Template, prev: Option<Record>, isUpdate: bool, policy: FailurePolicy, env: Env,
                       script: seq<Call>, traits: map<Res, Traits>, message: string)
    requires policy != Keep && Follows(script, plan.ir, world, traits)
    ensures (forall n, stuck, reapply :: 0 <= n < |script| ==>
               world <= DeployWorld(world, plan, t, prev, isUpdate, policy, FailsAt(env, script, n, message, stuck, reapply)))
            <==> Stopped(world, plan.ir, prev, Seen(env, prev, isUpdate))
                 || forall r :: r in plan.ir && r in world && Undoable(plan, t, prev, isUpdate, env, r) ==> TellsInTime(script, r, traits[r], true)
  {
    if !Stopped(world, plan.ir, prev, Seen(env, prev, isUpdate)) {
      forall r | r in plan.ir && r in world && Undoable(plan, t, prev, isUpdate, env, r)
        ensures TellsThroughout(script, r, true) <==> TellsInTime(script, r, traits[r], true)
      {
        TellsThroughoutIff(script, plan.ir, world, traits, r);
      }
    }
    hide Follows, DeployWorld, Tells, TellsInTime, Undoable, Stopped;
    forall n | 0 <= n < |script|
      ensures (forall stuck, reapply :: world <= DeployWorld(world, plan, t, prev, isUpdate, policy, FailsAt(env, script, n, message, stuck, reapply)))
              <==> Stopped(world, plan.ir, prev, Seen(env, prev, isUpdate))
                   || forall r :: r in plan.ir && r in world && Undoable(plan, t, prev, isUpdate, env, r) ==> Tells(script[..n], r, true)
    {
      NothingLostAtIff(world, plan, t, prev, isUpdate, policy, env, script, n, message);
    }
  }

  /** An environment whose apply fails at call n of a script. */
  function FailsAt(env: Env, script: seq<Call>, n: nat, message: string, stuck: set<Res>, reapply: ApplyRun): Env
    requires n <= |script|
  {
    env.(run := RunAt(script, n, message), stuck := stuck, reapply := reapply)
  }

  lemma NothingLostAtIff(world: set<Res>, plan: Plan, t: Template, prev: Option<Record>, isUpdate: bool, policy: FailurePolicy, env: Env,
                         script: seq<Call>, n: nat, message: string)
    requires policy != Keep && n <= |script|
    ensures (forall stuck, reapply :: world <= DeployWorld(world, plan, t, prev, isUpdate, policy, FailsAt(env, script, n, message, stuck, reapply)))
            <==> Stopped(world, plan.ir, prev, Seen(env, prev, isUpdate))
                 || forall r :: r in plan.ir && r in world && Undoable(plan, t, prev, isUpdate, env, r) ==> Tells(script[..n], r, true)
  {
    hide DeployWorld, Stopped, Retains, SaysMade, Lines, MadeBy;
    forall stuck, reapply, r | r in world
      ensures r !in DeployWorld(world, plan, t, prev, isUpdate, policy, FailsAt(env, script, n, message, stuck, reapply))
              <==> !Stopped(world, plan.ir, prev, Seen(env, prev, isUpdate))
                   && r in plan.ir && Undoable(plan, t, prev, isUpdate, env, r) && !Tells(script[..n], r, true) && r !in stuck
    {
      var all := FailsAt(env, script, n, message, stuck, reapply);
      LostWhen(world, plan, t, prev, isUpdate, policy, all, r);
      SeesAlike(world, plan.ir, prev, isUpdate, env, all);
    }
    hide Undoable, Tells, FailsAt;
    ghost var none: set<Res>, run := {}, ApplyRun(None, {}, []);
    assert forall r :: r in plan.ir && r in world && Undoable(plan, t, prev, isUpdate, env, r) && !Tells(script[..n], r, true)
                       && !Stopped(world, plan.ir, prev, Seen(env, prev, isUpdate)) ==>
             r !in DeployWorld(world, plan, t, prev, isUpdate, policy, FailsAt(env, script, n, message, none, run));
  }

  /** How an apply goes is not seen before it: neither the check before it nor the graph put back depends on it. */
  lemma SeesAlike(world: set<Res>, ir: set<Res>, prev: Option<Record>, isUpdate: bool, env: Env, all: Env)
    requires all == env.(run := all.run, stuck := all.stuck, reapply := all.reapply)
    ensures Stopped(world, ir, prev, Seen(all, prev, isUpdate)) <==> Stopped(world, ir, prev, Seen(env, prev, isUpdate))
    ensures Before(prev, isUpdate, all) == Before(prev, isUpdate, env)
  {
    hide Colliding, Owned;
  }

  /** So, where the kinds shared with the account are all looked for and no other kind's name hides one,
      a failed deploy loses nothing. */
  lemma LookedForIsSafe(world: set<Res>, plan: Plan, t: Template, prev: Option<Record>, isUpdate: bool, policy: FailurePolicy, env: Env)
    requires policy != Keep && env.run.error.Some?
    requires var seen := Seen(env, prev, isUpdate);
             forall r :: r in plan.ir && r in world ==> r in Before(prev, isUpdate, env) || (Probed(r.kind) && r.name !in Owned(prev, seen.prevIR))
    ensures world <= DeployWorld(world, plan, t, prev, isUpdate, policy, env)
  {
    hide DeployWorld, Retains, SaysMade, Probed, Owned, Stopped;
    var seen := Seen(env, prev, isUpdate);
    forall r | r in world
      ensures r in DeployWorld(world, plan, t, prev, isUpdate, policy, env)
    {
      LostWhen(world, plan, t, prev, isUpdate, policy, env, r);
      if !Stopped(world, plan.ir, prev, seen) && r in plan.ir && r !in Before(prev, isUpdate, env) {
        NothingTaken(world, plan.ir, prev, seen, r);
      }
    }
  }

  /** A deploy that goes on shares nothing that is looked for under a name it does not own. */
  lemma NothingTaken(world: set<Res>, ir: set<Res>, prev: Option<Record>, env: Env, r: Res)
    requires !Stopped(world, ir, prev, env) && r in ir && r in world
    ensures Probed(r.kind) ==> r.name in Owned(prev, env.prevIR)
  {
    hide Probed, Owned;
    assert r !in Colliding(world, ir, Owned(prev, env.prevIR));
  }

  // ---- A failed update put back ----

  /** What an update's rollback leaves when everything it tried worked. */
  lemma UpdateRollbackLeaves(world: set<Res>, ir: set<Res>, prevIR: set<Res>, run: ApplyRun, t: Template, rs: seq<StackResource>, reapply: ApplyRun)
    requires reapply.error.None?
    ensures AfterUpdateRollback(world, ir, Some(prevIR), run, t, rs, {}, reapply)
            == (world - (ToUndo(ir, run.actions, t, rs) - prevIR)) + prevIR
               + (set r | r in Made(world, ir, run) && (Retains(t, rs, true, r.name) || !SaysMade(run.actions, r)))
  {
    hide Retains, SaysMade;
    var undo := ToUndo(ir, run.actions, t, rs) - prevIR;
    assert undo - {} == undo;
  }

  /** An update put back leaves the previous graph in place and the account otherwise as it was, but for
      what the new template retains, exactly when the report tells the truth of everything new to the stack. */
  lemma UpdateRollbackRestoresIff(world: set<Res>, ir: set<Res>, prevIR: set<Res>, run: ApplyRun, t: Template, rs: seq<StackResource>, reapply: ApplyRun)
    requires reapply.error.None?
    ensures AfterUpdateRollback(world, ir, Some(prevIR), run, t, rs, {}, reapply)
            == world + prevIR + (set r | r in Made(world, ir, run) && Retains(t, rs, true, r.name))
            <==> forall r :: r in ir && r !in prevIR && r in Applied(world, ir, run) && !Retains(t, rs, true, r.name) ==>
                   (SaysMade(run.actions, r) <==> r !in world)
  {
    hide Retains, SaysMade;
    UpdateRollbackLeaves(world, ir, prevIR, run, t, rs, reapply);
    var after := AfterUpdateRollback(world, ir, Some(prevIR), run, t, rs, {}, reapply);
    var want := world + prevIR + (set r | r in Made(world, ir, run) && Retains(t, rs, true, r.name));
    forall r | r in ir && r !in prevIR && r in Applied(world, ir, run) && !Retains(t, rs, true, r.name)
      ensures (r in after <==> r in want) <==> (SaysMade(run.actions, r) <==> r !in world)
    {
    }
    if forall r :: r in ir && r !in prevIR && r in Applied(world, ir, run) && !Retains(t, rs, true, r.name) ==>
         (SaysMade(run.actions, r) <==> r !in world)
    {
      assert after == want;
    }
  }

  /** The account a failed deploy that is undone should leave: what was there, the graph it started from, and
      what it made and the template retains. */
  predicate Restores(world: set<Res>, plan: Plan, t: Template, prev: Option<Record>, isUpdate: bool, env: Env) {
    var run := RunOf(world, plan.ir, prev, Seen(env, prev, isUpdate));
    DeployWorld(world, plan, t, prev, isUpdate, RollBack, env)
    == world + Before(prev, isUpdate, env) + (set r | r in Made(world, plan.ir, run) && Retains(t, plan.resources, true, r.name))
  }

  /** Wherever an apply fails, creating or updating, the rollback restores the account, exactly when the
      collision check stops the deploy or the report tells in time of all that is new to the stack and not
      retained: of what is to be made as of what was there. */
  lemma RollbackRestoresIff(world: set<Res>, plan: Plan, t: Template, prev: Option<Record>, isUpdate: bool, env: Env,
                            script: seq<Call>, traits: map<Res, Traits>, message: string, reapply: ApplyRun)
    requires Follows(script, plan.ir, world, traits) && reapply.error.None?
    ensures (forall n :: 0 <= n < |script| ==> Restores(world, plan, t, prev, isUpdate, FailsAt(env, script, n, message, {}, reapply)))
            <==> Stopped(world, plan.ir, prev, Seen(env, prev, isUpdate))
                 || forall r :: r in plan.ir && Undoable(plan, t, prev, isUpdate, env, r) ==> TellsInTime(script, r, traits[r], r in world)
  {
    forall r | r in plan.ir
      ensures TellsThroughout(script, r, r in world) <==> TellsInTime(script, r, traits[r], r in world)
    {
      TellsThroughoutIff(script, plan.ir, world, traits, r);
    }
    assert forall r :: r in plan.ir ==> r in traits;
    hide Follows, Restores, Tells, TellsInTime, Undoable, Stopped;
    forall n | 0 <= n < |script|
      ensures Restores(world, plan, t, prev, isUpdate, FailsAt(env, script, n, message, {}, reapply))
              <==> Stopped(world, plan.ir, prev, Seen(env, prev, isUpdate))
                   || forall r :: r in plan.ir && Undoable(plan, t, prev, isUpdate, env, r) ==> Tells(script[..n], r, r in world)
    {
      RestoresAtIff(world, plan, t, prev, isUpdate, env, script, n, message, reapply);
    }
  }

  /** So for a create that goes on, of what was there only activities, and layers whose content changed, can
      be taken; of what it is to make, what its kind and declaration leave untold is left behind. */
  lemma CreateRestoresIff(world: set<Res>, plan: Plan, t: Template, env: Env, script: seq<Call>, traits: map<Res, Traits>, message: string, reapply: ApplyRun)
    requires Follows(script, plan.ir, world, traits) && reapply.error.None?
    requires !Stopped(world, plan.ir, None, Seen(env, None, false))
    ensures (forall n :: 0 <= n < |script| ==> Restores(world, plan, t, None, false, FailsAt(env, script, n, message, {}, reapply)))
            <==> forall r :: r in plan.ir && !Retains(t, plan.resources, true, r.name) ==>
                   if r in world then r.kind.Activity? || (r.kind.Layer? && traits[r].changed) ==> EndsWith(script, r)
                   else TellsInTime(script, r, traits[r], false)
  {
    RollbackRestoresIff(world, plan, t, None, false, env, script, traits, message, reapply);
    forall r | r in plan.ir && r in world
      ensures !Probed(r.kind)
    {
      NothingTaken(world, plan.ir, None, Seen(env, None, false), r);
    }
    assert forall r :: r in plan.ir ==> r in traits && CanFollow(r.kind, traits[r].rest);
    hide Follows, Restores, Stopped, Retains;
    forall r | r in plan.ir
      ensures Undoable(plan, t, None, false, env, r) <==> !Retains(t, plan.resources, true, r.name)
      ensures r in world ==>
                (TellsInTime(script, r, traits[r], true) <==> (r.kind.Activity? || (r.kind.Layer? && traits[r].changed) ==> EndsWith(script, r)))
    {
    }
  }

  lemma RestoresAtIff(world: set<Res>, plan: Plan, t: Template, prev: Option<Record>, isUpdate: bool, env: Env,
                      script: seq<Call>, n: nat, message: string, reapply: ApplyRun)
    requires n <= |script| && reapply.error.None?
    ensures Restores(world, plan, t, prev, isUpdate, FailsAt(env, script, n, message, {}, reapply))
            <==> Stopped(world, plan.ir, prev, Seen(env, prev, isUpdate))
                 || forall r :: r in plan.ir && Undoable(plan, t, prev, isUpdate, env, r) ==> Tells(script[..n], r, r in world)
  {
    var all := FailsAt(env, script, n, message, {}, reapply);
    SeesAlike(world, plan.ir, prev, isUpdate, env, all);
    var run := RunOf(world, plan.ir, prev, Seen(all, prev, isUpdate));
    var before := Before(prev, isUpdate, all);
    if Stopped(world, plan.ir, prev, Seen(all, prev, isUpdate)) {
      forall r
        ensures !SaysMade(run.actions, r)
      {
      }
    } else {
      assert run == all.run;
    }
    hide Stopped, Retains, SaysMade, Lines, MadeBy;
    if isUpdate && prev.Some? && env.prevIR.Some? {
      UpdateRollbackRestoresIff(world, plan.ir, before, run, t, plan.resources, reapply);
    } else {
      CreateRollbackRestoresIff(world, plan.ir, run, t, plan.resources);
    }
  }

  /** The record of an update that failed and was undone is the previous one, but for its status, reason,
      trail and when it was updated. */
  lemma UpdateRestoresRecord(prev: Record, name: string, req: Request, policy: FailurePolicy, env: Env, w: set<Res>, w': set<Res>, rec: Record)
    requires req.plan.Some? && policy != Keep
    requires RunOf(w, req.plan.value.ir, Some(prev), env).error.Some?
    requires Recorded(Some(prev), name, req, true, policy, env, w, w', rec)
    ensures rec == prev.(status := rec.status, reason := rec.reason, events := rec.events, updated := env.now)
    ensures rec.status == UpdateRollbackComplete || rec.status == UpdateRollbackFailed
    ensures rec.status == UpdateRollbackComplete ==> env.prevIR.Some? && env.reapply.error.None?
  {
    hide Applied, ToUndo, Destroyed, RunOf, AttemptedOf, MarkedAll;
  }

  /** And once the request's fields are stored, it still is but for those fields, which are the previous
      ones exactly when no change is noticed or the request sends nothing new. */
  lemma UpdateRestoresStoredIff(prev: Record, name: string, req: Request, policy: FailurePolicy, env: Env, w: set<Res>, w': set<Res>,
                                done: Record, sent: Sent)
    requires req.plan.Some? && policy != Keep
    requires RunOf(w, req.plan.value.ir, Some(prev), env).error.Some?
    requires Recorded(Some(prev), name, req, true, policy, env, w, w', done)
    ensures var stored := Refielded(done, sent);
            && stored == prev.(status := done.status, reason := done.reason, events := done.events, updated := env.now,
                               settings := prev.settings.(fields := stored.settings.fields))
            && (stored.settings == prev.settings
                <==> !Noticed(prev.settings.fields, sent) || SendsNothingNew(prev.settings.fields, sent))
  {
    UpdateRestoresRecord(prev, name, req, policy, env, w, w', done);
    hide Recorded, RunOf;
  }

  /** A stack without capabilities whose update fails and is undone has the capability the update sent; one
      with a capability, sent another, keeps its own, for the lists are as long. */
  lemma FailedUpdateLeavesItsFields()
    ensures var t := Template("t", true, map[]);
            var settings := Settings(t, map[], map[], false, "", "", "", NO_FIELDS);
            var prev := Record("s", "id", Complete(CREATE), "", settings, [], [], [], 0, 0);
            var req := Request(Template("u", true, map[]), map[], map[], Some(Plan({Res(Queue, "q")}, [], [], [], [])));
            var env := Env(1, "", Some({}), None, ApplyRun(Some(Failed("")), {}, []), {}, ApplyRun(None, {}, []));
            var done := prev.(status := UpdateRollbackComplete, updated := 1);
            && Recorded(Some(prev), "s", req, true, RollBack, env, {}, {}, done)
            && Refielded(done, Sent(["CAPABILITY_IAM"], [], None, None)).settings == settings.(fields := DeployFields(["CAPABILITY_IAM"], [], None, false))
            && var with := done.(settings := settings.(fields := DeployFields(["A"], [], None, false)));
               Refielded(with, Sent(["B"], [], None, None)) == with
  {
    var t := Template("t", true, map[]);
    var settings := Settings(t, map[], map[], false, "", "", "", NO_FIELDS);
    var prev := Record("s", "id", Complete(CREATE), "", settings, [], [], [], 0, 0);
    var req := Request(Template("u", true, map[]), map[], map[], Some(Plan({Res(Queue, "q")}, [], [], [], [])));
    var env := Env(1, "", Some({}), None, ApplyRun(Some(Failed("")), {}, []), {}, ApplyRun(None, {}, []));
    var done := prev.(status := UpdateRollbackComplete, updated := 1);
    var first := FreshRecord("s", req, req.plan.value, Some(prev), true, env);
    assert Colliding({}, req.plan.value.ir, Owned(Some(prev), env.prevIR)) == {};
    var f := FailureOf(req.plan.value, Some(prev), env.run, Failed(""), true, RollBack, env);
    assert ToUndo(f.ir, f.actions, first.settings.template, first.resources) == {};
    assert UpdateUndone(f, first, done, {}, {}, {}, env.reapply, 1);
    assert Settled(f, first, done, {}, {}, {}, env.reapply, 1);
    assert Blamed({}, req.plan.value.ir, Some(prev), env, Failed(""));
  }

  // ---- How a request ends ----

  /** A request that a failed deploy is to be left as it fell. */
  predicate AsksToKeep(sent: Sent, onFailure: string) {
    sent.disableRollback == Some(true) || onFailure == "DO_NOTHING"
  }

  lemma MadeStaysIff(world: set<Res>, plan: Plan, t: Template, prev: Option<Record>, isUpdate: bool, policy: FailurePolicy, env: Env, r: Res)
    requires env.run.error.Some? && !Stopped(world, plan.ir, prev, Seen(env, prev, isUpdate))
    requires r in plan.ir && r in env.run.reached && r !in Before(prev, isUpdate, env)
    ensures r in DeployWorld(world, plan, t, prev, isUpdate, policy, env)
            <==> policy == Keep || r !in ToUndo(plan.ir, env.run.actions, t, plan.resources) || r in env.stuck
  {
    hide ToUndo, Stopped;
  }

  /** What a failed deploy made, new to the stack and alone under its name, stays exactly when the request asks to
      keep it, the template declares it Retain, or it cannot be deleted. RetainExceptOnCreate does not save it. */
  lemma FailedDeployLeaves(stacks: Store, name: string, req: Request, isUpdate: bool, sent: Sent, onFailure: string, env: Env,
                           w: set<Res>, w': set<Res>, stored: Record, r: Res, i: nat)
    requires DeployedAndFielded(stacks, name, req, isUpdate, sent, onFailure, env, w, w', stored)
    requires env.run.error.Some? && !Stopped(w, req.plan.value.ir, Lookup(stacks, name), Seen(env, Lookup(stacks, name), isUpdate))
    requires r in req.plan.value.ir && r in env.run.reached && SaysMade(env.run.actions, r) && r !in Before(Lookup(stacks, name), isUpdate, env)
    requires Alone(req.plan.value.resources, i) && req.plan.value.resources[i].physical == r.name
    ensures r in w' <==> AsksToKeep(sent, onFailure) || Declares(req.template, req.plan.value.resources[i].logical, Retain) || r in env.stuck
  {
    AloneRetained(req.template, req.plan.value.resources, i);
    var policy := PolicyOf(sent.disableRollback == Some(true), onFailure);
    MadeStaysIff(w, req.plan.value, req.template, Lookup(stacks, name), isUpdate, policy, env, r);
    hide Recorded, Refielded, Retains, SaysMade, Stopped, Alone, Declares, DeployWorld;
  }

  lemma SettledStatus(f: FailedDeploy, before: Record, after: Record, w: set<Res>, w': set<Res>, reapply: ApplyRun, now: nat)
    requires (f.update ==> f.prev.Some?) && Settled(f, before, after, w, w', {}, reapply, now)
    ensures f.policy == Keep ==> after.status == Failure(if f.update then UPDATE else CREATE)
    ensures f.policy != Keep && f.update ==>
              after.status == if f.prevIR.Some? && reapply.error.None? then UpdateRollbackComplete else UpdateRollbackFailed
    ensures f.policy != Keep && !f.update ==>
              && after.outputs == []
              && if f.policy == DeleteStack then after.status == DeleteComplete && after.resources == [] else after.status == RollbackComplete
  {
    hide Applied, Destroyed, AttemptedOf, MarkedAll, UndoneAll, ToUndo, NewlyMade;
    assert forall what: set<Res> :: NamesOf(what * {}) == {};
  }

  /** The status a failed deploy ends in, when everything asked to be deleted could be. */
  lemma FailedDeployStatus(stacks: Store, name: string, req: Request, isUpdate: bool, sent: Sent, onFailure: string, env: Env,
                           w: set<Res>, w': set<Res>, stored: Record)
    requires DeployedAndFielded(stacks, name, req, isUpdate, sent, onFailure, env, w, w', stored)
    requires env.run.error.Some? && env.stuck == {}
    ensures var updating := isUpdate && Lookup(stacks, name).Some?;
            && (AsksToKeep(sent, onFailure) ==> stored.status == Failure(if updating then UPDATE else CREATE))
            && (!AsksToKeep(sent, onFailure) && updating ==>
                  stored.status == if env.prevIR.Some? && env.reapply.error.None? then UpdateRollbackComplete else UpdateRollbackFailed)
            && (!AsksToKeep(sent, onFailure) && !updating ==>
                  && stored.outputs == []
                  && if onFailure == "DELETE" then stored.status == DeleteComplete && stored.resources == [] else stored.status == RollbackComplete)
  {
    hide DeployWorld, Retains, SaysMade, Stopped, Applied, Settled, Blamed, FreshRecord, Noticed, Folded;
    var prev, plan := Lookup(stacks, name), req.plan.value;
    var seen, run := Seen(env, prev, isUpdate), RunOf(w, plan.ir, prev, Seen(env, prev, isUpdate));
    var policy := PolicyOf(sent.disableRollback == Some(true), onFailure);
    var done :| Recorded(prev, name, req, isUpdate, policy, env, w, w', done) && stored == Refielded(done, sent);
    assert run.error.Some?;
    var first := FreshRecord(name, req, plan, prev, isUpdate, env);
    var err :| Blamed(w, plan.ir, prev, seen, err)
               && Settled(FailureOf(plan, prev, run, err, isUpdate, policy, seen), first, done, Applied(w, plan.ir, run), w', {}, env.reapply, env.now);
    SettledStatus(FailureOf(plan, prev, run, err, isUpdate, policy, seen), first, done, Applied(w, plan.ir, run), w', env.reapply, env.now);
  }

  /** A create that fails, is to be undone, and cannot delete something it made and does not retain, says so. */
  lemma StuckCreateFails(stacks: Store, name: string, req: Request, sent: Sent, onFailure: string, env: Env,
                         w: set<Res>, w': set<Res>, stored: Record, r: Res, i: nat)
    requires DeployedAndFielded(stacks, name, req, false, sent, onFailure, env, w, w', stored)
    requires env.run.error.Some? && !Stopped(w, req.plan.value.ir, Lookup(stacks, name), Seen(env, Lookup(stacks, name), false))
    requires r in req.plan.value.ir && SaysMade(env.run.actions, r) && r in env.stuck
    requires Alone(req.plan.value.resources, i) && req.plan.value.resources[i].physical == r.name
    requires !AsksToKeep(sent, onFailure) && !Declares(req.template, req.plan.value.resources[i].logical, Retain)
    ensures stored.status == RollbackFailed
  {
    AloneRetained(req.template, req.plan.value.resources, i);
    hide DeployWorld, Retains, SaysMade, Stopped, Applied, Destroyed, AttemptedOf, MarkedAll, UndoneAll, Blamed, Alone, Declares;
    var prev, run := Lookup(stacks, name), env.run;
    var done :| Recorded(prev, name, req, false, PolicyOf(sent.disableRollback == Some(true), onFailure), env, w, w', done)
                && stored == Refielded(done, sent);
    var undo := ToUndo(req.plan.value.ir, run.actions, req.template, req.plan.value.resources);
    assert r in undo * env.stuck;
    assert r.name in NamesOf(undo * env.stuck);
  }

  /** An update that succeeds has all its template names, and of what only the previous template named it leaves
      exactly what that declares Retain or RetainExceptOnCreate, or what cannot be deleted. */
  lemma UpdateLeaves(stacks: Store, name: string, req: Request, sent: Sent, onFailure: string, env: Env,
                     w: set<Res>, w': set<Res>, stored: Record, r: Res, i: nat)
    requires DeployedAndFielded(stacks, name, req, true, sent, onFailure, env, w, w', stored) && Lookup(stacks, name).Some?
    requires env.run.error.None? && !Stopped(w, req.plan.value.ir, Lookup(stacks, name), env)
    requires env.prevIR.Some? && r in env.prevIR.value && r in w
    requires var rs := Lookup(stacks, name).value.resources; Alone(rs, i) && rs[i].physical == r.name
    ensures req.plan.value.ir <= w' && stored.status == Complete(UPDATE)
    ensures var prev := Lookup(stacks, name).value;
            var t, logical := prev.settings.template, prev.resources[i].logical;
            r in w' <==> r in req.plan.value.ir || Declares(t, logical, Retain) || Declares(t, logical, RetainExceptOnCreate) || r in env.stuck
  {
    var prev := Lookup(stacks, name).value;
    AloneRetained(prev.settings.template, prev.resources, i);
    hide Retains, SaysMade, Stopped, Alone, Declares, PolicyOf;
    var policy := PolicyOf(sent.disableRollback == Some(true), onFailure);
    var done :| Recorded(Lookup(stacks, name), name, req, true, policy, env, w, w', done) && stored == Refielded(done, sent);
    assert stored.status == done.status;
  }

  // ---- Deleting ----

  /** Deleting the stack a create made undoes it, but for what the template retains, exactly when nothing it
      lets go, of a kind that is not looked for, was there before. */
  lemma DeleteUndoesCreateIff(world: set<Res>, plan: Plan, t: Template, policy: FailurePolicy, env: Env, st: Record)
    requires env.run.error.None? && !Stopped(world, plan.ir, None, Seen(env, None, false)) && st.status != RollbackComplete
    ensures var created := DeployWorld(world, plan, t, None, false, policy, env);
            var gone := Unretained(plan.ir, st.settings.template, st.resources, false);
            AfterDelete(created, Some(plan.ir), st, {}) == world + (plan.ir - gone)
            <==> forall r :: r in gone && !Probed(r.kind) ==> r !in world
  {
    var gone := Unretained(plan.ir, st.settings.template, st.resources, false);
    var created := DeployWorld(world, plan, t, None, false, policy, env);
    assert created == world + plan.ir;
    forall r | r in gone && r in world
      ensures !Probed(r.kind)
    {
      NothingTaken(world, plan.ir, None, Seen(env, None, false), r);
    }
    hide Probed, Stopped, DeployWorld;
    assert gone - {} == gone;
    var after, want := AfterDelete(created, Some(plan.ir), st, {}), world + (plan.ir - gone);
    assert after == (world + plan.ir) - gone;
    if r :| r in gone && r in world {
      assert r in want && r !in after;
    } else {
      assert after == want;
    }
  }

  /** Deleting a stack leaves, of what it named and is alone under its name, exactly what its template declares
      Retain or RetainExceptOnCreate, or what cannot be deleted; a stack whose create was rolled back lets nothing go. */
  lemma DeleteLeaves(world: set<Res>, ir: set<Res>, st: Record, stuck: set<Res>, r: Res, i: nat)
    requires r in ir && r in world && Alone(st.resources, i) && st.resources[i].physical == r.name
    ensures var t, logical := st.settings.template, st.resources[i].logical;
            r in AfterDelete(world, Some(ir), st, stuck)
            <==> st.status == RollbackComplete || Declares(t, logical, Retain) || Declares(t, logical, RetainExceptOnCreate) || r in stuck
  {
    AloneRetained(st.settings.template, st.resources, i);
    hide Retains, Alone, Declares;
  }

  /** A create refused for a resource that was there, and kept as it failed, made nothing. Deleting its record
      leaves the account as it was exactly when its template lets nothing go that was there. */
  lemma DeletingRefusedCreateIff(world: set<Res>, name: string, req: Request, env: Env, w': set<Res>, rec: Record)
    requires req.plan.Some? && Stopped(world, req.plan.value.ir, None, Seen(env, None, false))
    requires Recorded(None, name, req, false, Keep, env, world, w', rec)
    ensures w' == world && rec.status == Failure(CREATE)
    ensures AfterDelete(w', Some(req.plan.value.ir), rec, {}) == world
            <==> Unretained(req.plan.value.ir, req.template, rec.resources, false) !! world
  {
    hide Unretained, AttemptedOf, MarkedAll, Stopped;
    var seen := Seen(env, None, false);
    assert RunOf(world, req.plan.value.ir, None, seen) == ApplyRun(Some(Failed("")), {}, []);
    assert Applied(world, req.plan.value.ir, RunOf(world, req.plan.value.ir, None, seen)) == world;
    var gone := Unretained(req.plan.value.ir, req.template, rec.resources, false);
    assert gone - {} == gone;
    assert AfterDelete(w', Some(req.plan.value.ir), rec, {}) == world - gone;
    if r :| r in gone && r in world {
      assert r !in world - gone;
    } else {
      assert world - gone == world;
    }
  }

  /** A create of a queue that is there already, kept as it failed: the stack made nothing, and deleting it
      deletes the queue. */
  lemma DeletingRefusedQueue(t: Template, req: Request, env: Env, w': set<Res>, rec: Record)
    requires req.plan == Some(Plan({Res(Queue, "q")}, [], [], [], [])) && env.probeError.None?
    requires Recorded(None, "s", req, false, Keep, env, {Res(Queue, "q")}, w', rec)
    ensures w' == {Res(Queue, "q")} && AfterDelete(w', Some({Res(Queue, "q")}), rec, {}) == {}
  {
    var q := Res(Queue, "q");
    assert q in Colliding({q}, {q}, {});
    DeletingRefusedCreateIff({q}, "s", req, env, w', rec);
    assert rec.resources == [];
    assert q in Unretained({q}, req.template, [], false);
  }

  // ---- Where the last line of a report misleads ----

  /** A bucket made and then configured is last reported "updated", and outlives the rollback. */
  lemma ConfiguredBucketIsLeft(t: Template)
    ensures var b := Res(Bucket, "b");
            AfterCreateRollback({}, {b}, ApplyRun(Some(Failed("")), {b}, [Action(Created, b), Action(Updated, b)]), t, [], {}) == {b}
  {
    var b := Res(Bucket, "b");
    assert LastOp([Action(Created, b), Action(Updated, b)], b) == Some(Updated);
    assert ToUndo({b}, [Action(Created, b), Action(Updated, b)], t, []) == {};
  }

  /** A rule is reported under its bus and its name, and not recognised as the one the template names. */
  lemma RuleIsLeft(t: Template)
    ensures var r := Res(Rule, "r");
            AfterCreateRollback({}, {r}, ApplyRun(Some(Failed("")), {r}, [Action(Updated, Res(Rule, "default/r"))]), t, [], {}) == {r}
  {
    var actions := [Action(Updated, Res(Rule, "default/r"))];
    assert Res(Rule, "default/r").name[0] != Res(Rule, "r").name[0];
    assert actions[..0] == [];
    assert LastOp(actions, Res(Rule, "r")) == None;
    assert ToUndo({Res(Rule, "r")}, actions, t, []) == {};
  }

  /** A layer is not looked for, and one whose content differs is reported "published": it goes with the
      rollback. */
  lemma LayerIsTaken(t: Template, plan: Plan, env: Env)
    requires plan.ir == {Res(Layer, "l")} && plan.resources == [] && env.probeError.None? && env.stuck == {}
    requires env.run == ApplyRun(Some(Failed("")), {Res(Layer, "l")}, [Action(Published, Res(Layer, "l"))])
    ensures !Stopped({Res(Layer, "l")}, plan.ir, None, Seen(env, None, false))
    ensures DeployWorld({Res(Layer, "l")}, plan, t, None, false, RollBack, env) == {}
  {
    var l := Res(Layer, "l");
    assert Colliding({l}, plan.ir, {}) == {};
    assert LastOp(env.run.actions, l) == Some(Published);
    LostIff({l}, plan, t, None, false, RollBack, env, l);
    forall r | r != l
      ensures r !in DeployWorld({l}, plan, t, None, false, RollBack, env)
    {
      OthersUntouched({l}, plan, t, None, false, RollBack, env, r);
    }
  }

  /** A stack owns a queue, and an update adds an alarm of that name, which is there already, and a dashboard.
      The name is the stack's own, so the alarm is not looked for; putting it reports "updated", which for an
      alarm means made; and when the dashboard fails, the rollback deletes the alarm. */
  lemma AdoptedAlarmIsLost(t: Template, prev: Record, env: Env, q: Res, a: Res, d: Res, reapply: ApplyRun)
    requires q.kind.Queue? && a == Res(Alarm, q.name) && d.kind.Dashboard?
    requires env.prevIR == Some({q}) && env.probeError.None?
    ensures var world, plan := {q, a}, Plan({q, a, d}, [], [], [], []);
            && Follows(AlarmScript(q, a, d), plan.ir, world, AlarmTraits(q, a, d))
            && !Stopped(world, plan.ir, Some(prev), Seen(env, Some(prev), true))
            && a !in DeployWorld(world, plan, t, Some(prev), true, RollBack, FailsAt(env, AlarmScript(q, a, d), 2, "", {}, reapply))
  {
    hide DeployWorld, Follows;
    AlarmScriptFollows(q, a, d);
    var world, plan, script := {q, a}, Plan({q, a, d}, [], [], [], []), AlarmScript(q, a, d);
    assert Colliding(world, plan.ir, Owned(Some(prev), env.prevIR)) == {} by {
      assert q.name in NamesOf(env.prevIR.value);
    }
    assert SaysMade(Lines(script[..2]), a) by {
      LastLine(script[..2], a);
    }
    hide AlarmScript, AlarmTraits, SaysMade, Lines, MadeBy, Colliding, Owned;
    LostWhen(world, plan, t, Some(prev), true, RollBack, FailsAt(env, script, 2, "", {}, reapply), a);
  }

  function AlarmTraits(q: Res, a: Res, d: Res): map<Res, Traits> {
    var plain := Traits(0, false, "", []);
    map[q := plain, a := plain, d := plain]
  }

  function AlarmScript(q: Res, a: Res, d: Res): (script: seq<Call>)
    ensures |script| == 3
    ensures script[0] == Call(q, false, Some(Action(Skipped, q)))
    ensures script[1] == Call(a, false, Some(Action(Updated, a)))
    ensures script[2] == Call(d, true, Some(Action(Updated, d)))
  {
    [Call(q, false, Some(Action(Skipped, q))), Call(a, false, Some(Action(Updated, a))), Call(d, true, Some(Action(Updated, d)))]
  }

  lemma AlarmScriptFollows(q: Res, a: Res, d: Res)
    requires q.kind.Queue? && a == Res(Alarm, q.name) && d.kind.Dashboard?
    ensures Follows(AlarmScript(q, a, d), {q, a, d}, {q, a}, AlarmTraits(q, a, d))
  {
    var script, traits := AlarmScript(q, a, d), AlarmTraits(q, a, d);
    assert OnlyCall(q, traits[q], true) == script[0];
    assert OnlyCall(a, traits[a], true) == script[1];
    assert OnlyCall(d, traits[d], false) == script[2];
    OneEachFollows(script, {q, a, d}, {q, a}, traits);
  }
}
