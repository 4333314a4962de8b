/** Automatic deployments: what a change to an HTTP API makes for its auto-deploy stages, and how many stay. */
module AutoDeploys {
  import opened Text
  import opened Sorting
  import opened HttpRecord

  /** How many automatic deployments stay beyond the ones stages point at. */
  const KEPT: nat := 10

  const AUTOMATIC: string := "Automatic deployment triggered by changes to the Api configuration"

  // ---- Pruning ----

  /** When a deployment was made, and its id. */
  datatype Age = Age(created: nat, id: string)

  predicate Newer(a: Age, b: Age) {
    a.created > b.created || (a.created == b.created && Before(b.id, a.id))
  }

  lemma NewerIsStrictTotal()
    ensures StrictTotal(Newer)
  {
    forall a: Age, b: Age
      ensures (Newer(a, b) || Newer(b, a) || a == b) && !Newer(a, a)
    {
      BeforeTotal(a.id, b.id);
      BeforeTotal(a.id, a.id);
    }
    forall a: Age, b: Age, c: Age | Newer(a, b) && Newer(b, c)
      ensures Newer(a, c)
    {
      if a.created == b.created == c.created {
        BeforeTransitive(c.id, b.id, a.id);
      }
    }
  }

  /** An automatic deployment that no stage serves. */
  ghost predicate Spare(stages: map<string, Stage>, deployments: map<string, Deployment>, d: string) {
    d in deployments && deployments[d].automatic && forall n :: n in stages ==> stages[n].deployment != d
  }

  ghost function SpareAges(stages: map<string, Stage>, deployments: map<string, Deployment>): set<Age> {
    set d | d in deployments && Spare(stages, deployments, d) :: Age(deployments[d].created, d)
  }

  /** Whether a deployment stays: a spare one only if fewer than KEPT spare ones are newer. */
  ghost predicate Stays(stages: map<string, Stage>, deployments: map<string, Deployment>, d: string)
    requires d in deployments
  {
    Spare(stages, deployments, d) ==>
      |Preceding(SpareAges(stages, deployments), Age(deployments[d].created, d), Newer)| < KEPT
  }

  ghost predicate PrunedTo(stages: map<string, Stage>, before: map<string, Deployment>, after: map<string, Deployment>) {
    && (forall d :: d in after <==> d in before && Stays(stages, before, d))
    && (forall d :: d in after ==> after[d] == before[d])
  }

  /** The ages with KEPT newer ones or more. */
  method OldAges(ages: set<Age>) returns (old_: set<Age>)
    ensures forall a :: a in old_ <==> a in ages && |Preceding(ages, a, Newer)| >= KEPT
  {
    hide Newer, StrictTotal;
    NewerIsStrictTotal();
    var auto := SortSet(ages, Newer);
    FirstRanks(auto, ages, 0, Newer);
    if |ages| <= KEPT {
      FirstRanks(auto, ages, |ages|, Newer);
      assert auto[..|ages|] == auto;
      return {};
    }
    FirstRanks(auto, ages, KEPT, Newer);
    SplitAges(auto, ages);
    old_ := set a | a in auto[KEPT..];
  }

  /** The first KEPT and the rest share nothing. */
  lemma SplitAges(s: seq<Age>, ages: set<Age>)
    requires StrictTotal(Newer) && Enumerates(s, ages, Newer) && |s| > KEPT
    ensures forall a :: a in s[KEPT..] <==> a in ages && a !in ToSet(s[..KEPT])
  {
    hide Newer;
    assert s == s[..KEPT] + s[KEPT..];
    assert forall a :: a in s <==> a in ToSet(s);
    forall i, j | 0 <= i < KEPT && 0 <= j < |s| - KEPT
      ensures s[..KEPT][i] != s[KEPT..][j]
    {
      assert Newer(s[i], s[KEPT + j]);
    }
  }

  method Prune(stages: map<string, Stage>, deployments: map<string, Deployment>) returns (pruned: map<string, Deployment>)
    ensures PrunedTo(stages, deployments, pruned)
  {
    hide Newer, Preceding;
    var inUse := set n | n in stages :: stages[n].deployment;
    var auto := set d | d in deployments && deployments[d].automatic && d !in inUse :: Age(deployments[d].created, d);
    assert auto == SpareAges(stages, deployments);
    var old_ := OldAges(auto);
    var drop := set a | a in old_ :: a.id;
    pruned := map d | d in deployments && d !in drop :: deployments[d];
    forall d | d in deployments
      ensures d in drop <==> !Stays(stages, deployments, d)
    {
      var a := Age(deployments[d].created, d);
      assert a in auto <==> Spare(stages, deployments, d);
      if d in drop {
        var b :| b in old_ && b.id == d;
        assert b in auto && a == b;
      }
    }
  }

  /** What a stage serves is never pruned, nor is a deployment made by hand. */
  lemma PruningSpares(stages: map<string, Stage>, before: map<string, Deployment>, after: map<string, Deployment>)
    requires PrunedTo(stages, before, after)
    ensures StagesServe(stages, before) ==> StagesServe(stages, after)
    ensures forall d :: d in before && !before[d].automatic ==> d in after
  {
    hide Preceding, SpareAges;
  }

  /** At most KEPT spare deployments stay. */
  lemma PruningBounds(stages: map<string, Stage>, before: map<string, Deployment>, after: map<string, Deployment>)
    requires PrunedTo(stages, before, after)
    ensures |SpareAges(stages, after)| <= KEPT
  {
    hide Preceding, Newer;
    var all, left := SpareAges(stages, before), SpareAges(stages, after);
    forall a | a in left
      ensures a in all && |Preceding(all, a, Newer)| < KEPT
    {
      assert Spare(stages, after, a.id) && Spare(stages, before, a.id) && Stays(stages, before, a.id);
      assert a == Age(before[a.id].created, a.id);
    }
    FewFirst(all, left);
  }

  /** The spare deployments. */
  ghost function Spares(stages: map<string, Stage>, deployments: map<string, Deployment>): set<string> {
    set d | d in deployments && Spare(stages, deployments, d)
  }

  /** Of the spare deployments the ten last made stay, or all if there are no more; of two made at one time the
      one with the later id is the later. */
  lemma PruningKeepsNewest(stages: map<string, Stage>, before: map<string, Deployment>, after: map<string, Deployment>)
    requires PrunedTo(stages, before, after)
    ensures |Spares(stages, after)| == if |Spares(stages, before)| < 10 then |Spares(stages, before)| else 10
    ensures forall d, e :: d in before && d !in after && e in Spares(stages, after) ==>
              before[d].created < before[e].created
              || (before[d].created == before[e].created && (d <= e || exists i: nat :: BeforeAt(d, e, i)))
  {
    AgesOfSpares(stages, before);
    AgesOfSpares(stages, after);
    ManyLeft(stages, before, after);
    hide Spares;
    forall d, e | d in before && d !in after && e in Spares(stages, after)
      ensures before[d].created < before[e].created
              || (before[d].created == before[e].created && (d <= e || exists i: nat :: BeforeAt(d, e, i)))
    {
      DroppedIsOlder(stages, before, after, d, e);
      BeforeIff(d, e);
    }
  }

  lemma AgesOfSpares(stages: map<string, Stage>, deployments: map<string, Deployment>)
    ensures |Spares(stages, deployments)| == |SpareAges(stages, deployments)|
  {
    SameNumber(Spares(stages, deployments), SpareAges(stages, deployments), deployments);
  }

  lemma {:induction false} SameNumber(ids: set<string>, ages: set<Age>, deployments: map<string, Deployment>)
    requires ids <= deployments.Keys && ages == set d | d in ids :: Age(deployments[d].created, d)
    ensures |ids| == |ages|
    decreases |ids|
  {
    if d :| d in ids {
      var a := Age(deployments[d].created, d);
      forall x
        ensures x in ages - {a} <==> exists e :: e in ids - {d} && Age(deployments[e].created, e) == x
      {
        if x in ages - {a} {
          assert x.id in ids - {d};
        }
      }
      SameNumber(ids - {d}, ages - {a}, deployments);
    }
  }

  /** What stays are those of the spare ages with fewer than KEPT newer ones, and there are KEPT of these or all. */
  lemma ManyLeft(stages: map<string, Stage>, before: map<string, Deployment>, after: map<string, Deployment>)
    requires PrunedTo(stages, before, after)
    ensures var all := SpareAges(stages, before);
            |SpareAges(stages, after)| == if |all| < KEPT then |all| else KEPT
  {
    hide Newer, StrictTotal, Preceding;
    NewerIsStrictTotal();
    var all, left := SpareAges(stages, before), SpareAges(stages, after);
    var s := Enum(all, Newer);
    var n := if |all| < KEPT then |all| else KEPT;
    FirstRanks(s, all, 0, Newer);
    FirstRanks(s, all, n, Newer);
    forall a
      ensures a in left <==> a in all && |Preceding(all, a, Newer)| < KEPT
    {
      LeftIff(stages, before, after, a);
    }
    if |all| < KEPT {
      assert s[..n] == s;
      FewPrecede(all);
      assert left == all;
    } else {
      assert left == ToSet(s[..n]);
    }
  }

  lemma FewPrecede(all: set<Age>)
    ensures forall a :: a in all ==> |Preceding(all, a, Newer)| <= |all|
  {
    forall a | a in all
      ensures |Preceding(all, a, Newer)| <= |all|
    {
      SubsetSize(Preceding(all, a, Newer), all);
    }
  }

  lemma LeftIff(stages: map<string, Stage>, before: map<string, Deployment>, after: map<string, Deployment>, a: Age)
    requires PrunedTo(stages, before, after)
    ensures a in SpareAges(stages, after) <==> a in SpareAges(stages, before) && |Preceding(SpareAges(stages, before), a, Newer)| < KEPT
  {
    hide Preceding, Newer;
    var d := a.id;
    assert a in SpareAges(stages, after) <==> Spare(stages, after, d) && a == Age(after[d].created, d);
    assert a in SpareAges(stages, before) <==> Spare(stages, before, d) && a == Age(before[d].created, d);
    hide SpareAges;
  }

  lemma DroppedIsOlder(stages: map<string, Stage>, before: map<string, Deployment>, after: map<string, Deployment>, d: string, e: string)
    requires PrunedTo(stages, before, after) && d in before && d !in after && e in Spares(stages, after)
    ensures before[d].created < before[e].created || (before[d].created == before[e].created && Before(d, e))
  {
    var all, a, b := SpareAges(stages, before), Age(before[d].created, d), Age(before[e].created, e);
    LeftIff(stages, before, after, b);
    assert a in all && |Preceding(all, a, Newer)| >= KEPT;
    assert b in all && |Preceding(all, b, Newer)| < KEPT;
    hide SpareAges, PrunedTo, Spares;
    NewerIsStrictTotal();
    if Newer(a, b) {
      assert forall x :: Newer(x, a) ==> Newer(x, b) by {
        hide Newer;
      }
      SubsetSize(Preceding(all, a, Newer), Preceding(all, b, Newer));
    }
  }

  /** Fewer than KEPT before each leaves no more than KEPT. */
  lemma FewFirst(all: set<Age>, left: set<Age>)
    requires forall a :: a in left ==> a in all && |Preceding(all, a, Newer)| < KEPT
    ensures |left| <= KEPT
  {
    hide Newer, StrictTotal, Preceding;
    NewerIsStrictTotal();
    var s := Enum(all, Newer);
    FirstRanks(s, all, 0, Newer);
    var n := if |all| < KEPT then |all| else KEPT;
    FirstRanks(s, all, n, Newer);
    if |all| < KEPT {
      SubsetSize(left, all);
    } else {
      SubsetSize(left, ToSet(s[..n]));
    }
  }

  // ---- Deploying ----

  /** Each auto-deploy stage serves a deployment of its own, one of these ids; the others are as they were. */
  ghost predicate Redeployed(before: map<string, Stage>, after: map<string, Stage>, ids: seq<string>, now: nat) {
    && after.Keys == before.Keys
    && (forall n :: n in before ==>
          if before[n].autoDeploy then after[n] == before[n].(deployment := after[n].deployment, updated := now) && after[n].deployment in ids
          else after[n] == before[n])
    && (forall m, n :: m in before && n in before && m != n && before[m].autoDeploy && before[n].autoDeploy ==>
          after[m].deployment != after[n].deployment)
  }

  /** The deployments made for the auto-deploy stages. */
  function NewDeployments(before: map<string, Stage>, after: map<string, Stage>, now: nat): map<string, Deployment>
    requires after.Keys == before.Keys
  {
    var made := set n | n in before && before[n].autoDeploy :: after[n].deployment;
    map d | d in made :: Deployment(d, now, true, AUTOMATIC)
  }

  /** What a change makes of an API once its auto-deploy stages are served anew. */
  ghost predicate AutoDeployed(api: Api, after: Api, ids: seq<string>, now: nat) {
    && after == api.(stages := after.stages, deployments := after.deployments)
    && Redeployed(api.stages, after.stages, ids, now)
    && PrunedTo(after.stages, api.deployments + NewDeployments(api.stages, after.stages, now), after.deployments)
  }

  /** The deployments made so far, rest being the stages still to come. */
  function Served(before: map<string, Stage>, stages: map<string, Stage>, rest: set<string>): set<string>
    requires stages.Keys == before.Keys
  {
    set n | n in before && n !in rest && before[n].autoDeploy :: stages[n].deployment
  }

  ghost predicate Deploying(before: map<string, Stage>, stages: map<string, Stage>, rest: set<string>, now: nat)
    requires stages.Keys == before.Keys
  {
    && (forall n :: n in before ==>
          stages[n] == if n in rest || !before[n].autoDeploy then before[n]
                       else before[n].(deployment := stages[n].deployment, updated := now))
    && (forall m, n :: m in before && n in before && m != n && m !in rest && n !in rest && before[m].autoDeploy && before[n].autoDeploy ==>
          stages[m].deployment != stages[n].deployment)
  }

  ghost predicate Gained(before: map<string, Deployment>, deployments: map<string, Deployment>, made: set<string>, now: nat) {
    && deployments.Keys == before.Keys + made
    && forall d :: d in deployments ==> deployments[d] == if d in made then Deployment(d, now, true, AUTOMATIC) else before[d]
  }

  /** Deploys for each auto-deploy stage, in whatever order the stages come. */
  method AutoDeploy(api: Api, ids: seq<string>, now: nat) returns (after: Api)
    requires |ids| >= |api.stages| && Unused(ids, api)
    ensures AutoDeployed(api, after, ids, now)
  {
    hide PrunedTo, Deploying, Served, Gained;
    var before := api.stages;
    var stages, deployments := before, api.deployments;
    var rest := before.Keys;
    var next := 0;
    DeployingStarts(api, now);
    while rest != {}
      invariant rest <= before.Keys && 0 <= next <= |before.Keys| - |rest|
      invariant stages.Keys == before.Keys && Deploying(before, stages, rest, now)
      invariant Served(before, stages, rest) <= set i | 0 <= i < next :: ids[i]
      invariant Gained(api.deployments, deployments, Served(before, stages, rest), now)
      decreases rest
    {
      var n :| n in rest;
      if before[n].autoDeploy {
        var id := ids[next];
        assert id !in Served(before, stages, rest);
        DeployingStep(before, stages, rest, now, n, id);
        GainedOne(api.deployments, deployments, Served(before, stages, rest), now, id);
        deployments := deployments[id := Deployment(id, now, true, AUTOMATIC)];
        stages := stages[n := stages[n].(deployment := id, updated := now)];
        next := next + 1;
      } else {
        DeployingSkip(before, stages, rest, now, n);
      }
      rest := rest - {n};
    }
    DeployingDone(api, stages, deployments, ids, now);
    var pruned := Prune(stages, deployments);
    after := api.(stages := stages, deployments := pruned);
  }

  lemma DeployingStarts(api: Api, now: nat)
    ensures Deploying(api.stages, api.stages, api.stages.Keys, now)
    ensures Served(api.stages, api.stages, api.stages.Keys) == {}
    ensures Gained(api.deployments, api.deployments, {}, now)
  {
  }

  lemma DeployingStep(before: map<string, Stage>, stages: map<string, Stage>, rest: set<string>, now: nat, n: string, id: string)
    requires stages.Keys == before.Keys && rest <= stages.Keys && Deploying(before, stages, rest, now)
    requires n in rest && before[n].autoDeploy && id !in Served(before, stages, rest)
    ensures var stages' := stages[n := stages[n].(deployment := id, updated := now)];
            Deploying(before, stages', rest - {n}, now) && Served(before, stages', rest - {n}) == Served(before, stages, rest) + {id}
  {
    var stages' := stages[n := stages[n].(deployment := id, updated := now)];
    StaysDeploying(before, stages, rest, now, n, id);
    hide Deploying;
    forall d
      ensures d in Served(before, stages', rest - {n}) <==> d in Served(before, stages, rest) + {id}
    {
      if d in Served(before, stages', rest - {n}) {
        ServesNoMore(before, stages, rest, now, n, id, d);
      }
      if d in Served(before, stages, rest) + {id} {
        ServesAsWell(before, stages, rest, now, n, id, d);
      }
    }
  }

  lemma StaysDeploying(before: map<string, Stage>, stages: map<string, Stage>, rest: set<string>, now: nat, n: string, id: string)
    requires stages.Keys == before.Keys && Deploying(before, stages, rest, now)
    requires n in rest && n in before && before[n].autoDeploy && id !in Served(before, stages, rest)
    ensures Deploying(before, stages[n := stages[n].(deployment := id, updated := now)], rest - {n}, now)
  {
    forall m | m in before && m !in rest && before[m].autoDeploy
      ensures stages[m].deployment != id
    {
      assert stages[m].deployment in Served(before, stages, rest);
    }
    hide Served;
  }

  lemma ServesNoMore(before: map<string, Stage>, stages: map<string, Stage>, rest: set<string>, now: nat, n: string, id: string, d: string)
    requires stages.Keys == before.Keys && n in rest && n in before && before[n].autoDeploy
    requires d in Served(before, stages[n := stages[n].(deployment := id, updated := now)], rest - {n})
    ensures d in Served(before, stages, rest) + {id}
  {
  }

  lemma ServesAsWell(before: map<string, Stage>, stages: map<string, Stage>, rest: set<string>, now: nat, n: string, id: string, d: string)
    requires stages.Keys == before.Keys && n in rest && n in before && before[n].autoDeploy
    requires d in Served(before, stages, rest) + {id}
    ensures d in Served(before, stages[n := stages[n].(deployment := id, updated := now)], rest - {n})
  {
    var stages' := stages[n := stages[n].(deployment := id, updated := now)];
    if d == id {
      assert stages'[n].deployment == d;
    } else {
      var m :| m in before && m !in rest && before[m].autoDeploy && stages[m].deployment == d;
      assert stages'[m].deployment == d;
    }
  }

  lemma DeployingSkip(before: map<string, Stage>, stages: map<string, Stage>, rest: set<string>, now: nat, n: string)
    requires stages.Keys == before.Keys && Deploying(before, stages, rest, now) && n in rest && rest <= stages.Keys && !before[n].autoDeploy
    ensures Deploying(before, stages, rest - {n}, now) && Served(before, stages, rest - {n}) == Served(before, stages, rest)
  {
  }

  lemma GainedOne(before: map<string, Deployment>, deployments: map<string, Deployment>, made: set<string>, now: nat, id: string)
    requires Gained(before, deployments, made, now)
    ensures Gained(before, deployments[id := Deployment(id, now, true, AUTOMATIC)], made + {id}, now)
  {
  }

  lemma DeployingDone(api: Api, stages: map<string, Stage>, deployments: map<string, Deployment>, ids: seq<string>, now: nat)
    requires stages.Keys == api.stages.Keys && Deploying(api.stages, stages, {}, now)
    requires forall d :: d in Served(api.stages, stages, {}) ==> d in ids
    requires Gained(api.deployments, deployments, Served(api.stages, stages, {}), now)
    ensures Redeployed(api.stages, stages, ids, now)
    ensures deployments == api.deployments + NewDeployments(api.stages, stages, now)
  {
    assert forall m :: m in stages && api.stages[m].autoDeploy ==> stages[m].deployment in Served(api.stages, stages, {});
    NewIsGained(api, stages, deployments, now);
    hide NewDeployments, Gained;
  }

  lemma NewIsGained(api: Api, stages: map<string, Stage>, deployments: map<string, Deployment>, now: nat)
    requires stages.Keys == api.stages.Keys && Gained(api.deployments, deployments, Served(api.stages, stages, {}), now)
    ensures deployments == api.deployments + NewDeployments(api.stages, stages, now)
  {
    assert NewDeployments(api.stages, stages, now).Keys == Served(api.stages, stages, {});
    hide Served;
  }

  /** What stages serve is there once their new deployments are. */
  lemma RedeployedServe(before: map<string, Stage>, after: map<string, Stage>, deployments: map<string, Deployment>, ids: seq<string>, now: nat)
    requires StagesServe(before, deployments) && Redeployed(before, after, ids, now)
    ensures StagesServe(after, deployments + NewDeployments(before, after, now))
  {
    forall n | n in after && before[n].autoDeploy
      ensures after[n].deployment in NewDeployments(before, after, now)
    {
    }
  }

  /** After a change each auto-deploy stage serves a deployment that was not there before, was made just then and
      counts as automatic; any other stage is as it was. */
  lemma AutoDeployServesNew(api: Api, after: Api, ids: seq<string>, now: nat, n: string)
    requires Unused(ids, api) && AutoDeployed(api, after, ids, now) && n in api.stages
    ensures n in after.stages
    ensures !api.stages[n].autoDeploy ==> after.stages[n] == api.stages[n]
    ensures api.stages[n].autoDeploy ==>
              var d := after.stages[n].deployment;
              && d !in api.deployments && d in after.deployments
              && after.deployments[d].id == d && after.deployments[d].created == now && after.deployments[d].automatic
              && after.stages[n].updated == now && after.stages[n].autoDeploy
  {
    if api.stages[n].autoDeploy {
      var d, all := after.stages[n].deployment, api.deployments + NewDeployments(api.stages, after.stages, now);
      assert d in NewDeployments(api.stages, after.stages, now);
      assert !Spare(after.stages, all, d);
      assert Stays(after.stages, all, d);
    }
    hide Stays, SpareAges, Spare;
  }

  /** A change that keeps every reference keeps them through the deployments it makes and prunes. */
  lemma AutoDeployStaysSound(api: Api, after: Api, ids: seq<string>, now: nat)
    requires Sound(api) && AutoDeployed(api, after, ids, now)
    ensures Sound(after)
  {
    RedeployedKeys(api.stages, after.stages, ids, now);
    hide PrunedTo, RouteHolds, KeysDistinct, Redeployed, NewDeployments, StagesServe;
    RedeployedServe(api.stages, after.stages, api.deployments, ids, now);
    PruningSpares(after.stages, api.deployments + NewDeployments(api.stages, after.stages, now), after.deployments);
    forall i | i in api.routes
      ensures RouteHolds(after.routes[i], after)
    {
      SameReferences(api.routes[i], api, after);
    }
  }

  lemma RedeployedKeys(before: map<string, Stage>, after: map<string, Stage>, ids: seq<string>, now: nat)
    requires Redeployed(before, after, ids, now)
    ensures after.Keys == before.Keys
  {
  }

  lemma SameReferences(rt: Route, api: Api, after: Api)
    requires after.integrations == api.integrations && after.authorizers == api.authorizers
    ensures RouteHolds(rt, api) == RouteHolds(rt, after)
  {
  }
}
