/** The HTTP API handlers. Each works on a decoded copy of the record and stores it only if it succeeds. */
module HttpApi {
  import opened Wrappers
  import opened Text
  import opened RouteKeys
  import opened HttpRecord
  import opened AutoDeploys

  /** The integration fields that decide whether the data plane can run it. */
  datatype IntegrationInput = IntegrationInput(kind: Option<string>, subtype: string, uri: Option<string>, verb: Option<string>,
                                               payload: Option<string>, vpcLink: bool)

  predicate IsHttpUrl(uri: string) {
    "http://" <= uri || "https://" <= uri
  }

  /** The integration with the fields a request sent in place of its own. */
  function AskedIntegration(i: Integration, input: IntegrationInput): Integration {
    i.(kind := if input.kind.Some? then ToUpper(input.kind.value) else i.kind, uri := Or(input.uri, i.uri),
       verb := if input.verb.Some? then ToUpper(input.verb.value) else i.verb, payload := Or(input.payload, i.payload))
  }

  /** What is filled in for a kind: a function speaks payload 2.0 unless told otherwise, a URL only 1.0. */
  function Completed(i: Integration): Integration {
    if i.kind == "AWS_PROXY" then i.(payload := if i.payload == "" then "2.0" else i.payload)
    else if i.kind == "HTTP_PROXY" then i.(verb := if i.verb == "" then "ANY" else i.verb, payload := "1.0")
    else i
  }

  /** What is sent must be of a kind that runs here, and what is left must name where it runs. */
  predicate IntegrationAdmissible(was: Integration, input: IntegrationInput) {
    var asked := AskedIntegration(was, input);
    && (input.kind.Some? ==> RunsLocally(asked))
    && input.subtype == "" && !input.vpcLink
    && (input.payload.Some? ==> input.payload.value == "1.0" || input.payload.value == "2.0")
    && (asked.kind == "AWS_PROXY" ==> asked.uri != "")
    && (asked.kind == "HTTP_PROXY" ==> IsHttpUrl(asked.uri))
    && asked.kind != ""
  }

  /** Validates and applies an integration's fields. */
  method ApplyIntegrationInput(was: Integration, input: IntegrationInput) returns (r: Result<Integration, Refusal>)
    ensures r.Ok? <==> IntegrationAdmissible(was, input)
    ensures r.Ok? ==> r.value == Completed(AskedIntegration(was, input))
    ensures r.Ok? ==> r.value.id == was.id && (RunsLocally(was) || was.kind == "" ==> RunsLocally(r.value))
  {
    var i := was;
    if input.kind.Some? {
      var kind := ToUpper(input.kind.value);
      if kind != "AWS_PROXY" && kind != "HTTP_PROXY" {
        return Err(BadRequest);
      }
      i := i.(kind := kind);
    }
    if input.subtype != "" {
      return Err(NotImplemented);
    }
    i := i.(uri := Or(input.uri, i.uri));
    if input.verb.Some? {
      i := i.(verb := ToUpper(input.verb.value));
    }
    if input.payload.Some? {
      if input.payload.value != "1.0" && input.payload.value != "2.0" {
        return Err(BadRequest);
      }
      i := i.(payload := input.payload.value);
    }
    if input.vpcLink {
      return Err(NotImplemented);
    }
    if i.kind == "AWS_PROXY" {
      if i.uri == "" {
        return Err(BadRequest);
      }
      if i.payload == "" {
        i := i.(payload := "2.0");
      }
    } else if i.kind == "HTTP_PROXY" {
      if !IsHttpUrl(i.uri) {
        return Err(BadRequest);
      }
      if i.verb == "" {
        i := i.(verb := "ANY");
      }
      i := i.(payload := "1.0");
    } else if i.kind == "" {
      return Err(BadRequest);
    }
    return Result.Ok(i);
  }

  datatype StageInput = StageInput(autoDeploy: Option<bool>, deployment: Option<string>, description: Option<string>,
                                   variables: map<string, string>, logsElsewhere: bool)

  /** The stage with the fields a request sent in place of its own. */
  function AskedStage(st: Stage, input: StageInput): Stage {
    st.(autoDeploy := Or(input.autoDeploy, st.autoDeploy), deployment := Or(input.deployment, st.deployment),
        description := Or(input.description, st.description), variables := st.variables + input.variables)
  }

  /** A deployment that is sent must exist, and access logs must go to a log group. */
  predicate StageAdmissible(api: Api, input: StageInput) {
    && (input.deployment.Some? && input.deployment.value != "" ==> input.deployment.value in api.deployments)
    && !input.logsElsewhere
  }

  method ApplyStageInput(api: Api, was: Stage, input: StageInput) returns (r: Result<Stage, Refusal>)
    ensures r.Ok? <==> StageAdmissible(api, input)
    ensures r.Ok? ==> r.value == AskedStage(was, input)
  {
    var st := was;
    st := st.(autoDeploy := Or(input.autoDeploy, st.autoDeploy));
    if input.deployment.Some? {
      if input.deployment.value != "" && input.deployment.value !in api.deployments {
        return Err(NotFound);
      }
      st := st.(deployment := input.deployment.value);
    }
    st := st.(description := Or(input.description, st.description));
    st := st.(variables := st.variables + input.variables);
    if input.logsElsewhere {
      return Err(BadRequest);
    }
    return Result.Ok(st);
  }

  /** What a stage request makes of the record, before any automatic deployment. */
  function WithStage(api: Api, st: Stage): Api {
    api.(stages := api.stages[st.name := st])
  }

  lemma StageStaysSound(api: Api, was: Stage, input: StageInput, now: nat)
    requires Sound(api) && StageAdmissible(api, input)
    requires was.deployment == "" || was.deployment in api.deployments
    ensures Sound(WithStage(api, AskedStage(was, input).(updated := now)))
  {
    hide RouteHolds;
    forall i | i in api.routes
      ensures RouteHolds(api.routes[i], WithStage(api, AskedStage(was, input).(updated := now)))
    {
      SameReferences(api.routes[i], api, WithStage(api, AskedStage(was, input).(updated := now)));
    }
  }

  /** Adding what no id names yet keeps every reference. */
  lemma MoreStaysSound(api: Api, more: Api)
    requires Sound(api) && more.routes == api.routes && more.stages == api.stages
    requires api.integrations.Keys <= more.integrations.Keys && api.authorizers.Keys <= more.authorizers.Keys
    requires api.deployments.Keys <= more.deployments.Keys
    requires forall i :: i in more.integrations ==> i != "" && more.integrations[i].id == i && RunsLocally(more.integrations[i])
    requires forall i :: i in more.authorizers ==> more.authorizers[i].id == i
    requires forall i :: i in more.deployments ==> more.deployments[i].id == i
    ensures Sound(more)
  {
    hide Normal;
    forall i | i in api.routes
      ensures RouteHolds(api.routes[i], more)
    {
      assert RouteHolds(api.routes[i], api);
    }
  }

  lemma IntegrationStaysSound(api: Api, i: Integration)
    requires Sound(api) && RunsLocally(i) && i.id != ""
    ensures Sound(api.(integrations := api.integrations[i.id := i]))
  {
    hide RouteHolds, KeysDistinct;
    MoreStaysSound(api, api.(integrations := api.integrations[i.id := i]));
  }

  /** Removing what nothing refers to keeps every reference. */
  lemma LessStaysSound(api: Api, less: Api)
    requires Sound(api)
    requires less.routes.Keys <= api.routes.Keys && forall i :: i in less.routes ==> less.routes[i] == api.routes[i]
    requires less.integrations.Keys <= api.integrations.Keys && forall i :: i in less.integrations ==> less.integrations[i] == api.integrations[i]
    requires less.authorizers.Keys <= api.authorizers.Keys && forall i :: i in less.authorizers ==> less.authorizers[i] == api.authorizers[i]
    requires less.stages.Keys <= api.stages.Keys && forall i :: i in less.stages ==> less.stages[i] == api.stages[i]
    requires less.deployments.Keys <= api.deployments.Keys && forall i :: i in less.deployments ==> less.deployments[i] == api.deployments[i]
    requires forall i :: i in less.routes ==>
               && (forall k :: k in api.integrations && k !in less.integrations ==> less.routes[i].target != TargetOf(k))
               && (less.routes[i].authorizer in api.authorizers ==> less.routes[i].authorizer in less.authorizers)
    requires forall n :: n in less.stages && less.stages[n].deployment in api.deployments ==> less.stages[n].deployment in less.deployments
    ensures Sound(less)
  {
    hide Normal;
    forall i | i in less.routes
      ensures RouteHolds(less.routes[i], less)
    {
      var rt := less.routes[i];
      assert RouteHolds(rt, api);
      if rt.target != "" {
        assert rt.target == TargetOf(TrimPrefix(rt.target, TARGET_PREFIX));
      }
    }
  }

  /** The one integration, route, stage and deployment a quick create makes. */
  ghost predicate QuickCreated(before: Api, after: Api, routeKey: string, ids: seq<string>, now: nat)
    requires |ids| >= 3
  {
    && after.routes.Keys == {ids[1]}
    && after.routes[ids[1]].key == (if routeKey == "" then DEFAULT_KEY else Normalised(routeKey))
    && after.routes[ids[1]].target == TargetOf(ids[0])
    && after.integrations.Keys == before.integrations.Keys + {ids[0]}
    && after.stages == map[DEFAULT_KEY := Stage(DEFAULT_KEY, true, ids[2], "", map[], now, now)]
    && after.deployments == before.deployments[ids[2] := Deployment(ids[2], now, true, "")]
  }

  /** The first route and the first stage of an API, leading somewhere. */
  lemma FirstRouteStaysSound(api: Api, route: Route, stage: Stage)
    requires Sound(api) && RouteHolds(route, api) && stage.deployment in api.deployments
    ensures Sound(api.(routes := map[route.id := route], stages := map[stage.name := stage]))
  {
    hide RouteHolds;
    SameReferences(route, api, api.(routes := map[route.id := route], stages := map[stage.name := stage]));
  }

  lemma QuickStaysSound(api: Api, more: Api, next: Api, key: string, route: Route, integ: Integration, dep: Deployment)
    requires Sound(api) && ValidRouteKey(key) && RunsLocally(integ) && integ.id != ""
    requires route.key == Normalised(key) && route.target == TargetOf(integ.id) && route.auth == NONE
    requires more == api.(integrations := api.integrations[integ.id := integ], deployments := api.deployments[dep.id := dep])
    requires next == more.(routes := map[route.id := route],
                           stages := map[DEFAULT_KEY := Stage(DEFAULT_KEY, true, dep.id, "", map[], dep.created, dep.created)])
    ensures Sound(next)
  {
    hide ValidRouteKey, Normalised, TargetOf, Normal, TrimPrefix, Sound, DEFAULT_KEY, TARGET_PREFIX;
    NormalisedIsNormal(key);
    TargetOfNames(integ.id);
    MoreOfBothStaysSound(api, more, integ, dep);
    FirstRouteStaysSound(more, route, Stage(DEFAULT_KEY, true, dep.id, "", map[], dep.created, dep.created));
  }

  lemma MoreOfBothStaysSound(api: Api, more: Api, integ: Integration, dep: Deployment)
    requires Sound(api) && RunsLocally(integ) && integ.id != ""
    requires more == api.(integrations := api.integrations[integ.id := integ], deployments := api.deployments[dep.id := dep])
    ensures Sound(more)
  {
    hide RouteHolds, KeysDistinct;
    MoreStaysSound(api, more);
  }

  class Handlers {
    var api: Api

    ghost predicate Valid()
      reads this
    {
      Sound(api)
    }

    constructor ()
      ensures Valid() && api == Api(map[], map[], map[], map[], map[])
    {
      api := Api(map[], map[], map[], map[], map[]);
    }

    /** CreateApi's target shortcut: one integration, one route and an auto-deploying $default stage. */
    method QuickCreate(target: string, routeKey: string, ids: seq<string>, now: nat) returns (r: Result<string, Refusal>)
      requires Valid() && api.routes == map[] && api.stages == map[]
      requires |ids| >= 3 && Unused(ids, api)
      modifies this
      ensures Valid()
      ensures r.Ok? <==> routeKey == "" || ValidRouteKey(routeKey)
      ensures if r.Err? then api == old(api) else QuickCreated(old(api), api, routeKey, ids, now)
    {
      hide ValidRouteKey, Normalised, Sound, TargetOf, DEFAULT_KEY;
      var integ := if "arn:" <= target then Integration(ids[0], "AWS_PROXY", target, "", "2.0")
                   else Integration(ids[0], "HTTP_PROXY", target, "ANY", "1.0");
      var key := if routeKey == "" then DEFAULT_KEY else routeKey;
      DefaultIsNormal();
      if !ValidRouteKey(key) {
        return Err(BadRequest);
      }
      var route := Route(ids[1], Normalised(key), TargetOf(ids[0]), NONE, "", [], false, "");
      var stage := Stage(DEFAULT_KEY, true, ids[2], "", map[], now, now);
      var next := Api(map[ids[1] := route], api.integrations[ids[0] := integ], api.authorizers, map[DEFAULT_KEY := stage],
                      api.deployments[ids[2] := Deployment(ids[2], now, true, "")]);
      var dep := Deployment(ids[2], now, true, "");
      QuickStaysSound(api, api.(integrations := api.integrations[ids[0] := integ], deployments := api.deployments[ids[2] := dep]),
                      next, key, route, integ, dep);
      api := next;
      return Result.Ok(ids[1]);
    }

    // ---- Routes ----

    method CreateRoute(input: RouteInput, ids: seq<string>, now: nat) returns (r: Result<string, Refusal>)
      requires Valid() && |ids| >= |api.stages| + 1 && Unused(ids, api)
      modifies this
      ensures Valid()
      ensures r.Err? ==> api == old(api)
      ensures var blank := Route(ids[0], "", "", NONE, "", [], false, "");
              && (r.Ok? <==> input.key.Some? && input.key.value != "" && Admissible(old(api), blank, input))
              && (r.Ok? ==> AutoDeployed(old(api).(routes := old(api).routes[ids[0] := Asked(blank, input)]), api, ids[1..], now))
    {
      hide Sound, Admissible, Asked, AutoDeployed;
      if input.key.None? || input.key.value == "" {
        return Err(BadRequest);
      }
      var blank := Route(ids[0], "", "", NONE, "", [], false, "");
      var applied := ApplyRouteInput(api, blank, input);
      if applied.Err? {
        return Err(applied.error);
      }
      AdmittedStaysSound(api, blank, input);
      LaterIds(api, ids, applied.value);
      var next := api.(routes := api.routes[ids[0] := applied.value]);
      var after := AutoDeploy(next, ids[1..], now);
      AutoDeployStaysSound(next, after, ids[1..], now);
      api := after;
      return Result.Ok(ids[0]);
    }

    method UpdateRoute(id: string, input: RouteInput, ids: seq<string>, now: nat) returns (r: Result<string, Refusal>)
      requires Valid() && |ids| >= |api.stages| && Unused(ids, api)
      modifies this
      ensures Valid()
      ensures r.Err? ==> api == old(api)
      ensures r.Ok? <==> id in old(api).routes && Admissible(old(api), old(api).routes[id], input)
      ensures r.Ok? ==> AutoDeployed(old(api).(routes := old(api).routes[id := Asked(old(api).routes[id], input)]), api, ids, now)
    {
      hide Admissible, Asked, AutoDeployed, RouteHolds, StagesServe;
      if id !in api.routes {
        return Err(NotFound);
      }
      var applied := ApplyRouteInput(api, api.routes[id], input);
      if applied.Err? {
        return Err(applied.error);
      }
      AdmittedStaysSound(api, api.routes[id], input);
      var next := api.(routes := api.routes[id := applied.value]);
      var after := AutoDeploy(next, ids, now);
      AutoDeployStaysSound(next, after, ids, now);
      api := after;
      return Result.Ok(id);
    }

    method DeleteRoute(id: string, ids: seq<string>, now: nat) returns (r: Result<string, Refusal>)
      requires Valid() && |ids| >= |api.stages| && Unused(ids, api)
      modifies this
      ensures Valid()
      ensures r.Ok? <==> id in old(api).routes
      ensures if r.Ok? then AutoDeployed(old(api).(routes := old(api).routes - {id}), api, ids, now) else api == old(api)
    {
      hide AutoDeployed, Sound;
      if id !in api.routes {
        return Err(NotFound);
      }
      var next := api.(routes := api.routes - {id});
      LessStaysSound(api, next);
      var after := AutoDeploy(next, ids, now);
      AutoDeployStaysSound(next, after, ids, now);
      api := after;
      return Result.Ok(id);
    }

    // ---- Integrations ----

    method CreateIntegration(input: IntegrationInput, ids: seq<string>, now: nat) returns (r: Result<string, Refusal>)
      requires Valid() && |ids| >= |api.stages| + 1 && Unused(ids, api)
      modifies this
      ensures Valid()
      ensures r.Err? ==> api == old(api)
      ensures var blank := Integration(ids[0], "", "", "", "");
              && (r.Ok? <==> input.kind.Some? && IntegrationAdmissible(blank, input))
              && (r.Ok? ==>
                    AutoDeployed(old(api).(integrations := old(api).integrations[ids[0] := Completed(AskedIntegration(blank, input))]), api, ids[1..], now))
    {
      hide AutoDeployed, Sound, IntegrationAdmissible, Completed, AskedIntegration;
      FirstUnused(api, ids);
      if input.kind.None? {
        return Err(BadRequest);
      }
      var applied := ApplyIntegrationInput(Integration(ids[0], "", "", "", ""), input);
      if applied.Err? {
        return Err(applied.error);
      }
      hide Unused;
      var next := api.(integrations := api.integrations[ids[0] := applied.value]);
      IntegrationStaysSound(api, applied.value);
      LaterIdsOf(api, ids, applied.value);
      var after := AutoDeploy(next, ids[1..], now);
      AutoDeployStaysSound(next, after, ids[1..], now);
      api := after;
      return Result.Ok(ids[0]);
    }

    method UpdateIntegration(id: string, input: IntegrationInput, ids: seq<string>, now: nat) returns (r: Result<string, Refusal>)
      requires Valid() && |ids| >= |api.stages| && Unused(ids, api)
      modifies this
      ensures Valid()
      ensures r.Err? ==> api == old(api)
      ensures r.Ok? <==> id in old(api).integrations && IntegrationAdmissible(old(api).integrations[id], input)
      ensures r.Ok? ==>
                AutoDeployed(old(api).(integrations := old(api).integrations[id := Completed(AskedIntegration(old(api).integrations[id], input))]),
                             api, ids, now)
    {
      hide AutoDeployed, RouteHolds, KeysDistinct, StagesServe, IntegrationAdmissible, Completed, AskedIntegration;
      if id !in api.integrations {
        return Err(NotFound);
      }
      var applied := ApplyIntegrationInput(api.integrations[id], input);
      if applied.Err? {
        return Err(applied.error);
      }
      var next := api.(integrations := api.integrations[id := applied.value]);
      IntegrationStaysSound(api, applied.value);
      var after := AutoDeploy(next, ids, now);
      AutoDeployStaysSound(next, after, ids, now);
      api := after;
      return Result.Ok(id);
    }

    /** Refused while a route targets it. */
    method DeleteIntegration(id: string, ids: seq<string>, now: nat) returns (r: Result<string, Refusal>)
      requires Valid() && |ids| >= |api.stages| && Unused(ids, api)
      modifies this
      ensures Valid()
      ensures r.Ok? <==> id in old(api).integrations && forall i :: i in old(api).routes ==> old(api).routes[i].target != TargetOf(id)
      ensures if r.Ok? then AutoDeployed(old(api).(integrations := old(api).integrations - {id}), api, ids, now) else api == old(api)
    {
      hide AutoDeployed, Sound, TargetOf, TARGET_PREFIX;
      if id !in api.integrations {
        return Err(NotFound);
      }
      var targeted := Any(api.routes, (rt: Route) => rt.target == TargetOf(id));
      if targeted {
        return Err(Conflict);
      }
      var next := api.(integrations := api.integrations - {id});
      LessStaysSound(api, next);
      var after := AutoDeploy(next, ids, now);
      AutoDeployStaysSound(next, after, ids, now);
      api := after;
      return Result.Ok(id);
    }

    // ---- Authorizers ----

    method CreateAuthorizer(name: string, uri: string, wellFormed: bool, ids: seq<string>) returns (r: Result<string, Refusal>)
      requires Valid() && |ids| >= 1 && Unused(ids, api)
      modifies this
      ensures Valid()
      ensures r.Ok? <==> name != "" && wellFormed && forall i :: i in old(api).authorizers ==> old(api).authorizers[i].name != name
      ensures api == if r.Ok? then old(api).(authorizers := old(api).authorizers[ids[0] := Authorizer(ids[0], name, uri)]) else old(api)
    {
      hide RouteHolds, StagesServe, KeysDistinct;
      if name == "" {
        return Err(BadRequest);
      }
      var named := Any(api.authorizers, (a: Authorizer) => a.name == name);
      if named {
        return Err(Conflict);
      }
      if !wellFormed {
        return Err(BadRequest);
      }
      var next := api.(authorizers := api.authorizers[ids[0] := Authorizer(ids[0], name, uri)]);
      MoreAuthorizersStaySound(api, next);
      api := next;
      return Result.Ok(ids[0]);
    }

    method UpdateAuthorizer(id: string, name: Option<string>, uri: Option<string>, wellFormed: bool) returns (r: Result<string, Refusal>)
      requires Valid()
      modifies this
      ensures Valid()
      ensures r.Ok? <==> id in old(api).authorizers && wellFormed
      ensures api == if r.Err? then old(api)
                     else var a := old(api).authorizers[id];
                          old(api).(authorizers := old(api).authorizers[id := Authorizer(id, Or(name, a.name), Or(uri, a.uri))])
    {
      hide RouteHolds, StagesServe, KeysDistinct;
      if id !in api.authorizers {
        return Err(NotFound);
      }
      if !wellFormed {
        return Err(BadRequest);
      }
      var a := api.authorizers[id];
      var next := api.(authorizers := api.authorizers[id := Authorizer(id, Or(name, a.name), Or(uri, a.uri))]);
      MoreAuthorizersStaySound(api, next);
      api := next;
      return Result.Ok(id);
    }

    /** Refused while any route names it, CUSTOM or not. */
    method DeleteAuthorizer(id: string) returns (r: Result<string, Refusal>)
      requires Valid()
      modifies this
      ensures Valid()
      ensures r.Ok? <==> id in old(api).authorizers && forall i :: i in old(api).routes ==> old(api).routes[i].authorizer != id
      ensures api == if r.Ok? then old(api).(authorizers := old(api).authorizers - {id}) else old(api)
    {
      hide Sound;
      if id !in api.authorizers {
        return Err(NotFound);
      }
      var used := Any(api.routes, (rt: Route) => rt.authorizer == id);
      if used {
        return Err(Conflict);
      }
      var next := api.(authorizers := api.authorizers - {id});
      LessStaysSound(api, next);
      api := next;
      return Result.Ok(id);
    }

    // ---- Stages and deployments ----

    method CreateStage(name: string, input: StageInput, ids: seq<string>, now: nat) returns (r: Result<string, Refusal>)
      requires Valid() && |ids| >= |api.stages| + 1 && Unused(ids, api)
      modifies this
      ensures Valid()
      ensures r.Ok? <==> name != "" && name !in old(api).stages && StageAdmissible(old(api), input)
      ensures var st := AskedStage(Stage(name, false, "", "", map[], now, now), input);
              if r.Err? then api == old(api)
              else if st.autoDeploy && st.deployment == "" then AutoDeployed(WithStage(old(api), st), api, ids, now)
              else api == WithStage(old(api), st)
    {
      hide AutoDeployed, Sound, StageAdmissible, AskedStage;
      if name == "" {
        return Err(BadRequest);
      }
      if name in api.stages {
        return Err(Conflict);
      }
      var blank := Stage(name, false, "", "", map[], now, now);
      var applied := ApplyStageInput(api, blank, input);
      if applied.Err? {
        return Err(applied.error);
      }
      AskedKeeps(blank, input);
      StageStaysSound(api, blank, input, now);
      assert applied.value.(updated := now) == applied.value;
      var next := WithStage(api, applied.value);
      if applied.value.autoDeploy && applied.value.deployment == "" {
        assert |next.stages| == |api.stages| + 1;
        var after := AutoDeploy(next, ids, now);
        AutoDeployStaysSound(next, after, ids, now);
        next := after;
      }
      api := next;
      return Result.Ok(name);
    }

    method UpdateStage(name: string, input: StageInput, ids: seq<string>, now: nat) returns (r: Result<string, Refusal>)
      requires Valid() && |ids| >= |api.stages| && Unused(ids, api)
      modifies this
      ensures Valid()
      ensures r.Ok? <==> name in old(api).stages && StageAdmissible(old(api), input)
      ensures if r.Err? then api == old(api)
              else var st := AskedStage(old(api).stages[name], input).(updated := now);
                   if st.autoDeploy && st.deployment == "" then AutoDeployed(WithStage(old(api), st), api, ids, now)
                   else api == WithStage(old(api), st)
    {
      hide AutoDeployed, StageAdmissible, AskedStage, RouteHolds, KeysDistinct;
      if name !in api.stages {
        return Err(NotFound);
      }
      var applied := ApplyStageInput(api, api.stages[name], input);
      if applied.Err? {
        return Err(applied.error);
      }
      AskedKeeps(api.stages[name], input);
      StageStaysSound(api, api.stages[name], input, now);
      var st := applied.value.(updated := now);
      var next := WithStage(api, st);
      if st.autoDeploy && st.deployment == "" {
        assert next.stages.Keys == api.stages.Keys;
        var after := AutoDeploy(next, ids, now);
        AutoDeployStaysSound(next, after, ids, now);
        next := after;
      }
      api := next;
      return Result.Ok(name);
    }

    method DeleteStage(name: string) returns (r: Result<string, Refusal>)
      requires Valid()
      modifies this
      ensures Valid()
      ensures r.Ok? <==> name in old(api).stages
      ensures api == if r.Ok? then old(api).(stages := old(api).stages - {name}) else old(api)
    {
      hide Sound;
      if name !in api.stages {
        return Err(NotFound);
      }
      var next := api.(stages := api.stages - {name});
      LessStaysSound(api, next);
      api := next;
      return Result.Ok(name);
    }

    /** Makes a deployment, and points a stage at it if one is named. */
    method CreateDeployment(stageName: string, description: string, ids: seq<string>, now: nat) returns (r: Result<string, Refusal>)
      requires Valid() && |ids| >= 1 && Unused(ids, api)
      modifies this
      ensures Valid()
      ensures r.Ok? <==> stageName == "" || stageName in old(api).stages
      ensures api == if r.Err? then old(api)
                     else old(api).(deployments := old(api).deployments[ids[0] := Deployment(ids[0], now, false, description)],
                                    stages := if stageName == "" then old(api).stages
                                              else old(api).stages[stageName := old(api).stages[stageName].(deployment := ids[0])])
    {
      hide RouteHolds, KeysDistinct;
      if stageName != "" && stageName !in api.stages {
        return Err(NotFound);
      }
      var next := api.(deployments := api.deployments[ids[0] := Deployment(ids[0], now, false, description)]);
      MoreStaysSound(api, next);
      if stageName != "" {
        var pointed := next.(stages := next.stages[stageName := next.stages[stageName].(deployment := ids[0])]);
        PointedStaysSound(next, stageName, ids[0]);
        next := pointed;
      }
      api := next;
      return Result.Ok(ids[0]);
    }

    method UpdateDeployment(id: string, description: Option<string>) returns (r: Result<string, Refusal>)
      requires Valid()
      modifies this
      ensures Valid()
      ensures r.Ok? <==> id in old(api).deployments
      ensures api == if r.Err? then old(api)
                     else var d := old(api).deployments[id];
                          old(api).(deployments := old(api).deployments[id := d.(description := Or(description, d.description))])
    {
      hide RouteHolds, KeysDistinct;
      if id !in api.deployments {
        return Err(NotFound);
      }
      var d := api.deployments[id];
      var next := api.(deployments := api.deployments[id := d.(description := Or(description, d.description))]);
      MoreStaysSound(api, next);
      api := next;
      return Result.Ok(id);
    }

    /** Refused while a stage serves it. */
    method DeleteDeployment(id: string) returns (r: Result<string, Refusal>)
      requires Valid()
      modifies this
      ensures Valid()
      ensures r.Ok? <==> id in old(api).deployments && forall n :: n in old(api).stages ==> old(api).stages[n].deployment != id
      ensures api == if r.Ok? then old(api).(deployments := old(api).deployments - {id}) else old(api)
    {
      hide Sound;
      if id !in api.deployments {
        return Err(NotFound);
      }
      var served := Any(api.stages, (st: Stage) => st.deployment == id);
      if served {
        return Err(BadRequest);
      }
      var next := api.(deployments := api.deployments - {id});
      LessStaysSound(api, next);
      api := next;
      return Result.Ok(id);
    }
  }

  lemma DefaultIsNormal()
    ensures ValidRouteKey(DEFAULT_KEY) && Normalised(DEFAULT_KEY) == DEFAULT_KEY
  {
  }

  lemma AskedKeeps(st: Stage, input: StageInput)
    ensures AskedStage(st, input).name == st.name && AskedStage(st, input).updated == st.updated
  {
  }

  /** The ids after the first are unused still once the first is taken. */
  lemma LaterIds(api: Api, ids: seq<string>, rt: Route)
    requires Unused(ids, api) && ids != []
    ensures Unused(ids[1..], api.(routes := api.routes[ids[0] := rt])) && ids[0] !in api.routes
  {
  }

  lemma LaterIdsOf(api: Api, ids: seq<string>, i: Integration)
    requires Unused(ids, api) && ids != []
    ensures Unused(ids[1..], api.(integrations := api.integrations[ids[0] := i]))
  {
  }

  lemma FirstUnused(api: Api, ids: seq<string>)
    requires Unused(ids, api) && ids != []
    ensures ids[0] != ""
  {
  }

  lemma MoreAuthorizersStaySound(api: Api, next: Api)
    requires Sound(api) && next == api.(authorizers := next.authorizers) && api.authorizers.Keys <= next.authorizers.Keys
    requires forall i :: i in next.authorizers ==> next.authorizers[i].id == i
    ensures Sound(next)
  {
    hide RouteHolds, KeysDistinct;
    MoreStaysSound(api, next);
  }

  lemma PointedStaysSound(api: Api, name: string, d: string)
    requires Sound(api) && name in api.stages && d in api.deployments
    ensures Sound(api.(stages := api.stages[name := api.stages[name].(deployment := d)]))
  {
    hide RouteHolds;
    var after := api.(stages := api.stages[name := api.stages[name].(deployment := d)]);
    forall i | i in api.routes
      ensures RouteHolds(api.routes[i], after)
    {
      SameReferences(api.routes[i], api, after);
    }
  }
}
