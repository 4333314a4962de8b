/** The HTTP API record: routes, integrations, authorizers, stages and deployments, and what links them. */
module HttpRecord {
  import opened Wrappers
  import opened Text
  import opened RouteKeys

  datatype AuthType = NONE | CUSTOM | AWS_IAM

  datatype Route = Route(id: string, key: string, target: string, auth: AuthType, authorizer: string,
                         scopes: seq<string>, apiKeyRequired: bool, operationName: string)

  datatype Integration = Integration(id: string, kind: string, uri: string, verb: string, payload: string)

  datatype Authorizer = Authorizer(id: string, name: string, uri: string)

  datatype Stage = Stage(name: string, autoDeploy: bool, deployment: string, description: string,
                         variables: map<string, string>, created: nat, updated: nat)

  datatype Deployment = Deployment(id: string, created: nat, automatic: bool, description: string)

  datatype Api = Api(routes: map<string, Route>, integrations: map<string, Integration>, authorizers: map<string, Authorizer>,
                     stages: map<string, Stage>, deployments: map<string, Deployment>)

  datatype Refusal = BadRequest | Conflict | NotFound | NotImplemented

  const TARGET_PREFIX: string := "integrations/"

  // ---- Links ----

  /** The target naming an integration. */
  function TargetOf(id: string): string {
    TARGET_PREFIX + id
  }

  lemma TargetOfNames(id: string)
    ensures TARGET_PREFIX <= TargetOf(id) && TrimPrefix(TargetOf(id), TARGET_PREFIX) == id && TargetOf(id) != ""
  {
  }

  /** strings.TrimPrefix */
  function TrimPrefix(s: string, prefix: string): string {
    if prefix <= s then s[|prefix|..] else s
  }

  /** A target is empty, or names an integration that exists. */
  predicate TargetHolds(target: string, integrations: map<string, Integration>) {
    target == "" || (TARGET_PREFIX <= target && TrimPrefix(target, TARGET_PREFIX) in integrations)
  }

  predicate RouteHolds(rt: Route, api: Api) {
    && Normal(rt.key)
    && TargetHolds(rt.target, api.integrations)
    && (rt.auth == CUSTOM ==> rt.authorizer != "" && rt.authorizer in api.authorizers)
  }

  /** No two routes have one key. */
  ghost predicate KeysDistinct(routes: map<string, Route>) {
    forall i, j :: i in routes && j in routes && i != j ==> routes[i].key != routes[j].key
  }

  predicate RunsLocally(i: Integration) {
    i.kind == "AWS_PROXY" || i.kind == "HTTP_PROXY"
  }

  /** Every reference leads somewhere. */
  ghost predicate Sound(api: Api) {
    && (forall i :: i in api.routes ==> api.routes[i].id == i && RouteHolds(api.routes[i], api))
    && KeysDistinct(api.routes)
    && (forall i :: i in api.integrations ==> i != "" && api.integrations[i].id == i && RunsLocally(api.integrations[i]))
    && (forall i :: i in api.authorizers ==> api.authorizers[i].id == i)
    && StagesServe(api.stages, api.deployments)
  }

  ghost predicate StagesServe(stages: map<string, Stage>, deployments: map<string, Deployment>) {
    && (forall n :: n in stages ==> stages[n].name == n && (stages[n].deployment == "" || stages[n].deployment in deployments))
    && (forall d :: d in deployments ==> deployments[d].id == d)
  }

  /** Ids that name nothing in the record yet. */
  ghost predicate Unused(ids: seq<string>, api: Api) {
    && (forall i :: 0 <= i < |ids| ==>
          && ids[i] != "" && ids[i] !in api.routes && ids[i] !in api.integrations && ids[i] !in api.authorizers
          && ids[i] !in api.deployments)
    && (forall i, j :: 0 <= i < j < |ids| ==> ids[i] != ids[j])
  }

  /** Whether any value of a map has a property, looking at them in whatever order they come. */
  method Any<T>(m: map<string, T>, p: T -> bool) returns (found: bool)
    ensures found <==> exists k :: k in m && p(m[k])
  {
    var rest := m.Keys;
    while rest != {}
      invariant rest <= m.Keys
      invariant forall k :: k in m && k !in rest ==> !p(m[k])
      decreases rest
    {
      var k :| k in rest;
      if p(m[k]) {
        return true;
      }
      rest := rest - {k};
    }
    return false;
  }

  // ---- What a route request asks for ----

  datatype RouteInput = RouteInput(key: Option<string>, target: Option<string>, authType: Option<string>, authorizer: Option<string>,
                                   scopes: Option<seq<string>>, apiKeyRequired: Option<bool>, operationName: Option<string>)

  function AuthTypeOf(s: string): Option<AuthType> {
    var u := ToUpper(s);
    if u == "NONE" || u == "" then Some(NONE)
    else if u == "CUSTOM" then Some(CUSTOM)
    else if u == "AWS_IAM" then Some(AWS_IAM)
    else Option.None
  }

  function Or<T>(o: Option<T>, otherwise: T): T {
    if o.Some? then o.value else otherwise
  }

  /** The route with the fields a request sent in place of its own. */
  function Asked(rt: Route, input: RouteInput): Route {
    rt.(key := if input.key.Some? then Normalised(TrimSpace(input.key.value)) else rt.key,
        target := Or(input.target, rt.target),
        auth := if input.authType.Some? then Or(AuthTypeOf(input.authType.value), rt.auth) else rt.auth,
        authorizer := Or(input.authorizer, rt.authorizer),
        scopes := Or(input.scopes, rt.scopes),
        apiKeyRequired := Or(input.apiKeyRequired, rt.apiKeyRequired),
        operationName := Or(input.operationName, rt.operationName))
  }

  ghost predicate KeyTaken(routes: map<string, Route>, id: string, key: string) {
    exists i :: i in routes && routes[i].id != id && routes[i].key == key
  }

  /** Whether a request's fields are ones the record can take: what it sends must be well formed and lead
      somewhere, and a route left CUSTOM must name an authorizer that exists. */
  ghost predicate Admissible(api: Api, rt: Route, input: RouteInput) {
    var asked := Asked(rt, input);
    && (input.key.Some? ==> ValidRouteKey(TrimSpace(input.key.value)) && !KeyTaken(api.routes, rt.id, asked.key))
    && (input.target.Some? ==> TargetHolds(asked.target, api.integrations))
    && (input.authType.Some? ==> AuthTypeOf(input.authType.value).Some?)
    && (asked.auth == CUSTOM ==> asked.authorizer != "" && asked.authorizer in api.authorizers)
  }

  /** The spelling to store a key in, unless it is malformed or another route's. */
  method KeyToStore(routes: map<string, Route>, id: string, sent: string) returns (r: Result<string, Refusal>)
    ensures r.Ok? <==> ValidRouteKey(TrimSpace(sent)) && !KeyTaken(routes, id, Normalised(TrimSpace(sent)))
    ensures r.Ok? ==> r.value == Normalised(TrimSpace(sent))
    ensures r == Err(Conflict) ==> KeyTaken(routes, id, Normalised(TrimSpace(sent)))
  {
    hide ValidRouteKey, Normalised, TrimSpace;
    var key := TrimSpace(sent);
    if !ValidRouteKey(key) {
      return Err(BadRequest);
    }
    key := Normalised(key);
    var taken := Any(routes, (other: Route) => other.id != id && other.key == key);
    if taken {
      return Err(Conflict);
    }
    return Result.Ok(key);
  }

  method TargetAccepted(target: string, integrations: map<string, Integration>) returns (ok: bool)
    ensures ok <==> TargetHolds(target, integrations)
  {
    if target == "" {
      return true;
    }
    PrefixedOrSame(target);
    var id := TrimPrefix(target, TARGET_PREFIX);
    ok := id != target && id in integrations;
  }

  /** Validates and applies the fields a create or an update sent, one by one. */
  method ApplyRouteInput(api: Api, was: Route, input: RouteInput) returns (r: Result<Route, Refusal>)
    ensures r.Ok? <==> Admissible(api, was, input)
    ensures r.Ok? ==> r.value == Asked(was, input)
    ensures r == Err(Conflict) ==> KeyTaken(api.routes, was.id, Asked(was, input).key)
  {
    hide ValidRouteKey, Normalised, TrimSpace, KeyTaken, TargetHolds, AuthTypeOf;
    var rt := was;
    if input.key.Some? {
      var key := KeyToStore(api.routes, rt.id, input.key.value);
      if key.Err? {
        return Err(key.error);
      }
      rt := rt.(key := key.value);
    }
    if input.target.Some? {
      var ok := TargetAccepted(input.target.value, api.integrations);
      if !ok {
        return Err(BadRequest);
      }
      rt := rt.(target := input.target.value);
    }
    if input.authType.Some? {
      var auth := AuthTypeOf(input.authType.value);
      if auth.None? {
        return Err(if ToUpper(input.authType.value) == "JWT" then NotImplemented else BadRequest);
      }
      rt := rt.(auth := auth.value);
    }
    rt := rt.(authorizer := Or(input.authorizer, rt.authorizer));
    if rt.auth == CUSTOM && (rt.authorizer == "" || rt.authorizer !in api.authorizers) {
      return Err(BadRequest);
    }
    rt := rt.(scopes := Or(input.scopes, rt.scopes));
    rt := rt.(apiKeyRequired := Or(input.apiKeyRequired, rt.apiKeyRequired));
    rt := rt.(operationName := Or(input.operationName, rt.operationName));
    return Result.Ok(rt);
  }

  lemma PrefixedOrSame(target: string)
    ensures TrimPrefix(target, TARGET_PREFIX) == target <==> !(TARGET_PREFIX <= target)
  {
    if TARGET_PREFIX <= target {
      assert |TrimPrefix(target, TARGET_PREFIX)| < |target|;
    }
  }

  /** What an accepted request stores keeps every reference, and every key its own. */
  lemma AdmittedStaysSound(api: Api, rt: Route, input: RouteInput)
    requires Sound(api) && Admissible(api, rt, input)
    requires if rt.id in api.routes then api.routes[rt.id] == rt else input.key.Some? && rt.target == ""
    ensures Sound(api.(routes := api.routes[rt.id := Asked(rt, input)]))
  {
    hide ValidRouteKey, Normalised, TrimSpace, Normal;
    var asked := Asked(rt, input);
    if input.key.Some? {
      NormalisedIsNormal(TrimSpace(input.key.value));
    }
    assert RouteHolds(asked, api);
    var routes := api.routes[rt.id := asked];
    forall i, j | i in routes && j in routes && i != j
      ensures routes[i].key != routes[j].key
    {
      assert i != rt.id ==> routes[i] == api.routes[i] && routes[i].id == i;
      assert j != rt.id ==> routes[j] == api.routes[j] && routes[j].id == j;
      assert input.key.Some? && i != rt.id ==> api.routes[i].key != asked.key;
      assert input.key.Some? && j != rt.id ==> api.routes[j].key != asked.key;
    }
  }
}
