/** Which route or resource answers a request, and what the data plane then finds behind it. */
module Routing {
  import opened Wrappers
  import opened Text
  import opened RouteKeys
  import opened PathMatching
  import opened HttpRecord

  // ---- HTTP API routes ----

  function RouteSegments(rt: Route): seq<string> {
    SplitPath(RouteKeyParts(rt.key).1)
  }

  predicate AnyMethod(rt: Route) {
    RouteKeyParts(rt.key).0 == "ANY"
  }

  /** Whether a route other than "$default" answers a method and a path. */
  predicate Answers(rt: Route, verb: string, want: seq<string>) {
    && rt.key != DEFAULT_KEY
    && (RouteKeyParts(rt.key).0 == verb || AnyMethod(rt))
    && Fits(RouteSegments(rt), want)
  }

  /** The precedence of routes: an exact match, then the deeper proxy, then fewer parameters, then the
      method itself over ANY, then the key. */
  predicate Better(c: Route, b: Route) {
    var have, other := RouteSegments(c), RouteSegments(b);
    if IsProxy(have) != IsProxy(other) then !IsProxy(have)
    else if IsProxy(have) && |have| != |other| then |have| > |other|
    else if ParamCount(have) != ParamCount(other) then ParamCount(have) < ParamCount(other)
    else if AnyMethod(c) != AnyMethod(b) then !AnyMethod(c)
    else Before(c.key, b.key)
  }

  /** On routes with distinct keys, precedence is a strict total order. */
  lemma BetterIsStrictTotal(a: Route, b: Route, c: Route)
    ensures !Better(a, a)
    ensures a.key != b.key ==> (Better(a, b) <==> !Better(b, a))
    ensures Better(a, b) && Better(b, c) ==> Better(a, c)
  {
    hide RouteKeyParts, RouteSegments, IsProxy, ParamCount, Before;
    BeforeTotal(a.key, a.key);
    BeforeTotal(a.key, b.key);
    if Before(a.key, b.key) && Before(b.key, c.key) {
      BeforeTransitive(a.key, b.key, c.key);
    }
  }

  /** The answer to a request: the best of the routes that answer it, "$default" only if none does. */
  ghost predicate Picks(routes: map<string, Route>, verb: string, want: seq<string>, picked: Option<Route>) {
    match picked
    case Some(rt) =>
      && (exists i :: i in routes && routes[i] == rt)
      && if rt.key == DEFAULT_KEY then forall i :: i in routes ==> !Answers(routes[i], verb, want)
         else Answers(rt, verb, want) && forall i :: i in routes && Answers(routes[i], verb, want) ==> routes[i] == rt || Better(rt, routes[i])
    case None =>
      forall i :: i in routes ==> !Answers(routes[i], verb, want) && routes[i].key != DEFAULT_KEY
  }

  /** Where keys are distinct only one answer is right, so the order routes are looked at in cannot matter. */
  lemma PickIsUnique(routes: map<string, Route>, verb: string, want: seq<string>, p: Option<Route>, q: Option<Route>)
    requires KeysDistinct(routes)
    requires Picks(routes, verb, want, p) && Picks(routes, verb, want, q)
    ensures p == q
  {
    hide Answers, Better;
    if p.Some? && q.Some? {
      AnswersNotDefault(p.value, verb, want);
      AnswersNotDefault(q.value, verb, want);
      BetterIsStrictTotal(p.value, q.value, p.value);
    }
  }

  lemma AnswersNotDefault(rt: Route, verb: string, want: seq<string>)
    ensures Answers(rt, verb, want) ==> rt.key != DEFAULT_KEY
  {
  }

  /** Of all the routes that answer, the one picked has no greedy segment if any has none; failing that none has
      more segments. Among those alike in this none has fewer parameters; among those it names the method itself
      if any does; and among those its key comes first. */
  lemma PickComesFirst(routes: map<string, Route>, verb: string, want: seq<string>, rt: Route, i: string)
    requires Picks(routes, verb, want, Some(rt)) && rt.key != DEFAULT_KEY && i in routes && Answers(routes[i], verb, want)
    ensures var x := routes[i];
            var mine, other := SplitPath(RouteKeyParts(rt.key).1), SplitPath(RouteKeyParts(x.key).1);
            var anyOfMine, anyOfOther := RouteKeyParts(rt.key).0 == "ANY", RouteKeyParts(x.key).0 == "ANY";
            && (!HasGreedy(other) ==> !HasGreedy(mine))
            && (HasGreedy(mine) ==> |other| <= |mine|)
            && (HasGreedy(other) == HasGreedy(mine) && (HasGreedy(mine) ==> |other| == |mine|) ==>
                  && |Braced(mine)| <= |Braced(other)|
                  && (|Braced(mine)| == |Braced(other)| ==>
                        && (anyOfMine ==> anyOfOther)
                        && (anyOfMine == anyOfOther ==> rt.key <= x.key || exists k: nat :: BeforeAt(rt.key, x.key, k))))
  {
    var x := routes[i];
    IsProxyIff(RouteSegments(rt));
    IsProxyIff(RouteSegments(x));
    ParamCountIsSize(RouteSegments(rt));
    ParamCountIsSize(RouteSegments(x));
    BeforeIff(rt.key, x.key);
    hide Answers, RouteKeyParts, SplitPath, HasGreedy, Braced, IsProxy, ParamCount, Before, BeforeAt;
  }

  /** A key spelled as a method and a path answers requests for that method, or for any under ANY, whose path is
      an instance of its template. */
  lemma AnswersIff(rt: Route, method_: string, template: string, verb: string, path: string)
    requires rt.key == method_ + " " + template && method_ in METHODS && Trimmed(template)
    ensures Answers(rt, verb, SplitPath(path))
            <==> (method_ == "ANY" || method_ == verb) && Instance(SplitPath(template), SplitPath(path))
  {
    KeyPartsAre(method_, template);
    FitsIffInstance(SplitPath(template), SplitPath(path));
    hide RouteKeyParts, SplitPath, Fits, Instance, METHODS;
  }

  lemma KeyPartsAre(method_: string, template: string)
    requires method_ in METHODS && Trimmed(template)
    ensures var key := method_ + " " + template; key != DEFAULT_KEY && RouteKeyParts(key) == (method_, template)
  {
    var key := method_ + " " + template;
    MethodsAreWords(method_);
    hide METHODS;
    assert key == method_ + [' '] + template && key[0] == method_[0] && DEFAULT_KEY[0] == '$';
    CutJoined(method_, ' ', template);
    TrimSpaceTrims(method_);
    TrimSpaceTrims(template);
  }

  /** Looks at the routes in whatever order the map gives them, keeping the best so far. */
  method MatchRoute(routes: map<string, Route>, verb: string, path: string) returns (picked: Option<Route>, params: map<string, string>)
    requires KeysDistinct(routes)
    ensures Picks(routes, ToUpper(verb), SplitPath(path), picked)
    ensures picked.Some? && picked.value.key != DEFAULT_KEY ==>
              Fits(RouteSegments(picked.value), SplitPath(path)) && params == Captured(RouteSegments(picked.value), SplitPath(path))
  {
    hide Better, Captured, Fits, RouteKeyParts, RouteSegments, SplitPath, IsProxy, ToUpper, DEFAULT_KEY;
    var m := ToUpper(verb);
    var want := SplitPath(path);
    var best, fallback: Option<Route> := None, None;
    params := map[];
    var rest := routes.Keys;
    while rest != {}
      invariant rest <= routes.Keys
      invariant BestOf(routes, routes.Keys - rest, m, want, best, fallback)
      invariant best.Some? ==> Fits(RouteSegments(best.value), want) && params == Captured(RouteSegments(best.value), want)
      decreases rest
    {
      var i :| i in rest;
      var rt := routes[i];
      ghost var seen := routes.Keys - rest;
      if rt.key == DEFAULT_KEY {
        fallback := Some(rt);
      } else if RouteKeyParts(rt.key).0 == m || RouteKeyParts(rt.key).0 == "ANY" {
        var captured, proxy, ok := MatchSegments(RouteSegments(rt), want);
        if ok {
          if best.None? || Better(rt, best.value) {
            BestGives(routes, seen, m, want, best, fallback, i);
            best, params := Some(rt), captured;
          } else {
            BestStays(routes, seen, m, want, best, fallback, i);
          }
        }
      }
      rest := rest - {i};
      assert routes.Keys - rest == seen + {i};
    }
    assert routes.Keys - rest == routes.Keys;
    picked := if best.Some? then best else fallback;
    if best.None? {
      params := map[];
    }
  }

  /** The best of the routes seen so far, and "$default" if it was among them. */
  ghost predicate BestOf(routes: map<string, Route>, seen: set<string>, verb: string, want: seq<string>, best: Option<Route>, fallback: Option<Route>)
    requires seen <= routes.Keys
  {
    && (best.None? ==> forall i :: i in seen ==> !Answers(routes[i], verb, want))
    && (best.Some? ==>
          && best.value.key != DEFAULT_KEY && Answers(best.value, verb, want) && (exists i :: i in seen && routes[i] == best.value)
          && forall i :: i in seen && Answers(routes[i], verb, want) ==> routes[i] == best.value || Better(best.value, routes[i]))
    && (fallback.Some? ==> fallback.value.key == DEFAULT_KEY && exists i :: i in seen && routes[i] == fallback.value)
    && (fallback.None? ==> forall i :: i in seen ==> routes[i].key != DEFAULT_KEY)
  }

  lemma BestGives(routes: map<string, Route>, seen: set<string>, verb: string, want: seq<string>, best: Option<Route>, fallback: Option<Route>, i: string)
    requires seen <= routes.Keys && BestOf(routes, seen, verb, want, best, fallback) && i in routes
    requires Answers(routes[i], verb, want) && (best.None? || Better(routes[i], best.value))
    ensures BestOf(routes, seen + {i}, verb, want, Some(routes[i]), fallback)
  {
    hide Better;
    AnswersNotDefault(routes[i], verb, want);
    hide Answers;
    if best.Some? {
      forall j | j in seen && Answers(routes[j], verb, want)
        ensures Better(routes[i], routes[j])
      {
        BetterIsStrictTotal(routes[i], best.value, routes[j]);
      }
    }
  }

  lemma BestStays(routes: map<string, Route>, seen: set<string>, verb: string, want: seq<string>, best: Option<Route>, fallback: Option<Route>, i: string)
    requires seen <= routes.Keys && BestOf(routes, seen, verb, want, best, fallback) && i in routes && i !in seen && KeysDistinct(routes)
    requires Answers(routes[i], verb, want) && best.Some? && !Better(routes[i], best.value)
    ensures BestOf(routes, seen + {i}, verb, want, best, fallback)
  {
    hide Better;
    AnswersNotDefault(routes[i], verb, want);
    hide Answers;
    BetterIsStrictTotal(routes[i], best.value, best.value);
  }

  // ---- Serving ----

  /** What the data plane finds behind a request. */
  datatype Served = NotServed | AuthorizerGone | NoIntegration | Forward(route: Route, integration: Integration, authorizer: Option<Authorizer>)

  /** A leading segment that names a stage is the stage; otherwise the whole is a path on "$default". */
  function ResolveStage(api: Api, remainder: string): (string, string) {
    var (first, rest) := Cut(remainder, '/');
    if first != "" && first in api.stages then (first, "/" + rest) else (DEFAULT_KEY, "/" + remainder)
  }

  /** The first segment of a request is its stage exactly when it names one. */
  lemma StageIsFirst(api: Api, first: string, rest: string)
    requires '/' !in first
    ensures ResolveStage(api, first + "/" + rest)
            == if first != "" && first in api.stages then (first, "/" + rest) else ("$default", "/" + first + "/" + rest)
    ensures ResolveStage(api, first) == if first != "" && first in api.stages then (first, "/") else ("$default", "/" + first)
  {
    CutJoined(first, '/', rest);
    assert first + "/" + rest == first + ['/'] + rest;
    assert "/" + first + "/" + rest == "/" + (first + "/" + rest);
    assert "/" + "" == "/";
  }

  /** The lookups of a request, which a sound record makes safe: the stage it is served from has its
      deployment, a route that needs an authorizer has it, and one with a target has its integration. */
  method Serve(api: Api, verb: string, remainder: string) returns (served: Served)
    requires Sound(api)
    ensures var (name, path) := ResolveStage(api, remainder);
            && (served == NotServed <==> name !in api.stages || api.stages[name].deployment == "" || Picks(api.routes, ToUpper(verb), SplitPath(path), None))
            && (served != NotServed ==> api.stages[name].deployment in api.deployments)
            && (served == NoIntegration ==>
                  exists rt: Route :: Picks(api.routes, ToUpper(verb), SplitPath(path), Some(rt)) && rt.target == "")
            && (served.Forward? ==>
                  && Picks(api.routes, ToUpper(verb), SplitPath(path), Some(served.route))
                  && served.route.target == TargetOf(served.integration.id)
                  && RunsLocally(served.integration)
                  && (served.route.auth == CUSTOM <==> served.authorizer.Some?)
                  && (served.authorizer.Some? ==> served.authorizer.value.id == served.route.authorizer))
    ensures served != AuthorizerGone
  {
    hide ToUpper, SplitPath, Picks, Normal, TARGET_PREFIX;
    var (name, path) := ResolveStage(api, remainder);
    if name !in api.stages || api.stages[name].deployment == "" {
      return NotServed;
    }
    var picked, params := MatchRoute(api.routes, verb, path);
    PickIsNotBoth(api.routes, ToUpper(verb), SplitPath(path), picked);
    if picked.None? {
      return NotServed;
    }
    var rt := picked.value;
    PickIsAmong(api.routes, ToUpper(verb), SplitPath(path), rt);
    assert RouteHolds(rt, api);
    var authorizer: Option<Authorizer> := None;
    if rt.auth == CUSTOM {
      if rt.authorizer !in api.authorizers {
        return AuthorizerGone;
      }
      authorizer := Some(api.authorizers[rt.authorizer]);
    }
    var id := TrimPrefix(rt.target, TARGET_PREFIX);
    if id !in api.integrations {
      assert rt.target == "";
      return NoIntegration;
    }
    TargetIsOf(rt.target, api.integrations);
    return Forward(rt, api.integrations[id], authorizer);
  }

  lemma PickIsAmong(routes: map<string, Route>, verb: string, want: seq<string>, rt: Route)
    requires Picks(routes, verb, want, Some(rt))
    ensures exists i :: i in routes && routes[i] == rt
  {
  }

  lemma PickIsNotBoth(routes: map<string, Route>, verb: string, want: seq<string>, picked: Option<Route>)
    requires KeysDistinct(routes) && Picks(routes, verb, want, picked)
    ensures Picks(routes, verb, want, None) <==> picked.None?
  {
    if Picks(routes, verb, want, None) {
      PickIsUnique(routes, verb, want, picked, None);
    }
  }

  lemma TargetIsOf(target: string, integrations: map<string, Integration>)
    requires TargetHolds(target, integrations) && TrimPrefix(target, TARGET_PREFIX) in integrations
    ensures target == "" || target == TargetOf(TrimPrefix(target, TARGET_PREFIX))
    ensures target == "" ==> "" in integrations
  {
  }

  // ---- REST resources ----

  /** A REST resource, as matching sees it. */
  datatype Resource = Resource(id: string, path: string)

  /** What a match answers: an exact match with the fewest parameters, or else the deepest greedy one. */
  ghost predicate Resolves(resources: map<string, Resource>, want: seq<string>, found: Option<Resource>) {
    match found
    case Some(res) =>
      && (exists i :: i in resources && resources[i] == res)
      && Fits(SplitPath(res.path), want)
      && forall i :: i in resources && Fits(SplitPath(resources[i].path), want) ==> !Beats(resources[i], res)
    case None =>
      forall i :: i in resources ==> !Fits(SplitPath(resources[i].path), want)
  }

  /** Whether one matching resource is strictly preferred to another. */
  predicate Beats(a: Resource, b: Resource) {
    var have, other := SplitPath(a.path), SplitPath(b.path);
    if IsProxy(have) != IsProxy(other) then !IsProxy(have)
    else if IsProxy(have) then |have| > |other|
    else ParamCount(have) < ParamCount(other)
  }

  /** Of all the resources that fit, an answer has no greedy segment if any has none, and then none of those has
      fewer parameters; failing that none has more segments. And whatever fits and is so is an answer. */
  lemma ResolvedIff(resources: map<string, Resource>, want: seq<string>, i: string)
    requires i in resources
    ensures Resolves(resources, want, Some(resources[i]))
            <==> && Instance(SplitPath(resources[i].path), want)
                 && forall j :: j in resources && Instance(SplitPath(resources[j].path), want) ==> ComesBefore(resources[i].path, resources[j].path)
  {
    FitsIffInstance(SplitPath(resources[i].path), want);
    forall j | j in resources
      ensures Fits(SplitPath(resources[j].path), want) <==> Instance(SplitPath(resources[j].path), want)
      ensures ComesBefore(resources[i].path, resources[j].path) <==> !Beats(resources[j], resources[i])
    {
      FitsIffInstance(SplitPath(resources[j].path), want);
      NotBeatenIff(resources[i], resources[j]);
    }
    hide Fits, Instance, SplitPath, ComesBefore, Beats;
  }

  ghost predicate ComesBefore(path: string, other: string) {
    var have, others := SplitPath(path), SplitPath(other);
    if !HasGreedy(others) then !HasGreedy(have) && |Braced(have)| <= |Braced(others)|
    else HasGreedy(have) ==> |others| <= |have|
  }

  lemma NotBeatenIff(a: Resource, b: Resource)
    ensures ComesBefore(a.path, b.path) <==> !Beats(b, a)
  {
    IsProxyIff(SplitPath(a.path));
    IsProxyIff(SplitPath(b.path));
    ParamCountIsSize(SplitPath(a.path));
    ParamCountIsSize(SplitPath(b.path));
    hide SplitPath, HasGreedy, Braced, IsProxy, ParamCount;
  }

  /** Looks at the resources in whatever order the map gives them. */
  method MatchResource(resources: map<string, Resource>, path: string) returns (found: Option<Resource>, params: map<string, string>)
    ensures Resolves(resources, SplitPath(path), found)
    ensures found.Some? ==> params == Captured(SplitPath(found.value.path), SplitPath(path))
  {
    hide Captured, Fits, SplitPath, IsProxy, ParamCount;
    var want := SplitPath(path);
    var exact, greedy: Option<Resource> := None, None;
    var exactParams, greedyParams: map<string, string> := map[], map[];
    var depth := -1;
    var rest := resources.Keys;
    while rest != {}
      invariant rest <= resources.Keys
      invariant Front(resources, resources.Keys - rest, want, exact, false) && Front(resources, resources.Keys - rest, want, greedy, true)
      invariant depth == if greedy.Some? then |SplitPath(greedy.value.path)| else -1
      invariant exact.Some? ==> exactParams == Captured(SplitPath(exact.value.path), want)
      invariant greedy.Some? ==> greedyParams == Captured(SplitPath(greedy.value.path), want)
      decreases rest
    {
      var i :| i in rest;
      var res := resources[i];
      var have := SplitPath(res.path);
      ghost var seen := resources.Keys - rest;
      var captured, proxy, ok := MatchSegments(have, want);
      if ok && !proxy {
        if exact.None? || ParamCount(have) < ParamCount(SplitPath(exact.value.path)) {
          exact, exactParams := Some(res), captured;
        }
      } else if ok && |have| > depth {
        greedy, greedyParams, depth := Some(res), captured, |have|;
      }
      rest := rest - {i};
      assert resources.Keys - rest == seen + {i};
    }
    assert resources.Keys - rest == resources.Keys;
    if exact.Some? {
      return exact, exactParams;
    }
    return greedy, greedyParams;
  }

  /** The best match so far of one kind, exact or greedy. */
  ghost predicate Front(resources: map<string, Resource>, seen: set<string>, want: seq<string>, best: Option<Resource>, proxy: bool)
    requires seen <= resources.Keys
  {
    && (best.None? ==> forall i :: i in seen && Fits(SplitPath(resources[i].path), want) ==> IsProxy(SplitPath(resources[i].path)) != proxy)
    && (best.Some? ==>
          && IsProxy(SplitPath(best.value.path)) == proxy && Fits(SplitPath(best.value.path), want)
          && (exists i :: i in seen && resources[i] == best.value)
          && forall i :: i in seen && Fits(SplitPath(resources[i].path), want) && IsProxy(SplitPath(resources[i].path)) == proxy ==>
               !Beats(resources[i], best.value))
  }

  /** Whether neither of two templates is preferred: equally many parameters, or equally deep. */
  predicate Alike(have: seq<string>, other: seq<string>) {
    IsProxy(have) == IsProxy(other) && if IsProxy(have) then |have| == |other| else ParamCount(have) == ParamCount(other)
  }

  /** Given one right answer, another resource is right as well exactly when it matches and ties. */
  lemma AlsoRightIff(resources: map<string, Resource>, want: seq<string>, a: Resource, i: string)
    requires Resolves(resources, want, Some(a)) && i in resources
    ensures Resolves(resources, want, Some(resources[i]))
            <==> Fits(SplitPath(resources[i].path), want) && Alike(SplitPath(resources[i].path), SplitPath(a.path))
  {
    hide Fits, SplitPath, IsProxy, ParamCount;
    var b := resources[i];
    if Resolves(resources, want, Some(b)) {
      assert !Beats(a, b) && !Beats(b, a);
    }
    if Fits(SplitPath(b.path), want) && Alike(SplitPath(b.path), SplitPath(a.path)) {
      forall j | j in resources && Fits(SplitPath(resources[j].path), want)
        ensures !Beats(resources[j], b)
      {
        assert !Beats(resources[j], a);
      }
    }
  }

  /** So the answer does not depend on the order resources are looked at in exactly when no other
      resource that matches ties with it. */
  lemma AnswerUniqueIff(resources: map<string, Resource>, want: seq<string>, a: Resource)
    requires Resolves(resources, want, Some(a))
    ensures (forall found :: Resolves(resources, want, found) ==> found == Some(a))
            <==> forall i :: i in resources && Fits(SplitPath(resources[i].path), want) && Alike(SplitPath(resources[i].path), SplitPath(a.path)) ==>
                   resources[i] == a
  {
    hide Fits, SplitPath, Alike;
    forall i | i in resources
      ensures Resolves(resources, want, Some(resources[i]))
              <==> Fits(SplitPath(resources[i].path), want) && Alike(SplitPath(resources[i].path), SplitPath(a.path))
    {
      AlsoRightIff(resources, want, a, i);
    }
    SomeAnswer(resources, want, a);
    hide Beats;
  }

  lemma SomeAnswer(resources: map<string, Resource>, want: seq<string>, a: Resource)
    requires Resolves(resources, want, Some(a))
    ensures !Resolves(resources, want, None)
    ensures forall b :: Resolves(resources, want, Some(b)) ==> exists i :: i in resources && resources[i] == b
  {
  }
}
