/** HTTP API route keys: "$default", or a method and a path. */
module RouteKeys {
  import opened Text

  const DEFAULT_KEY: string := "$default"

  const METHODS: set<string> := {"GET", "POST", "PUT", "PATCH", "DELETE", "HEAD", "OPTIONS", "ANY"}

  /** The method and path of a key; "$default" has neither. */
  function RouteKeyParts(key: string): (string, string) {
    if key == DEFAULT_KEY then ("", "")
    else
      var (verb, path) := Cut(key, ' ');
      (ToUpper(TrimSpace(verb)), TrimSpace(path))
  }

  predicate ValidRouteKey(key: string) {
    key == DEFAULT_KEY ||
    var (verb, path) := RouteKeyParts(key);
    verb in METHODS && "/" <= path
  }

  /** The spelling a key is stored in. */
  function Normalised(key: string): string {
    var (verb, path) := RouteKeyParts(key);
    if verb != "" then verb + " " + path else key
  }

  /** Spelled the way the data plane matches on. */
  predicate Normal(key: string) {
    ValidRouteKey(key) && Normalised(key) == key
  }

  predicate Shouted(m: string) {
    m != "" && forall i :: 0 <= i < |m| ==> 'A' <= m[i] <= 'Z'
  }

  lemma MethodsAreShouted(m: string)
    requires m in METHODS
    ensures Shouted(m)
  {
    assert m == "GET" || m == "POST" || m == "PUT" || m == "PATCH" || m == "DELETE" || m == "HEAD" || m == "OPTIONS" || m == "ANY";
  }

  lemma MethodsAreWords(m: string)
    requires m in METHODS
    ensures m != "" && m[0] != '$' && ' ' !in m && Trimmed(m) && ToUpper(m) == m
  {
    hide METHODS;
    MethodsAreShouted(m);
  }

  /** A stored key means what the request's key meant, and storing it again changes nothing. */
  lemma NormalisedIsNormal(key: string)
    requires ValidRouteKey(key)
    ensures RouteKeyParts(Normalised(key)) == RouteKeyParts(key)
    ensures Normal(Normalised(key))
  {
    var (verb, path) := RouteKeyParts(key);
    if key != DEFAULT_KEY {
      MethodsAreWords(verb);
      var k := verb + " " + path;
      assert k[0] == verb[0] && DEFAULT_KEY[0] == '$';
      CutJoined(verb, ' ', path);
      assert k == verb + [' '] + path;
      TrimSpaceTrims(verb);
      TrimSpaceTrims(Cut(key, ' ').1);
      TrimSpaceTrims(path);
    }
  }

  /** Two keys are stored alike exactly when they have the same method and the same path. */
  lemma StoredAlikeIff(k: string, l: string)
    requires ValidRouteKey(k) && ValidRouteKey(l)
    ensures Normalised(k) == Normalised(l) <==> RouteKeyParts(k) == RouteKeyParts(l)
  {
    NormalisedIsNormal(k);
    NormalisedIsNormal(l);
    if RouteKeyParts(k) == RouteKeyParts(l) && k == DEFAULT_KEY {
      assert l == DEFAULT_KEY by {
        if l != DEFAULT_KEY {
          MethodsAreWords(RouteKeyParts(l).0);
        }
      }
    }
  }
}
