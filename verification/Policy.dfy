/** The policy a Lambda authorizer returns: IAM's resource glob, and deny over allow. */
module Policy {

  // ---- The glob ----

  /** One character of a pattern stands for a piece of the text: any run, any one character, or itself. */
  predicate Admits(c: char, piece: string) {
    if c == '*' then true
    else if c == '?' then |piece| == 1
    else piece == [c]
  }

  function Concat(pieces: seq<string>): string {
    if pieces == [] then "" else pieces[0] + Concat(pieces[1..])
  }

  ghost predicate Covers(pattern: string, pieces: seq<string>) {
    |pieces| == |pattern| && forall i :: 0 <= i < |pattern| ==> Admits(pattern[i], pieces[i])
  }

  /** A pattern matches a text that can be cut into pieces its characters stand for, in order. */
  ghost predicate Matches(pattern: string, s: string) {
    exists pieces :: Covers(pattern, pieces) && Concat(pieces) == s
  }

  lemma {:induction false} ConcatAppend(a: seq<string>, b: seq<string>)
    ensures Concat(a + b) == Concat(a) + Concat(b)
    decreases |a|
  {
    if a == [] {
      assert a + b == b;
    } else {
      assert (a + b)[1..] == a[1..] + b;
      ConcatAppend(a[1..], b);
    }
  }

  /** A pattern put together from two matches exactly what can be cut into a part for each. */
  lemma MatchesConcatIff(p: string, q: string, s: string)
    ensures Matches(p + q, s) <==> exists i :: 0 <= i <= |s| && Matches(p, s[..i]) && Matches(q, s[i..])
  {
    hide *;
    if Matches(p + q, s) {
      var i := MatchesApart(p, q, s);
    }
    if i :| 0 <= i <= |s| && Matches(p, s[..i]) && Matches(q, s[i..]) {
      MatchesTogether(p, q, s[..i], s[i..]);
      assert s[..i] + s[i..] == s;
    }
  }

  lemma MatchesApart(p: string, q: string, s: string) returns (i: nat)
    requires Matches(p + q, s)
    ensures i <= |s| && Matches(p, s[..i]) && Matches(q, s[i..])
  {
    var pieces :| Covers(p + q, pieces) && Concat(pieces) == s;
    hide Concat;
    var a, b := pieces[..|p|], pieces[|p|..];
    CoversApart(p, q, pieces);
    assert a + b == pieces;
    ConcatAppend(a, b);
    hide Covers;
    i := |Concat(a)|;
    assert s[..i] == Concat(a) && s[i..] == Concat(b);
  }

  lemma CoversApart(p: string, q: string, pieces: seq<string>)
    requires Covers(p + q, pieces)
    ensures |p| <= |pieces| && Covers(p, pieces[..|p|]) && Covers(q, pieces[|p|..])
  {
    hide Admits;
    forall i | 0 <= i < |q|
      ensures Admits(q[i], pieces[|p|..][i])
    {
      assert (p + q)[|p| + i] == q[i];
    }
  }

  lemma MatchesTogether(p: string, q: string, s: string, t: string)
    requires Matches(p, s) && Matches(q, t)
    ensures Matches(p + q, s + t)
  {
    var a :| Covers(p, a) && Concat(a) == s;
    var b :| Covers(q, b) && Concat(b) == t;
    hide Admits, Concat;
    ConcatAppend(a, b);
    assert Covers(p + q, a + b) && Concat(a + b) == s + t;
  }

  /** One character of a pattern by itself. */
  lemma MatchesOne(c: char, s: string)
    ensures Matches([c], s) <==> Admits(c, s)
  {
    assert Concat([s]) == s + Concat([]);
    if Admits(c, s) {
      assert Covers([c], [s]);
    }
    if pieces :| Covers([c], pieces) && Concat(pieces) == s {
      assert pieces == [pieces[0]];
      assert Concat(pieces) == pieces[0] + Concat(pieces[1..]);
    }
  }

  lemma MatchesNone(s: string)
    ensures Matches("", s) <==> s == ""
  {
    if s == "" {
      assert Covers("", []) && Concat([]) == s;
    }
  }

  /** The recursion the matcher follows. */
  lemma MatchesHead(pattern: string, s: string)
    requires pattern != ""
    ensures Matches(pattern, s) <==> exists i :: 0 <= i <= |s| && Admits(pattern[0], s[..i]) && Matches(pattern[1..], s[i..])
  {
    hide Matches, Admits;
    assert pattern == [pattern[0]] + pattern[1..];
    MatchesConcatIff([pattern[0]], pattern[1..], s);
    forall i | 0 <= i <= |s|
      ensures Matches([pattern[0]], s[..i]) <==> Admits(pattern[0], s[..i])
    {
      MatchesOne(pattern[0], s[..i]);
    }
  }

  /** A star matches anything, and a question mark any one character. */
  lemma Wildcards(s: string)
    ensures Matches("*", s)
    ensures Matches("?", s) <==> |s| == 1
  {
    hide Matches;
    MatchesOne('*', s);
    MatchesOne('?', s);
    assert "*" == ['*'] && "?" == ['?'];
  }

  predicate Literal(pattern: string) {
    '*' !in pattern && '?' !in pattern
  }

  /** A pattern without wildcards matches itself and nothing else. */
  lemma {:induction false} LiteralMatchesItself(pattern: string, s: string)
    requires Literal(pattern)
    ensures Matches(pattern, s) <==> s == pattern
    decreases |pattern|
  {
    hide Matches;
    if pattern == "" {
      MatchesNone(s);
    } else {
      MatchesHead(pattern, s);
      assert pattern[0] in pattern && forall c :: c in pattern[1..] ==> c in pattern;
      if s != "" {
        LiteralMatchesItself(pattern[1..], s[1..]);
        assert s == [s[0]] + s[1..] && pattern == [pattern[0]] + pattern[1..];
        assert s[..1] == [s[0]];
      }
    }
  }

  /** IAM's resource glob. */
  method GlobMatch(pattern: string, s: string) returns (ok: bool)
    ensures ok <==> Matches(pattern, s)
    decreases |pattern|
  {
    hide Matches;
    if pattern == "" {
      MatchesNone(s);
      return s == "";
    }
    MatchesHead(pattern, s);
    if pattern[0] == '*' {
      for i := 0 to |s| + 1
        invariant forall j :: 0 <= j < i ==> !Matches(pattern[1..], s[j..])
      {
        var rest := GlobMatch(pattern[1..], s[i..]);
        if rest {
          assert Admits(pattern[0], s[..i]);
          return true;
        }
      }
      return false;
    }
    if s == "" || (pattern[0] != '?' && s[0] != pattern[0]) {
      assert forall i :: 0 <= i <= |s| && Admits(pattern[0], s[..i]) ==> i == 1 && s[..i] == [s[0]];
      return false;
    }
    assert s[..1] == [s[0]];
    ok := GlobMatch(pattern[1..], s[1..]);
  }

  // ---- The policy ----

  /** A statement, its action and its resource each a list of strings. */
  datatype Statement = Statement(effect: string, action: seq<string>, resource: seq<string>)

  /** One character as strings.ToLower and EqualFold compare it with an ASCII letter. */
  function FoldChar(c: char): char {
    if 'A' <= c <= 'Z' then (c as int + 32) as char
    else if c == '\U{212A}' then 'k'
    else if c == '\U{17F}' then 's'
    else c
  }

  function Fold(s: string): (f: string)
    ensures |f| == |s|
  {
    if s == "" then "" else [FoldChar(s[0])] + Fold(s[1..])
  }

  /** A word spelled in any case, or with a Kelvin sign or a long s for a k or an s. */
  predicate Spells(s: string, word: string) {
    |s| == |word| && forall i :: 0 <= i < |s| ==>
      || s[i] == word[i]
      || ('a' <= word[i] <= 'z' && s[i] as int == word[i] as int - 32)
      || (word[i] == 'k' && s[i] == '\U{212A}') || (word[i] == 's' && s[i] == '\U{17F}')
  }

  lemma {:induction false} FoldsToIff(s: string, word: string)
    requires forall i :: 0 <= i < |word| ==> word[i] < 'A' || 'a' <= word[i] <= 'z'
    ensures Fold(s) == word <==> Spells(s, word)
    decreases |s|
  {
    if s != "" && |word| == |s| {
      FoldsToIff(s[1..], word[1..]);
      assert word == [word[0]] + word[1..];
      assert Fold(s) == [FoldChar(s[0])] + Fold(s[1..]);
      assert Spells(s, word) <==> Spells([s[0]], [word[0]]) && Spells(s[1..], word[1..]) by {
        assert forall i :: 0 < i < |s| ==> s[i] == s[1..][i - 1] && word[i] == word[1..][i - 1];
      }
      assert Spells([s[0]], [word[0]]) <==> FoldChar(s[0]) == word[0];
    }
  }

  const INVOKE: string := "execute-api:invoke"

  predicate ActionMatches(action: seq<string>) {
    exists i :: 0 <= i < |action| && (action[i] == "*" || action[i] == "execute-api:*" || Fold(action[i]) == INVOKE)
  }

  ghost predicate ResourceMatches(resource: seq<string>, arn: string) {
    exists i :: 0 <= i < |resource| && Matches(resource[i], arn)
  }

  method AnyGlob(resource: seq<string>, arn: string) returns (any: bool)
    ensures any <==> ResourceMatches(resource, arn)
  {
    hide Matches;
    any := false;
    for i := 0 to |resource|
      invariant forall j :: 0 <= j < i ==> !Matches(resource[j], arn)
    {
      var ok := GlobMatch(resource[i], arn);
      if ok {
        return true;
      }
    }
  }

  /** Whether a statement speaks of a request, with this effect. */
  ghost predicate Says(st: Statement, effect: string, arn: string) {
    ActionMatches(st.action) && ResourceMatches(st.resource, arn) && Fold(st.effect) == effect
  }

  /** No matching Deny, and some matching Allow. */
  ghost predicate Permitted(policy: seq<Statement>, arn: string) {
    && (forall st :: st in policy ==> !Says(st, "deny", arn))
    && exists st :: st in policy && Says(st, "allow", arn)
  }

  /** The order of the statements does not matter, nor does saying one twice. */
  lemma PermittedWhateverTheOrder(p: seq<Statement>, q: seq<Statement>, arn: string)
    requires forall st :: st in p <==> st in q
    ensures Permitted(p, arn) <==> Permitted(q, arn)
  {
    hide Says;
    if st :| st in p && Says(st, "allow", arn) {
      assert st in q;
    }
    if st :| st in q && Says(st, "allow", arn) {
      assert st in p;
    }
  }

  /** A request is permitted exactly when some statement spells "allow" and none spells "deny" of those that have
      "*", "execute-api:*" or a spelling of "execute-api:invoke" among their actions, and among their resources a
      pattern of the method's name. */
  lemma PermittedIff(policy: seq<Statement>, arn: string)
    ensures Permitted(policy, arn)
            <==> && (exists i :: 0 <= i < |policy| && Spells(policy[i].effect, "allow") && About(policy[i], arn))
                 && !exists i :: 0 <= i < |policy| && Spells(policy[i].effect, "deny") && About(policy[i], arn)
  {
    forall st: Statement
      ensures Says(st, "allow", arn) <==> Spells(st.effect, "allow") && About(st, arn)
      ensures Says(st, "deny", arn) <==> Spells(st.effect, "deny") && About(st, arn)
    {
      FoldsToIff(st.effect, "allow");
      FoldsToIff(st.effect, "deny");
      AboutIff(st, arn);
    }
    hide Says, About, Spells;
  }

  /** Whether a statement is about invoking this method. */
  ghost predicate About(st: Statement, arn: string) {
    && (exists i :: 0 <= i < |st.action| && (st.action[i] in {"*", "execute-api:*"} || Spells(st.action[i], "execute-api:invoke")))
    && exists j :: 0 <= j < |st.resource| && Matches(st.resource[j], arn)
  }

  lemma AboutIff(st: Statement, arn: string)
    ensures About(st, arn) <==> ActionMatches(st.action) && ResourceMatches(st.resource, arn)
  {
    forall i | 0 <= i < |st.action|
      ensures Fold(st.action[i]) == INVOKE <==> Spells(st.action[i], "execute-api:invoke")
    {
      FoldsToIff(st.action[i], "execute-api:invoke");
    }
    hide Matches, Spells, Fold;
  }

  /** Reads the statements in order, and stops at the first Deny that matches. */
  method PolicyAllows(policy: seq<Statement>, arn: string) returns (allowed: bool)
    ensures allowed <==> Permitted(policy, arn)
    ensures forall same :: (forall st :: st in same <==> st in policy) ==> (allowed <==> Permitted(same, arn))
  {
    hide ActionMatches, ResourceMatches, Fold;
    forall same: seq<Statement> | forall st :: st in same <==> st in policy
      ensures Permitted(same, arn) <==> Permitted(policy, arn)
    {
      PermittedWhateverTheOrder(same, policy, arn);
    }
    allowed := false;
    for i := 0 to |policy|
      invariant forall st :: st in policy[..i] ==> !Says(st, "deny", arn)
      invariant allowed <==> exists st :: st in policy[..i] && Says(st, "allow", arn)
    {
      var st := policy[i];
      assert policy[..i + 1] == policy[..i] + [st];
      var resource := AnyGlob(st.resource, arn);
      if ActionMatches(st.action) && resource {
        if Fold(st.effect) == "deny" {
          assert Says(st, "deny", arn);
          return false;
        } else if Fold(st.effect) == "allow" {
          assert Says(st, "allow", arn);
          allowed := true;
        }
      }
    }
    assert policy[..|policy|] == policy;
  }
}
