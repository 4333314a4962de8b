/** Matching the segments of a request path against those of a template. */
module PathMatching {
  import opened Text

  // ---- Splitting a path ----

  function TrimSlashesLeft(p: string): string {
    if p != [] && p[0] == '/' then TrimSlashesLeft(p[1..]) else p
  }

  function TrimSlashesRight(p: string): string {
    if p != [] && p[|p| - 1] == '/' then TrimSlashesRight(p[..|p| - 1]) else p
  }

  function SplitPath(p: string): seq<string> {
    var t := TrimSlashesRight(TrimSlashesLeft(p));
    if t == "" then [] else Split(t, '/')
  }

  /** Segments of a request: none holds a slash, and the last is not empty. */
  predicate Segments(want: seq<string>) {
    && (forall i :: 0 <= i < |want| ==> '/' !in want[i])
    && (want != [] ==> want[|want| - 1] != "")
  }

  lemma {:induction false} TrimmedEnd(p: string)
    ensures var t := TrimSlashesRight(p); t == "" || t[|t| - 1] != '/'
    decreases |p|
  {
    if p != [] && p[|p| - 1] == '/' {
      TrimmedEnd(p[..|p| - 1]);
    }
  }

  lemma {:induction false} LastOfSplit(t: string)
    requires t != "" && t[|t| - 1] != '/'
    ensures var parts := Split(t, '/'); parts[|parts| - 1] != ""
    decreases |t|
  {
    var i := Index(t, '/');
    if i < |t| {
      assert t[i + 1..] != "" by {
        assert i != |t| - 1;
      }
      LastOfSplit(t[i + 1..]);
    }
  }

  lemma SplitPathSegments(p: string)
    ensures Segments(SplitPath(p))
  {
    var t := TrimSlashesRight(TrimSlashesLeft(p));
    TrimmedEnd(TrimSlashesLeft(p));
    if t != "" {
      JoinSplit(t, '/');
      LastOfSplit(t);
    }
  }

  // ---- Templates ----

  predicate IsGreedy(seg: string) {
    |seg| >= 3 && seg[0] == '{' && seg[|seg| - 2] == '+' && seg[|seg| - 1] == '}'
  }

  predicate IsParam(seg: string) {
    |seg| >= 2 && seg[0] == '{' && seg[|seg| - 1] == '}'
  }

  predicate IsBrace(c: char) {
    c == '{' || c == '}'
  }

  function TrimBracesLeft(s: string): string {
    if s != [] && IsBrace(s[0]) then TrimBracesLeft(s[1..]) else s
  }

  function TrimBracesRight(s: string): string {
    if s != [] && IsBrace(s[|s| - 1]) then TrimBracesRight(s[..|s| - 1]) else s
  }

  /** The name a segment captures under. */
  function NameOf(seg: string): string {
    if IsGreedy(seg) then seg[1..|seg| - 2] else TrimBracesRight(TrimBracesLeft(seg))
  }

  /** Where a template's greedy segment is, or its length. */
  function GreedyAt(have: seq<string>): (g: nat)
    ensures g <= |have|
    ensures g < |have| ==> IsGreedy(have[g])
    ensures forall i :: 0 <= i < g ==> !IsGreedy(have[i])
  {
    if have == [] || IsGreedy(have[0]) then 0 else 1 + GreedyAt(have[1..])
  }

  predicate IsProxy(have: seq<string>) {
    GreedyAt(have) < |have|
  }

  function ParamCount(have: seq<string>): (n: nat)
    ensures n <= |have|
  {
    if have == [] then 0
    else ParamCount(have[..|have| - 1]) + (if "{" <= have[|have| - 1] then 1 else 0)
  }

  method CountParams(have: seq<string>) returns (n: nat)
    ensures n == ParamCount(have)
  {
    n := 0;
    for i := 0 to |have|
      invariant n == ParamCount(have[..i])
    {
      assert have[..i + 1][..i] == have[..i];
      if "{" <= have[i] {
        n := n + 1;
      }
    }
    assert have[..|have|] == have;
  }

  // ---- Matching ----

  /** What one segment of a template may stand for: itself, any one segment, or anything at all. */
  predicate StandsFor(seg: string, piece: seq<string>) {
    if IsGreedy(seg) then true
    else if IsParam(seg) then |piece| == 1
    else piece == [seg]
  }

  lemma GreedyIsParam(have: seq<string>)
    ensures IsProxy(have) ==> IsParam(have[GreedyAt(have)])
  {
  }

  function Flatten(pieces: seq<seq<string>>): seq<string> {
    if pieces == [] then [] else pieces[0] + Flatten(pieces[1..])
  }

  /** The segments of a template that are looked at: those up to and with the greedy one. */
  function Used(have: seq<string>): seq<string> {
    var g := GreedyAt(have);
    if g < |have| then have[..g + 1] else have
  }

  /** A request is an instance of a template when it is, in order, something each used segment stands for. */
  ghost predicate Instance(have: seq<string>, want: seq<string>) {
    exists pieces :: Stands(Used(have), pieces) && Flatten(pieces) == want
  }

  ghost predicate Stands(have: seq<string>, pieces: seq<seq<string>>) {
    |pieces| == |have| && forall i :: 0 <= i < |have| ==> StandsFor(have[i], pieces[i])
  }

  /** The first n segments of a template match those of a request one to one. */
  predicate FitsTo(have: seq<string>, want: seq<string>, n: nat)
    requires n <= |have|
  {
    n <= |want| && forall i :: 0 <= i < n ==> IsParam(have[i]) || have[i] == want[i]
  }

  predicate Fits(have: seq<string>, want: seq<string>) {
    FitsTo(have, want, GreedyAt(have)) && (IsProxy(have) || |want| == |have|)
  }

  /** What the first n segments of a template capture; a name captured twice keeps its last value. */
  function CapturedTo(have: seq<string>, want: seq<string>, n: nat): map<string, string>
    requires n <= |have| && n <= |want|
  {
    if n == 0 then map[]
    else
      var before := CapturedTo(have, want, n - 1);
      if IsParam(have[n - 1]) then before[NameOf(have[n - 1]) := want[n - 1]] else before
  }

  function Captured(have: seq<string>, want: seq<string>): map<string, string>
    requires Fits(have, want)
  {
    var g := GreedyAt(have);
    var params := CapturedTo(have, want, g);
    if g < |have| then params[NameOf(have[g]) := Join(want[g..], '/')] else params
  }

  /** Compares a template's segments with a request's, one by one. */
  method MatchSegments(have: seq<string>, want: seq<string>) returns (params: map<string, string>, proxy: bool, ok: bool)
    ensures ok <==> Fits(have, want)
    ensures ok ==> proxy == IsProxy(have) && params == Captured(have, want)
  {
    hide IsGreedy, IsParam, NameOf;
    params := map[];
    for i := 0 to |have|
      invariant i <= GreedyAt(have) && FitsTo(have, want, i) && params == CapturedTo(have, want, i)
    {
      var seg := have[i];
      if IsGreedy(seg) {
        assert i == GreedyAt(have);
        params := params[NameOf(seg) := Join(want[i..], '/')];
        return params, true, true;
      }
      if i >= |want| {
        return map[], false, false;
      }
      if IsParam(seg) {
        params := params[NameOf(seg) := want[i]];
      } else if seg != want[i] {
        return map[], false, false;
      }
    }
    if |want| != |have| {
      return map[], false, false;
    }
    return params, false, true;
  }

  // ---- A match is an instance ----

  lemma {:induction false} FlattenOnes(want: seq<string>)
    ensures Flatten(Ones(want)) == want
    decreases |want|
  {
    if want != [] {
      assert Ones(want)[1..] == Ones(want[1..]);
      FlattenOnes(want[1..]);
    }
  }

  /** A request cut into single segments. */
  function Ones(want: seq<string>): (pieces: seq<seq<string>>)
    ensures |pieces| == |want|
    ensures forall i :: 0 <= i < |want| ==> pieces[i] == [want[i]]
  {
    seq(|want|, i requires 0 <= i < |want| => [want[i]])
  }

  lemma {:induction false} FlattenAppend(pieces: seq<seq<string>>, last: seq<string>)
    ensures Flatten(pieces + [last]) == Flatten(pieces) + last
    decreases |pieces|
  {
    if pieces == [] {
      assert pieces + [last] == [last];
      assert Flatten([last]) == last + Flatten([]);
    } else {
      assert (pieces + [last])[1..] == pieces[1..] + [last];
      FlattenAppend(pieces[1..], last);
    }
  }

  /** Pieces that are all one segment long are the request, segment by segment. */
  lemma {:induction false} FlattenSingles(pieces: seq<seq<string>>)
    requires forall i :: 0 <= i < |pieces| ==> |pieces[i]| == 1
    ensures |Flatten(pieces)| == |pieces|
    ensures forall i :: 0 <= i < |pieces| ==> pieces[i] == [Flatten(pieces)[i]]
    decreases |pieces|
  {
    if pieces != [] {
      FlattenSingles(pieces[1..]);
      forall i | 0 < i < |pieces|
        ensures pieces[i] == [Flatten(pieces)[i]]
      {
        assert pieces[i] == pieces[1..][i - 1];
      }
    }
  }

  lemma FitsIsInstance(have: seq<string>, want: seq<string>)
    requires Fits(have, want)
    ensures Instance(have, want)
  {
    hide IsGreedy, IsParam, Flatten;
    var g := GreedyAt(have);
    var ones := Ones(want[..g]);
    FlattenOnes(want[..g]);
    if g < |have| {
      var pieces := ones + [want[g..]];
      FlattenAppend(ones, want[g..]);
      assert want[..g] + want[g..] == want;
      assert Stands(Used(have), pieces);
    } else {
      assert want[..g] == want;
      assert Stands(Used(have), ones);
    }
  }

  lemma InstanceFits(have: seq<string>, want: seq<string>, pieces: seq<seq<string>>)
    requires Stands(Used(have), pieces) && Flatten(pieces) == want
    ensures Fits(have, want)
  {
    hide IsGreedy, IsParam, Flatten;
    var g := GreedyAt(have);
    assert forall i :: 0 <= i < g ==> Used(have)[i] == have[i];
    assert forall i :: 0 <= i < g ==> StandsFor(have[i], pieces[i]) && |pieces[i]| == 1;
    var first := pieces[..g];
    FlattenSingles(first);
    if g < |have| {
      assert pieces == first + [pieces[g]];
      FlattenAppend(first, pieces[g]);
    } else {
      assert first == pieces;
    }
    assert forall i :: 0 <= i < g ==> first[i] == pieces[i] && Flatten(first)[i] == want[i];
  }

  /** A template matches a request exactly when the request is an instance of it. */
  lemma FitsIffInstance(have: seq<string>, want: seq<string>)
    ensures Fits(have, want) <==> Instance(have, want)
  {
    hide Fits;
    if Fits(have, want) {
      FitsIsInstance(have, want);
    }
    if pieces :| Stands(Used(have), pieces) && Flatten(pieces) == want {
      InstanceFits(have, want, pieces);
    }
  }

  // ---- Captures rebuild the request ----

  /** A template with its captures put back. */
  function Rebuilt(have: seq<string>, params: map<string, string>): seq<string>
    requires forall i :: 0 <= i < |Used(have)| && IsParam(have[i]) ==> NameOf(have[i]) in params
    decreases |have|
  {
    if have == [] then []
    else if IsGreedy(have[0]) then
      assert Used(have)[0] == have[0] && IsParam(have[0]);
      var rest := params[NameOf(have[0])];
      if rest == "" then [] else Split(rest, '/')
    else
      assert Used(have) == [have[0]] + Used(have[1..]);
      assert forall i :: 0 <= i < |Used(have[1..])| ==> have[1..][i] == have[i + 1] && i + 1 < |Used(have)|;
      [if IsParam(have[0]) then params[NameOf(have[0])] else have[0]] + Rebuilt(have[1..], params)
  }

  /** No two of a template's used parameters have one name. */
  ghost predicate NamesDistinct(have: seq<string>) {
    forall i, j :: 0 <= i < j < |Used(have)| && IsParam(have[i]) && IsParam(have[j]) ==> NameOf(have[i]) != NameOf(have[j])
  }

  /** Each used parameter's capture, when its name is its own. */
  predicate Holds(have: seq<string>, want: seq<string>, params: map<string, string>)
    requires GreedyAt(have) <= |want|
  {
    var g := GreedyAt(have);
    && (forall i :: 0 <= i < g && IsParam(have[i]) ==> NameOf(have[i]) in params && params[NameOf(have[i])] == want[i])
    && (g < |have| ==> NameOf(have[g]) in params && params[NameOf(have[g])] == Join(want[g..], '/'))
  }

  lemma {:induction false} CapturedToHolds(have: seq<string>, want: seq<string>, n: nat)
    requires n <= GreedyAt(have) && n <= |want| && NamesDistinct(have)
    ensures forall i :: 0 <= i < n && IsParam(have[i]) ==>
              NameOf(have[i]) in CapturedTo(have, want, n) && CapturedTo(have, want, n)[NameOf(have[i])] == want[i]
  {
    hide IsParam, IsGreedy, NameOf;
    if n > 0 {
      CapturedToHolds(have, want, n - 1);
    }
  }

  lemma CapturedHolds(have: seq<string>, want: seq<string>)
    requires Fits(have, want) && NamesDistinct(have)
    ensures Holds(have, want, Captured(have, want))
  {
    hide NameOf;
    CapturedToHolds(have, want, GreedyAt(have));
  }

  /** What holds of a template that does not start greedy holds of the rest of it. */
  lemma TailHolds(have: seq<string>, want: seq<string>, params: map<string, string>)
    requires Fits(have, want) && Segments(want) && Holds(have, want, params) && have != [] && GreedyAt(have) > 0
    ensures want != [] && Fits(have[1..], want[1..]) && Segments(want[1..]) && Holds(have[1..], want[1..], params)
  {
    hide NameOf, Join, IsGreedy, IsParam;
    var g := GreedyAt(have);
    assert GreedyAt(have[1..]) == g - 1;
    assert want[1..][g - 1..] == want[g..];
  }

  lemma {:induction false} HoldsRebuilds(have: seq<string>, want: seq<string>, params: map<string, string>)
    requires Fits(have, want) && Segments(want) && Holds(have, want, params)
    ensures forall i :: 0 <= i < |Used(have)| && IsParam(have[i]) ==> NameOf(have[i]) in params
    ensures Rebuilt(have, params) == want
    decreases |have|
  {
    hide NameOf, Join, Split, IsGreedy, IsParam, Segments;
    var g := GreedyAt(have);
    GreedyIsParam(have);
    if have != [] && g == 0 {
      assert want[0..] == want;
      RestRebuilds(want);
    } else if have != [] {
      TailHolds(have, want, params);
      HoldsRebuilds(have[1..], want[1..], params);
      assert have == [have[0]] + have[1..] && want == [want[0]] + want[1..];
      forall i | 0 <= i < |Used(have)| && IsParam(have[i])
        ensures NameOf(have[i]) in params
      {
        assert i > 0 ==> have[1..][i - 1] == have[i];
      }
    }
  }

  /** What a greedy segment swallows is found again by splitting it. */
  lemma RestRebuilds(want: seq<string>)
    requires Segments(want)
    ensures var rest := Join(want, '/'); (if rest == "" then [] else Split(rest, '/')) == want
  {
    if want != [] {
      SplitJoin(want, '/');
      assert Join(want, '/') == "" ==> |want| == 1;
    }
  }

  /** When a template's parameters have distinct names, putting what a match captured back in their
      place gives the request path again. */
  lemma CapturesRebuildPath(have: seq<string>, path: string)
    requires Fits(have, SplitPath(path)) && NamesDistinct(have)
    ensures var params := Captured(have, SplitPath(path));
            && (forall i :: 0 <= i < |Used(have)| && IsParam(have[i]) ==> NameOf(have[i]) in params)
            && Rebuilt(have, params) == SplitPath(path)
  {
    SplitPathSegments(path);
    CapturedHolds(have, SplitPath(path));
    HoldsRebuilds(have, SplitPath(path), Captured(have, SplitPath(path)));
  }

  /** Putting the captures of a match back gives the request again. */
  predicate Rebuilds(have: seq<string>, want: seq<string>)
    requires Fits(have, want)
  {
    var params := Captured(have, want);
    && (forall i :: 0 <= i < |Used(have)| && IsParam(have[i]) ==> NameOf(have[i]) in params)
    && Rebuilt(have, params) == want
  }

  /** It does for every request that fits, exactly when no two used parameters have one name. */
  lemma RebuildsAllIff(have: seq<string>)
    requires Segments(have)
    ensures (forall want :: Segments(want) && Fits(have, want) ==> Rebuilds(have, want)) <==> NamesDistinct(have)
  {
    if NamesDistinct(have) {
      forall want | Segments(want) && Fits(have, want)
        ensures Rebuilds(have, want)
      {
        CapturedHolds(have, want);
        HoldsRebuilds(have, want, Captured(have, want));
      }
    } else {
      var i, j :| 0 <= i < j < |Used(have)| && IsParam(have[i]) && IsParam(have[j]) && NameOf(have[i]) == NameOf(have[j]);
      FillingFits(have, i);
      LaterWins(have, i, j);
      if Rebuilds(have, Filling(have, i)) {
        RebuiltAt(have, Captured(have, Filling(have, i)), i);
      }
    }
  }

  /** The request with "x" in one place and "y" in place of every other parameter. */
  function Filling(have: seq<string>, i: nat): (want: seq<string>)
    ensures |want| == |Used(have)|
    ensures forall k :: 0 <= k < |want| ==> want[k] == if k == i then "x" else if IsParam(have[k]) then "y" else have[k]
  {
    seq(|Used(have)|, k requires 0 <= k < |Used(have)| => if k == i then "x" else if IsParam(have[k]) then "y" else have[k])
  }

  lemma FillingFits(have: seq<string>, i: nat)
    requires Segments(have) && i < |Used(have)| && IsParam(have[i])
    ensures Segments(Filling(have, i)) && Fits(have, Filling(have, i))
  {
    hide IsGreedy, Filling;
    GreedyIsParam(have);
    hide IsParam, NameOf;
    var want := Filling(have, i);
    assert Segments(want);
    assert forall k :: 0 <= k < |want| ==> IsParam(have[k]) || want[k] == have[k];
  }

  /** Of a name used in two places the capture is not what stood in the first. */
  lemma LaterWins(have: seq<string>, i: nat, j: nat)
    requires i < j < |Used(have)| && IsParam(have[i]) && IsParam(have[j]) && NameOf(have[i]) == NameOf(have[j])
    requires Fits(have, Filling(have, i))
    ensures var params := Captured(have, Filling(have, i)); NameOf(have[i]) in params && params[NameOf(have[i])] == "y"
  {
    var want, g := Filling(have, i), GreedyAt(have);
    hide IsGreedy, NameOf, Filling, Join;
    GreedyIsParam(have);
    hide IsParam;
    if j < g {
      assert forall k :: j <= k < g && IsParam(have[k]) ==> want[k] == "y";
      LaterWinsTo(have, want, j, g, "y");
    }
    if g < |have| {
      assert want[g..] == ["y"];
      JoinOne("y");
    }
    hide CapturedTo, GreedyAt;
  }

  lemma JoinOne(s: string)
    ensures Join([s], '/') == s
  {
  }

  lemma {:induction false} LaterWinsTo(have: seq<string>, want: seq<string>, j: nat, n: nat, v: string)
    requires j < n <= |have| && n <= |want| && IsParam(have[j])
    requires forall k :: j <= k < n && IsParam(have[k]) ==> want[k] == v
    ensures var params := CapturedTo(have, want, n); NameOf(have[j]) in params && params[NameOf(have[j])] == v
    decreases n
  {
    hide IsGreedy, IsParam, NameOf;
    if n > j + 1 {
      LaterWinsTo(have, want, j, n - 1, v);
    }
  }

  lemma {:induction false} RebuiltAt(have: seq<string>, params: map<string, string>, i: nat)
    requires i < GreedyAt(have) && IsParam(have[i])
    requires forall k :: 0 <= k < |Used(have)| && IsParam(have[k]) ==> NameOf(have[k]) in params
    ensures |Rebuilt(have, params)| > i && Rebuilt(have, params)[i] == params[NameOf(have[i])]
    decreases |have|
  {
    hide IsGreedy, IsParam, NameOf, Split;
    if i > 0 {
      assert Used(have) == [have[0]] + Used(have[1..]);
      forall k | 0 <= k < |Used(have[1..])| && IsParam(have[1..][k])
        ensures NameOf(have[1..][k]) in params
      {
        assert have[1..][k] == have[k + 1] && k + 1 < |Used(have)|;
      }
      RebuiltAt(have[1..], params, i - 1);
    }
  }

  // ---- What a template's segments say ----

  /** A segment in braces captures under what they enclose, and a greedy one under what is before its plus. */
  lemma NameIsEnclosed(name: string)
    requires name != "" && !IsBrace(name[0]) && !IsBrace(name[|name| - 1])
    ensures name[|name| - 1] != '+' ==> NameOf("{" + name + "}") == name
    ensures NameOf("{" + name + "+}") == name
  {
    var one, rest := "{" + name + "}", "{" + name + "+}";
    assert one[1..] == name + "}" && one[|one| - 2] == name[|name| - 1];
    assert TrimBracesLeft(one) == TrimBracesLeft(name + "}") == name + "}";
    assert (name + "}")[..|name|] == name;
    assert TrimBracesRight(name + "}") == TrimBracesRight(name) == name;
    assert rest[1..|rest| - 2] == name;
  }

  /** A template of one parameter captures the one segment of a request under its name, and a greedy one all of
      its segments joined. */
  lemma CapturesUnderName(name: string, piece: string, more: seq<string>)
    requires name != "" && !IsBrace(name[0]) && !IsBrace(name[|name| - 1]) && name[|name| - 1] != '+'
    ensures Fits(["{" + name + "}"], [piece]) && Captured(["{" + name + "}"], [piece]) == map[name := piece]
    ensures Fits(["{" + name + "+}"], more) && Captured(["{" + name + "+}"], more) == map[name := Join(more, '/')]
  {
    NameIsEnclosed(name);
    var one, rest := "{" + name + "}", "{" + name + "+}";
    assert IsParam(one) && !IsGreedy(one) by {
      assert one[|one| - 2] == name[|name| - 1];
    }
    assert IsGreedy(rest);
    hide IsParam, IsGreedy, NameOf, Join;
    var none: seq<string> := [];
    assert [one][1..] == none;
    assert GreedyAt([one]) == 1 && GreedyAt([rest]) == 0;
    assert CapturedTo([one], [piece], 0) == map[];
    assert more[0..] == more;
  }

  /** A segment not in braces stands for itself alone. */
  lemma LiteralFitsItself(seg: string, want: seq<string>)
    requires seg == "" || seg[0] != '{' || seg[|seg| - 1] != '}'
    ensures Fits([seg], want) <==> want == [seg]
  {
    assert !IsGreedy(seg) && !IsParam(seg);
    assert GreedyAt([seg]) == 1 by {
      var none: seq<string> := [];
      assert [seg][1..] == none;
    }
  }

  /** Where the segments that start with a brace are. */
  function Braced(have: seq<string>): set<int> {
    set i | 0 <= i < |have| && have[i] != "" && have[i][0] == '{'
  }

  /** The parameters counted are the segments that start with a brace. */
  lemma {:induction false} ParamCountIsSize(have: seq<string>)
    ensures ParamCount(have) == |Braced(have)|
    decreases |have|
  {
    if have != [] {
      var init, n := have[..|have| - 1], |have| - 1;
      ParamCountIsSize(init);
      assert "{" <= have[n] <==> have[n] != "" && have[n][0] == '{';
      assert Braced(have) == Braced(init) + (if "{" <= have[n] then {n} else {});
    }
  }

  /** Whether a segment takes all that is left of a path. */
  ghost predicate HasGreedy(have: seq<string>) {
    exists i :: 0 <= i < |have| && |have[i]| >= 3 && have[i][0] == '{' && have[i][|have[i]| - 2..] == "+}"
  }

  lemma IsProxyIff(have: seq<string>)
    ensures IsProxy(have) <==> HasGreedy(have)
  {
    forall i | 0 <= i < |have|
      ensures IsGreedy(have[i]) <==> |have[i]| >= 3 && have[i][0] == '{' && have[i][|have[i]| - 2..] == "+}"
    {
      IsGreedyIff(have[i]);
    }
    hide IsGreedy;
  }

  lemma IsGreedyIff(seg: string)
    ensures IsGreedy(seg) <==> |seg| >= 3 && seg[0] == '{' && seg[|seg| - 2..] == "+}"
  {
    if |seg| >= 3 {
      assert seg[|seg| - 2..] == [seg[|seg| - 2], seg[|seg| - 1]];
    }
  }
}
