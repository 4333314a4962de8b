/** Binding a statement's values: literals, and question marks to the positional parameters. */
module PartiqlBinding {
  import opened Wrappers
  import opened Text
  import opened PartiqlTokens
  import opened PartiqlParser
  import opened PartiqlRendering

  /** An AttributeValue; a number is what it is worth, and the kinds a literal cannot have are kept as they came. */
  datatype AttributeValue = S(s: string) | N(n: real) | BOOL(b: bool) | NULL | Other(kind: string, json: string)

  /** Whether and what a token is worth as a number: strconv.ParseFloat. */
  type Numbers = string -> Option<real>

  // ---- Literals ----

  /** strings.ReplaceAll of two single quotes with one */
  function Undoubled(s: string): string {
    if s == "" then ""
    else if |s| >= 2 && s[0] == '\'' && s[1] == '\'' then "'" + Undoubled(s[2..])
    else [s[0]] + Undoubled(s[1..])
  }

  lemma {:induction false} UndoubledDoubled(x: string)
    ensures Undoubled(Doubled(x)) == x
    decreases |x|
  {
    if x != "" {
      UndoubledDoubled(x[1..]);
      if x[0] == '\'' {
        assert Doubled(x)[2..] == Doubled(x[1..]);
      } else {
        assert Doubled(x)[1..] == Doubled(x[1..]);
      }
      assert x == [x[0]] + x[1..];
    }
  }

  /** What a literal token is worth. */
  function Literal(token: string, number: Numbers): Option<AttributeValue> {
    if |token| >= 2 && token[0] == '\'' && token[|token| - 1] == '\'' then Some(S(Undoubled(token[1..|token| - 1])))
    else
      var lower := ToLower(token);
      if lower == "true" || lower == "false" then Some(BOOL(token == "true"))
      else if lower == "null" then Some(NULL)
      else match number(token)
           case Some(n) => Some(N(n))
           case None => None
  }

  function TextToken(x: string): string {
    "'" + Doubled(x) + "'"
  }

  /** Any string at all, its quotes doubled, is one token, can be a value, and is bound to itself. */
  lemma TextRoundTrip(x: string, number: Numbers)
    ensures ValueToken(TextToken(x))
    ensures Literal(TextToken(x), number) == Some(S(x))
  {
    var t := TextToken(x);
    DoubledIsPaired(x);
    UndoubledDoubled(x);
    assert t[0] == '\'' && t[|t| - 1] == '\'' && t[1..|t| - 1] == Doubled(x);
    assert ToUpper(t)[0] == '\'';
  }

  /** A true in any other case than the lower one binds false. */
  lemma TrueIsTrueIff(token: string, number: Numbers)
    requires ToLower(token) == "true"
    ensures Literal(token, number) == Some(BOOL(true)) <==> token == "true"
    ensures token != "true" ==> Literal(token, number) == Some(BOOL(false))
  {
    assert ToLower(token)[0] == 't';
    assert token[0] == 't' || token[0] == 'T';
  }

  /** A word spelled in any case. */
  predicate Spelled(token: string, lower: string, upper: string)
    requires |lower| == |upper|
  {
    |token| == |lower| && forall i :: 0 <= i < |token| ==> token[i] == lower[i] || token[i] == upper[i]
  }

  lemma LowerIff(token: string, lower: string, upper: string)
    requires |lower| == |upper|
    requires forall i :: 0 <= i < |lower| ==> 'a' <= lower[i] <= 'z' && upper[i] as int == lower[i] as int - 32
    ensures ToLower(token) == lower <==> Spelled(token, lower, upper)
  {
    if |token| == |lower| {
      forall i | 0 <= i < |token|
        ensures LowerChar(token[i]) == lower[i] <==> token[i] == lower[i] || token[i] == upper[i]
      {
      }
      assert ToLower(token) == lower <==> forall i :: 0 <= i < |token| ==> ToLower(token)[i] == lower[i];
    }
  }

  /** A null in any case is bound to null and a false in any case to false; what is neither text nor such a word is
      bound to what it is worth as a number, if it is one. */
  lemma LiteralsOfWords(token: string, number: Numbers)
    ensures Spelled(token, "null", "NULL") ==> Literal(token, number) == Some(NULL)
    ensures Spelled(token, "false", "FALSE") ==> Literal(token, number) == Some(BOOL(false))
    ensures (token == "" || ('0' <= token[0] <= '9') || token[0] == '-') ==>
              Literal(token, number) == if number(token).Some? then Some(N(number(token).value)) else None
  {
    LowerIff(token, "null", "NULL");
    LowerIff(token, "true", "TRUE");
    LowerIff(token, "false", "FALSE");
  }

  // ---- Binding ----

  /** What the k-th value of a list is bound to, when next parameters are used up. */
  function BoundAt(values: seq<string>, params: seq<AttributeValue>, number: Numbers, next: nat, k: nat): Option<AttributeValue>
    requires k < |values|
  {
    if values[k] == "?" then
      var i := next + Marks(values[..k]);
      if i < |params| then Some(params[i]) else None
    else Literal(values[k], number)
  }

  /** Whether every value of a list can be bound: no literal is malformed and the parameters suffice. */
  ghost predicate AllBound(values: seq<string>, params: seq<AttributeValue>, number: Numbers, next: nat) {
    forall k :: 0 <= k < |values| ==> BoundAt(values, params, number, next, k).Some?
  }

  /** The first values of a list are bound to these. */
  ghost predicate BoundTo(values: seq<string>, params: seq<AttributeValue>, number: Numbers, next: nat, out: seq<AttributeValue>) {
    |out| <= |values| && forall k :: 0 <= k < |out| ==> BoundAt(values, params, number, next, k) == Some(out[k])
  }

  lemma NoneBound(values: seq<string>, params: seq<AttributeValue>, number: Numbers, next: nat)
    ensures BoundTo(values, params, number, next, []) && Marks(values[..0]) == 0
  {
  }

  lemma BoundNext(values: seq<string>, params: seq<AttributeValue>, number: Numbers, next: nat, i: nat)
    requires i < |values|
    ensures values[i] == "?" ==>
              && Marks(values[..i + 1]) == Marks(values[..i]) + 1
              && BoundAt(values, params, number, next, i)
                 == if next + Marks(values[..i]) < |params| then Some(params[next + Marks(values[..i])]) else None
    ensures values[i] != "?" ==> Marks(values[..i + 1]) == Marks(values[..i]) && BoundAt(values, params, number, next, i) == Literal(values[i], number)
  {
    hide Literal;
    assert values[..i + 1][..i] == values[..i];
  }

  lemma NotAllBound(values: seq<string>, params: seq<AttributeValue>, number: Numbers, next: nat, i: nat)
    requires i < |values| && BoundAt(values, params, number, next, i).None?
    ensures !AllBound(values, params, number, next)
  {
    hide BoundAt;
  }

  lemma BoundMore(values: seq<string>, params: seq<AttributeValue>, number: Numbers, next: nat, out: seq<AttributeValue>, v: AttributeValue)
    requires BoundTo(values, params, number, next, out) && |out| < |values|
    requires BoundAt(values, params, number, next, |out|) == Some(v)
    ensures BoundTo(values, params, number, next, out + [v])
  {
    hide BoundAt;
  }

  lemma BoundAll(values: seq<string>, params: seq<AttributeValue>, number: Numbers, next: nat, out: seq<AttributeValue>)
    requires BoundTo(values, params, number, next, out) && |out| == |values|
    ensures AllBound(values, params, number, next)
    ensures forall k :: 0 <= k < |values| ==> BoundAt(values, params, number, next, k) == Some(out[k])
  {
    hide BoundAt;
  }

  class ParamBinder {
    const params: seq<AttributeValue>
    const number: Numbers
    var next: nat

    constructor (params: seq<AttributeValue>, number: Numbers)
      ensures this.params == params && this.number == number && next == 0
    {
      this.params := params;
      this.number := number;
      next := 0;
    }

    /** Resolves one token: a question mark takes the next parameter. */
    method Value(token: string) returns (r: Option<AttributeValue>)
      modifies this
      ensures token != "?" ==> r == Literal(token, number) && next == old(next)
      ensures token == "?" ==> if old(next) < |params| then r == Some(params[old(next)]) && next == old(next) + 1
                               else r == None && next == old(next)
    {
      if token == "?" {
        if next >= |params| {
          return None;
        }
        r := Some(params[next]);
        next := next + 1;
        return;
      }
      r := Literal(token, number);
    }

    /** Binds assignments one after the other, and gives up at the first that cannot be bound. */
    method Bind(xs: seq<Assignment>) returns (r: Option<seq<AttributeValue>>)
      modifies this
      ensures r.Some? <==> AllBound(ValuesOf(xs), params, number, old(next))
      ensures r.Some? ==> |r.value| == |xs| && next == old(next) + Marks(ValuesOf(xs))
      ensures r.Some? ==> forall k :: 0 <= k < |xs| ==> BoundAt(ValuesOf(xs), params, number, old(next), k) == Some(r.value[k])
    {
      var values := ValuesOf(xs);
      hide Literal, BoundAt, Marks, AllBound, BoundTo;
      var out: seq<AttributeValue> := [];
      NoneBound(values, params, number, next);
      for i := 0 to |xs|
        invariant |out| == i && BoundTo(values, params, number, old(next), out) && next == old(next) + Marks(values[..i])
      {
        BoundNext(values, params, number, old(next), i);
        var bound := Value(xs[i].value);
        if bound.None? {
          NotAllBound(values, params, number, old(next), i);
          return None;
        }
        BoundMore(values, params, number, old(next), out, bound.value);
        out := out + [bound.value];
      }
      assert values[..|values|] == values;
      BoundAll(values, params, number, old(next), out);
      return Some(out);
    }

    /** Binds a statement's values: SET before WHERE. */
    method BindStatement(st: Statement) returns (r: Option<seq<AttributeValue>>)
      modifies this
      ensures r.Some? <==> AllBound(Values(st), params, number, old(next))
      ensures r.Some? ==> |r.value| == |Values(st)|
      ensures r.Some? ==> forall k :: 0 <= k < |Values(st)| ==> BoundAt(Values(st), params, number, old(next), k) == Some(r.value[k])
    {
      hide BoundAt, Marks;
      match st
      case Select(_, _, conditions) => r := Bind(conditions);
      case Insert(_, values) => r := Bind(values);
      case Delete(_, conditions) => r := Bind(conditions);
      case Update(_, sets, conditions) =>
        ghost var start := next;
        ghost var middle := next + Marks(ValuesOf(sets));
        forall k | 0 <= k < |sets| + |conditions|
          ensures BoundAt(Values(st), params, number, start, k)
                  == if k < |sets| then BoundAt(ValuesOf(sets), params, number, start, k)
                     else BoundAt(ValuesOf(conditions), params, number, middle, k - |sets|)
        {
          BoundAfter(ValuesOf(sets), ValuesOf(conditions), params, number, start, k);
        }
        var first := Bind(sets);
        if first.None? {
          ghost var k :| 0 <= k < |sets| && BoundAt(ValuesOf(sets), params, number, start, k).None?;
          assert BoundAt(Values(st), params, number, start, k).None?;
          return None;
        }
        var second := Bind(conditions);
        if second.None? {
          ghost var k :| 0 <= k < |conditions| && BoundAt(ValuesOf(conditions), params, number, middle, k).None?;
          assert BoundAt(Values(st), params, number, start, |sets| + k).None?;
          return None;
        }
        r := Some(first.value + second.value);
        forall k | 0 <= k < |Values(st)|
          ensures BoundAt(Values(st), params, number, start, k) == Some(r.value[k])
        {
          if k >= |sets| {
            assert BoundAt(ValuesOf(conditions), params, number, middle, k - |sets|) == Some(second.value[k - |sets|]);
          }
        }
    }
  }

  /** A token is bound by the question marks before it. */
  lemma BoundBy(values: seq<string>, params: seq<AttributeValue>, number: Numbers, next: nat, k: nat,
                other: seq<string>, next': nat, k': nat)
    requires k < |values| && k' < |other| && values[k] == other[k'] && next + Marks(values[..k]) == next' + Marks(other[..k'])
    ensures BoundAt(values, params, number, next, k) == BoundAt(other, params, number, next', k')
  {
    hide Literal, Marks;
  }

  lemma BoundAfter(a: seq<string>, b: seq<string>, params: seq<AttributeValue>, number: Numbers, next: nat, k: nat)
    requires k < |a| + |b|
    ensures BoundAt(a + b, params, number, next, k)
            == if k < |a| then BoundAt(a, params, number, next, k) else BoundAt(b, params, number, next + Marks(a), k - |a|)
  {
    hide BoundAt, Marks;
    PrefixOfBoth(a, b, k);
    if k < |a| {
      BoundBy(a + b, params, number, next, k, a, next, k);
    } else {
      MarksAdd(a, b[..k - |a|]);
      BoundBy(a + b, params, number, next, k, b, next + Marks(a), k - |a|);
    }
  }

  lemma PrefixOfBoth(a: seq<string>, b: seq<string>, k: nat)
    requires k < |a| + |b|
    ensures if k < |a| then (a + b)[..k] == a[..k] && (a + b)[k] == a[k]
            else (a + b)[..k] == a + b[..k - |a|] && (a + b)[k] == b[k - |a|]
  {
  }

  // ---- The i-th question mark of the text ----

  /** There are as many question marks in a statement's text as among its values. */
  lemma MarksOfStatement(st: Statement)
    ensures Marks(StatementTokens(st)) == Marks(Values(st))
  {
    hide Marks, JoinedTokens, SelectStart, InsertStart, UpdateStart, DeleteStart;
    StartsHaveNoMarks(if st.Select? then st.columns else [], st.table);
    match st
    case Select(columns, table, conditions) =>
      MarksAdd(SelectStart(columns, table), ["WHERE"]);
      MarksAdd(SelectStart(columns, table) + ["WHERE"], JoinedTokens(conditions, "=", "AND"));
      MarksOfJoined(conditions, "=", "AND");
      assert conditions == [] ==> ValuesOf(conditions) == [];
    case Insert(table, values) =>
      MarksAdd(InsertStart(table), JoinedTokens(values, ":", ","));
      MarksAdd(InsertStart(table) + JoinedTokens(values, ":", ","), ["}"]);
      NoMarks(["}"]);
      MarksOfJoined(values, ":", ",");
    case Update(table, sets, conditions) =>
      var first, last := JoinedTokens(sets, "=", ","), JoinedTokens(conditions, "=", "AND");
      MarksAdd(UpdateStart(table), first);
      MarksAdd(UpdateStart(table) + first, ["WHERE"]);
      MarksAdd(UpdateStart(table) + first + ["WHERE"], last);
      MarksAdd(ValuesOf(sets), ValuesOf(conditions));
      MarksOfJoined(sets, "=", ",");
      MarksOfJoined(conditions, "=", "AND");
    case Delete(table, conditions) =>
      MarksAdd(DeleteStart(table), JoinedTokens(conditions, "=", "AND"));
      MarksOfJoined(conditions, "=", "AND");
  }

  /** A place with i question marks before it and one at it. */
  lemma {:induction false} NthMark(toks: seq<string>, i: nat) returns (k: nat)
    requires i < Marks(toks)
    ensures k < |toks| && toks[k] == "?" && Marks(toks[..k]) == i
    decreases |toks|
  {
    var n := |toks| - 1;
    if Marks(toks[..n]) == i {
      k := n;
    } else {
      k := NthMark(toks[..n], i);
      assert toks[..n][..k] == toks[..k];
    }
  }

  lemma {:induction false} MarksGrow(toks: seq<string>, j: nat, k: nat)
    requires j <= k <= |toks|
    ensures Marks(toks[..j]) <= Marks(toks[..k])
    ensures j < k && toks[j] == "?" ==> Marks(toks[..j]) < Marks(toks[..k])
    decreases k
  {
    if j < k {
      MarksGrow(toks, j, k - 1);
      assert toks[..k][..k - 1] == toks[..k - 1];
    }
  }

  /** The i-th question mark of a statement's text, counted from the left over all its tokens, is one of its
      values, and the value bound to it is the i-th parameter. */
  lemma IthMarkGetsIthParameter(st: Statement, params: seq<AttributeValue>, number: Numbers, p: nat) returns (k: nat)
    requires p < |StatementTokens(st)| && StatementTokens(st)[p] == "?"
    ensures k < |Values(st)| && Values(st)[k] == "?"
    ensures var i := Marks(StatementTokens(st)[..p]);
            && Marks(Values(st)[..k]) == i
            && BoundAt(Values(st), params, number, 0, k) == if i < |params| then Some(params[i]) else None
  {
    hide StatementTokens, Values, Literal;
    var toks := StatementTokens(st);
    MarksOfStatement(st);
    MarksGrow(toks, p, |toks|);
    assert toks[..|toks|] == toks;
    k := NthMark(Values(st), Marks(toks[..p]));
  }
}
