/** Splitting a PartiQL statement into tokens. */
module PartiqlTokens {

  predicate IsBlank(c: char) {
    c == ' ' || c == '\t' || c == '\n' || c == '\r'
  }

  predicate IsQuote(c: char) {
    c == '\'' || c == '"'
  }

  predicate IsPunct(c: char) {
    c == '{' || c == '}' || c == ':' || c == ',' || c == '=' || c == '?' || c == '(' || c == ')'
  }

  predicate IsDelim(c: char) {
    IsBlank(c) || IsPunct(c) || IsQuote(c)
  }

  /** How much of what follows an opening quote belongs to its token, the closing quote included; a doubled
      single quote does not close. */
  function QuotedLength(s: string, q: char): (n: nat)
    ensures n <= |s|
  {
    if s == "" then 0
    else if s[0] != q then 1 + QuotedLength(s[1..], q)
    else if q == '\'' && |s| >= 2 && s[1] == '\'' then 2 + QuotedLength(s[2..], q)
    else 1
  }

  function BareLength(s: string): (n: nat)
    ensures n <= |s|
    ensures s != "" && !IsDelim(s[0]) ==> n > 0
  {
    if s == "" || IsDelim(s[0]) then 0 else 1 + BareLength(s[1..])
  }

  /** The length of the token at the start of what is left, which does not start with a blank. */
  function TokenLength(s: string): (n: nat)
    requires s != "" && !IsBlank(s[0])
    ensures 0 < n <= |s|
  {
    if IsQuote(s[0]) then 1 + QuotedLength(s[1..], s[0])
    else if IsPunct(s[0]) then 1
    else BareLength(s)
  }

  /** The tokens of a statement: it is cut at blanks, and each token is as long as it can be. */
  function Tokens(s: string): seq<string>
    decreases |s|
  {
    if s == "" then []
    else if IsBlank(s[0]) then Tokens(s[1..])
    else
      var n := TokenLength(s);
      [s[..n]] + Tokens(s[n..])
  }

  method Tokenize(s: string) returns (toks: seq<string>)
    ensures toks == Tokens(s)
  {
    hide Tokens, QuotedLength, BareLength;
    toks := [];
    var i := 0;
    assert s[0..] == s;
    NoTokens();
    while i < |s|
      invariant 0 <= i <= |s|
      invariant toks + Tokens(s[i..]) == Tokens(s)
    {
      var c := s[i];
      if IsBlank(c) {
        TokensStep(s, i);
        i := i + 1;
      } else {
        var token, j := [c], i + 1;
        if IsQuote(c) {
          token, j := Quoted(s, i);
        } else if !IsPunct(c) {
          token, j := Bare(s, i);
        }
        assert token == s[i..j] && j == i + TokenLength(s[i..]);
        TokensStep(s, i);
        toks := toks + [token];
        i := j;
      }
    }
    assert s[i..] == "";
  }

  lemma TokensStep(s: string, i: nat)
    requires i < |s|
    ensures IsBlank(s[i]) ==> Tokens(s[i..]) == Tokens(s[i + 1..])
    ensures !IsBlank(s[i]) ==> var j := i + TokenLength(s[i..]); Tokens(s[i..]) == [s[i..j]] + Tokens(s[j..])
  {
    hide TokenLength;
    assert s[i..][1..] == s[i + 1..];
    if !IsBlank(s[i]) {
      var n := TokenLength(s[i..]);
      assert s[i..][..n] == s[i..i + n] && s[i..][n..] == s[i + n..];
    }
  }

  /** The bare token at i, and where it ends. */
  method Bare(s: string, i: nat) returns (token: string, j: nat)
    requires i < |s| && !IsDelim(s[i])
    ensures j == i + TokenLength(s[i..]) <= |s| && token == s[i..j]
  {
    j := i;
    while j < |s| && !IsDelim(s[j])
      invariant i <= j <= |s| && (j - i) + BareLength(s[j..]) == BareLength(s[i..])
    {
      assert s[j..][1..] == s[j + 1..];
      j := j + 1;
    }
    token := s[i..j];
  }

  /** The quoted token at i, built one character or one doubled quote at a time, and where it ends. */
  method Quoted(s: string, i: nat) returns (token: string, j: nat)
    requires i < |s| && IsQuote(s[i])
    ensures j == i + TokenLength(s[i..]) <= |s| && token == s[i..j]
  {
    hide QuotedLength;
    var q := s[i];
    j := i + 1;
    token := [q];
    assert s[i..][1..] == s[i + 1..];
    ghost var end := i + 1 + QuotedLength(s[i + 1..], q);
    while j < |s|
      invariant i + 1 <= j <= |s| && token == s[i..j]
      invariant j + QuotedLength(s[j..], q) == end
    {
      QuotedStep(s, j, q);
      if s[j] == q {
        if q == '\'' && j + 1 < |s| && s[j + 1] == '\'' {
          assert s[i..j + 2] == s[i..j] + [s[j], s[j + 1]];
          token := token + ['\'', '\''];
          j := j + 2;
          continue;
        }
        token := token + [q];
        j := j + 1;
        assert j == end;
        return;
      }
      token := token + [s[j]];
      j := j + 1;
    }
    QuotedEnds(s[j..], q);
  }

  lemma QuotedEnds(s: string, q: char)
    ensures s == "" ==> QuotedLength(s, q) == 0
  {
  }

  lemma QuotedStep(s: string, j: nat, q: char)
    requires j < |s|
    ensures QuotedLength(s[j..], q)
            == if s[j] != q then 1 + QuotedLength(s[j + 1..], q)
               else if q == '\'' && j + 1 < |s| && s[j + 1] == '\'' then 2 + QuotedLength(s[j + 2..], q)
               else 1
  {
    var t := s[j..];
    assert t[1..] == s[j + 1..];
    if |t| >= 2 {
      assert t[2..] == s[j + 2..];
    }
  }

  // ---- Well-formed tokens ----

  /** A text's single quotes doubled. */
  function Doubled(x: string): string {
    if x == "" then "" else (if x[0] == '\'' then "''" else [x[0]]) + Doubled(x[1..])
  }

  /** Single quotes only in pairs, one right after the other. */
  predicate Paired(s: string) {
    if s == "" then true
    else if s[0] != '\'' then Paired(s[1..])
    else |s| >= 2 && s[1] == '\'' && Paired(s[2..])
  }

  lemma {:induction false} DoubledIsPaired(x: string)
    ensures Paired(Doubled(x))
    decreases |x|
  {
    if x != "" {
      DoubledIsPaired(x[1..]);
      if x[0] == '\'' {
        assert Doubled(x)[2..] == Doubled(x[1..]);
      } else {
        assert Doubled(x)[1..] == Doubled(x[1..]);
      }
    }
  }

  predicate IsPunctToken(t: string) {
    |t| == 1 && IsPunct(t[0])
  }

  predicate IsBareToken(t: string) {
    t != "" && forall i :: 0 <= i < |t| ==> !IsDelim(t[i])
  }

  /** In double quotes, with none inside. */
  predicate IsIdentToken(t: string) {
    |t| >= 2 && t[0] == '"' && t[|t| - 1] == '"' && '"' !in t[1..|t| - 1]
  }

  /** In single quotes, with those inside doubled. */
  predicate IsTextToken(t: string) {
    |t| >= 2 && t[0] == '\'' && t[|t| - 1] == '\'' && Paired(t[1..|t| - 1])
  }

  predicate IsToken(t: string) {
    IsPunctToken(t) || IsBareToken(t) || IsIdentToken(t) || IsTextToken(t)
  }

  /** Whether what follows a token leaves it as it is. */
  predicate EndsBefore(t: string, rest: string) {
    rest == "" || if IsBareToken(t) then IsDelim(rest[0]) else if IsTextToken(t) then rest[0] != '\'' else true
  }

  lemma {:induction false} BareLengthOf(t: string, rest: string)
    requires forall i :: 0 <= i < |t| ==> !IsDelim(t[i])
    requires rest == "" || IsDelim(rest[0])
    ensures BareLength(t + rest) == |t|
    decreases |t|
  {
    if t == "" {
      assert t + rest == rest;
    } else {
      assert (t + rest)[1..] == t[1..] + rest;
      BareLengthOf(t[1..], rest);
    }
  }

  lemma {:induction false} IdentLengthOf(inner: string, rest: string)
    requires '"' !in inner
    ensures QuotedLength(inner + "\"" + rest, '"') == |inner| + 1
    decreases |inner|
  {
    if inner == "" {
      assert (inner + "\"" + rest)[0] == '"';
    } else {
      assert (inner + "\"" + rest)[1..] == inner[1..] + "\"" + rest;
      IdentLengthOf(inner[1..], rest);
    }
  }

  lemma {:induction false} TextLengthOf(inner: string, rest: string)
    requires Paired(inner) && (rest == "" || rest[0] != '\'')
    ensures QuotedLength(inner + "'" + rest, '\'') == |inner| + 1
    decreases |inner|
  {
    var s := inner + "'" + rest;
    if inner == "" {
      assert s[0] == '\'' && (|s| >= 2 ==> s[1] == rest[0]);
    } else if inner[0] == '\'' {
      assert s[2..] == inner[2..] + "'" + rest;
      TextLengthOf(inner[2..], rest);
    } else {
      assert s[1..] == inner[1..] + "'" + rest;
      TextLengthOf(inner[1..], rest);
    }
  }

  /** A well-formed token is taken off whole. */
  lemma TokenFirst(t: string, rest: string)
    requires IsToken(t) && EndsBefore(t, rest)
    ensures Tokens(t + rest) == [t] + Tokens(rest)
  {
    var s := t + rest;
    assert s[0] == t[0];
    if IsBareToken(t) {
      BareLengthOf(t, rest);
    } else if IsIdentToken(t) {
      var inner := t[1..|t| - 1];
      assert s[1..] == inner + "\"" + rest;
      IdentLengthOf(inner, rest);
    } else if IsTextToken(t) {
      var inner := t[1..|t| - 1];
      assert s[1..] == inner + "'" + rest;
      TextLengthOf(inner, rest);
    }
    assert TokenLength(s) == |t|;
    assert s[..|t|] == t && s[|t|..] == rest;
  }

  // ---- Writing tokens down ----

  predicate AllBlank(gap: string) {
    forall i :: 0 <= i < |gap| ==> IsBlank(gap[i])
  }

  /** Tokens written one after the other, each followed by its gap. */
  function Spaced(toks: seq<string>, gaps: seq<string>): string
    requires |gaps| == |toks|
  {
    if toks == [] then "" else toks[0] + gaps[0] + Spaced(toks[1..], gaps[1..])
  }

  /** Gaps are blank, and empty only where two tokens do not run together. */
  predicate Gaps(toks: seq<string>, gaps: seq<string>) {
    && |gaps| == |toks|
    && (forall i :: 0 <= i < |gaps| ==> AllBlank(gaps[i]))
    && (forall i :: 0 <= i < |gaps| - 1 && gaps[i] == "" ==> EndsBefore(toks[i], toks[i + 1]))
  }

  lemma {:induction false} BlanksSkipped(gap: string, rest: string)
    requires AllBlank(gap)
    ensures Tokens(gap + rest) == Tokens(rest)
    decreases |gap|
  {
    if gap == "" {
      assert gap + rest == rest;
    } else {
      assert (gap + rest)[1..] == gap[1..] + rest;
      BlanksSkipped(gap[1..], rest);
    }
  }

  /** Whatever blank space is put between tokens, splitting gives the tokens back. */
  lemma {:induction false} SpacedTokens(toks: seq<string>, gaps: seq<string>)
    requires (forall i :: 0 <= i < |toks| ==> IsToken(toks[i])) && Gaps(toks, gaps)
    ensures Tokens(Spaced(toks, gaps)) == toks
    decreases |toks|
  {
    hide Tokens, IsToken, EndsBefore;
    if toks == [] {
      NoTokens();
    } else {
      var after := Spaced(toks[1..], gaps[1..]);
      SpacedTokens(toks[1..], gaps[1..]);
      BlanksSkipped(gaps[0], after);
      FollowsWell(toks, gaps);
      TokenFirst(toks[0], gaps[0] + after);
      assert toks[0] + gaps[0] + after == toks[0] + (gaps[0] + after);
    }
  }

  lemma NoTokens()
    ensures Tokens("") == []
  {
  }

  lemma FollowsWell(toks: seq<string>, gaps: seq<string>)
    requires toks != [] && (forall i :: 0 <= i < |toks| ==> IsToken(toks[i])) && Gaps(toks, gaps)
    ensures EndsBefore(toks[0], gaps[0] + Spaced(toks[1..], gaps[1..]))
  {
    var after := Spaced(toks[1..], gaps[1..]);
    if gaps[0] != "" {
      assert (gaps[0] + after)[0] == gaps[0][0];
      assert IsBlank(gaps[0][0]);
    } else if |toks| > 1 {
      assert EndsBefore(toks[0], toks[1]) && IsToken(toks[1]);
      assert (gaps[0] + after)[0] == toks[1][0];
    }
  }
}
