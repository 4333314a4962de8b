/** Writing a statement down and reading it back. */
module PartiqlRendering {
  import opened Wrappers
  import opened Text
  import opened PartiqlTokens
  import opened PartiqlParser

  /** The keywords the parsers look for among a statement's tokens. */
  const KEYWORDS: set<string> := {"FROM", "WHERE", "SET", "INTO", "VALUE"}

  function Ident(name: string): string {
    "\"" + name + "\""
  }

  /** Any one token can be a value, but for the keywords. */
  predicate ValueToken(v: string) {
    IsToken(v) && ToUpper(v) !in KEYWORDS
  }

  predicate Writable(xs: seq<Assignment>) {
    forall i :: 0 <= i < |xs| ==> '"' !in xs[i].attr && ValueToken(xs[i].value)
  }

  /** Names without double quotes, values of one token each. */
  predicate Renderable(st: Statement) {
    '"' !in st.table &&
    match st
    case Select(columns, _, conditions) => (forall i :: 0 <= i < |columns| ==> '"' !in columns[i]) && Writable(conditions)
    case Insert(_, values) => Writable(values)
    case Update(_, sets, conditions) => Writable(sets) && Writable(conditions)
    case Delete(_, conditions) => Writable(conditions)
  }

  // ---- The tokens of a statement ----

  function OneTokens(x: Assignment, mid: string): seq<string> {
    [Ident(x.attr), mid, x.value]
  }

  /** Assignments, each with mid between its attribute and its value, joined by sep. */
  function JoinedTokens(xs: seq<Assignment>, mid: string, sep: string): seq<string> {
    if xs == [] then []
    else if |xs| == 1 then OneTokens(xs[0], mid)
    else OneTokens(xs[0], mid) + [sep] + JoinedTokens(xs[1..], mid, sep)
  }

  function ColumnList(columns: seq<string>): seq<string> {
    if columns == [] then []
    else if |columns| == 1 then [Ident(columns[0])]
    else ColumnList(columns[..|columns| - 1]) + [",", Ident(columns[|columns| - 1])]
  }

  function ColumnTokens(columns: seq<string>): seq<string> {
    if columns == [] then ["*"] else ColumnList(columns)
  }

  function SelectStart(columns: seq<string>, table: string): seq<string> {
    ["SELECT"] + ColumnTokens(columns) + ["FROM", Ident(table)]
  }

  function InsertStart(table: string): seq<string> {
    ["INSERT", "INTO", Ident(table), "VALUE", "{"]
  }

  function UpdateStart(table: string): seq<string> {
    ["UPDATE", Ident(table), "SET"]
  }

  function DeleteStart(table: string): seq<string> {
    ["DELETE", "FROM", Ident(table), "WHERE"]
  }

  function StatementTokens(st: Statement): seq<string> {
    match st
    case Select(columns, table, conditions) =>
      if conditions == [] then SelectStart(columns, table)
      else SelectStart(columns, table) + ["WHERE"] + JoinedTokens(conditions, "=", "AND")
    case Insert(table, values) =>
      InsertStart(table) + JoinedTokens(values, ":", ",") + ["}"]
    case Update(table, sets, conditions) =>
      UpdateStart(table) + JoinedTokens(sets, "=", ",") + ["WHERE"] + JoinedTokens(conditions, "=", "AND")
    case Delete(table, conditions) =>
      DeleteStart(table) + JoinedTokens(conditions, "=", "AND")
  }

  // ---- Keywords stay where they were put ----

  predicate NoKeyword(toks: seq<string>) {
    forall i :: 0 <= i < |toks| ==> ToUpper(toks[i]) !in KEYWORDS
  }

  lemma IdentIsNoKeyword(name: string)
    ensures ToUpper(Ident(name)) !in KEYWORDS
    ensures UnquoteIdent(Ident(name)) == name
    ensures Ident(name) != "," && Ident(name) != "*" && Ident(name) != "?"
    ensures '"' !in name ==> IsToken(Ident(name))
  {
    var t := Ident(name);
    assert t[0] == '"' && t[|t| - 1] == '"' && t[1..|t| - 1] == name;
    assert ToUpper(t)[0] == '"';
  }

  /** No keyword is shorter than three letters or longer than five. */
  lemma LengthIsNoKeyword(t: string)
    requires |t| < 3 || |t| > 5
    ensures NoKeyword([t])
  {
  }

  /** The small tokens between the names and the values. */
  lemma MarksAreNoKeywords()
    ensures NoKeyword(["="]) && NoKeyword([":"]) && NoKeyword([","]) && NoKeyword(["AND"]) && NoKeyword(["*"])
    ensures NoKeyword(["{"]) && NoKeyword(["}"]) && NoKeyword(["SELECT"]) && NoKeyword(["INSERT"]) && NoKeyword(["UPDATE"]) && NoKeyword(["DELETE"])
    ensures ToUpper("AND") == "AND"
  {
    UpperWords();
    AndIsNoKeyword();
    hide ToUpper, KEYWORDS, NoKeyword;
    LengthIsNoKeyword("=");
    LengthIsNoKeyword(":");
    LengthIsNoKeyword(",");
    LengthIsNoKeyword("*");
    LengthIsNoKeyword("{");
    LengthIsNoKeyword("}");
    LengthIsNoKeyword("SELECT");
    LengthIsNoKeyword("INSERT");
    LengthIsNoKeyword("UPDATE");
    LengthIsNoKeyword("DELETE");
  }

  lemma AndIsNoKeyword()
    ensures NoKeyword(["AND"])
  {
    assert ToUpper("AND")[0] == 'A';
  }

  lemma UpperWords()
    ensures forall w :: w in {"AND", "SELECT", "INSERT", "UPDATE", "DELETE", "FROM", "WHERE", "SET", "INTO", "VALUE"} ==> ToUpper(w) == w
  {
    forall w | w in {"AND", "SELECT", "INSERT", "UPDATE", "DELETE", "FROM", "WHERE", "SET", "INTO", "VALUE"}
      ensures ToUpper(w) == w
    {
      ShoutedIsUpper(w);
    }
  }

  lemma ShoutedIsUpper(w: string)
    requires forall i :: 0 <= i < |w| ==> 'A' <= w[i] <= 'Z'
    ensures ToUpper(w) == w
  {
  }

  lemma {:induction false} JoinedHasNoKeyword(xs: seq<Assignment>, mid: string, sep: string)
    requires Writable(xs) && NoKeyword([mid]) && NoKeyword([sep])
    ensures NoKeyword(JoinedTokens(xs, mid, sep))
    decreases |xs|
  {
    hide KEYWORDS, IsToken, ToUpper, Ident;
    if xs != [] {
      IdentIsNoKeyword(xs[0].attr);
      assert ToUpper([mid][0]) !in KEYWORDS && ToUpper([sep][0]) !in KEYWORDS;
      assert NoKeyword(OneTokens(xs[0], mid) + [sep]);
      if |xs| > 1 {
        JoinedHasNoKeyword(xs[1..], mid, sep);
      }
    }
  }

  lemma {:induction false} ColumnsHaveNoKeyword(columns: seq<string>)
    ensures NoKeyword(ColumnList(columns))
    decreases |columns|
  {
    hide KEYWORDS, ToUpper, Ident;
    if columns != [] {
      MarksAreNoKeywords();
      assert ToUpper([","][0]) !in KEYWORDS;
      IdentIsNoKeyword(columns[|columns| - 1]);
      if |columns| > 1 {
        ColumnsHaveNoKeyword(columns[..|columns| - 1]);
      }
    }
  }

  lemma {:induction false} KeywordAt(before: seq<string>, kw: string, after: seq<string>)
    requires kw in KEYWORDS && NoKeyword(before)
    ensures IndexOfKeyword(before + [kw] + after, kw) == |before|
  {
    UpperWords();
    assert ToUpper(kw) == kw;
    hide KEYWORDS, ToUpper;
    var toks := before + [kw] + after;
    var i := IndexOfKeyword(toks, kw);
    assert toks[|before|] == kw;
    assert forall j :: 0 <= j < |before| ==> toks[j] == before[j] && ToUpper(toks[j]) != kw;
  }

  lemma NoKeywordAnywhere(toks: seq<string>, kw: string)
    requires kw in KEYWORDS && forall i :: 0 <= i < |toks| ==> ToUpper(toks[i]) != kw
    ensures IndexOfKeyword(toks, kw) == -1
  {
  }

  // ---- Lists read back ----

  lemma OneCondition(x: Assignment, rest: seq<string>)
    ensures Conditions(OneTokens(x, "=")) == Some([x])
    ensures Conditions(OneTokens(x, "=") + ["AND"] + rest) == Ahead([x], Conditions(rest))
  {
    MarksAreNoKeywords();
    IdentIsNoKeyword(x.attr);
    hide ToUpper, Ident, Ahead;
    var toks := OneTokens(x, "=") + ["AND"] + rest;
    assert toks[3] == "AND" && toks[4..] == rest;
  }

  lemma {:induction false} ConditionsReadBack(xs: seq<Assignment>)
    ensures Conditions(JoinedTokens(xs, "=", "AND")) == Some(xs)
    decreases |xs|
  {
    hide Conditions, OneTokens;
    if xs == [] {
      NoConditions();
    } else {
      assert xs == [xs[0]] + xs[1..];
      assert |xs| == 1 ==> xs == [xs[0]];
      ConditionsReadBack(xs[1..]);
      OneCondition(xs[0], JoinedTokens(xs[1..], "=", "AND"));
    }
  }

  lemma NoConditions()
    ensures Conditions([]) == Some([])
    ensures forall mid :: Listed([], mid) == Some([])
  {
  }

  lemma OneListed(x: Assignment, mid: string, rest: seq<string>)
    ensures Listed(OneTokens(x, mid), mid) == Some([x])
    ensures Listed(OneTokens(x, mid) + [","] + rest, mid) == Ahead([x], Listed(rest, mid))
  {
    IdentIsNoKeyword(x.attr);
    hide Ident;
    AheadTwice([x], [], Some([]));
    assert OneTokens(x, mid)[3..] == [];
    var toks := OneTokens(x, mid) + [","] + rest;
    assert toks[3] == "," && toks[4..] == rest;
  }

  lemma {:induction false} ListReadsBack(xs: seq<Assignment>, mid: string)
    ensures Listed(JoinedTokens(xs, mid, ","), mid) == Some(xs)
    decreases |xs|
  {
    hide Listed, OneTokens;
    if xs == [] {
      NoConditions();
    } else {
      assert xs == [xs[0]] + xs[1..];
      assert |xs| == 1 ==> xs == [xs[0]];
      ListReadsBack(xs[1..], mid);
      OneListed(xs[0], mid, JoinedTokens(xs[1..], mid, ","));
    }
  }

  lemma NamedAppend(toks: seq<string>, t: string)
    ensures Named(toks + [t]) == Named(toks) + (if t == "," then [] else [UnquoteIdent(t)])
  {
    hide UnquoteIdent;
    assert (toks + [t])[..|toks|] == toks;
  }

  lemma NamedOneMore(toks: seq<string>, name: string)
    ensures Named([Ident(name)]) == [name]
    ensures Named(toks + [",", Ident(name)]) == Named(toks) + [name]
    ensures "*" !in toks ==> "*" !in toks + [",", Ident(name)]
    ensures "*" !in [Ident(name)]
  {
    IdentIsNoKeyword(name);
    NothingNamed();
    hide Ident, Named, UnquoteIdent;
    NamedAppend([], Ident(name));
    assert [] + [Ident(name)] == [Ident(name)];
    NamedAppend(toks, ",");
    NamedAppend(toks + [","], Ident(name));
    assert toks + [","] + [Ident(name)] == toks + [",", Ident(name)];
  }

  lemma {:induction false} NamedReadsBack(columns: seq<string>)
    ensures Named(ColumnList(columns)) == columns && "*" !in ColumnList(columns)
    decreases |columns|
  {
    hide Ident, Named;
    if columns == [] {
      NothingNamed();
    } else {
      var n := |columns| - 1;
      assert columns == columns[..n] + [columns[n]];
      NamedReadsBack(columns[..n]);
      NamedOneMore(ColumnList(columns[..n]), columns[n]);
    }
  }

  lemma NothingNamed()
    ensures Named([]) == []
  {
  }

  lemma ColumnsReadBack(columns: seq<string>)
    ensures Columns(ColumnTokens(columns)) == columns
  {
    if columns == [] {
      assert "*" in ["*"];
    } else {
      NamedReadsBack(columns);
    }
  }

  // ---- Statements read back ----

  lemma SelectReadsBack(st: Statement)
    requires st.Select? && Renderable(st)
    ensures Parsed(StatementTokens(st)) == Some(st)
  {
    hide Conditions, Columns, JoinedTokens, ColumnTokens, ValueToken, ToUpper, KEYWORDS, Ident;
    var toks := StatementTokens(st);
    var before := ["SELECT"] + ColumnTokens(st.columns);
    SelectHeadHasNoKeyword(st.columns);
    IdentIsNoKeyword(st.table);
    SelectWhere(st);
    FromIsKeyword();
    var after := [Ident(st.table)] + if st.conditions == [] then [] else ["WHERE"] + JoinedTokens(st.conditions, "=", "AND");
    SelectShape(st);
    KeywordAt(before, "FROM", after);
    ColumnsReadBack(st.columns);
    ConditionsReadBack(st.conditions);
    UpperWords();
    assert toks[0] == "SELECT";
  }

  lemma SelectShape(st: Statement)
    requires st.Select?
    ensures var toks, before := StatementTokens(st), ["SELECT"] + ColumnTokens(st.columns);
            && toks == before + ["FROM"] + ([Ident(st.table)] + if st.conditions == [] then [] else ["WHERE"] + JoinedTokens(st.conditions, "=", "AND"))
            && toks[1..|before|] == ColumnTokens(st.columns) && toks[|before| + 1] == Ident(st.table)
  {
    hide ColumnTokens, JoinedTokens, Ident;
  }

  lemma FromIsKeyword()
    ensures "FROM" in KEYWORDS && "WHERE" in KEYWORDS && "SET" in KEYWORDS && "INTO" in KEYWORDS && "VALUE" in KEYWORDS
  {
  }

  lemma SelectHeadHasNoKeyword(columns: seq<string>)
    ensures NoKeyword(["SELECT"] + ColumnTokens(columns))
  {
    MarksAreNoKeywords();
    ColumnsHaveNoKeyword(columns);
    hide KEYWORDS, ToUpper, ColumnList;
    assert ToUpper(["SELECT"][0]) !in KEYWORDS;
    assert ToUpper(["*"][0]) !in KEYWORDS;
  }

  /** Where a written SELECT's WHERE is: after the table, if it has conditions. */
  lemma SelectWhere(st: Statement)
    requires st.Select? && Renderable(st)
    ensures var toks, at := StatementTokens(st), |ColumnTokens(st.columns)| + 3;
            if st.conditions == [] then IndexOfKeyword(toks, "WHERE") == -1
            else IndexOfKeyword(toks, "WHERE") == at && toks[at + 1..] == JoinedTokens(st.conditions, "=", "AND")
  {
    hide JoinedTokens, ColumnTokens, ValueToken, ToUpper, KEYWORDS, Ident;
    var toks := StatementTokens(st);
    var before := ["SELECT"] + ColumnTokens(st.columns) + ["FROM", Ident(st.table)];
    SelectHeadHasNoKeyword(st.columns);
    IdentIsNoKeyword(st.table);
    UpperWords();
    FromIsKeyword();
    assert "FROM" != "WHERE";
    forall i | 0 <= i < |before|
      ensures ToUpper(before[i]) != "WHERE"
    {
      assert i < |before| - 2 ==> before[i] == (["SELECT"] + ColumnTokens(st.columns))[i];
    }
    if st.conditions == [] {
      assert toks == before;
      NoKeywordAnywhere(toks, "WHERE");
    } else {
      var conds := JoinedTokens(st.conditions, "=", "AND");
      assert toks == before + ["WHERE"] + conds;
      WhereAt(before, conds);
    }
  }

  lemma WhereAt(before: seq<string>, after: seq<string>)
    requires forall i :: 0 <= i < |before| ==> ToUpper(before[i]) != "WHERE"
    ensures IndexOfKeyword(before + ["WHERE"] + after, "WHERE") == |before|
    ensures (before + ["WHERE"] + after)[|before| + 1..] == after
  {
    UpperWords();
    hide ToUpper;
    var toks := before + ["WHERE"] + after;
    assert toks[|before|] == "WHERE";
    assert forall j :: 0 <= j < |before| ==> toks[j] == before[j];
  }

  lemma DeleteReadsBack(st: Statement)
    requires st.Delete? && Renderable(st)
    ensures Parsed(StatementTokens(st)) == Some(st)
  {
    hide Conditions, JoinedTokens, ValueToken, ToUpper, KEYWORDS, Ident;
    var toks := StatementTokens(st);
    var conds := JoinedTokens(st.conditions, "=", "AND");
    var before := ["DELETE", "FROM", Ident(st.table)];
    IdentIsNoKeyword(st.table);
    MarksAreNoKeywords();
    UpperWords();
    FromIsKeyword();
    KeywordAt(["DELETE"], "FROM", [Ident(st.table), "WHERE"] + conds);
    assert toks == ["DELETE"] + ["FROM"] + ([Ident(st.table), "WHERE"] + conds);
    assert ToUpper(before[0]) != "WHERE" && ToUpper(before[1]) != "WHERE" && ToUpper(before[2]) != "WHERE";
    WhereAt(before, conds);
    assert toks == before + ["WHERE"] + conds;
    ConditionsReadBack(st.conditions);
  }

  lemma UpdateReadsBack(st: Statement)
    requires st.Update? && Renderable(st)
    ensures Parsed(StatementTokens(st)) == Some(st)
  {
    hide Conditions, Listed, JoinedTokens, ValueToken, ToUpper, KEYWORDS, Ident;
    var toks := StatementTokens(st);
    var sets, conds := JoinedTokens(st.sets, "=", ","), JoinedTokens(st.conditions, "=", "AND");
    var before := ["UPDATE", Ident(st.table), "SET"] + sets;
    IdentIsNoKeyword(st.table);
    MarksAreNoKeywords();
    UpperWords();
    FromIsKeyword();
    JoinedHasNoKeyword(st.sets, "=", ",");
    KeywordAt(["UPDATE", Ident(st.table)], "SET", sets + (["WHERE"] + conds));
    assert toks == ["UPDATE", Ident(st.table)] + ["SET"] + (sets + (["WHERE"] + conds));
    forall i | 0 <= i < |before|
      ensures ToUpper(before[i]) != "WHERE"
    {
      assert i >= 3 ==> before[i] == sets[i - 3];
    }
    WhereAt(before, conds);
    assert toks == before + ["WHERE"] + conds;
    assert toks[3..|before|] == sets;
    ListReadsBack(st.sets, "=");
    ConditionsReadBack(st.conditions);
  }

  lemma InsertReadsBack(st: Statement)
    requires st.Insert? && Renderable(st)
    ensures Parsed(StatementTokens(st)) == Some(st)
  {
    hide Listed, JoinedTokens, ValueToken, ToUpper, KEYWORDS, Ident;
    var toks := StatementTokens(st);
    var entries := ["{"] + JoinedTokens(st.values, ":", ",") + ["}"];
    IdentIsNoKeyword(st.table);
    MarksAreNoKeywords();
    UpperWords();
    FromIsKeyword();
    KeywordAt(["INSERT"], "INTO", [Ident(st.table), "VALUE"] + entries);
    assert toks == ["INSERT"] + ["INTO"] + ([Ident(st.table), "VALUE"] + entries);
    var before := ["INSERT", "INTO", Ident(st.table)];
    assert ToUpper(before[0]) != "VALUE" && ToUpper(before[1]) != "VALUE" && ToUpper(before[2]) != "VALUE";
    ValueAt(before, entries);
    assert toks == before + ["VALUE"] + entries;
    assert entries[1..|entries| - 1] == JoinedTokens(st.values, ":", ",");
    ListReadsBack(st.values, ":");
  }

  lemma ValueAt(before: seq<string>, after: seq<string>)
    requires forall i :: 0 <= i < |before| ==> ToUpper(before[i]) != "VALUE"
    ensures IndexOfKeyword(before + ["VALUE"] + after, "VALUE") == |before|
    ensures (before + ["VALUE"] + after)[|before| + 1..] == after
  {
    UpperWords();
    hide ToUpper;
    var toks := before + ["VALUE"] + after;
    assert toks[|before|] == "VALUE";
    assert forall j :: 0 <= j < |before| ==> toks[j] == before[j];
  }

  lemma StatementReadsBack(st: Statement)
    requires Renderable(st)
    ensures Parsed(StatementTokens(st)) == Some(st)
  {
    match st
    case Select(_, _, _) => SelectReadsBack(st);
    case Insert(_, _) => InsertReadsBack(st);
    case Update(_, _, _) => UpdateReadsBack(st);
    case Delete(_, _) => DeleteReadsBack(st);
  }

  // ---- And as text ----

  predicate AllTokens(toks: seq<string>) {
    forall i :: 0 <= i < |toks| ==> IsToken(toks[i])
  }

  lemma WordIsToken(w: string)
    requires w != "" && forall i :: 0 <= i < |w| ==> 'A' <= w[i] <= 'Z'
    ensures AllTokens([w])
  {
    assert IsBareToken(w);
  }

  lemma MarksAreTokens()
    ensures AllTokens(["="]) && AllTokens([":"]) && AllTokens([","]) && AllTokens(["{"]) && AllTokens(["}"]) && AllTokens(["*"])
    ensures AllTokens(["WHERE"]) && AllTokens(["AND"])
  {
    assert IsBareToken("*");
    WordIsToken("WHERE");
    WordIsToken("AND");
  }

  lemma SelectStartIsTokens(columns: seq<string>, table: string)
    requires '"' !in table && forall i :: 0 <= i < |columns| ==> '"' !in columns[i]
    ensures AllTokens(SelectStart(columns, table))
  {
    IdentIsNoKeyword(table);
    WordIsToken("SELECT");
    WordIsToken("FROM");
    ColumnsAreTokens(columns);
    hide IsToken, Ident, ColumnTokens;
    assert IsToken(["SELECT"][0]) && IsToken(["FROM"][0]);
  }

  lemma InsertStartIsTokens(table: string)
    requires '"' !in table
    ensures AllTokens(InsertStart(table))
  {
    IdentIsNoKeyword(table);
    MarksAreTokens();
    WordIsToken("INSERT");
    WordIsToken("INTO");
    WordIsToken("VALUE");
    hide IsToken, Ident;
    assert IsToken(["INSERT"][0]) && IsToken(["INTO"][0]) && IsToken(["VALUE"][0]) && IsToken(["{"][0]);
  }

  lemma UpdateStartIsTokens(table: string)
    requires '"' !in table
    ensures AllTokens(UpdateStart(table))
  {
    IdentIsNoKeyword(table);
    WordIsToken("UPDATE");
    WordIsToken("SET");
    hide IsToken, Ident;
    assert IsToken(["UPDATE"][0]) && IsToken(["SET"][0]);
  }

  lemma DeleteStartIsTokens(table: string)
    requires '"' !in table
    ensures AllTokens(DeleteStart(table))
  {
    IdentIsNoKeyword(table);
    WordIsToken("DELETE");
    WordIsToken("FROM");
    WordIsToken("WHERE");
    hide IsToken, Ident;
    assert IsToken(["DELETE"][0]) && IsToken(["FROM"][0]) && IsToken(["WHERE"][0]);
  }

  lemma {:induction false} JoinedAreTokens(xs: seq<Assignment>, mid: string, sep: string)
    requires Writable(xs) && AllTokens([mid]) && AllTokens([sep])
    ensures AllTokens(JoinedTokens(xs, mid, sep))
    decreases |xs|
  {
    hide IsToken, KEYWORDS, Ident;
    if xs != [] {
      IdentIsNoKeyword(xs[0].attr);
      assert IsToken([mid][0]) && IsToken([sep][0]);
      if |xs| > 1 {
        JoinedAreTokens(xs[1..], mid, sep);
      }
    }
  }

  lemma {:induction false} ColumnsAreTokens(columns: seq<string>)
    requires forall i :: 0 <= i < |columns| ==> '"' !in columns[i]
    ensures AllTokens(ColumnTokens(columns))
    decreases |columns|
  {
    MarksAreTokens();
    hide IsToken, Ident;
    assert IsToken([","][0]) && IsToken(["*"][0]);
    if columns != [] {
      IdentIsNoKeyword(columns[|columns| - 1]);
      if |columns| > 1 {
        ColumnsAreTokens(columns[..|columns| - 1]);
      }
    }
  }

  lemma StatementAreTokens(st: Statement)
    requires Renderable(st)
    ensures AllTokens(StatementTokens(st))
  {
    MarksAreTokens();
    hide IsToken, ValueToken, JoinedTokens, SelectStart, InsertStart, UpdateStart, DeleteStart;
    assert IsToken(["WHERE"][0]) && IsToken(["}"][0]);
    match st
    case Select(columns, table, conditions) =>
      SelectStartIsTokens(columns, table);
      JoinedAreTokens(conditions, "=", "AND");
    case Insert(table, values) =>
      InsertStartIsTokens(table);
      JoinedAreTokens(values, ":", ",");
    case Update(table, sets, conditions) =>
      UpdateStartIsTokens(table);
      JoinedAreTokens(sets, "=", ",");
      JoinedAreTokens(conditions, "=", "AND");
    case Delete(table, conditions) =>
      DeleteStartIsTokens(table);
      JoinedAreTokens(conditions, "=", "AND");
  }

  /** A statement written down, with any blank space its tokens leave room for, parses to itself. */
  lemma RenderedReadsBack(st: Statement, lead: string, gaps: seq<string>)
    requires Renderable(st) && AllBlank(lead) && Gaps(StatementTokens(st), gaps)
    ensures Parsed(Tokens(lead + Spaced(StatementTokens(st), gaps))) == Some(st)
  {
    hide Parsed, StatementTokens, Renderable, Tokens;
    StatementAreTokens(st);
    StatementReadsBack(st);
    SpacedTokens(StatementTokens(st), gaps);
    BlanksSkipped(lead, Spaced(StatementTokens(st), gaps));
  }

  // ---- Where the question marks are ----

  /** The values of a statement, in the order they are bound. */
  function Values(st: Statement): seq<string> {
    match st
    case Select(_, _, conditions) => ValuesOf(conditions)
    case Insert(_, values) => ValuesOf(values)
    case Update(_, sets, conditions) => ValuesOf(sets) + ValuesOf(conditions)
    case Delete(_, conditions) => ValuesOf(conditions)
  }

  function ValuesOf(xs: seq<Assignment>): (vs: seq<string>)
    ensures |vs| == |xs|
    ensures forall i :: 0 <= i < |xs| ==> vs[i] == xs[i].value
  {
    seq(|xs|, i requires 0 <= i < |xs| => xs[i].value)
  }

  /** The question marks among tokens, in order. */
  function Marks(toks: seq<string>): nat {
    if toks == [] then 0 else Marks(toks[..|toks| - 1]) + (if toks[|toks| - 1] == "?" then 1 else 0)
  }

  lemma {:induction false} MarksAdd(a: seq<string>, b: seq<string>)
    ensures Marks(a + b) == Marks(a) + Marks(b)
    decreases |b|
  {
    if b == [] {
      assert a + b == a;
    } else {
      assert (a + b)[..|a + b| - 1] == a + b[..|b| - 1];
      MarksAdd(a, b[..|b| - 1]);
    }
  }

  /** The k-th value of a list stands somewhere in its tokens, with as many question marks before it there
      as among the values before it. */
  ghost predicate StandsAt(toks: seq<string>, values: seq<string>, k: nat)
    requires k < |values|
  {
    exists p :: 0 <= p < |toks| && toks[p] == values[k] && Marks(toks[..p]) == Marks(values[..k])
  }

  lemma {:induction false} JoinedStandsAt(xs: seq<Assignment>, mid: string, sep: string, k: nat)
    requires k < |xs| && mid != "?" && sep != "?"
    ensures StandsAt(JoinedTokens(xs, mid, sep), ValuesOf(xs), k)
    decreases |xs|
  {
    hide Ident, Marks, StandsAt, OneTokens, ValuesOf;
    var rest := xs[1..];
    FirstOfValues(xs);
    if k == 0 {
      FirstStandsAt(xs[0], mid, if |xs| == 1 then [] else [sep] + JoinedTokens(rest, mid, sep), ValuesOf(rest));
      Tacked(OneTokens(xs[0], mid), [sep], JoinedTokens(rest, mid, sep));
    } else {
      JoinedStandsAt(rest, mid, sep, k - 1);
      MarksOfOne(xs[0], mid, sep);
      StandsFurther(OneTokens(xs[0], mid) + [sep], JoinedTokens(rest, mid, sep), [], [xs[0].value], ValuesOf(rest), k - 1);
      Tacked(OneTokens(xs[0], mid), [sep], JoinedTokens(rest, mid, sep));
    }
  }

  lemma FirstOfValues(xs: seq<Assignment>)
    requires xs != []
    ensures ValuesOf(xs) == [xs[0].value] + ValuesOf(xs[1..])
  {
  }

  lemma Tacked(a: seq<string>, b: seq<string>, c: seq<string>)
    ensures a + b + c + [] == a + b + c == a + (b + c) && a + [] == a
  {
  }

  lemma FirstStandsAt(x: Assignment, mid: string, after: seq<string>, more: seq<string>)
    requires mid != "?"
    ensures StandsAt(OneTokens(x, mid) + after, [x.value] + more, 0)
  {
    IdentIsNoKeyword(x.attr);
    hide Ident, Marks;
    var toks, values := OneTokens(x, mid) + after, [x.value] + more;
    assert toks[2] == values[0] && toks[..2] == [Ident(x.attr), mid] && values[..0] == [];
    MarksOfTwo(Ident(x.attr), mid);
  }

  lemma MarksOfTwo(a: string, b: string)
    requires a != "?" && b != "?"
    ensures Marks([a, b]) == 0 == Marks([])
  {
    NoMarks([a, b]);
  }

  lemma MarksOfOne(x: Assignment, mid: string, sep: string)
    requires mid != "?" && sep != "?"
    ensures Marks(OneTokens(x, mid) + [sep]) == Marks([x.value])
  {
    IdentIsNoKeyword(x.attr);
    var toks := OneTokens(x, mid) + [sep];
    assert toks[..3] == [Ident(x.attr), mid, x.value] && toks[..3][..2] == [Ident(x.attr), mid];
    MarksOfTwo(Ident(x.attr), mid);
    assert [x.value][..0] == [];
  }

  lemma {:induction false} MarksOfJoined(xs: seq<Assignment>, mid: string, sep: string)
    requires mid != "?" && sep != "?"
    ensures Marks(JoinedTokens(xs, mid, sep)) == Marks(ValuesOf(xs))
    decreases |xs|
  {
    hide Ident, Marks;
    if |xs| == 1 {
      IdentIsNoKeyword(xs[0].attr);
      assert OneTokens(xs[0], mid) == [Ident(xs[0].attr), mid] + [xs[0].value];
      assert ValuesOf(xs) == [xs[0].value];
      MarksAdd([Ident(xs[0].attr), mid], [xs[0].value]);
      MarksOfTwo(Ident(xs[0].attr), mid);
    } else if |xs| > 1 {
      MarksOfJoined(xs[1..], mid, sep);
      MarksOfOne(xs[0], mid, sep);
      MarksAdd(OneTokens(xs[0], mid) + [sep], JoinedTokens(xs[1..], mid, sep));
      assert ValuesOf(xs) == [xs[0].value] + ValuesOf(xs[1..]);
      MarksAdd([xs[0].value], ValuesOf(xs[1..]));
    }
  }

  /** A place in part of the tokens is a place in all of them, past what comes before. */
  lemma StandsFurther(before: seq<string>, toks: seq<string>, after: seq<string>, done: seq<string>, values: seq<string>, k: nat)
    requires k < |values| && StandsAt(toks, values, k) && Marks(before) == Marks(done)
    ensures StandsAt(before + toks + after, done + values, |done| + k)
  {
    hide Marks;
    var p :| 0 <= p < |toks| && toks[p] == values[k] && Marks(toks[..p]) == Marks(values[..k]);
    var all := before + toks + after;
    assert all[..|before| + p] == before + toks[..p] && (done + values)[..|done| + k] == done + values[..k];
    MarksAdd(before, toks[..p]);
    MarksAdd(done, values[..k]);
    assert all[|before| + p] == (done + values)[|done| + k];
  }

  lemma {:induction false} NoMarks(toks: seq<string>)
    requires forall i :: 0 <= i < |toks| ==> toks[i] != "?"
    ensures Marks(toks) == 0
    decreases |toks|
  {
    if toks != [] {
      NoMarks(toks[..|toks| - 1]);
    }
  }

  lemma {:induction false} ListHasNoMarks(columns: seq<string>)
    ensures forall i :: 0 <= i < |ColumnList(columns)| ==> ColumnList(columns)[i] != "?"
    decreases |columns|
  {
    hide Ident;
    if columns != [] {
      IdentIsNoKeyword(columns[|columns| - 1]);
      if |columns| > 1 {
        ListHasNoMarks(columns[..|columns| - 1]);
      }
    }
  }

  lemma SelectStartHasNoMarks(columns: seq<string>, table: string)
    ensures Marks(SelectStart(columns, table) + ["WHERE"]) == 0
  {
    IdentIsNoKeyword(table);
    ListHasNoMarks(columns);
    hide Ident, Marks, ColumnList;
    NoMarks(["SELECT"]);
    NoMarks(ColumnTokens(columns));
    NoMarks(["FROM", Ident(table)]);
    NoMarks(["WHERE"]);
    MarksAdd(["SELECT"], ColumnTokens(columns));
    MarksAdd(["SELECT"] + ColumnTokens(columns), ["FROM", Ident(table)]);
    MarksAdd(SelectStart(columns, table), ["WHERE"]);
  }

  /** Words and names are longer than a question mark. */
  lemma WordsHaveNoMarks(toks: seq<string>)
    requires forall i :: 0 <= i < |toks| ==> |toks[i]| > 1
    ensures Marks(toks) == 0
  {
    NoMarks(toks);
  }

  lemma StartsHaveNoMarks(columns: seq<string>, table: string)
    ensures Marks(SelectStart(columns, table) + ["WHERE"]) == 0 && Marks(InsertStart(table)) == 0
    ensures Marks(UpdateStart(table)) == 0 && Marks(DeleteStart(table)) == 0 && Marks(["WHERE"]) == 0 && Marks([]) == 0
  {
    SelectStartHasNoMarks(columns, table);
    hide Marks, SelectStart;
    WordsHaveNoMarks([]);
    WordsHaveNoMarks(["WHERE"]);
    WordsHaveNoMarks(UpdateStart(table));
    WordsHaveNoMarks(DeleteStart(table));
    var words := ["INSERT", "INTO", Ident(table), "VALUE"];
    WordsHaveNoMarks(words);
    NoMarks(["{"]);
    MarksAdd(words, ["{"]);
    assert InsertStart(table) == words + ["{"];
  }

  /** Every value of a statement is bound in the order it stands in the text: as many question marks come
      before it there as among the values bound before it. */
  lemma ValuesStandInOrder(st: Statement, k: nat)
    requires k < |Values(st)|
    ensures StandsAt(StatementTokens(st), Values(st), k)
  {
    hide Marks, StandsAt, JoinedTokens, SelectStart, InsertStart, UpdateStart, DeleteStart;
    StartsHaveNoMarks(if st.Select? then st.columns else [], st.table);
    var values := Values(st);
    assert [] + values == values;
    match st
    case Select(columns, table, conditions) =>
      var last := JoinedTokens(conditions, "=", "AND");
      JoinedStandsAt(conditions, "=", "AND", k);
      StandsFurther(SelectStart(columns, table) + ["WHERE"], last, [], [], values, k);
      assert SelectStart(columns, table) + ["WHERE"] + last + [] == StatementTokens(st);
    case Insert(table, entries) =>
      JoinedStandsAt(entries, ":", ",", k);
      StandsFurther(InsertStart(table), JoinedTokens(entries, ":", ","), ["}"], [], values, k);
    case Update(_, _, _) =>
      UpdateStandsInOrder(st, k);
    case Delete(table, conditions) =>
      JoinedStandsAt(conditions, "=", "AND", k);
      StandsFurther(DeleteStart(table), JoinedTokens(conditions, "=", "AND"), [], [], values, k);
      assert DeleteStart(table) + JoinedTokens(conditions, "=", "AND") + [] == StatementTokens(st);
  }

  lemma UpdateStandsInOrder(st: Statement, k: nat)
    requires st.Update? && k < |Values(st)|
    ensures StandsAt(StatementTokens(st), Values(st), k)
  {
    hide Marks, StandsAt, JoinedTokens, UpdateStart, ValuesOf;
    StartsHaveNoMarks([], st.table);
    var start, first, last := UpdateStart(st.table), JoinedTokens(st.sets, "=", ","), JoinedTokens(st.conditions, "=", "AND");
    if k < |st.sets| {
      JoinedStandsAt(st.sets, "=", ",", k);
    } else {
      JoinedStandsAt(st.conditions, "=", "AND", k - |st.sets|);
    }
    MarksOfJoined(st.sets, "=", ",");
    TwoListsStandInOrder(start, first, last, ValuesOf(st.sets), ValuesOf(st.conditions), "WHERE", k);
  }

  lemma TwoListsStandInOrder(start: seq<string>, first: seq<string>, last: seq<string>, sets: seq<string>, conds: seq<string>, word: string, k: nat)
    requires Marks(start) == 0 && Marks([]) == 0 && Marks(first) == Marks(sets) && |word| > 1 && k < |sets| + |conds|
    requires if k < |sets| then StandsAt(first, sets, k) else StandsAt(last, conds, k - |sets|)
    ensures StandsAt(start + first + [word] + last, sets + conds, k)
  {
    hide Marks, StandsAt;
    if k < |sets| {
      StandsFurther(start, first, [word] + last, [], sets, k);
      Regroup(start, first, [word], last);
      assert [] + sets == sets;
      StandsAmongMore(start + first + [word] + last, sets, conds, k);
    } else {
      MarksAdd(start, first);
      WordsHaveNoMarks([word]);
      MarksAdd(start + first, [word]);
      StandsFurther(start + first + [word], last, [], sets, conds, k - |sets|);
      assert start + first + [word] + last + [] == start + first + [word] + last;
    }
  }

  lemma Regroup(a: seq<string>, b: seq<string>, c: seq<string>, d: seq<string>)
    ensures a + b + (c + d) == a + b + c + d
  {
  }

  lemma StandsAmongMore(toks: seq<string>, values: seq<string>, more: seq<string>, k: nat)
    requires k < |values| && StandsAt(toks, values, k)
    ensures StandsAt(toks, values + more, k)
  {
    hide Marks;
    assert (values + more)[..k] == values[..k];
  }
}
