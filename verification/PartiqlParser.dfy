/** Parsing the four PartiQL statements, and writing them down again. */
module PartiqlParser {
  import opened Wrappers
  import opened Text
  import opened PartiqlTokens

  /** One attribute and the raw token of its value. */
  datatype Assignment = Assignment(attr: string, value: string)

  datatype Statement =
    | Select(columns: seq<string>, table: string, conditions: seq<Assignment>)
    | Insert(table: string, values: seq<Assignment>)
    | Update(table: string, sets: seq<Assignment>, conditions: seq<Assignment>)
    | Delete(table: string, conditions: seq<Assignment>)

  // ---- What tokens parse to ----

  /** Strips a pair of quotes, double or single, from an identifier or a key. */
  function UnquoteIdent(t: string): string {
    if |t| >= 2 && (t[0] == '"' || t[0] == '\'') && t[|t| - 1] == t[0] then t[1..|t| - 1] else t
  }

  /** Where a keyword first is, in whatever case, or -1. */
  function IndexOfKeyword(toks: seq<string>, kw: string): (i: int)
    ensures -1 <= i < |toks|
    ensures i >= 0 ==> ToUpper(toks[i]) == kw
    ensures forall j :: 0 <= j < (if i < 0 then |toks| else i) ==> ToUpper(toks[j]) != kw
  {
    if toks == [] then -1
    else if ToUpper(toks[0]) == kw then 0
    else
      var i := IndexOfKeyword(toks[1..], kw);
      if i < 0 then -1 else i + 1
  }

  method FindKeyword(toks: seq<string>, kw: string) returns (i: int)
    ensures i == IndexOfKeyword(toks, kw)
  {
    i := 0;
    while i < |toks|
      invariant 0 <= i <= |toks| && forall j :: 0 <= j < i ==> ToUpper(toks[j]) != kw
    {
      if ToUpper(toks[i]) == kw {
        return;
      }
      i := i + 1;
    }
    i := -1;
  }

  /** Put in front of what the rest parses to. */
  function Ahead(out: seq<Assignment>, rest: Option<seq<Assignment>>): Option<seq<Assignment>> {
    match rest
    case None => None
    case Some(more) => Some(out + more)
  }

  /** `attr = value [AND attr = value]...` */
  function Conditions(toks: seq<string>): Option<seq<Assignment>> {
    if toks == [] then Some([])
    else if |toks| < 3 || toks[1] != "=" then None
    else
      var first := Assignment(UnquoteIdent(toks[0]), toks[2]);
      if |toks| == 3 then Some([first])
      else if ToUpper(toks[3]) != "AND" then None
      else Ahead([first], Conditions(toks[4..]))
  }

  lemma AheadTwice(a: seq<Assignment>, b: seq<Assignment>, rest: Option<seq<Assignment>>)
    ensures Ahead([], rest) == rest
    ensures Ahead(a, Ahead(b, rest)) == Ahead(a + b, rest)
    ensures Ahead(a, Some([])) == Some(a)
  {
    if rest.Some? {
      assert [] + rest.value == rest.value;
      assert a + (b + rest.value) == a + b + rest.value;
    }
    assert a + [] == a;
  }

  method ParseConditions(toks: seq<string>) returns (r: Option<seq<Assignment>>)
    ensures r == Conditions(toks)
  {
    hide ToUpper;
    var out: seq<Assignment> := [];
    var i := 0;
    assert toks[0..] == toks;
    AheadTwice(out, out, Conditions(toks));
    while i < |toks|
      invariant 0 <= i <= |toks|
      invariant Ahead(out, Conditions(toks[i..])) == Conditions(toks)
    {
      if i + 2 >= |toks| || toks[i + 1] != "=" {
        return None;
      }
      var one := Assignment(UnquoteIdent(toks[i]), toks[i + 2]);
      ghost var before, left := out, toks[i..];
      out := out + [one];
      i := i + 3;
      if i < |toks| {
        if ToUpper(toks[i]) != "AND" {
          return None;
        }
        i := i + 1;
        assert left[4..] == toks[i..];
      } else {
        assert toks[i..] == [];
        AheadTwice([one], [], Conditions([]));
      }
      assert Conditions(left) == Ahead([one], Conditions(toks[i..]));
      AheadTwice(before, [one], Conditions(toks[i..]));
    }
    assert toks[i..] == [];
    AheadTwice(out, [], Conditions(toks));
    return Some(out);
  }

  /** `attr = value, attr = value` with "=", and the entries of a map with ":"; commas may be left out. */
  function Listed(toks: seq<string>, mid: string): Option<seq<Assignment>> {
    if toks == [] then Some([])
    else if |toks| < 3 || toks[1] != mid then None
    else
      var rest := if |toks| > 3 && toks[3] == "," then toks[4..] else toks[3..];
      Ahead([Assignment(UnquoteIdent(toks[0]), toks[2])], Listed(rest, mid))
  }

  method ParseListed(toks: seq<string>, mid: string) returns (r: Option<seq<Assignment>>)
    ensures r == Listed(toks, mid)
  {
    var out: seq<Assignment> := [];
    var i := 0;
    assert toks[0..] == toks;
    AheadTwice(out, out, Listed(toks, mid));
    while i < |toks|
      invariant 0 <= i <= |toks|
      invariant Ahead(out, Listed(toks[i..], mid)) == Listed(toks, mid)
    {
      if i + 2 >= |toks| || toks[i + 1] != mid {
        return None;
      }
      var one := Assignment(UnquoteIdent(toks[i]), toks[i + 2]);
      ghost var before, left := out, toks[i..];
      out := out + [one];
      i := i + 3;
      assert left[3..] == toks[i..];
      if i < |toks| && toks[i] == "," {
        i := i + 1;
        assert left[4..] == toks[i..];
      }
      assert Listed(left, mid) == Ahead([one], Listed(toks[i..], mid));
      AheadTwice(before, [one], Listed(toks[i..], mid));
    }
    assert toks[i..] == [];
    AheadTwice(out, [], Listed(toks, mid));
    return Some(out);
  }

  /** The projection list: all attributes if a "*" is among them, else each that is not a comma. */
  function Columns(toks: seq<string>): seq<string> {
    if "*" in toks then [] else Named(toks)
  }

  function Named(toks: seq<string>): seq<string> {
    if toks == [] then []
    else Named(toks[..|toks| - 1]) + (if toks[|toks| - 1] == "," then [] else [UnquoteIdent(toks[|toks| - 1])])
  }

  method ParseColumns(toks: seq<string>) returns (columns: seq<string>)
    ensures columns == Columns(toks)
  {
    columns := [];
    for i := 0 to |toks|
      invariant columns == Named(toks[..i]) && "*" !in toks[..i]
    {
      assert toks[..i + 1][..i] == toks[..i] && toks[..i + 1] == toks[..i] + [toks[i]];
      if toks[i] == "*" {
        return [];
      }
      if toks[i] != "," {
        columns := columns + [UnquoteIdent(toks[i])];
      }
    }
    assert toks[..|toks|] == toks;
  }

  function SelectOf(toks: seq<string>): Option<Statement>
    requires toks != [] && ToUpper(toks[0]) == "SELECT"
  {
    var from, where_ := IndexOfKeyword(toks, "FROM"), IndexOfKeyword(toks, "WHERE");
    if from < 0 || from + 1 >= |toks| then None
    else
      var conds := if where_ < 0 then Some([]) else Conditions(toks[where_ + 1..]);
      if conds.None? then None else Some(Select(Columns(toks[1..from]), UnquoteIdent(toks[from + 1]), conds.value))
  }

  function DeleteOf(toks: seq<string>): Option<Statement> {
    var from, where_ := IndexOfKeyword(toks, "FROM"), IndexOfKeyword(toks, "WHERE");
    if from < 0 || from + 1 >= |toks| || where_ < 0 then None
    else
      var conds := Conditions(toks[where_ + 1..]);
      if conds.None? then None else Some(Delete(UnquoteIdent(toks[from + 1]), conds.value))
  }

  function UpdateOf(toks: seq<string>): Option<Statement> {
    var set_, where_ := IndexOfKeyword(toks, "SET"), IndexOfKeyword(toks, "WHERE");
    if |toks| < 2 || set_ < 0 || where_ < 0 || where_ < set_ then None
    else
      var sets := if where_ > set_ then Listed(toks[set_ + 1..where_], "=") else None;
      var conds := Conditions(toks[where_ + 1..]);
      if sets.None? || conds.None? then None else Some(Update(UnquoteIdent(toks[1]), sets.value, conds.value))
  }

  /** The entries of a `{ ... }`. */
  function ValueMap(toks: seq<string>): Option<seq<Assignment>> {
    if |toks| < 2 || toks[0] != "{" || toks[|toks| - 1] != "}" then None else Listed(toks[1..|toks| - 1], ":")
  }

  function InsertOf(toks: seq<string>): Option<Statement> {
    var into, value := IndexOfKeyword(toks, "INTO"), IndexOfKeyword(toks, "VALUE");
    if into < 0 || into + 1 >= |toks| || value < 0 then None
    else
      var entries := ValueMap(toks[value + 1..]);
      if entries.None? then None else Some(Insert(UnquoteIdent(toks[into + 1]), entries.value))
  }

  /** What a list of tokens parses to; None is a ValidationException. */
  function Parsed(toks: seq<string>): Option<Statement> {
    if toks == [] then None
    else
      var kw := ToUpper(toks[0]);
      if kw == "SELECT" then SelectOf(toks)
      else if kw == "INSERT" then InsertOf(toks)
      else if kw == "UPDATE" then UpdateOf(toks)
      else if kw == "DELETE" then DeleteOf(toks)
      else None
  }

  // ---- The parsers ----

  method ParseSelect(toks: seq<string>) returns (r: Option<Statement>)
    requires toks != [] && ToUpper(toks[0]) == "SELECT"
    ensures r == SelectOf(toks)
  {
    hide Conditions, Columns, ToUpper;
    var from := FindKeyword(toks, "FROM");
    if from < 0 || from + 1 >= |toks| {
      return None;
    }
    var columns := ParseColumns(toks[1..from]);
    var conds: seq<Assignment> := [];
    var where_ := FindKeyword(toks, "WHERE");
    if where_ >= 0 {
      var parsed := ParseConditions(toks[where_ + 1..]);
      if parsed.None? {
        return None;
      }
      conds := parsed.value;
    }
    return Some(Select(columns, UnquoteIdent(toks[from + 1]), conds));
  }

  method ParseDelete(toks: seq<string>) returns (r: Option<Statement>)
    ensures r == DeleteOf(toks)
  {
    hide Conditions, ToUpper;
    var from := FindKeyword(toks, "FROM");
    var where_ := FindKeyword(toks, "WHERE");
    if from < 0 || from + 1 >= |toks| || where_ < 0 {
      return None;
    }
    var conds := ParseConditions(toks[where_ + 1..]);
    if conds.None? {
      return None;
    }
    return Some(Delete(UnquoteIdent(toks[from + 1]), conds.value));
  }

  method ParseUpdate(toks: seq<string>) returns (r: Option<Statement>)
    ensures r == UpdateOf(toks)
  {
    hide Conditions, Listed, ToUpper;
    if |toks| < 2 {
      return None;
    }
    var set_ := FindKeyword(toks, "SET");
    var where_ := FindKeyword(toks, "WHERE");
    if set_ < 0 || where_ < 0 || where_ < set_ {
      return None;
    }
    assert where_ != set_ by {
      assert "SET" != "WHERE";
    }
    var sets := ParseListed(toks[set_ + 1..where_], "=");
    if sets.None? {
      return None;
    }
    var conds := ParseConditions(toks[where_ + 1..]);
    if conds.None? {
      return None;
    }
    return Some(Update(UnquoteIdent(toks[1]), sets.value, conds.value));
  }

  method ParseInsert(toks: seq<string>) returns (r: Option<Statement>)
    ensures r == InsertOf(toks)
  {
    hide Listed, ToUpper;
    var into := FindKeyword(toks, "INTO");
    var value := FindKeyword(toks, "VALUE");
    if into < 0 || into + 1 >= |toks| || value < 0 {
      return None;
    }
    var entries := toks[value + 1..];
    if |entries| == 0 || entries[0] != "{" || entries[|entries| - 1] != "}" {
      return None;
    }
    assert |entries| == 1 ==> "{" == "}";
    var listed := ParseListed(entries[1..|entries| - 1], ":");
    if listed.None? {
      return None;
    }
    return Some(Insert(UnquoteIdent(toks[into + 1]), listed.value));
  }

  method ParsePartiQL(text: string) returns (r: Option<Statement>)
    ensures r == Parsed(Tokens(text))
  {
    hide SelectOf, InsertOf, UpdateOf, DeleteOf, Tokens;
    var toks := Tokenize(text);
    if toks == [] {
      return None;
    }
    var kw := ToUpper(toks[0]);
    if kw == "SELECT" {
      r := ParseSelect(toks);
    } else if kw == "INSERT" {
      r := ParseInsert(toks);
    } else if kw == "UPDATE" {
      r := ParseUpdate(toks);
    } else if kw == "DELETE" {
      r := ParseDelete(toks);
    } else {
      r := None;
    }
  }
}
