/** Running a SELECT: a full-key WHERE becomes a GetItem, anything else a Scan with a filter. */
module PartiqlSelect {
  import opened Wrappers
  import opened PartiqlBinding

  type Item = map<string, AttributeValue>

  /** An attribute of a WHERE and the value bound to it. */
  type Conds = seq<(string, AttributeValue)>

  datatype KeyAttr = KeyAttr(name: string, kind: string)

  /** A table: its schema, and its live items by primary key. */
  datatype Table = Table(hash: KeyAttr, range: Option<KeyAttr>, items: map<Item, Item>)

  function KindOf(v: AttributeValue): string {
    match v
    case S(_) => "S"
    case N(_) => "N"
    case BOOL(_) => "BOOL"
    case NULL => "NULL"
    case Other(kind, _) => kind
  }

  function KeyNames(t: Table): set<string> {
    {t.hash.name} + match t.range case Some(r) => {r.name} case None => {}
  }

  /** Exactly the key attributes, each of its declared type. */
  predicate Typed(t: Table, key: Item) {
    && key.Keys == KeyNames(t)
    && KindOf(key[t.hash.name]) == t.hash.kind
    && (t.range.Some? ==> KindOf(key[t.range.value.name]) == t.range.value.kind)
  }

  function Restricted(item: Item, names: set<string>): Item {
    map a | a in item && a in names :: item[a]
  }

  /** Every item is stored under its own, well-typed key. */
  ghost predicate Stores(t: Table) {
    forall k :: k in t.items ==> Typed(t, k) && Restricted(t.items[k], KeyNames(t)) == k
  }

  function Projected(item: Item, columns: seq<string>): Item {
    if columns == [] then item else map a | a in item && a in columns :: item[a]
  }

  datatype Refusal = KeyMismatch

  // ---- The two ways ----

  /** The attribute map of a WHERE: a name given twice keeps its last value. */
  function KeyFrom(conds: Conds): Item {
    if conds == [] then map[] else KeyFrom(conds[..|conds| - 1])[conds[|conds| - 1].0 := conds[|conds| - 1].1]
  }

  function Named(conds: Conds): set<string> {
    set i | 0 <= i < |conds| :: conds[i].0
  }

  predicate CoversKey(t: Table, conds: Conds) {
    Named(conds) == KeyNames(t)
  }

  function GetAnswer(t: Table, conds: Conds, columns: seq<string>): Result<seq<Item>, Refusal> {
    var key := KeyFrom(conds);
    if !Typed(t, key) then Err(KeyMismatch)
    else if key in t.items then Ok([Projected(t.items[key], columns)])
    else Ok([])
  }

  predicate Meets(item: Item, conds: Conds) {
    forall i :: 0 <= i < |conds| ==> conds[i].0 in item && item[conds[i].0] == conds[i].1
  }

  /** The keys of the items a filter keeps. */
  function Selected(t: Table, conds: Conds): set<Item> {
    set k | k in t.items && Meets(t.items[k], conds)
  }

  /** The projected items of a set of keys, each once, in some order. */
  ghost predicate Lists(t: Table, keys: set<Item>, columns: seq<string>, out: seq<Item>)
    requires keys <= t.items.Keys
  {
    exists ks: seq<Item> :: ListsInOrder(t, keys, columns, out, ks)
  }

  ghost predicate ListsInOrder(t: Table, keys: set<Item>, columns: seq<string>, out: seq<Item>, ks: seq<Item>)
    requires keys <= t.items.Keys
  {
    && (forall k :: k in ks <==> k in keys)
    && (forall i, j :: 0 <= i < j < |ks| ==> ks[i] != ks[j])
    && |out| == |ks| && forall i :: 0 <= i < |ks| ==> ks[i] in keys && out[i] == Projected(t.items[ks[i]], columns)
  }

  /** Reads every item, in whatever order the table gives them, and keeps those that meet every condition. */
  method Scan(t: Table, conds: Conds, columns: seq<string>) returns (out: seq<Item>)
    ensures Lists(t, Selected(t, conds), columns, out)
  {
    hide Projected, Meets;
    out := [];
    ghost var ks: seq<Item> := [];
    var rest := t.items.Keys;
    while rest != {}
      invariant rest <= t.items.Keys
      invariant ListsInOrder(t, Selected(t, conds) - rest, columns, out, ks)
      decreases rest
    {
      var k :| k in rest;
      if Meets(t.items[k], conds) {
        out := out + [Projected(t.items[k], columns)];
        ks := ks + [k];
      }
      rest := rest - {k};
    }
    assert Selected(t, conds) - rest == Selected(t, conds);
  }

  /** Whether the names of a WHERE are exactly the table's key attributes. */
  method CoversTheKey(t: Table, names: set<string>) returns (covers: bool)
    requires t.range.Some? ==> t.range.value.name != t.hash.name
    ensures covers <==> names == KeyNames(t)
  {
    var need := [t.hash.name] + if t.range.Some? then [t.range.value.name] else [];
    assert KeyNames(t) == set n | n in need;
    SizeOfKey(t);
    if |names| != |need| {
      return false;
    }
    for i := 0 to |need|
      invariant forall j :: 0 <= j < i ==> need[j] in names
    {
      if need[i] !in names {
        return false;
      }
    }
    SameSize(KeyNames(t), names);
    return true;
  }

  lemma SizeOfKey(t: Table)
    requires t.range.Some? ==> t.range.value.name != t.hash.name
    ensures |KeyNames(t)| == if t.range.Some? then 2 else 1
  {
    if t.range.Some? {
      assert KeyNames(t) - {t.hash.name} == {t.range.value.name};
    }
  }

  lemma SameSize<T>(a: set<T>, b: set<T>)
    requires a <= b && |a| == |b|
    ensures a == b
  {
    assert |b - a| == |b| - |a|;
  }

  method RunSelect(t: Table, conds: Conds, columns: seq<string>) returns (r: Result<seq<Item>, Refusal>)
    requires t.range.Some? ==> t.range.value.name != t.hash.name
    ensures if CoversKey(t, conds) then r == GetAnswer(t, conds, columns)
            else r.Ok? && Lists(t, Selected(t, conds), columns, r.value)
  {
    hide Lists, Projected, KeyNames;
    var names := Named(conds);
    var covers := CoversTheKey(t, names);
    if !covers {
      var out := Scan(t, conds, columns);
      return Ok(out);
    }
    var key: Item := map[];
    for i := 0 to |conds|
      invariant key == KeyFrom(conds[..i])
    {
      assert conds[..i + 1][..i] == conds[..i];
      key := key[conds[i].0 := conds[i].1];
    }
    assert conds[..|conds|] == conds;
    if !Typed(t, key) {
      return Err(KeyMismatch);
    }
    return Ok(if key in t.items then [Projected(t.items[key], columns)] else []);
  }

  // ---- What an answer shows ----

  /** An item cut down to the columns asked for, or whole if none were. */
  ghost predicate Shows(item: Item, columns: seq<string>, shown: Item) {
    && (forall a :: a in shown <==> a in item && (columns == [] || exists i :: 0 <= i < |columns| && columns[i] == a))
    && forall a :: a in shown ==> shown[a] == item[a]
  }

  lemma ProjectedShows(item: Item, columns: seq<string>)
    ensures Shows(item, columns, Projected(item, columns))
  {
  }

  /** A filtered answer shows every item whose attributes are all as the conditions say, and only such items: as
      many as there are. */
  lemma ScanShows(t: Table, conds: Conds, columns: seq<string>, out: seq<Item>)
    requires Lists(t, Selected(t, conds), columns, out)
    ensures var met := set k | k in t.items && forall i :: 0 <= i < |conds| ==> conds[i].0 in t.items[k] && t.items[k][conds[i].0] == conds[i].1;
            && |out| == |met|
            && (forall k :: k in met ==> exists j :: 0 <= j < |out| && Shows(t.items[k], columns, out[j]))
            && forall j :: 0 <= j < |out| ==> exists k :: k in met && Shows(t.items[k], columns, out[j])
  {
    var met := set k | k in t.items && forall i :: 0 <= i < |conds| ==> conds[i].0 in t.items[k] && t.items[k][conds[i].0] == conds[i].1;
    assert met == Selected(t, conds);
    ListShows(t, met, columns, out);
    hide Selected, Meets, Lists, Shows;
  }

  lemma ListShows(t: Table, keys: set<Item>, columns: seq<string>, out: seq<Item>)
    requires keys <= t.items.Keys && Lists(t, keys, columns, out)
    ensures |out| == |keys|
    ensures forall k :: k in keys ==> exists j :: 0 <= j < |out| && Shows(t.items[k], columns, out[j])
    ensures forall j :: 0 <= j < |out| ==> exists k :: k in keys && Shows(t.items[k], columns, out[j])
  {
    var ks :| ListsInOrder(t, keys, columns, out, ks);
    forall i | 0 <= i < |ks|
      ensures Shows(t.items[ks[i]], columns, out[i])
    {
      ProjectedShows(t.items[ks[i]], columns);
    }
    DistinctSize(ks, keys);
    hide Shows, Projected;
  }

  lemma {:induction false} DistinctSize<T(!new)>(s: seq<T>, xs: set<T>)
    requires forall x :: x in s <==> x in xs
    requires forall i, j :: 0 <= i < j < |s| ==> s[i] != s[j]
    ensures |s| == |xs|
    decreases |s|
  {
    if s == [] {
      assert xs == {};
    } else {
      var n := |s| - 1;
      forall x
        ensures x in s[..n] <==> x in xs - {s[n]}
      {
        assert x in s <==> x in s[..n] || x == s[n];
      }
      DistinctSize(s[..n], xs - {s[n]});
    }
  }

  /** Whether a condition is the last on its attribute. */
  ghost predicate LastOn(conds: Conds, i: nat) {
    i < |conds| && forall j :: i < j < |conds| ==> conds[j].0 != conds[i].0
  }

  /** The key has the attributes that are named, each as the last condition on it says. */
  lemma {:induction false} KeyHasLast(conds: Conds, i: nat)
    requires LastOn(conds, i)
    ensures conds[i].0 in KeyFrom(conds) && KeyFrom(conds)[conds[i].0] == conds[i].1
    decreases |conds|
  {
    if i < |conds| - 1 {
      KeyHasLast(conds[..|conds| - 1], i);
    }
  }

  lemma {:induction false} HasLast(conds: Conds, name: string) returns (i: nat)
    requires name in Named(conds)
    ensures LastOn(conds, i) && conds[i].0 == name
    decreases |conds|
  {
    i := |conds| - 1;
    if conds[i].0 != name {
      var init := conds[..i];
      assert exists k :: 0 <= k < |init| && init[k].0 == name;
      i := HasLast(init, name);
      assert forall j :: 0 <= j < |init| ==> init[j] == conds[j];
    }
  }

  predicate OfWrongKind(attr: KeyAttr, cond: (string, AttributeValue)) {
    cond.0 == attr.name && KindOf(cond.1) != attr.kind
  }

  /** A full-key WHERE is refused exactly when the last condition on a key attribute is not of its type; it finds the
      item under the values those conditions give, if there is one. */
  lemma GetRefusedIff(t: Table, conds: Conds, columns: seq<string>)
    requires CoversKey(t, conds)
    ensures GetAnswer(t, conds, columns).Err?
            <==> exists i: nat :: LastOn(conds, i)
                                  && (OfWrongKind(t.hash, conds[i]) || (t.range.Some? && OfWrongKind(t.range.value, conds[i])))
    ensures var r := GetAnswer(t, conds, columns);
            r.Ok? ==> if r.value == [] then KeyFrom(conds) !in t.items
                      else |r.value| == 1 && KeyFrom(conds) in t.items && Shows(t.items[KeyFrom(conds)], columns, r.value[0])
  {
    var key := KeyFrom(conds);
    KeyFromNames(conds);
    if key in t.items {
      ProjectedShows(t.items[key], columns);
    }
    var h := HasLast(conds, t.hash.name);
    KeyHasLast(conds, h);
    if t.range.Some? {
      var r := HasLast(conds, t.range.value.name);
      KeyHasLast(conds, r);
    }
    forall i: nat | LastOn(conds, i)
      ensures conds[i].0 in key && key[conds[i].0] == conds[i].1
    {
      KeyHasLast(conds, i);
    }
    hide KeyFrom, LastOn, Shows, Projected, KindOf;
  }

  // ---- When they agree ----

  /** No attribute is bound to two values. */
  predicate Consistent(conds: Conds) {
    forall i, j :: 0 <= i < j < |conds| && conds[i].0 == conds[j].0 ==> conds[i].1 == conds[j].1
  }

  lemma {:induction false} KeyFromNames(conds: Conds)
    ensures KeyFrom(conds).Keys == Named(conds)
    decreases |conds|
  {
    if conds != [] {
      KeyFromNames(conds[..|conds| - 1]);
      assert Named(conds) == Named(conds[..|conds| - 1]) + {conds[|conds| - 1].0};
    }
  }

  lemma {:induction false} KeyFromMeets(conds: Conds)
    ensures Meets(KeyFrom(conds), conds) <==> Consistent(conds)
    decreases |conds|
  {
    if conds != [] {
      var init, last := conds[..|conds| - 1], conds[|conds| - 1];
      KeyFromMeets(init);
      KeyFromNames(init);
      if Consistent(conds) {
        assert Consistent(init);
        forall i | 0 <= i < |conds|
          ensures conds[i].0 in KeyFrom(conds) && KeyFrom(conds)[conds[i].0] == conds[i].1
        {
          if i < |conds| - 1 {
            assert init[i] == conds[i];
          }
        }
      } else {
        var i, j :| 0 <= i < j < |conds| && conds[i].0 == conds[j].0 && conds[i].1 != conds[j].1;
        assert conds[i].0 in KeyFrom(conds) ==> KeyFrom(conds)[conds[i].0] != conds[i].1 || KeyFrom(conds)[conds[i].0] != conds[j].1;
      }
    }
  }

  /** An item under a well-typed key meets the conditions its key attributes are named in exactly when its
      key is theirs. */
  lemma MeetsIffKey(t: Table, conds: Conds, k: Item)
    requires Stores(t) && CoversKey(t, conds) && Consistent(conds) && k in t.items
    ensures Meets(t.items[k], conds) <==> k == KeyFrom(conds)
  {
    hide Typed;
    KeyFromNames(conds);
    KeyFromMeets(conds);
    var key := KeyFrom(conds);
    assert Restricted(t.items[k], KeyNames(t)) == k;
    assert k.Keys == KeyNames(t) by {
      assert Typed(t, k);
      TypedNames(t, k);
    }
    if Meets(t.items[k], conds) {
      forall a | a in key
        ensures k[a] == key[a]
      {
        var i :| 0 <= i < |conds| && conds[i].0 == a;
        assert key[a] == conds[i].1;
      }
    }
  }

  lemma TypedNames(t: Table, k: Item)
    requires Typed(t, k)
    ensures k.Keys == KeyNames(t)
  {
  }

  /** The fast form agrees with the scan when the WHERE binds each key attribute to one value of its type. */
  lemma FastPathAgrees(t: Table, conds: Conds, columns: seq<string>)
    requires Stores(t) && CoversKey(t, conds) && Typed(t, KeyFrom(conds)) && Consistent(conds)
    ensures GetAnswer(t, conds, columns).Ok? && Lists(t, Selected(t, conds), columns, GetAnswer(t, conds, columns).value)
  {
    hide Typed, Stores, Meets, KeyFrom, Projected;
    var key := KeyFrom(conds);
    forall k | k in t.items
      ensures Meets(t.items[k], conds) <==> k == key
    {
      MeetsIffKey(t, conds, k);
    }
    var ks := if key in t.items then [key] else [];
    assert Selected(t, conds) == set k | k in ks;
    assert ListsInOrder(t, Selected(t, conds), columns, GetAnswer(t, conds, columns).value, ks);
  }

  /** Over every table of a schema, the GetItem a full-key WHERE becomes answers as the Scan would, exactly
      when the WHERE binds each key attribute to one value, of its type. */
  lemma FastPathAgreesIff(t: Table, conds: Conds)
    requires CoversKey(t, conds)
    ensures (forall items: map<Item, Item>, columns: seq<string> :: Stores(t.(items := items)) ==>
               var u := t.(items := items);
               GetAnswer(u, conds, columns).Ok? && Lists(u, Selected(u, conds), columns, GetAnswer(u, conds, columns).value))
            <==> Typed(t, KeyFrom(conds)) && Consistent(conds)
  {
    var key := KeyFrom(conds);
    if Typed(t, key) && Consistent(conds) {
      forall items: map<Item, Item>, columns: seq<string> | Stores(t.(items := items))
        ensures var u := t.(items := items);
                GetAnswer(u, conds, columns).Ok? && Lists(u, Selected(u, conds), columns, GetAnswer(u, conds, columns).value)
      {
        FastPathAgrees(t.(items := items), conds, columns);
      }
    } else if !Typed(t, key) {
      var u := t.(items := map[]);
      assert Stores(u) && !GetAnswer(u, conds, []).Ok?;
    } else {
      var u := t.(items := map[key := key]);
      KeyFromNames(conds);
      KeyFromMeets(conds);
      assert Restricted(key, KeyNames(t)) == key;
      assert Stores(u) && Selected(u, conds) == {} && GetAnswer(u, conds, []) == Ok([key]);
      NothingListed(u, [key]);
    }
  }

  lemma FirstIn<T>(s: seq<T>)
    requires s != []
    ensures exists x :: x in s
  {
    assert s[0] in s;
  }

  lemma NothingListed(t: Table, out: seq<Item>)
    ensures Lists(t, {}, [], out) ==> out == []
  {
    if Lists(t, {}, [], out) {
      var ks :| ListsInOrder(t, {}, [], out, ks);
      if ks != [] {
        FirstIn(ks);
      }
    }
  }
}
