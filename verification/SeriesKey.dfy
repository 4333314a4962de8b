/** Series identity: the canonical key of a namespace, a metric name and a dimension set. */
module SeriesKey {
  import opened Bytes
  import opened Sorting

  const NUL: byte := 0
  const RECORD_SEP: byte := 0x1e
  const UNIT_SEP: byte := 0x1f

  datatype Series = Series(namespace: Bytes, metric: Bytes, dims: map<Bytes, Bytes>)

  /** A name that carries none of the three separators. */
  predicate Clean(b: Bytes) {
    NUL !in b && RECORD_SEP !in b && UNIT_SEP !in b
  }

  ghost predicate WellFormed(s: Series) {
    && Clean(s.namespace)
    && Clean(s.metric)
    && forall n :: n in s.dims ==> Clean(n) && Clean(s.dims[n])
  }

  lemma LessIsStrictTotal()
    ensures StrictTotal(Less)
  {
    forall a: Bytes
      ensures !Less(a, a)
    {
      LessIrreflexive(a);
    }
    forall a, b
      ensures Less(a, b) || Less(b, a) || a == b
    {
      LessTotal(a, b);
    }
    forall a, b, c | Less(a, b) && Less(b, c)
      ensures Less(a, c)
    {
      LessTransitive(a, b, c);
    }
  }

  function Pair(n: Bytes, v: Bytes): Bytes {
    n + [RECORD_SEP] + v
  }

  /** The pairs of dims in the order of names, with the separator between them. */
  function Render(names: seq<Bytes>, dims: map<Bytes, Bytes>): Bytes
    requires forall n :: n in names ==> n in dims
  {
    if names == [] then []
    else
      var last := names[|names| - 1];
      if |names| == 1 then Pair(last, dims[last])
      else Render(names[..|names| - 1], dims) + [UNIT_SEP] + Pair(last, dims[last])
  }

  ghost function InByteOrder(names: set<Bytes>): (ns: seq<Bytes>)
    ensures Enumerates(ns, names, Less)
  {
    LessIsStrictTotal();
    Enum(names, Less)
  }

  /** The signature a dimension set has, whatever order it was sent in. */
  ghost function Signature(dims: map<Bytes, Bytes>): Bytes {
    InByteOrderKnown(dims.Keys);
    Render(InByteOrder(dims.Keys), dims)
  }

  lemma InByteOrderKnown(names: set<Bytes>)
    ensures forall n :: n in InByteOrder(names) ==> n in names
  {
    assert forall n :: n in InByteOrder(names) ==> n in ToSet(InByteOrder(names));
  }

  lemma RenderStep(names: seq<Bytes>, dims: map<Bytes, Bytes>, i: nat)
    requires i < |names| && forall n :: n in names ==> n in dims
    ensures Render(names[..i + 1], dims)
            == (if i > 0 then Render(names[..i], dims) + [UNIT_SEP] else Render(names[..i], dims))
               + Pair(names[i], dims[names[i]])
  {
    assert names[..i + 1][..i] == names[..i];
  }

  method DimensionSignature(dims: map<Bytes, Bytes>) returns (sig: Bytes)
    ensures sig == Signature(dims)
  {
    LessIsStrictTotal();
    InByteOrderKnown(dims.Keys);
    if |dims| == 0 {
      assert dims.Keys == {};
      assert forall n :: n in InByteOrder(dims.Keys) ==> n in dims.Keys;
      assert InByteOrder(dims.Keys) == [];
      return [];
    }
    var names := SortSet(dims.Keys, Less);
    sig := [];
    for i := 0 to |names|
      invariant sig == Render(names[..i], dims)
    {
      if i > 0 {
        sig := sig + [UNIT_SEP];
      }
      RenderStep(names, dims, i);
      sig := sig + Pair(names[i], dims[names[i]]);
    }
    assert names[..|names|] == names;
  }

  ghost function Key(s: Series): Bytes {
    s.namespace + [NUL] + s.metric + [NUL] + Signature(s.dims)
  }

  method SeriesKeyOf(s: Series) returns (key: Bytes)
    ensures key == Key(s)
  {
    var sig := DimensionSignature(s.dims);
    key := s.namespace + [NUL];
    key := key + s.metric + [NUL];
    key := key + sig;
  }

  // ---- Injectivity ----

  ghost predicate CleanOver(names: seq<Bytes>, dims: map<Bytes, Bytes>) {
    forall n :: n in names ==> n in dims && Clean(n) && Clean(dims[n])
  }

  /** A rendering holds a separator exactly when there is something, or more than one thing, to separate. */
  lemma {:induction false} RenderShape(names: seq<Bytes>, dims: map<Bytes, Bytes>)
    requires CleanOver(names, dims)
    ensures NUL !in Render(names, dims)
    ensures names == [] <==> Render(names, dims) == []
    ensures |names| <= 1 <==> UNIT_SEP !in Render(names, dims)
    decreases |names|
  {
    if names != [] {
      var last := names[|names| - 1];
      assert last in names;
      assert Pair(last, dims[last])[|last|] == RECORD_SEP;
      if |names| > 1 {
        RenderShape(names[..|names| - 1], dims);
        var init := Render(names[..|names| - 1], dims);
        assert Render(names, dims)[|init|] == UNIT_SEP;
      }
    }
  }

  /** A rendering determines the names and the values that were rendered. */
  lemma {:induction false} RenderInjective(p: seq<Bytes>, d: map<Bytes, Bytes>, q: seq<Bytes>, e: map<Bytes, Bytes>)
    requires CleanOver(p, d) && CleanOver(q, e)
    requires Render(p, d) == Render(q, e)
    ensures p == q
    ensures forall n :: n in p ==> d[n] == e[n]
    decreases |p|
  {
    RenderShape(p, d);
    RenderShape(q, e);
    if p != [] {
      LastPairSame(p, d, q, e);
      if |p| > 1 {
        RenderInjective(p[..|p| - 1], d, q[..|q| - 1], e);
      }
      hide Render, CleanOver;
      assert p == p[..|p| - 1] + [p[|p| - 1]] && q == q[..|q| - 1] + [q[|q| - 1]];
    }
  }

  /** Equal renderings end in one name with one value, and are equal before it. */
  lemma LastPairSame(p: seq<Bytes>, d: map<Bytes, Bytes>, q: seq<Bytes>, e: map<Bytes, Bytes>)
    requires CleanOver(p, d) && CleanOver(q, e) && p != [] && q != []
    requires Render(p, d) == Render(q, e) && (|p| == 1 <==> |q| == 1)
    ensures var a := p[|p| - 1]; a == q[|q| - 1] && d[a] == e[a]
    ensures |p| > 1 ==> Render(p[..|p| - 1], d) == Render(q[..|q| - 1], e)
  {
    var a, b := p[|p| - 1], q[|q| - 1];
    assert a in p && b in q;
    if |p| > 1 {
      SplitLast(UNIT_SEP, Render(p[..|p| - 1], d), Pair(a, d[a]), Render(q[..|q| - 1], e), Pair(b, e[b]));
    }
    SplitFirst(RECORD_SEP, a, d[a], b, e[b]);
  }

  lemma SignatureInjective(d: map<Bytes, Bytes>, e: map<Bytes, Bytes>)
    requires forall n :: n in d ==> Clean(n) && Clean(d[n])
    requires forall n :: n in e ==> Clean(n) && Clean(e[n])
    requires Signature(d) == Signature(e)
    ensures d == e
  {
    InByteOrderKnown(d.Keys);
    InByteOrderKnown(e.Keys);
    RenderInjective(InByteOrder(d.Keys), d, InByteOrder(e.Keys), e);
    assert d.Keys == ToSet(InByteOrder(d.Keys)) == ToSet(InByteOrder(e.Keys)) == e.Keys;
  }

  lemma SignatureHasNoNul(d: map<Bytes, Bytes>)
    requires forall n :: n in d ==> Clean(n) && Clean(d[n])
    ensures NUL !in Signature(d)
  {
    InByteOrderKnown(d.Keys);
    RenderShape(InByteOrder(d.Keys), d);
  }

  /** Two metrics share a key only when they are one metric, dimensions included. */
  lemma KeyInjective(s: Series, t: Series)
    requires WellFormed(s) && WellFormed(t)
    requires Key(s) == Key(t)
    ensures s == t
  {
    hide Signature;
    ThreeFields(s.namespace, s.metric, Signature(s.dims), t.namespace, t.metric, Signature(t.dims));
    SignatureInjective(s.dims, t.dims);
  }

  lemma ThreeFields(a: Bytes, b: Bytes, c: Bytes, d: Bytes, e: Bytes, f: Bytes)
    requires NUL !in a && NUL !in b && NUL !in d && NUL !in e
    requires a + [NUL] + b + [NUL] + c == d + [NUL] + e + [NUL] + f
    ensures a == d && b == e && c == f
  {
    var x, y := b + [NUL] + c, e + [NUL] + f;
    assert a + [NUL] + b + [NUL] + c == a + [NUL] + x;
    assert d + [NUL] + e + [NUL] + f == d + [NUL] + y;
    SplitFirst(NUL, a, x, d, y);
    SplitFirst(NUL, b, c, e, f);
  }

  /** Three NUL-free fields never read as four. */
  lemma ThreeFieldsNotFour(a: Bytes, b: Bytes, c: Bytes, d: Bytes, e: Bytes, f: Bytes, x: Bytes)
    requires NUL !in a && NUL !in b && NUL !in c && NUL !in d && NUL !in e && NUL !in f
    ensures d + [NUL] + e + [NUL] + f != a + [NUL] + b + [NUL] + c + [NUL] + x
  {
    if d + [NUL] + e + [NUL] + f == a + [NUL] + b + [NUL] + c + [NUL] + x {
      var w := c + [NUL] + x;
      assert w[|c|] == NUL;
      var u, v := b + [NUL] + w, e + [NUL] + f;
      assert a + [NUL] + b + [NUL] + c + [NUL] + x == a + [NUL] + u;
      assert d + [NUL] + e + [NUL] + f == d + [NUL] + v;
      SplitFirst(NUL, d, v, a, u);
      SplitFirst(NUL, e, f, b, w);
      assert false;
    }
  }

  /** What follows a key that another key begins with is never a NUL. */
  lemma KeyNotExtendedByNul(s: Series, t: Series, x: Bytes)
    requires WellFormed(s) && WellFormed(t)
    ensures Key(t) != Key(s) + [NUL] + x
  {
    SignatureHasNoNul(s.dims);
    SignatureHasNoNul(t.dims);
    ThreeFieldsNotFour(s.namespace, s.metric, Signature(s.dims), t.namespace, t.metric, Signature(t.dims), x);
  }
}
