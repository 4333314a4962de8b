/** Enumerations of a set in a strict total order: sort.Slice, sort.Strings and bbolt's cursor. */
module Sorting {
  ghost predicate StrictTotal<T(!new)>(less: (T, T) -> bool) {
    && (forall a :: !less(a, a))
    && (forall a, b :: less(a, b) || less(b, a) || a == b)
    && (forall a, b, c :: less(a, b) && less(b, c) ==> less(a, c))
  }

  ghost predicate Ascending<T>(s: seq<T>, less: (T, T) -> bool) {
    forall i, j :: 0 <= i < j < |s| ==> less(s[i], s[j])
  }

  function ToSet<T>(s: seq<T>): set<T> {
    set x | x in s
  }

  /** s lists the elements of xs, each once, in order. */
  ghost predicate Enumerates<T>(s: seq<T>, xs: set<T>, less: (T, T) -> bool) {
    Ascending(s, less) && ToSet(s) == xs
  }

  lemma {:induction false} EnumeratesUnique<T(!new)>(s: seq<T>, t: seq<T>, xs: set<T>, less: (T, T) -> bool)
    requires StrictTotal(less) && Enumerates(s, xs, less) && Enumerates(t, xs, less)
    ensures s == t
    decreases |s|
  {
    assert t != [] ==> t[0] in ToSet(t);
    if s != [] {
      assert s[0] in xs && s[0] in t;
      assert t[0] in xs && t[0] in s;
      assert s[0] == t[0];
      TailEnumerates(s, xs, less);
      TailEnumerates(t, xs, less);
      EnumeratesUnique(s[1..], t[1..], xs - {s[0]}, less);
      assert s == [s[0]] + s[1..] && t == [t[0]] + t[1..];
    }
  }

  lemma TailEnumerates<T(!new)>(s: seq<T>, xs: set<T>, less: (T, T) -> bool)
    requires StrictTotal(less) && Enumerates(s, xs, less) && s != []
    ensures Enumerates(s[1..], xs - {s[0]}, less)
  {
    forall x | x in xs - {s[0]}
      ensures x in s[1..]
    {
      var i :| 0 <= i < |s| && s[i] == x;
      assert s[1..][i - 1] == x;
    }
    forall i | 0 <= i < |s[1..]|
      ensures s[1..][i] != s[0]
    {
      assert less(s[0], s[i + 1]);
    }
  }

  /** Put x where it belongs in an ascending list. */
  function Insert<T>(x: T, s: seq<T>, less: (T, T) -> bool): seq<T> {
    if s == [] then [x]
    else if less(x, s[0]) then [x] + s
    else [s[0]] + Insert(x, s[1..], less)
  }

  lemma {:induction false} InsertEnumerates<T(!new)>(x: T, s: seq<T>, xs: set<T>, less: (T, T) -> bool)
    requires StrictTotal(less) && Enumerates(s, xs, less) && x !in xs
    ensures Enumerates(Insert(x, s, less), xs + {x}, less)
    decreases |s|
  {
    var r := Insert(x, s, less);
    if s != [] && !less(x, s[0]) {
      assert s[0] in xs;
      TailEnumerates(s, xs, less);
      InsertEnumerates(x, s[1..], xs - {s[0]}, less);
      var t := Insert(x, s[1..], less);
      forall i | 0 <= i < |t|
        ensures less(s[0], t[i])
      {
        assert t[i] in ToSet(t);
        if t[i] != x {
          var k :| 0 <= k < |s[1..]| && s[1..][k] == t[i];
          assert s[k + 1] == t[i];
        }
      }
      forall y | y in xs + {x}
        ensures y in r
      {
        if y != s[0] {
          assert y in ToSet(t);
        }
      }
    } else if s != [] {
      forall i | 0 <= i < |s|
        ensures less(x, s[i])
      {
      }
      assert r == [x] + s;
    }
  }

  /** The enumeration of a set; EnumeratesUnique says there is only one. */
  ghost function Enum<T(!new)>(xs: set<T>, less: (T, T) -> bool): (s: seq<T>)
    requires StrictTotal(less)
    ensures Enumerates(s, xs, less)
  {
    if xs == {} then [] else
    var x :| x in xs;
    InsertEnumerates(x, Enum(xs - {x}, less), xs - {x}, less);
    Insert(x, Enum(xs - {x}, less), less)
  }

  /** The elements of a set that come before x. */
  ghost function Preceding<T(!new)>(xs: set<T>, x: T, less: (T, T) -> bool): set<T> {
    set y | y in xs && less(y, x)
  }

  lemma SubsetSize<T>(a: set<T>, b: set<T>)
    requires a <= b
    ensures |a| <= |b|
  {
    assert |b - a| == |b| - |a|;
  }

  lemma {:induction false} AscendingSize<T(!new)>(s: seq<T>, less: (T, T) -> bool)
    requires StrictTotal(less) && Ascending(s, less)
    ensures |ToSet(s)| == |s|
    decreases |s|
  {
    if s != [] {
      var init, last := s[..|s| - 1], s[|s| - 1];
      AscendingSize(init, less);
      assert ToSet(s) == ToSet(init) + {last};
    }
  }

  lemma RankIs<T(!new)>(s: seq<T>, xs: set<T>, i: nat, less: (T, T) -> bool)
    requires StrictTotal(less) && Enumerates(s, xs, less) && i < |s|
    ensures |Preceding(xs, s[i], less)| == i
  {
    var x := s[i];
    assert forall m :: i < m < |s| ==> less(x, s[m]);
    forall y | y in Preceding(xs, x, less)
      ensures y in s[..i]
    {
      var n :| 0 <= n < |s| && s[n] == y;
      assert s[..i][n] == y;
    }
    assert forall y :: y in s[..i] ==> y in ToSet(s);
    assert Preceding(xs, s[i], less) == ToSet(s[..i]);
    AscendingSize(s[..i], less);
  }

  /** The first n of an enumeration are those with fewer than n before them. */
  lemma FirstRanks<T(!new)>(s: seq<T>, xs: set<T>, n: nat, less: (T, T) -> bool)
    requires StrictTotal(less) && Enumerates(s, xs, less) && n <= |s|
    ensures forall x :: x in xs ==> (x in ToSet(s[..n]) <==> |Preceding(xs, x, less)| < n)
    ensures ToSet(s[..n]) <= xs && |ToSet(s[..n])| == n && |s| == |xs|
  {
    AscendingSize(s, less);
    AscendingSize(s[..n], less);
    assert forall x :: x in s ==> x in ToSet(s);
    forall x | x in xs
      ensures x in ToSet(s[..n]) <==> |Preceding(xs, x, less)| < n
    {
      assert x in ToSet(s);
      var i :| 0 <= i < |s| && s[i] == x;
      RankIs(s, xs, i, less);
      assert i < n ==> s[..n][i] == x;
      assert forall j :: 0 <= j < n && j < i ==> less(s[j], s[i]);
    }
  }

  /** Collecting a set in whatever order it iterates and sorting gives its enumeration. */
  method SortSet<T(==, !new)>(xs: set<T>, less: (T, T) -> bool) returns (s: seq<T>)
    requires StrictTotal(less)
    ensures s == Enum(xs, less)
  {
    s := [];
    var rest := xs;
    while rest != {}
      invariant rest <= xs && Enumerates(s, xs - rest, less)
      decreases rest
    {
      var x :| x in rest;
      InsertEnumerates(x, s, xs - rest, less);
      s := Insert(x, s, less);
      rest := rest - {x};
      assert xs - rest == xs - (rest + {x}) + {x};
    }
    assert xs - rest == xs;
    EnumeratesUnique(s, Enum(xs, less), xs, less);
  }

  function Filter<T>(s: seq<T>, keep: T -> bool): seq<T> {
    if s == [] then []
    else Filter(s[..|s| - 1], keep) + (if keep(s[|s| - 1]) then [s[|s| - 1]] else [])
  }

  lemma {:induction false} FilterMember<T(!new)>(s: seq<T>, keep: T -> bool)
    ensures forall x :: x in Filter(s, keep) <==> x in s && keep(x)
    decreases |s|
  {
    if s != [] {
      FilterMember(s[..|s| - 1], keep);
      assert s == s[..|s| - 1] + [s[|s| - 1]];
    }
  }

  lemma {:induction false} FilterAscending<T(!new)>(s: seq<T>, keep: T -> bool, less: (T, T) -> bool)
    requires Ascending(s, less)
    ensures Ascending(Filter(s, keep), less)
    decreases |s|
  {
    if s != [] {
      var init := s[..|s| - 1];
      FilterAscending(init, keep, less);
      FilterMember(init, keep);
      var f := Filter(init, keep);
      forall i | 0 <= i < |f|
        ensures less(f[i], s[|s| - 1])
      {
        assert f[i] in f;
        var k :| 0 <= k < |init| && init[k] == f[i];
        assert s[k] == f[i];
      }
    }
  }

  /** Filtering an enumeration enumerates the filtered set. */
  lemma FilterEnum<T(!new)>(xs: set<T>, keep: T -> bool, ys: set<T>, less: (T, T) -> bool)
    requires StrictTotal(less)
    requires forall x :: x in ys <==> x in xs && keep(x)
    ensures Filter(Enum(xs, less), keep) == Enum(ys, less)
  {
    var s := Enum(xs, less);
    FilterAscending(s, keep, less);
    FilterMember(s, keep);
    assert forall x :: x in s <==> x in ToSet(s);
    assert ToSet(Filter(s, keep)) == ys;
    EnumeratesUnique(Filter(s, keep), Enum(ys, less), ys, less);
  }
}
