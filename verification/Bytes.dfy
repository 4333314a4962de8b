/** Byte strings and the order bytes.Compare gives them. */
module Bytes {
  newtype byte = b: int | 0 <= b < 256

  type Bytes = seq<byte>

  /** bytes.Compare(a, b) < 0 */
  predicate Less(a: Bytes, b: Bytes) {
    if b == [] then false
    else if a == [] then true
    else if a[0] != b[0] then a[0] < b[0]
    else Less(a[1..], b[1..])
  }

  /** Two strings first differ at i, and the first is less there. */
  predicate LessAt(a: Bytes, b: Bytes, i: nat) {
    i < |a| && i < |b| && a[..i] == b[..i] && a[i] < b[i]
  }

  /** One string is less than another exactly when it is a proper prefix of it, or is less where they first differ. */
  lemma {:induction false} LessIff(a: Bytes, b: Bytes)
    ensures Less(a, b) <==> (a <= b && a != b) || exists i: nat :: LessAt(a, b, i)
    decreases |a|
  {
    hide LessAt;
    if a == [] || b == [] {
      NoneAt(a, b);
    } else if a[0] == b[0] {
      LessIff(a[1..], b[1..]);
      assert a == [a[0]] + a[1..] && b == [b[0]] + b[1..];
      if i: nat :| LessAt(a[1..], b[1..], i) {
        OneOn(a, b, i);
      }
      FirstApart(a, b, 0);
      if i: nat :| LessAt(a, b, i) {
        OneOn(a, b, i - 1);
      }
    } else {
      forall i: nat | LessAt(a, b, i)
        ensures i == 0
      {
        FirstApart(a, b, i);
      }
      FirstApart(a, b, 0);
    }
  }

  lemma NoneAt(a: Bytes, b: Bytes)
    requires a == [] || b == []
    ensures !exists i: nat :: LessAt(a, b, i)
  {
  }

  lemma OneOn(a: Bytes, b: Bytes, i: nat)
    requires a != [] && b != [] && a[0] == b[0]
    ensures LessAt(a[1..], b[1..], i) <==> LessAt(a, b, i + 1)
  {
    if i < |a| - 1 && i < |b| - 1 {
      assert a[..i + 1] == [a[0]] + a[1..][..i] && b[..i + 1] == [b[0]] + b[1..][..i];
      assert a[1..][..i] == a[..i + 1][1..] && b[1..][..i] == b[..i + 1][1..];
    }
  }

  lemma FirstApart(a: Bytes, b: Bytes, i: nat)
    requires a != [] && b != []
    ensures LessAt(a, b, i) && i > 0 ==> a[0] == b[0]
    ensures LessAt(a, b, 0) <==> a[0] < b[0]
  {
    if LessAt(a, b, i) && i > 0 {
      assert a[..i][0] == b[..i][0];
    }
  }

  lemma LessTransitive(a: Bytes, b: Bytes, c: Bytes)
    requires Less(a, b) && Less(b, c)
    ensures Less(a, c)
  {
  }

  lemma LessTotal(a: Bytes, b: Bytes)
    ensures Less(a, b) || Less(b, a) || a == b
  {
    if a != [] && b != [] && a[0] == b[0] {
      LessTotal(a[1..], b[1..]);
      assert a == [a[0]] + a[1..] && b == [b[0]] + b[1..];
    }
  }

  lemma LessIrreflexive(a: Bytes)
    ensures !Less(a, a)
  {
  }

  /** A common prefix does not affect the order. */
  lemma {:induction false} LessPrefix(p: Bytes, a: Bytes, b: Bytes)
    ensures Less(p + a, p + b) == Less(a, b)
  {
    if p == [] {
      assert p + a == a && p + b == b;
    } else {
      assert (p + a)[1..] == p[1..] + a && (p + b)[1..] == p[1..] + b;
      LessPrefix(p[1..], a, b);
    }
  }

  /** Once two strings of one length differ, what follows does not matter. */
  lemma {:induction false} LessSuffix(a: Bytes, b: Bytes, x: Bytes, y: Bytes)
    requires |a| == |b| && Less(a, b)
    ensures Less(a + x, b + y)
  {
    assert (a + x)[1..] == a[1..] + x && (b + y)[1..] == b[1..] + y;
    if a[0] == b[0] {
      LessSuffix(a[1..], b[1..], x, y);
    }
  }

  /** A string without the separator is found again at its first separator. */
  lemma {:induction false} SplitFirst(sep: byte, a: Bytes, x: Bytes, b: Bytes, y: Bytes)
    requires sep !in a && sep !in b
    requires a + [sep] + x == b + [sep] + y
    ensures a == b && x == y
    decreases |a|
  {
    var l, r := a + [sep] + x, b + [sep] + y;
    assert l[0] == if a == [] then sep else a[0];
    assert r[0] == if b == [] then sep else b[0];
    if a == [] {
      assert l[1..] == x && r[1..] == y;
    } else {
      assert l[1..] == a[1..] + [sep] + x && r[1..] == b[1..] + [sep] + y;
      SplitFirst(sep, a[1..], x, b[1..], y);
    }
  }

  /** A string without the separator is found again after its last separator. */
  lemma {:induction false} SplitLast(sep: byte, a: Bytes, x: Bytes, b: Bytes, y: Bytes)
    requires sep !in x && sep !in y
    requires a + [sep] + x == b + [sep] + y
    ensures a == b && x == y
    decreases |x|
  {
    var l, r := a + [sep] + x, b + [sep] + y;
    var n := |l| - 1;
    assert l[n] == if x == [] then sep else x[|x| - 1];
    assert r[n] == if y == [] then sep else y[|y| - 1];
    if x == [] {
      assert l[..n] == a && r[..n] == b;
    } else {
      assert l[..n] == a + [sep] + x[..|x| - 1] && r[..n] == b + [sep] + y[..|y| - 1];
      SplitLast(sep, a, x[..|x| - 1], b, y[..|y| - 1]);
    }
  }
}
