/** Zero-padded decimals: the fixed-width fields of every time-ordered key. */
module Decimal {
  import opened Bytes

  function Pow10(w: nat): (p: nat)
    ensures p >= 1
  {
    if w == 0 then 1 else 10 * Pow10(w - 1)
  }

  /** The bounds of the thirteen-digit times and the ten-digit sequence numbers. */
  const MILLIS_BOUND: nat := 10_000_000_000_000
  const SEQUENCE_BOUND: nat := 10_000_000_000

  lemma BoundsArePowers()
    ensures Pow10(10) == SEQUENCE_BOUND && Pow10(13) == MILLIS_BOUND
  {
    assert Pow10(5) == 100_000;
    assert Pow10(8) == 100_000_000;
    assert Pow10(11) == 100_000_000_000;
  }

  function Digit(d: nat): byte
    requires d < 10
  {
    (48 + d) as byte
  }

  /** fmt's %0<w>d of a natural number: at least w digits. */
  function Padded(n: nat, w: nat): Bytes
    decreases n + w
  {
    if n == 0 && w == 0 then [] else Padded(n / 10, if w == 0 then 0 else w - 1) + [Digit(n % 10)]
  }

  /** The low w digits only, which is what a fixed-size buffer keeps. */
  function LowDigits(n: nat, w: nat): (s: Bytes)
    ensures |s| == w
  {
    if w == 0 then [] else LowDigits(n / 10, w - 1) + [Digit(n % 10)]
  }

  /** The number a run of digit bytes spells, or None for any other byte. */
  datatype Parsed = NotANumber | Number(value: nat)

  function Parse(s: Bytes): Parsed {
    if s == [] then Number(0)
    else
      var c := s[|s| - 1];
      match Parse(s[..|s| - 1])
      case NotANumber => NotANumber
      case Number(v) =>
        if c < 48 || c > 57 then NotANumber else Number(10 * v + (c as int - 48))
  }

  lemma DivBelow(n: nat, w: nat)
    requires w > 0 && n < Pow10(w)
    ensures n / 10 < Pow10(w - 1)
  {
  }

  /** A number that fits its width takes exactly that width, in either form. */
  lemma {:induction false} FitsWidth(n: nat, w: nat)
    requires n < Pow10(w)
    ensures |Padded(n, w)| == w && Padded(n, w) == LowDigits(n, w)
    decreases w
  {
    if w > 0 {
      DivBelow(n, w);
      FitsWidth(n / 10, w - 1);
    }
  }

  lemma {:induction false} ParsePadded(n: nat, w: nat)
    requires n < Pow10(w)
    ensures Parse(Padded(n, w)) == Number(n)
    decreases w
  {
    if w > 0 {
      DivBelow(n, w);
      ParsePadded(n / 10, w - 1);
      var s := Padded(n, w);
      assert s[..|s| - 1] == Padded(n / 10, w - 1);
    }
  }

  lemma PaddedInjective(m: nat, n: nat, w: nat)
    requires m < Pow10(w) && n < Pow10(w)
    requires Padded(m, w) == Padded(n, w)
    ensures m == n
  {
    ParsePadded(m, w);
    ParsePadded(n, w);
  }

  /** Padded to one width, byte order is numeric order. */
  lemma {:induction false} PaddedOrder(m: nat, n: nat, w: nat)
    requires m < n < Pow10(w)
    ensures Less(Padded(m, w), Padded(n, w))
    decreases w
  {
    DivBelow(m, w);
    DivBelow(n, w);
    FitsWidth(m / 10, w - 1);
    FitsWidth(n / 10, w - 1);
    if m / 10 < n / 10 {
      PaddedOrder(m / 10, n / 10, w - 1);
      LessSuffix(Padded(m / 10, w - 1), Padded(n / 10, w - 1), [Digit(m % 10)], [Digit(n % 10)]);
    } else {
      LessPrefix(Padded(m / 10, w - 1), [Digit(m % 10)], [Digit(n % 10)]);
    }
  }

  lemma PaddedOrderIff(m: nat, n: nat, w: nat)
    requires m < Pow10(w) && n < Pow10(w)
    ensures Less(Padded(m, w), Padded(n, w)) <==> m < n
  {
    if m < n {
      PaddedOrder(m, n, w);
    } else if n < m {
      PaddedOrder(n, m, w);
      if Less(Padded(m, w), Padded(n, w)) {
        LessTransitive(Padded(m, w), Padded(n, w), Padded(m, w));
        LessIrreflexive(Padded(m, w));
      }
    } else {
      LessIrreflexive(Padded(m, w));
    }
  }
}
