/**
 Byte sizes and sector counts. The program computes them with `math.Ceil` on floats; for sizes below 2^53 and a
 power-of-two sector size that is the exact ceiling, which is what CeilDiv is.
 */
module Quantities {

  const TWO_TO_THE_32: nat := 0x1_0000_0000
  const TWO_TO_THE_64: nat := 0x1_0000_0000_0000_0000

  datatype Option<+T> = None | Some(value: T)

  function Max(a: nat, b: nat): nat {
    if a < b then b else a
  }

  /** How many sectors of `s` bytes hold `a` bytes. */
  function CeilDiv(a: nat, s: nat): (q: nat)
    requires s > 0
    ensures a <= q * s < a + s
  {
    DivBounds(a + s - 1, s);
    (a + s - 1) / s
  }

  /** The smallest multiple of the sector size that is not below `a` (see AlignUpIsLeast). */
  function AlignUp(a: nat, s: nat): (r: nat)
    requires s > 0
    ensures a <= r < a + s
  {
    CeilDiv(a, s) * s
  }

  /** Subtraction that stops at zero. */
  function SafeSubtract(a: nat, b: nat): nat {
    if b > a then 0 else a - b
  }

  lemma DivBounds(x: nat, s: nat)
    requires s > 0
    ensures x - s < (x / s) * s <= x
  {
    assert x == s * (x / s) + x % s;
  }

  lemma {:induction false} MulStep(p: int, q: int, s: nat)
    requires p < q
    ensures p * s + s <= q * s
    decreases q - p
  {
    assert (q - 1) * s + s == q * s;
    if p < q - 1 {
      MulStep(p, q - 1, s);
    }
  }

  /** The only integer q with a <= q*s < a+s is CeilDiv(a, s). */
  lemma CeilDivUnique(a: nat, s: nat, q: nat)
    requires s > 0 && a <= q * s < a + s
    ensures CeilDiv(a, s) == q
  {
    var p := CeilDiv(a, s);
    if p < q {
      MulStep(p, q, s);
    } else if q < p {
      MulStep(q, p, s);
    }
  }

  lemma CeilDivMonotone(a: nat, b: nat, s: nat)
    requires s > 0 && a <= b
    ensures CeilDiv(a, s) <= CeilDiv(b, s)
  {
    var p, q := CeilDiv(a, s), CeilDiv(b, s);
    if q < p {
      MulStep(q, p, s);
    }
  }

  lemma CeilDivAdd(a: nat, k: nat, s: nat)
    requires s > 0
    ensures CeilDiv(a + k * s, s) == CeilDiv(a, s) + k
    ensures CeilDiv(k * s, s) == k
  {
    assert (CeilDiv(a, s) + k) * s == CeilDiv(a, s) * s + k * s;
    CeilDivUnique(a + k * s, s, CeilDiv(a, s) + k);
    CeilDivUnique(k * s, s, k);
  }

  /** Rounding two parts up costs at most one sector more than rounding their sum up. */
  lemma CeilDivSplit(a: nat, b: nat, s: nat)
    requires s > 0
    ensures CeilDiv(a, s) + CeilDiv(b, s) <= CeilDiv(a + b, s) + 1
  {
    var p, q, r := CeilDiv(a, s), CeilDiv(b, s), CeilDiv(a + b, s);
    assert (p + q) * s == p * s + q * s;
    assert (r + 1) * s == r * s + s;
    if r + 1 < p + q {
      MulStep(r + 1, p + q, s);
    }
  }

  predicate Aligned(a: nat, s: nat)
    requires s > 0
  {
    AlignUp(a, s) == a
  }

  /** AlignUp gives an aligned size, and no smaller aligned size is large enough. */
  lemma AlignUpIsLeast(a: nat, m: nat, s: nat)
    requires s > 0
    ensures Aligned(AlignUp(a, s), s)
    ensures a <= m && Aligned(m, s) ==> AlignUp(a, s) <= m
  {
    CeilDivAdd(0, CeilDiv(a, s), s);
    if a <= m && Aligned(m, s) {
      AlignUpMonotone(a, m, s);
    }
  }

  lemma AlignUpMonotone(a: nat, b: nat, s: nat)
    requires s > 0 && a <= b
    ensures AlignUp(a, s) <= AlignUp(b, s)
  {
    CeilDivMonotone(a, b, s);
    if CeilDiv(a, s) < CeilDiv(b, s) {
      MulStep(CeilDiv(a, s), CeilDiv(b, s), s);
    }
  }

  /** Division rounding down and rounding up agree exactly on aligned sizes. */
  lemma FloorIsCeilIffAligned(a: nat, s: nat)
    requires s > 0
    ensures a / s == CeilDiv(a, s) <==> Aligned(a, s)
    ensures Aligned(a, s) ==> (a / s) * s == a
  {
    DivBounds(a, s);
    var f, q := a / s, CeilDiv(a, s);
    if f < q {
      MulStep(f, q, s);
    } else if q < f {
      MulStep(q, f, s);
    }
  }
}
