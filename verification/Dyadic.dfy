/** Powers of two, alignment and the dyadic intervals the buddy system is built from. */
module Dyadic {

  function Pow2(k: nat): (r: nat)
    ensures r > 0
  {
    if k == 0 then 1 else 2 * Pow2(k - 1)
  }

  predicate Aligned(a: nat, k: nat) {
    a % Pow2(k) == 0
  }

  /** The other half of the order-(k+1) interval that the order-k interval at `a` belongs to. */
  function BuddyOf(a: nat, k: nat): int {
    if Aligned(a, k + 1) then a + Pow2(k) else a - Pow2(k)
  }

  lemma MulMonotone(s: nat, x: int, y: int)
    requires x <= y
    ensures s * x <= s * y
  {
  }

  /** Quotient and remainder are unique. */
  lemma DivModUnique(a: int, s: int, q: int, r: int)
    requires 0 <= r < s && a == s * q + r
    ensures a / s == q && a % s == r
  {
    var q', r' := a / s, a % s;
    assert a == s * q' + r' && 0 <= r' < s;
    if q < q' {
      MulMonotone(s, q + 1, q');
      assert false;
    } else if q' < q {
      MulMonotone(s, q' + 1, q);
      assert false;
    }
  }

  lemma ModBounds(a: nat, s: nat)
    requires s > 0
    ensures 0 <= a % s <= a && a % s < s && a == s * (a / s) + a % s && a / s >= 0
  {
    var q, r := a / s, a % s;
    assert a == s * q + r && 0 <= r < s;
    if q < 0 {
      MulMonotone(s, q, -1);
      assert false;
    }
    MulMonotone(s, 0, q);
  }

  /** Largest multiple of 2^k that is not above `a`: what ROUND_DOWN computes. */
  function Floor(a: nat, k: nat): (r: nat)
    ensures r <= a < r + Pow2(k)
  {
    ModBounds(a, Pow2(k));
    a - a % Pow2(k)
  }

  lemma AlignedMultiple(a: nat, k: nat, q: nat)
    requires a == Pow2(k) * q
    ensures Aligned(a, k)
  {
    DivModUnique(a, Pow2(k), q, 0);
  }

  /** The halves of a (k+1)-aligned interval are k-aligned and the upper one is nothing more. */
  lemma HalvesAligned(a: nat, k: nat)
    requires Aligned(a, k + 1)
    ensures Aligned(a, k) && Aligned(a + Pow2(k), k) && !Aligned(a + Pow2(k), k + 1)
  {
    var s := Pow2(k);
    var q := a / (2 * s);
    assert a == 2 * s * q == s * (2 * q);
    AlignedMultiple(a, k, 2 * q);
    assert s * (2 * q) + s == s * (2 * q + 1);
    AlignedMultiple(a + s, k, 2 * q + 1);
    DivModUnique(a + s, 2 * s, q, s);
  }

  lemma OddHalf(a: nat, k: nat)
    requires Aligned(a, k) && !Aligned(a, k + 1)
    ensures a >= Pow2(k) && Aligned(a - Pow2(k), k + 1) && Floor(a, k + 1) == a - Pow2(k)
  {
    var s := Pow2(k);
    ModBounds(a, s);
    var q := a / s;
    var h := q / 2;
    if q == 2 * h {
      MulAssoc(s, h);
      AlignedMultiple(a, k + 1, h);
      assert false;
    } else {
      assert q == 2 * h + 1;
      MulAssoc(s, h);
      assert a == (2 * s) * h + s;
      DivModUnique(a, 2 * s, h, s);
      MulMonotone(2 * s, 0, h);
      AlignedMultiple(a - s, k + 1, h);
    }
  }

  lemma MulAssoc(s: int, h: int)
    ensures s * (2 * h) == (2 * s) * h
    ensures s * (2 * h + 1) == (2 * s) * h + s
  {
  }

  lemma {:induction false} AlignedLower(a: nat, i: nat, j: nat)
    requires i <= j && Aligned(a, j)
    ensures Aligned(a, i)
    decreases j - i
  {
    if i < j {
      HalvesAligned(a, j - 1);
      AlignedLower(a, i, j - 1);
    }
  }

  lemma {:induction false} Pow2Monotone(i: nat, j: nat)
    requires i <= j
    ensures Pow2(i) <= Pow2(j)
    decreases j
  {
    if i < j {
      Pow2Monotone(i, j - 1);
    }
  }

  /** Two multiples of 2^k that differ are at least 2^k apart. */
  lemma AlignedGap(a: nat, h: nat, k: nat)
    requires Aligned(a, k) && Aligned(h, k) && a < h
    ensures a + Pow2(k) <= h
  {
    var s := Pow2(k);
    ModBounds(a, s);
    ModBounds(h, s);
    var x, y := a / s, h / s;
    if y <= x {
      MulMonotone(s, y, x);
      assert false;
    }
    MulMonotone(s, x + 1, y);
  }

  lemma AlignedShift(a: nat, k: nat)
    requires Aligned(a, k)
    ensures Aligned(a + Pow2(k), k)
    ensures a >= Pow2(k) ==> Aligned(a - Pow2(k), k)
  {
    var s := Pow2(k);
    var q := a / s;
    assert s * q + s == s * (q + 1);
    AlignedMultiple(a + s, k, q + 1);
    if a >= s {
      assert q >= 1;
      assert s * q - s == s * (q - 1);
      AlignedMultiple(a - s, k, q - 1);
    }
  }

  /** Dyadic intervals that meet are nested. */
  lemma Nested(a: nat, i: nat, b: nat, j: nat)
    requires i <= j && Aligned(a, i) && Aligned(b, j)
    requires a < b + Pow2(j) && b < a + Pow2(i)
    ensures b <= a && a + Pow2(i) <= b + Pow2(j)
  {
    AlignedLower(b, i, j);
    if a < b { AlignedGap(a, b, i); }
    AlignedShift(b, j);
    AlignedLower(b + Pow2(j), i, j);
    AlignedGap(a, b + Pow2(j), i);
  }

  lemma FloorAligned(a: nat, k: nat)
    ensures Aligned(Floor(a, k), k)
  {
    AlignedMultiple(Floor(a, k), k, a / Pow2(k));
  }

  /** The larger of two enclosing blocks encloses the smaller. */
  lemma FloorFloor(a: nat, i: nat, j: nat)
    requires i <= j
    ensures Floor(Floor(a, i), j) == Floor(a, j)
  {
    var f, g := Floor(a, i), Floor(a, j);
    FloorAligned(a, i);
    FloorAligned(a, j);
    FloorAligned(f, j);
    AlignedLower(g, i, j);
    hide Floor, Aligned, Pow2;
    if f < g { AlignedGap(f, g, i); }
    var h := Floor(f, j);
    if h < g { AlignedGap(h, g, j); } else if g < h { AlignedGap(g, h, j); }
  }

  /** Buddies pair up: same parent, each the other's buddy. */
  lemma BuddyFacts(a: nat, k: nat)
    requires Aligned(a, k)
    ensures var b := BuddyOf(a, k);
      && b >= 0 && Aligned(b, k) && BuddyOf(b, k) == a && b != a
      && var m := if a < b then a else b;
         Aligned(m, k + 1) && m == Floor(a, k + 1)
  {
    if Aligned(a, k + 1) {
      HalvesAligned(a, k);
    } else {
      OddHalf(a, k);
      HalvesAligned(a - Pow2(k), k);
    }
  }

  lemma UpperHalfBuddy(a: nat, k: nat)
    requires Aligned(a, k + 1)
    ensures BuddyOf(a, k) == a + Pow2(k) && BuddyOf(a + Pow2(k), k) == a
  {
    HalvesAligned(a, k);
  }
}
