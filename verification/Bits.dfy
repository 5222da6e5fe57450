/** Bitwise operators on natural numbers, and the mask forms of macro.h. */
module Bits {
  import opened Dyadic

  const WORD: nat := 0x1_0000_0000_0000_0000  // 2^64

  function And(x: nat, y: nat): nat
    decreases x
  {
    if x == 0 || y == 0 then 0 else (if x % 2 == 1 && y % 2 == 1 then 1 else 0) + 2 * And(x / 2, y / 2)
  }

  function Or(x: nat, y: nat): nat
    decreases x
  {
    if x == 0 then y else (if x % 2 == 1 || y % 2 == 1 then 1 else 0) + 2 * Or(x / 2, y / 2)
  }

  /** Bit k of x. */
  predicate Bit(x: nat, k: nat) {
    (x / Pow2(k)) % 2 == 1
  }

  /** ROUND_DOWN(x, n): x & ~(n - 1) on 64-bit words. */
  function RoundDown(x: nat, n: nat): nat
    requires 0 < n <= WORD
  {
    And(x, WORD - 1 - (n - 1))
  }

  /** ROUND_UP(x, n): (x + n - 1) & ~(n - 1) on 64-bit words. */
  function RoundUp(x: nat, n: nat): nat
    requires 0 < n <= WORD
  {
    And((x + n - 1) % WORD, WORD - 1 - (n - 1))
  }

  lemma Shift4(k: nat)
    ensures Pow2(k + 4) == 16 * Pow2(k)
  {
    assert Pow2(k + 4) == 2 * Pow2(k + 3) && Pow2(k + 3) == 2 * Pow2(k + 2);
    assert Pow2(k + 2) == 2 * Pow2(k + 1);
  }

  lemma Shift16(k: nat)
    ensures Pow2(k + 16) == 0x1_0000 * Pow2(k)
  {
    Shift4(k);
    Shift4(k + 4);
    Shift4(k + 8);
    Shift4(k + 12);
  }

  lemma WordIsPow2()
    ensures Pow2(64) == WORD
  {
    Shift16(0);
    Shift16(16);
    Shift16(32);
    Shift16(48);
  }

  lemma MulDouble(x: nat, y: nat)
    ensures 2 * (x * y) == (2 * x) * y
  {
  }

  lemma {:induction false} Pow2Add(i: nat, j: nat)
    ensures Pow2(i + j) == Pow2(i) * Pow2(j)
    decreases i
  {
    if i > 0 {
      Pow2Add(i - 1, j);
      MulDouble(Pow2(i - 1), Pow2(j));
    }
  }

  lemma AndEven(x: nat, y: nat)
    ensures And(x, 2 * y) == 2 * And(x / 2, y)
  {
    assert (2 * y) / 2 == y && (2 * y) % 2 == 0;
  }

  lemma AndOdd(x: nat, y: nat)
    ensures And(x, 2 * y + 1) == x % 2 + 2 * And(x / 2, y)
  {
    assert (2 * y + 1) / 2 == y && (2 * y + 1) % 2 == 1;
  }

  lemma {:induction false} MaskAll(x: nat, w: nat)
    requires x < Pow2(w)
    ensures And(x, Pow2(w) - 1) == x
    decreases w
  {
    if w > 0 {
      MaskAll(x / 2, w - 1);
      AndOdd(x, Pow2(w - 1) - 1);
    }
  }

  /** Masking off the k low bits of a w-bit word. */
  lemma {:induction false} MaskIsFloor(x: nat, w: nat, k: nat)
    requires k <= w && x < Pow2(w)
    ensures Pow2(k) <= Pow2(w) && And(x, Pow2(w) - Pow2(k)) == Floor(x, k)
    decreases w
  {
    if k == 0 {
      MaskAll(x, w);
    } else {
      MaskIsFloor(x / 2, w - 1, k - 1);
      var m := Pow2(w - 1) - Pow2(k - 1);
      AndEven(x, m);
      FloorHalf(x, k);
      assert Pow2(w) - Pow2(k) == 2 * m;
    }
  }

  /** Floor at the next bit is Floor of the half. */
  lemma FloorHalf(x: nat, k: nat)
    requires k > 0
    ensures Floor(x, k) == 2 * Floor(x / 2, k - 1)
  {
    var s := Pow2(k - 1);
    var q, r := (x / 2) / s, (x / 2) % s;
    ModBounds(x / 2, s);
    assert x == (2 * s) * q + (2 * r + x % 2) by {
      assert x == 2 * (s * q + r) + x % 2;
    }
    DivModUnique(x, 2 * s, q, 2 * r + x % 2);
  }

  /** ROUND_DOWN to a power of two is the largest multiple not above x. */
  lemma RoundDownIsFloor(x: nat, k: nat)
    requires x < WORD && k < 64
    ensures Pow2(k) <= WORD && RoundDown(x, Pow2(k)) == Floor(x, k)
  {
    hide And, Floor, Pow2;
    WordIsPow2();
    MaskIsFloor(x, 64, k);
  }

  lemma SmallMod(y: nat)
    requires y < WORD
    ensures y % WORD == y
  {
  }

  /** ROUND_UP to a power of two is the least multiple not below x, while the sum fits a word. */
  lemma RoundUpIsCeiling(x: nat, k: nat)
    requires k < 64 && x + Pow2(k) - 1 < WORD
    ensures Pow2(k) <= WORD
    ensures var r := RoundUp(x, Pow2(k)); Aligned(r, k) && x <= r < x + Pow2(k)
  {
    var p := Pow2(k);
    var y := x + p - 1;
    RoundDownIsFloor(y, k);
    FloorAligned(y, k);
    SmallMod(y);
    assert RoundUp(x, p) == RoundDown(y, p);
  }

  lemma {:induction false} OrZero(x: nat)
    ensures Or(x, 0) == x
    decreases x
  {
    if x > 0 { OrZero(x / 2); }
  }

  /** Or-ing a field below bit k into a value whose low k bits are clear is addition. */
  lemma {:induction false} OrIsPlus(x: nat, y: nat, k: nat)
    requires Aligned(x, k) && y < Pow2(k)
    ensures Or(x, y) == x + y
    decreases k
  {
    if k == 0 {
      OrZero(x);
    } else if x > 0 {
      FloorHalf(x, k);
      OrIsPlus(x / 2, y / 2, k - 1);
    }
  }

  // ---------- bits of a sum of fields ----------

  /** What lies above bit n does not change the bits below it. */
  lemma BitBelow(x: nat, m: nat, n: nat, k: nat)
    requires k < n
    ensures Bit(x + Pow2(n) * m, k) == Bit(x, k)
  {
    hide *;
    var p, h := Pow2(k), Pow2(n - k - 1);
    Pow2Add(k, n - k);
    Pow2Double(n - k - 1);
    ModBounds(x, p);
    BitsBelow(x, p, h, m);
    SameBit(x, x + Pow2(n) * m, k);
  }

  lemma Pow2Double(k: nat)
    ensures Pow2(k + 1) == 2 * Pow2(k)
  {
  }

  lemma BitsBelow(x: nat, p: nat, h: nat, m: nat)
    requires p > 0
    ensures ((x + (p * (2 * h)) * m) / p) % 2 == (x / p) % 2
  {
    ModBounds(x, p);
    var q, r := x / p, x % p;
    SplitProduct(p, q, h, m, r);
    DivModUnique(x + (p * (2 * h)) * m, p, q + 2 * (h * m), r);
    Even(q, h * m);
  }

  lemma Even(q: nat, y: nat)
    ensures (q + 2 * y) % 2 == q % 2
  {
  }

  lemma SameBit(x: nat, y: nat, k: nat)
    requires (y / Pow2(k)) % 2 == (x / Pow2(k)) % 2
    ensures Bit(y, k) == Bit(x, k)
  {
  }

  lemma SplitProduct(p: nat, q: nat, h: nat, m: nat, r: nat)
    ensures p * q + r + (p * (2 * h)) * m == p * (q + 2 * (h * m)) + r
  {
  }

  /** What lies below bit n does not change the bits from n on. */
  lemma BitAbove(x: nat, m: nat, n: nat, k: nat)
    requires x < Pow2(n)
    ensures Bit(x + Pow2(n) * m, n + k) == Bit(m, k)
  {
    hide *;
    Pow2Add(n, k);
    QuotientAbove(x, m, Pow2(n), Pow2(k));
    BitIsQuotient(x + Pow2(n) * m, n + k);
    BitIsQuotient(m, k);
  }

  lemma BitIsQuotient(x: nat, k: nat)
    ensures Bit(x, k) <==> (x / Pow2(k)) % 2 == 1
  {
  }

  lemma QuotientAbove(x: nat, m: nat, s: nat, p: nat)
    requires x < s && p > 0
    ensures s * p > 0 && (x + s * m) / (s * p) == m / p
  {
    ModBounds(m, p);
    var q, r := m / p, m % p;
    ShiftProduct(s, p, q, r);
    MulMonotone(s, r + 1, p);
    DivModUnique(x + s * m, s * p, q, x + s * r);
  }

  lemma ShiftProduct(s: nat, p: nat, q: nat, r: nat)
    ensures s * (p * q + r) == (s * p) * q + s * r
  {
  }

  function One(b: bool): nat { if b then 1 else 0 }

  /** The number with the twelve binary digits b0, b1, .., as in the low attributes of a descriptor. */
  function Twelve(b0: nat, b1: nat, b2: nat, b3: nat, b4: nat, b5: nat, b6: nat, b7: nat, b8: nat, b9: nat, b10: nat, b11: nat): nat {
    b0 + 2 * b1 + 4 * b2 + 8 * b3 + 16 * b4 + 32 * b5 + 64 * b6 + 128 * b7 + 256 * b8 + 512 * b9 + 1024 * b10 + 2048 * b11
  }

  lemma TwelveBits(b0: nat, b1: nat, b2: nat, b3: nat, b4: nat, b5: nat, b6: nat, b7: nat, b8: nat, b9: nat, b10: nat, b11: nat)
    requires b0 < 2 && b1 < 2 && b2 < 2 && b3 < 2 && b4 < 2 && b5 < 2 && b6 < 2 && b7 < 2 && b8 < 2 && b9 < 2 && b10 < 2 && b11 < 2
    ensures var x := Twelve(b0, b1, b2, b3, b4, b5, b6, b7, b8, b9, b10, b11);
      && x < 4096
      && (Bit(x, 0) <==> b0 == 1) && (Bit(x, 1) <==> b1 == 1) && (Bit(x, 2) <==> b2 == 1) && (Bit(x, 3) <==> b3 == 1)
      && (Bit(x, 4) <==> b4 == 1) && (Bit(x, 5) <==> b5 == 1) && (Bit(x, 6) <==> b6 == 1) && (Bit(x, 7) <==> b7 == 1)
      && (Bit(x, 8) <==> b8 == 1) && (Bit(x, 9) <==> b9 == 1) && (Bit(x, 10) <==> b10 == 1) && (Bit(x, 11) <==> b11 == 1)
  {
    hide Pow2, Bit;
    SmallPowers();
    var x := Twelve(b0, b1, b2, b3, b4, b5, b6, b7, b8, b9, b10, b11);
    var m10: nat := b11;
    var m9 := b10 + 2 * m10;
    var m8 := b9 + 2 * m9;
    var m7 := b8 + 2 * m8;
    var m6 := b7 + 2 * m7;
    var m5 := b6 + 2 * m6;
    var m4 := b5 + 2 * m5;
    var m3 := b4 + 2 * m4;
    var m2 := b3 + 2 * m3;
    var m1 := b2 + 2 * m2;
    var m0 := b1 + 2 * m1;
    FieldBit(x, 0, 1, b0, m0, 0);
    FieldBit(x, 1, 2, b1, m1, b0);
    FieldBit(x, 2, 4, b2, m2, b0 + 2 * b1);
    FieldBit(x, 3, 8, b3, m3, b0 + 2 * b1 + 4 * b2);
    FieldBit(x, 4, 16, b4, m4, b0 + 2 * b1 + 4 * b2 + 8 * b3);
    FieldBit(x, 5, 32, b5, m5, b0 + 2 * b1 + 4 * b2 + 8 * b3 + 16 * b4);
    FieldBit(x, 6, 64, b6, m6, b0 + 2 * b1 + 4 * b2 + 8 * b3 + 16 * b4 + 32 * b5);
    FieldBit(x, 7, 128, b7, m7, b0 + 2 * b1 + 4 * b2 + 8 * b3 + 16 * b4 + 32 * b5 + 64 * b6);
    FieldBit(x, 8, 256, b8, m8, b0 + 2 * b1 + 4 * b2 + 8 * b3 + 16 * b4 + 32 * b5 + 64 * b6 + 128 * b7);
    FieldBit(x, 9, 512, b9, m9, b0 + 2 * b1 + 4 * b2 + 8 * b3 + 16 * b4 + 32 * b5 + 64 * b6 + 128 * b7 + 256 * b8);
    FieldBit(x, 10, 1024, b10, m10, b0 + 2 * b1 + 4 * b2 + 8 * b3 + 16 * b4 + 32 * b5 + 64 * b6 + 128 * b7 + 256 * b8 + 512 * b9);
    FieldBit(x, 11, 2048, b11, 0, b0 + 2 * b1 + 4 * b2 + 8 * b3 + 16 * b4 + 32 * b5 + 64 * b6 + 128 * b7 + 256 * b8 + 512 * b9 + 1024 * b10);
  }

  lemma FieldBit(x: nat, k: nat, p: nat, b: nat, m: nat, r: nat)
    requires p == Pow2(k) && b < 2 && r < p && x == p * (b + 2 * m) + r
    ensures Bit(x, k) <==> b == 1
  {
    DivModUnique(x, p, b + 2 * m, r);
  }

  lemma SmallPowers()
    ensures Pow2(0) == 1 && Pow2(1) == 2 && Pow2(2) == 4 && Pow2(3) == 8 && Pow2(4) == 16 && Pow2(5) == 32
    ensures Pow2(6) == 64 && Pow2(7) == 128 && Pow2(8) == 256 && Pow2(9) == 512 && Pow2(10) == 1024 && Pow2(11) == 2048
  {
    assert Pow2(1) == 2 && Pow2(2) == 4 && Pow2(3) == 8;
    assert Pow2(4) == 16 && Pow2(5) == 32 && Pow2(6) == 64;
    assert Pow2(7) == 128 && Pow2(8) == 256 && Pow2(9) == 512;
    assert Pow2(10) == 1024;
  }

  /** Two flags at bits 5 and 6, and nothing else. */
  lemma ExecuteNeverBits(pxn: nat, uxn: nat, k: nat)
    requires pxn < 2 && uxn < 2
    ensures Bit(32 * pxn + 64 * uxn, k) <==> (k == 5 && pxn == 1) || (k == 6 && uxn == 1)
  {
    var x := 32 * pxn + 64 * uxn;
    hide *;
    SmallPowers();
    if k >= 7 {
      Pow2Monotone(7, k);
      NoBit(x, k);
    } else if k == 6 {
      FieldBit(x, 6, 64, uxn, 0, 32 * pxn);
    } else if k == 5 {
      FieldBit(x, 5, 32, pxn, uxn, 0);
    } else if k == 4 {
      FieldBit(x, 4, 16, 0, pxn + 2 * uxn, 0);
    } else if k == 3 {
      FieldBit(x, 3, 8, 0, 2 * pxn + 4 * uxn, 0);
    } else if k == 2 {
      FieldBit(x, 2, 4, 0, 4 * pxn + 8 * uxn, 0);
    } else if k == 1 {
      FieldBit(x, 1, 2, 0, 8 * pxn + 16 * uxn, 0);
    } else {
      FieldBit(x, 0, 1, 0, 16 * pxn + 32 * uxn, 0);
    }
  }

  lemma NoBit(x: nat, k: nat)
    requires x < Pow2(k)
    ensures !Bit(x, k)
  {
    DivModUnique(x, Pow2(k), 0, x);
  }
}
