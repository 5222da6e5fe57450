/** include/common/bitops.h: bitmaps as arrays of 64-bit words. */
module Bitops {
  import opened Dyadic
  import opened Bits

  const BITS_PER_LONG: nat := 64

  /** Bit i of the bitmap. */
  predicate BitAt(words: seq<nat>, i: nat)
    requires i < BITS_PER_LONG * |words|
  {
    Bit(words[i / BITS_PER_LONG], i % BITS_PER_LONG)
  }

  // ---------- words ----------

  lemma BitShift(w: nat, k: nat)
    ensures Bit(w, k + 1) == Bit(w / 2, k)
    ensures Bit(w, 0) <==> w % 2 == 1
  {
    var p := Pow2(k);
    var q, r := (w / 2) / p, (w / 2) % p;
    ModBounds(w / 2, p);
    assert w == (2 * p) * q + (2 * r + w % 2) by {
      assert w == 2 * (p * q + r) + w % 2;
    }
    DivModUnique(w, 2 * p, q, 2 * r + w % 2);
  }

  /** w | (1 << k) sets bit k and no other. */
  lemma {:induction false} OrBit(w: nat, k: nat, j: nat)
    ensures Bit(Or(w, Pow2(k)), j) <==> Bit(w, j) || j == k
    decreases k + j
  {
    hide Bit;
    var r := Or(w, Pow2(k));
    OrHalf(w, Pow2(k));
    BitShift(r, if j > 0 then j - 1 else 0);
    BitShift(w, if j > 0 then j - 1 else 0);
    if k > 0 {
      HalfPow(k);
      if j > 0 { OrBit(w / 2, k - 1, j - 1); }
    } else if j > 0 {
      OrZero(w / 2);
      assert Pow2(0) / 2 == 0;
    }
  }

  lemma HalfPow(k: nat)
    requires k > 0
    ensures Pow2(k) / 2 == Pow2(k - 1) && Pow2(k) % 2 == 0
  {
  }

  lemma OrHalf(x: nat, y: nat)
    ensures Or(x, y) / 2 == Or(x / 2, y / 2) && (Or(x, y) % 2 == 1 <==> x % 2 == 1 || y % 2 == 1)
  {
  }

  lemma AndHalf(x: nat, y: nat)
    ensures And(x, y) / 2 == And(x / 2, y / 2) && (And(x, y) % 2 == 1 <==> x % 2 == 1 && y % 2 == 1)
  {
    if x > 0 && y > 0 && (x / 2 == 0 || y / 2 == 0) {
      assert And(x / 2, y / 2) == 0;
    }
  }

  /** w & ~(1 << k), in an n-bit word, clears bit k and no other. */
  lemma {:induction false} AndNotBit(w: nat, n: nat, k: nat, j: nat)
    requires k < n && w < Pow2(n)
    ensures Pow2(n) - 1 >= Pow2(k)
    ensures Bit(And(w, Pow2(n) - 1 - Pow2(k)), j) <==> Bit(w, j) && j != k
    decreases n
  {
    hide Bit, And;
    var m := Pow2(n) - 1 - Pow2(k);
    Pow2Monotone(k + 1, n);
    AndHalf(w, m);
    BitShift(And(w, m), if j > 0 then j - 1 else 0);
    BitShift(w, if j > 0 then j - 1 else 0);
    if k > 0 {
      HalfPow(k);
      HalfPow(n);
      assert m / 2 == Pow2(n - 1) - 1 - Pow2(k - 1) && m % 2 == 1;
      if j > 0 { AndNotBit(w / 2, n - 1, k - 1, j - 1); }
    } else {
      HalfPow(n);
      assert m / 2 == Pow2(n - 1) - 1 && m % 2 == 0;
      if j > 0 { MaskAll(w / 2, n - 1); }
    }
  }

  lemma {:induction false} OrBelow(w: nat, k: nat, n: nat)
    requires k < n && w < Pow2(n)
    ensures Or(w, Pow2(k)) < Pow2(n)
    decreases n
  {
    hide Or;
    OrHalf(w, Pow2(k));
    HalfPow(n);
    if k > 0 {
      HalfPow(k);
      OrBelow(w / 2, k - 1, n - 1);
    } else {
      OrZero(w / 2);
      assert Pow2(0) / 2 == 0;
    }
  }

  lemma {:induction false} AndBelow(x: nat, y: nat)
    ensures And(x, y) <= x
    decreases x
  {
    if x > 0 && y > 0 { AndBelow(x / 2, y / 2); }
  }

  // ---------- single bits ----------

  predicate Words(a: seq<nat>) {
    forall k | 0 <= k < |a| :: a[k] < WORD
  }

  /** set_bit: bit nr becomes 1, every other bit of the map stays. */
  method SetBit(nr: nat, p: array<nat>)
    requires nr < BITS_PER_LONG * p.Length && Words(p[..])
    modifies p
    ensures Words(p[..])
    ensures forall i | 0 <= i < BITS_PER_LONG * p.Length :: BitAt(p[..], i) <==> BitAt(old(p[..]), i) || i == nr
  {
    var nlongs, ilongs := nr / BITS_PER_LONG, nr % BITS_PER_LONG;
    ghost var was := p[..];
    p[nlongs] := Or(p[nlongs], Pow2(ilongs));
    WordIsPow2();
    OrBelow(was[nlongs], ilongs, 64);
    hide Bit, Or, Pow2;
    forall i | 0 <= i < BITS_PER_LONG * p.Length ensures BitAt(p[..], i) <==> BitAt(was, i) || i == nr {
      OrBit(was[nlongs], ilongs, i % BITS_PER_LONG);
    }
  }

  /** clear_bit */
  method ClearBit(nr: nat, p: array<nat>)
    requires nr < BITS_PER_LONG * p.Length && Words(p[..])
    modifies p
    ensures Words(p[..])
    ensures forall i | 0 <= i < BITS_PER_LONG * p.Length :: BitAt(p[..], i) <==> BitAt(old(p[..]), i) && i != nr
  {
    var nlongs, ilongs := nr / BITS_PER_LONG, nr % BITS_PER_LONG;
    ghost var was := p[..];
    WordIsPow2();
    AndNotBit(was[nlongs], 64, ilongs, 0);
    AndBelow(was[nlongs], WORD - 1 - Pow2(ilongs));
    p[nlongs] := And(p[nlongs], WORD - 1 - Pow2(ilongs));
    hide Bit, And, Pow2;
    forall i | 0 <= i < BITS_PER_LONG * p.Length ensures BitAt(p[..], i) <==> BitAt(was, i) && i != nr {
      AndNotBit(was[nlongs], 64, ilongs, i % BITS_PER_LONG);
    }
  }

  // ---------- scanning ----------

  predicate Matches(words: seq<nat>, i: nat, invert: bool)
    requires i < BITS_PER_LONG * |words|
  {
    BitAt(words, i) != invert
  }

  /** r is the least matching position from start on, or size when there is none below size. */
  ghost predicate IsNext(words: seq<nat>, size: nat, start: nat, invert: bool, r: nat)
    requires size <= BITS_PER_LONG * |words|
  {
    && r <= size && (forall i | start <= i < r :: !Matches(words, i, invert))
    && (r < size ==> start <= r && Matches(words, r, invert))
  }

  lemma NextAt(words: seq<nat>, size: nat, start: nat, r: nat)
    requires size <= BITS_PER_LONG * |words| && IsNext(words, size, start, false, r)
    ensures r <= size && (r < size ==> start <= r && BitAt(words, r)) && (start <= size ==> start <= r || r == size)
    ensures forall i | start <= i < r :: !BitAt(words, i)
  {
    hide BitAt;
    forall i | start <= i < r ensures !BitAt(words, i) {
      assert !Matches(words, i, false);
    }
  }

  /** find_next_bit_helper: one word after the other, the last one only up to size. */
  method FindNext(p: array<nat>, size: nat, start: nat, invert: bool) returns (res: nat)
    requires 0 < size <= BITS_PER_LONG * p.Length
    ensures IsNext(p[..], size, start, invert, res)
  {
    hide Bit;
    var last := (size - 1) / BITS_PER_LONG;
    var cur: nat, bit: nat := start / BITS_PER_LONG, start % BITS_PER_LONG;
    res := start;
    while cur <= last
      invariant bit < BITS_PER_LONG && (cur <= last ==> res == BITS_PER_LONG * cur + bit)
      invariant cur > last ==> res >= size || cur == start / BITS_PER_LONG
      invariant start <= res && forall i | start <= i < res && i < size :: !Matches(p[..], i, invert)
      decreases last + 1 - cur
    {
      var maxBit := if cur < last then BITS_PER_LONG - 1 else (size - 1) % BITS_PER_LONG;
      while bit <= maxBit
        invariant bit <= BITS_PER_LONG && res == BITS_PER_LONG * cur + bit
        invariant start <= res && forall i | start <= i < res && i < size :: !Matches(p[..], i, invert)
      {
        SplitIndex(cur, bit);
        if Bit(p[cur], bit) != invert {
          LastWord(size, cur, bit);
          return res;
        }
        bit := bit + 1;
        res := res + 1;
      }
      cur := cur + 1;
      bit := 0;
    }
    return size;
  }

  lemma SplitIndex(cur: nat, bit: nat)
    requires bit < BITS_PER_LONG
    ensures (BITS_PER_LONG * cur + bit) / BITS_PER_LONG == cur && (BITS_PER_LONG * cur + bit) % BITS_PER_LONG == bit
  {
  }

  lemma LastWord(size: nat, cur: nat, bit: nat)
    requires size > 0 && cur <= (size - 1) / BITS_PER_LONG
    requires bit <= if cur < (size - 1) / BITS_PER_LONG then BITS_PER_LONG - 1 else (size - 1) % BITS_PER_LONG
    ensures BITS_PER_LONG * cur + bit < size
  {
  }

  /** The set positions below size, in increasing order. */
  ghost function SetBits(words: seq<nat>, size: nat): seq<nat>
    requires size <= BITS_PER_LONG * |words|
  {
    if size == 0 then [] else SetBits(words, size - 1) + if BitAt(words, size - 1) then [size - 1] else []
  }

  /** What the list of set positions is: increasing, and each set position once. */
  lemma {:induction false} SetBitsExact(words: seq<nat>, size: nat)
    requires size <= BITS_PER_LONG * |words|
    ensures forall i: nat :: i in SetBits(words, size) <==> i < size && BitAt(words, i)
    ensures forall j, k | 0 <= j < k < |SetBits(words, size)| :: SetBits(words, size)[j] < SetBits(words, size)[k]
    decreases size
  {
    hide BitAt;
    if size > 0 {
      SetBitsExact(words, size - 1);
      var r := SetBits(words, size - 1);
      assert forall k | 0 <= k < |r| :: r[k] in r;
    }
  }

  lemma {:induction false} SkipClear(words: seq<nat>, lo: nat, hi: nat)
    requires lo <= hi <= BITS_PER_LONG * |words| && forall i | lo <= i < hi :: !BitAt(words, i)
    ensures SetBits(words, hi) == SetBits(words, lo)
    decreases hi
  {
    if lo < hi { SkipClear(words, lo, hi - 1); }
  }

  /** for_each_set_bit visits exactly the set bits, once each and in increasing order. */
  method ForEachSetBit(p: array<nat>, size: nat) returns (visited: seq<nat>)
    requires 0 < size <= BITS_PER_LONG * p.Length
    ensures visited == SetBits(p[..], size)
  {
    hide BitAt, Matches, IsNext;
    visited := [];
    var pos := FindNext(p, size, 0, false);
    NextAt(p[..], size, 0, pos);
    SkipClear(p[..], 0, pos);
    while pos < size
      invariant pos <= size && (pos < size ==> BitAt(p[..], pos)) && visited == SetBits(p[..], pos)
      decreases size - pos
    {
      visited := visited + [pos];
      var next := FindNext(p, size, pos + 1, false);
      NextAt(p[..], size, pos + 1, next);
      SkipClear(p[..], pos + 1, next);
      pos := next;
    }
  }
}
