/** Bitwise operations on naturals, as far as the ID set uses them. */
module Bits {

  function Pow2(i: nat): (p: nat)
    ensures p > 0
  {
    if i == 0 then 1 else 2 * Pow2(i - 1)
  }

  predicate Bit(w: nat, i: nat)
  {
    if i == 0 then w % 2 == 1 else Bit(w / 2, i - 1)
  }

  /** The operators & and |, bit by bit. */
  function And(a: nat, b: nat): (r: nat)
  {
    if a == 0 || b == 0 then 0
    else 2 * And(a / 2, b / 2) + (if a % 2 == 1 && b % 2 == 1 then 1 else 0)
  }

  function Or(a: nat, b: nat): (r: nat)
    decreases a + b
  {
    if a == 0 then b else if b == 0 then a
    else 2 * Or(a / 2, b / 2) + (if a % 2 == 1 || b % 2 == 1 then 1 else 0)
  }

  /** The number of zero bits below the lowest set one. */
  function TrailingZeros(w: nat): (i: nat)
    requires w > 0
  {
    if w % 2 == 1 then 0 else 1 + TrailingZeros(w / 2)
  }

  /** The number of bits needed for x. */
  function Len(x: nat): (n: nat)
  {
    if x == 0 then 0 else 1 + Len(x / 2)
  }

  lemma {:induction false} ZeroBits(i: nat)
    ensures !Bit(0, i)
  {
    if i > 0 {
      ZeroBits(i - 1);
    }
  }

  lemma {:induction false} AndBits(a: nat, b: nat, i: nat)
    ensures Bit(And(a, b), i) <==> Bit(a, i) && Bit(b, i)
  {
    ZeroBits(i);
    if a != 0 && b != 0 && i > 0 {
      assert And(a, b) / 2 == And(a / 2, b / 2);
      AndBits(a / 2, b / 2, i - 1);
    }
  }

  lemma {:induction false} OrBits(a: nat, b: nat, i: nat)
    ensures Bit(Or(a, b), i) <==> Bit(a, i) || Bit(b, i)
    decreases i
  {
    ZeroBits(i);
    if a != 0 && b != 0 && i > 0 {
      assert Or(a, b) / 2 == Or(a / 2, b / 2);
      OrBits(a / 2, b / 2, i - 1);
    }
  }

  lemma {:induction false} Pow2Bits(i: nat, j: nat)
    ensures Bit(Pow2(i), j) <==> i == j
  {
    if i == 0 {
      if j > 0 {
        ZeroBits(j - 1);
      }
    } else if j > 0 {
      Pow2Bits(i - 1, j - 1);
    }
  }

  /** Some bit of a positive number is set. */
  lemma {:induction false} LowestBit(w: nat)
    requires w > 0
    ensures Bit(w, TrailingZeros(w)) && forall j: nat :: j < TrailingZeros(w) ==> !Bit(w, j)
  {
    if w % 2 == 0 {
      LowestBit(w / 2);
      forall j: nat | j < TrailingZeros(w) ensures !Bit(w, j) {
        if j > 0 {
          assert Bit(w, j) == Bit(w / 2, j - 1);
        }
      }
    }
  }

  /** Testing a bit with a mask. */
  lemma MaskTests(w: nat, i: nat)
    ensures And(w, Pow2(i)) != 0 <==> Bit(w, i)
  {
    AndBits(w, Pow2(i), i);
    Pow2Bits(i, i);
    if And(w, Pow2(i)) == 0 {
      ZeroBits(i);
    } else {
      var k := TrailingZeros(And(w, Pow2(i)));
      LowestBit(And(w, Pow2(i)));
      AndBits(w, Pow2(i), k);
      Pow2Bits(i, k);
    }
  }

  /** Setting a bit with a mask. */
  lemma MaskSets(w: nat, i: nat, j: nat)
    ensures Bit(Or(w, Pow2(i)), j) <==> i == j || Bit(w, j)
  {
    OrBits(w, Pow2(i), j);
    Pow2Bits(i, j);
  }

  /** w & (w-1) clears the lowest set bit and no other. */
  lemma {:induction false} ClearsLowest(w: nat, j: nat)
    requires w > 0
    ensures And(w, w - 1) < w
    ensures Bit(And(w, w - 1), j) <==> Bit(w, j) && j != TrailingZeros(w)
  {
    AndSmaller(w, w - 1);
    AndBits(w, w - 1, j);
    BelowBits(w, j);
  }

  lemma {:induction false} AndSmaller(a: nat, b: nat)
    ensures And(a, b) <= b
  {
    if a != 0 && b != 0 {
      AndSmaller(a / 2, b / 2);
    }
  }

  lemma {:induction false} BelowBits(w: nat, j: nat)
    requires w > 0
    ensures j == TrailingZeros(w) ==> !Bit(w - 1, j)
    ensures j > TrailingZeros(w) ==> (Bit(w - 1, j) <==> Bit(w, j))
    ensures j < TrailingZeros(w) ==> !Bit(w, j)
    decreases j
  {
    if w % 2 == 1 {
      assert (w - 1) / 2 == w / 2;
    } else if j > 0 {
      assert (w - 1) / 2 == w / 2 - 1;
      BelowBits(w / 2, j - 1);
    }
  }

  /** Setting bits keeps a word in its width. */
  lemma {:induction false} OrWidth(a: nat, b: nat, k: nat)
    requires a < Pow2(k) && b < Pow2(k)
    ensures Or(a, b) < Pow2(k)
  {
    if k > 0 && a != 0 && b != 0 {
      OrWidth(a / 2, b / 2, k - 1);
    }
  }

  lemma {:induction false} Pow2Grows(i: nat, j: nat)
    requires i < j
    ensures Pow2(i) < Pow2(j)
  {
    if i < j - 1 {
      Pow2Grows(i, j - 1);
    }
  }

  lemma {:induction false} BitWidth(w: nat, k: nat, i: nat)
    requires w < Pow2(k) && Bit(w, i)
    ensures i < k
  {
    if k == 0 {
      ZeroBits(i);
    } else if i > 0 {
      BitWidth(w / 2, k - 1, i - 1);
    }
  }
}
