/**
  Setting, clearing and testing one bit of a 64-bit word.
 */
module SignalBits {

  predicate TestBit(w: bv64, i: bv6) {
    (w >> i) & 1 == 1
  }

  function WithBit(w: bv64, i: bv6): bv64 {
    w | (1 << i)
  }

  function WithoutBit(w: bv64, i: bv6): bv64 {
    w & !(1 << i)
  }

  lemma SetOwn(w: bv64, i: bv6)
    ensures TestBit(WithBit(w, i), i)
  {
  }

  lemma SetOther(w: bv64, i: bv6, j: bv6)
    requires i != j
    ensures TestBit(WithBit(w, i), j) <==> TestBit(w, j)
  {
  }

  lemma ClearOwn(w: bv64, i: bv6)
    ensures !TestBit(WithoutBit(w, i), i)
  {
  }

  lemma ClearOther(w: bv64, i: bv6, j: bv6)
    requires i != j
    ensures TestBit(WithoutBit(w, i), j) <==> TestBit(w, j)
  {
  }

  lemma NoneOrAll(j: bv6)
    ensures !TestBit(0, j) && TestBit(0xffff_ffff_ffff_ffff, j)
  {
  }

  /** `1 & (w >> i)` is 1 or 0 as the bit is set or not. */
  lemma LowBit(w: bv64, i: bv6)
    ensures 1 & (w >> i) == if TestBit(w, i) then 1 else 0
  {
  }

  /** 2 to the power `k`, in the arithmetic of a 64-bit word. */
  function PowerOfTwo(k: bv6): bv64
    decreases k
  {
    if k == 0 then 1 else 2 * PowerOfTwo(k - 1)
  }

  lemma Doubling(k: bv6)
    requires k != 0
    ensures 2 * ((1 as bv64) << (k - 1)) == (1 as bv64) << k
  {
  }

  lemma {:induction false} PowerIsShift(k: bv6)
    ensures PowerOfTwo(k) == (1 as bv64) << k
    decreases k
  {
    if k != 0 {
      Doubling(k);
      PowerIsShift(k - 1);
    }
  }

  lemma Masked(w: bv64, i: bv6)
    ensures TestBit(w, i) <==> w & ((1 as bv64) << i) != 0
  {
  }
}
