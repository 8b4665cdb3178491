/**
  `sigset_t` as one 64-bit word, and the mathematical set of signals it stands for.
  A signal number is the bit pattern of a 32-bit `int`, so that a negative one is
  simply out of range.
 */
module SignalSet {
  import opened Errno
  import opened SignalBits

  const NSIG: bv32 := 64

  predicate IsSignal(n: bv32) {
    1 <= n <= NSIG
  }

  /** `unsigned long sig = signo - 1` as a shift amount; for every signal it is below 64, and C defines no other. */
  function Position(n: bv32): bv6 {
    ((n - 1) & 63) as bv6
  }

  predicate Has(sig: bv64, n: bv32) {
    TestBit(sig, Position(n))
  }

  /** The signals whose bit is set. */
  ghost function Members(sig: bv64): iset<bv32> {
    iset n: bv32 | IsSignal(n) && Has(sig, n)
  }

  ghost function AllSignals(): iset<bv32> {
    iset n: bv32 | IsSignal(n)
  }

  datatype Op = Empty | Fill | Add(added: bv32) | Del(removed: bv32)

  /** Only signals are deleted: the original shifts by any other number too, which has no meaning. */
  predicate Meaningful(op: Op) {
    op.Del? ==> IsSignal(op.removed)
  }

  /** What the operations do to the word; adding a signal out of range does nothing. */
  function OnWord(sig: bv64, op: Op): bv64 {
    match op
    case Empty => 0
    case Fill => 0xffff_ffff_ffff_ffff
    case Add(n) => if IsSignal(n) then WithBit(sig, Position(n)) else sig
    case Del(n) => WithoutBit(sig, Position(n))
  }

  /** What they are to do to a set. */
  ghost function OnSet(s: iset<bv32>, op: Op): iset<bv32> {
    match op
    case Empty => iset{}
    case Fill => AllSignals()
    case Add(n) => if IsSignal(n) then s + iset{n} else s
    case Del(n) => s - iset{n}
  }

  class SigSet {
    var sig: bv64

    method SigEmptySet() returns (ret: int)
      modifies this
      ensures ret == 0 && Members(sig) == iset{}
    {
      WordRefinesSet(sig, Empty);
      sig := 0;
      ret := 0;
    }

    method SigFillSet() returns (ret: int)
      modifies this
      ensures ret == 0 && Members(sig) == AllSignals()
    {
      WordRefinesSet(sig, Fill);
      sig := 0xffff_ffff_ffff_ffff;
      ret := 0;
    }

    method SigAddSet(signo: bv32) returns (ret: int)
      modifies this
      ensures ret == if IsSignal(signo) then 0 else -EINVAL
      ensures Members(sig) == if IsSignal(signo) then old(Members(sig)) + iset{signo} else old(Members(sig))
    {
      hide Position, TestBit, WithBit, WithoutBit;
      WordRefinesSet(sig, Add(signo));
      if signo < 1 || signo > NSIG {
        return -EINVAL;
      }
      sig := WithBit(sig, Position(signo));
      return 0;
    }

    method SigDelSet(signo: bv32) returns (ret: int)
      modifies this
      ensures ret == 0
      ensures IsSignal(signo) ==> Members(sig) == old(Members(sig)) - iset{signo}
    {
      if IsSignal(signo) {
        WordRefinesSet(sig, Del(signo));
      }
      sig := WithoutBit(sig, Position(signo));
      ret := 0;
    }

    method SigIsMember(signo: bv32) returns (ret: bv64)
      ensures ret == 0 || ret == 1
      ensures IsSignal(signo) ==> ret == if signo in Members(sig) then 1 else 0
    {
      LowBit(sig, Position(signo));
      assert IsSignal(signo) ==> (signo in Members(sig) <==> Has(sig, signo));
      ret := 1 & (sig >> Position(signo));
    }
  }

  lemma PositionInjective(n: bv32, k: bv32)
    requires IsSignal(n) && IsSignal(k)
    ensures Position(n) == Position(k) ==> n == k
  {
  }

  lemma BitAfter(sig: bv64, op: Op, n: bv32)
    requires IsSignal(n) && Meaningful(op)
    ensures Has(OnWord(sig, op), n) <==> n in OnSet(Members(sig), op)
  {
    hide Position, TestBit, WithBit, WithoutBit;
    assert n in Members(sig) <==> Has(sig, n);
    match op
    case Empty => NoneOrAll(Position(n));
    case Fill => NoneOrAll(Position(n));
    case Add(k) =>
      if k == n {
        SetOwn(sig, Position(n));
      } else if IsSignal(k) {
        PositionInjective(k, n);
        SetOther(sig, Position(k), Position(n));
      }
    case Del(k) =>
      if k == n {
        ClearOwn(sig, Position(n));
      } else {
        PositionInjective(k, n);
        ClearOther(sig, Position(k), Position(n));
      }
  }

  /** Every operation on the word is the operation on the set: changing one bit disturbs no other. */
  lemma WordRefinesSet(sig: bv64, op: Op)
    requires Meaningful(op)
    ensures Members(OnWord(sig, op)) == OnSet(Members(sig), op)
  {
    hide Has, OnWord;
    forall n: bv32 ensures n in Members(OnWord(sig, op)) <==> n in OnSet(Members(sig), op) {
      if IsSignal(n) {
        BitAfter(sig, op, n);
      }
    }
  }

  lemma PositionIs(n: bv32)
    requires IsSignal(n)
    ensures Position(n) == (n - 1) as bv6
  {
  }

  /** Signal `n` is the binary digit of weight 2 to the `n - 1`, where the kernel looks for it. */
  lemma MemberIsDigit(sig: bv64, n: bv32)
    requires IsSignal(n)
    ensures n in Members(sig) <==> sig & PowerOfTwo((n - 1) as bv6) != 0
  {
    hide Position, TestBit;
    PositionIs(n);
    PowerIsShift(Position(n));
    Masked(sig, Position(n));
    assert n in Members(sig) <==> Has(sig, n);
  }

  function RunWord(sig: bv64, ops: seq<Op>): bv64
    decreases |ops|
  {
    if ops == [] then sig else RunWord(OnWord(sig, ops[0]), ops[1..])
  }

  ghost function RunSet(s: iset<bv32>, ops: seq<Op>): iset<bv32>
    decreases |ops|
  {
    if ops == [] then s else RunSet(OnSet(s, ops[0]), ops[1..])
  }

  /** After any sequence of operations the word stands for the set under the same operations. */
  lemma {:induction false} RunRefinesSet(sig: bv64, ops: seq<Op>)
    requires forall op | op in ops :: Meaningful(op)
    ensures Members(RunWord(sig, ops)) == RunSet(Members(sig), ops)
    decreases |ops|
  {
    if ops != [] {
      WordRefinesSet(sig, ops[0]);
      RunRefinesSet(OnWord(sig, ops[0]), ops[1..]);
    }
  }
}
