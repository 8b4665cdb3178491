/**
  The tracee's byte memory and the 64-bit words that PTRACE_PEEKTEXT and
  PTRACE_POKETEXT move in and out of it, little end first.
 */
module Memory {
  import opened Integers

  type Byte = bv8
  type Word = bv64

  /** The mapped bytes of one process; an absent key is an unmapped address. */
  type Mem = map<U64, Byte>

  /** The one-byte trap instruction. */
  const INT3: Byte := 0xCC

  /** What `long` holds after a failed PTRACE_PEEKTEXT. */
  const PEEK_FAILED: Word := 0xffff_ffff_ffff_ffff

  /** The eight bytes a word access at `a` touches. */
  predicate InWindow(a: U64, x: int) {
    a <= x < a + 8
  }

  predicate Accessible(mem: Mem, a: U64) {
    a + 7 < TWO_TO_THE_64 && forall x: U64 | a <= x < a + 8 :: x in mem
  }

  lemma AccessibleHere(mem: Mem, a: U64)
    requires Accessible(mem, a)
    ensures a in mem
  {
  }

  function ByteOf(w: Word, i: int): Byte
    requires 0 <= i < 8
  {
    if i == 0 then (w & 0xff) as bv8
    else if i == 1 then ((w >> 8) & 0xff) as bv8
    else if i == 2 then ((w >> 16) & 0xff) as bv8
    else if i == 3 then ((w >> 24) & 0xff) as bv8
    else if i == 4 then ((w >> 32) & 0xff) as bv8
    else if i == 5 then ((w >> 40) & 0xff) as bv8
    else if i == 6 then ((w >> 48) & 0xff) as bv8
    else ((w >> 56) & 0xff) as bv8
  }

  function Assemble(b0: Byte, b1: Byte, b2: Byte, b3: Byte, b4: Byte, b5: Byte, b6: Byte, b7: Byte): Word {
    (b0 as bv64) | ((b1 as bv64) << 8) | ((b2 as bv64) << 16) | ((b3 as bv64) << 24) |
    ((b4 as bv64) << 32) | ((b5 as bv64) << 40) | ((b6 as bv64) << 48) | ((b7 as bv64) << 56)
  }

  lemma AssembleBytes(b0: Byte, b1: Byte, b2: Byte, b3: Byte, b4: Byte, b5: Byte, b6: Byte, b7: Byte)
    ensures var w := Assemble(b0, b1, b2, b3, b4, b5, b6, b7);
            && ByteOf(w, 0) == b0 && ByteOf(w, 1) == b1 && ByteOf(w, 2) == b2 && ByteOf(w, 3) == b3
            && ByteOf(w, 4) == b4 && ByteOf(w, 5) == b5 && ByteOf(w, 6) == b6 && ByteOf(w, 7) == b7
  {
  }

  /** `(code & 0xffffffffffffff00) | b`, the mask of every patch the debugger writes. */
  function WithLowByte(code: Word, b: Byte): Word {
    (code & 0xffff_ffff_ffff_ff00) | (b as bv64)
  }

  lemma MaskChangesOneByte(code: Word, b: Byte)
    ensures ByteOf(WithLowByte(code, b), 0) == b
    ensures ByteOf(WithLowByte(code, b), 1) == ByteOf(code, 1)
    ensures ByteOf(WithLowByte(code, b), 2) == ByteOf(code, 2)
    ensures ByteOf(WithLowByte(code, b), 3) == ByteOf(code, 3)
    ensures ByteOf(WithLowByte(code, b), 4) == ByteOf(code, 4)
    ensures ByteOf(WithLowByte(code, b), 5) == ByteOf(code, 5)
    ensures ByteOf(WithLowByte(code, b), 6) == ByteOf(code, 6)
    ensures ByteOf(WithLowByte(code, b), 7) == ByteOf(code, 7)
  {
  }

  function PeekWord(mem: Mem, a: U64): Word
    requires Accessible(mem, a)
  {
    Assemble(mem[a], mem[a+1], mem[a+2], mem[a+3], mem[a+4], mem[a+5], mem[a+6], mem[a+7])
  }

  function PokeWord(mem: Mem, a: U64, w: Word): (r: Mem)
    requires Accessible(mem, a)
    ensures r.Keys == mem.Keys
    ensures forall x | x in mem :: r[x] == if InWindow(a, x) then ByteOf(w, x - a) else mem[x]
  {
    map x | x in mem :: if InWindow(a, x) then ByteOf(w, x - a) else mem[x]
  }

  /** Peek, mask, poke at one address writes exactly the byte at that address. */
  lemma PatchOneByte(mem: Mem, a: U64, b: Byte)
    requires Accessible(mem, a)
    ensures PokeWord(mem, a, WithLowByte(PeekWord(mem, a), b)) == mem[a := b]
  {
  }

  function WordBytes(mem: Mem, a: U64): (r: seq<Byte>)
    requires Accessible(mem, a)
    ensures |r| == 8 && forall j :: 0 <= j < 8 ==> a + j in mem && r[j] == mem[a + j]
  {
    [mem[a], mem[a+1], mem[a+2], mem[a+3], mem[a+4], mem[a+5], mem[a+6], mem[a+7]]
  }

  /** The bytes of a word, as `((unsigned char *) &code)[0..8]`. */
  function BytesOf(w: Word): seq<Byte> {
    [ByteOf(w, 0), ByteOf(w, 1), ByteOf(w, 2), ByteOf(w, 3), ByteOf(w, 4), ByteOf(w, 5), ByteOf(w, 6), ByteOf(w, 7)]
  }

  /** The bytes of a peeked word are the bytes of memory, in address order. */
  lemma BytesOfPeek(mem: Mem, a: U64)
    requires Accessible(mem, a)
    ensures BytesOf(PeekWord(mem, a)) == WordBytes(mem, a)
    ensures ByteOf(PeekWord(mem, a), 0) == mem[a]
  {
    AssembleBytes(mem[a], mem[a+1], mem[a+2], mem[a+3], mem[a+4], mem[a+5], mem[a+6], mem[a+7]);
  }

  /** `mem` with the window of `a` taken from `older`, except for `b` at `a` itself. */
  function Repoked(older: Mem, mem: Mem, a: U64, b: Byte): (r: Mem)
    requires Accessible(older, a)
    ensures r.Keys == mem.Keys
  {
    map x | x in mem :: if x == a then b else if InWindow(a, x) then older[x] else mem[x]
  }

  /**
    Poking a word that was peeked from an older memory puts the older bytes back
    over the seven bytes after `a`.
   */
  lemma PatchFromStaleWord(older: Mem, mem: Mem, a: U64, b: Byte)
    requires Accessible(older, a) && Accessible(mem, a)
    ensures PokeWord(mem, a, WithLowByte(PeekWord(older, a), b)) == Repoked(older, mem, a, b)
  {
    AssembleBytes(older[a], older[a+1], older[a+2], older[a+3], older[a+4], older[a+5], older[a+6], older[a+7]);
    MaskChangesOneByte(PeekWord(older, a), b);
  }
}
