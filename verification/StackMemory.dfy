/**
  Byte memory with little-endian words, for code that pushes, pops and saves registers.
 */
module StackMemory {
  import opened Integers

  type Octet = n: int | 0 <= n < 256

  /** The byte at every address; page faults are not modelled. */
  type Mem = int -> Octet

  function Pow256(n: nat): nat {
    if n == 0 then 1 else 256 * Pow256(n - 1)
  }

  /** The value of the `n` bytes at `a`, least significant first. */
  function Load(mem: Mem, a: int, n: nat): (v: nat)
    ensures v < Pow256(n)
    decreases n
  {
    if n == 0 then 0 else mem(a) + 256 * Load(mem, a + 1, n - 1)
  }

  function SetByte(mem: Mem, a: int, b: Octet): Mem {
    x => if x == a then b else mem(x)
  }

  function Store(mem: Mem, a: int, n: nat, v: nat): (r: Mem)
    ensures forall x :: x < a || a + n <= x ==> r(x) == mem(x)
    decreases n
  {
    if n == 0 then mem else SetByte(Store(mem, a + 1, n - 1, v / 256), a, v % 256)
  }

  /** Bytes outside the range do not matter to a load. */
  lemma {:induction false} LoadSame(mem1: Mem, mem2: Mem, a: int, n: nat)
    requires forall x | a <= x < a + n :: mem1(x) == mem2(x)
    ensures Load(mem1, a, n) == Load(mem2, a, n)
    decreases n
  {
    if n > 0 {
      LoadSame(mem1, mem2, a + 1, n - 1);
    }
  }

  /** A load gives back what was stored. */
  lemma {:induction false} LoadStore(mem: Mem, a: int, n: nat, v: nat)
    requires v < Pow256(n)
    ensures Load(Store(mem, a, n, v), a, n) == v
    decreases n
  {
    if n > 0 {
      var rest := Store(mem, a + 1, n - 1, v / 256);
      LoadStore(mem, a + 1, n - 1, v / 256);
      LoadSame(rest, SetByte(rest, a, v % 256), a + 1, n - 1);
    }
  }

  // ----- 64-bit words -----

  /** The byte positions of a 64-bit word. */
  const LANES: seq<int> := [0, 1, 2, 3, 4, 5, 6, 7]

  lemma WordWidth()
    ensures |LANES| == 8 && Pow256(|LANES|) == TWO_TO_THE_64
  {
  }

  function Word(mem: Mem, a: int): U64 {
    WordWidth();
    Load(mem, a, |LANES|)
  }

  function Put(mem: Mem, a: int, v: U64): Mem {
    Store(mem, a, |LANES|, v)
  }

  predicate Apart(a: int, n: nat, b: int, k: nat) {
    a + n <= b || b + k <= a
  }

  lemma PutFrame(mem: Mem, a: int, v: U64)
    ensures forall x :: x < a || a + 8 <= x ==> Put(mem, a, v)(x) == mem(x)
  {
  }

  lemma WordSame(mem1: Mem, mem2: Mem, a: int)
    requires forall x | a <= x < a + 8 :: mem1(x) == mem2(x)
    ensures Word(mem1, a) == Word(mem2, a)
  {
    LoadSame(mem1, mem2, a, |LANES|);
  }

  /** A word that was put is there, and every word apart from it is as before. */
  lemma WordPut(mem: Mem, a: int, v: U64, b: int)
    ensures b == a ==> Word(Put(mem, a, v), b) == v
    ensures Apart(a, 8, b, 8) ==> Word(Put(mem, a, v), b) == Word(mem, b)
  {
    WordWidth();
    if b == a {
      LoadStore(mem, a, |LANES|, v);
    } else if Apart(a, 8, b, 8) {
      WordSame(Put(mem, a, v), mem, b);
    }
  }
}
