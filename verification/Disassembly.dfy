/**
  The disassembly cache: a linear sweep over the text section through an
  arbitrary decoder.
 */
module Disassembly {
  import opened Integers
  import opened Memory

  /** Bytes fetched per instruction, and how many of them reach the decoder. */
  const BUFFER_SIZE: int := 64
  const MAX_INSN: int := 15

  datatype Insn = Insn(addr: U64, bytes: seq<Byte>, size: nat, opr: string, opnd: string)

  datatype Decoded = Undecodable | Decoded(size: nat, opr: string, opnd: string)

  type Decoder = (seq<Byte>, U64) -> Decoded

  /** A sweep that ends here or below cannot run past the end of the address space and start over. */
  const SWEEP_TOP: int := TWO_TO_THE_64 - MAX_INSN

  /** The fetch loop runs at all: the end of its range has not wrapped around. */
  predicate Fetchable(addr: U64) {
    addr + BUFFER_SIZE < TWO_TO_THE_64
  }

  /** The first `n` words from `addr` on can all be peeked. */
  predicate Readable(mem: Mem, addr: U64, n: nat)
    requires Fetchable(addr) && n <= 8
  {
    n == 0 || (Readable(mem, addr, n - 1) && Accessible(mem, addr + 8 * (n - 1)))
  }

  /** The end of the fetch range, as the loop compares with it. */
  lemma WrapOnce(addr: U64)
    ensures var end := Wrap(addr as int + BUFFER_SIZE);
            if Fetchable(addr) then end == addr + BUFFER_SIZE else end <= addr
  {
  }

  function FetchedByte(mem: Mem, addr: U64, i: int): Byte
    requires Fetchable(addr) && 0 <= i < BUFFER_SIZE
  {
    if Readable(mem, addr, i / 8 + 1) && addr + i in mem then mem[addr + i] else 0
  }

  /** The fetch buffer: memory up to the first word that cannot be read, then zeros; all zeros in the last 64 bytes. */
  function Fetched(mem: Mem, addr: U64): (b: seq<Byte>)
    ensures |b| == BUFFER_SIZE
  {
    if Fetchable(addr) then seq(BUFFER_SIZE, i requires 0 <= i < BUFFER_SIZE => FetchedByte(mem, addr, i))
    else seq(BUFFER_SIZE, _ => 0)
  }

  /** `memcpy` of eight bytes into a buffer. */
  function Splice(b: seq<Byte>, at: nat, bytes: seq<Byte>): (r: seq<Byte>)
    requires at + 8 <= |b| && |bytes| == 8
    ensures |r| == |b|
  {
    b[..at] + bytes + b[at + 8..]
  }

  lemma SpliceAt(b: seq<Byte>, at: nat, bytes: seq<Byte>, i: nat)
    requires at + 8 <= |b| && |bytes| == 8 && i < |b|
    ensures Splice(b, at, bytes)[i] == if at <= i < at + 8 then bytes[i - at] else b[i]
  {
  }

  /** A zeroed buffer with the first `n` words from `addr` on copied into it. */
  function Filled(mem: Mem, addr: U64, n: nat): (b: seq<Byte>)
    requires Fetchable(addr) && n <= 8 && Readable(mem, addr, n)
    ensures |b| == BUFFER_SIZE
  {
    if n == 0 then seq(BUFFER_SIZE, _ => 0)
    else Splice(Filled(mem, addr, n - 1), 8 * (n - 1), WordBytes(mem, addr + 8 * (n - 1)))
  }

  /** Before the first word the buffer is zeroed, and it stays so where the loop does not run. */
  lemma FilledNothing(mem: Mem, addr: U64)
    ensures Fetchable(addr) ==> Readable(mem, addr, 0) && Filled(mem, addr, 0) == seq(BUFFER_SIZE, _ => 0)
    ensures !Fetchable(addr) ==> Fetched(mem, addr) == seq(BUFFER_SIZE, _ => 0)
  {
  }

  lemma FilledMore(mem: Mem, addr: U64, n: nat)
    requires Fetchable(addr) && n < 8 && Readable(mem, addr, n) && Accessible(mem, addr + 8 * n)
    ensures Readable(mem, addr, n + 1)
    ensures Filled(mem, addr, n + 1) == Splice(Filled(mem, addr, n), 8 * n, WordBytes(mem, addr + 8 * n))
  {
  }

  lemma {:induction false} ReadableShorter(mem: Mem, addr: U64, n: nat, k: nat)
    requires Fetchable(addr) && k <= n <= 8 && Readable(mem, addr, n)
    ensures Readable(mem, addr, k)
  {
    if k < n {
      ReadableShorter(mem, addr, n - 1, k);
    }
  }

  lemma {:induction false} FilledAt(mem: Mem, addr: U64, n: nat, i: nat)
    requires Fetchable(addr) && n <= 8 && Readable(mem, addr, n) && i < BUFFER_SIZE
    ensures Filled(mem, addr, n)[i] == if i < 8 * n && addr + i in mem then mem[addr + i] else 0
    ensures i < 8 * n ==> addr + i in mem
  {
    hide Splice, WordBytes, Accessible;
    if n > 0 {
      FilledAt(mem, addr, n - 1, i);
      var at := 8 * (n - 1);
      var w := WordBytes(mem, addr + at);
      SpliceAt(Filled(mem, addr, n - 1), at, w, i);
      if at <= i < at + 8 {
        assert w[i - at] == mem[(addr + at) + (i - at)];
      }
    }
  }

  lemma FilledIsFetchedAt(mem: Mem, addr: U64, n: nat, i: nat)
    requires Fetchable(addr) && n <= 8 && Readable(mem, addr, n) && i < BUFFER_SIZE
    requires n < 8 ==> !Accessible(mem, addr + 8 * n)
    ensures Filled(mem, addr, n)[i] == FetchedByte(mem, addr, i)
  {
    hide Filled, Accessible;
    var word := i / 8;
    FilledAt(mem, addr, n, i);
    if word < n {
      ReadableShorter(mem, addr, n, word + 1);
    } else if Readable(mem, addr, word + 1) {
      ReadableShorter(mem, addr, word + 1, n + 1);
      assert false;
    }
  }

  /** Copying words until one cannot be peeked yields the fetch buffer. */
  lemma FilledIsFetched(mem: Mem, addr: U64, n: nat)
    requires Fetchable(addr) && n <= 8 && Readable(mem, addr, n)
    requires n < 8 ==> !Accessible(mem, addr + 8 * n)
    ensures Filled(mem, addr, n) == Fetched(mem, addr)
  {
    var filled, fetched := Filled(mem, addr, n), Fetched(mem, addr);
    forall i: nat | i < BUFFER_SIZE ensures filled[i] == fetched[i] {
      FilledIsFetchedAt(mem, addr, n, i);
    }
  }

  /** The instruction at `addr`; a length outside 1..15 is no instruction. */
  function DecodeAt(decode: Decoder, mem: Mem, addr: U64): (r: seq<Insn>)
    ensures |r| <= 1
    ensures |r| == 1 ==> r[0].addr == addr && 1 <= r[0].size <= MAX_INSN && |r[0].bytes| == r[0].size
  {
    var buf := Fetched(mem, addr);
    match decode(buf[..BUFFER_SIZE - 1], addr)
    case Undecodable => []
    case Decoded(size, opr, opnd) =>
      if 1 <= size <= MAX_INSN then [Insn(addr, buf[..size], size, opr, opnd)] else []
  }

  /** All bytes fetched for the instruction at `addr` are mapped. */
  predicate FullyMapped(mem: Mem, addr: U64) {
    Fetchable(addr) && forall x: U64 | addr <= x < addr + BUFFER_SIZE :: x in mem
  }

  lemma {:induction false} ReadableIfMapped(mem: Mem, addr: U64, n: nat)
    requires n <= 8 && FullyMapped(mem, addr)
    ensures Readable(mem, addr, n)
  {
    if n > 0 {
      ReadableIfMapped(mem, addr, n - 1);
    }
  }

  /**
    On mapped text the decoder is given the 63 bytes from `addr` on, and what it says is
    recorded field by field, with the bytes that are in memory there.
   */
  lemma RecordsDecoded(decode: Decoder, mem: Mem, addr: U64, given: seq<Byte>)
    requires FullyMapped(mem, addr)
    requires |given| == 63 && forall j :: 0 <= j < 63 ==> given[j] == mem[addr + j]
    ensures var d, r := decode(given, addr), DecodeAt(decode, mem, addr);
            && (r != [] <==> d.Decoded? && 1 <= d.size <= 15)
            && (r != [] ==>
                  && |r| == 1 && r[0].addr == addr && r[0].size == d.size && r[0].opr == d.opr && r[0].opnd == d.opnd
                  && |r[0].bytes| == d.size && forall j :: 0 <= j < d.size ==> r[0].bytes[j] == mem[addr + j])
  {
    var buf := Fetched(mem, addr);
    forall j | 0 <= j < BUFFER_SIZE ensures buf[j] == mem[addr + j] {
      ReadableIfMapped(mem, addr, j / 8 + 1);
    }
    assert buf[..63] == given;
  }

  /** What the decoder makes of each address of one memory. */
  type InsnAt = U64 -> seq<Insn>

  ghost predicate OneEach(at: InsnAt) {
    forall a :: |at(a)| <= 1 && (|at(a)| == 1 ==> at(a)[0].addr == a && 1 <= at(a)[0].size <= MAX_INSN)
  }

  function InsnsOf(decode: Decoder, mem: Mem): (at: InsnAt)
    ensures OneEach(at)
  {
    (a: U64) => DecodeAt(decode, mem, a)
  }

  /** The sweep from `addr` up to `end`, stopping early where decoding fails. */
  ghost function SweepWith(at: InsnAt, addr: U64, end: U64): seq<Insn>
    requires OneEach(at) && end <= SWEEP_TOP
    decreases end - addr
  {
    if addr >= end || at(addr) == [] then []
    else at(addr) + SweepWith(at, addr + at(addr)[0].size, end)
  }

  ghost function Sweep(decode: Decoder, mem: Mem, addr: U64, end: U64): seq<Insn>
    requires end <= SWEEP_TOP
  {
    SweepWith(InsnsOf(decode, mem), addr, end)
  }

  /** One turn of the sweep. */
  lemma SweepNext(decode: Decoder, mem: Mem, addr: U64, end: U64)
    requires addr < end <= SWEEP_TOP
    ensures var r := DecodeAt(decode, mem, addr);
            Sweep(decode, mem, addr, end) == if r == [] then [] else r + Sweep(decode, mem, addr + r[0].size, end)
  {
    hide DecodeAt, OneEach;
  }

  lemma SweepNothing(decode: Decoder, mem: Mem, addr: U64, end: U64)
    requires end <= addr && end <= SWEEP_TOP
    ensures Sweep(decode, mem, addr, end) == []
  {
  }

  /** Each instruction starts where the one before it ends, the first at `addr`. */
  ghost predicate Tiles(insns: seq<Insn>, addr: int) {
    insns == [] || (insns[0].addr == addr && Tiles(insns[1..], addr + insns[0].size))
  }

  function EndOf(insns: seq<Insn>, addr: int): int {
    if insns == [] then addr else EndOf(insns[1..], addr + insns[0].size)
  }

  /** Every instruction lies in the swept range and is what the decoder makes of the bytes at its address. */
  ghost predicate Decodes(at: InsnAt, insns: seq<Insn>, addr: int, end: int) {
    forall insn | insn in insns :: addr <= insn.addr < end && at(insn.addr) == [insn]
  }

  lemma OneAt(at: InsnAt, a: U64)
    requires OneEach(at)
    ensures at(a) == [] || (at(a) == [at(a)[0]] && at(a)[0].addr == a && 1 <= at(a)[0].size <= MAX_INSN)
  {
  }

  /** `insns` tile memory from `addr` on, decode it, and reach `end` unless decoding fails at their end. */
  ghost predicate Covered(at: InsnAt, insns: seq<Insn>, addr: int, end: int) {
    && Tiles(insns, addr)
    && Decodes(at, insns, addr, end)
    && 0 <= addr <= EndOf(insns, addr) < TWO_TO_THE_64
    && (EndOf(insns, addr) < end ==> at(EndOf(insns, addr)) == [])
    && (addr < end ==> EndOf(insns, addr) < end + MAX_INSN)
  }

  lemma CoveredByNone(at: InsnAt, addr: U64, end: U64)
    requires addr >= end || at(addr) == []
    ensures Covered(at, [], addr, end)
  {
  }

  lemma CoveredOneMore(at: InsnAt, first: Insn, rest: seq<Insn>, end: int)
    requires first.addr < end && 1 <= first.size <= MAX_INSN && at(first.addr) == [first]
    requires Covered(at, rest, first.addr + first.size, end)
    ensures Covered(at, [first] + rest, first.addr, end)
  {
    hide Decodes;
    DecodesOneMore(at, first, rest, end);
    TilesOneMore(first, rest);
  }

  lemma DecodesOneMore(at: InsnAt, first: Insn, rest: seq<Insn>, end: int)
    requires first.addr < end && at(first.addr) == [first] && Decodes(at, rest, first.addr + first.size, end)
    ensures Decodes(at, [first] + rest, first.addr, end)
  {
  }

  lemma TilesOneMore(first: Insn, rest: seq<Insn>)
    requires Tiles(rest, first.addr + first.size)
    ensures Tiles([first] + rest, first.addr)
    ensures EndOf([first] + rest, first.addr) == EndOf(rest, first.addr + first.size)
  {
    assert ([first] + rest)[1..] == rest;
  }

  lemma {:induction false} SweepWithTiles(at: InsnAt, addr: U64, end: U64)
    requires OneEach(at) && end <= SWEEP_TOP
    ensures Covered(at, SweepWith(at, addr, end), addr, end)
    decreases end - addr
  {
    hide Covered, OneEach;
    if addr >= end || at(addr) == [] {
      CoveredByNone(at, addr, end);
    } else {
      OneAt(at, addr);
      var first := at(addr)[0];
      SweepWithTiles(at, addr + first.size, end);
      CoveredOneMore(at, first, SweepWith(at, addr + first.size, end), end);
    }
  }

  /**
    The sweep tiles memory from `addr` on; each tile is what the decoder makes of
    the bytes there, and the tiles reach `end` unless decoding fails at their end.
   */
  lemma SweepTiles(decode: Decoder, mem: Mem, addr: U64, end: U64)
    requires end <= SWEEP_TOP
    ensures var s, at := Sweep(decode, mem, addr, end), InsnsOf(decode, mem);
            && Tiles(s, addr)
            && Decodes(at, s, addr, end)
            && addr <= EndOf(s, addr) < TWO_TO_THE_64
            && (EndOf(s, addr) < end ==> at(EndOf(s, addr)) == [])
            && (addr < end ==> EndOf(s, addr) < end + MAX_INSN)
  {
    SweepWithTiles(InsnsOf(decode, mem), addr, end);
  }

  ghost predicate SameText(mem1: Mem, mem2: Mem, lo: int, hi: int) {
    forall x: U64 | lo <= x < hi :: (x in mem1 <==> x in mem2) && (x in mem1 ==> mem1[x] == mem2[x])
  }

  lemma {:induction false} ReadableSameText(mem1: Mem, mem2: Mem, addr: U64, n: nat)
    requires Fetchable(addr) && n <= 8 && SameText(mem1, mem2, addr, addr + BUFFER_SIZE)
    ensures Readable(mem1, addr, n) <==> Readable(mem2, addr, n)
  {
    if n > 0 {
      ReadableSameText(mem1, mem2, addr, n - 1);
      assert Accessible(mem1, addr + 8 * (n - 1)) <==> Accessible(mem2, addr + 8 * (n - 1));
    }
  }

  lemma FetchSameText(mem1: Mem, mem2: Mem, addr: U64)
    requires SameText(mem1, mem2, addr, addr + BUFFER_SIZE)
    ensures Fetched(mem1, addr) == Fetched(mem2, addr)
  {
    forall i: nat | i < BUFFER_SIZE && Fetchable(addr) ensures FetchedByte(mem1, addr, i) == FetchedByte(mem2, addr, i) {
      ReadableSameText(mem1, mem2, addr, i / 8 + 1);
      var x: U64 := addr + i;
      assert (x in mem1 <==> x in mem2) && (x in mem1 ==> mem1[x] == mem2[x]);
    }
  }

  lemma {:induction false} SweepAgrees(at1: InsnAt, at2: InsnAt, addr: U64, end: U64)
    requires OneEach(at1) && OneEach(at2) && end <= SWEEP_TOP
    requires forall a: U64 | addr <= a < end :: at1(a) == at2(a)
    ensures SweepWith(at1, addr, end) == SweepWith(at2, addr, end)
    decreases end - addr
  {
    if addr < end && at1(addr) != [] {
      SweepAgrees(at1, at2, addr + at1(addr)[0].size, end);
    }
  }

  /** Two memories with the same text sweep to the same instructions. */
  lemma SweepSameText(decode: Decoder, mem1: Mem, mem2: Mem, addr: U64, end: U64)
    requires end <= SWEEP_TOP && SameText(mem1, mem2, addr, end + BUFFER_SIZE)
    ensures Sweep(decode, mem1, addr, end) == Sweep(decode, mem2, addr, end)
  {
    var at1, at2 := InsnsOf(decode, mem1), InsnsOf(decode, mem2);
    forall a: U64 | addr <= a < end ensures at1(a) == at2(a) {
      FetchSameText(mem1, mem2, a);
    }
    SweepAgrees(at1, at2, addr, end);
  }

  // ----- the cache over several processes -----

  /** The text section of a process as it was when the process started. */
  datatype Text = Text(mem: Mem, entry: U64, end: U64)

  /** Its sweep; a text so high that the sweep may start over has none here. */
  ghost function SweepOf(decode: Decoder, t: Text): seq<Insn> {
    if t.end <= SWEEP_TOP then Sweep(decode, t.mem, t.entry, t.end) else []
  }

  ghost function CacheOf(decode: Decoder, texts: seq<Text>): seq<Insn> {
    if texts == [] then [] else CacheOf(decode, texts[..|texts| - 1]) + SweepOf(decode, texts[|texts| - 1])
  }

  predicate IsStart(insns: seq<Insn>, a: U64) {
    exists i :: 0 <= i < |insns| && insns[i].addr == a
  }

  ghost predicate FirstAt(insns: seq<Insn>, addr: U64, idx: nat) {
    idx < |insns| && insns[idx].addr == addr && forall j :: 0 <= j < idx ==> insns[j].addr != addr
  }

  lemma SweepDecodes(decode: Decoder, t: Text, idx: nat)
    requires idx < |SweepOf(decode, t)|
    ensures var insn := SweepOf(decode, t)[idx];
            DecodeAt(decode, t.mem, insn.addr) == [insn]
  {
    var s := SweepOf(decode, t);
    SweepTiles(decode, t.mem, t.entry, t.end);
    assert s[idx] in s;
  }

  /** The first entry for an address is what the decoder made of the first text that has an instruction there. */
  lemma {:induction false} FirstEntry(decode: Decoder, texts: seq<Text>, addr: U64, idx: nat) returns (i: nat)
    requires FirstAt(CacheOf(decode, texts), addr, idx)
    ensures i < |texts| && IsStart(SweepOf(decode, texts[i]), addr)
    ensures forall j :: 0 <= j < i ==> !IsStart(SweepOf(decode, texts[j]), addr)
    ensures DecodeAt(decode, texts[i].mem, addr) == [CacheOf(decode, texts)[idx]]
    decreases |texts|
  {
    hide SweepOf, DecodeAt;
    var n := |texts| - 1;
    var older, newer := CacheOf(decode, texts[..n]), SweepOf(decode, texts[n]);
    if idx < |older| {
      assert forall j :: 0 <= j <= idx ==> (older + newer)[j] == older[j];
      i := FirstEntry(decode, texts[..n], addr, idx);
    } else {
      i := n;
      var k := idx - |older|;
      assert newer[k] == (older + newer)[idx];
      SweepDecodes(decode, texts[n], k);
      forall j | 0 <= j < n ensures !IsStart(SweepOf(decode, texts[j]), addr) {
        NotInCache(decode, texts[..n], addr, j, older + newer, idx);
      }
    }
  }

  lemma NotInCache(decode: Decoder, texts: seq<Text>, addr: U64, j: nat, insns: seq<Insn>, idx: nat)
    requires j < |texts| && CacheOf(decode, texts) <= insns && |CacheOf(decode, texts)| <= idx && FirstAt(insns, addr, idx)
    ensures !IsStart(SweepOf(decode, texts[j]), addr)
  {
    hide SweepOf;
    var sweep := SweepOf(decode, texts[j]);
    forall k | 0 <= k < |sweep| ensures sweep[k].addr != addr {
      var p := InCache(decode, texts, j, k);
      assert insns[p] == CacheOf(decode, texts)[p];
    }
  }

  lemma {:induction false} InCache(decode: Decoder, texts: seq<Text>, j: nat, k: nat) returns (p: nat)
    requires j < |texts| && k < |SweepOf(decode, texts[j])|
    ensures p < |CacheOf(decode, texts)| && CacheOf(decode, texts)[p] == SweepOf(decode, texts[j])[k]
    decreases |texts|
  {
    hide SweepOf;
    var n := |texts| - 1;
    if j == n {
      p := |CacheOf(decode, texts[..n])| + k;
    } else {
      p := InCache(decode, texts[..n], j, k);
    }
  }
}
