/**
  The breakpoint table and the patches it stands for: when the child's memory is the
  native memory with traps written over it, and what each patch write does to that.
 */
module Patches {
  import opened Integers
  import opened Memory
  import opened Processor
  import opened NativeSession

  datatype Breakpoint = Breakpoint(addr: U64, orig: Byte)

  /** `bp_restore = {}`. */
  const NO_BREAKPOINT: Breakpoint := Breakpoint(0, 0)

  function Addrs(bps: seq<Breakpoint>): (r: seq<U64>)
    ensures |r| == |bps|
    ensures forall i :: 0 <= i < |bps| ==> r[i] == bps[i].addr
  {
    seq(|bps|, i requires 0 <= i < |bps| => bps[i].addr)
  }

  // ----- lemmas about patched memory -----

  /** Writing one native byte back shrinks the overlay by one address. */
  lemma RemovePatch(native: Mem, bps: set<U64>, a: U64)
    requires a in native
    ensures Overlay(native, bps)[a := native[a]] == Overlay(native, bps - {a})
  {
  }

  /** Each saved byte is the native one, and `mem` is patched at the breakpoints and nowhere else. */
  ghost predicate Covers(mem: Mem, native: Mem, bps: seq<Breakpoint>) {
    && mem == Overlay(native, AddrSet(Addrs(bps)))
    && forall bp | bp in bps :: bp.addr in native && bp.orig == native[bp.addr]
  }

  lemma CoversNothing(mem: Mem)
    ensures Covers(mem, mem, [])
  {
  }

  lemma CoversMeans(mem: Mem, native: Mem, bps: seq<Breakpoint>)
    requires Covers(mem, native, bps)
    ensures mem == Overlay(native, AddrSet(Addrs(bps))) && forall a :: Accessible(mem, a) <==> Accessible(native, a)
    ensures forall bp | bp in bps :: bp.addr in native && bp.orig == native[bp.addr]
  {
  }

  /** Inserting a patch saves the native byte and extends the overlay by one address. */
  lemma InsertCovers(mem: Mem, native: Mem, bps: seq<Breakpoint>, a: U64)
    requires Covers(mem, native, bps) && a in mem && a !in Addrs(bps)
    ensures Covers(mem[a := INT3], native, bps + [Breakpoint(a, mem[a])])
    ensures Addrs(bps + [Breakpoint(a, mem[a])]) == Addrs(bps) + [a]
  {
    AddrsAppend(bps, Breakpoint(a, mem[a]));
  }

  /** Writing a saved byte back shrinks it by one, whatever other patches share its word. */
  lemma EraseCovers(mem: Mem, native: Mem, bps: seq<Breakpoint>, idx: nat)
    requires Covers(mem, native, bps) && idx < |bps| && Distinct(Addrs(bps))
    ensures Covers(mem[bps[idx].addr := bps[idx].orig], native, bps[..idx] + bps[idx+1..])
  {
    AddrsErase(bps, idx);
  }

  /** The saved bytes stay good over a run that leaves them alone. */
  lemma SavedBytesStay(native: Mem, native': Mem, bps: seq<Breakpoint>)
    requires Covers(Overlay(native, AddrSet(Addrs(bps))), native, bps) && SameAt(native, native', AddrSet(Addrs(bps)))
    ensures Covers(Overlay(native', AddrSet(Addrs(bps))), native', bps)
  {
  }

  lemma AddrsAppend(bps: seq<Breakpoint>, bp: Breakpoint)
    ensures Addrs(bps + [bp]) == Addrs(bps) + [bp.addr]
    ensures AddrSet(Addrs(bps + [bp])) == AddrSet(Addrs(bps)) + {bp.addr}
  {
  }

  lemma AddrsErase(bps: seq<Breakpoint>, idx: nat)
    requires idx < |bps| && Distinct(Addrs(bps))
    ensures var rest := bps[..idx] + bps[idx+1..];
            && Addrs(rest) == Addrs(bps)[..idx] + Addrs(bps)[idx+1..]
            && AddrSet(Addrs(rest)) == AddrSet(Addrs(bps)) - {bps[idx].addr}
  {
  }

  /** The entries before `idx` keep their places and those after it move down by one. */
  ghost predicate ErasedAt(before: seq<Breakpoint>, after: seq<Breakpoint>, idx: int) {
    && 0 <= idx < |before| && |after| == |before| - 1
    && (forall j :: 0 <= j < idx ==> after[j] == before[j])
    && (forall j :: idx <= j < |after| ==> after[j] == before[j + 1])
  }

  lemma EraseIs(bps: seq<Breakpoint>, idx: nat)
    requires idx < |bps|
    ensures ErasedAt(bps, bps[..idx] + bps[idx+1..], idx)
  {
  }

  /** No entry but the erased one goes. */
  lemma ErasedOnly(bps: seq<Breakpoint>, idx: nat)
    requires idx < |bps|
    ensures forall bp :: bp in bps && bp.addr != bps[idx].addr ==> bp in bps[..idx] + bps[idx+1..]
  {
  }

  /** Re-patching from the stale word, over the stores of the step, gives the overlay of the native result. */
  lemma RePatchedMemory(native: Mem, bps: set<U64>, a: U64, c: Change)
    requires a in bps && Accessible(native, a) && Accessible(Changed(native, c), a)
    requires Accessible(Changed(Overlay(native, bps - {a}), c), a) && Accessible(Overlay(native, bps), a)
    requires forall x | x in c.writes && x in bps :: InWindow(a, x)
    ensures PokeWord(Changed(Overlay(native, bps - {a}), c), a, WithLowByte(PeekWord(Overlay(native, bps), a), INT3))
         == Overlay(PutBack(native, Changed(native, c), a), bps)
  {
    PatchFromStaleWord(Overlay(native, bps), Changed(Overlay(native, bps - {a}), c), a, INT3);
    hide PokeWord, PeekWord, WithLowByte;
    RepokedIsOverlay(native, bps, a, c);
  }

  lemma RepokedIsOverlay(native: Mem, bps: set<U64>, a: U64, c: Change)
    requires a in bps && Accessible(native, a) && Accessible(Overlay(native, bps), a)
    requires forall x | x in c.writes && x in bps :: InWindow(a, x)
    ensures Repoked(Overlay(native, bps), Changed(Overlay(native, bps - {a}), c), a, INT3)
         == Overlay(PutBack(native, Changed(native, c), a), bps)
  {
  }

  /** What the single step does with every patch but the one at rip in place. */
  lemma UnpatchedStep(cpu: Cpu, m: Machine, bps: set<U64>, a: U64)
    requires Local(cpu) && m.Rip() == a && StepOverTame(cpu, m, bps, a)
    ensures AtInt3(Patched(m, bps - {a})) <==> AtInt3(m)
    ensures !AtInt3(m) ==> cpu.step(Patched(m, bps - {a})) == cpu.step(m)
  {
    if !AtInt3(m) {
      assert Alike(m, Patched(m, bps - {a}), cpu.footprint(m));
    }
  }

  lemma AccessibleAfter(cpu: Cpu, m: Machine, bps: set<U64>, a: U64)
    requires a in bps && Accessible(m.mem, a) && KeepsWindows(cpu, m, bps) && !AtInt3(m) && !cpu.step(m).Exit?
    ensures var c := cpu.step(m).change;
            && Accessible(Changed(m.mem, c), a) && Accessible(Changed(Overlay(m.mem, bps - {a}), c), a)
  {
    var c := cpu.step(m).change;
    forall x: U64 | a <= x < a + 8 ensures x !in c.unmaps && x in m.mem {
      assert x in UnmapsOf(cpu.step(m)) ==> !InWindow(a, x);
    }
  }

  lemma OverlayAccessible(native: Mem, bps: set<U64>, a: U64)
    ensures Accessible(Overlay(native, bps), a) <==> Accessible(native, a)
  {
  }

  /**
    Restore, single-step and re-patch: the child does the native step, except that
    the window of the re-patch comes from the word peeked before the step.
   */
  lemma StepOverPatched(cpu: Cpu, m: Machine, bps: set<U64>, a: U64)
    requires Local(cpu) && a in bps && m.Rip() == a && Accessible(m.mem, a)
    requires StepOverTame(cpu, m, bps, a)
    ensures var e, e' := Step(cpu, Patched(m, bps - {a})), StepOver(cpu, m, a);
            if e.Gone? then e' == e
            else
              && e'.Ran? && e'.m.regs == e.m.regs && e'.m.world == e.m.world
              && Accessible(e.m.mem, a) && Accessible(Overlay(m.mem, bps), a)
              && PokeWord(e.m.mem, a, WithLowByte(PeekWord(Overlay(m.mem, bps), a), INT3)) == Overlay(e'.m.mem, bps)
  {
    hide Local, PokeWord, PeekWord, WithLowByte, Overlay, Accessible, PutBack;
    OverlayAccessible(m.mem, bps, a);
    OverlayAccessible(m.mem, bps - {a}, a);
    UnpatchedStep(cpu, m, bps, a);
    if AtInt3(m) {
      var c := Change({}, map[]);
      assert Changed(m.mem, c) == m.mem && Changed(Overlay(m.mem, bps - {a}), c) == Overlay(m.mem, bps - {a});
      RePatchedMemory(m.mem, bps, a, c);
    } else if !cpu.step(m).Exit? {
      AccessibleAfter(cpu, m, bps, a);
      RePatchedMemory(m.mem, bps, a, cpu.step(m).change);
    }
  }
}
