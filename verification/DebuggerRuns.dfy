/**
  Whole runs of the debugger, on the patched process itself: what the theorems about
  sessions say of the bytes, registers and reports of a real child.
 */
module DebuggerRuns {
  import opened Integers
  import opened Memory
  import opened Processor
  import opened NativeSession
  import opened Patches
  import opened Transparency
  import opened HitList
  import opened Lifetime
  import opened Disassembly
  import opened CommandEffects
  import opened Sdb

  /** The child has a trap at every address in the table, whose entry has the native byte, and the native byte elsewhere. */
  lemma PatchesInPlace(d: Debugger)
    requires d.Valid() && !d.quit && d.Child().Alive?
    ensures d.tracee.mem.Keys == d.native.Keys
    ensures forall bp | bp in d.bpVec :: bp.addr in d.native && d.tracee.mem[bp.addr] == INT3 && bp.orig == d.native[bp.addr]
    ensures forall x | x in d.native && x !in Addrs(d.bpVec) :: d.tracee.mem[x] == d.native[x]
    ensures forall i, j :: 0 <= i < j < |d.bpVec| ==> d.bpVec[i].addr != d.bpVec[j].addr
  {
    InvMeans(d.Abs());
    forall bp | bp in d.bpVec ensures bp.addr in AddrSet(Addrs(d.bpVec)) {
      var i :| 0 <= i < |d.bpVec| && d.bpVec[i] == bp;
      assert Addrs(d.bpVec)[i] == bp.addr;
    }
    forall i, j | 0 <= i < j < |d.bpVec| ensures d.bpVec[i].addr != d.bpVec[j].addr {
      assert Addrs(d.bpVec)[i] != Addrs(d.bpVec)[j];
    }
  }

  /** A dump shows consecutive words of the child's memory, traps included, and 0xff for bytes of a word that cannot be read. */
  lemma DumpShowsMemory(d: Debugger, start: U64, shown: seq<seq<Byte>>, k: nat, a: U64)
    requires d.Valid() && !d.quit && Dumped(d.Abs(), start, shown)
    requires k < |shown| && a == (start + 8 * k) % TWO_TO_THE_64
    ensures |shown[k]| == 8
    ensures d.Child().Alive? && Accessible(d.tracee.mem, a) ==> forall j :: 0 <= j < 8 ==> shown[k][j] == d.tracee.mem[a + j]
    ensures !(d.Child().Alive? && Accessible(d.tracee.mem, a)) ==> forall j :: 0 <= j < 8 ==> shown[k][j] == 0xff
  {
    assert Wrap(start + 8 * k) == a;
    if d.Child().Alive? {
      CoversMeans(d.tracee.mem, d.native, d.bpVec);
    }
  }

  /** Deleting every breakpoint, in any order, gives the child's memory back byte for byte. */
  method DeleteEverything(d: Debugger, idxs: seq<int>)
    requires d.Valid() && !d.quit && d.Child().Alive? && ValidIndexes(idxs, |d.bpVec|)
    modifies d, d.tracee
    ensures d.Valid() && !d.quit && d.bpVec == [] && d.bpRestore.addr == 0 && d.Child().Alive?
    ensures d.tracee.mem == old(d.native) && d.tracee.regs == old(d.tracee.regs)
  {
    DeleteAll(d.env, d.Abs(), idxs);
    d.Execute(Deletes(idxs));
  }

  /** One `cont` more than the trace `t` of the program has visits and signals: its visits are what is reported. */
  method ContinueToExit(d: Debugger, count: nat, ghost t: Trace, ghost n: nat)
    requires d.Valid() && !d.quit && d.Child().Alive? && d.Child().m.Rip() != d.bpRestore.addr && BpsAreStarts(d.Abs())
    requires RunsToExit(d.env.cpu, AddrSet(Addrs(d.bpVec)), d.bpRestore.addr, d.Child().m, n)
    requires t == TraceOf(d.env.cpu, AddrSet(Addrs(d.bpVec)), d.Child().m, n)
    requires count == |t.visits| + t.signals + 1
    modifies d, d.tracee
    ensures d.Valid() && d.hits == old(d.hits) + t.visits
    ensures d.quit <==> t.last.Rip() in old(Addrs(d.bpVec))
    ensures !d.quit ==> d.state.NoLoad? && d.bpVec == []
  {
    hide Inv, Local, RunsToExit, TraceOf, Conts, AllTame, ExecAll, BpsAreStarts;
    HitsAreVisits(d.env, d.Abs(), d.Child().m, n);
    d.Execute(Conts(count));
  }

  /** A clean session: the child is an undebugged machine after native steps and the session's edits, with the traps on top. */
  method RunCleanly(d: Debugger, cmds: seq<Command>)
    requires d.Valid() && BpsAreStarts(d.Abs()) && CleanSession(d.env, d.Abs(), cmds)
    modifies d, d.tracee
    ensures d.Valid() && !d.quit && d.Child().Alive?
    ensures Reaches(d.env.cpu, old(d.Child().m), Machine(d.tracee.regs, d.native, d.tracee.world), EditsOf(cmds))
    ensures d.tracee.mem == Overlay(d.native, AddrSet(Addrs(d.bpVec)))
  {
    SessionTransparent(d.env, d.Abs(), cmds);
    d.Execute(cmds);
  }

  /** A clean session up to the command that loses the child: the undebugged machine, given the same edits, exits too. */
  method RunCleanlyToExit(d: Debugger, cmds: seq<Command>, last: Command)
    requires d.Valid() && BpsAreStarts(d.Abs()) && CleanSession(d.env, d.Abs(), cmds)
    requires var t := ExecAll(d.env, d.Abs(), cmds);
             t.process.Alive? && Tame(d.env, t, last) && Clean(d.env, t, last) && !Exec(d.env, t, last).process.Alive?
    modifies d, d.tracee
    ensures d.Valid() && !d.Child().Alive?
    ensures Exits(d.env.cpu, old(d.Child().m), EditsOf(cmds))
  {
    hide Exec, Inv, Local, Clean, Tame, Exits, Reaches;
    SessionTransparent(d.env, d.Abs(), cmds);
    SessionExits(d.env, d.Abs(), cmds, last);
    d.Execute(cmds);
    d.Dispatch(last);
  }

  /**
    One `cont`: if the native run first ends at a breakpoint that starts a cached instruction,
    the child has exactly the registers of that moment, and its memory but for the traps; if
    it ends by exit, nothing is left of the process.
   */
  method ContinueOnce(d: Debugger, ghost start: Machine, ghost slot: U64, ghost h: Halt, ghost k: nat)
    requires d.Valid() && !d.quit && d.Child().Alive? && ContTame(d.env.cpu, d.Abs()) && h != Busy
    requires RunsFrom(d.env.cpu, d.Abs(), start, slot) && FirstEnd(d.env.cpu, AddrSet(Addrs(d.bpVec)), start, h, k)
    modifies d, d.tracee
    ensures d.Valid() && !d.quit
    ensures h.AtBreak? && IsStart(old(d.origInstructions), h.m.Rip()) ==>
              && d.Child().Alive? && d.tracee.regs == h.m.regs && d.tracee.world == h.m.world
              && Addrs(d.bpVec) == old(Addrs(d.bpVec)) && d.tracee.mem == Overlay(h.m.mem, AddrSet(Addrs(d.bpVec)))
              && d.bpRestore.addr == h.m.Rip() && (h.m.Rip() != 0 ==> d.bpRestore in d.bpVec)
              && d.hits == old(d.hits) + [h.m.Rip()]
    ensures h.Exited? ==> d.state.NoLoad? && d.bpVec == [] && d.hits == old(d.hits)
  {
    hide FirstEnd, RunsFrom, ContTame, Inv, Local;
    InvMeans(d.Abs());
    ContEffect(d.env, d.Abs(), start, slot, h, k);
    d.Dispatch(Cont);
  }
}
