/**
  The debugger itself: every command of the command loop, with the patched child
  process it drives, proved to do to the unpatched program what NativeSession says.
 */
module Sdb {
  import opened Integers
  import opened Options
  import opened Memory
  import opened Processor
  import opened Disassembly
  import opened NativeSession
  import opened Patches
  import opened Tracing

  /**
    The ptrace requests of the step over `bp`, in native terms: the child is left as
    the patched image of `StepOver`, or one of the two pokes fails because the address
    is not mapped or the child is gone.
   */
  method StepPast(child: Tracee, bp: Breakpoint, ghost m: Machine, ghost bps: set<U64>) returns (ok: bool)
    requires child.alive && child.regs == m.regs && child.world == m.world && child.mem == Overlay(m.mem, bps) && Local(child.cpu)
    requires Accessible(m.mem, bp.addr) ==>
               bp.addr in bps && m.Rip() == bp.addr && bp.orig == m.mem[bp.addr] && StepOverTame(child.cpu, m, bps, bp.addr)
    modifies child
    ensures !Accessible(m.mem, bp.addr) ==> !ok && unchanged(child)
    ensures Accessible(m.mem, bp.addr) ==>
              match StepOver(child.cpu, m, bp.addr)
              case Ran(m') =>
                && ok && child.alive && child.regs == m'.regs && child.world == m'.world
                && child.mem == Overlay(m'.mem, bps)
              case _ => !ok && !child.alive
  {
    hide Overlay, PeekWord, PokeWord, WithLowByte, StepOver, Step, StepOverTame, Local;
    var code, peeked := child.Peek(bp.addr);
    if peeked {
      PatchOneByte(child.mem, bp.addr, bp.orig);
      RemovePatch(m.mem, bps, bp.addr);
      StepOverPatched(child.cpu, m, bps, bp.addr);
    }
    ok := child.Poke(bp.addr, WithLowByte(code, bp.orig));
    if !ok {
      return;
    }
    var status, stepped := child.SingleStep();
    ok := child.Poke(bp.addr, WithLowByte(code, INT3));
  }

  lemma OneMoreByte(b: seq<Byte>, at: nat, bytes: seq<Byte>, j: nat)
    requires |bytes| == 8 && at + 8 <= |b| && j < 8
    ensures (b[..at] + bytes[..j] + b[at + j..])[at + j := bytes[j]] == b[..at] + bytes[..j + 1] + b[at + j + 1..]
  {
  }

  /** `memcpy(&buf[at], bytes, 8)` */
  method CopyWord(buf: array<Byte>, at: nat, bytes: seq<Byte>)
    requires |bytes| == 8 && at + 8 <= buf.Length
    modifies buf
    ensures buf[..] == Splice(old(buf[..]), at, bytes)
  {
    ghost var was := buf[..];
    for j := 0 to 8
      invariant buf[..] == was[..at] + bytes[..j] + was[at + j..]
    {
      OneMoreByte(was, at, bytes, j);
      buf[at + j] := bytes[j];
    }
    assert bytes[..8] == bytes;
  }

  class Debugger {
    const env: Env
    var state: Life
    var entry: U64
    var size: U64
    var path: string
    var tracee: Tracee?
    var bpVec: seq<Breakpoint>
    var bpRestore: Breakpoint
    var origInstructions: seq<Insn>
    var hits: seq<U64>
    /** Set by `errquit`, after which no command runs. */
    var quit: bool
    /** The child's memory with every patch removed. */
    ghost var native: Mem

    ghost function Child(): Process
      reads this, tracee
    {
      if !state.Running? then Absent
      else if tracee != null && tracee.alive then Alive(Machine(tracee.regs, native, tracee.world))
      else Dead
    }

    /** The session this debugger is in, told without patches. */
    ghost function Abs(): Session
      reads this, tracee
    {
      Session(state, entry, size, path, Child(), Addrs(bpVec), bpRestore.addr, origInstructions, hits, quit)
    }

    ghost predicate Valid()
      reads this, tracee
    {
      && Local(env.cpu)
      && Inv(Abs())
      && (state.Running? ==> tracee != null && tracee.cpu == env.cpu)
      && (state.Running? && bpRestore.addr != 0 ==> bpRestore in bpVec)
      && (state.Running? && tracee.alive && !quit ==> Covers(tracee.mem, native, bpVec))
    }

    constructor (env: Env)
      requires Local(env.cpu)
      ensures Valid() && this.env == env
      ensures Abs() == Session(NoLoad, 0, 0, "", Absent, [], 0, [], [], false)
    {
      this.env := env;
      state, entry, size, path, tracee := NoLoad, 0, 0, "", null;
      bpVec, bpRestore, origInstructions, hits, quit := [], NO_BREAKPOINT, [], [], false;
      native := map[];
    }

    /** The scan of `set_bp` for a duplicate. */
    method IsBreakpoint(addr: U64) returns (known: bool)
      ensures known <==> addr in Addrs(bpVec)
    {
      var i := 0;
      while i < |bpVec|
        invariant 0 <= i <= |bpVec|
        invariant forall k :: 0 <= k < i ==> bpVec[k].addr != addr
      {
        if bpVec[i].addr == addr {
          assert Addrs(bpVec)[i] == addr;
          return true;
        }
        i := i + 1;
      }
      return false;
    }

    /** `set_bp` */
    method SetBp(addr: U64)
      requires Valid() && !quit
      modifies this, tracee
      ensures Valid() && tracee == old(tracee)
      ensures Abs() == BreakSpec(old(Abs()), addr)
      ensures !old(state).Running? || addr in old(Addrs(bpVec)) ==> unchanged(this) && (tracee != null ==> unchanged(tracee))
      ensures old(state).Running? && addr !in old(Addrs(bpVec)) ==>
                && |bpVec| == |old(bpVec)| + 1 && bpVec[..|old(bpVec)|] == old(bpVec) && bpVec[|old(bpVec)|].addr == addr
                && tracee.regs == old(tracee.regs) && tracee.world == old(tracee.world)
                && (quit <==> !(old(tracee.alive) && Accessible(old(tracee.mem), addr)))
                && (!quit ==> bpVec[|old(bpVec)|].orig == old(tracee.mem)[addr] && tracee.mem == old(tracee.mem)[addr := INT3])
    {
      hide Inv, Covers, Local, Overlay, Accessible, PeekWord, PokeWord, WithLowByte, ByteOf;
      if !state.Running? {
        return;
      }
      var code, peeked := tracee.Peek(addr);
      var known := IsBreakpoint(addr);
      if known {
        return;
      }
      InvMeans(Abs());
      BreakKeepsInv(Abs(), addr);
      if tracee.alive {
        CoversMeans(tracee.mem, native, bpVec);
      }
      if peeked {
        AccessibleHere(tracee.mem, addr);
        PatchOneByte(tracee.mem, addr, INT3);
        BytesOfPeek(tracee.mem, addr);
        InsertCovers(tracee.mem, native, bpVec, addr);
      }
      AddrsAppend(bpVec, Breakpoint(addr, ByteOf(code, 0)));
      bpVec := bpVec + [Breakpoint(addr, ByteOf(code, 0))];
      var ok := tracee.Poke(addr, WithLowByte(code, INT3));
      if !ok {
        quit := true;
      }
      assert Abs() == BreakSpec(old(Abs()), addr);
    }

    /** `del_bp` */
    method DelBp(idx: int)
      requires Valid() && !quit
      modifies this, tracee
      ensures Valid() && tracee == old(tracee)
      ensures Abs() == DeleteSpec(old(Abs()), idx)
      ensures !(0 <= idx < |old(bpVec)|) ==> unchanged(this) && (tracee != null ==> unchanged(tracee))
      ensures 0 <= idx < |old(bpVec)| ==>
                && (quit <==> !old(tracee.alive))
                && bpRestore == (if old(bpRestore).addr == old(bpVec)[idx].addr then NO_BREAKPOINT else old(bpRestore))
                && tracee.regs == old(tracee.regs) && tracee.world == old(tracee.world)
                && (quit ==> bpVec == old(bpVec))
                && (!quit ==>
                      && ErasedAt(old(bpVec), bpVec, idx)
                      && tracee.mem == old(tracee.mem)[old(bpVec)[idx].addr := old(bpVec)[idx].orig])
    {
      hide Inv, Covers, Local, Overlay, Accessible, ErasedAt;
      InvMeans(Abs());
      QuittingKeepsInv(Abs());
      if 0 <= idx < |bpVec| {
        var bp := bpVec[idx];
        assert Addrs(bpVec)[idx] == bp.addr;
        if tracee.alive {
          CoversMeans(tracee.mem, native, bpVec);
        }
        DeleteKeepsInv(Abs(), idx);
        AddrsErase(bpVec, idx);
        ErasedOnly(bpVec, idx);
        EraseIs(bpVec, idx);
        if bpRestore.addr == bp.addr {
          bpRestore := NO_BREAKPOINT;
        }
        var ok := tracee.PatchByte(bp.addr, bp.orig);
        if !ok {
          quit := true;
          return;
        }
        EraseCovers(old(tracee.mem), native, bpVec, idx);
        bpVec := bpVec[..idx] + bpVec[idx+1..];
        assert Abs() == DeleteSpec(old(Abs()), idx);
      }
    }

    /** The part of `cont` that runs when rip is at `bpRestore`: restore, single-step, re-patch. */
    method StepOverBreakpoint()
      requires Valid() && !quit && Child().Alive? && tracee.regs[RIP] == bpRestore.addr
      requires bpRestore.addr != 0 ==>
                 StepOverTame(env.cpu, Child().m, AddrSet(Addrs(bpVec)), bpRestore.addr)
      modifies this, tracee
      ensures Valid() && tracee == old(tracee)
      ensures var s := old(Abs());
              if s.slot == 0 then Abs() == s.(quit := true)
              else match StepOver(env.cpu, s.process.m, s.slot)
                   case Ran(m) => Abs() == s.(slot := 0, process := Alive(m))
                   case _ => Abs() == s.(process := Dead, quit := true)
    {
      hide Ready, Inv, Covers, Local, Overlay, Accessible, StepOver, StepOverTame;
      InvMeans(Abs());
      QuittingKeepsInv(Abs());
      CoversMeans(tracee.mem, native, bpVec);
      ghost var s, m := Abs(), Child().m;
      if s.slot != 0 {
        StepOverKeepsInv(env.cpu, s);
      }
      var ok := StepPast(tracee, bpRestore, m, AddrSet(Addrs(bpVec)));
      if !ok {
        quit := true;
        return;
      }
      bpRestore := NO_BREAKPOINT;
      StepOverKeepsReady(env.cpu, m, AddrSet(Addrs(bpVec)), s.slot);
      SavedBytesStay(native, StepOver(env.cpu, m, s.slot).m.mem, bpVec);
      native := StepOver(env.cpu, m, s.slot).m.mem;
      assert Abs() == s.(slot := 0, process := Alive(StepOver(env.cpu, m, s.slot).m));
    }

    /** The scan after a stop: a breakpoint just before rip is reported if it starts a cached instruction. */
    method ReportBreakpoint()
      requires Valid() && !quit && state.Running? && tracee.alive
      modifies this, tracee
      ensures Valid() && tracee == old(tracee)
      ensures Abs() == Land(old(Abs()), Stopped(old(Child().m)))
    {
      hide Ready, Inv, Covers, Local, Overlay;
      InvMeans(Abs());
      LandKeepsInv(Abs(), Stopped(Child().m));
      var regs, ok := tracee.GetRegs();
      var prev := Wrap(regs[RIP] as int - 1);
      var i := 0;
      while i < |bpVec|
        invariant 0 <= i <= |bpVec|
        invariant forall k :: 0 <= k < i ==> bpVec[k].addr != prev || !IsStart(origInstructions, prev)
      {
        if bpVec[i].addr == prev {
          var j := 0;
          while j < |origInstructions|
            invariant 0 <= j <= |origInstructions|
            invariant forall k :: 0 <= k < j ==> origInstructions[k].addr != prev
          {
            if origInstructions[j].addr == prev {
              assert Addrs(bpVec)[i] == prev;
              bpRestore := bpVec[i];
              hits := hits + [prev];
              ok := tracee.SetRegs(regs[RIP := prev]);
              return;
            }
            j := j + 1;
          }
        }
        i := i + 1;
      }
    }

    /** PTRACE_CONT, in native terms. */
    method WaitForHalt(ghost h: Halt) returns (status: WaitStatus)
      requires Valid() && !quit && Child().Alive?
      requires RunTame(env.cpu, Child().m, AddrSet(Addrs(bpVec)))
      requires h == Outcome(env.cpu, AddrSet(Addrs(bpVec)), Child().m)
      modifies tracee, this`native
      ensures status.WifExited? <==> h.Exited?
      ensures h.Exited? || h.AtBreak? || h.Stopped?
      ensures !h.Exited? ==> Valid() && Abs() == old(Abs()).(process := Alive(TrappedAt(h)))
    {
      hide Ready, Inv, Covers, Local, Overlay, Outcome;
      InvMeans(Abs());
      CoversMeans(tracee.mem, native, bpVec);
      ghost var s, m, bps := Abs(), Child().m, AddrSet(Addrs(bpVec));
      PatchedOutcome(env.cpu, bps, m);
      OutcomeKeepsSavedBytes(env.cpu, bps, m);
      status := tracee.Continue();
      if status.WifStopped? {
        LandFromTrap(s, h);
        SavedBytesStay(native, h.m.mem, bpVec);
        native := h.m.mem;
        assert Abs() == s.(process := Alive(TrappedAt(h)));
      }
    }

    /** `info = {}` */
    method ForgetProcess()
      requires Local(env.cpu)
      modifies this
      ensures Valid() && tracee == null
      ensures Abs() == Session(NoLoad, 0, 0, "", Absent, [], old(bpRestore.addr), old(origInstructions), old(hits), old(quit))
    {
      state, entry, size, path, tracee, bpVec := NoLoad, 0, 0, "", null, [];
    }

    /** The part of `cont` from PTRACE_CONT on. */
    method Resume()
      requires Valid() && !quit && Child().Alive?
      requires RunTame(env.cpu, Child().m, AddrSet(Addrs(bpVec)))
      modifies this, tracee
      ensures Valid()
      ensures Abs() == Land(old(Abs()), Outcome(env.cpu, AddrSet(old(Addrs(bpVec))), old(Child().m)))
      ensures tracee == null || tracee == old(tracee) || fresh(tracee)
    {
      hide Ready, Inv, Covers, Local;
      InvMeans(Abs());
      ghost var s, h := Abs(), Outcome(env.cpu, AddrSet(Addrs(bpVec)), Child().m);
      OutcomeKeepsSavedBytes(env.cpu, AddrSet(Addrs(bpVec)), Child().m);
      var status := WaitForHalt(h);
      if status.WifStopped? {
        LandFromTrap(s, h);
        ReportBreakpoint();
      } else {
        ForgetProcess();
      }
    }

    /** `cont` */
    method Cont()
      requires Valid() && !quit && ContTame(env.cpu, Abs())
      modifies this, tracee
      ensures Valid()
      ensures Abs() == ContSpec(env.cpu, old(Abs()))
      ensures tracee == null || tracee == old(tracee) || fresh(tracee)
    {
      hide Inv, Covers, Local, Overlay, Outcome, StepOver, StepOverTame;
      InvMeans(Abs());
      QuittingKeepsInv(Abs());
      if !state.Running? {
        return;
      }
      var regs, ok := tracee.GetRegs();
      if !ok {
        quit := true;
        return;
      }
      if regs[RIP] == bpRestore.addr {
        StepOverBreakpoint();
        if quit {
          return;
        }
      }
      Resume();
    }

    /** `si` */
    method Si()
      requires Valid() && !quit && SiTame(env.cpu, Abs())
      modifies this, tracee
      ensures Valid() && tracee == old(tracee)
      ensures Abs() == SiSpec(env.cpu, old(Abs()))
    {
      hide Ready, Inv, Covers, Local, Overlay, Step;
      InvMeans(Abs());
      QuittingKeepsInv(Abs());
      SiKeepsInv(env.cpu, Abs());
      if Child().Alive? {
        CoversMeans(tracee.mem, native, bpVec);
      }
      if !state.Running? {
        return;
      }
      ghost var s, bps := Abs(), AddrSet(Addrs(bpVec));
      var status, ok := tracee.SingleStep();
      if !ok {
        quit := true;
        return;
      }
      if s.process.m.Rip() in bps {
        TrapAtBreakpoint(env.cpu, s.process.m, bps);
      } else {
        PatchedStep(env.cpu, s.process.m, bps);
        var e := Step(env.cpu, s.process.m);
        if !e.Gone? {
          SavedBytesStay(native, e.m.mem, bpVec);
          native := e.m.mem;
        }
      }
      assert Abs() == SiSpec(env.cpu, s);
    }

    /** `set` */
    method SetReg(reg: string, val: int)
      requires Valid() && !quit
      modifies this, tracee
      ensures Valid() && tracee == old(tracee)
      ensures Abs() == SetSpec(old(Abs()), reg, val)
    {
      hide Inv, Covers, Local;
      SetKeepsInv(Abs(), reg, val);
      if !state.Running? {
        return;
      }
      var regs, ok := tracee.GetRegs();
      if !ok {
        quit := true;
        return;
      }
      if reg !in RegOffsets() {
        return;
      }
      ok := tracee.SetRegs(regs[RegOffsets()[reg] := Wrap(val)]);
    }

    /** `print_reg` */
    method PrintReg(reg: string) returns (val: Option<U64>)
      requires Valid() && !quit
      modifies this
      ensures Valid() && tracee == old(tracee) && Abs() == ReadRegsSpec(old(Abs()))
      ensures val == if old(Child()).Alive? then RegValue(old(Child()).m.regs, reg) else None
    {
      hide Inv, Covers, Local;
      QuittingKeepsInv(Abs());
      val := None;
      if !state.Running? {
        return;
      }
      var regs, ok := tracee.GetRegs();
      if !ok {
        quit := true;
        return;
      }
      if reg in RegOffsets() {
        val := Some(regs[RegOffsets()[reg]]);
      }
    }

    /** `print_all_regs` */
    method PrintAllRegs() returns (lines: seq<(string, U64)>)
      requires Valid() && !quit
      modifies this
      ensures Valid() && tracee == old(tracee) && Abs() == ReadRegsSpec(old(Abs()))
      ensures lines == if old(Child()).Alive? then AllRegs(old(Child()).m.regs) else []
    {
      hide Inv, Covers, Local;
      QuittingKeepsInv(Abs());
      lines := [];
      if !state.Running? {
        return;
      }
      var ptr, ok := tracee.GetRegs();
      if !ok {
        quit := true;
        return;
      }
      lines := lines + [("rax", ptr[10]), ("rbx", ptr[4]), ("rcx", ptr[11]), ("rdx", ptr[12])];
      lines := lines + [("r8", ptr[9]), ("r9", ptr[8]), ("r10", ptr[7]), ("r11", ptr[6])];
      lines := lines + [("r12", ptr[3]), ("r13", ptr[2]), ("r14", ptr[1]), ("r15", ptr[0])];
      lines := lines + [("rdi", ptr[14]), ("rsi", ptr[13]), ("rbp", ptr[4]), ("rsp", ptr[19])];
      lines := lines + [("rip", ptr[16]), ("flags", ptr[18])];
    }

    /** The eight bytes `dump` prints for the word at `addr`. */
    method DumpWord(addr: U64) returns (shown: seq<Byte>)
      requires Valid() && !quit
      ensures shown == ShownWord(Abs(), addr)
      ensures |shown| == 8
      ensures Child().Alive? && Accessible(tracee.mem, addr) ==> forall j :: 0 <= j < 8 ==> shown[j] == tracee.mem[addr + j]
      ensures !(Child().Alive? && Accessible(tracee.mem, addr)) ==> forall j :: 0 <= j < 8 ==> shown[j] == 0xff
    {
      hide Inv, Covers, Local, Overlay, Accessible, WordBytes;
      if Child().Alive? {
        CoversMeans(tracee.mem, native, bpVec);
      }
      shown := seq(8, _ => 0xff);
      if state.Running? {
        var bytes, ok := tracee.PeekBytes(addr);
        shown := bytes;
      }
    }

    /** `dump`: the words shown, in five lines of two. */
    method DumpWords(start: U64) returns (shown: seq<seq<Byte>>)
      requires Valid() && !quit
      ensures |shown| == DUMP_WORDS
      ensures Dumped(Abs(), start, shown)
    {
      hide Inv, Covers, Local;
      ghost var s := Abs();
      shown := [];
      var addr := start;
      for line := 0 to 5
        invariant |shown| == 2 * line && addr == Wrap(start + 8 * |shown|) && Dumped(s, start, shown)
      {
        for w := 0 to 2
          invariant |shown| == 2 * line + w && addr == Wrap(start + 8 * |shown|) && Dumped(s, start, shown)
        {
          var bytes := DumpWord(addr);
          DumpedOneMore(s, start, shown);
          shown := shown + [bytes];
          addr := Wrap(addr as int + 8);
        }
      }
    }

    /** The fetch loop of `disassemble`: eight words, up to the first that cannot be peeked. */
    method FetchText(addr: U64) returns (buf: array<Byte>)
      requires tracee != null && tracee.alive
      ensures fresh(buf) && buf[..] == Fetched(tracee.mem, addr)
    {
      hide Wrap, Readable, Filled, Fetched, Splice, WordBytes, Accessible, PeekWord;
      buf := new Byte[BUFFER_SIZE](_ => 0);
      var ptr: U64 := addr;
      ghost var k := 0;
      WrapOnce(addr);
      FilledNothing(tracee.mem, addr);
      assert buf[..] == seq(BUFFER_SIZE, _ => 0);
      while ptr < Wrap(addr as int + BUFFER_SIZE)
        invariant Fetchable(addr) ==> ptr == addr + 8 * k && 0 <= k <= 8
        invariant Fetchable(addr) ==> Readable(tracee.mem, addr, k) && buf[..] == Filled(tracee.mem, addr, k)
        invariant !Fetchable(addr) ==> ptr == addr && buf[..] == Fetched(tracee.mem, addr)
        decreases BUFFER_SIZE - 8 * k
      {
        var bytes, ok := tracee.PeekBytes(ptr);
        if !ok {
          break;
        }
        FilledMore(tracee.mem, addr, k);
        WrapId(ptr as int + 8);
        CopyWord(buf, ptr - addr, bytes);
        ptr, k := Wrap(ptr as int + 8), k + 1;
      }
      if Fetchable(addr) {
        FilledIsFetched(tracee.mem, addr, k);
      }
    }

    /** `disassemble`: append the instruction at `addr` to the cache, or return -1. */
    method Disassemble(addr: U64) returns (dis: int)
      requires tracee != null && tracee.alive
      modifies this`origInstructions
      ensures origInstructions == old(origInstructions) + DecodeAt(env.decode, tracee.mem, addr)
      ensures dis == if DecodeAt(env.decode, tracee.mem, addr) == [] then -1 else 0
    {
      var buf := FetchText(addr);
      match env.decode(buf[..BUFFER_SIZE - 1], addr)
      case Undecodable =>
        assert origInstructions + [] == origInstructions;
        return -1;
      case Decoded(size, opr, opnd) =>
        if !(1 <= size <= MAX_INSN) {
          assert origInstructions + [] == origInstructions;
          return -1;
        }
        assert buf[..BUFFER_SIZE - 1] == Fetched(tracee.mem, addr)[..BUFFER_SIZE - 1];
        assert buf[..size] == Fetched(tracee.mem, addr)[..size];
        origInstructions := origInstructions + [Insn(addr, buf[..size], size, opr, opnd)];
        return 0;
    }

    /** `get_orig_code`: sweep the text section of the program just started. */
    method GetOrigCode()
      requires tracee != null && tracee.alive && TextEnd(entry, size) <= SWEEP_TOP
      modifies this`origInstructions
      ensures origInstructions == old(origInstructions) + Sweep(env.decode, tracee.mem, entry, TextEnd(entry, size))
    {
      hide DecodeAt, Sweep;
      var addr: U64 := entry;
      ghost var end: U64 := TextEnd(entry, size);
      ghost var all := origInstructions + Sweep(env.decode, tracee.mem, entry, end);
      while addr < Wrap(entry as int + size)
        invariant all == origInstructions + Sweep(env.decode, tracee.mem, addr, end)
        decreases end - addr
      {
        SweepNext(env.decode, tracee.mem, addr, end);
        var dis := Disassemble(addr);
        if dis == -1 {
          return;
        }
        addr := Wrap(addr as int + origInstructions[|origInstructions| - 1].size);
      }
      SweepNothing(env.decode, tracee.mem, addr, end);
    }

    /** `disasm`: the instructions printed. */
    method DisasmFrom(addr: U64) returns (printed: seq<Insn>)
      requires Valid() && !quit
      ensures !state.Running? || !IsStart(origInstructions, addr) ==> printed == []
      ensures state.Running? && IsStart(origInstructions, addr) ==> PrintedFrom(origInstructions, addr, printed)
    {
      printed := [];
      if !state.Running? {
        return;
      }
      var idx := -1;
      for i := 0 to |origInstructions|
        invariant idx == -1
        invariant forall j :: 0 <= j < i ==> origInstructions[j].addr != addr
      {
        if origInstructions[i].addr == addr {
          idx := i;
          break;
        }
      }
      if idx == -1 {
        return;
      }
      var i := idx;
      while i < idx + 10
        invariant idx <= i <= idx + 10 && i <= |origInstructions|
        invariant printed == origInstructions[idx..i]
      {
        if i >= |origInstructions| {
          break;
        }
        printed := printed + [origInstructions[i]];
        i := i + 1;
      }
      assert FirstAt(origInstructions, addr, idx);
    }

    /** `load`; `entry` and `size` are what the ELF header says. */
    method Load(file: string, entry: U64, size: U64)
      requires Valid() && !quit && TextEnd(entry, size) <= SWEEP_TOP
      modifies this
      ensures Valid() && Abs() == LoadSpec(old(Abs()), file, entry, size)
      ensures tracee == null || tracee == old(tracee) || fresh(tracee)
    {
      if !state.NoLoad? {
        return;
      }
      this.entry, this.size, tracee, bpVec := entry, size, null, [];
      state := Loaded;
      path := file;
    }

    /** `start`; `image` is the process that fork and exec make. */
    method Start(image: Machine)
      requires Valid() && !quit && StartTame(Abs(), image)
      modifies this
      ensures Valid() && Abs() == StartSpec(env.decode, old(Abs()), image)
      ensures tracee == null || tracee == old(tracee) || fresh(tracee)
    {
      hide Inv, Local, Covers;
      InvMeans(Abs());
      StartKeepsInv(env.decode, Abs(), image);
      if !state.Loaded? {
        return;
      }
      tracee := new Tracee(env.cpu, image);
      native := image.mem;
      state := Running;
      GetOrigCode();
      CoversNothing(native);
    }

    /** `run` */
    method Run(image: Machine)
      requires Valid() && !quit && Tame(env, Abs(), Command.Run(image))
      modifies this, tracee
      ensures Valid() && Abs() == Exec(env, old(Abs()), Command.Run(image))
      ensures tracee == null || tracee == old(tracee) || fresh(tracee)
    {
      hide Inv, Covers, Local;
      if state.Running? {
        Cont();
      } else if state.Loaded? {
        Start(image);
        Cont();
      }
    }

    /** One round of the command loop. */
    method Dispatch(c: Command)
      requires Valid() && !quit && Tame(env, Abs(), c)
      modifies this, tracee
      ensures Valid() && Abs() == Exec(env, old(Abs()), c)
      ensures tracee == null || tracee == old(tracee) || fresh(tracee)
    {
      hide Inv, Covers, Local;
      match c
      case Break(a) => SetBp(a);
      case Cont => Cont();
      case Delete(idx) => DelBp(idx);
      case Disasm(a) => var printed := DisasmFrom(a);
      case Dump(a) => var shown := DumpWords(a);
      case Get(reg) => var val := PrintReg(reg);
      case GetRegs => var lines := PrintAllRegs();
      case List =>
      case Load(file, entry, size) => Load(file, entry, size);
      case Run(image) => Run(image);
      case Set(reg, val) => SetReg(reg, val);
      case Si => Si();
      case Start(image) => Start(image);
    }

    /** The command loop. */
    method Execute(cmds: seq<Command>)
      requires Valid() && AllTame(env, Abs(), cmds)
      modifies this, tracee
      ensures Valid() && Abs() == ExecAll(env, old(Abs()), cmds)
      ensures Child().Alive? && !quit ==> tracee.mem == Overlay(Child().m.mem, AddrSet(Abs().bps))
      ensures tracee == null || tracee == old(tracee) || fresh(tracee)
    {
      hide Inv, Local;
      ghost var s := Abs();
      var i := 0;
      while i < |cmds| && !quit
        invariant 0 <= i <= |cmds| && Valid()
        invariant tracee == null || tracee == old(tracee) || fresh(tracee)
        invariant AllTame(env, Abs(), cmds[i..]) && ExecAll(env, Abs(), cmds[i..]) == ExecAll(env, s, cmds)
      {
        assert cmds[i..][0] == cmds[i] && cmds[i..][1..] == cmds[i+1..];
        Dispatch(cmds[i]);
        i := i + 1;
      }
      if quit {
        QuitIsFinal(env, Abs(), cmds[i..]);
      }
    }
  }
}
