/**
  What one process lifetime keeps: states, the step-over slot, the disassembly cache,
  and what the inspecting commands show.
 */
module Lifetime {
  import opened Integers
  import opened Options
  import opened Memory
  import opened Processor
  import opened Disassembly
  import opened NativeSession

  /** The state moves only from not loaded to loaded to running and back to not loaded, each by its own commands. */
  lemma LifeMoves(env: Env, s: Session, c: Command)
    ensures var s' := Exec(env, s, c);
            || s'.life == s.life
            || (s.life.NoLoad? && s'.life.Loaded? && c.Load?)
            || (s.life.Loaded? && s'.life.Running? && (c.Start? || c.Run?))
            || (s.life.Running? && s'.life.NoLoad? && (c.Cont? || c.Run?))
            || (s.life.Loaded? && s'.life.NoLoad? && c.Run?)
  {
  }

  lemma ExecTwo(env: Env, s: Session, c1: Command, c2: Command)
    ensures ExecAll(env, s, [c1, c2]) == Exec(env, Exec(env, s, c1), c2)
  {
    var s1 := Exec(env, s, c1);
    assert [c1, c2][1..] == [c2] && [c2][1..] == [];
    assert ExecAll(env, s1, [c2]) == ExecAll(env, Exec(env, s1, c2), []);
  }

  lemma {:induction false} ExecAllAppend(env: Env, s: Session, cmds1: seq<Command>, cmds2: seq<Command>)
    ensures ExecAll(env, s, cmds1 + cmds2) == ExecAll(env, ExecAll(env, s, cmds1), cmds2)
    decreases |cmds1|
  {
    if cmds1 == [] {
      assert cmds1 + cmds2 == cmds2;
    } else {
      assert (cmds1 + cmds2)[1..] == cmds1[1..] + cmds2;
      ExecAllAppend(env, Exec(env, s, cmds1[0]), cmds1[1..], cmds2);
    }
  }

  /** `run` is `cont` while running, and `start` followed by `cont` once loaded. */
  lemma RunIsStartThenCont(env: Env, s: Session, image: Machine)
    requires !s.quit
    ensures s.life.Running? ==> Exec(env, s, Run(image)) == Exec(env, s, Cont)
    ensures s.life.Loaded? ==> Exec(env, s, Run(image)) == ExecAll(env, s, [Start(image), Cont])
    ensures s.life.NoLoad? ==> Exec(env, s, Run(image)) == s
  {
    ExecTwo(env, s, Start(image), Cont);
  }

  // ----- the slot across two lifetimes -----

  /** A new process starts coherent exactly when the last one left the slot empty. */
  lemma StartNeedsEmptySlot(decode: Decoder, s: Session, image: Machine)
    requires Inv(s) && s.life.Loaded? && !s.quit && 0 !in image.mem
    ensures Inv(StartSpec(decode, s, image)) <==> s.slot == 0
  {
  }

  /** A program that exits leaves the slot empty exactly when it was empty or just stepped over. */
  lemma SlotAfterExit(cpu: Cpu, s: Session)
    requires Inv(s) && s.process.Alive? && ContSpec(cpu, s).life.NoLoad?
    ensures ContSpec(cpu, s).slot == 0 <==> s.slot == 0 || s.slot == s.process.m.Rip()
  {
  }

  // ----- deleting breakpoints -----

  function Deletes(idxs: seq<int>): (r: seq<Command>)
    ensures |r| == |idxs|
  {
    if idxs == [] then [] else [Delete(idxs[0])] + Deletes(idxs[1..])
  }

  /** Each index is valid for the breakpoints left when its turn comes. */
  predicate ValidIndexes(idxs: seq<int>, count: nat) {
    |idxs| == count && forall j :: 0 <= j < |idxs| ==> 0 <= idxs[j] < count - j
  }

  lemma DeleteOne(env: Env, s: Session, idx: int)
    requires Inv(s) && s.process.Alive? && !s.quit && 0 <= idx < |s.bps|
    ensures var s' := Exec(env, s, Delete(idx));
            && Tame(env, s, Delete(idx)) && Inv(s') && !s'.quit && s'.process == s.process
            && |s'.bps| == |s.bps| - 1 && s'.(bps := [], slot := 0) == s.(bps := [], slot := 0)
  {
    DeleteKeepsInv(s, idx);
    hide Inv;
  }

  lemma NoneLeft(s: Session)
    requires Inv(s) && s.bps == [] && s.process.Alive?
    ensures s == s.(bps := [], slot := 0) && Overlay(s.process.m.mem, AddrSet([])) == s.process.m.mem
  {
  }

  /** Deleting every breakpoint, in any order, leaves the session as it was without any, and no patch in memory. */
  lemma {:induction false} DeleteAll(env: Env, s: Session, idxs: seq<int>)
    requires Local(env.cpu) && Inv(s) && s.process.Alive? && !s.quit && ValidIndexes(idxs, |s.bps|)
    ensures ExecAll(env, s, Deletes(idxs)) == s.(bps := [], slot := 0)
    ensures AllTame(env, s, Deletes(idxs))
    ensures Overlay(s.process.m.mem, AddrSet(ExecAll(env, s, Deletes(idxs)).bps)) == s.process.m.mem
    decreases |idxs|
  {
    hide Local, Inv, Exec, Tame, Overlay, AddrSet;
    if idxs == [] {
      NoneLeft(s);
    } else {
      DeleteOne(env, s, idxs[0]);
      assert Deletes(idxs)[1..] == Deletes(idxs[1..]);
      DeleteAll(env, Exec(env, s, Delete(idxs[0])), idxs[1..]);
    }
  }

  // ----- the disassembly cache -----

  ghost predicate RunningThroughout(env: Env, s: Session, cmds: seq<Command>)
    decreases |cmds|
  {
    s.life.Running? && (cmds == [] || RunningThroughout(env, Exec(env, s, cmds[0]), cmds[1..]))
  }

  lemma {:induction false} CacheKept(env: Env, s: Session, cmds: seq<Command>)
    requires RunningThroughout(env, s, cmds)
    ensures ExecAll(env, s, cmds).insns == s.insns
    decreases |cmds|
  {
    if cmds != [] {
      CacheKept(env, Exec(env, s, cmds[0]), cmds[1..]);
    }
  }

  lemma {:induction false} TilesDrop(insns: seq<Insn>, addr: int, lo: nat)
    requires lo < |insns| && Tiles(insns, addr)
    ensures Tiles(insns[lo..], insns[lo].addr)
  {
    if lo > 0 {
      TilesDrop(insns[1..], addr + insns[0].size, lo - 1);
      assert insns[1..][lo - 1..] == insns[lo..];
    } else {
      assert insns[0..] == insns;
    }
  }

  lemma {:induction false} TilesTake(insns: seq<Insn>, addr: int, n: nat)
    requires n <= |insns| && Tiles(insns, addr)
    ensures Tiles(insns[..n], addr)
    decreases n
  {
    if n > 0 {
      TilesTake(insns[1..], addr + insns[0].size, n - 1);
      assert insns[..n][1..] == insns[1..][..n - 1];
    }
  }

  lemma SliceOfSweep(at: InsnAt, insns: seq<Insn>, addr: int, end: int, idx: nat)
    requires idx < |insns| && Tiles(insns, addr) && Decodes(at, insns, addr, end)
    ensures var t := TenFrom(insns, idx);
            0 < |t| <= 10 && Tiles(t, insns[idx].addr) && Decodes(at, t, addr, end)
  {
    TilesDrop(insns, addr, idx);
    if idx + 10 < |insns| {
      TilesTake(insns[idx..], insns[idx].addr, 10);
      assert insns[idx..][..10] == insns[idx..idx + 10];
    }
  }

  lemma PrintedFromSweep(at: InsnAt, entry: U64, end: U64, addr: U64, printed: seq<Insn>)
    requires OneEach(at) && end <= SWEEP_TOP && PrintedFrom(SweepWith(at, entry, end), addr, printed)
    ensures 0 < |printed| <= 10 && Tiles(printed, addr) && Decodes(at, printed, entry, end)
  {
    SweepWithTiles(at, entry, end);
    var insns := SweepWith(at, entry, end);
    var idx: nat :| FirstAt(insns, addr, idx) && printed == TenFrom(insns, idx);
    SliceOfSweep(at, insns, entry, end, idx);
  }

  lemma CacheIsProgram(decode: Decoder, started: Mem, now: Mem, entry: U64, end: U64, addr: U64, printed: seq<Insn>)
    requires end <= SWEEP_TOP && SameText(started, now, entry, end + BUFFER_SIZE)
    requires PrintedFrom(Sweep(decode, started, entry, end), addr, printed)
    ensures 0 < |printed| <= 10 && Tiles(printed, addr) && Decodes(InsnsOf(decode, now), printed, entry, end)
  {
    SweepSameText(decode, started, now, entry, end);
    PrintedFromSweep(InsnsOf(decode, now), entry, end, addr, printed);
  }

  /** A listing is ten consecutive entries, unless the cache ends sooner. */
  lemma ListingIsTen(insns: seq<Insn>, addr: U64, printed: seq<Insn>) returns (idx: nat)
    requires PrintedFrom(insns, addr, printed)
    ensures FirstAt(insns, addr, idx)
    ensures |printed| == if |insns| - idx < 10 then |insns| - idx else 10
    ensures forall j :: 0 <= j < |printed| ==> printed[j] == insns[idx + j]
  {
    idx :| FirstAt(insns, addr, idx) && printed == TenFrom(insns, idx);
  }

  /** What is printed for an address that `older` lacks comes from the entries after it. */
  lemma PrintedFromLater(older: seq<Insn>, insns: seq<Insn>, addr: U64, printed: seq<Insn>)
    requires !IsStart(older, addr) && PrintedFrom(older + insns, addr, printed)
    ensures PrintedFrom(insns, addr, printed)
  {
    var all := older + insns;
    forall i | 0 <= i < |older| ensures all[i].addr != addr {
      assert all[i] == older[i];
    }
    var idx: nat :| FirstAt(all, addr, idx) && printed == TenFrom(all, idx);
    var k := idx - |older|;
    forall j | 0 <= j < k ensures insns[j].addr != addr {
      assert all[|older| + j] == insns[j];
    }
    assert FirstAt(insns, addr, k);
    if idx + 10 < |all| {
      assert all[idx..idx + 10] == insns[k..k + 10];
    } else {
      assert all[idx..] == insns[k..];
    }
  }

  /** What is printed for an address that `older` has begins in `older`. */
  lemma PrintedFromEarlier(older: seq<Insn>, insns: seq<Insn>, addr: U64, printed: seq<Insn>)
    requires IsStart(older, addr) && PrintedFrom(older + insns, addr, printed)
    ensures printed != [] && printed[0] in older
  {
    var all := older + insns;
    var i :| 0 <= i < |older| && older[i].addr == addr;
    assert all[i] == older[i];
    var idx: nat :| FirstAt(all, addr, idx) && printed == TenFrom(all, idx);
  }

  /**
    Whatever breakpoints were set, hit and deleted since the program was started, `disasm`
    prints consecutive instructions of the unpatched text as it is now, as long as the
    program has not rewritten it; but for an address at which the cache of an earlier
    process has an entry, that old entry is printed first.
   */
  lemma DisasmShowsProgram(env: Env, s: Session, image: Machine, cmds: seq<Command>, end: Session, addr: U64, printed: seq<Insn>)
    requires s.life.Loaded? && TextEnd(s.entry, s.size) <= SWEEP_TOP
    requires RunningThroughout(env, StartSpec(env.decode, s, image), cmds)
    requires end == ExecAll(env, StartSpec(env.decode, s, image), cmds) && end.process.Alive?
    requires SameText(image.mem, end.process.m.mem, s.entry, TextEnd(s.entry, s.size) + BUFFER_SIZE)
    requires PrintedFrom(end.insns, addr, printed)
    ensures IsStart(s.insns, addr) ==> printed != [] && printed[0] in s.insns
    ensures !IsStart(s.insns, addr) ==>
              && 0 < |printed| <= 10 && Tiles(printed, addr)
              && Decodes(InsnsOf(env.decode, end.process.m.mem), printed, s.entry, TextEnd(s.entry, s.size))
  {
    var top := TextEnd(s.entry, s.size);
    var insns := Sweep(env.decode, image.mem, s.entry, top);
    CacheKept(env, StartSpec(env.decode, s, image), cmds);
    assert end.insns == s.insns + insns;
    if IsStart(s.insns, addr) {
      PrintedFromEarlier(s.insns, insns, addr, printed);
    } else {
      PrintedFromLater(s.insns, insns, addr, printed);
      CacheIsProgram(env.decode, image.mem, end.process.m.mem, s.entry, top, addr, printed);
    }
  }

  // ----- the cache of all processes -----

  /** The text that a command adds to the cache. */
  function StartedBy(s: Session, c: Command): seq<Text> {
    if s.quit || !s.life.Loaded? then []
    else
      match c
      case Start(image) => [Text(image.mem, s.entry, TextEnd(s.entry, s.size))]
      case Run(image) => [Text(image.mem, s.entry, TextEnd(s.entry, s.size))]
      case _ => []
  }

  /** The texts of all processes a session starts, in order. */
  ghost function StartedIn(env: Env, s: Session, cmds: seq<Command>): seq<Text>
    decreases |cmds|
  {
    if cmds == [] then [] else StartedBy(s, cmds[0]) + StartedIn(env, Exec(env, s, cmds[0]), cmds[1..])
  }

  lemma CacheGrows(env: Env, s: Session, c: Command, texts: seq<Text>)
    requires s.insns == CacheOf(env.decode, texts)
    ensures Exec(env, s, c).insns == CacheOf(env.decode, texts + StartedBy(s, c))
  {
    hide SweepOf;
    var added := StartedBy(s, c);
    if added == [] {
      assert texts + added == texts;
    } else {
      assert (texts + added)[..|texts|] == texts && (texts + added)[|texts|] == added[0];
    }
  }

  /** The cache consists of the sweeps of all processes started so far. */
  lemma {:induction false} CacheIsHistory(env: Env, s: Session, cmds: seq<Command>, texts: seq<Text>)
    requires s.insns == CacheOf(env.decode, texts)
    ensures ExecAll(env, s, cmds).insns == CacheOf(env.decode, texts + StartedIn(env, s, cmds))
    decreases |cmds|
  {
    hide Exec, CacheOf, StartedBy;
    if cmds == [] {
      assert texts + [] == texts;
    } else {
      var added, s' := StartedBy(s, cmds[0]), Exec(env, s, cmds[0]);
      CacheGrows(env, s, cmds[0], texts);
      CacheIsHistory(env, s', cmds[1..], texts + added);
      assert texts + added + StartedIn(env, s', cmds[1..]) == texts + (added + StartedIn(env, s', cmds[1..]));
    }
  }

  /**
    In every session, whatever processes it starts, the listing for an address begins with the
    instruction of the first process that had one there; that is right for memory `now` exactly
    when the decoder still makes of it what it made of that process's text.
   */
  lemma ListingIsRight(env: Env, s: Session, cmds: seq<Command>, addr: U64, printed: seq<Insn>, now: Mem) returns (i: nat)
    requires s.insns == [] && PrintedFrom(ExecAll(env, s, cmds).insns, addr, printed)
    ensures var texts := StartedIn(env, s, cmds);
            && i < |texts| && IsStart(SweepOf(env.decode, texts[i]), addr)
            && (forall j :: 0 <= j < i ==> !IsStart(SweepOf(env.decode, texts[j]), addr))
            && printed != []
            && (DecodeAt(env.decode, now, addr) == [printed[0]] <==> DecodeAt(env.decode, now, addr) == DecodeAt(env.decode, texts[i].mem, addr))
  {
    hide Exec, DecodeAt, SweepOf, StartedBy;
    var texts, insns := StartedIn(env, s, cmds), ExecAll(env, s, cmds).insns;
    CacheIsHistory(env, s, cmds, []);
    assert [] + texts == texts;
    var idx: nat :| FirstAt(insns, addr, idx) && printed == TenFrom(insns, idx);
    i := FirstEntry(env.decode, texts, addr, idx);
  }

  // ----- what the inspecting commands show -----

  /** `dump` shows a word of the program exactly when no patch in its window hides another byte. */
  lemma DumpIsNative(s: Session, a: U64)
    requires s.process.Alive? && Accessible(s.process.m.mem, a)
    ensures ShownWord(s, a) == WordBytes(s.process.m.mem, a) <==>
            forall b | b in s.bps && InWindow(a, b) :: s.process.m.mem[b] == INT3
  {
  }

  lemma OffsetsInjective(r1: string, r2: string)
    requires r1 in RegOffsets() && r2 in RegOffsets() && r1 != r2
    ensures RegOffsets()[r1] != RegOffsets()[r2] && RegOffsets()[r1] < REG_COUNT
  {
  }

  /** `set` changes the named register and no other, and no memory. */
  lemma SetChangesOneRegister(s: Session, reg: string, val: int, other: string)
    requires s.life.Running? && s.process.Alive? && reg in RegOffsets()
    ensures var s' := SetSpec(s, reg, val);
            && s'.process.Alive? && s'.process.m.mem == s.process.m.mem
            && RegValue(s'.process.m.regs, reg) == Some(Wrap(val))
            && (other != reg ==> RegValue(s'.process.m.regs, other) == RegValue(s.process.m.regs, other))
  {
    if other in RegOffsets() && other != reg {
      OffsetsInjective(reg, other);
    }
  }

  /** The names in the order `getregs` prints them. */
  const PRINT_ORDER: seq<string> := [
    "rax", "rbx", "rcx", "rdx", "r8", "r9", "r10", "r11", "r12", "r13", "r14", "r15",
    "rdi", "rsi", "rbp", "rsp", "rip", "flags"]

  /** Each line of `getregs` has its name, every name of the offset table is printed, and none twice. */
  lemma GetRegsNames(r: Regs)
    ensures |AllRegs(r)| == |PRINT_ORDER| && forall i :: 0 <= i < |PRINT_ORDER| ==> AllRegs(r)[i].0 == PRINT_ORDER[i]
    ensures forall i, j :: 0 <= i < j < |PRINT_ORDER| ==> PRINT_ORDER[i] != PRINT_ORDER[j]
    ensures forall reg | reg in RegOffsets() :: reg in PRINT_ORDER
  {
    forall i | 0 <= i < |PRINT_ORDER| ensures AllRegs(r)[i].0 == PRINT_ORDER[i] {
      if i < 9 { EarlyName(r, i); } else { LateName(r, i); }
    }
    PrintOrderDistinct();
    forall reg | reg in RegOffsets() ensures reg in PRINT_ORDER {
      InPrintOrder(reg);
    }
  }

  lemma EarlyName(r: Regs, i: nat)
    requires i < 9
    ensures AllRegs(r)[i].0 == PRINT_ORDER[i]
  {
  }

  lemma LateName(r: Regs, i: nat)
    requires 9 <= i < 18
    ensures AllRegs(r)[i].0 == PRINT_ORDER[i]
  {
  }

  lemma InPrintOrder(reg: string)
    requires reg in RegOffsets()
    ensures reg in PRINT_ORDER
  {
    assert PRINT_ORDER[0] == "rax" && PRINT_ORDER[1] == "rbx" && PRINT_ORDER[2] == "rcx" && PRINT_ORDER[3] == "rdx";
    assert PRINT_ORDER[4] == "r8" && PRINT_ORDER[5] == "r9" && PRINT_ORDER[6] == "r10" && PRINT_ORDER[7] == "r11";
    assert PRINT_ORDER[8] == "r12" && PRINT_ORDER[9] == "r13" && PRINT_ORDER[10] == "r14" && PRINT_ORDER[11] == "r15";
    assert PRINT_ORDER[12] == "rdi" && PRINT_ORDER[13] == "rsi" && PRINT_ORDER[14] == "rbp" && PRINT_ORDER[15] == "rsp";
    assert PRINT_ORDER[16] == "rip" && PRINT_ORDER[17] == "flags";
  }

  /** The position at which a name is printed. */
  function PrintedAt(reg: string): nat {
    if reg == "rax" then 0 else if reg == "rbx" then 1 else if reg == "rcx" then 2 else if reg == "rdx" then 3
    else if reg == "r8" then 4 else if reg == "r9" then 5 else if reg == "r10" then 6 else if reg == "r11" then 7
    else if reg == "r12" then 8 else if reg == "r13" then 9 else if reg == "r14" then 10 else if reg == "r15" then 11
    else if reg == "rdi" then 12 else if reg == "rsi" then 13 else if reg == "rbp" then 14 else if reg == "rsp" then 15
    else if reg == "rip" then 16 else 17
  }

  lemma PrintOrderDistinct()
    ensures forall i, j :: 0 <= i < j < |PRINT_ORDER| ==> PRINT_ORDER[i] != PRINT_ORDER[j]
  {
    forall i, j | 0 <= i < j < |PRINT_ORDER| ensures PRINT_ORDER[i] != PRINT_ORDER[j] {
      PrintedAtIs(i);
      PrintedAtIs(j);
    }
  }

  lemma PrintedAtIs(i: nat)
    requires i < |PRINT_ORDER|
    ensures PrintedAt(PRINT_ORDER[i]) == i
  {
  }

  predicate NamedRight(r: Regs, line: (string, U64)) {
    RegValue(r, line.0) == Some(line.1)
  }

  /** `getregs` names every register correctly exactly when rbx holds what rbp holds. */
  lemma GetRegsShowsRegisters(r: Regs)
    ensures (forall line | line in AllRegs(r) :: NamedRight(r, line)) <==> RegValue(r, "rbx") == RegValue(r, "rbp")
  {
    var lines := AllRegs(r);
    assert lines[1] == ("rbx", r[4]) && lines[1] in lines;
    assert NamedRight(r, lines[1]) <==> RegValue(r, "rbx") == RegValue(r, "rbp");
    forall i | 0 <= i < 18 && i != 1 ensures NamedRight(r, AllRegs(r)[i]) {
      if i < 9 { EarlyLines(r, i); } else { LateLines(r, i); }
    }
    if NamedRight(r, lines[1]) {
      forall line | line in lines ensures NamedRight(r, line) {
        var i :| 0 <= i < |lines| && lines[i] == line;
      }
    }
  }

  lemma EarlyLines(r: Regs, i: nat)
    requires i < 9 && i != 1
    ensures NamedRight(r, AllRegs(r)[i])
  {
  }

  lemma LateLines(r: Regs, i: nat)
    requires 9 <= i < 18
    ensures NamedRight(r, AllRegs(r)[i])
  {
  }
}
