/**
  A debugging session told in terms of the unpatched program: what every command
  of the debugger does to an undebugged machine, and what follows for whole runs.
 */
module NativeSession {
  import opened Integers
  import opened Options
  import opened Memory
  import opened Processor
  import opened Disassembly

  datatype Life = NoLoad | Loaded | Running

  /** The child: none yet, gone but not yet noticed, or stopped with native memory. */
  datatype Process = Absent | Dead | Alive(m: Machine)

  datatype Env = Env(cpu: Cpu, decode: Decoder)

  /**
    `bps` are the breakpoint addresses in insertion order, `slot` the address to
    step over on the next `cont` (0 for none), `hits` the addresses reported so far.
   */
  datatype Session = Session(
    life: Life, entry: U64, size: U64, path: string, process: Process, bps: seq<U64>,
    slot: U64, insns: seq<Insn>, hits: seq<U64>, quit: bool)

  datatype Command =
    | Break(addr: U64)
    | Cont
    | Delete(idx: int)
    | Disasm(addr: U64)
    | Dump(addr: U64)
    | Get(reg: string)
    | GetRegs
    | List
    | Load(file: string, entry: U64, size: U64)
    | Run(image: Machine)
    | Set(reg: string, val: int)
    | Si
    | Start(image: Machine)

  function AddrSet(bps: seq<U64>): set<U64> {
    set a | a in bps
  }

  /** Positions of the named registers in `struct user_regs_struct`. */
  function RegOffsets(): map<string, nat> {
    map["r15" := 0, "r14" := 1, "r13" := 2, "r12" := 3, "rbp" := 4, "rbx" := 5, "r11" := 6, "r10" := 7,
        "r9" := 8, "r8" := 9, "rax" := 10, "rcx" := 11, "rdx" := 12, "rsi" := 13, "rdi" := 14,
        "rip" := RIP, "flags" := 18, "rsp" := 19]
  }

  function RegValue(regs: Regs, reg: string): Option<U64> {
    if reg in RegOffsets() then Some(regs[RegOffsets()[reg]]) else None
  }

  /** What `getregs` prints; the word shown as rbx is the one at offset 4. */
  function AllRegs(r: Regs): seq<(string, U64)> {
    [("rax", r[10]), ("rbx", r[4]), ("rcx", r[11]), ("rdx", r[12]),
     ("r8", r[9]), ("r9", r[8]), ("r10", r[7]), ("r11", r[6]),
     ("r12", r[3]), ("r13", r[2]), ("r14", r[1]), ("r15", r[0]),
     ("rdi", r[14]), ("rsi", r[13]), ("rbp", r[4]), ("rsp", r[19]),
     ("rip", r[16]), ("flags", r[18])]
  }

  /** A dump shows ten words. */
  const DUMP_WORDS: int := 10

  /** The bytes shown for the word at `a`: patched memory, or 0xff where it cannot be peeked. */
  function ShownWord(s: Session, a: U64): (r: seq<Byte>)
    ensures |r| == 8
  {
    if s.process.Alive? && Accessible(s.process.m.mem, a) then
      WordBytes(Overlay(s.process.m.mem, AddrSet(s.bps)), a)
    else seq(8, _ => 0xff)
  }

  /** `shown` are the words a dump from `start` shows, as far as it got. */
  ghost predicate Dumped(s: Session, start: U64, shown: seq<seq<Byte>>) {
    forall k :: 0 <= k < |shown| ==> shown[k] == ShownWord(s, Wrap(start + 8 * k))
  }

  lemma DumpedOneMore(s: Session, start: U64, shown: seq<seq<Byte>>)
    requires Dumped(s, start, shown)
    ensures Dumped(s, start, shown + [ShownWord(s, Wrap(start + 8 * |shown|))])
    ensures Wrap(Wrap(start + 8 * |shown|) + 8) == Wrap(start + 8 * (|shown| + 1))
  {
    WrapAdd(start + 8 * |shown|, 8);
  }

  function TenFrom(insns: seq<Insn>, idx: nat): seq<Insn>
    requires idx <= |insns|
  {
    if idx + 10 < |insns| then insns[idx..idx + 10] else insns[idx..]
  }

  /** Up to ten instructions from the first one cached for `addr` on. */
  ghost predicate PrintedFrom(insns: seq<Insn>, addr: U64, printed: seq<Insn>) {
    exists idx: nat :: FirstAt(insns, addr, idx) && printed == TenFrom(insns, idx)
  }

  // ----- cont -----

  /** Memory after the re-patch: the window of `a` is put back as it was before the step. */
  function PutBack(before: Mem, after: Mem, a: U64): Mem {
    map x | x in after :: if InWindow(a, x) && x in before then before[x] else after[x]
  }

  /** The step over a breakpoint at `a`, seen natively. */
  function StepOver(cpu: Cpu, m: Machine, a: U64): Event {
    match Step(cpu, m)
    case Ran(m') => Ran(m'.(mem := PutBack(m.mem, m'.mem, a)))
    case Trapped(m') => Ran(m'.(mem := PutBack(m.mem, m'.mem, a)))
    case Gone(c) => Gone(c)
  }

  /** What the debugger makes of the halt that follows PTRACE_CONT. */
  function Land(s: Session, h: Halt): Session {
    match h
    case AtBreak(b) =>
      if IsStart(s.insns, b.Rip()) then Report(s, b, b.Rip())
      else s.(process := Alive(b.JumpTo(Wrap(b.Rip() + 1))))
    case Stopped(b) =>
      var prev := Wrap(b.Rip() - 1);
      if prev in s.bps && IsStart(s.insns, prev) then Report(s, b.JumpTo(prev), prev)
      else s.(process := Alive(b))
    case Exited(_) => Session(NoLoad, 0, 0, "", Absent, [], s.slot, s.insns, s.hits, s.quit)
    case Busy => s
  }

  function Report(s: Session, b: Machine, a: U64): Session {
    s.(process := Alive(b), slot := a, hits := s.hits + [a])
  }

  ghost function ContSpec(cpu: Cpu, s: Session): Session {
    if !s.life.Running? then s
    else if !s.process.Alive? then s.(quit := true)
    else
      var m := s.process.m;
      if m.Rip() != s.slot then Land(s, Outcome(cpu, AddrSet(s.bps), m))
      else if s.slot == 0 then s.(quit := true)
      else
        match StepOver(cpu, m, s.slot)
        case Ran(m') => Land(s.(slot := 0), Outcome(cpu, AddrSet(s.bps), m'))
        case _ => s.(process := Dead, quit := true)
  }

  // ----- the other commands -----

  function BreakSpec(s: Session, a: U64): Session {
    if !s.life.Running? || a in s.bps then s
    else if s.process.Alive? && Accessible(s.process.m.mem, a) then s.(bps := s.bps + [a])
    else s.(bps := s.bps + [a], quit := true)
  }

  function DeleteSpec(s: Session, idx: int): Session {
    if !(0 <= idx < |s.bps|) then s
    else
      var s' := if s.slot == s.bps[idx] then s.(slot := 0) else s;
      if s.process.Alive? then s'.(bps := s.bps[..idx] + s.bps[idx+1..]) else s'.(quit := true)
  }

  function SetSpec(s: Session, reg: string, val: int): Session {
    if !s.life.Running? then s
    else if !s.process.Alive? then s.(quit := true)
    else if reg !in RegOffsets() then s
    else
      var m := s.process.m;
      s.(process := Alive(m.(regs := m.regs[RegOffsets()[reg] := Wrap(val)])))
  }

  function ReadRegsSpec(s: Session): Session {
    if s.life.Running? && !s.process.Alive? then s.(quit := true) else s
  }

  function SiSpec(cpu: Cpu, s: Session): Session {
    if !s.life.Running? then s
    else if !s.process.Alive? then s.(quit := true)
    else
      var m := s.process.m;
      if m.Rip() in s.bps then s.(process := Alive(m.JumpTo(Wrap(m.Rip() + 1))))
      else
        match Step(cpu, m)
        case Ran(m') => s.(process := Alive(m'))
        case Trapped(m') => s.(process := Alive(m'))
        case Gone(_) => s.(process := Dead)
  }

  function LoadSpec(s: Session, path: string, entry: U64, size: U64): Session {
    if !s.life.NoLoad? then s
    else Session(Loaded, entry, size, path, Absent, [], s.slot, s.insns, s.hits, s.quit)
  }

  /** Where a text section ends, in 64-bit arithmetic. */
  function TextEnd(entry: U64, size: U64): U64 {
    Wrap(entry + size)
  }

  ghost function StartSpec(decode: Decoder, s: Session, image: Machine): Session {
    if !s.life.Loaded? then s
    else s.(life := Running, process := Alive(image),
            insns := s.insns + SweepOf(decode, Text(image.mem, s.entry, TextEnd(s.entry, s.size))))
  }

  ghost function Exec(env: Env, s: Session, c: Command): Session {
    if s.quit then s
    else
      match c
      case Break(a) => BreakSpec(s, a)
      case Cont => ContSpec(env.cpu, s)
      case Delete(idx) => DeleteSpec(s, idx)
      case Disasm(_) => s
      case Dump(_) => s
      case Get(_) => ReadRegsSpec(s)
      case GetRegs => ReadRegsSpec(s)
      case List => s
      case Load(path, entry, size) => LoadSpec(s, path, entry, size)
      case Run(image) => if s.life.NoLoad? then s else ContSpec(env.cpu, StartSpec(env.decode, s, image))
      case Set(reg, val) => SetSpec(s, reg, val)
      case Si => SiSpec(env.cpu, s)
      case Start(image) => StartSpec(env.decode, s, image)
  }

  ghost function ExecAll(env: Env, s: Session, cmds: seq<Command>): Session
    decreases |cmds|
  {
    if cmds == [] then s else ExecAll(env, Exec(env, s, cmds[0]), cmds[1..])
  }

  // ----- invariant and what a command asks of its surroundings -----

  ghost predicate Distinct(bps: seq<U64>) {
    forall i, j :: 0 <= i < j < |bps| ==> bps[i] != bps[j]
  }

  ghost predicate Inv(s: Session) {
    && TextEnd(s.entry, s.size) <= SWEEP_TOP
    && Distinct(s.bps)
    && (s.bps != [] ==> s.life.Running?)
    && (s.life.Running? <==> !s.process.Absent?)
    && (s.process.Alive? && !s.quit ==> Ready(s.process.m.mem, AddrSet(s.bps)))
    && (s.life.Running? ==> s.slot == 0 || s.slot in s.bps)
  }

  lemma InvMeans(s: Session)
    requires Inv(s)
    ensures Distinct(s.bps) && (s.bps != [] ==> s.life.Running?) && (s.life.Running? <==> !s.process.Absent?)
    ensures s.life.Running? ==> s.slot == 0 || s.slot in s.bps
    ensures s.process.Alive? && !s.quit ==> Ready(s.process.m.mem, AddrSet(s.bps)) && !Accessible(s.process.m.mem, 0)
    ensures s.process.Alive? && !s.quit ==> forall a | a in s.bps :: Accessible(s.process.m.mem, a)
  {
  }

  lemma QuittingKeepsInv(s: Session)
    requires Inv(s)
    ensures Inv(s.(quit := true)) && (s.life.Running? ==> Inv(s.(process := Dead, quit := true)))
  {
  }

  lemma SetKeepsInv(s: Session, reg: string, val: int)
    requires Inv(s)
    ensures Inv(SetSpec(s, reg, val))
  {
  }

  lemma StartKeepsInv(decode: Decoder, s: Session, image: Machine)
    requires Inv(s) && StartTame(s, image)
    ensures Inv(StartSpec(decode, s, image))
  {
  }

  /**
    The instruction stepped over reads no other patched byte, stores to none outside its
    own window, and leaves all breakpoints mapped.
   */
  ghost predicate StepOverTame(cpu: Cpu, m: Machine, bps: set<U64>, a: U64) {
    AtInt3(m) ||
    (cpu.footprint(m) !! (bps - {a}) && KeepsWindows(cpu, m, bps) &&
     forall x | x in WritesOf(cpu.step(m)) && x in bps :: InWindow(a, x))
  }

  /** The program does not use patched bytes as data, and its run to the next halt is finite. */
  ghost predicate RunTame(cpu: Cpu, m: Machine, bps: set<U64>) {
    Undisturbed(cpu, bps, m) && Outcome(cpu, bps, m) != Busy
  }

  ghost predicate ContTame(cpu: Cpu, s: Session) {
    s.life.Running? && s.process.Alive? ==>
      var m, bps := s.process.m, AddrSet(s.bps);
      if m.Rip() != s.slot then RunTame(cpu, m, bps)
      else if s.slot == 0 then true
      else StepOverTame(cpu, m, bps, s.slot) &&
           (StepOver(cpu, m, s.slot).Ran? ==> RunTame(cpu, StepOver(cpu, m, s.slot).m, bps))
  }

  ghost predicate SiTame(cpu: Cpu, s: Session) {
    s.process.Alive? && s.process.m.Rip() !in s.bps ==> Spares(cpu, s.process.m, AddrSet(s.bps))
  }

  ghost predicate StartTame(s: Session, image: Machine) {
    s.life.Loaded? ==> 0 !in image.mem && s.slot == 0
  }

  ghost predicate Tame(env: Env, s: Session, c: Command) {
    s.quit ||
    match c
    case Cont => ContTame(env.cpu, s)
    case Load(_, entry, size) => TextEnd(entry, size) <= SWEEP_TOP
    case Run(image) => StartTame(s, image) && (!s.life.NoLoad? ==> ContTame(env.cpu, StartSpec(env.decode, s, image)))
    case Si => SiTame(env.cpu, s)
    case Start(image) => StartTame(s, image)
    case _ => true
  }

  lemma OutcomeKeepsSavedBytes(cpu: Cpu, bps: set<U64>, m: Machine)
    requires Local(cpu) && RunTame(cpu, m, bps) && Ready(m.mem, bps)
    ensures var h := Outcome(cpu, bps, m);
            && (h.AtBreak? || h.Stopped? ==> SameAt(m.mem, h.m.mem, bps) && Ready(h.m.mem, bps))
            && (h.AtBreak? ==> h.m.Rip() in bps)
  {
    var n := OutcomeFuel(cpu, bps, m);
    RunKeepsSavedBytes(cpu, bps, m, n);
  }

  /** Where the child of a patched run is left: past the trap, or where the signal left it. */
  function TrappedAt(h: Halt): Machine
    requires h.AtBreak? || h.Stopped?
  {
    if h.AtBreak? then h.m.JumpTo(Wrap(h.m.Rip() + 1)) else h.m
  }

  /** Telling breakpoints from other stops by the address before rip loses nothing on a true breakpoint. */
  lemma LandFromTrap(s: Session, h: Halt)
    requires Inv(s) && s.process.Alive? && !s.quit
    requires h.AtBreak? || h.Stopped?
    requires (h.AtBreak? ==> h.m.Rip() in s.bps) && Ready(h.m.mem, AddrSet(s.bps))
    ensures var s' := s.(process := Alive(TrappedAt(h)));
            Inv(s') && Land(s', Stopped(TrappedAt(h))) == Land(s, h)
  {
    if h.AtBreak? {
      assert TrappedAt(h).JumpTo(h.m.Rip()) == h.m;
    }
  }

  lemma LandKeepsInv(s: Session, h: Halt)
    requires Inv(s) && s.process.Alive?
    requires h.AtBreak? ==> h.m.Rip() in s.bps
    requires h.AtBreak? || h.Stopped? ==> Ready(h.m.mem, AddrSet(s.bps))
    ensures Inv(Land(s, h))
  {
  }

  lemma ContKeepsInv(cpu: Cpu, s: Session)
    requires Local(cpu) && Inv(s) && !s.quit && ContTame(cpu, s)
    ensures Inv(ContSpec(cpu, s))
  {
    hide Local, StepOver, StepOverTame;
    if s.life.Running? && s.process.Alive? {
      var m, bps := s.process.m, AddrSet(s.bps);
      if m.Rip() != s.slot {
        OutcomeKeepsSavedBytes(cpu, bps, m);
        LandKeepsInv(s, Outcome(cpu, bps, m));
      } else if s.slot != 0 {
        var e := StepOver(cpu, m, s.slot);
        if e.Ran? {
          StepOverKeepsReady(cpu, m, bps, s.slot);
          OutcomeKeepsSavedBytes(cpu, bps, e.m);
          var s' := s.(slot := 0, process := Alive(e.m));
          LandKeepsInv(s', Outcome(cpu, bps, e.m));
          assert Land(s', Outcome(cpu, bps, e.m)) == Land(s.(slot := 0), Outcome(cpu, bps, e.m));
        }
      }
    }
  }

  /** The step over a breakpoint leaves breakpoints mapped, and the native bytes under all patches as they were. */
  lemma StepOverKeepsReady(cpu: Cpu, m: Machine, bps: set<U64>, a: U64)
    requires Local(cpu) && Ready(m.mem, bps) && StepOverTame(cpu, m, bps, a) && StepOver(cpu, m, a).Ran?
    ensures var m' := StepOver(cpu, m, a).m;
            SameAt(m.mem, m'.mem, bps) && Ready(m'.mem, bps)
  {
    if !AtInt3(m) {
      var m' := StepOver(cpu, m, a).m;
      assert 0 !in WritesOf(cpu.step(m));
      forall b | b in bps ensures Accessible(m'.mem, b) && b in m'.mem && m'.mem[b] == m.mem[b] {
        assert Accessible(m.mem, b);
        forall x: U64 | b <= x < b + 8 ensures x in m'.mem {
          assert x in UnmapsOf(cpu.step(m)) ==> !InWindow(b, x);
        }
        assert InWindow(b, b);
      }
    }
  }

  lemma StepOverKeepsInv(cpu: Cpu, s: Session)
    requires Local(cpu) && Inv(s) && s.process.Alive? && !s.quit
    requires StepOverTame(cpu, s.process.m, AddrSet(s.bps), s.slot)
    ensures StepOver(cpu, s.process.m, s.slot).Ran? ==>
              Inv(s.(slot := 0, process := Alive(StepOver(cpu, s.process.m, s.slot).m)))
  {
    hide Local, StepOver, StepOverTame;
    if StepOver(cpu, s.process.m, s.slot).Ran? {
      StepOverKeepsReady(cpu, s.process.m, AddrSet(s.bps), s.slot);
    }
  }

  lemma BreakKeepsInv(s: Session, a: U64)
    requires Inv(s)
    ensures Inv(BreakSpec(s, a))
  {
  }

  lemma DeleteKeepsInv(s: Session, idx: int)
    requires Inv(s)
    ensures Inv(DeleteSpec(s, idx))
  {
  }

  lemma SiKeepsInv(cpu: Cpu, s: Session)
    requires Local(cpu) && Inv(s) && !s.quit && SiTame(cpu, s)
    ensures Inv(SiSpec(cpu, s))
    ensures s.process.Alive? && s.process.m.Rip() !in s.bps && !Step(cpu, s.process.m).Gone? ==>
              SameAt(s.process.m.mem, Step(cpu, s.process.m).m.mem, AddrSet(s.bps))
  {
    hide Local, Step, Spares;
    if s.process.Alive? && s.process.m.Rip() !in s.bps && !Step(cpu, s.process.m).Gone? {
      StepKeepsReady(cpu, s.process.m, AddrSet(s.bps));
    }
  }

  lemma ExecKeepsInv(env: Env, s: Session, c: Command)
    requires Local(env.cpu) && Inv(s) && Tame(env, s, c)
    ensures Inv(Exec(env, s, c))
  {
    match c
    case Cont => if !s.quit { ContKeepsInv(env.cpu, s); }
    case Run(image) => if !s.quit && !s.life.NoLoad? { ContKeepsInv(env.cpu, StartSpec(env.decode, s, image)); }
    case Si => if !s.quit { SiKeepsInv(env.cpu, s); }
    case Break(a) => BreakKeepsInv(s, a);
    case Delete(idx) => DeleteKeepsInv(s, idx);
    case _ =>
  }

  /** Every command of the session finds its surroundings as `Tame` asks. */
  ghost predicate AllTame(env: Env, s: Session, cmds: seq<Command>)
    decreases |cmds|
  {
    cmds == [] || (Tame(env, s, cmds[0]) && AllTame(env, Exec(env, s, cmds[0]), cmds[1..]))
  }

  lemma {:induction false} SessionKeepsInv(env: Env, s: Session, cmds: seq<Command>)
    requires Local(env.cpu) && Inv(s) && AllTame(env, s, cmds)
    ensures Inv(ExecAll(env, s, cmds))
    decreases |cmds|
  {
    if cmds != [] {
      ExecKeepsInv(env, s, cmds[0]);
      SessionKeepsInv(env, Exec(env, s, cmds[0]), cmds[1..]);
    }
  }

  /** After `errquit` nothing changes any more. */
  lemma {:induction false} QuitIsFinal(env: Env, s: Session, cmds: seq<Command>)
    requires s.quit
    ensures ExecAll(env, s, cmds) == s
    decreases |cmds|
  {
    if cmds != [] {
      QuitIsFinal(env, s, cmds[1..]);
    }
  }
}
