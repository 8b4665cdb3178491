/**
  A small processor that meets the locality assumption, and programs on it that show
  which of the debugger's habits are visible and that the theorems apply to real runs.
 */
module ToyProcessor {
  import opened Integers
  import opened Memory
  import opened Processor
  import opened Disassembly
  import opened NativeSession
  import opened Transparency
  import opened HitList
  import opened Lifetime

  const RAX: int := 10

  const NOP: Byte := 0x90
  /** jump to the address in the next byte */
  const JUMP: Byte := 0xEB
  /** load rax from the address in the next byte */
  const LOAD: Byte := 0x8A
  /** store the second operand byte at the address in the first */
  const STORE: Byte := 0xC6
  /** map the address in the next byte, or clear the byte there */
  const MAP: Byte := 0x09
  /** unmap the address in the next byte */
  const UNMAP: Byte := 0x0B
  /** read the next number of the input into rax, or -1 at its end */
  const READ: Byte := 0x0C
  const HALT: Byte := 0xF4

  function ByteAt(mem: Mem, a: int): Byte {
    if 0 <= a < TWO_TO_THE_64 && a in mem then mem[a] else 0
  }

  function Operand(m: Machine): U64 {
    ByteAt(m.mem, m.Rip() as int + 1) as int
  }

  const NO_CHANGE: Change := Change({}, map[])

  function ToyStep(m: Machine): Effect {
    var rip := m.Rip() as int;
    var opcode := ByteAt(m.mem, rip);
    var arg := Operand(m);
    if opcode == NOP then Next(m.regs[RIP := Wrap(rip + 1)], NO_CHANGE, m.world)
    else if opcode == JUMP then Next(m.regs[RIP := arg], NO_CHANGE, m.world)
    else if opcode == LOAD && arg in m.mem then
      Next(m.regs[RIP := Wrap(rip + 2)][RAX := m.mem[arg] as int], NO_CHANGE, m.world)
    else if opcode == STORE && arg in m.mem then
      Next(m.regs[RIP := Wrap(rip + 3)], Change({}, map[arg := ByteAt(m.mem, rip + 2)]), m.world)
    else if opcode == MAP && arg != 0 then
      Next(m.regs[RIP := Wrap(rip + 2)], Change({}, map[arg := 0]), m.world)
    else if opcode == UNMAP then
      Next(m.regs[RIP := Wrap(rip + 2)], Change({arg}, map[]), m.world)
    else if opcode == READ && m.world != [] then
      Next(m.regs[RIP := Wrap(rip + 1)][RAX := Wrap(m.world[0])], NO_CHANGE, m.world[1..])
    else if opcode == READ then
      Next(m.regs[RIP := Wrap(rip + 1)][RAX := Wrap(-1)], NO_CHANGE, [])
    else if opcode == HALT then Exit(0)
    else Signal(m.regs, NO_CHANGE, m.world)
  }

  function ToyFootprint(m: Machine): set<U64> {
    var rip := m.Rip() as int;
    var opcode := ByteAt(m.mem, rip);
    if opcode == JUMP || opcode == MAP || opcode == UNMAP then {Wrap(rip), Wrap(rip + 1)}
    else if opcode == LOAD then {Wrap(rip), Wrap(rip + 1), Operand(m)}
    else if opcode == STORE then {Wrap(rip), Wrap(rip + 1), Wrap(rip + 2)}
    else {Wrap(rip)}
  }

  const TOY: Cpu := Cpu(ToyStep, ToyFootprint)

  /** The locality assumption is met by a processor with loads, stores, jumps, mappings, input and exit. */
  lemma ToyIsLocal()
    ensures Local(TOY)
  {
    forall m1: Machine, m2: Machine | Alike(m1, m2, ToyFootprint(m1)) ensures ToyStep(m1) == ToyStep(m2) {
      FetchAgrees(m1, m2);
    }
  }

  lemma FetchAgrees(m1: Machine, m2: Machine)
    requires Alike(m1, m2, ToyFootprint(m1))
    ensures ToyStep(m1) == ToyStep(m2)
  {
    var rip := m1.Rip() as int;
    var opcode := ByteAt(m1.mem, rip);
    assert Wrap(rip) in ToyFootprint(m1) && Wrap(rip) == rip;
    assert opcode == ByteAt(m2.mem, rip);
    if opcode == JUMP || opcode == LOAD || opcode == STORE || opcode == MAP || opcode == UNMAP {
      assert Wrap(rip + 1) in ToyFootprint(m1);
      assert rip + 1 < TWO_TO_THE_64 ==> Wrap(rip + 1) == rip + 1;
      assert Operand(m1) == Operand(m2);
    }
    if opcode == STORE {
      assert Wrap(rip + 2) in ToyFootprint(m1);
      assert rip + 2 < TWO_TO_THE_64 ==> Wrap(rip + 2) == rip + 2;
      assert ByteAt(m1.mem, rip + 2) == ByteAt(m2.mem, rip + 2);
    }
  }

  function CodeByte(code: seq<Byte>, x: nat): Byte {
    if 16 <= x < 16 + |code| then code[x - 16] else HALT
  }

  /** A machine without input whose program occupies addresses 16 to 63, filled up with `HALT`. */
  function Program(rip: U64, code: seq<Byte>): Machine {
    Machine(seq(REG_COUNT, i => if i == RIP then rip else 0),
            map x: U64 | 16 <= x < 64 :: CodeByte(code, x), [])
  }

  /** A patch under a loaded byte is visible to the program. */
  lemma LoadSeesPatch()
    ensures var m := Program(16, [LOAD, 20, NOP, NOP, 7]);
            && Step(TOY, m).Ran? && Step(TOY, m).m.regs[RAX] == 7
            && Step(TOY, Patched(m, {20})).Ran? && Step(TOY, Patched(m, {20})).m.regs[RAX] == 0xCC
  {
    var m := Program(16, [LOAD, 20, NOP, NOP, 7]);
    assert ByteAt(m.mem, 16) == LOAD && ByteAt(m.mem, 17) == 20 && m.mem[20] == 7;
    var p := Patched(m, {20});
    assert ByteAt(p.mem, 16) == LOAD && ByteAt(p.mem, 17) == 20 && p.mem[20] == INT3;
    assert (7 as bv8) as int == 7 && INT3 as int == 0xCC;
  }

  /** A store into the eight bytes from a stepped-over breakpoint on is lost. */
  lemma StepOverLosesStore()
    ensures var m := Program(16, [STORE, 20, 5]);
            && Step(TOY, m).Ran? && Step(TOY, m).m.mem[20] == 5
            && StepOver(TOY, m, 16).Ran? && StepOver(TOY, m, 16).m.mem[20] == HALT
            && !NoLostStores(TOY, m, 16)
  {
    var m := Program(16, [STORE, 20, 5]);
    assert ByteAt(m.mem, 16) == STORE && ByteAt(m.mem, 17) == 20 && ByteAt(m.mem, 18) == 5 && m.mem[20] == HALT;
    assert Step(TOY, m).m.mem == Changed(m.mem, Change({}, map[20 := 5]));
  }

  /** A signal raised one byte past a breakpoint is reported as a hit, and rip is moved back. */
  lemma SignalTakenForHit(s: Session)
    requires s.life.Running? && s.bps == [16] && s.slot == 0 && IsStart(s.insns, 16)
    requires s.process == Alive(Program(17, [NOP, 6]))
    ensures ContSpec(TOY, s) == Report(s, Program(16, [NOP, 6]), 16)
  {
    var m := Program(17, [NOP, 6]);
    assert ByteAt(m.mem, 17) == 6;
    assert Step(TOY, m) == Trapped(m) by {
      assert Changed(m.mem, NO_CHANGE) == m.mem;
    }
    OutcomeIs(TOY, {16}, m, 0);
    assert AddrSet([16]) == {16};
    assert m.JumpTo(16).regs == Program(16, [NOP, 6]).regs;
  }

  /** A breakpoint that starts no cached instruction is missed: the child is left behind the trap. */
  lemma BreakpointMissed(s: Session)
    requires s.life.Running? && s.bps == [16] && s.slot == 0 && !IsStart(s.insns, 16)
    requires s.process == Alive(Program(16, [NOP, NOP]))
    ensures ContSpec(TOY, s) == s.(process := Alive(Program(17, [NOP, NOP])))
  {
    var m := Program(16, [NOP, NOP]);
    OutcomeIs(TOY, {16}, m, 0);
    assert AddrSet([16]) == {16};
    assert m.JumpTo(17).regs == Program(17, [NOP, NOP]).regs;
  }

  /** A program that exits from elsewhere than the slot leaves the slot filled. */
  lemma SlotSurvivesExit(s: Session)
    requires s.life.Running? && s.bps == [16] && s.slot == 16
    requires s.process == Alive(Program(18, [NOP, NOP]))
    ensures ContSpec(TOY, s).life.NoLoad? && ContSpec(TOY, s).slot == 16
  {
    var m := Program(18, [NOP, NOP]);
    assert ByteAt(m.mem, 18) == HALT;
    OutcomeIs(TOY, {16}, m, 0);
    assert AddrSet([16]) == {16};
  }

  /** A program that exits at the breakpoint it is stopped at takes the debugger with it. */
  lemma ExitWhileSteppingOver(s: Session)
    requires s.life.Running? && s.bps == [16] && s.slot == 16
    requires s.process == Alive(Program(16, [HALT]))
    ensures ContSpec(TOY, s) == s.(process := Dead, quit := true)
  {
    assert ByteAt(Program(16, [HALT]).mem, 16) == HALT;
  }

  // ----- runs to exit -----

  predicate AtOpcode(m: Machine, opcode: Byte) {
    m.Rip() < 64 && m.Rip() in m.mem && m.mem[m.Rip()] == opcode
  }

  /** A `NOP` just moves rip on, at a breakpoint or not. */
  lemma AtNop(m: Machine, bps: set<U64>)
    requires AtOpcode(m, NOP)
    ensures Step(TOY, m) == Ran(m.JumpTo(m.Rip() + 1)) && (m.Rip() !in bps ==> Spares(TOY, m, bps))
    ensures StepOverTame(TOY, m, bps, m.Rip()) && NoLostStores(TOY, m, m.Rip())
  {
    assert ByteAt(m.mem, m.Rip()) == NOP && Changed(m.mem, NO_CHANGE) == m.mem;
  }

  lemma AtHalt(m: Machine, bps: set<U64>)
    requires AtOpcode(m, HALT) && m.Rip() !in bps
    ensures Step(TOY, m) == Gone(0) && Spares(TOY, m, bps)
  {
    assert ByteAt(m.mem, m.Rip()) == HALT;
  }

  lemma AtTrap(m: Machine, bps: set<U64>)
    requires AtOpcode(m, INT3)
    ensures Step(TOY, m) == Trapped(m.JumpTo(m.Rip() + 1)) && Spares(TOY, m, bps)
  {
  }

  /** Two adjacent breakpoints, the first on the first instruction, are both hit, then the program exits. */
  lemma AdjacentBreakpoints()
    ensures var m := Program(16, [NOP, NOP]);
            && RunsToExit(TOY, {16, 17}, 0, m, 2)
            && TraceOf(TOY, {16, 17}, m, 2) == Trace([16, 17], 0, m.JumpTo(18))
  {
    hide Step, Spares, StepOverTame, NoLostStores;
    var m, bps: set<U64> := Program(16, [NOP, NOP]), {16, 17};
    var m1, m2 := m.JumpTo(17), m.JumpTo(18);
    assert m1.JumpTo(18) == m2;
    AtNop(m, bps);
    AtNop(m1, bps);
    AtHalt(m2, bps);
    assert RunsToExit(TOY, bps, 0, m2, 0) && TraceOf(TOY, bps, m2, 0) == Trace([], 0, m2);
    assert RunsToExit(TOY, bps, 0, m1, 1) && TraceOf(TOY, bps, m1, 1) == Trace([17], 0, m2);
  }

  /** A program with a trap of its own just before a breakpoint meets the assumptions too: one signal, one visit. */
  lemma TrapBeforeBreakpoint()
    ensures var m := Program(16, [NOP, INT3, NOP]);
            && RunsToExit(TOY, {18}, 0, m, 3)
            && TraceOf(TOY, {18}, m, 3) == Trace([18], 1, m.JumpTo(19))
  {
    hide Step, Spares, StepOverTame, NoLostStores;
    var m, bps: set<U64> := Program(16, [NOP, INT3, NOP]), {18};
    var m1, m2, m3 := m.JumpTo(17), m.JumpTo(18), m.JumpTo(19);
    assert m1.JumpTo(18) == m2 && m2.JumpTo(19) == m3;
    AtNop(m, bps);
    AtTrap(m1, bps);
    AtNop(m2, bps);
    AtHalt(m3, bps);
    assert RunsToExit(TOY, bps, 0, m3, 0) && TraceOf(TOY, bps, m3, 0) == Trace([], 0, m3);
    assert RunsToExit(TOY, bps, 0, m2, 1) && TraceOf(TOY, bps, m2, 1) == Trace([18], 0, m3);
    assert RunsToExit(TOY, bps, 0, m1, 2) && TraceOf(TOY, bps, m1, 2) == Trace([18], 1, m3);
  }

  predicate WithOperand(m: Machine, opcode: Byte, arg: Byte) {
    AtOpcode(m, opcode) && m.Rip() + 1 in m.mem && m.mem[m.Rip() + 1] == arg
  }

  lemma AtMap(m: Machine, bps: set<U64>)
    requires WithOperand(m, MAP, 100) && m.Rip() !in bps && m.Rip() + 1 !in bps && 100 !in bps
    ensures Step(TOY, m) == Ran(m.JumpTo(m.Rip() + 2).(mem := m.mem[100 := 0])) && Spares(TOY, m, bps)
  {
    assert ByteAt(m.mem, m.Rip()) == MAP && Operand(m) == 100;
    assert Changed(m.mem, Change({}, map[100 := 0])) == m.mem[100 := 0];
  }

  lemma AtUnmap(m: Machine, bps: set<U64>)
    requires WithOperand(m, UNMAP, 100) && m.Rip() !in bps && m.Rip() + 1 !in bps && forall a | a in bps :: !InWindow(a, 100)
    ensures Step(TOY, m) == Ran(m.JumpTo(m.Rip() + 2).(mem := m.mem - {100})) && Spares(TOY, m, bps)
  {
    assert ByteAt(m.mem, m.Rip()) == UNMAP && Operand(m) == 100;
    assert Changed(m.mem, Change({100}, map[])) == m.mem - {100};
  }

  lemma AtRead(m: Machine, bps: set<U64>)
    requires AtOpcode(m, READ) && m.world == [7] && m.Rip() !in bps
    ensures Step(TOY, m) == Ran(Machine(m.regs[RIP := m.Rip() + 1][RAX := 7], m.mem, [])) && Spares(TOY, m, bps)
  {
    assert ByteAt(m.mem, m.Rip()) == READ && Changed(m.mem, NO_CHANGE) == m.mem;
  }

  lemma StopAndUnmap(m: Machine, bps: set<U64>) returns (last: Machine)
    requires AtOpcode(m, NOP) && m.Rip() == 19 && bps == {19}
    requires WithOperand(m.JumpTo(20), UNMAP, 100) && AtOpcode(m.JumpTo(22), HALT)
    ensures RunsToExit(TOY, bps, 0, m, 2) && TraceOf(TOY, bps, m, 2) == Trace([19], 0, last)
    ensures last.regs[RAX] == m.regs[RAX]
  {
    hide Step, Spares, StepOverTame, NoLostStores, RunsToExit, TraceOf;
    var m1 := m.JumpTo(20);
    last := m1.JumpTo(22).(mem := m1.mem - {100});
    AtNop(m, bps);
    AtUnmap(m1, bps);
    AtHalt(last, bps);
    LastStep(last, bps);
    OneMoreStep(m1, bps, 1, Trace([], 0, last));
    OneMoreStep(m, bps, 2, Trace([], 0, last));
  }

  lemma MapAndRead(m: Machine, bps: set<U64>) returns (last: Machine)
    requires WithOperand(m, MAP, 100) && m.Rip() == 16 && m.world == [7] && bps == {19}
    requires AtOpcode(m.JumpTo(18), READ) && AtOpcode(m.JumpTo(19), NOP)
    requires WithOperand(m.JumpTo(20), UNMAP, 100) && AtOpcode(m.JumpTo(22), HALT)
    ensures RunsToExit(TOY, bps, 0, m, 4) && TraceOf(TOY, bps, m, 4) == Trace([19], 0, last)
    ensures last.regs[RAX] == 7
  {
    hide Step, Spares, StepOverTame, NoLostStores, RunsToExit, TraceOf;
    var m1 := m.JumpTo(18).(mem := m.mem[100 := 0]);
    var m2 := Machine(m1.regs[RIP := 19][RAX := 7], m1.mem, []);
    AtMap(m, bps);
    AtRead(m1, bps);
    last := StopAndUnmap(m2, bps);
    OneMoreStep(m1, bps, 3, Trace([19], 0, last));
    OneMoreStep(m, bps, 4, Trace([19], 0, last));
  }

  /** So does a program that maps a byte, reads input, is stopped by a breakpoint, and unmaps the byte again. */
  lemma MapReadUnmap()
    ensures var m := Program(16, [MAP, 100, READ, NOP, UNMAP, 100]).(world := [7]);
            && RunsToExit(TOY, {19}, 0, m, 4)
            && TraceOf(TOY, {19}, m, 4).visits == [19] && TraceOf(TOY, {19}, m, 4).last.regs[RAX] == 7
  {
    hide RunsToExit, TraceOf;
    var last := MapAndRead(Program(16, [MAP, 100, READ, NOP, UNMAP, 100]).(world := [7]), {19});
  }

  lemma LastStep(m: Machine, bps: set<U64>)
    requires m.Rip() != 0 && m.Rip() !in bps && Step(TOY, m).Gone? && Spares(TOY, m, bps)
    ensures RunsToExit(TOY, bps, 0, m, 0) && TraceOf(TOY, bps, m, 0) == Trace([], 0, m)
  {
    hide Step, Spares;
  }

  lemma OneMoreStep(m: Machine, bps: set<U64>, n: nat, rest: Trace)
    requires n > 0 && m.Rip() != 0 && Step(TOY, m).Ran?
    requires if m.Rip() in bps then StepOverTame(TOY, m, bps, m.Rip()) && NoLostStores(TOY, m, m.Rip()) else Spares(TOY, m, bps)
    requires RunsToExit(TOY, bps, 0, Step(TOY, m).m, n - 1) && TraceOf(TOY, bps, Step(TOY, m).m, n - 1) == rest
    ensures RunsToExit(TOY, bps, 0, m, n)
    ensures TraceOf(TOY, bps, m, n) == rest.(visits := (if m.Rip() in bps then [m.Rip()] else []) + rest.visits)
  {
    hide Step, Spares, StepOverTame, NoLostStores;
  }

  /** A decoder that takes every byte for an instruction. */
  function OneByte(bytes: seq<Byte>, addr: U64): Decoded {
    Decoded(1, "", "")
  }

  /** The debugger with that program loaded at 16 and started, and both breakpoints set. */
  function TwoSet(insns: seq<Insn>): Session {
    Session(Life.Running, 16, 2, "nops", Alive(Program(16, [NOP, NOP])), [16, 17], 0, insns, [], false)
  }

  lemma SweepOfTwo(mem: Mem)
    ensures var insns := Sweep(OneByte, mem, 16, 18);
            |insns| == 2 && insns[0].addr == 16 && insns[1].addr == 17
  {
    hide Fetched, SweepWith;
    var first, second := DecodeAt(OneByte, mem, 16), DecodeAt(OneByte, mem, 17);
    assert |first| == 1 && first[0].size == 1 && |second| == 1 && second[0].size == 1;
    hide DecodeAt, Sweep;
    SweepNothing(OneByte, mem, 18, 18);
    SweepNext(OneByte, mem, 17, 18);
    SweepNext(OneByte, mem, 16, 18);
  }

  lemma LoadAndStart(env: Env, s: Session, image: Machine)
    requires s == Session(NoLoad, 0, 0, "", Absent, [], 0, [], [], false) && env.decode == OneByte
    requires image == Program(16, [NOP, NOP])
    ensures Exec(env, Exec(env, s, Load("nops", 16, 2)), Start(image)) == TwoSet(Sweep(OneByte, image.mem, 16, 18)).(bps := [])
  {
    hide Sweep;
    assert [] + Sweep(OneByte, image.mem, 16, 18) == Sweep(OneByte, image.mem, 16, 18);
  }

  lemma BreakTwice(env: Env, insns: seq<Insn>)
    ensures Exec(env, Exec(env, TwoSet(insns).(bps := []), Break(16)), Break(17)) == TwoSet(insns)
  {
    var mem := Program(16, [NOP, NOP]).mem;
    assert Accessible(mem, 16) && Accessible(mem, 17);
    hide Accessible, Program;
    assert [] + [16] == [16] && [16] + [17] == [16, 17];
  }

  /** The commands that get there from the start. */
  lemma TwoSetIsReached()
    ensures var env, image := Env(TOY, OneByte), Program(16, [NOP, NOP]);
            ExecAll(env, Session(NoLoad, 0, 0, "", Absent, [], 0, [], [], false),
                    [Load("nops", 16, 2), Start(image), Break(16), Break(17)]) == TwoSet(Sweep(OneByte, image.mem, 16, 18))
  {
    hide Exec, ExecAll, Sweep, Program, TwoSet;
    var env, image := Env(TOY, OneByte), Program(16, [NOP, NOP]);
    var s0 := Session(NoLoad, 0, 0, "", Absent, [], 0, [], [], false);
    var s2 := TwoSet(Sweep(OneByte, image.mem, 16, 18)).(bps := []);
    LoadAndStart(env, s0, image);
    BreakTwice(env, Sweep(OneByte, image.mem, 16, 18));
    ExecTwo(env, s0, Load("nops", 16, 2), Start(image));
    ExecTwo(env, s2, Break(16), Break(17));
    var opening, breaks := [Load("nops", 16, 2), Start(image)], [Break(16), Break(17)];
    ExecAllAppend(env, s0, opening, breaks);
    assert opening + breaks == [Load("nops", 16, 2), Start(image), Break(16), Break(17)];
  }

  lemma TwoSetMeetsAssumptions(insns: seq<Insn>)
    requires insns == Sweep(OneByte, Program(16, [NOP, NOP]).mem, 16, 18)
    ensures Inv(TwoSet(insns)) && BpsAreStarts(TwoSet(insns)) && AddrSet(TwoSet(insns).bps) == {16, 17}
  {
    var mem := Program(16, [NOP, NOP]).mem;
    SweepOfTwo(mem);
    assert insns[0].addr == 16 && insns[1].addr == 17;
    assert Accessible(mem, 16) && Accessible(mem, 17);
  }

  /** From there three `cont` report 16 and 17 and end with nothing loaded. */
  lemma AdjacentBreakpointsReported(insns: seq<Insn>)
    requires insns == Sweep(OneByte, Program(16, [NOP, NOP]).mem, 16, 18)
    ensures var end := ExecAll(Env(TOY, OneByte), TwoSet(insns), Conts(3));
            end.hits == [16, 17] && !end.quit && end.life.NoLoad?
  {
    hide Sweep, Inv, Local, BpsAreStarts, RunsToExit, TraceOf, Exec, ExecAll, Conts, AllTame, Accessible, AddrSet;
    ToyIsLocal();
    AdjacentBreakpoints();
    TwoSetMeetsAssumptions(insns);
    HitsAreVisits(Env(TOY, OneByte), TwoSet(insns), Program(16, [NOP, NOP]), 2);
    assert 18 !in TwoSet(insns).bps;
  }

  /** A second program whose text differs: for 16 the listing begins with what the first program had there. */
  lemma StaleListing()
    ensures var first, second := Program(16, [NOP, NOP]), Program(16, [HALT, HALT]);
            var s := Session(Loaded, 16, 2, "halts", Absent, [], 0, SweepOf(OneByte, Text(first.mem, 16, 18)), [], false);
            var insns := StartSpec(OneByte, s, second).insns;
            && insns != [] && PrintedFrom(insns, 16, TenFrom(insns, 0)) && insns[0].bytes == [NOP]
            && DecodeAt(OneByte, second.mem, 16) != [insns[0]]
  {
    hide Sweep, DecodeAt;
    var mem, now := Program(16, [NOP, NOP]).mem, Program(16, [HALT, HALT]).mem;
    SweepOfTwo(mem);
    SweepNext(OneByte, mem, 16, 18);
    FirstByteDecoded(mem);
    FirstByteDecoded(now);
    var insns := Sweep(OneByte, mem, 16, 18) + SweepOf(OneByte, Text(now, 16, 18));
    assert insns[0] == Insn(16, [NOP], 1, "", "");
    assert FirstAt(insns, 16, 0);
  }

  lemma FirstByteDecoded(mem: Mem)
    requires Accessible(mem, 16)
    ensures DecodeAt(OneByte, mem, 16) == [Insn(16, [mem[16]], 1, "", "")]
  {
    assert Readable(mem, 16, 0) && Readable(mem, 16, 1);
    var buf := Fetched(mem, 16);
    assert buf[0] == FetchedByte(mem, 16, 0) == mem[16];
    assert buf[..1] == [mem[16]];
  }
}
