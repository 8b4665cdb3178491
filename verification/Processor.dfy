/**
  The processor as the debugger sees it through ptrace: a step function over
  registers and memory about which only locality is assumed.
 */
module Processor {
  import opened Integers
  import opened Options
  import opened Memory

  /** `struct user_regs_struct` read as an array of 64-bit words. */
  const REG_COUNT: int := 27
  const RIP: int := 16

  type Regs = r: seq<U64> | |r| == REG_COUNT witness seq(REG_COUNT, _ => 0)

  /** What the kernel holds for a process and will give it: input still to come, open files, the time. */
  type World = seq<int>

  datatype Machine = Machine(regs: Regs, mem: Mem, world: World) {
    function Rip(): U64 {
      regs[RIP]
    }

    function JumpTo(rip: U64): Machine {
      this.(regs := regs[RIP := rip])
    }
  }

  /** What becomes of memory: bytes are unmapped, then stored or newly mapped. */
  datatype Change = Change(unmaps: set<U64>, writes: Mem)

  function Changed(mem: Mem, c: Change): Mem {
    (mem - c.unmaps) + c.writes
  }

  /** What one instruction, or the system call it makes, does: run on, raise a signal, or end the process. */
  datatype Effect =
    | Next(regs: Regs, change: Change, world: World)
    | Signal(regs: Regs, change: Change, world: World)
    | Exit(code: int)

  /**
    `step` is the effect of the instruction at rip, `footprint` the bytes it
    fetches or loads.
   */
  datatype Cpu = Cpu(step: Machine -> Effect, footprint: Machine -> set<U64>)

  function WritesOf(e: Effect): set<U64> {
    if e.Exit? then {} else e.change.writes.Keys
  }

  function UnmapsOf(e: Effect): set<U64> {
    if e.Exit? then {} else e.change.unmaps
  }

  /** The same registers, world and mapping, and the same bytes at `xs`. */
  predicate Alike(m1: Machine, m2: Machine, xs: set<U64>) {
    && m1.regs == m2.regs && m1.world == m2.world && m1.mem.Keys == m2.mem.Keys
    && forall x | x in xs && x in m1.mem :: m1.mem[x] == m2.mem[x]
  }

  /** An instruction depends on registers, world, mapping and its footprint only, and nothing gets mapped at address 0. */
  ghost predicate Local(cpu: Cpu) {
    && (forall m: Machine :: 0 in WritesOf(cpu.step(m)) ==> 0 in m.mem)
    && (forall m1: Machine, m2: Machine :: Alike(m1, m2, cpu.footprint(m1)) ==> cpu.step(m1) == cpu.step(m2))
  }

  datatype Event = Ran(m: Machine) | Trapped(m: Machine) | Gone(code: int)

  predicate AtInt3(m: Machine) {
    m.Rip() in m.mem && m.mem[m.Rip()] == INT3
  }

  /** One step of the processor; the trap instruction leaves rip behind itself. */
  function Step(cpu: Cpu, m: Machine): Event {
    if AtInt3(m) then Trapped(m.JumpTo(Wrap(m.Rip() + 1)))
    else
      match cpu.step(m)
      case Next(r, c, w) => Ran(Machine(r, Changed(m.mem, c), w))
      case Signal(r, c, w) => Trapped(Machine(r, Changed(m.mem, c), w))
      case Exit(c) => Gone(c)
  }

  /** The bytes the instruction at rip fetches, loads, stores or newly maps. */
  function Touches(cpu: Cpu, m: Machine): set<U64> {
    if AtInt3(m) then {} else cpu.footprint(m) + WritesOf(cpu.step(m))
  }

  /** The instruction at rip unmaps no byte of the eight from an address in `bps` on. */
  ghost predicate KeepsWindows(cpu: Cpu, m: Machine, bps: set<U64>) {
    AtInt3(m) || forall x, a | x in UnmapsOf(cpu.step(m)) && a in bps :: !InWindow(a, x)
  }

  /** The instruction at rip does not use the bytes in `bps` and leaves them mapped. */
  ghost predicate Spares(cpu: Cpu, m: Machine, bps: set<U64>) {
    Touches(cpu, m) !! bps && KeepsWindows(cpu, m, bps)
  }

  /** Breakpoints can be patched, and address 0 is not mapped. */
  ghost predicate Ready(mem: Mem, bps: set<U64>) {
    0 !in mem && forall a | a in bps :: Accessible(mem, a)
  }

  // ----- runs -----

  datatype Halt = AtBreak(m: Machine) | Stopped(m: Machine) | Exited(code: int) | Busy

  /** Run until rip is in `stops`, a signal is raised or the process ends. */
  function RunUntil(cpu: Cpu, stops: set<U64>, m: Machine, fuel: nat): Halt
    decreases fuel
  {
    if m.Rip() in stops then AtBreak(m)
    else
      match Step(cpu, m)
      case Ran(m') => if fuel == 0 then Busy else RunUntil(cpu, stops, m', fuel - 1)
      case Trapped(m') => Stopped(m')
      case Gone(c) => Exited(c)
  }

  /** How the run from `m` halts, however long it takes; `Busy` when it never does. */
  ghost function Outcome(cpu: Cpu, stops: set<U64>, m: Machine): Halt {
    if exists n: nat :: RunUntil(cpu, stops, m, n) != Busy then
      var n: nat :| RunUntil(cpu, stops, m, n) != Busy;
      RunUntil(cpu, stops, m, n)
    else Busy
  }

  lemma {:induction false} MoreFuel(cpu: Cpu, stops: set<U64>, m: Machine, n: nat, k: nat)
    requires RunUntil(cpu, stops, m, n) != Busy && n <= k
    ensures RunUntil(cpu, stops, m, k) == RunUntil(cpu, stops, m, n)
    decreases n
  {
    if m.Rip() !in stops {
      match Step(cpu, m)
      case Ran(m') => MoreFuel(cpu, stops, m', n - 1, k - 1);
      case _ =>
    }
  }

  /** The outcome does not depend on the fuel it is observed with. */
  lemma OutcomeIs(cpu: Cpu, stops: set<U64>, m: Machine, n: nat)
    requires RunUntil(cpu, stops, m, n) != Busy
    ensures Outcome(cpu, stops, m) == RunUntil(cpu, stops, m, n)
  {
    var k: nat :| RunUntil(cpu, stops, m, k) != Busy && Outcome(cpu, stops, m) == RunUntil(cpu, stops, m, k);
    MoreFuel(cpu, stops, m, if n < k then n else k, if n < k then k else n);
  }

  /** A run that halts does so within some number of steps. */
  lemma OutcomeFuel(cpu: Cpu, stops: set<U64>, m: Machine) returns (n: nat)
    requires Outcome(cpu, stops, m) != Busy
    ensures RunUntil(cpu, stops, m, n) == Outcome(cpu, stops, m)
  {
    n :| RunUntil(cpu, stops, m, n) != Busy;
    OutcomeIs(cpu, stops, m, n);
  }

  // ----- the run, step by step -----

  /** The machine after exactly `n` uninterrupted steps, if it gets that far. */
  function After(cpu: Cpu, m: Machine, n: nat): Option<Machine>
    decreases n
  {
    if n == 0 then Some(m)
    else
      match Step(cpu, m)
      case Ran(m') => After(cpu, m', n - 1)
      case _ => None
  }

  ghost predicate NoVisitBefore(cpu: Cpu, stops: set<U64>, m: Machine, n: nat) {
    forall j: nat | j < n :: After(cpu, m, j).Some? && After(cpu, m, j).value.Rip() !in stops
  }

  /** How the run ends at `b` itself; `Busy` when it goes on. */
  function EndsAt(cpu: Cpu, stops: set<U64>, b: Machine): Halt {
    if b.Rip() in stops then AtBreak(b)
    else
      match Step(cpu, b)
      case Ran(_) => Busy
      case Trapped(m') => Stopped(m')
      case Gone(c) => Exited(c)
  }

  ghost predicate FirstEnd(cpu: Cpu, stops: set<U64>, m: Machine, h: Halt, k: nat) {
    After(cpu, m, k).Some? && EndsAt(cpu, stops, After(cpu, m, k).value) == h && NoVisitBefore(cpu, stops, m, k)
  }

  /**
    A run halts with `h` exactly when `h` is how the uninterrupted run ends at the
    first machine that is at a stop, raises a signal or exits.
   */
  lemma {:induction false} FirstVisit(cpu: Cpu, stops: set<U64>, m: Machine, h: Halt, n: nat)
    requires h != Busy
    ensures RunUntil(cpu, stops, m, n) == h <==> exists k: nat :: k <= n && FirstEnd(cpu, stops, m, h, k)
    decreases n
  {
    assert After(cpu, m, 0) == Some(m) && NoVisitBefore(cpu, stops, m, 0);
    if EndsAt(cpu, stops, m) != Busy {
      assert RunUntil(cpu, stops, m, n) == EndsAt(cpu, stops, m);
      assert RunUntil(cpu, stops, m, n) == h ==> FirstEnd(cpu, stops, m, h, 0);
      forall k: nat | 0 < k ensures !FirstEnd(cpu, stops, m, h, k) {
        assert NoVisitBefore(cpu, stops, m, k) ==> After(cpu, m, 0).value.Rip() !in stops;
      }
    } else {
      var m' := Step(cpu, m).m;
      forall k: nat | 0 < k
        ensures FirstEnd(cpu, stops, m, h, k) <==> FirstEnd(cpu, stops, m', h, k - 1)
      {
        VisitShift(cpu, stops, m, m', k);
      }
      assert !FirstEnd(cpu, stops, m, h, 0);
      if n > 0 {
        FirstVisit(cpu, stops, m', h, n - 1);
        if RunUntil(cpu, stops, m, n) == h {
          var k: nat :| k <= n - 1 && FirstEnd(cpu, stops, m', h, k);
          assert FirstEnd(cpu, stops, m, h, k + 1);
        }
      }
    }
  }

  /** What `cont` waits for, however long it takes, is the first such machine. */
  lemma OutcomeIsFirstEnd(cpu: Cpu, stops: set<U64>, m: Machine, h: Halt)
    requires h != Busy
    ensures Outcome(cpu, stops, m) == h <==> exists k: nat :: FirstEnd(cpu, stops, m, h, k)
  {
    if Outcome(cpu, stops, m) == h {
      var n := OutcomeFuel(cpu, stops, m);
      FirstVisit(cpu, stops, m, h, n);
    }
    if k: nat :| FirstEnd(cpu, stops, m, h, k) {
      FirstVisit(cpu, stops, m, h, k);
      OutcomeIs(cpu, stops, m, k);
    }
  }

  lemma VisitShift(cpu: Cpu, stops: set<U64>, m: Machine, m': Machine, k: nat)
    requires 0 < k && m.Rip() !in stops && Step(cpu, m) == Ran(m')
    ensures NoVisitBefore(cpu, stops, m, k) <==> NoVisitBefore(cpu, stops, m', k - 1)
  {
    forall j: nat | j < k - 1 ensures After(cpu, m, j + 1) == After(cpu, m', j) {}
    if NoVisitBefore(cpu, stops, m', k - 1) {
      forall j: nat | j < k ensures After(cpu, m, j).Some? && After(cpu, m, j).value.Rip() !in stops {
        if j > 0 {
          assert After(cpu, m, j) == After(cpu, m', j - 1);
        }
      }
    }
  }

  // ----- patched memory -----

  /** Memory with the trap instruction written over every address in `stops`. */
  function Overlay(mem: Mem, stops: set<U64>): (r: Mem)
    ensures r.Keys == mem.Keys
  {
    map x | x in mem :: if x in stops then INT3 else mem[x]
  }

  function Patched(m: Machine, stops: set<U64>): Machine {
    m.(mem := Overlay(m.mem, stops))
  }

  lemma OverlayCommutes(mem: Mem, c: Change, stops: set<U64>)
    requires c.writes.Keys !! stops
    ensures Overlay(Changed(mem, c), stops) == Changed(Overlay(mem, stops), c)
  {
  }

  /** An instruction that leaves the patches alone does not notice them. */
  lemma PatchedStep(cpu: Cpu, m: Machine, stops: set<U64>)
    requires Local(cpu) && m.Rip() !in stops && Touches(cpu, m) !! stops
    ensures Step(cpu, Patched(m, stops)) ==
            match Step(cpu, m)
            case Ran(m') => Ran(Patched(m', stops))
            case Trapped(m') => Trapped(Patched(m', stops))
            case Gone(c) => Gone(c)
  {
    if !AtInt3(m) {
      assert Alike(m, Patched(m, stops), cpu.footprint(m));
      var e := cpu.step(m);
      if !e.Exit? {
        OverlayCommutes(m.mem, e.change, stops);
      }
    }
  }

  /** Every instruction executed before the halt leaves the bytes in `stops` alone. */
  ghost predicate LeavesAlone(cpu: Cpu, stops: set<U64>, m: Machine, fuel: nat)
    decreases fuel
  {
    m.Rip() in stops ||
    (Spares(cpu, m, stops) &&
     match Step(cpu, m)
     case Ran(m') => fuel > 0 ==> LeavesAlone(cpu, stops, m', fuel - 1)
     case _ => true)
  }

  ghost predicate Undisturbed(cpu: Cpu, stops: set<U64>, m: Machine) {
    forall n: nat :: LeavesAlone(cpu, stops, m, n)
  }

  /** The halt of the patched process, from the halt of the unpatched one. */
  function PatchedHalt(h: Halt, stops: set<U64>): Halt {
    match h
    case AtBreak(b) => Stopped(Patched(b, stops).JumpTo(Wrap(b.Rip() + 1)))
    case Stopped(b) => Stopped(Patched(b, stops))
    case Exited(c) => Exited(c)
    case Busy => Busy
  }

  /**
    Simulation: resuming the patched process stops it exactly where the unpatched
    run first visits a patched address, one byte further on.
   */
  lemma {:induction false} PatchedRun(cpu: Cpu, stops: set<U64>, m: Machine, n: nat)
    requires Local(cpu) && Ready(m.mem, stops) && LeavesAlone(cpu, stops, m, n)
    ensures RunUntil(cpu, {}, Patched(m, stops), n) == PatchedHalt(RunUntil(cpu, stops, m, n), stops)
    decreases n
  {
    hide Step, Local, Ready, Spares;
    if m.Rip() in stops {
      TrapAtBreakpoint(cpu, m, stops);
    } else {
      SparesTouches(cpu, m, stops);
      PatchedStep(cpu, m, stops);
      match Step(cpu, m)
      case Ran(m') =>
        if n > 0 {
          StepKeepsReady(cpu, m, stops);
          PatchedRun(cpu, stops, m', n - 1);
        }
      case _ =>
    }
  }

  lemma SparesTouches(cpu: Cpu, m: Machine, stops: set<U64>)
    requires Spares(cpu, m, stops)
    ensures Touches(cpu, m) !! stops
  {
  }

  /** A patched breakpoint is a trap, whatever instruction is there. */
  lemma TrapAtBreakpoint(cpu: Cpu, m: Machine, bps: set<U64>)
    requires m.Rip() in bps && Ready(m.mem, bps)
    ensures Step(cpu, Patched(m, bps)) == Trapped(Patched(m.JumpTo(Wrap(m.Rip() + 1)), bps))
  {
    assert Accessible(m.mem, m.Rip());
  }

  lemma PatchedOutcome(cpu: Cpu, stops: set<U64>, m: Machine)
    requires Local(cpu) && Ready(m.mem, stops)
    requires Outcome(cpu, stops, m) != Busy && Undisturbed(cpu, stops, m)
    ensures Outcome(cpu, {}, Patched(m, stops)) == PatchedHalt(Outcome(cpu, stops, m), stops)
  {
    var n := OutcomeFuel(cpu, stops, m);
    PatchedRun(cpu, stops, m, n);
    OutcomeIs(cpu, {}, Patched(m, stops), n);
  }

  /** The bytes at `xs` are mapped as before and unchanged. */
  ghost predicate SameAt(mem1: Mem, mem2: Mem, xs: set<U64>) {
    forall x | x in xs && x in mem1 :: x in mem2 && mem2[x] == mem1[x]
  }

  lemma SameAtTrans(mem1: Mem, mem2: Mem, mem3: Mem, xs: set<U64>)
    requires SameAt(mem1, mem2, xs) && SameAt(mem2, mem3, xs)
    ensures SameAt(mem1, mem3, xs)
  {
  }

  /** Such a run leaves breakpoints mapped, and the native bytes under the patches as they were. */
  lemma {:induction false} RunKeepsSavedBytes(cpu: Cpu, stops: set<U64>, m: Machine, n: nat)
    requires Local(cpu) && Ready(m.mem, stops) && LeavesAlone(cpu, stops, m, n)
    ensures var h := RunUntil(cpu, stops, m, n);
            && (h.AtBreak? || h.Stopped? ==> SameAt(m.mem, h.m.mem, stops) && Ready(h.m.mem, stops))
            && (h.AtBreak? ==> h.m.Rip() in stops)
    decreases n
  {
    hide Step, Local, Ready, Spares, SameAt;
    if m.Rip() in stops {
      SameAtSelf(m.mem, stops);
    } else {
      if !Step(cpu, m).Gone? {
        StepKeepsReady(cpu, m, stops);
      }
      match Step(cpu, m)
      case Ran(m') =>
        if n > 0 {
          RunKeepsSavedBytes(cpu, stops, m', n - 1);
          var h := RunUntil(cpu, stops, m', n - 1);
          if h.AtBreak? || h.Stopped? {
            SameAtTrans(m.mem, m'.mem, h.m.mem, stops);
          }
        }
      case _ =>
    }
  }

  lemma SameAtSelf(mem: Mem, xs: set<U64>)
    ensures SameAt(mem, mem, xs)
  {
  }

  lemma StepKeepsReady(cpu: Cpu, m: Machine, bps: set<U64>)
    requires Local(cpu) && Ready(m.mem, bps) && Spares(cpu, m, bps) && !Step(cpu, m).Gone?
    ensures var m' := Step(cpu, m).m;
            SameAt(m.mem, m'.mem, bps) && Ready(m'.mem, bps)
  {
    if !AtInt3(m) {
      var m' := Step(cpu, m).m;
      assert 0 !in WritesOf(cpu.step(m));
      forall a | a in bps ensures Accessible(m'.mem, a) && a in m'.mem && m'.mem[a] == m.mem[a] {
        assert Accessible(m.mem, a);
        forall x: U64 | a <= x < a + 8 ensures x in m'.mem {
          assert x in UnmapsOf(cpu.step(m)) ==> !InWindow(a, x);
        }
        assert InWindow(a, a);
      }
    }
  }
}
