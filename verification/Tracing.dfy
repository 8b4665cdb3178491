/**
  The traced child and the ptrace requests the debugger makes of it.
 */
module Tracing {
  import opened Integers
  import opened Memory
  import opened Processor

  /** What `waitpid` reports. */
  datatype WaitStatus = WifStopped | WifExited(code: int)

  class Tracee {
    const cpu: Cpu
    var alive: bool
    var regs: Regs
    var mem: Mem
    var world: World

    constructor (cpu: Cpu, image: Machine)
      ensures this.cpu == cpu && alive && regs == image.regs && mem == image.mem && world == image.world
    {
      this.cpu := cpu;
      alive, regs, mem, world := true, image.regs, image.mem, image.world;
    }

    /** PTRACE_PEEKTEXT. */
    method Peek(addr: U64) returns (code: Word, ok: bool)
      ensures ok <==> alive && Accessible(mem, addr)
      ensures code == if ok then PeekWord(mem, addr) else PEEK_FAILED
    {
      ok := alive && Accessible(mem, addr);
      code := if ok then PeekWord(mem, addr) else PEEK_FAILED;
    }

    /** A peeked word, read through a `char` pointer. */
    method PeekBytes(addr: U64) returns (bytes: seq<Byte>, ok: bool)
      ensures ok <==> alive && Accessible(mem, addr)
      ensures bytes == if ok then WordBytes(mem, addr) else seq(8, _ => 0xff)
    {
      var code;
      code, ok := Peek(addr);
      if ok {
        BytesOfPeek(mem, addr);
      }
      bytes := BytesOf(code);
    }

    /** PTRACE_POKETEXT. */
    method Poke(addr: U64, code: Word) returns (ok: bool)
      modifies this`mem
      ensures ok <==> alive && Accessible(old(mem), addr)
      ensures mem == if ok then PokeWord(old(mem), addr, code) else old(mem)
    {
      ok := alive && Accessible(mem, addr);
      if ok {
        mem := PokeWord(mem, addr, code);
      }
    }

    /** Peek the word at `addr`, replace its low byte, poke it back. */
    method PatchByte(addr: U64, b: Byte) returns (ok: bool)
      modifies this`mem
      ensures ok <==> alive && Accessible(old(mem), addr)
      ensures mem == if ok then old(mem)[addr := b] else old(mem)
    {
      var code, peeked := Peek(addr);
      if peeked {
        PatchOneByte(mem, addr, b);
      }
      ok := Poke(addr, WithLowByte(code, b));
    }

    /** PTRACE_GETREGS. */
    method GetRegs() returns (r: Regs, ok: bool)
      ensures ok <==> alive
      ensures r == regs
    {
      r, ok := regs, alive;
    }

    /** PTRACE_SETREGS. */
    method SetRegs(r: Regs) returns (ok: bool)
      modifies this`regs
      ensures ok <==> alive
      ensures regs == if ok then r else old(regs)
    {
      ok := alive;
      if ok {
        regs := r;
      }
    }

    /** PTRACE_SINGLESTEP and the `waitpid` after it. */
    method SingleStep() returns (status: WaitStatus, ok: bool)
      modifies this
      ensures ok <==> old(alive)
      ensures !ok ==> !alive && regs == old(regs) && mem == old(mem) && world == old(world)
      ensures ok ==>
                match Step(cpu, old(Machine(regs, mem, world)))
                case Ran(m) => alive && Machine(regs, mem, world) == m && status.WifStopped?
                case Trapped(m) => alive && Machine(regs, mem, world) == m && status.WifStopped?
                case Gone(c) => !alive && regs == old(regs) && mem == old(mem) && world == old(world) && status == WifExited(c)
    {
      ok, status := alive, WifStopped;
      if ok {
        match Step(cpu, Machine(regs, mem, world))
        case Ran(m) => regs, mem, world := m.regs, m.mem, m.world;
        case Trapped(m) => regs, mem, world := m.regs, m.mem, m.world;
        case Gone(c) => alive, status := false, WifExited(c);
      }
    }

    /** PTRACE_CONT and the `waitpid` after it; `waitpid` returns only if the child halts. */
    method Continue() returns (status: WaitStatus)
      requires alive && Outcome(cpu, {}, Machine(regs, mem, world)) != Busy
      modifies this
      ensures match Outcome(cpu, {}, old(Machine(regs, mem, world)))
              case AtBreak(_) => false
              case Stopped(m) => alive && Machine(regs, mem, world) == m && status.WifStopped?
              case Exited(c) => !alive && status == WifExited(c)
              case Busy => false
    {
      ghost var m0 := Machine(regs, mem, world);
      ghost var fuel := OutcomeFuel(cpu, {}, m0);
      while true
        invariant alive
        invariant RunUntil(cpu, {}, Machine(regs, mem, world), fuel) == Outcome(cpu, {}, m0) != Busy
        decreases fuel
      {
        match Step(cpu, Machine(regs, mem, world))
        case Ran(m) =>
          regs, mem, world := m.regs, m.mem, m.world;
          fuel := fuel - 1;
        case Trapped(m) =>
          regs, mem, world := m.regs, m.mem, m.world;
          return WifStopped;
        case Gone(c) =>
          alive := false;
          return WifExited(c);
      }
    }
  }
}
