/**
  What a debugging session means for the program being debugged: when each command
  is transparent, and what holds for whole sessions.
 */
module Transparency {
  import opened Integers
  import opened Options
  import opened Memory
  import opened Processor
  import opened Disassembly
  import opened NativeSession

  // ----- single commands against an ideal debugger -----

  /** What a debugger should make of a halt: report any breakpoint reached, and nothing else. */
  function IdealLand(s: Session, h: Halt): Session {
    match h
    case AtBreak(b) => Report(s, b, b.Rip())
    case Stopped(b) => s.(process := Alive(b))
    case _ => Land(s, h)
  }

  /** A signal that leaves rip one past a breakpoint on an instruction start looks like a hit. */
  predicate LooksLikeHit(s: Session, b: Machine) {
    var prev := Wrap(b.Rip() - 1);
    prev in s.bps && IsStart(s.insns, prev)
  }

  /** `cont` lands as it should exactly when the breakpoint starts a cached instruction and no signal looks like a hit. */
  lemma LandIsIdeal(s: Session, h: Halt)
    ensures Land(s, h) == IdealLand(s, h) <==>
            && (h.AtBreak? ==> IsStart(s.insns, h.m.Rip()))
            && (h.Stopped? ==> !LooksLikeHit(s, h.m))
  {
  }

  /** No store of the instruction at rip into the window of `a` changes a byte. */
  predicate NoLostStores(cpu: Cpu, m: Machine, a: U64) {
    AtInt3(m) ||
    var e := cpu.step(m);
    e.Exit? || forall x | x in e.change.writes && x in m.mem && InWindow(a, x) :: e.change.writes[x] == m.mem[x]
  }

  /** The step over a breakpoint is the native step exactly when no store into its window is lost. */
  lemma StepOverIsNative(cpu: Cpu, m: Machine, a: U64)
    ensures NoLostStores(cpu, m, a) <==>
            match Step(cpu, m)
            case Gone(_) => true
            case e => StepOver(cpu, m, a) == Ran(e.m)
  {
    if !AtInt3(m) {
      var e := cpu.step(m);
      if !e.Exit? {
        var after := Changed(m.mem, e.change);
        if NoLostStores(cpu, m, a) {
          assert PutBack(m.mem, after, a) == after;
        } else {
          var x :| x in e.change.writes && x in m.mem && InWindow(a, x) && e.change.writes[x] != m.mem[x];
          assert PutBack(m.mem, after, a)[x] != after[x];
        }
      }
    } else {
      assert PutBack(m.mem, m.mem, a) == m.mem;
    }
  }

  /** The instruction at rip does nothing but move rip on by one byte. */
  predicate OneByteNop(cpu: Cpu, m: Machine) {
    Step(cpu, m) == Ran(m.JumpTo(Wrap(m.Rip() + 1))) || Step(cpu, m) == Trapped(m.JumpTo(Wrap(m.Rip() + 1)))
  }

  /** `si` without the patches. */
  function IdealSi(cpu: Cpu, s: Session): Session
    requires s.process.Alive?
  {
    match Step(cpu, s.process.m)
    case Ran(m') => s.(process := Alive(m'))
    case Trapped(m') => s.(process := Alive(m'))
    case Gone(_) => s.(process := Dead)
  }

  /** `si` runs one instruction of the program exactly when rip is not at a breakpoint, a one-byte no-op aside. */
  lemma SiIsNative(cpu: Cpu, s: Session)
    requires Inv(s) && s.process.Alive?
    ensures SiSpec(cpu, s) == IdealSi(cpu, s) <==> s.process.m.Rip() !in s.bps || OneByteNop(cpu, s.process.m)
  {
  }

  /** After a reported hit `si` runs no instruction: it takes the trap and leaves rip inside or past the instruction. */
  lemma SiAfterHit(cpu: Cpu, s: Session, h: Halt)
    requires Inv(s) && s.process.Alive? && h.AtBreak? && h.m.Rip() in s.bps && IsStart(s.insns, h.m.Rip())
    ensures SiSpec(cpu, Land(s, h)).process == Alive(h.m.JumpTo(Wrap(h.m.Rip() + 1)))
  {
  }

  // ----- cont and the uninterrupted run -----

  /** Where `cont` starts the child from, and with what in the slot. */
  function Launch(cpu: Cpu, s: Session): Session
    requires s.process.Alive?
  {
    var m := s.process.m;
    if m.Rip() == s.slot && StepOver(cpu, m, s.slot).Ran? then
      s.(slot := 0, process := Alive(StepOver(cpu, m, s.slot).m))
    else s
  }

  /**
    First visit: `cont` lands on `h` (a breakpoint address, a signal or exit) if that is
    how the uninterrupted run from the launch point first ends, after any number of steps.
   */
  lemma ContStopsAtFirstVisit(cpu: Cpu, s: Session, h: Halt, k: nat)
    requires s.life.Running? && s.process.Alive? && h != Busy
    requires s.process.m.Rip() == s.slot ==> s.slot != 0 && StepOver(cpu, s.process.m, s.slot).Ran?
    requires FirstEnd(cpu, AddrSet(s.bps), Launch(cpu, s).process.m, h, k)
    ensures ContSpec(cpu, s) == Land(Launch(cpu, s), h)
  {
    OutcomeIsFirstEnd(cpu, AddrSet(s.bps), Launch(cpu, s).process.m, h);
  }

  // ----- sessions against an undebugged machine -----

  /** What happens to an undebugged machine: it runs one instruction, or a register is edited. */
  datatype Act = Tick | Edit(off: nat, val: U64)

  function Replay(cpu: Cpu, m: Machine, acts: seq<Act>): Option<Machine>
    decreases |acts|
  {
    if acts == [] then Some(m)
    else
      match acts[0]
      case Tick =>
        (match Step(cpu, m)
         case Gone(_) => None
         case e => Replay(cpu, e.m, acts[1..]))
      case Edit(off, val) =>
        if off < REG_COUNT then Replay(cpu, m.(regs := m.regs[off := val]), acts[1..]) else None
  }

  function EditsIn(acts: seq<Act>): seq<Act> {
    if acts == [] then []
    else (if acts[0].Edit? then [acts[0]] else []) + EditsIn(acts[1..])
  }

  /** The register edit a command asks for, if any. */
  function EditOf(c: Command): seq<Act> {
    match c
    case Set(reg, val) => if reg in RegOffsets() then [Edit(RegOffsets()[reg], Wrap(val))] else []
    case _ => []
  }

  function EditsOf(cmds: seq<Command>): seq<Act> {
    if cmds == [] then [] else EditOf(cmds[0]) + EditsOf(cmds[1..])
  }

  function Ticks(n: nat): (r: seq<Act>)
    ensures |r| == n
  {
    if n == 0 then [] else [Tick] + Ticks(n - 1)
  }

  lemma {:induction false} TicksReplay(cpu: Cpu, m: Machine, n: nat)
    requires After(cpu, m, n).Some?
    ensures Replay(cpu, m, Ticks(n)) == After(cpu, m, n) && EditsIn(Ticks(n)) == []
    decreases n
  {
    if n > 0 {
      assert Ticks(n)[1..] == Ticks(n - 1);
      TicksReplay(cpu, Step(cpu, m).m, n - 1);
    }
  }

  lemma {:induction false} ReplayAppend(cpu: Cpu, m: Machine, as1: seq<Act>, as2: seq<Act>)
    requires Replay(cpu, m, as1).Some?
    ensures Replay(cpu, m, as1 + as2) == Replay(cpu, Replay(cpu, m, as1).value, as2)
    ensures EditsIn(as1 + as2) == EditsIn(as1) + EditsIn(as2)
    decreases |as1|
  {
    hide Step;
    if as1 == [] {
      assert as1 + as2 == as2;
    } else {
      assert (as1 + as2)[1..] == as1[1..] + as2;
      match as1[0]
      case Tick => ReplayAppend(cpu, Step(cpu, m).m, as1[1..], as2);
      case Edit(off, val) => ReplayAppend(cpu, m.(regs := m.regs[off := val]), as1[1..], as2);
    }
  }

  /** `m'` comes from `m` by native steps and exactly the register edits `edits`, in order. */
  ghost predicate Reaches(cpu: Cpu, m: Machine, m': Machine, edits: seq<Act>) {
    exists acts :: Replay(cpu, m, acts) == Some(m') && EditsIn(acts) == edits
  }

  lemma ReachesBy(cpu: Cpu, m: Machine, m': Machine, acts: seq<Act>)
    requires Replay(cpu, m, acts) == Some(m')
    ensures Reaches(cpu, m, m', EditsIn(acts))
  {
  }

  lemma ReachesTrans(cpu: Cpu, m1: Machine, m2: Machine, m3: Machine, e1: seq<Act>, e2: seq<Act>)
    requires Reaches(cpu, m1, m2, e1) && Reaches(cpu, m2, m3, e2)
    ensures Reaches(cpu, m1, m3, e1 + e2)
  {
    var a1 :| Replay(cpu, m1, a1) == Some(m2) && EditsIn(a1) == e1;
    var a2 :| Replay(cpu, m2, a2) == Some(m3) && EditsIn(a2) == e2;
    ReplayAppend(cpu, m1, a1, a2);
    ReachesBy(cpu, m1, m3, a1 + a2);
  }

  lemma ReachesSelf(cpu: Cpu, m: Machine)
    ensures Reaches(cpu, m, m, [])
  {
    ReachesBy(cpu, m, m, []);
  }

  lemma ReachesTick(cpu: Cpu, m: Machine)
    requires !Step(cpu, m).Gone?
    ensures Reaches(cpu, m, Step(cpu, m).m, [])
  {
    assert Ticks(1) == [Tick];
    assert Replay(cpu, Step(cpu, m).m, [Tick][1..]) == Some(Step(cpu, m).m);
    ReachesBy(cpu, m, Step(cpu, m).m, [Tick]);
  }

  lemma ReachesEdit(cpu: Cpu, m: Machine, off: nat, val: U64)
    requires off < REG_COUNT
    ensures Reaches(cpu, m, m.(regs := m.regs[off := val]), [Edit(off, val)])
  {
    var acts := [Edit(off, val)];
    assert acts[1..] == [] && EditsIn(acts) == acts;
    ReachesBy(cpu, m, m.(regs := m.regs[off := val]), acts);
  }

  /** By native steps and the edits `edits` the machine comes to an instruction that ends the process. */
  ghost predicate Exits(cpu: Cpu, m: Machine, edits: seq<Act>) {
    exists b :: Reaches(cpu, m, b, edits) && Step(cpu, b).Gone?
  }

  lemma ExitsAfter(cpu: Cpu, m1: Machine, m2: Machine, edits: seq<Act>)
    requires Reaches(cpu, m1, m2, edits) && Exits(cpu, m2, [])
    ensures Exits(cpu, m1, edits)
  {
    var b :| Reaches(cpu, m2, b, []) && Step(cpu, b).Gone?;
    ReachesTrans(cpu, m1, m2, b, edits, []);
    assert edits + [] == edits;
  }

  /** The run to a halt is made of native steps. */
  lemma ReachesHalt(cpu: Cpu, stops: set<U64>, m: Machine)
    ensures var h := Outcome(cpu, stops, m);
            && (h.AtBreak? || h.Stopped? ==> Reaches(cpu, m, h.m, []))
            && (h.AtBreak? ==> h.m.Rip() in stops)
            && (h.Exited? ==> Exits(cpu, m, []))
  {
    var h := Outcome(cpu, stops, m);
    if h != Busy {
      OutcomeIsFirstEnd(cpu, stops, m, h);
      var k: nat :| FirstEnd(cpu, stops, m, h, k);
      TicksReplay(cpu, m, k);
      var b := After(cpu, m, k).value;
      ReachesBy(cpu, m, b, Ticks(k));
      assert Reaches(cpu, m, b, []);
      if h.Stopped? {
        assert Step(cpu, b) == Trapped(h.m);
        ReachesTick(cpu, b);
        ReachesTrans(cpu, m, b, h.m, [], []);
      }
    }
  }

  ghost predicate BpsAreStarts(s: Session) {
    forall a | a in s.bps :: IsStart(s.insns, a)
  }

  ghost predicate ContClean(cpu: Cpu, s: Session)
    requires s.process.Alive?
  {
    && (s.process.m.Rip() == s.slot ==> NoLostStores(cpu, s.process.m, s.slot))
    && var h := Outcome(cpu, AddrSet(s.bps), Launch(cpu, s).process.m);
       h.Stopped? ==> !LooksLikeHit(s, h.m)
  }

  /** The uses of the debugger that the code gets right. */
  ghost predicate Clean(env: Env, s: Session, c: Command)
    requires s.process.Alive?
  {
    match c
    case Break(a) => IsStart(s.insns, a)
    case Cont => ContClean(env.cpu, s)
    case Run(_) => ContClean(env.cpu, s)
    case Si => s.process.m.Rip() !in s.bps
    case _ => true
  }

  /** The child lives and the debugger runs before and after every command, and every command is clean. */
  ghost predicate CleanSession(env: Env, s: Session, cmds: seq<Command>)
    decreases |cmds|
  {
    && s.process.Alive? && !s.quit
    && (cmds == [] || (Tame(env, s, cmds[0]) && Clean(env, s, cmds[0]) && CleanSession(env, Exec(env, s, cmds[0]), cmds[1..])))
  }

  lemma ContTransparent(env: Env, s: Session)
    requires Local(env.cpu) && Inv(s) && BpsAreStarts(s) && s.process.Alive? && !s.quit
    requires ContTame(env.cpu, s) && ContClean(env.cpu, s)
    ensures var s' := ContSpec(env.cpu, s);
            && (s'.process.Alive? && !s'.quit ==> Reaches(env.cpu, s.process.m, s'.process.m, []) && BpsAreStarts(s'))
            && (!s'.process.Alive? ==> Exits(env.cpu, s.process.m, []))
  {
    var cpu, m, bps := env.cpu, s.process.m, AddrSet(s.bps);
    var l := Launch(cpu, s);
    ReachesSelf(cpu, m);
    if m.Rip() == s.slot && s.slot != 0 {
      StepOverIsNative(cpu, m, s.slot);
      if l != s {
        ReachesTick(cpu, m);
      }
    }
    if m.Rip() != s.slot || (s.slot != 0 && StepOver(cpu, m, s.slot).Ran?) {
      var h := Outcome(cpu, bps, l.process.m);
      ReachesHalt(cpu, bps, l.process.m);
      LandIsIdeal(l, h);
      if h.AtBreak? || h.Stopped? {
        ReachesTrans(cpu, m, l.process.m, h.m, [], []);
      } else if h.Exited? {
        ExitsAfter(cpu, m, l.process.m, []);
      }
    }
  }

  lemma CommandTransparent(env: Env, s: Session, c: Command)
    requires Local(env.cpu) && Inv(s) && BpsAreStarts(s) && s.process.Alive? && !s.quit
    requires Tame(env, s, c) && Clean(env, s, c)
    requires Exec(env, s, c).process.Alive? && !Exec(env, s, c).quit
    ensures Reaches(env.cpu, s.process.m, Exec(env, s, c).process.m, EditOf(c))
    ensures BpsAreStarts(Exec(env, s, c))
  {
    hide Reaches, ContSpec, ContTame, ContClean, Inv, Local, Step;
    InvMeans(s);
    ReachesSelf(env.cpu, s.process.m);
    match c
    case Cont => ContTransparent(env, s);
    case Run(image) => ContTransparent(env, s);
    case Set(reg, val) =>
      if reg in RegOffsets() {
        ReachesEdit(env.cpu, s.process.m, RegOffsets()[reg], Wrap(val));
      }
    case Si => ReachesTick(env.cpu, s.process.m);
    case _ =>
  }

  /** A clean command that leaves no live child found the program about to exit. */
  lemma CommandExits(env: Env, s: Session, c: Command)
    requires Local(env.cpu) && Inv(s) && BpsAreStarts(s) && s.process.Alive? && !s.quit
    requires Tame(env, s, c) && Clean(env, s, c)
    requires !Exec(env, s, c).process.Alive?
    ensures Exits(env.cpu, s.process.m, []) && EditOf(c) == []
  {
    hide Reaches, Exits, ContSpec, ContTame, ContClean, Inv, Local, Step, BpsAreStarts;
    InvMeans(s);
    match c
    case Cont => ContTransparent(env, s);
    case Run(image) => ContTransparent(env, s);
    case Si =>
      ReachesSelf(env.cpu, s.process.m);
      ExitsHere(env.cpu, s.process.m);
    case _ =>
  }

  lemma ExitsHere(cpu: Cpu, m: Machine)
    requires Step(cpu, m).Gone?
    ensures Exits(cpu, m, [])
  {
    ReachesSelf(cpu, m);
  }

  /**
    Session transparency: after any clean session the registers and the unpatched
    memory are those of an undebugged machine after native steps and exactly the
    session's register edits, in order.
   */
  lemma {:induction false} SessionTransparent(env: Env, s: Session, cmds: seq<Command>)
    requires Local(env.cpu) && Inv(s) && BpsAreStarts(s) && CleanSession(env, s, cmds)
    ensures AllTame(env, s, cmds) && ExecAll(env, s, cmds).process.Alive? && !ExecAll(env, s, cmds).quit
    ensures Reaches(env.cpu, s.process.m, ExecAll(env, s, cmds).process.m, EditsOf(cmds))
    ensures BpsAreStarts(ExecAll(env, s, cmds))
    decreases |cmds|
  {
    if cmds == [] {
      ReachesSelf(env.cpu, s.process.m);
    } else {
      var c, s' := cmds[0], Exec(env, s, cmds[0]);
      CommandTransparent(env, s, c);
      ExecKeepsInv(env, s, c);
      SessionTransparent(env, s', cmds[1..]);
      ReachesTrans(env.cpu, s.process.m, s'.process.m, ExecAll(env, s', cmds[1..]).process.m, EditOf(c), EditsOf(cmds[1..]));
    }
  }

  /** A clean session that ends because its last command leaves no live child ends where the undebugged machine exits. */
  lemma SessionExits(env: Env, s: Session, cmds: seq<Command>, last: Command)
    requires Local(env.cpu) && Inv(s) && BpsAreStarts(s) && CleanSession(env, s, cmds)
    requires var t := ExecAll(env, s, cmds);
             Tame(env, t, last) && (t.process.Alive? ==> Clean(env, t, last)) && !Exec(env, t, last).process.Alive?
    ensures Exits(env.cpu, s.process.m, EditsOf(cmds))
  {
    hide Exec, Inv, Local, Clean, Tame, Exits, Reaches;
    var t := ExecAll(env, s, cmds);
    SessionTransparent(env, s, cmds);
    SessionKeepsInv(env, s, cmds);
    CommandExits(env, t, last);
    ExitsAfter(env.cpu, s.process.m, t.process.m, EditsOf(cmds));
  }
}
