/**
  What each command does to each part of a session, told part by part: which states it
  needs, what it changes, what it leaves alone, and when it ends the debugger.
 */
module CommandEffects {
  import opened Integers
  import opened Options
  import opened Memory
  import opened Processor
  import opened Disassembly
  import opened NativeSession
  import opened Transparency

  // ----- commands without effect -----

  /** `disasm`, `dump` and `list` change nothing, `get` and `getregs` nothing while the child lives. */
  lemma LookingChangesNothing(env: Env, s: Session, c: Command)
    requires c.Disasm? || c.Dump? || c.List? || ((c.Get? || c.GetRegs?) && s.process.Alive?)
    ensures Exec(env, s, c) == s
  {
  }

  /** Without a running program these commands change nothing. */
  lemma NeedsRunning(env: Env, s: Session, c: Command)
    requires Inv(s) && !s.life.Running?
    requires c.Break? || c.Cont? || c.Delete? || c.Get? || c.GetRegs? || c.Set? || c.Si?
    ensures Exec(env, s, c) == s
  {
  }

  /** `load` needs that nothing is loaded, `start` that something is loaded and not running, `run` that something is loaded. */
  lemma NeedsItsState(env: Env, s: Session, c: Command)
    requires (c.Load? && !s.life.NoLoad?) || (c.Start? && !s.life.Loaded?) || (c.Run? && s.life.NoLoad?)
    ensures Exec(env, s, c) == s
  {
  }

  // ----- load and start -----

  lemma LoadEffect(env: Env, s: Session, path: string, entry: U64, size: U64)
    requires Inv(s) && !s.quit && s.life.NoLoad?
    ensures var s' := Exec(env, s, Load(path, entry, size));
            && s'.life.Loaded? && s'.path == path && s'.entry == entry && s'.size == size
            && s'.process.Absent? && s'.bps == []
            && s'.slot == s.slot && s'.insns == s.insns && s'.hits == s.hits && !s'.quit
  {
  }

  /** A started child is the image that exec made, and nothing but state, child and cache changes. */
  lemma StartEffect(env: Env, s: Session, image: Machine)
    requires Inv(s) && !s.quit && s.life.Loaded?
    ensures var s' := Exec(env, s, Start(image));
            && s'.life.Running? && s'.process.Alive?
            && s'.process.m.regs == image.regs && s'.process.m.mem == image.mem && s'.process.m.world == image.world
            && s'.insns == s.insns + SweepOf(env.decode, Text(image.mem, s.entry, (s.entry + s.size) % TWO_TO_THE_64))
            && s'.(life := s.life, process := s.process, insns := s.insns) == s
  {
  }

  // ----- break and delete -----

  ghost predicate Readable(s: Session, a: U64) {
    s.process.Alive? && Accessible(s.process.m.mem, a)
  }

  /**
    `break` puts every new address behind the older ones, changes nothing for a known one,
    and ends the debugger exactly if a new one cannot be read.
   */
  lemma BreakEffect(env: Env, s: Session, a: U64)
    requires !s.quit && s.life.Running?
    ensures var s' := Exec(env, s, Break(a));
            && s'.(bps := s.bps, quit := false) == s
            && (s'.bps == s.bps <==> a in s.bps)
            && (a !in s.bps ==> |s'.bps| == |s.bps| + 1 && s'.bps[|s.bps|] == a && forall j :: 0 <= j < |s.bps| ==> s'.bps[j] == s.bps[j])
            && (s'.quit <==> a !in s.bps && !Readable(s, a))
  {
    var s' := Exec(env, s, Break(a));
    assert a !in s.bps ==> s'.bps == s.bps + [a];
  }

  /**
    `delete` takes out the address at a valid index, moves later ones down by one, and
    empties the slot exactly if it named that address; a dead child keeps the table and
    ends the debugger.
   */
  lemma DeleteEffect(env: Env, s: Session, idx: int)
    requires !s.quit
    ensures var s' := Exec(env, s, Delete(idx));
            && (!(0 <= idx < |s.bps|) ==> s' == s)
            && (0 <= idx < |s.bps| ==>
                  && s'.slot == (if s.slot == s.bps[idx] then 0 else s.slot)
                  && s'.(bps := s.bps, slot := s.slot, quit := false) == s
                  && (s'.quit <==> !s.process.Alive?)
                  && (s'.quit ==> s'.bps == s.bps)
                  && (!s'.quit ==>
                        && |s'.bps| == |s.bps| - 1
                        && (forall j :: 0 <= j < idx ==> s'.bps[j] == s.bps[j])
                        && (forall j :: idx <= j < |s'.bps| ==> s'.bps[j] == s.bps[j + 1])))
  {
  }

  lemma DeletedIsGone(env: Env, s: Session, idx: int)
    requires Inv(s) && !s.quit && s.process.Alive? && 0 <= idx < |s.bps|
    ensures forall a :: a in Exec(env, s, Delete(idx)).bps <==> a in s.bps && a != s.bps[idx]
  {
    DeleteEffect(env, s, idx);
    var s' := Exec(env, s, Delete(idx));
    InvMeans(s);
    forall a | a in s.bps && a != s.bps[idx] ensures a in s'.bps {
      var i :| 0 <= i < |s.bps| && s.bps[i] == a;
      assert s'.bps[if i < idx then i else i - 1] == a;
    }
  }

  // ----- registers -----

  /** `struct user_regs_struct`, word by word; `flags` is its eflags. */
  const USER_REGS: seq<string> := [
    "r15", "r14", "r13", "r12", "rbp", "rbx", "r11", "r10", "r9", "r8", "rax", "rcx", "rdx", "rsi", "rdi",
    "orig_rax", "rip", "cs", "flags", "rsp", "ss", "fs_base", "gs_base", "ds", "es", "fs", "gs"]

  /** The words of the structure that have no name in the debugger. */
  const UNNAMED: set<string> := {"orig_rax", "cs", "ss", "fs_base", "gs_base", "ds", "es", "fs", "gs"}

  /** Each name stands for the word of that name in the structure. */
  lemma OffsetsFollowStruct(i: nat)
    requires i < |USER_REGS|
    ensures |USER_REGS| == REG_COUNT
    ensures USER_REGS[i] in RegOffsets() <==> USER_REGS[i] !in UNNAMED
    ensures USER_REGS[i] in RegOffsets() ==> RegOffsets()[USER_REGS[i]] == i
  {
  }

  /** `set` writes one word of the register structure, and nothing else of child or debugger changes. */
  lemma SetEffect(env: Env, s: Session, i: nat, val: int)
    requires !s.quit && s.life.Running? && s.process.Alive? && i < |USER_REGS| && USER_REGS[i] !in UNNAMED
    ensures var s' := Exec(env, s, Set(USER_REGS[i], val));
            && s'.process.Alive? && s'.(process := s.process) == s
            && s'.process.m.mem == s.process.m.mem && s'.process.m.world == s.process.m.world
            && forall k :: 0 <= k < REG_COUNT ==>
                 s'.process.m.regs[k] == if k == i then val % TWO_TO_THE_64 else s.process.m.regs[k]
  {
    OffsetsFollowStruct(i);
  }

  /** `set` with any other name changes nothing while the child lives. */
  lemma SetUnknown(env: Env, s: Session, reg: string, val: int)
    requires s.process.Alive? && (reg !in USER_REGS || reg in UNNAMED)
    ensures Exec(env, s, Set(reg, val)) == s
  {
    if reg in RegOffsets() {
      NamedInStruct(reg);
    }
  }

  lemma NamedInStruct(reg: string)
    requires reg in RegOffsets()
    ensures RegOffsets()[reg] < |USER_REGS| && USER_REGS[RegOffsets()[reg]] == reg && reg !in UNNAMED
  {
  }

  /** `get` shows the word of that name, and nothing for a name without one. */
  lemma GetShowsWord(regs: Regs, i: nat)
    requires i < |USER_REGS|
    ensures RegValue(regs, USER_REGS[i]) == if USER_REGS[i] in UNNAMED then None else Some(regs[i])
  {
    OffsetsFollowStruct(i);
  }

  // ----- si and cont -----

  /** `si` off a breakpoint lets the child do one instruction, a trap or signal included, or exit; at one it moves rip on by a byte. */
  lemma SiEffect(env: Env, s: Session)
    requires Inv(s) && !s.quit && s.process.Alive?
    ensures var m, s' := s.process.m, Exec(env, s, Si);
            && s'.(process := s.process) == s
            && (m.Rip() in s.bps ==> s'.process == Alive(m.JumpTo(Wrap(m.Rip() + 1))))
            && (m.Rip() !in s.bps ==>
                  match Step(env.cpu, m)
                  case Ran(m') => s'.process == Alive(m')
                  case Trapped(m') => s'.process == Alive(m')
                  case Gone(_) => s'.process == Dead)
  {
  }

  /** The machine that `cont` lets run, and what it leaves in the slot: behind the instruction at the slot, or where it is. */
  ghost predicate RunsFrom(cpu: Cpu, s: Session, start: Machine, slot: U64)
    requires s.process.Alive?
  {
    var m := s.process.m;
    if m.Rip() == s.slot then s.slot != 0 && StepOver(cpu, m, s.slot) == Ran(start) && slot == 0
    else start == m && slot == s.slot
  }

  /**
    `cont` ends at the first breakpoint address, signal or exit of the native run, and the
    parts of the session are what that end makes of them.
   */
  lemma ContEffect(env: Env, s: Session, start: Machine, slot: U64, h: Halt, k: nat)
    requires !s.quit && s.life.Running? && s.process.Alive? && h != Busy
    requires RunsFrom(env.cpu, s, start, slot) && FirstEnd(env.cpu, AddrSet(s.bps), start, h, k)
    ensures var s' := Exec(env, s, Cont);
            match h
            case AtBreak(b) =>
              && s'.(process := s.process, slot := s.slot, hits := s.hits) == s
              && (if IsStart(s.insns, b.Rip())
                  then s'.process == Alive(b) && s'.slot == b.Rip() && s'.hits == s.hits + [b.Rip()]
                  else s'.process == Alive(b.JumpTo(Wrap(b.Rip() + 1))) && s'.slot == slot && s'.hits == s.hits)
            case Stopped(b) =>
              var prev := Wrap(b.Rip() - 1);
              && s'.(process := s.process, slot := s.slot, hits := s.hits) == s
              && (if prev in s.bps && IsStart(s.insns, prev)
                  then s'.process == Alive(b.JumpTo(prev)) && s'.slot == prev && s'.hits == s.hits + [prev]
                  else s'.process == Alive(b) && s'.slot == slot && s'.hits == s.hits)
            case Exited(_) =>
              && s'.life.NoLoad? && s'.process.Absent? && s'.bps == [] && s'.path == "" && s'.entry == 0 && s'.size == 0
              && s'.slot == slot && s'.insns == s.insns && s'.hits == s.hits && !s'.quit
  {
    hide FirstEnd, StepOver;
    var l := Launch(env.cpu, s);
    assert l == s.(slot := slot, process := Alive(start));
    ContStopsAtFirstVisit(env.cpu, s, h, k);
  }

  // ----- the end of the debugger -----

  /** The command makes a request of the child whose failure is checked. */
  predicate NeedsChild(s: Session, c: Command) {
    c.Cont? || c.Run? || c.Si? || c.Set? || c.Get? || c.GetRegs? || (c.Delete? && 0 <= c.idx < |s.bps|)
  }

  /** `cont`, or the `cont` of `run`, is given to a child at `m`. */
  ghost predicate ContinuesAt(s: Session, c: Command, m: Machine) {
    || ((c.Cont? || c.Run?) && s.life.Running? && s.process == Alive(m))
    || (c.Run? && s.life.Loaded? && c.image == m)
  }

  /** What the source treats as an error of ptrace. */
  ghost predicate RequestFails(env: Env, s: Session, c: Command) {
    || (s.process.Dead? && NeedsChild(s, c))
    || (c.Break? && s.life.Running? && c.addr !in s.bps && !Readable(s, c.addr))
    || exists m :: ContinuesAt(s, c, m) && m.Rip() == s.slot && (s.slot == 0 || Step(env.cpu, m).Gone?)
  }

  /** The debugger ends exactly when a request fails. */
  lemma QuitsExactly(env: Env, s: Session, c: Command)
    requires Inv(s) && !s.quit
    ensures Exec(env, s, c).quit <==> RequestFails(env, s, c)
  {
    match c
    case Cont => LandKeepsQuit(env, s);
    case Run(image) =>
      if !s.life.NoLoad? {
        LandKeepsQuit(env, StartSpec(env.decode, s, image));
        assert s.life.Loaded? ==> ContinuesAt(s, c, image);
      }
    case _ =>
  }

  lemma LandKeepsQuit(env: Env, s: Session)
    requires !s.quit && (s.life.Running? <==> !s.process.Absent?)
    ensures Exec(env, s, Cont).quit <==>
            || s.process.Dead?
            || (s.process.Alive? && s.process.m.Rip() == s.slot && (s.slot == 0 || Step(env.cpu, s.process.m).Gone?))
  {
    hide Outcome;
    assert s.process.Alive? ==> ContinuesAt(s, Cont, s.process.m);
  }

  /** A request to a dead child changes nothing else, but that `break` has added its address and `delete` emptied the slot. */
  lemma DeadChildKeeps(env: Env, s: Session, c: Command)
    requires Inv(s) && !s.quit && s.process.Dead?
    ensures var s' := Exec(env, s, c);
            && s'.(quit := false, bps := s.bps, slot := s.slot) == s
            && (!c.Break? ==> s'.bps == s.bps)
            && (!c.Delete? ==> s'.slot == s.slot)
  {
  }
}
