/**
  Repeated `cont` over a fixed set of breakpoints: the reported addresses are the
  program's own trace, filtered.
 */
module HitList {
  import opened Integers
  import opened Processor
  import opened NativeSession
  import opened Transparency

  /** A signal that leaves the program here is neither taken for a hit nor followed by a step over. */
  predicate Unremarkable(bps: set<U64>, slot: U64, m: Machine) {
    m.Rip() != slot && Wrap(m.Rip() - 1) !in bps
  }

  /** The slot behind the instruction at rip: a breakpoint there has been reported and stepped over. */
  function SlotBehind(bps: set<U64>, slot: U64, m: Machine): U64 {
    if m.Rip() in bps then 0 else slot
  }

  /**
    The unpatched program exits after `n` more instructions, never runs at address 0 and
    treats the bytes in `bps` as code only. It may raise signals, if those met by `cont`
    do not look like hits.
   */
  ghost predicate RunsToExit(cpu: Cpu, bps: set<U64>, slot: U64, m: Machine, n: nat)
    decreases n
  {
    && m.Rip() != 0
    && (if m.Rip() in bps then StepOverTame(cpu, m, bps, m.Rip()) && NoLostStores(cpu, m, m.Rip())
        else Spares(cpu, m, bps))
    && match Step(cpu, m)
       case Ran(m') => n > 0 && RunsToExit(cpu, bps, SlotBehind(bps, slot, m), m', n - 1)
       case Trapped(m') =>
         && n > 0 && (m.Rip() in bps || Unremarkable(bps, slot, m'))
         && RunsToExit(cpu, bps, SlotBehind(bps, slot, m), m', n - 1)
       case Gone(_) => n == 0
  }

  /**
    The next `n` instructions: the values of rip that are in `bps`, in order and with
    repetitions, the number of signals raised elsewhere, and the machine at the last one.
   */
  datatype Trace = Trace(visits: seq<U64>, signals: nat, last: Machine)

  function TraceOf(cpu: Cpu, bps: set<U64>, m: Machine, n: nat): Trace
    decreases n
  {
    var here := if m.Rip() in bps then [m.Rip()] else [];
    if n == 0 || Step(cpu, m).Gone? then Trace(here, 0, m)
    else
      var rest := TraceOf(cpu, bps, Step(cpu, m).m, n - 1);
      Trace(here + rest.visits, (if here == [] && Step(cpu, m).Trapped? then 1 else 0) + rest.signals, rest.last)
  }

  /** The values of rip at the next `n` instructions, and behind them. */
  function RipTrace(cpu: Cpu, m: Machine, n: nat): seq<U64>
    decreases n
  {
    if n == 0 || Step(cpu, m).Gone? then [m.Rip()] else [m.Rip()] + RipTrace(cpu, Step(cpu, m).m, n - 1)
  }

  function OnlyIn(s: seq<U64>, bps: set<U64>): seq<U64> {
    if s == [] then [] else (if s[0] in bps then [s[0]] else []) + OnlyIn(s[1..], bps)
  }

  /** The trace of rip is where an undebugged machine is after 0, 1, 2 and more instructions. */
  lemma {:induction false} RipTraceIs(cpu: Cpu, m: Machine, n: nat, k: nat)
    requires k < |RipTrace(cpu, m, n)|
    ensures k <= n && Replay(cpu, m, Ticks(k)).Some? && RipTrace(cpu, m, n)[k] == Replay(cpu, m, Ticks(k)).value.Rip()
    decreases n
  {
    hide Step;
    if k > 0 {
      RipTraceIs(cpu, Step(cpu, m).m, n - 1, k - 1);
      assert Ticks(k)[1..] == Ticks(k - 1);
    }
  }

  /** The visits are that trace, filtered. */
  lemma {:induction false} VisitsAreFiltered(cpu: Cpu, bps: set<U64>, m: Machine, n: nat)
    ensures TraceOf(cpu, bps, m, n).visits == OnlyIn(RipTrace(cpu, m, n), bps)
    decreases n
  {
    hide Step;
    var rips := RipTrace(cpu, m, n);
    if n == 0 || Step(cpu, m).Gone? {
      assert rips[1..] == [];
    } else {
      VisitsAreFiltered(cpu, bps, Step(cpu, m).m, n - 1);
      assert rips[1..] == RipTrace(cpu, Step(cpu, m).m, n - 1);
    }
  }

  lemma {:induction false} RunsUndisturbed(cpu: Cpu, bps: set<U64>, slot: U64, m: Machine, n: nat, fuel: nat)
    requires RunsToExit(cpu, bps, slot, m, n)
    ensures LeavesAlone(cpu, bps, m, fuel)
    decreases n
  {
    if m.Rip() !in bps && Step(cpu, m).Ran? && fuel > 0 {
      RunsUndisturbed(cpu, bps, slot, Step(cpu, m).m, n - 1, fuel - 1);
    }
  }

  /** The next halt of such a program is its next visit or signal, or its exit if there is none. */
  lemma {:induction false} NextVisit(cpu: Cpu, bps: set<U64>, slot: U64, m: Machine, n: nat) returns (left: nat)
    requires RunsToExit(cpu, bps, slot, m, n)
    ensures left <= n
    ensures var t := TraceOf(cpu, bps, m, n);
            match RunUntil(cpu, bps, m, n)
            case AtBreak(b) =>
              b.Rip() in bps && RunsToExit(cpu, bps, slot, b, left) && t == TraceOf(cpu, bps, b, left)
            case Stopped(b) =>
              && left < n && Unremarkable(bps, slot, b) && RunsToExit(cpu, bps, slot, b, left)
              && var rest := TraceOf(cpu, bps, b, left);
                 t == rest.(signals := rest.signals + 1)
            case Exited(_) => t.visits == [] && t.signals == 0 && t.last.Rip() !in bps
            case Busy => false
    decreases n
  {
    hide Step, StepOverTame, NoLostStores, Spares;
    left := n;
    if m.Rip() !in bps {
      match Step(cpu, m)
      case Ran(m') => left := NextVisit(cpu, bps, slot, m', n - 1);
      case Trapped(_) => left := n - 1;
      case Gone(_) =>
    }
  }

  function Conts(k: nat): (r: seq<Command>)
    ensures |r| == k
  {
    if k == 0 then [] else [Cont] + Conts(k - 1)
  }

  /** The commands run the program out, reporting `reported`; `atBreak` says if the exit happens during a step over. */
  ghost predicate RunsOut(env: Env, s: Session, cmds: seq<Command>, reported: seq<U64>, atBreak: bool) {
    var end := ExecAll(env, s, cmds);
    && AllTame(env, s, cmds)
    && end.hits == s.hits + reported
    && (end.quit <==> atBreak)
    && (!end.quit ==> end.life.NoLoad? && end.bps == [])
  }

  /** As many `cont` as there are visits and signals, and one more, run the program out and report the visits. */
  ghost predicate RunsOutBy(env: Env, s: Session, t: Trace, bps: seq<U64>) {
    RunsOut(env, s, Conts(|t.visits| + t.signals + 1), t.visits, t.last.Rip() in bps)
  }

  lemma RunsOutAfter(env: Env, s: Session, k: nat, pre: seq<U64>, rest: seq<U64>, atBreak: bool)
    requires Tame(env, s, Cont) && Exec(env, s, Cont).hits == s.hits + pre
    requires RunsOut(env, Exec(env, s, Cont), Conts(k), rest, atBreak)
    ensures RunsOut(env, s, Conts(k + 1), pre + rest, atBreak)
  {
    hide Exec, Tame;
    assert Conts(k + 1)[0] == Cont && Conts(k + 1)[1..] == Conts(k);
    assert s.hits + (pre + rest) == s.hits + pre + rest;
  }

  /** `cont` from a launch point off the slot lands on the halt of the run. */
  lemma ContRuns(env: Env, s: Session, m: Machine, n: nat)
    requires s.life.Running? && !s.quit && s.process == Alive(m) && m.Rip() != s.slot
    requires RunsToExit(env.cpu, AddrSet(s.bps), s.slot, m, n)
    ensures Tame(env, s, Cont) && Exec(env, s, Cont) == Land(s, RunUntil(env.cpu, AddrSet(s.bps), m, n))
  {
    hide Land;
    TameRun(env.cpu, AddrSet(s.bps), s.slot, m, n);
  }

  lemma TameRun(cpu: Cpu, bps: set<U64>, slot: U64, m: Machine, n: nat)
    requires RunsToExit(cpu, bps, slot, m, n)
    ensures RunTame(cpu, m, bps) && Outcome(cpu, bps, m) == RunUntil(cpu, bps, m, n)
  {
    var left := NextVisit(cpu, bps, slot, m, n);
    OutcomeIs(cpu, bps, m, n);
    forall fuel: nat ensures LeavesAlone(cpu, bps, m, fuel) {
      RunsUndisturbed(cpu, bps, slot, m, n, fuel);
    }
  }

  /**
    From a launch point off the slot, one `cont` more than there are visits and signals
    runs the program to its end and reports every visit, in order, and nothing else; the
    debugger survives unless the exiting instruction is itself at a breakpoint.
   */
  lemma {:induction false} HitsAreVisits(env: Env, s: Session, m: Machine, n: nat)
    requires Local(env.cpu) && Inv(s) && !s.quit && BpsAreStarts(s)
    requires s.process == Alive(m) && m.Rip() != s.slot
    requires RunsToExit(env.cpu, AddrSet(s.bps), s.slot, m, n)
    ensures RunsOutBy(env, s, TraceOf(env.cpu, AddrSet(s.bps), m, n), s.bps)
    decreases n
  {
    hide RunsOut, RunsOutBy, RunsToExit, TraceOf, Exec, Tame, Land, Conts, Local, Step, Inv, BpsAreStarts;
    InvMeans(s);
    var left := NextVisit(env.cpu, AddrSet(s.bps), s.slot, m, n);
    ContRuns(env, s, m, n);
    match RunUntil(env.cpu, AddrSet(s.bps), m, n)
    case AtBreak(b) =>
      var e := Step(env.cpu, b);
      if !e.Gone? {
        NextLaunch(env, s, b, left);
        HitsAreVisits(env, Stepped(s, b, e.m), e.m, left - 1);
      }
      HitsFromVisit(env, s, b, left);
    case Stopped(b) =>
      SignalPassed(env, s, b);
      HitsAreVisits(env, s.(process := Alive(b)), b, left);
      HitsFromSignal(env, s, b, TraceOf(env.cpu, AddrSet(s.bps), b, left));
    case Exited(c) => ExitWithoutHit(env, s, c, TraceOf(env.cpu, AddrSet(s.bps), m, n));
    case _ =>
  }

  // ----- a signal -----

  /** After such a signal everything is as at a launch point off the slot. */
  lemma SignalPassed(env: Env, s: Session, b: Machine)
    requires Local(env.cpu) && Inv(s) && s.process.Alive? && !s.quit && BpsAreStarts(s)
    requires Tame(env, s, Cont) && Exec(env, s, Cont) == Land(s, Stopped(b)) && Unremarkable(AddrSet(s.bps), s.slot, b)
    ensures var s1 := s.(process := Alive(b));
            Exec(env, s, Cont) == s1 && Inv(s1) && BpsAreStarts(s1)
  {
    hide Exec, Tame, Inv;
    ExecKeepsInv(env, s, Cont);
  }

  lemma HitsFromSignal(env: Env, s: Session, b: Machine, rest: Trace)
    requires Tame(env, s, Cont) && Exec(env, s, Cont) == s.(process := Alive(b))
    requires RunsOutBy(env, s.(process := Alive(b)), rest, s.bps)
    ensures RunsOutBy(env, s, rest.(signals := rest.signals + 1), s.bps)
  {
    hide Exec, Tame, RunsOut, Conts;
    RunsOutAfter(env, s, |rest.visits| + rest.signals + 1, [], rest.visits, rest.last.Rip() in s.bps);
    assert [] + rest.visits == rest.visits;
  }

  // ----- exit -----

  lemma ExitWithoutHit(env: Env, s: Session, c: int, t: Trace)
    requires !s.quit && Tame(env, s, Cont) && Exec(env, s, Cont) == Land(s, Exited(c))
    requires t.visits == [] && t.signals == 0 && t.last.Rip() !in s.bps
    ensures RunsOutBy(env, s, t, s.bps)
  {
    hide Exec, Tame;
    assert RunsOut(env, Exec(env, s, Cont), Conts(0), [], false);
    RunsOutAfter(env, s, 0, [], [], false);
    assert [] + [] == t.visits;
  }

  // ----- a hit -----

  /** The session that has reported `b` and stepped over it to `m1`. */
  function Stepped(s: Session, b: Machine, m1: Machine): Session {
    Report(s, b, b.Rip()).(slot := 0, process := Alive(m1))
  }

  /** Behind a reported breakpoint everything is as at a launch point off the slot. */
  lemma NextLaunch(env: Env, s: Session, b: Machine, n: nat)
    requires Local(env.cpu) && Inv(s) && !s.quit && s.process.Alive? && BpsAreStarts(s)
    requires Tame(env, s, Cont) && Exec(env, s, Cont) == Land(s, AtBreak(b)) && b.Rip() in s.bps
    requires RunsToExit(env.cpu, AddrSet(s.bps), s.slot, b, n) && !Step(env.cpu, b).Gone?
    ensures var m1 := Step(env.cpu, b).m;
            var s1 := Stepped(s, b, m1);
            && Inv(s1) && !s1.quit && BpsAreStarts(s1) && s1.process == Alive(m1) && m1.Rip() != s1.slot
            && n > 0 && RunsToExit(env.cpu, AddrSet(s1.bps), s1.slot, m1, n - 1)
  {
    hide Exec, Tame, Land, Inv;
    ReportKeepsInv(env, s, b);
    StepOverIsNative(env.cpu, b, b.Rip());
    StepOverKeepsInv(env.cpu, Report(s, b, b.Rip()));
  }

  /** The report of `b`, then whatever the run from behind it reports. */
  lemma HitsFromVisit(env: Env, s: Session, b: Machine, n: nat)
    requires Local(env.cpu) && Inv(s) && !s.quit && s.process.Alive? && BpsAreStarts(s)
    requires Tame(env, s, Cont) && Exec(env, s, Cont) == Land(s, AtBreak(b)) && b.Rip() in s.bps
    requires RunsToExit(env.cpu, AddrSet(s.bps), s.slot, b, n)
    requires var e := Step(env.cpu, b);
             !e.Gone? ==> n > 0 && RunsOutBy(env, Stepped(s, b, e.m), TraceOf(env.cpu, AddrSet(s.bps), e.m, n - 1), s.bps)
    ensures RunsOutBy(env, s, TraceOf(env.cpu, AddrSet(s.bps), b, n), s.bps)
  {
    hide Exec, Tame, Land, Inv, RunsOutBy, RunsOut;
    ReportKeepsInv(env, s, b);
    HitsFromBreak(env, Report(s, b, b.Rip()), b, n, s.slot);
    HitThenRest(env, s, b, TraceOf(env.cpu, AddrSet(s.bps), b, n));
  }

  lemma ReportKeepsInv(env: Env, s: Session, b: Machine)
    requires Local(env.cpu) && Inv(s) && !s.quit && s.process.Alive? && BpsAreStarts(s)
    requires Tame(env, s, Cont) && Exec(env, s, Cont) == Land(s, AtBreak(b)) && b.Rip() in s.bps
    ensures Exec(env, s, Cont) == Report(s, b, b.Rip())
    ensures Inv(Report(s, b, b.Rip())) && BpsAreStarts(Report(s, b, b.Rip())) && b.Rip() != 0
  {
    hide Exec, Tame;
    InvMeans(s);
    ExecKeepsInv(env, s, Cont);
  }

  lemma HitThenRest(env: Env, s: Session, b: Machine, t: Trace)
    requires Tame(env, s, Cont) && Exec(env, s, Cont) == Report(s, b, b.Rip())
    requires |t.visits| > 0 && t.visits[0] == b.Rip()
    requires RunsOut(env, Report(s, b, b.Rip()), Conts(|t.visits| + t.signals), t.visits[1..], t.last.Rip() in s.bps)
    ensures RunsOutBy(env, s, t, s.bps)
  {
    hide Exec, Tame, RunsOut, Conts;
    RunsOutAfter(env, s, |t.visits| + t.signals, [b.Rip()], t.visits[1..], t.last.Rip() in s.bps);
    assert t.visits == [b.Rip()] + t.visits[1..];
  }

  /** The same from a reported breakpoint, given the run from behind it: the visit at rip is already reported. */
  lemma HitsFromBreak(env: Env, s: Session, b: Machine, n: nat, before: U64)
    requires Local(env.cpu) && Inv(s) && !s.quit && s.process == Alive(b)
    requires b.Rip() == s.slot && s.slot in s.bps && s.slot != 0
    requires RunsToExit(env.cpu, AddrSet(s.bps), before, b, n)
    requires var e := Step(env.cpu, b);
             !e.Gone? ==> n > 0 && RunsOutBy(env, s.(slot := 0, process := Alive(e.m)), TraceOf(env.cpu, AddrSet(s.bps), e.m, n - 1), s.bps)
    ensures var t := TraceOf(env.cpu, AddrSet(s.bps), b, n);
            && |t.visits| > 0 && t.visits[0] == b.Rip()
            && RunsOut(env, s, Conts(|t.visits| + t.signals), t.visits[1..], t.last.Rip() in s.bps)
  {
    hide RunsOut, Exec, Tame, Conts, Inv, Local, Step, StepOver, StepOverTame, NoLostStores;
    var cpu, bps := env.cpu, AddrSet(s.bps);
    StepOverIsNative(cpu, b, s.slot);
    InvMeans(s);
    var t, e := TraceOf(cpu, bps, b, n), Step(cpu, b);
    if e.Gone? {
      assert t == Trace([b.Rip()], 0, b) && t.visits[1..] == [];
      ExitAtBreak(env, s);
    } else {
      var rest := TraceOf(cpu, bps, e.m, n - 1);
      assert t.visits[1..] == rest.visits;
      LaunchIsStepOver(env, s, e.m, n - 1);
      SameContSameEnd(env, s, s.(slot := 0, process := Alive(e.m)), |rest.visits| + rest.signals, rest.visits, rest.last.Rip() in s.bps);
    }
  }

  /** A program that exits at the breakpoint it is stopped at takes the debugger with it. */
  lemma ExitAtBreak(env: Env, s: Session)
    requires s.life.Running? && s.process.Alive? && !s.quit && s.process.m.Rip() == s.slot && s.slot != 0
    requires Step(env.cpu, s.process.m).Gone? && StepOverTame(env.cpu, s.process.m, AddrSet(s.bps), s.slot)
    ensures RunsOut(env, s, Conts(1), [], true)
  {
    assert Tame(env, s, Cont) && Exec(env, s, Cont) == s.(process := Dead, quit := true);
    hide Exec, Tame;
    assert RunsOut(env, Exec(env, s, Cont), Conts(0), [], true);
    RunsOutAfter(env, s, 0, [], [], true);
  }

  /** From a reported breakpoint `cont` does what it does from the instruction after the one stepped over. */
  lemma LaunchIsStepOver(env: Env, s: Session, m1: Machine, n: nat)
    requires s.life.Running? && s.process.Alive? && !s.quit && s.process.m.Rip() == s.slot && s.slot != 0
    requires StepOver(env.cpu, s.process.m, s.slot) == Ran(m1) && StepOverTame(env.cpu, s.process.m, AddrSet(s.bps), s.slot)
    requires RunsToExit(env.cpu, AddrSet(s.bps), 0, m1, n)
    ensures Exec(env, s, Cont) == Exec(env, s.(slot := 0, process := Alive(m1)), Cont)
    ensures Tame(env, s, Cont)
  {
    TameRun(env.cpu, AddrSet(s.bps), 0, m1, n);
  }

  /** Sessions that the first `cont` makes equal run out alike. */
  lemma SameContSameEnd(env: Env, s: Session, s1: Session, k: nat, reported: seq<U64>, atBreak: bool)
    requires Tame(env, s, Cont) && Exec(env, s, Cont) == Exec(env, s1, Cont) && s.hits == s1.hits
    requires RunsOut(env, s1, Conts(k + 1), reported, atBreak)
    ensures RunsOut(env, s, Conts(k + 1), reported, atBreak)
  {
    hide Exec, Tame;
    assert Conts(k + 1)[0] == Cont && Conts(k + 1)[1..] == Conts(k);
  }
}
