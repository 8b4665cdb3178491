/**
  A program whose only loop is made of `longjmp` returns: `main` calls one function
  after the other, and each of them jumps back to the `setjmp` in `main`.
 */
module JumpLoop {
  import opened Integers
  import opened StackMemory
  import opened SetJump

  /**
    Where `main` keeps things: one function for each of `messages`, which it prints, the static buffer `buf`, the stack pointer
    `sp` between its calls, the address `slot` of its counter and the return address
    `resume` of its `setjmp` call. `kept` are the bytes no function writes to.
   */
  datatype Layout = Layout(messages: seq<string>, buf: U64, sp: U64, slot: int, resume: U64, kept: int -> bool)

  /** Buffer and counter are kept by the functions, and apart; the two words `longjmp` pushes are not kept. */
  ghost predicate Sound(l: Layout) {
    && |l.messages| < 0x8000_0000
    && Separate(l.buf, l.sp) && Apart(l.buf, JMP_BUF, l.slot, 4)
    && (forall x | l.sp - 16 <= x < l.sp :: !l.kept(x))
    && (forall x | l.buf <= x < l.buf + JMP_BUF || l.slot <= x < l.slot + 4 :: l.kept(x))
  }

  /** The state in which function `k`, called in a given state, calls `longjmp`. */
  type Body = (nat, State) -> State

  /** Function `k` prints its message, may do anything to registers and to memory that is not kept, and calls `longjmp(jb, k + 1)`. */
  ghost predicate Behaves(l: Layout, body: Body) {
    forall k: nat, s: State | k < |l.messages| && s.rsp == l.sp :: CallsLongjmp(l, k, s, body(k, s))
  }

  ghost predicate CallsLongjmp(l: Layout, k: nat, s: State, u: State)
    requires k < |l.messages|
  {
    u.rdi == l.buf && u.rsi == k + 1 && SameKept(l, s.mem, u.mem) && u.output == s.output + l.messages[k]
  }

  ghost predicate SameKept(l: Layout, mem1: Mem, mem2: Mem) {
    forall x | l.kept(x) :: mem2(x) == mem1(x)
  }

  /** A function that pushes its return address, prints its message and goes on to `longjmp(jb, k + 1)`. */
  function Straight(l: Layout, k: nat, s: State): State
    requires 8 <= l.sp && k < |l.messages| < TWO_TO_THE_64
  {
    s.(rdi := l.buf, rsi := k + 1, rsp := l.sp - 8, mem := Put(s.mem, l.sp - 8, s.rip), output := s.output + l.messages[k])
  }

  /** Such functions meet the assumption wherever the layout is sound. */
  lemma StraightBehaves(l: Layout, body: Body)
    requires Sound(l) && forall k: nat, s: State | k < |l.messages| :: body(k, s) == Straight(l, k, s)
    ensures Behaves(l, body)
  {
  }

  /** A function that also clears the word at `errno` on its way, as `write` does when it succeeds. */
  function FunBody(l: Layout, errno: int, k: nat, s: State): State
    requires 8 <= l.sp && k < |l.messages| < TWO_TO_THE_64
  {
    var u := Straight(l, k, s);
    u.(mem := Put(u.mem, errno, 0))
  }

  /** The layout in which only the stack from `low` to `sp` and the word at `errno` are not kept. */
  function ProgramLayout(messages: seq<string>, buf: U64, low: int, sp: U64, slot: int, resume: U64, errno: int): Layout {
    Layout(messages, buf, sp, slot, resume, x => !(low <= x < sp) && !(errno <= x < errno + 8))
  }

  /** Such functions meet the assumption wherever buffer, counter, `errno` and stack are apart. */
  lemma FunBodiesBehave(messages: seq<string>, buf: U64, low: int, sp: U64, slot: int, resume: U64, errno: int, body: Body)
    requires |messages| < 0x8000_0000 && low <= sp - 16 && sp <= slot && 16 <= sp && buf + JMP_BUF <= TWO_TO_THE_64
    requires Apart(buf, JMP_BUF, low, sp - low) && Apart(buf, JMP_BUF, slot, 4)
    requires Apart(errno, 8, buf, JMP_BUF) && Apart(errno, 8, slot, 4)
    requires var l := ProgramLayout(messages, buf, low, sp, slot, resume, errno);
             forall k: nat, s: State | k < |messages| :: body(k, s) == FunBody(l, errno, k, s)
    ensures var l := ProgramLayout(messages, buf, low, sp, slot, resume, errno);
            Sound(l) && Behaves(l, body)
  {
    hide Put;
    var l := ProgramLayout(messages, buf, low, sp, slot, resume, errno);
    forall k: nat, s: State | k < |l.messages| && s.rsp == l.sp ensures CallsLongjmp(l, k, s, body(k, s)) {
      PutFrame(s.mem, l.sp - 8, s.rip);
      PutFrame(Put(s.mem, l.sp - 8, s.rip), errno, 0);
    }
  }

  /** The registers a function must return with as it was called. */
  datatype Saved = Saved(rbx: U64, rbp: U64, r12: U64, r13: U64, r14: U64, r15: U64)

  function CalleeSaved(s: State): Saved {
    Saved(s.rbx, s.rbp, s.r12, s.r13, s.r14, s.r15)
  }

  /** The eight words of a buffer that leads to the resume point with the registers `regs`. */
  function ResumeWords(l: Layout, regs: Saved): (ws: seq<U64>)
    ensures |ws| == 8
  {
    [regs.rbx, l.sp, regs.rbp, regs.r12, regs.r13, regs.r14, regs.r15, l.resume]
  }

  /** Control is where `setjmp` returns, on `main`'s stack with its registers `regs`, and the buffer still leads there. */
  ghost predicate AtResume(l: Layout, regs: Saved, s: State) {
    s.rip == l.resume && s.rsp == l.sp && CalleeSaved(s) == regs && Holds(s.mem, l.buf, ResumeWords(l, regs))
  }

  /** A buffer nobody writes to keeps its words. */
  lemma HoldsSame(mem1: Mem, mem2: Mem, buf: int, ws: seq<U64>)
    requires Holds(mem1, buf, ws) && forall x :: buf <= x < buf + 8 * |ws| ==> mem2(x) == mem1(x)
    ensures Holds(mem2, buf, ws)
  {
    hide Word;
    forall i | 0 <= i < |ws| ensures Word(mem2, buf + 8 * i) == ws[i] {
      WordSame(mem2, mem1, buf + 8 * i);
    }
  }

  function Counter(l: Layout, mem: Mem): nat {
    Load(mem, l.slot, 4)
  }

  function SetCounter(l: Layout, mem: Mem, i: nat): Mem {
    Store(mem, l.slot, 4, i)
  }

  lemma CounterSet(l: Layout, regs: Saved, s: State, i: nat)
    requires Sound(l) && i <= |l.messages|
    ensures var mem := SetCounter(l, s.mem, i);
            && Counter(l, mem) == i
            && (AtResume(l, regs, s) ==> AtResume(l, regs, s.(mem := mem)))
            && OthersKept(l, s.mem, mem)
            && forall x :: !(l.slot <= x < l.slot + 4) ==> mem(x) == s.mem(x)
  {
    hide Word;
    assert Pow256(4) == 0x1_0000_0000;
    LoadStore(s.mem, l.slot, 4, i);
    if AtResume(l, regs, s) {
      HoldsSame(s.mem, SetCounter(l, s.mem, i), l.buf, ResumeWords(l, regs));
    }
  }

  /** The first arrival: `setjmp`, called with the resume point as return address, returns there with value 0. */
  lemma FirstArrival(l: Layout, s: State, t: State)
    requires Sound(l) && s.rsp == l.sp - 8 && s.rdi == l.buf && Word(s.mem, s.rsp) == l.resume && SetjmpDone(s, t)
    ensures AtResume(l, CalleeSaved(s), t) && t.rax == 0 && FrameKept(s.mem, t.mem, l.buf, l.sp) && t.output == s.output
  {
    hide Word;
    assert SavedWords(s)[..8] == ResumeWords(l, CalleeSaved(s));
    forall i | 0 <= i < 8 ensures Word(t.mem, l.buf + 8 * i) == ResumeWords(l, CalleeSaved(s))[i] {
      assert Word(t.mem, l.buf + 8 * i) == SavedWords(s)[i];
    }
  }

  /** Function `k` finds the buffer as `setjmp` left it. */
  lemma CallAllowed(l: Layout, regs: Saved, s: State, k: nat, u: State)
    requires Sound(l) && AtResume(l, regs, s) && k < |l.messages| && CallsLongjmp(l, k, s, u)
    ensures Holds(u.mem, l.buf, ResumeWords(l, regs))
    ensures SavedSp(u) == l.sp && Separate(u.rdi, SavedSp(u))
  {
    hide Word;
    HoldsSame(s.mem, u.mem, l.buf, ResumeWords(l, regs));
    assert Word(u.mem, l.buf + 8 * 1) == ResumeWords(l, regs)[1];
  }

  /** A jump through a buffer that leads to the resume point arrives there with the registers it holds. */
  lemma ArrivesWith(l: Layout, regs: Saved, u: State, v: State)
    requires u.rdi == l.buf && Holds(u.mem, l.buf, ResumeWords(l, regs)) && LongjmpDone(u, v)
    ensures v.rip == l.resume && v.rsp == l.sp && CalleeSaved(v) == regs
  {
    hide Word;
    var ws := ResumeWords(l, regs);
    assert Word(u.mem, l.buf + 8 * 0) == ws[0] && Word(u.mem, l.buf + 8 * 1) == ws[1] && Word(u.mem, l.buf + 8 * 2) == ws[2];
    assert Word(u.mem, l.buf + 8 * 3) == ws[3] && Word(u.mem, l.buf + 8 * 4) == ws[4] && Word(u.mem, l.buf + 8 * 5) == ws[5];
    assert Word(u.mem, l.buf + 8 * 6) == ws[6] && Word(u.mem, l.buf + 8 * 7) == ws[7];
  }

  /** Every later arrival: calling function `k` brings control back with value `k + 1`, and `main`'s frame and registers unchanged. */
  lemma CallComesBack(l: Layout, regs: Saved, s: State, k: nat, u: State, v: State)
    requires Sound(l) && AtResume(l, regs, s) && k < |l.messages| && CallsLongjmp(l, k, s, u) && LongjmpDone(u, v)
    ensures AtResume(l, regs, v) && v.rax == k + 1 && SameKept(l, s.mem, v.mem) && v.output == s.output + l.messages[k]
  {
    hide Word;
    CallAllowed(l, regs, s, k, u);
    ArrivesWith(l, regs, u, v);
    HoldsSame(u.mem, v.mem, l.buf, ResumeWords(l, regs));
  }

  lemma CounterSame(l: Layout, mem1: Mem, mem2: Mem)
    requires Sound(l) && SameKept(l, mem1, mem2)
    ensures Counter(l, mem2) == Counter(l, mem1)
  {
    LoadSame(mem2, mem1, l.slot, 4);
  }

  /** All that the functions keep, but for the buffer and the counter. */
  ghost predicate OthersKept(l: Layout, mem1: Mem, mem2: Mem) {
    forall x | l.kept(x) && !(l.buf <= x < l.buf + JMP_BUF) && !(l.slot <= x < l.slot + 4) :: mem2(x) == mem1(x)
  }

  lemma OthersKeptTrans(l: Layout, mem1: Mem, mem2: Mem, mem3: Mem)
    requires OthersKept(l, mem1, mem2) && OthersKept(l, mem2, mem3)
    ensures OthersKept(l, mem1, mem3)
  {
  }

  /** The call of `setjmp`, from the push of its return address on, leaves the counter and other memory alone. */
  lemma SetjmpKeeps(l: Layout, mem1: Mem, mem2: Mem, mem3: Mem)
    requires Sound(l) && mem2 == Put(mem1, l.sp - 8, l.resume) && FrameKept(mem2, mem3, l.buf, l.sp)
    ensures Counter(l, mem3) == Counter(l, mem1) && OthersKept(l, mem1, mem3)
  {
    hide Put;
    PutFrame(mem1, l.sp - 8, l.resume);
    forall x | l.slot <= x < l.slot + 4 ensures mem3(x) == mem1(x) {
      assert l.kept(x);
    }
    LoadSame(mem3, mem1, l.slot, 4);
  }

  lemma OnMainsStack(l: Layout, regs: Saved, s: State)
    requires AtResume(l, regs, s)
    ensures s.rsp == l.sp && CalleeSaved(s) == regs
  {
  }

  /** What the call of `setjmp` does, from the push of its return address in `s0` to its return in `s2`. */
  lemma SetjmpCalled(l: Layout, s0: State, s1: State, s2: State)
    requires Sound(l) && s0.rsp == l.sp && s0.rdi == l.buf
    requires s1 == s0.(rsp := Wrap(l.sp - 8), mem := Put(s0.mem, Wrap(l.sp - 8), l.resume))
    requires Separate(s1.rdi, s1.rsp as int + 8) ==> SetjmpDone(s1, s2)
    ensures AtResume(l, CalleeSaved(s0), s2) && s2.rax == 0 && s2.output == s0.output
    ensures Counter(l, s2.mem) == Counter(l, s0.mem) && OthersKept(l, s0.mem, s2.mem)
  {
    hide Word, Put, SetjmpDone, Holds, OthersKept, FrameKept, AtResume, Counter;
    WordPut(s0.mem, l.sp - 8, l.resume, l.sp - 8);
    FirstArrival(l, s1, s2);
    SetjmpKeeps(l, s0.mem, s1.mem, s2.mem);
  }

  /** The call of `setjmp` in `main`. */
  method CallSetjmp(core: Core, l: Layout, lostRcx: U64, lostR11: U64)
    requires Sound(l) && core.rsp == l.sp && core.rdi == l.buf
    modifies core
    ensures AtResume(l, CalleeSaved(old(core.Abs())), core.Abs()) && core.rax == 0 && core.output == old(core.output)
    ensures Counter(l, core.mem) == Counter(l, old(core.mem)) && OthersKept(l, old(core.mem), core.mem)
  {
    hide Put, Wrap, Sound, Separate, SetjmpResult, SetjmpDone, AtResume, OthersKept, Counter, CalleeSaved;
    ghost var s0 := core.Abs();
    core.Push(l.resume);
    ghost var s1 := core.Abs();
    core.Setjmp(lostRcx, lostR11);
    SetjmpCalled(l, s0, s1, core.Abs());
  }

  /** The start of `main`: the counter is 0 and `setjmp` has returned for the first time. */
  method Enter(core: Core, l: Layout, lostRcx: U64, lostR11: U64)
    requires Sound(l) && core.rsp == l.sp
    modifies core
    ensures AtResume(l, CalleeSaved(old(core.Abs())), core.Abs()) && core.rax == 0 && Counter(l, core.mem) == 0
    ensures core.output == old(core.output)
    ensures OthersKept(l, old(core.mem), core.mem)
  {
    hide OthersKept, AtResume, Counter, SetCounter;
    CounterSet(l, CalleeSaved(core.Abs()), core.Abs(), 0);
    core.mem := SetCounter(l, core.mem, 0);
    core.rdi := l.buf;
    ghost var counted := core.mem;
    CallSetjmp(core, l, lostRcx, lostR11);
    OthersKeptTrans(l, old(core.mem), counted, core.mem);
  }

  /** `funs[i]()`, which never returns to its caller but comes back to the resume point. */
  method CallFunction(core: Core, l: Layout, ghost regs: Saved, body: Body, i: nat, lostRcx: U64, lostR11: U64)
    requires Sound(l) && Behaves(l, body) && AtResume(l, regs, core.Abs()) && i < |l.messages|
    modifies core
    ensures LongjmpDone(body(i, old(core.Abs())), core.Abs())
    ensures AtResume(l, regs, core.Abs()) && core.rax == i + 1 && core.output == old(core.output) + l.messages[i]
    ensures SameKept(l, old(core.mem), core.mem) && OthersKept(l, old(core.mem), core.mem)
    ensures Counter(l, core.mem) == Counter(l, old(core.mem))
  {
    hide Word, Put, LongjmpResult;
    ghost var s := core.Abs();
    assert s.rsp == l.sp && CallsLongjmp(l, i, s, body(i, s));
    CallAllowed(l, regs, s, i, body(i, s));
    core.Become(body(i, core.Abs()));
    core.Longjmp(lostRcx, lostR11);
    CallComesBack(l, regs, s, i, body(i, s), core.Abs());
    CounterSame(l, old(core.mem), core.mem);
  }

  /** The messages one after the other. */
  function Joined(messages: seq<string>): string {
    if messages == [] then "" else messages[0] + Joined(messages[1..])
  }

  lemma {:induction false} JoinedOneMore(messages: seq<string>, i: nat)
    requires i < |messages|
    ensures Joined(messages[..i + 1]) == Joined(messages[..i]) + messages[i]
    decreases |messages|
  {
    if i > 0 {
      JoinedOneMore(messages[1..], i - 1);
      assert messages[..i + 1][1..] == messages[1..][..i] && messages[..i][1..] == messages[1..][..i - 1];
    } else {
      assert messages[..1][1..] == [] && messages[..0] == [];
    }
  }

  /** The `k`-th arrival with the counter as `main` then sets it. */
  function Counted(l: Layout, s: State, k: nat): State {
    if k == 0 then s else s.(mem := SetCounter(l, s.mem, k))
  }

  /** From each arrival function `k` is called in that state, and its `longjmp` makes the next one. */
  ghost predicate CalledInOrder(l: Layout, body: Body, arrivals: seq<State>) {
    forall k :: 0 <= k < |arrivals| - 1 ==> LongjmpDone(body(k, Counted(l, arrivals[k], k)), arrivals[k + 1])
  }

  lemma CalledOneMore(l: Layout, body: Body, arrivals: seq<State>, v: State)
    requires |arrivals| > 0 && CalledInOrder(l, body, arrivals)
    requires LongjmpDone(body(|arrivals| - 1, Counted(l, arrivals[|arrivals| - 1], |arrivals| - 1)), v)
    ensures CalledInOrder(l, body, arrivals + [v])
  {
    hide LongjmpDone;
    var more := arrivals + [v];
    forall k | 0 <= k < |more| - 1 ensures LongjmpDone(body(k, Counted(l, more[k], k)), more[k + 1]) {
      assert more[k] == arrivals[k];
    }
  }

  /**
    `main`: each turn of the loop is one arrival at the resume point. Every function is
    called once, in order, so that their messages have been printed in order, and then
    `main` returns 0 with its stack pointer and the registers it owes its caller back in place.
   */
  method RunMain(core: Core, l: Layout, body: Body, lostRcx: U64, lostR11: U64)
    returns (ret: int, calls: seq<nat>, ghost arrivals: seq<State>)
    requires Sound(l) && Behaves(l, body) && core.rsp == l.sp
    modifies core
    ensures ret == 0
    ensures |arrivals| == |l.messages| + 1 && CalledInOrder(l, body, arrivals)
    ensures AtResume(l, old(CalleeSaved(core.Abs())), arrivals[0]) && arrivals[0].output == old(core.output)
    ensures core.Abs() == Counted(l, arrivals[|l.messages|], |l.messages|)
    ensures core.output == old(core.output) + Joined(l.messages)
    ensures |calls| == |l.messages| && forall k :: 0 <= k < |l.messages| ==> calls[k] == k
    ensures core.rsp == l.sp && CalleeSaved(core.Abs()) == old(CalleeSaved(core.Abs()))
    ensures OthersKept(l, old(core.mem), core.mem)
  {
    hide Word, Put, SetjmpResult, LongjmpResult, LongjmpDone, Load, Store, Counter, SetCounter, AtResume, OthersKept, SameKept;
    hide Sound, Behaves, Joined, CalledInOrder, CalleeSaved, Counted;
    ghost var mem0, out0, regs := core.mem, core.output, CalleeSaved(core.Abs());
    MessagesFit(l);
    Enter(core, l, lostRcx, lostR11);
    calls := [];
    arrivals := [core.Abs()];
    NothingCalled(l, body, core.Abs());
    while true
      invariant |arrivals| == |calls| + 1 && arrivals[|calls|] == core.Abs() && CalledInOrder(l, body, arrivals)
      invariant AtResume(l, regs, arrivals[0]) && arrivals[0].output == out0
      invariant AtResume(l, regs, core.Abs()) && core.rax == |calls| <= |l.messages|
      invariant Counter(l, core.mem) == if calls == [] then 0 else |calls| - 1
      invariant forall k :: 0 <= k < |calls| ==> calls[k] == k
      invariant OthersKept(l, mem0, core.mem)
      invariant core.output == out0 + Joined(l.messages[..|calls|])
      decreases |l.messages| - |calls|
    {
      CountedIs(l, core.Abs(), |calls|);
      if Low32(core.rax) != 0 {
        var next := Counter(l, core.mem) + 1;
        CounterSet(l, regs, core.Abs(), next);
        OthersKeptTrans(l, mem0, core.mem, SetCounter(l, core.mem, next));
        core.mem := SetCounter(l, core.mem, next);
      }
      var i := Counter(l, core.mem);
      assert i == |calls| && core.Abs() == Counted(l, arrivals[i], i);
      if i >= |l.messages| {
        OnMainsStack(l, regs, core.Abs());
        assert l.messages[..|calls|] == l.messages;
        return 0, calls, arrivals;
      }
      PrintedOneMore(l.messages, i, out0);
      calls := calls + [i];
      ghost var before := core.mem;
      CallFunction(core, l, regs, body, i, lostRcx, lostR11);
      OthersKeptTrans(l, mem0, before, core.mem);
      CalledOneMore(l, body, arrivals, core.Abs());
      arrivals := arrivals + [core.Abs()];
    }
  }

  lemma MessagesFit(l: Layout)
    requires Sound(l)
    ensures |l.messages| < 0x8000_0000 && Joined(l.messages[..0]) == ""
  {
  }

  lemma NothingCalled(l: Layout, body: Body, s: State)
    ensures CalledInOrder(l, body, [s])
  {
  }

  lemma CountedIs(l: Layout, s: State, k: nat)
    ensures Counted(l, s, k) == if k == 0 then s else s.(mem := SetCounter(l, s.mem, k))
  {
  }

  lemma PrintedOneMore(messages: seq<string>, i: nat, before: string)
    requires i < |messages|
    ensures before + Joined(messages[..i]) + messages[i] == before + Joined(messages[..i + 1])
  {
    JoinedOneMore(messages, i);
    hide Joined;
    assert before + Joined(messages[..i]) + messages[i] == before + (Joined(messages[..i]) + messages[i]);
  }
}
