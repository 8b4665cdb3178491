/**
  `setjmp` and `longjmp` as straight-line code on the registers, the stack and the
  jump buffer.
 */
module SetJump {
  import opened Integers
  import opened Errno
  import opened StackMemory

  /** `mask` is the signal mask the kernel keeps for the process, `output` what the process has written so far. */
  datatype State = State(
    rax: U64, rbx: U64, rcx: U64, rdx: U64, rsi: U64, rdi: U64, rbp: U64, rsp: U64,
    r10: U64, r11: U64, r12: U64, r13: U64, r14: U64, r15: U64, rip: U64, mem: Mem, mask: U64, output: string)

  const RT_SIGPROCMASK: U64 := 14
  /** `sizeof(sigset_t)`, the only set size the kernel takes. */
  const SIGSET_SIZE: U64 := 8

  /** Bytes of the jump buffer: eight saved words and the mask. */
  const JMP_BUF: int := 72

  // ----- the buffer and the stack words -----

  /** The words `ws` lie one after the other from `buf` on. */
  ghost predicate Holds(mem: Mem, buf: int, ws: seq<U64>) {
    forall i :: 0 <= i < |ws| ==> Word(mem, buf + 8 * i) == ws[i]
  }

  /** The buffer fits and shares no byte with the two words below the caller's stack pointer `sp`. */
  predicate Separate(buf: int, sp: int) {
    0 <= buf && buf + JMP_BUF <= TWO_TO_THE_64 && 16 <= sp < TWO_TO_THE_64 && Apart(buf, JMP_BUF, sp - 16, 16)
  }

  /** Nothing but the buffer and the two words below `sp` has changed. */
  ghost predicate FrameKept(mem1: Mem, mem2: Mem, buf: int, sp: int) {
    forall x :: !(buf <= x < buf + JMP_BUF) && !(sp - 16 <= x < sp) ==> mem2(x) == mem1(x)
  }

  /** `ws` has been saved so far and the return address is where it was. */
  ghost predicate Saving(mem0: Mem, mem: Mem, buf: int, sp: int, ws: seq<U64>) {
    Holds(mem, buf, ws) && FrameKept(mem0, mem, buf, sp) && Word(mem, sp - 8) == Word(mem0, sp - 8)
  }

  lemma SavingNothing(mem: Mem, buf: int, sp: int)
    ensures Saving(mem, mem, buf, sp, [])
  {
  }

  lemma SavingDone(mem0: Mem, mem: Mem, buf: int, sp: int, ws: seq<U64>)
    requires Saving(mem0, mem, buf, sp, ws)
    ensures Holds(mem, buf, ws) && FrameKept(mem0, mem, buf, sp) && Word(mem, sp - 8) == Word(mem0, sp - 8)
  {
  }

  lemma SaveNext(mem0: Mem, mem: Mem, buf: int, sp: int, ws: seq<U64>, v: U64)
    requires Separate(buf, sp) && Saving(mem0, mem, buf, sp, ws) && |ws| < 9
    ensures Saving(mem0, Put(mem, buf + 8 * |ws|, v), buf, sp, ws + [v])
    ensures Word(Put(mem, buf + 8 * |ws|, v), sp - 16) == Word(mem, sp - 16)
  {
    hide Word, Put;
    var a := buf + 8 * |ws|;
    PutFrame(mem, a, v);
    forall i | 0 <= i < |ws| + 1 ensures Word(Put(mem, a, v), buf + 8 * i) == (ws + [v])[i] {
      WordPut(mem, a, v, buf + 8 * i);
    }
    WordPut(mem, a, v, sp - 8);
    WordPut(mem, a, v, sp - 16);
  }

  lemma SavePush(mem0: Mem, mem: Mem, buf: int, sp: int, ws: seq<U64>, a: int, v: U64)
    requires Separate(buf, sp) && Saving(mem0, mem, buf, sp, ws) && |ws| <= 9
    requires a == sp - 16 || (a == sp - 8 && v == Word(mem0, sp - 8))
    ensures Saving(mem0, Put(mem, a, v), buf, sp, ws) && Word(Put(mem, a, v), a) == v
  {
    hide Word, Put;
    PutFrame(mem, a, v);
    forall i | 0 <= i < |ws| ensures Word(Put(mem, a, v), buf + 8 * i) == ws[i] {
      WordPut(mem, a, v, buf + 8 * i);
    }
    WordPut(mem, a, v, sp - 8);
    WordPut(mem, a, v, a);
  }

  // ----- what the two routines promise -----

  /** The words `setjmp` saves: rbx, rsp after the return, rbp, r12 to r15, the return address, and 0 for the mask. */
  function SavedWords(s: State): seq<U64> {
    [s.rbx, Wrap(s.rsp as int + 8), s.rbp, s.r12, s.r13, s.r14, s.r15, Word(s.mem, s.rsp), 0]
  }

  ghost predicate SetjmpDone(s: State, t: State) {
    && Holds(t.mem, s.rdi, SavedWords(s))
    && t.rax == 0 && t.rip == Word(s.mem, s.rsp) && t.rsp == s.rsp as int + 8 && t.rdi == s.rdi
    && t.rbx == s.rbx && t.rbp == s.rbp && t.r12 == s.r12 && t.r13 == s.r13 && t.r14 == s.r14 && t.r15 == s.r15
    && FrameKept(s.mem, t.mem, s.rdi, t.rsp) && t.mask == s.mask && t.output == s.output
  }

  /** Where `longjmp` sets the stack pointer. */
  function SavedSp(s: State): U64 {
    Word(s.mem, s.rdi as int + 8)
  }

  ghost predicate LongjmpDone(s: State, t: State) {
    && t.rax == s.rsi && t.rip == Word(s.mem, s.rdi as int + 56) && t.rsp == SavedSp(s) && t.rdi == s.rdi
    && t.rbx == Word(s.mem, s.rdi) && t.rbp == Word(s.mem, s.rdi as int + 16)
    && t.r12 == Word(s.mem, s.rdi as int + 24) && t.r13 == Word(s.mem, s.rdi as int + 32)
    && t.r14 == Word(s.mem, s.rdi as int + 40) && t.r15 == Word(s.mem, s.rdi as int + 48)
    && (forall x :: !(SavedSp(s) - 16 <= x < SavedSp(s)) ==> t.mem(x) == s.mem(x))
    && t.mask == s.mask && t.output == s.output
  }

  // ----- the state after each routine, store by store -----

  /** The stores of `setjmp` up to and with `push rdi`; `ws` are the eight words saved. */
  function SaveStores(mem: Mem, buf: U64, sp: U64, ws: seq<U64>): Mem
    requires |ws| == 8
  {
    var m3 := Put(Put(Put(mem, Wrap(buf as int + 0), ws[0]), Wrap(buf as int + 8), ws[1]), Wrap(sp as int - 8), ws[7]);
    var m6 := Put(Put(Put(m3, Wrap(buf as int + 16), ws[2]), Wrap(buf as int + 24), ws[3]), Wrap(buf as int + 32), ws[4]);
    var m9 := Put(Put(Put(m6, Wrap(buf as int + 40), ws[5]), Wrap(buf as int + 48), ws[6]), Wrap(buf as int + 56), ws[7]);
    Put(m9, Wrap(Wrap(sp as int - 8) as int - 8), buf)
  }

  function SetjmpResult(s: State, lostRcx: U64, lostR11: U64): State {
    var ret := Word(s.mem, s.rsp);
    var sp := Wrap(s.rsp as int + 8);
    var low := Wrap(Wrap(sp as int - 8) as int - 8);
    var m1 := SaveStores(s.mem, s.rdi, sp, [s.rbx, sp, s.rbp, s.r12, s.r13, s.r14, s.r15, ret]);
    var buf := Word(m1, low);
    var m2 := Put(m1, Wrap(buf as int + 64), 0);
    s.(rax := 0, rcx := lostRcx, rdx := 0, rsi := 0, rdi := buf, rsp := Wrap(Wrap(low as int + 8) as int + 8), r10 := 32,
       r11 := lostR11, rip := Word(m2, Wrap(low as int + 8)), mem := m2)
  }

  function LongjmpResult(s: State, lostRcx: U64, lostR11: U64): State {
    var buf := s.rdi as int;
    var sp := Word(s.mem, Wrap(buf + 8));
    var high := Wrap(sp as int - 8);
    var low := Wrap(high as int - 8);
    var m1 := Put(Put(s.mem, high, s.rdi), low, s.rsi);
    var back := Wrap(low as int + 8);
    var rdi := Word(m1, back);
    s.(rax := Word(m1, low), rbx := Word(s.mem, Wrap(buf + 0)), rcx := lostRcx, rdx := 0,
       rsi := Word(m1, Wrap(buf + 64)), rdi := rdi, rbp := Word(s.mem, Wrap(buf + 16)),
       rsp := Wrap(back as int + 8), r10 := 32, r11 := lostR11,
       r12 := Word(s.mem, Wrap(buf + 24)), r13 := Word(s.mem, Wrap(buf + 32)),
       r14 := Word(s.mem, Wrap(buf + 40)), r15 := Word(s.mem, Wrap(buf + 48)),
       rip := Word(m1, Wrap(rdi as int + 56)), mem := m1)
  }

  lemma SavedInOrder(mem: Mem, buf: U64, sp: U64, ws: seq<U64>)
    requires |ws| == 8 && Separate(buf, sp) && ws[7] == Word(mem, sp - 8)
    ensures Saving(mem, SaveStores(mem, buf, sp, ws), buf, sp, ws)
    ensures Word(SaveStores(mem, buf, sp, ws), sp - 16) == buf
  {
    hide Word, Put, Saving;
    SavingNothing(mem, buf, sp);
    assert ws[..0] == [];
    SaveNth(mem, mem, buf, sp, ws, 0);
    var m1 := Put(mem, buf + 0, ws[0]);
    SaveNth(mem, m1, buf, sp, ws, 1);
    var m2 := Put(m1, buf + 8, ws[1]);
    SavePush(mem, m2, buf, sp, ws[..2], sp - 8, ws[7]);
    var m3 := Put(m2, sp - 8, ws[7]);
    SaveNth(mem, m3, buf, sp, ws, 2);
    var m4 := Put(m3, buf + 16, ws[2]);
    SaveNth(mem, m4, buf, sp, ws, 3);
    var m5 := Put(m4, buf + 24, ws[3]);
    SaveNth(mem, m5, buf, sp, ws, 4);
    var m6 := Put(m5, buf + 32, ws[4]);
    SaveNth(mem, m6, buf, sp, ws, 5);
    var m7 := Put(m6, buf + 40, ws[5]);
    SaveNth(mem, m7, buf, sp, ws, 6);
    var m8 := Put(m7, buf + 48, ws[6]);
    SaveNth(mem, m8, buf, sp, ws, 7);
    var m9 := Put(m8, buf + 56, ws[7]);
    assert ws[..8] == ws;
    SavePush(mem, m9, buf, sp, ws, sp - 16, buf);
  }

  lemma SaveNth(mem0: Mem, mem: Mem, buf: int, sp: int, ws: seq<U64>, k: nat)
    requires k < |ws| < 9 && Separate(buf, sp) && Saving(mem0, mem, buf, sp, ws[..k])
    ensures Saving(mem0, Put(mem, buf + 8 * k, ws[k]), buf, sp, ws[..k + 1])
  {
    hide Word, Put, Saving;
    SaveNext(mem0, mem, buf, sp, ws[..k], ws[k]);
    assert ws[..k] + [ws[k]] == ws[..k + 1];
  }

  class Core {
    var rax: U64
    var rbx: U64
    var rcx: U64
    var rdx: U64
    var rsi: U64
    var rdi: U64
    var rbp: U64
    var rsp: U64
    var r10: U64
    var r11: U64
    var r12: U64
    var r13: U64
    var r14: U64
    var r15: U64
    var rip: U64
    var mem: Mem
    var mask: U64
    var output: string

    function Abs(): State
      reads this
    {
      State(rax, rbx, rcx, rdx, rsi, rdi, rbp, rsp, r10, r11, r12, r13, r14, r15, rip, mem, mask, output)
    }

    constructor (s: State)
      ensures Abs() == s
    {
      rax, rbx, rcx, rdx, rsi, rdi, rbp, rsp := s.rax, s.rbx, s.rcx, s.rdx, s.rsi, s.rdi, s.rbp, s.rsp;
      r10, r11, r12, r13, r14, r15 := s.r10, s.r11, s.r12, s.r13, s.r14, s.r15;
      rip, mem, mask, output := s.rip, s.mem, s.mask, s.output;
    }

    /** Everything the code of another function did. */
    method Become(s: State)
      modifies this
      ensures Abs() == s
    {
      BecomeGeneral(s);
      r10, r11, r12, r13 := s.r10, s.r11, s.r12, s.r13;
      r14, r15, rip, mem, mask, output := s.r14, s.r15, s.rip, s.mem, s.mask, s.output;
    }

    method BecomeGeneral(s: State)
      modifies this`rax, this`rbx, this`rcx, this`rdx, this`rsi, this`rdi, this`rbp, this`rsp
      ensures rax == s.rax && rbx == s.rbx && rcx == s.rcx && rdx == s.rdx
      ensures rsi == s.rsi && rdi == s.rdi && rbp == s.rbp && rsp == s.rsp
    {
      rax, rbx, rcx, rdx := s.rax, s.rbx, s.rcx, s.rdx;
      rsi, rdi, rbp, rsp := s.rsi, s.rdi, s.rbp, s.rsp;
    }

    /** `push v` */
    method Push(v: U64)
      modifies this`mem, this`rsp
      ensures rsp == Wrap(old(rsp) as int - 8) && mem == Put(old(mem), rsp, v)
    {
      rsp := Wrap(rsp as int - 8);
      mem := Put(mem, rsp, v);
    }

    /** `pop` */
    method Pop() returns (v: U64)
      modifies this`rsp
      ensures v == Word(mem, old(rsp)) && rsp == Wrap(old(rsp) as int + 8)
    {
      v := Word(mem, rsp);
      rsp := Wrap(rsp as int + 8);
    }

    /** `mov [base + off], v` */
    method StoreAt(base: U64, off: nat, v: U64)
      modifies this`mem
      ensures mem == Put(old(mem), Wrap(base as int + off), v)
    {
      mem := Put(mem, Wrap(base as int + off), v);
    }

    /** `mov reg, [base + off]` */
    method LoadAt(base: U64, off: nat) returns (v: U64)
      ensures v == Word(mem, Wrap(base as int + off))
    {
      v := Word(mem, Wrap(base as int + off));
    }

    /**
      `syscall` for rt_sigprocmask: with a set size other than 8 the kernel answers -EINVAL
      and leaves mask and memory alone; with size 8 and null sets it has nothing to do.
      rcx and r11 are lost.
     */
    method Syscall(lostRcx: U64, lostR11: U64)
      requires rax == RT_SIGPROCMASK
      requires r10 == SIGSET_SIZE ==> rsi == 0 && rdx == 0
      modifies this`rax, this`rcx, this`r11
      ensures rax == (if r10 == SIGSET_SIZE then 0 else Wrap(-EINVAL)) && rcx == lostRcx && r11 == lostR11
    {
      rax := if r10 == SIGSET_SIZE then 0 else Wrap(-EINVAL);
      rcx, r11 := lostRcx, lostR11;
    }

    /** Lines 84 to 94: the saves and the pushes between them. */
    method SaveRegisters()
      modifies this`rsi, this`rsp, this`mem
      ensures var sp := Wrap(old(rsp) as int + 8);
              && rsi == Word(old(mem), old(rsp)) && rsp == Wrap(Wrap(sp as int - 8) as int - 8)
              && mem == SaveStores(old(mem), rdi, sp, [rbx, sp, rbp, r12, r13, r14, r15, rsi])
    {
      hide Word, Put, Wrap;
      rsi := Pop();
      StoreAt(rdi, 0, rbx);
      StoreAt(rdi, 8, rsp);
      Push(rsi);
      StoreAt(rdi, 16, rbp);
      StoreAt(rdi, 24, r12);
      StoreAt(rdi, 32, r13);
      StoreAt(rdi, 40, r14);
      StoreAt(rdi, 48, r15);
      StoreAt(rdi, 56, rsi);
      Push(rdi);
    }

    /** Lines 96 to 101: the request for the signal mask, which the kernel refuses. */
    method QueryMask(lostRcx: U64, lostR11: U64)
      modifies this`rax, this`rcx, this`rdx, this`rsi, this`rdi, this`r10, this`r11
      ensures rax == Wrap(-EINVAL) && rcx == lostRcx && rdx == 0 && rsi == 0 && rdi == 0 && r10 == 32 && r11 == lostR11
    {
      hide Wrap;
      rax := RT_SIGPROCMASK;
      rdi := 0;
      rsi := 0;
      rdx := 0;
      r10 := 32;
      Syscall(lostRcx, lostR11);
    }

    /** The code of `setjmp`. */
    method SetjmpCode(lostRcx: U64, lostR11: U64)
      modifies this
      ensures Abs() == SetjmpResult(old(Abs()), lostRcx, lostR11)
    {
      hide Word, Put, Wrap, SaveStores;
      SaveRegisters();
      QueryMask(lostRcx, lostR11);
      rdi := Pop();
      StoreAt(rdi, 64, rdx);
      rax := 0;
      rip := Pop();
    }

    /** `setjmp` */
    method Setjmp(lostRcx: U64, lostR11: U64)
      modifies this
      ensures Abs() == SetjmpResult(old(Abs()), lostRcx, lostR11)
      ensures old(Separate(rdi, rsp as int + 8)) ==> SetjmpDone(old(Abs()), Abs())
    {
      hide Word, Put, Wrap, Separate, SetjmpResult, SetjmpDone;
      if Separate(rdi, rsp as int + 8) {
        SetjmpSaves(Abs(), lostRcx, lostR11);
      }
      SetjmpCode(lostRcx, lostR11);
    }

    /** Lines 111 to 117. */
    method LoadRegisters()
      modifies this`rbx, this`rsp, this`rbp, this`r12, this`r13, this`r14, this`r15
      ensures rbx == Word(mem, Wrap(rdi as int + 0)) && rsp == Word(mem, Wrap(rdi as int + 8))
      ensures rbp == Word(mem, Wrap(rdi as int + 16)) && r12 == Word(mem, Wrap(rdi as int + 24))
      ensures r13 == Word(mem, Wrap(rdi as int + 32)) && r14 == Word(mem, Wrap(rdi as int + 40))
      ensures r15 == Word(mem, Wrap(rdi as int + 48))
    {
      hide Word, Wrap;
      rbx := LoadAt(rdi, 0);
      rsp := LoadAt(rdi, 8);
      rbp := LoadAt(rdi, 16);
      r12 := LoadAt(rdi, 24);
      r13 := LoadAt(rdi, 32);
      r14 := LoadAt(rdi, 40);
      r15 := LoadAt(rdi, 48);
    }

    /** Lines 111 to 120: the loads, then both arguments are pushed on the stack just restored. */
    method LoadAndPush()
      modifies this`rbx, this`rsp, this`rbp, this`r12, this`r13, this`r14, this`r15, this`mem
      ensures var m0, buf := old(mem), rdi as int;
              var high := Wrap(Word(m0, Wrap(buf + 8)) as int - 8);
              && rsp == Wrap(high as int - 8) && mem == Put(Put(m0, high, rdi), rsp, rsi)
              && rbx == Word(m0, Wrap(buf + 0)) && rbp == Word(m0, Wrap(buf + 16)) && r12 == Word(m0, Wrap(buf + 24))
              && r13 == Word(m0, Wrap(buf + 32)) && r14 == Word(m0, Wrap(buf + 40)) && r15 == Word(m0, Wrap(buf + 48))
    {
      hide Word, Put, Wrap;
      LoadRegisters();
      Push(rdi);
      Push(rsi);
    }

    /** Lines 122 to 127: the request to unblock the saved mask, which the kernel refuses. */
    method RestoreMask(lostRcx: U64, lostR11: U64)
      modifies this`rax, this`rcx, this`rdx, this`rsi, this`rdi, this`r10, this`r11
      ensures rax == Wrap(-EINVAL) && rcx == lostRcx && rdx == 0 && rdi == 1 && r10 == 32 && r11 == lostR11
      ensures rsi == Word(mem, Wrap(old(rdi) as int + 64))
    {
      hide Word, Wrap;
      rax := RT_SIGPROCMASK;
      rsi := LoadAt(rdi, 64);
      rdi := 1;
      rdx := 0;
      r10 := 32;
      Syscall(lostRcx, lostR11);
    }

    /** The code of `longjmp`. */
    method LongjmpCode(lostRcx: U64, lostR11: U64)
      modifies this
      ensures Abs() == LongjmpResult(old(Abs()), lostRcx, lostR11)
    {
      hide Word, Put, Wrap;
      LoadAndPush();
      RestoreMask(lostRcx, lostR11);
      rax := Pop();
      rdi := Pop();
      rip := LoadAt(rdi, 56);
    }

    /** `longjmp` */
    method Longjmp(lostRcx: U64, lostR11: U64)
      modifies this
      ensures Abs() == LongjmpResult(old(Abs()), lostRcx, lostR11)
      ensures old(Separate(rdi, SavedSp(Abs()))) ==> LongjmpDone(old(Abs()), Abs())
    {
      hide Word, Put, Wrap, Separate, SavedSp, LongjmpResult, LongjmpDone;
      if Separate(rdi, SavedSp(Abs())) {
        LongjmpLoads(Abs(), lostRcx, lostR11);
      }
      LongjmpCode(lostRcx, lostR11);
    }
  }

  // ----- what the results are -----

  /** `setjmp` returns 0 to its caller with every callee-saved register kept, and the buffer describes that return. */
  lemma SetjmpSaves(s: State, lostRcx: U64, lostR11: U64)
    requires Separate(s.rdi, s.rsp as int + 8)
    ensures SetjmpDone(s, SetjmpResult(s, lostRcx, lostR11))
  {
    hide Word, Put, Wrap, Saving, SaveStores, Holds, FrameKept;
    var sp: U64 := s.rsp as int + 8;
    WrapId(sp);
    WrapId(sp - 8);
    WrapId(sp - 16);
    WrapId(s.rdi as int + 64);
    var ret := Word(s.mem, s.rsp);
    var ws := [s.rbx, sp, s.rbp, s.r12, s.r13, s.r14, s.r15, ret];
    SavedInOrder(s.mem, s.rdi, sp, ws);
    var m1 := SaveStores(s.mem, s.rdi, sp, ws);
    SaveNext(s.mem, m1, s.rdi, sp, ws, 0);
    assert ws + [0] == SavedWords(s);
    SavingDone(s.mem, Put(m1, s.rdi as int + 64, 0), s.rdi, sp, ws + [0]);
  }

  /** The two pushes of `longjmp` can be popped again and leave the buffer alone. */
  lemma PushedTwice(mem: Mem, sp: int, buf: int, v: U64, w: U64)
    requires Separate(buf, sp)
    ensures var m2 := Put(Put(mem, sp - 8, v), sp - 16, w);
            && Word(m2, sp - 16) == w && Word(m2, sp - 8) == v && Word(m2, buf + 56) == Word(mem, buf + 56)
            && forall x :: !(sp - 16 <= x < sp) ==> m2(x) == mem(x)
  {
    hide Word, Put;
    var m1 := Put(mem, sp - 8, v);
    PutFrame(mem, sp - 8, v);
    PutFrame(m1, sp - 16, w);
    WordPut(mem, sp - 8, v, sp - 8);
    WordPut(mem, sp - 8, v, buf + 56);
    WordPut(m1, sp - 16, w, sp - 16);
    WordPut(m1, sp - 16, w, sp - 8);
    WordPut(m1, sp - 16, w, buf + 56);
  }

  /** `longjmp` loads what the buffer holds, returns its second argument, and changes two words below the new rsp only. */
  lemma LongjmpLoads(s: State, lostRcx: U64, lostR11: U64)
    requires Separate(s.rdi, SavedSp(s))
    ensures LongjmpDone(s, LongjmpResult(s, lostRcx, lostR11))
  {
    hide Word, Put, Wrap;
    var buf, sp := s.rdi as int, Word(s.mem, s.rdi as int + 8) as int;
    WrapId(buf);
    WrapId(buf + 8);
    WrapId(buf + 16);
    WrapId(buf + 24);
    WrapId(buf + 32);
    WrapId(buf + 40);
    WrapId(buf + 48);
    WrapId(buf + 56);
    WrapId(sp - 8);
    WrapId(sp - 16);
    WrapId(sp);
    PushedTwice(s.mem, sp, buf, s.rdi, s.rsi);
  }

  /** The jump buffer word by word, as the eight registers are to be stored, and the mask behind them. */
  lemma JumpBufferLayout(s: State, t: State)
    requires SetjmpDone(s, t)
    ensures Word(t.mem, s.rdi as int) == s.rbx && Word(t.mem, s.rdi as int + 8) == t.rsp && Word(t.mem, s.rdi as int + 16) == s.rbp
    ensures Word(t.mem, s.rdi as int + 24) == s.r12 && Word(t.mem, s.rdi as int + 32) == s.r13
    ensures Word(t.mem, s.rdi as int + 40) == s.r14 && Word(t.mem, s.rdi as int + 48) == s.r15
    ensures Word(t.mem, s.rdi as int + 56) == Word(s.mem, s.rsp) && Word(t.mem, s.rdi as int + 64) == 0
  {
    hide Word;
    var ws := SavedWords(s);
    forall i | 0 <= i < 9 ensures Word(t.mem, s.rdi + 8 * i) == ws[i] {}
    assert Word(t.mem, s.rdi + 8 * 0) == ws[0] && Word(t.mem, s.rdi + 8 * 1) == ws[1] && Word(t.mem, s.rdi + 8 * 2) == ws[2];
    assert Word(t.mem, s.rdi + 8 * 3) == ws[3] && Word(t.mem, s.rdi + 8 * 4) == ws[4] && Word(t.mem, s.rdi + 8 * 5) == ws[5];
    assert Word(t.mem, s.rdi + 8 * 6) == ws[6] && Word(t.mem, s.rdi + 8 * 7) == ws[7] && Word(t.mem, s.rdi + 8 * 8) == ws[8];
  }

  /** The code in between has not changed the eight saved words. */
  ghost predicate BufferKept(mem1: Mem, mem2: Mem, buf: int) {
    forall i :: 0 <= i < 8 ==> Word(mem2, buf + 8 * i) == Word(mem1, buf + 8 * i)
  }

  /** The words saved by `setjmp` are read back from a buffer that was kept. */
  lemma ReadsBack(s: State, t: State, u: State)
    requires SetjmpDone(s, t) && BufferKept(t.mem, u.mem, s.rdi)
    ensures Word(u.mem, s.rdi as int) == s.rbx && Word(u.mem, s.rdi as int + 8) == t.rsp && Word(u.mem, s.rdi as int + 16) == s.rbp
    ensures Word(u.mem, s.rdi as int + 24) == s.r12 && Word(u.mem, s.rdi as int + 32) == s.r13
    ensures Word(u.mem, s.rdi as int + 40) == s.r14 && Word(u.mem, s.rdi as int + 48) == s.r15
    ensures Word(u.mem, s.rdi as int + 56) == Word(s.mem, s.rsp)
  {
    hide Word, Holds, SavedWords;
    JumpBufferLayout(s, t);
    var b := s.rdi as int;
    assert Word(u.mem, b + 8 * 0) == Word(t.mem, b + 8 * 0) && Word(u.mem, b + 8 * 1) == Word(t.mem, b + 8 * 1);
    assert Word(u.mem, b + 8 * 2) == Word(t.mem, b + 8 * 2) && Word(u.mem, b + 8 * 3) == Word(t.mem, b + 8 * 3);
    assert Word(u.mem, b + 8 * 4) == Word(t.mem, b + 8 * 4) && Word(u.mem, b + 8 * 5) == Word(t.mem, b + 8 * 5);
    assert Word(u.mem, b + 8 * 6) == Word(t.mem, b + 8 * 6) && Word(u.mem, b + 8 * 7) == Word(t.mem, b + 8 * 7);
  }

  /** The buffer is good for another jump. */
  lemma JumpKeepsBuffer(s: State, t: State, u: State, v: State)
    requires Separate(s.rdi, s.rsp as int + 8) && SetjmpDone(s, t) && u.rdi == s.rdi
    requires BufferKept(t.mem, u.mem, s.rdi) && LongjmpDone(u, v)
    ensures BufferKept(t.mem, v.mem, s.rdi)
  {
    hide Word, Holds, SavedWords;
    ReadsBack(s, t, u);
    var buf := s.rdi as int;
    forall i | 0 <= i < 8 ensures Word(v.mem, buf + 8 * i) == Word(t.mem, buf + 8 * i) {
      WordSame(v.mem, u.mem, buf + 8 * i);
    }
  }

  /**
    The non-local round trip: after `setjmp(buf)` led from `s` to its return in `t`, and any
    code that kept the saved words led to a call `longjmp(buf, val)` in `u`, that call ends
    in `v`: back where `setjmp` returned, on the same stack, with the callee-saved registers
    of `t` and `val` as the value, and the memory of `u` but for the two words below the stack.
   */
  lemma RoundTrip(s: State, t: State, u: State, v: State)
    requires Separate(s.rdi, s.rsp as int + 8)
    requires SetjmpDone(s, t) && u.rdi == s.rdi && BufferKept(t.mem, u.mem, s.rdi) && LongjmpDone(u, v)
    ensures v.rip == t.rip && v.rsp == t.rsp && v.rax == u.rsi && v.rdi == s.rdi
    ensures v.rbx == t.rbx && v.rbp == t.rbp && v.r12 == t.r12 && v.r13 == t.r13 && v.r14 == t.r14 && v.r15 == t.r15
    ensures forall x :: !(t.rsp - 16 <= x < t.rsp) ==> v.mem(x) == u.mem(x)
    ensures BufferKept(t.mem, v.mem, s.rdi) && v.output == u.output
  {
    hide Word, Holds, SavedWords, BufferKept;
    ReadsBack(s, t, u);
    JumpKeepsBuffer(s, t, u, v);
  }

  /** The call of `longjmp` finds its stack words clear of the buffer whenever the call of `setjmp` did. */
  lemma LongjmpAllowed(s: State, t: State, u: State)
    requires Separate(s.rdi, s.rsp as int + 8)
    requires SetjmpDone(s, t) && u.rdi == s.rdi && BufferKept(t.mem, u.mem, s.rdi)
    ensures SavedSp(u) == t.rsp && Separate(u.rdi, SavedSp(u))
  {
    hide Word;
    assert Word(u.mem, s.rdi + 8 * 1) == SavedWords(s)[1];
  }

  /** The `int` in the low half of a register. */
  function Low32(r: U64): int {
    r % 0x1_0000_0000
  }

  /** Section 7.13.2.1 of ISO/IEC 9899:2011: `setjmp` then returns `val`, or 1 if `val` is 0. */
  function StandardReturn(val: int): int {
    if val == 0 then 1 else val
  }

  /** The value that `setjmp` returns the second time is the standard one exactly when `val` is not 0. */
  lemma ReturnsStandardValue(u: State, v: State)
    requires LongjmpDone(u, v)
    ensures Low32(v.rax) == StandardReturn(Low32(u.rsi)) <==> Low32(u.rsi) != 0
  {
  }

  /** The signal mask is not saved, and is that of the `setjmp` call exactly when nobody changed it in between. */
  lemma MaskIsNotSaved(s: State, t: State, u: State, v: State)
    requires SetjmpDone(s, t) && LongjmpDone(u, v)
    ensures Word(t.mem, s.rdi as int + 64) == 0
    ensures v.mask == s.mask <==> u.mask == s.mask
  {
    hide Word;
    assert Word(t.mem, s.rdi + 8 * 8) == SavedWords(s)[8];
  }
}
