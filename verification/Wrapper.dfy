/**
  The loop that persistent mode wraps around a function: it steals the return address, re-enters
  the function through its own label and finally returns to the real caller.
  The three calls it makes (pass counter, hook, function body) are known by contract only.
 */
module Wrapper {
  import opened Words
  import opened Machine
  import opened Calls
  import opened Loop
  import opened RegBackup

  /** Data cells and labels of the emitted code; `entry` is rsp when the function is first entered. */
  datatype Frame = Frame(
    entry: u64, firstPass: u64, cycle: u64, retBackup: u64, backup: u64, fuzzPtr: u64, fuzzLen: u64,
    loopLabel: u64, afterLoop: u64, afterHook: u64, count: u32, hooked: bool)
  {
    /** The stack words the wrapper itself writes. */
    function Stack(): Span { Span(entry - 0xa8, 0xb0) }
    function Ret(): Span { Span(retBackup, 8) }
    function Area(): Span { Span(backup, AREA_SIZE) }

    ghost predicate Valid() {
      && 0xb0 <= entry && entry + 0x10 <= TWO64
      && retBackup + 8 <= TWO64 && backup + AREA_SIZE <= TWO64
      && Apart(Stack(), Span(firstPass, 1)) && Apart(Stack(), Span(cycle, 4))
      && Apart(Stack(), Ret()) && Apart(Stack(), Area())
      && Apart(Ret(), Span(firstPass, 1)) && Apart(Ret(), Span(cycle, 4)) && Apart(Ret(), Area())
      && Apart(Area(), Span(firstPass, 1)) && Apart(Area(), Span(cycle, 4))
    }
  }

  function CounterAt(w: Frame, m: Mem): Counter {
    Counter(At(m, w.firstPass) != 0, ReadN(m, w.cycle, 4))
  }

  ghost predicate Same(m: Mem, m': Mem, sp: Span) {
    forall x :: In(x, sp) ==> At(m', x) == At(m, x)
  }

  // ---------- the emitted code ----------

  /** On the first pass, move the real return address into its backup cell. */
  function StealReturn(w: Frame, h: State): State {
    var s := RunBody([Movzx8(RAX, Abs(w.firstPass)), TestAl], h);
    if s.core.flags.zf then s else RunBody([Pop(RAX), Store(Abs(w.retBackup), RAX)], s)
  }

  function PushLabel(w: Frame): seq<Instr> {
    [MovRI(RAX, w.loopLabel), Push(RAX)]
  }

  function BeforeLoopCall(w: Frame, h: State): State {
    RunBody([MovRI(RDI, w.count)], RunBody(AlignBefore(RCX), RunBody(PushLabel(w), StealReturn(w, h))))
  }

  /** From `.Lsetup_loop` to the entry of `__afl_persistent_loop`. */
  function AtLoopCall(w: Frame, h: State): State {
    Called(BeforeLoopCall(w, h), w.afterLoop)
  }

  function AfterLoopCall(v: State): State {
    RunBody([TestEax], RunBody(AlignAfter(RCX), v))
  }

  /** `jne .Lstart_func`. */
  predicate StartsBody(v: State) {
    !AfterLoopCall(v).core.flags.zf
  }

  function HookArguments(w: Frame): seq<Instr> {
    [MovRI(RDI, w.backup), Load(RSI, Abs(w.fuzzPtr)), Load(RAX, Abs(w.fuzzLen)), Load32(RDX, Disp(RAX, 0))]
  }

  function BeforeHookCall(w: Frame, v: State): State {
    RunBody(HookArguments(w), RunBody(AlignBefore(RCX), AfterLoopCall(v)))
  }

  function AtHookCall(w: Frame, v: State): State {
    Called(BeforeHookCall(w, v), w.afterHook)
  }

  /** The state in which the function body begins. */
  function BodyStart(w: Frame, v: State, hv: State): State
    requires w.backup + AREA_SIZE <= TWO64
  {
    RunBody(Restore(w.backup), if w.hooked then RunBody(AlignAfter(RCX), hv) else AfterLoopCall(v))
  }

  function PutBack(w: Frame): seq<Instr> {
    [Load(RAX, Abs(w.retBackup)), Lea(RSP, Disp(RSP, 8)), Push(RAX)]
  }

  /** The state just before the closing `ret`. */
  function BeforeRet(w: Frame, v: State): State
    requires w.backup + AREA_SIZE <= TWO64
  {
    RunBody(Restore(w.backup), RunBody(PutBack(w), AfterLoopCall(v)))
  }

  // ---------- the callees ----------

  /** `__afl_persistent_loop`: counts as the Loop module says and keeps off the wrapper's data. */
  ghost predicate LoopCall(w: Frame, u: State, v: State) {
    var max := u.core.regs[RDI] % TWO32;
    && Conforms(u, v, w.entry + 8)
    && CounterAt(w, v.mem) == Next(CounterAt(w, u.mem), max)
    && (v.core.regs[RAX] % TWO32 != 0 <==> Again(CounterAt(w, u.mem), max))
    && Same(u.mem, v.mem, w.Ret()) && Same(u.mem, v.mem, w.Area())
  }

  function Bytes(m: Mem, a: int, n: nat): seq<u8> {
    seq<u8>(n, (i: nat) => At(m, a + i))
  }

  /** The test case as the hook receives it: pointer in rsi, length in edx. */
  function Testcase(u: State): seq<u8> {
    Bytes(u.mem, u.core.regs[RSI], u.core.regs[RDX] % TWO32)
  }

  type Hook = (File, seq<u8>) -> File

  /** The hook rewrites the register struct it is handed in rdi; it may write elsewhere, but not to
      the wrapper's other cells nor to the stack above its frame. */
  ghost predicate HookCall(w: Frame, hook: Hook, u: State, v: State) {
    && Conforms(u, v, w.entry + 8)
    && FileAt(v.mem, u.core.regs[RDI]) == hook(FileAt(u.mem, u.core.regs[RDI]), Testcase(u))
    && CounterAt(w, v.mem) == CounterAt(w, u.mem) && Same(u.mem, v.mem, w.Ret())
  }

  /** The body returns where the word on top of the stack said and pops it. */
  ghost predicate BodyCall(w: Frame, u: State, back: u64, v: State) {
    && back == Read64(u.mem, u.core.Rsp()) && v.core.Rsp() == Plus(u.core.Rsp(), 8)
    && CounterAt(w, v.mem) == CounterAt(w, u.mem)
    && Same(u.mem, v.mem, w.Ret()) && Same(u.mem, v.mem, w.Area())
  }

  // ---------- one pass ----------

  /** What holds each time control reaches `.Lsetup_loop`, k bodies having run. */
  ghost predicate Head(w: Frame, h: State, k: nat, orig: u64, f: File) {
    && h.core.Rsp() == (if CounterAt(w, h.mem).firstPass then w.entry else w.entry + 8)
    && (if k == 0
        then CounterAt(w, h.mem).firstPass && Read64(h.mem, w.entry) == orig
        else CounterAt(w, h.mem) == After(w.count, k) && Read64(h.mem, w.retBackup) == orig)
    && FileAt(h.mem, w.backup) == f
  }

  lemma TestFirstPass(w: Frame, h: State)
    ensures var t := RunBody([Movzx8(RAX, Abs(w.firstPass)), TestAl], h);
            && t.mem == h.mem && t.core.Rsp() == h.core.Rsp()
            && (t.core.flags.zf <==> !CounterAt(w, h.mem).firstPass)
  {
    hide Read64, Write64, WriteN, OddOnes;
    var code := [Movzx8(RAX, Abs(w.firstPass)), TestAl];
    var b := At(h.mem, w.firstPass);
    assert ReadN(h.mem, w.firstPass, 1) == b;
    var s1 := State(h.core.Set(RAX, b), h.mem);
    assert Step(code[0], h) == s1 by { StepQuiet(code[0], h); }
    var s2 := State(s1.core.(flags := LogicFlags(b, 256)), h.mem);
    assert Step(code[1], s1) == s2 by { StepQuiet(code[1], s1); }
    Chain2(code, h, s1, s2);
  }

  lemma StealRuns(w: Frame, h: State)
    requires w.Valid()
    requires h.core.Rsp() == if CounterAt(w, h.mem).firstPass then w.entry else w.entry + 8
    ensures var t := StealReturn(w, h);
            && t.core.Rsp() == w.entry + 8
            && (forall x :: !In(x, w.Ret()) ==> At(t.mem, x) == At(h.mem, x))
            && (if CounterAt(w, h.mem).firstPass
                then Read64(t.mem, w.retBackup) == Read64(h.mem, w.entry)
                else t.mem == h.mem)
  {
    hide Read64, Write64, WriteN, ReadN, CounterAt;
    TestFirstPass(w, h);
    var s := RunBody([Movzx8(RAX, Abs(w.firstPass)), TestAl], h);
    if !s.core.flags.zf {
      var code := [Pop(RAX), Store(Abs(w.retBackup), RAX)];
      StepPop(RAX, s);
      var s1 := Step(code[0], s);
      StepStore(Abs(w.retBackup), RAX, s1);
      Chain2(code, s, s1, Step(code[1], s1));
    }
  }

  lemma PushLabelRuns(w: Frame, s: State)
    requires 8 <= s.core.Rsp()
    ensures var t := RunBody(PushLabel(w), s);
            && t.core.Rsp() == s.core.Rsp() - 8 && Read64(t.mem, t.core.Rsp()) == w.loopLabel
            && (forall x :: !In(x, Span(s.core.Rsp() - 8, 8)) ==> At(t.mem, x) == At(s.mem, x))
  {
    hide Read64, Write64, WriteN, ReadN, Step;
    var code := PushLabel(w);
    var s1 := State(s.core.Set(RAX, w.loopLabel), s.mem);
    StepMovRI(RAX, w.loopLabel, s);
    StepPush(RAX, s1);
    Chain2(code, s, s1, Step(code[1], s1));
  }

  lemma CounterFrame(w: Frame, m: Mem, m': Mem)
    requires Same(m, m', Span(w.firstPass, 1)) && Same(m, m', Span(w.cycle, 4))
    ensures CounterAt(w, m') == CounterAt(w, m)
  {
    assert In(w.firstPass, Span(w.firstPass, 1));
    ReadFrame(m, m', w.cycle, 4);
  }

  /** Up to the loop call nothing but the stolen return address and the wrapper's stack words change;
      the call is aligned and passes the configured count. */
  lemma ToLoopCall(w: Frame, h: State, k: nat, orig: u64, f: File)
    requires w.Valid() && Head(w, h, k, orig, f)
    ensures var s := RunBody(PushLabel(w), StealReturn(w, h));
            var mid := BeforeLoopCall(w, h);
            && s.core.Rsp() == w.entry && Read64(s.mem, w.entry) == w.loopLabel
            && Arguments(RunBody(AlignBefore(RCX), s), mid) && mid.core.regs[RDI] == w.count
    ensures var u := AtLoopCall(w, h);
            && (forall x :: !In(x, w.Ret()) && !In(x, w.Stack()) ==> At(u.mem, x) == At(h.mem, x))
            && Read64(u.mem, w.retBackup) == orig && CounterAt(w, u.mem) == CounterAt(w, h.mem)
            && FileAt(u.mem, w.backup) == f
  {
    hide Read64, Write64, WriteN, ReadN, Step, StealReturn, PushLabel, AlignBefore, CounterAt, FileAt, CallRsp;
    StealRuns(w, h);
    var s0 := StealReturn(w, h);
    PushLabelRuns(w, s0);
    var s := RunBody(PushLabel(w), s0);
    AlignBeforeRuns(RCX, s);
    var a := RunBody(AlignBefore(RCX), s);
    StepMovRI(RDI, w.count, a);
    RunOne(MovRI(RDI, w.count), a);
    hide RunBody;
    var u := AtLoopCall(w, h);
    assert forall x :: !In(x, w.Stack()) ==> At(u.mem, x) == At(s0.mem, x) by { CallRange(w.entry); }
    Read64Frame(s0.mem, u.mem, w.retBackup);
    CounterFrame(w, h.mem, u.mem);
    FileFrame(h.mem, u.mem, w.backup);
  }

  lemma CallRange(rsp: u64)
    requires 0xb0 <= rsp
    ensures rsp - 0xa0 < CallRsp(rsp) && CallRsp(rsp) + 16 <= rsp
  {
  }

  lemma TestEaxRuns(v: State)
    ensures var t := RunBody([TestEax], v);
            && t.mem == v.mem && t.core == v.core.(flags := t.core.flags)
            && (t.core.flags.zf <==> v.core.regs[RAX] % TWO32 == 0)
  {
    hide Read64, Write64, WriteN, ReadN, OddOnes;
    RunOne(TestEax, v);
    StepQuiet(TestEax, v);
  }

  /** Between the loop call's return and the branch: rsp stands at the loop label, and the branch is
      taken exactly while passes remain. */
  lemma FromLoopCall(w: Frame, h: State, k: nat, orig: u64, f: File, v: State)
    requires w.Valid() && Head(w, h, k, orig, f) && k <= Passes(w.count)
    requires LoopCall(w, AtLoopCall(w, h), v)
    ensures var x := AfterLoopCall(v);
            && x.core.Rsp() == w.entry && Read64(x.mem, w.entry) == w.loopLabel && x.mem == v.mem
            && CounterAt(w, x.mem) == After(w.count, k + 1)
            && Read64(x.mem, w.retBackup) == orig && FileAt(x.mem, w.backup) == f
    ensures BeforeLoopCall(w, h).core.Rsp() % 16 == 0
    ensures StartsBody(v) <==> k < Passes(w.count)
  {
    hide Read64, Write64, WriteN, ReadN, Step, StealReturn, PushLabel, AlignBefore, AlignAfter, FileAt, Conforms;
    ToLoopCall(w, h, k, orig, f);
    var s := RunBody(PushLabel(w), StealReturn(w, h));
    var mid := BeforeLoopCall(w, h);
    var u := AtLoopCall(w, h);
    AlignedCall(RCX, s, mid, w.afterLoop, v, w.entry + 8);
    var y := RunBody(AlignAfter(RCX), v);
    TestEaxRuns(y);
    hide RunBody;
    assert mid.core.regs[RDI] == u.core.regs[RDI] by { assert u == Called(mid, w.afterLoop); }
    Read64Frame(s.mem, y.mem, w.entry);
    Read64Frame(u.mem, v.mem, w.retBackup);
    FileFrame(u.mem, v.mem, w.backup);
    AgainExactly(w.count, k);
    if k == 0 {
      FirstCallSetsCycle(CounterAt(w, h.mem), w.count);
    }
  }

  // ---------- the hook ----------

  lemma HookArgumentsRun(w: Frame, a: State)
    ensures var t := RunBody(HookArguments(w), a);
            && Arguments(a, t)
            && t.core.regs[RDI] == w.backup && t.core.regs[RSI] == Read64(a.mem, w.fuzzPtr)
            && t.core.regs[RDX] == ReadN(a.mem, Read64(a.mem, w.fuzzLen), 4)
  {
    hide Read64, Write64, WriteN, ReadN, Step;
    var code := HookArguments(w);
    StepMovRI(RDI, w.backup, a);
    var s1 := State(a.core.Set(RDI, w.backup), a.mem);
    StepLoad(RSI, Abs(w.fuzzPtr), s1);
    var s2 := State(s1.core.Set(RSI, Read64(a.mem, w.fuzzPtr)), a.mem);
    StepLoad(RAX, Abs(w.fuzzLen), s2);
    var s3 := State(s2.core.Set(RAX, Read64(a.mem, w.fuzzLen)), a.mem);
    StepLoad32(RDX, Disp(RAX, 0), s3);
    Chain4(code, a, s1, s2, s3, Step(code[3], s3));
  }

  /** The hook call leaves rsp and the loop label alone and replaces the saved registers by what the
      hook makes of them and of the test case. */
  lemma HookRuns(w: Frame, hook: Hook, v: State, hv: State)
    requires w.Valid()
    requires var x := AfterLoopCall(v); x.core.Rsp() == w.entry && Read64(x.mem, w.entry) == w.loopLabel
    requires HookCall(w, hook, AtHookCall(w, v), hv)
    ensures var x := AfterLoopCall(v);
            var y := RunBody(AlignAfter(RCX), hv);
            && y.mem == hv.mem && y.core.Rsp() == w.entry && Read64(y.mem, w.entry) == w.loopLabel
            && FileAt(y.mem, w.backup) == hook(FileAt(x.mem, w.backup), Testcase(AtHookCall(w, v)))
            && CounterAt(w, y.mem) == CounterAt(w, x.mem)
            && Read64(y.mem, w.retBackup) == Read64(x.mem, w.retBackup)
    ensures BeforeHookCall(w, v).core.Rsp() % 16 == 0
  {
    hide Read64, Write64, WriteN, ReadN, Step, AlignBefore, AlignAfter, FileAt, HookArguments, CallRsp, CounterAt;
    hide AfterLoopCall, Conforms, Testcase;
    var x := AfterLoopCall(v);
    AlignBeforeRuns(RCX, x);
    var a := RunBody(AlignBefore(RCX), x);
    HookArgumentsRun(w, a);
    var mid := BeforeHookCall(w, v);
    var u := AtHookCall(w, v);
    AlignedCall(RCX, x, mid, w.afterHook, hv, w.entry + 8);
    var y := RunBody(AlignAfter(RCX), hv);
    hide RunBody;
    Read64Frame(x.mem, y.mem, w.entry);
    assert u.core.regs[RDI] == w.backup by { assert u == Called(mid, w.afterHook); }
    FileFrame(x.mem, u.mem, w.backup);
    CounterFrame(w, x.mem, u.mem);
    Read64Frame(x.mem, u.mem, w.retBackup);
    Read64Frame(u.mem, y.mem, w.retBackup);
  }

  /** The hook sees the bytes at `__afl_fuzz_ptr`, as many as `*__afl_fuzz_len` says. */
  lemma HookSeesTestcase(w: Frame, v: State)
    requires w.Valid()
    requires var x := AfterLoopCall(v);
             var p, n := Read64(x.mem, w.fuzzPtr), Read64(x.mem, w.fuzzLen);
             && x.core.Rsp() == w.entry
             && Apart(Span(w.fuzzPtr, 8), w.Stack()) && Apart(Span(w.fuzzLen, 8), w.Stack())
             && Apart(Span(n, 4), w.Stack()) && Apart(Span(p, ReadN(x.mem, n, 4)), w.Stack())
    ensures var x, u := AfterLoopCall(v), AtHookCall(w, v);
            && u.core.regs[RDI] == w.backup && u.core.regs[RSI] == Read64(x.mem, w.fuzzPtr)
            && u.core.regs[RDX] == ReadN(x.mem, Read64(x.mem, w.fuzzLen), 4)
    ensures var x := AfterLoopCall(v);
            Testcase(AtHookCall(w, v))
            == Bytes(x.mem, Read64(x.mem, w.fuzzPtr), ReadN(x.mem, Read64(x.mem, w.fuzzLen), 4))
  {
    hide Read64, Write64, WriteN, ReadN, Step, AlignBefore, HookArguments, CallRsp, AfterLoopCall;
    var x := AfterLoopCall(v);
    AlignBeforeRuns(RCX, x);
    CallRange(w.entry);
    var a := RunBody(AlignBefore(RCX), x);
    HookArgumentsRun(w, a);
    hide RunBody;
    var u := AtHookCall(w, v);
    assert u == Called(BeforeHookCall(w, v), w.afterHook);
    assert forall y :: !In(y, w.Stack()) ==> At(u.mem, y) == At(x.mem, y) && At(a.mem, y) == At(x.mem, y);
    Read64Frame(x.mem, a.mem, w.fuzzPtr);
    Read64Frame(x.mem, a.mem, w.fuzzLen);
    ReadFrame(x.mem, a.mem, Read64(x.mem, w.fuzzLen), 4);
    var p, n := Read64(x.mem, w.fuzzPtr), ReadN(x.mem, Read64(x.mem, w.fuzzLen), 4);
    assert n % TWO32 == n;
    BytesFrame(x.mem, u.mem, p, n);
  }

  lemma BytesFrame(m: Mem, m': Mem, a: int, n: nat)
    requires Same(m, m', Span(a, n))
    ensures Bytes(m', a, n) == Bytes(m, a, n)
  {
    forall i | 0 <= i < n ensures Bytes(m', a, n)[i] == Bytes(m, a, n)[i] {
      assert In(a + i, Span(a, n));
    }
  }

  // ---------- leaving the loop ----------

  lemma PutBackRuns(w: Frame, x: State)
    requires x.core.Rsp() == w.entry && w.entry + 0x10 <= TWO64
    ensures var t := RunBody(PutBack(w), x);
            && t.core.Rsp() == w.entry && Read64(t.mem, w.entry) == Read64(x.mem, w.retBackup)
            && (forall y :: !In(y, Span(w.entry, 8)) ==> At(t.mem, y) == At(x.mem, y))
  {
    hide Read64, Write64, WriteN, ReadN, Step;
    var code := PutBack(w);
    StepLoad(RAX, Abs(w.retBackup), x);
    var s1 := State(x.core.Set(RAX, Read64(x.mem, w.retBackup)), x.mem);
    StepLea(RSP, Disp(RSP, 8), s1);
    var s2 := State(s1.core.Set(RSP, w.entry + 8), x.mem);
    StepPush(RAX, s2);
    Chain3(code, x, s1, s2, Step(code[2], s2));
  }

  /** The closing `ret` goes to the stolen return address with the stack as a plain return leaves it
      and the saved registers loaded; no byte of the caller's stack is written. */
  lemma LeaveRuns(w: Frame, v: State)
    requires w.Valid() && AfterLoopCall(v).core.Rsp() == w.entry
    ensures var x, r := AfterLoopCall(v), BeforeRet(w, v);
            && r.core.Rsp() == w.entry
            && Read64(r.mem, r.core.Rsp()) == Read64(x.mem, w.retBackup)
            && Loaded(r.core, FileAt(x.mem, w.backup))
            && (forall y :: !In(y, Span(w.entry, 8)) ==> At(r.mem, y) == At(x.mem, y))
  {
    hide Read64, Write64, WriteN, ReadN, Step, PutBack, Restore, FileAt, AfterLoopCall, Loaded;
    var x := AfterLoopCall(v);
    PutBackRuns(w, x);
    var t := RunBody(PutBack(w), x);
    RestoreRuns(w.backup, t);
    hide RunBody;
    FileFrame(x.mem, t.mem, w.backup);
  }

  // ---------- whole runs ----------

  /** What the environment supplies in one pass: the states in which the pass counter, the hook and
      the body return, and the address the body returns to. */
  datatype Pass = Pass(loop: State, hook: State, body: State, back: u64)

  /** The function is entered for the first time in this process. */
  ghost predicate Entered(w: Frame, s: State) {
    s.core.Rsp() == w.entry && CounterAt(w, s.mem).firstPass
  }

  function HeadState(w: Frame, s: State, run: seq<Pass>, k: nat): State
    requires w.backup + AREA_SIZE <= TWO64 && k <= |run|
  {
    if k == 0 then RunBody(Backup(w.backup), s) else run[k - 1].body
  }

  ghost predicate PassOk(w: Frame, hook: Hook, h: State, p: Pass)
    requires w.backup + AREA_SIZE <= TWO64
  {
    && LoopCall(w, AtLoopCall(w, h), p.loop) && StartsBody(p.loop)
    && (w.hooked ==> HookCall(w, hook, AtHookCall(w, p.loop), p.hook))
    && BodyCall(w, BodyStart(w, p.loop, p.hook), p.back, p.body)
  }

  /** A run of the wrapper in which every callee kept its contract and every branch so far started
      the body. */
  ghost predicate RunOk(w: Frame, hook: Hook, s: State, run: seq<Pass>)
    requires w.backup + AREA_SIZE <= TWO64
  {
    forall k :: 0 <= k < |run| ==> PassOk(w, hook, HeadState(w, s, run, k), run[k])
  }

  /** The entry registers put through the hook once per pass. */
  function Saved(w: Frame, hook: Hook, s: State, run: seq<Pass>, k: nat): File
    requires k <= |run|
  {
    if k == 0 then FileOf(s.core, FileAt(s.mem, w.backup).xhi)
    else AfterHook(w, hook, Saved(w, hook, s, run, k - 1), run[k - 1].loop)
  }

  function AfterHook(w: Frame, hook: Hook, f: File, v: State): File {
    if w.hooked then hook(f, Testcase(AtHookCall(w, v))) else f
  }

  /** One pass, from `.Lsetup_loop` to `.Lsetup_loop`. */
  lemma PassRuns(w: Frame, hook: Hook, h: State, k: nat, orig: u64, f: File, p: Pass)
    requires w.Valid() && Head(w, h, k, orig, f) && k <= Passes(w.count)
    requires PassOk(w, hook, h, p)
    ensures var b := BodyStart(w, p.loop, p.hook);
            var f' := AfterHook(w, hook, f, p.loop);
            && k < Passes(w.count)
            && b.core.Rsp() == w.entry && Read64(b.mem, w.entry) == w.loopLabel && Loaded(b.core, f')
            && p.back == w.loopLabel
            && Head(w, p.body, k + 1, orig, f')
  {
    hide Read64, Write64, WriteN, ReadN, Step, Restore, AlignAfter, FileAt, AfterLoopCall, Loaded, Testcase;
    hide StartsBody, LoopCall, HookCall, AtLoopCall, AtHookCall, RunBody;
    FromLoopCall(w, h, k, orig, f, p.loop);
    var x := AfterLoopCall(p.loop);
    if w.hooked {
      HookRuns(w, hook, p.loop, p.hook);
    }
    var y := if w.hooked then RunBody(AlignAfter(RCX), p.hook) else x;
    RestoreRuns(w.backup, y);
    var b := BodyStart(w, p.loop, p.hook);
    assert b == RunBody(Restore(w.backup), y);
    Read64Frame(b.mem, p.body.mem, w.retBackup);
    FileFrame(b.mem, p.body.mem, w.backup);
  }

  /** Each time control reaches `.Lsetup_loop`, after k bodies. */
  lemma {:induction false} HeadsKeepInvariant(w: Frame, hook: Hook, s: State, run: seq<Pass>, k: nat)
    requires w.Valid() && Entered(w, s) && RunOk(w, hook, s, run) && k <= |run|
    ensures k <= Passes(w.count)
    ensures Head(w, HeadState(w, s, run, k), k, Read64(s.mem, w.entry), Saved(w, hook, s, run, k))
    decreases k
  {
    hide Read64, Write64, WriteN, ReadN, Step, FileAt, RunBody, Backup, PassOk, FileOf, CounterAt, Testcase;
    if k == 0 {
      BackupRuns(w.backup, s);
      var h := RunBody(Backup(w.backup), s);
      CounterFrame(w, s.mem, h.mem);
      Read64Frame(s.mem, h.mem, w.entry);
    } else {
      hide Head;
      HeadsKeepInvariant(w, hook, s, run, k - 1);
      PassRuns(w, hook, HeadState(w, s, run, k - 1), k - 1, Read64(s.mem, w.entry), Saved(w, hook, s, run, k - 1),
               run[k - 1]);
    }
  }

  // ---------- the one callee-saved register without a slot ----------

  /** The instruction names another register than rbp as its destination. */
  predicate LeavesRbp(i: Instr) {
    match i
    case MovRI(d, _) => d != RBP
    case MovRR(d, _) => d != RBP
    case Load(d, _) => d != RBP
    case Load32(d, _) => d != RBP
    case Movzx8(d, _) => d != RBP
    case Lea(d, _) => d != RBP
    case Pop(d) => d != RBP
    case AddRI(d, _) => d != RBP
    case SubRI(d, _) => d != RBP
    case AndAlign16(d) => d != RBP
    case XorRM(d, _) => d != RBP
    case Other(_, _) => false
    case _ => true
  }

  function Rbp(s: State): u64 { s.core.regs[RBP] }

  lemma StepLeavesRbp(i: Instr, s: State)
    requires LeavesRbp(i)
    ensures Rbp(Step(i, s)) == Rbp(s)
  {
    hide WriteN, ReadN, AddFlags, SubFlags, LogicFlags, LowFlags, FromLowFlags, FlagWord, FromFlagWord, OddOnes;
    hide EA, Xor64;
  }

  lemma {:induction false} RunLeavesRbp(code: seq<Instr>, k: nat, s: State)
    requires forall i :: 0 <= i < |code| ==> LeavesRbp(code[i])
    ensures Rbp(RunFrom(code, k, s)) == Rbp(s)
    decreases |code| - k
  {
    hide Step, LeavesRbp;
    if k < |code| {
      StepLeavesRbp(code[k], s);
      RunLeavesRbp(code, k + 1, Step(code[k], s));
    }
  }

  lemma ToLoopCallLeavesRbp(w: Frame, h: State)
    ensures Rbp(AtLoopCall(w, h)) == Rbp(h)
  {
    hide RunFrom, Write64;
    var test := [Movzx8(RAX, Abs(w.firstPass)), TestAl];
    var s := RunBody(test, h);
    RunLeavesRbp(test, 0, h);
    RunLeavesRbp([Pop(RAX), Store(Abs(w.retBackup), RAX)], 0, s);
    var t := StealReturn(w, h);
    RunLeavesRbp(PushLabel(w), 0, t);
    var u := RunBody(PushLabel(w), t);
    RunLeavesRbp(AlignBefore(RCX), 0, u);
    RunLeavesRbp([MovRI(RDI, w.count)], 0, RunBody(AlignBefore(RCX), u));
  }

  lemma AfterLoopCallLeavesRbp(v: State)
    ensures Rbp(AfterLoopCall(v)) == Rbp(v)
  {
    hide RunFrom;
    RunLeavesRbp(AlignAfter(RCX), 0, v);
    RunLeavesRbp([TestEax], 0, RunBody(AlignAfter(RCX), v));
  }

  lemma ToHookCallLeavesRbp(w: Frame, v: State)
    ensures Rbp(AtHookCall(w, v)) == Rbp(AfterLoopCall(v))
  {
    hide RunFrom, Write64, AfterLoopCall;
    var x := AfterLoopCall(v);
    RunLeavesRbp(AlignBefore(RCX), 0, x);
    RunLeavesRbp(HookArguments(w), 0, RunBody(AlignBefore(RCX), x));
  }

  /** From one arrival at the loop label to the start of the body. */
  lemma BodyStartsWithRbp(w: Frame, hook: Hook, h: State, p: Pass)
    requires w.backup + AREA_SIZE <= TWO64 && PassOk(w, hook, h, p)
    ensures Rbp(BodyStart(w, p.loop, p.hook)) == Rbp(h)
  {
    hide RunFrom, AtLoopCall, AfterLoopCall, AtHookCall, Restore, StartsBody, BodyCall, CounterAt, FileAt, Read64;
    hide Loaded, Testcase, AlignAfter, RunBody;
    ToLoopCallLeavesRbp(w, h);
    AfterLoopCallLeavesRbp(p.loop);
    assert CalleeSaved(RBP);
    if w.hooked {
      ToHookCallLeavesRbp(w, p.loop);
      AlignAfterLeavesRbp(p.hook);
    }
    RestoreRuns(w.backup, if w.hooked then RunBody(AlignAfter(RCX), p.hook) else AfterLoopCall(p.loop));
  }

  lemma AlignAfterLeavesRbp(s: State)
    ensures Rbp(RunBody(AlignAfter(RCX), s)) == Rbp(s)
  {
    hide RunFrom;
    RunLeavesRbp(AlignAfter(RCX), 0, s);
  }

  lemma LeavingLeavesRbp(w: Frame, v: State)
    requires w.backup + AREA_SIZE <= TWO64
    ensures Rbp(BeforeRet(w, v)) == Rbp(v)
  {
    hide RunFrom, AfterLoopCall, Restore, Loaded, FileAt;
    AfterLoopCallLeavesRbp(v);
    RunLeavesRbp(PutBack(w), 0, AfterLoopCall(v));
    RestoreRuns(w.backup, RunBody(PutBack(w), AfterLoopCall(v)));
  }

  /** The first k bodies return with the rbp they were started with, as the convention asks. */
  ghost predicate BodiesKeepRbp(w: Frame, run: seq<Pass>, k: nat)
    requires w.backup + AREA_SIZE <= TWO64 && k <= |run|
  {
    forall i :: 0 <= i < k ==> Rbp(run[i].body) == Rbp(BodyStart(w, run[i].loop, run[i].hook))
  }

  lemma {:induction false} HeadsKeepRbp(w: Frame, hook: Hook, s: State, run: seq<Pass>, k: nat)
    requires w.Valid() && RunOk(w, hook, s, run) && k <= |run| && BodiesKeepRbp(w, run, k)
    ensures Rbp(HeadState(w, s, run, k)) == Rbp(s)
    decreases k
  {
    hide PassOk, BodyStart, RunBody, Backup, FileAt, Read64;
    if k == 0 {
      BackupRuns(w.backup, s);
    } else {
      HeadsKeepRbp(w, hook, s, run, k - 1);
      BodyStartsWithRbp(w, hook, HeadState(w, s, run, k - 1), run[k - 1]);
    }
  }

  /**
    Every body of the run starts at the entry stack pointer with the loop label as its return
    address, returns there, and sees the entry registers put through the hook once per pass so far. It
    also sees the entry rbp if the bodies before it kept theirs.
   */
  lemma BodiesStartAlike(w: Frame, hook: Hook, s: State, run: seq<Pass>, k: nat)
    requires w.Valid() && Entered(w, s) && RunOk(w, hook, s, run) && k < |run|
    ensures var b := BodyStart(w, run[k].loop, run[k].hook);
            && b.core.Rsp() == w.entry && Read64(b.mem, b.core.Rsp()) == w.loopLabel
            && run[k].back == w.loopLabel
            && Loaded(b.core, Saved(w, hook, s, run, k + 1))
            && Saved(w, hook, s, run, 0) == FileOf(s.core, FileAt(s.mem, w.backup).xhi)
            && Saved(w, hook, s, run, k + 1)
               == (if w.hooked then hook(Saved(w, hook, s, run, k), Testcase(AtHookCall(w, run[k].loop)))
                   else Saved(w, hook, s, run, k))
            && (BodiesKeepRbp(w, run, k) ==> Rbp(b) == Rbp(s))
  {
    hide Read64, FileAt, RunBody, Backup, PassOk, Head, Loaded, BodyStart, Testcase, BodiesKeepRbp, HeadState;
    if BodiesKeepRbp(w, run, k) {
      HeadsKeepRbp(w, hook, s, run, k);
      BodyStartsWithRbp(w, hook, HeadState(w, s, run, k), run[k]);
    }
    HeadsKeepInvariant(w, hook, s, run, k);
    PassRuns(w, hook, HeadState(w, s, run, k), k, Read64(s.mem, w.entry), Saved(w, hook, s, run, k), run[k]);
  }

  // ---------- everything else in memory ----------

  /** Bytes the emitted code itself writes: its stack words and two of its data cells. */
  ghost predicate Own(w: Frame, y: int) {
    In(y, w.Stack()) || In(y, w.Ret()) || In(y, w.Area())
  }

  ghost predicate Spares(u: State, v: State, y: int) {
    At(v.mem, y) == At(u.mem, y)
  }

  /** None of the functions called in a pass changes byte y. */
  ghost predicate PassSpares(w: Frame, h: State, p: Pass, y: int)
    requires w.backup + AREA_SIZE <= TWO64
  {
    && Spares(AtLoopCall(w, h), p.loop, y)
    && (w.hooked ==> Spares(AtHookCall(w, p.loop), p.hook, y))
    && Spares(BodyStart(w, p.loop, p.hook), p.body, y)
  }

  /** Nor do any in the first k passes. */
  ghost predicate CalleesSpare(w: Frame, s: State, run: seq<Pass>, k: nat, y: int)
    requires w.backup + AREA_SIZE <= TWO64 && k <= |run|
  {
    forall i :: 0 <= i < k ==> PassSpares(w, HeadState(w, s, run, i), run[i], y)
  }

  lemma ToHookCall(w: Frame, v: State, y: int)
    requires w.Valid() && AfterLoopCall(v).core.Rsp() == w.entry && !Own(w, y)
    ensures At(AtHookCall(w, v).mem, y) == At(AfterLoopCall(v).mem, y)
  {
    hide Read64, Write64, WriteN, ReadN, Step, AlignBefore, HookArguments, CallRsp, AfterLoopCall;
    var x := AfterLoopCall(v);
    AlignBeforeRuns(RCX, x);
    CallRange(w.entry);
    HookArgumentsRun(w, RunBody(AlignBefore(RCX), x));
    hide RunBody;
    assert AtHookCall(w, v) == Called(BeforeHookCall(w, v), w.afterHook);
  }

  /** A pass changes nothing that is not the wrapper's own and that its callees spare. */
  lemma PassLeaves(w: Frame, hook: Hook, h: State, k: nat, orig: u64, f: File, p: Pass, y: int)
    requires w.Valid() && Head(w, h, k, orig, f) && k <= Passes(w.count)
    requires PassOk(w, hook, h, p) && PassSpares(w, h, p, y) && !Own(w, y)
    ensures At(p.body.mem, y) == At(h.mem, y)
  {
    hide Head, RunBody, LoopCall, HookCall, AtLoopCall, AtHookCall, AfterLoopCall, StartsBody, BodyCall, FileAt;
    hide Read64, CounterAt, PushLabel, StealReturn, AlignBefore, AlignAfter, BeforeLoopCall, BeforeHookCall, Testcase;
    hide Restore, Loaded;
    ToLoopCall(w, h, k, orig, f);
    FromLoopCall(w, h, k, orig, f, p.loop);
    var x := AfterLoopCall(p.loop);
    if w.hooked {
      ToHookCall(w, p.loop, y);
      HookRuns(w, hook, p.loop, p.hook);
    }
    RestoreRuns(w.backup, if w.hooked then RunBody(AlignAfter(RCX), p.hook) else x);
  }

  lemma {:induction false} PassesLeave(w: Frame, hook: Hook, s: State, run: seq<Pass>, k: nat, y: int)
    requires w.Valid() && Entered(w, s) && RunOk(w, hook, s, run) && k <= |run|
    requires CalleesSpare(w, s, run, k, y) && !Own(w, y)
    ensures At(HeadState(w, s, run, k).mem, y) == At(s.mem, y)
    decreases k
  {
    hide RunBody, Head, PassOk, PassSpares, Backup, Read64, Saved;
    if k == 0 {
      BackupRuns(w.backup, s);
    } else {
      PassesLeave(w, hook, s, run, k - 1, y);
      HeadsKeepInvariant(w, hook, s, run, k - 1);
      assert PassSpares(w, HeadState(w, s, run, k - 1), run[k - 1], y);
      PassLeaves(w, hook, HeadState(w, s, run, k - 1), k - 1, Read64(s.mem, w.entry), Saved(w, hook, s, run, k - 1),
                 run[k - 1], y);
    }
  }

  /** From the first entry to the closing `ret`. */
  lemma RunLeaves(w: Frame, hook: Hook, s: State, run: seq<Pass>, v: State, y: int)
    requires w.Valid() && Entered(w, s) && RunOk(w, hook, s, run) && !Own(w, y)
    requires CalleesSpare(w, s, run, |run|, y) && Spares(AtLoopCall(w, HeadState(w, s, run, |run|)), v, y)
    requires LoopCall(w, AtLoopCall(w, HeadState(w, s, run, |run|)), v)
    ensures At(BeforeRet(w, v).mem, y) == At(s.mem, y)
  {
    hide Read64, RunBody, Backup, PassOk, Head, Loaded, LoopCall, AtLoopCall, BeforeRet, StartsBody, HeadState, Saved;
    hide AfterLoopCall, FileAt, CalleesSpare, CounterAt, PushLabel, StealReturn, AlignBefore, BeforeLoopCall, RunOk;
    HeadsKeepInvariant(w, hook, s, run, |run|);
    var h, n := HeadState(w, s, run, |run|), |run|;
    PassesLeave(w, hook, s, run, n, y);
    ToLoopCall(w, h, n, Read64(s.mem, w.entry), Saved(w, hook, s, run, n));
    FromLoopCall(w, h, n, Read64(s.mem, w.entry), Saved(w, hook, s, run, n), v);
    LeaveRuns(w, v);
  }

  lemma RbpAtReturn(w: Frame, hook: Hook, s: State, run: seq<Pass>, v: State)
    requires w.Valid() && RunOk(w, hook, s, run)
    requires LoopCall(w, AtLoopCall(w, HeadState(w, s, run, |run|)), v)
    ensures BodiesKeepRbp(w, run, |run|) ==> Rbp(BeforeRet(w, v)) == Rbp(s)
  {
    hide RunOk, HeadState, BodiesKeepRbp, AtLoopCall, BeforeRet, CounterAt;
    LeavingLeavesRbp(w, v);
    var h := HeadState(w, s, run, |run|);
    ToLoopCallLeavesRbp(w, h);
    assert CalleeSaved(RBP);
    if BodiesKeepRbp(w, run, |run|) {
      HeadsKeepRbp(w, hook, s, run, |run|);
    }
  }

  /**
    The body starts exactly as often as the count says, 2^32 times for a count of zero. Then control
    goes to the caller's return address with the stack as a return leaves it and the registers of the
    last pass reloaded. Over the whole run every byte that is not the wrapper's own, in particular all
    of the caller's stack from the word after the return address on, has changed only if one of the
    functions called changed it. If every body kept its rbp, rbp too is that of the entry.
   */
  lemma LoopEndsExactly(w: Frame, hook: Hook, s: State, run: seq<Pass>, v: State)
    requires w.Valid() && Entered(w, s) && RunOk(w, hook, s, run)
    requires LoopCall(w, AtLoopCall(w, HeadState(w, s, run, |run|)), v)
    ensures |run| <= Passes(w.count)
    ensures StartsBody(v) <==> |run| < Passes(w.count)
    ensures !StartsBody(v) ==>
              var r := BeforeRet(w, v);
              && r.core.Rsp() == s.core.Rsp()
              && Read64(r.mem, r.core.Rsp()) == Read64(s.mem, s.core.Rsp())
              && Loaded(r.core, Saved(w, hook, s, run, |run|))
              && (forall y :: w.entry + 8 <= y ==> At(r.mem, y) == At(v.mem, y))
              && (forall y :: && (y < w.entry - 0xa8 || w.entry + 8 <= y)
                              && (y < w.retBackup || w.retBackup + 8 <= y)
                              && (y < w.backup || w.backup + 0x170 <= y)
                              && CalleesSpare(w, s, run, |run|, y)
                              && Spares(AtLoopCall(w, HeadState(w, s, run, |run|)), v, y)
                    ==> At(r.mem, y) == At(s.mem, y))
              && (BodiesKeepRbp(w, run, |run|) ==> Rbp(r) == Rbp(s))
  {
    hide Read64, FileAt, RunBody, Backup, PassOk, Loaded, LoopCall, AtLoopCall, BeforeRet, StartsBody, Testcase;
    hide CalleesSpare, Spares, BodiesKeepRbp, Rbp;
    RbpAtReturn(w, hook, s, run, v);
    HeadsKeepInvariant(w, hook, s, run, |run|);
    var h := HeadState(w, s, run, |run|);
    FromLoopCall(w, h, |run|, Read64(s.mem, w.entry), Saved(w, hook, s, run, |run|), v);
    LeaveRuns(w, v);
    forall y | !Own(w, y) && CalleesSpare(w, s, run, |run|, y) && Spares(AtLoopCall(w, h), v, y)
      ensures At(BeforeRet(w, v).mem, y) == At(s.mem, y)
    {
      RunLeaves(w, hook, s, run, v, y);
    }
  }
}
