/**
  The callee contracts of the wrapper ask for nothing impossible: from every entry the full number
  of passes can be run and the loop then ends.
 */
module Progress {
  import opened Words
  import opened Machine
  import opened Calls
  import opened Loop
  import opened RegBackup
  import opened Wrapper

  /** A byte of neither the wrapper nor the pass counter. */
  ghost predicate Foreign(w: Frame, y: int) {
    !Own(w, y) && !In(y, Span(w.firstPass, 1)) && !In(y, Span(w.cycle, 4))
  }

  // ---------- the pass counter ----------

  lemma Pow256At4()
    ensures Pow(256, 4) == TWO32
  {
    assert Pow(256, 2) == 0x1_0000;
    PowAdd(256, 2, 2);
  }

  /** Memory after the pass counter has been set. */
  function PutCounter(w: Frame, m: Mem, cycle: u32): Mem {
    WriteN(m[w.firstPass := 0], w.cycle, 4, cycle)
  }

  lemma CounterIsPut(w: Frame, m: Mem, cycle: u32)
    requires Apart(Span(w.firstPass, 1), Span(w.cycle, 4))
    ensures CounterAt(w, PutCounter(w, m, cycle)) == Counter(false, cycle)
    ensures forall x :: !In(x, Span(w.firstPass, 1)) && !In(x, Span(w.cycle, 4)) ==> At(PutCounter(w, m, cycle), x) == At(m, x)
  {
    Pow256At4();
    ReadWrite(m[w.firstPass := 0], w.cycle, 4, cycle);
    hide ReadN, WriteN;
  }

  /** A callee that does nothing but set some memory and rax conforms if it spares the stack. */
  function Returned(u: State, rax: u64, m: Mem): State {
    State(u.core.Set(RSP, Plus(u.core.Rsp(), 8)).Set(RAX, rax), m)
  }

  lemma ReturnedConforms(u: State, rax: u64, m: Mem, top: int)
    requires u.core.Rsp() + 8 <= TWO64 - 8
    requires forall x :: u.core.Rsp() + 8 <= x < top ==> At(m, x) == At(u.mem, x)
    ensures Conforms(u, Returned(u, rax, m), top)
  {
  }

  /** Where the wrapper's stack stands when it has made a call. */
  lemma CallDepth(w: Frame, x: State, mid: State, ret: u64)
    requires w.Valid() && x.core.Rsp() == w.entry && Arguments(RunBody(AlignBefore(RCX), x), mid)
    ensures w.entry - 0xa8 <= Called(mid, ret).core.Rsp() <= w.entry
  {
    hide RunBody, AlignBefore, Write64, CallRsp;
    AlignBeforeRuns(RCX, x);
    CallRange(w.entry);
  }

  lemma LoopDepth(w: Frame, h: State, k: nat, orig: u64, f: File)
    requires w.Valid() && Head(w, h, k, orig, f)
    ensures w.entry - 0xa8 <= AtLoopCall(w, h).core.Rsp() <= w.entry
  {
    hide Head, RunBody, AlignBefore, PushLabel, StealReturn, BeforeLoopCall, Called;
    ToLoopCall(w, h, k, orig, f);
    CallDepth(w, RunBody(PushLabel(w), StealReturn(w, h)), BeforeLoopCall(w, h), w.afterLoop);
  }

  lemma LoopReturns(w: Frame, u: State) returns (v: State)
    requires w.Valid() && Apart(Span(w.firstPass, 1), Span(w.cycle, 4))
    requires w.entry - 0xa8 <= u.core.Rsp() <= w.entry
    ensures LoopCall(w, u, v) && forall y :: Foreign(w, y) ==> Spares(u, v, y)
  {
    hide CounterAt, PutCounter, Conforms;
    var c, max := CounterAt(w, u.mem), u.core.regs[RDI] % TWO32;
    var m := PutCounter(w, u.mem, Next(c, max).cycle);
    CounterIsPut(w, u.mem, Next(c, max).cycle);
    v := Returned(u, Bit(Again(c, max)), m);
    ReturnedConforms(u, Bit(Again(c, max)), m, w.entry + 8);
  }

  lemma LoopCanReturn(w: Frame, h: State, k: nat, orig: u64, f: File) returns (v: State)
    requires w.Valid() && Apart(Span(w.firstPass, 1), Span(w.cycle, 4)) && Head(w, h, k, orig, f)
    ensures LoopCall(w, AtLoopCall(w, h), v) && forall y :: Foreign(w, y) ==> Spares(AtLoopCall(w, h), v, y)
  {
    hide Head, AtLoopCall, LoopCall, Foreign, Spares;
    LoopDepth(w, h, k, orig, f);
    v := LoopReturns(w, AtLoopCall(w, h));
  }

  // ---------- the hook ----------

  function PutSlots(m: Mem, base: int, vals: seq<u64>): Mem {
    if vals == [] then m
    else
      var n := |vals| - 1;
      Write64(PutSlots(m, base, vals[..n]), base + 8 * n, vals[n])
  }

  lemma {:induction false} SlotsArePut(m: Mem, base: int, vals: seq<u64>)
    ensures forall i :: 0 <= i < |vals| ==> Read64(PutSlots(m, base, vals), base + 8 * i) == vals[i]
    ensures forall x :: !In(x, Span(base, 8 * |vals|)) ==> At(PutSlots(m, base, vals), x) == At(m, x)
  {
    hide Read64, Write64;
    if vals != [] {
      SlotsArePut(m, base, vals[..|vals| - 1]);
    }
  }

  /** The register struct word by word. */
  function Words46(f: File): (s: seq<u64>)
    ensures |s| == 46
  {
    seq<u64>(46, (i: nat) requires i < 46 =>
      if i < GPRS then f.gpr[i] else if i % 2 == 0 then f.xlo[(i - GPRS) / 2] else f.xhi[(i - GPRS) / 2])
  }

  lemma FileIsPut(m: Mem, base: int, f: File)
    ensures FileAt(PutSlots(m, base, Words46(f)), base) == f
  {
    hide Read64, PutSlots;
    var s, m' := Words46(f), PutSlots(m, base, Words46(f));
    SlotsArePut(m, base, s);
    var g := FileAt(m', base);
    forall i | 0 <= i < GPRS ensures g.gpr[i] == f.gpr[i] {
      assert s[i] == f.gpr[i];
    }
    forall j | 0 <= j < 16 ensures g.xlo[j] == f.xlo[j] && g.xhi[j] == f.xhi[j] {
      assert Read64(m', base + 8 * (14 + 2 * j)) == s[14 + 2 * j];
      assert Read64(m', base + 8 * (15 + 2 * j)) == s[15 + 2 * j];
    }
    assert g.gpr == f.gpr && g.xlo == f.xlo && g.xhi == f.xhi;
  }

  lemma HookDepth(w: Frame, v: State)
    requires w.Valid() && AfterLoopCall(v).core.Rsp() == w.entry
    ensures var u := AtHookCall(w, v);
            w.entry - 0xa8 <= u.core.Rsp() <= w.entry && u.core.regs[RDI] == w.backup
  {
    hide RunBody, AlignBefore, AfterLoopCall, HookArguments, Write64;
    var x := AfterLoopCall(v);
    HookArgumentsRun(w, RunBody(AlignBefore(RCX), x));
    CallDepth(w, x, BeforeHookCall(w, v), w.afterHook);
  }

  lemma HookReturns(w: Frame, hook: Hook, u: State) returns (hv: State)
    requires w.Valid() && w.entry - 0xa8 <= u.core.Rsp() <= w.entry && u.core.regs[RDI] == w.backup
    ensures HookCall(w, hook, u, hv) && forall y :: Foreign(w, y) ==> Spares(u, hv, y)
  {
    hide CounterAt, PutSlots, FileAt, Testcase, Conforms, Words46;
    var f := hook(FileAt(u.mem, w.backup), Testcase(u));
    var m := PutSlots(u.mem, w.backup, Words46(f));
    FileIsPut(u.mem, w.backup, f);
    SlotsArePut(u.mem, w.backup, Words46(f));
    hv := Returned(u, 0, m);
    ReturnedConforms(u, 0, m, w.entry + 8);
    CounterFrame(w, u.mem, m);
  }

  lemma HookCanReturn(w: Frame, hook: Hook, v: State) returns (hv: State)
    requires w.Valid() && AfterLoopCall(v).core.Rsp() == w.entry
    ensures HookCall(w, hook, AtHookCall(w, v), hv) && forall y :: Foreign(w, y) ==> Spares(AtHookCall(w, v), hv, y)
  {
    hide AfterLoopCall, AtHookCall, HookCall, Foreign, Spares;
    HookDepth(w, v);
    hv := HookReturns(w, hook, AtHookCall(w, v));
  }

  // ---------- whole runs ----------

  lemma BodyCanReturn(w: Frame, b: State) returns (v: State)
    ensures BodyCall(w, b, Read64(b.mem, b.core.Rsp()), v) && forall y :: Spares(b, v, y)
  {
    hide Read64;
    v := State(b.core.Set(RSP, Plus(b.core.Rsp(), 8)), b.mem);
  }

  lemma PassCanRun(w: Frame, hook: Hook, h: State, k: nat, orig: u64, f: File) returns (p: Pass)
    requires w.Valid() && Apart(Span(w.firstPass, 1), Span(w.cycle, 4)) && Head(w, h, k, orig, f)
    requires k < Passes(w.count)
    ensures PassOk(w, hook, h, p) && forall y :: Foreign(w, y) ==> PassSpares(w, h, p, y)
  {
    hide Head, Foreign, Spares, LoopCall, HookCall, BodyCall, AtLoopCall, AtHookCall, AfterLoopCall, BodyStart, BeforeLoopCall, StartsBody;
    var v := LoopCanReturn(w, h, k, orig, f);
    FromLoopCall(w, h, k, orig, f, v);
    var hv := HookCanReturn(w, hook, v);
    var b := BodyStart(w, v, hv);
    var t := BodyCanReturn(w, b);
    p := Pass(v, hv, t, Read64(b.mem, b.core.Rsp()));
  }

  lemma {:induction false} SomePassesCanRun(w: Frame, hook: Hook, s: State, n: nat) returns (run: seq<Pass>)
    requires w.Valid() && Apart(Span(w.firstPass, 1), Span(w.cycle, 4)) && Entered(w, s) && n <= Passes(w.count)
    ensures |run| == n && RunOk(w, hook, s, run) && forall y :: Foreign(w, y) ==> CalleesSpare(w, s, run, n, y)
    decreases n
  {
    hide Head, PassOk, Entered, Backup, PassSpares, Foreign;
    run := [];
    if n > 0 {
      var before := SomePassesCanRun(w, hook, s, n - 1);
      HeadsKeepInvariant(w, hook, s, before, n - 1);
      var p := PassCanRun(w, hook, HeadState(w, s, before, n - 1), n - 1, Read64(s.mem, w.entry),
                          Saved(w, hook, s, before, n - 1));
      run := before + [p];
      forall k | 0 <= k < n ensures PassOk(w, hook, HeadState(w, s, run, k), run[k]) {
        assert HeadState(w, s, run, k) == HeadState(w, s, before, k);
      }
      forall y | Foreign(w, y) ensures CalleesSpare(w, s, run, n, y) {
        OneMoreSpares(w, s, before, p, y);
      }
    }
  }

  lemma OneMoreSpares(w: Frame, s: State, run: seq<Pass>, p: Pass, y: int)
    requires w.backup + AREA_SIZE <= TWO64
    requires CalleesSpare(w, s, run, |run|, y) && PassSpares(w, HeadState(w, s, run, |run|), p, y)
    ensures CalleesSpare(w, s, run + [p], |run| + 1, y)
  {
    hide PassSpares, Backup, RunBody;
    forall i | 0 <= i < |run| + 1 ensures PassSpares(w, HeadState(w, s, run + [p], i), (run + [p])[i], y) {
      assert HeadState(w, s, run + [p], i) == HeadState(w, s, run, i);
    }
  }

  /** Whatever the hook does and however large the count, there is a run with exactly that many bodies
      after which the loop ends, and in it nothing but the wrapper's and the counter's cells changes. */
  lemma AllPassesCanRun(w: Frame, hook: Hook, s: State) returns (run: seq<Pass>, v: State)
    requires w.Valid() && Apart(Span(w.firstPass, 1), Span(w.cycle, 4)) && Entered(w, s)
    ensures |run| == Passes(w.count) && RunOk(w, hook, s, run)
    ensures LoopCall(w, AtLoopCall(w, HeadState(w, s, run, |run|)), v) && !StartsBody(v)
    ensures forall y :: Foreign(w, y) ==> At(BeforeRet(w, v).mem, y) == At(s.mem, y)
  {
    hide CalleesSpare, Spares, Loaded, Read64, FileAt, CounterAt;
    hide Head, LoopCall, AtLoopCall, StartsBody, RunOk, Entered, Saved, BeforeRet, HeadState;
    run := SomePassesCanRun(w, hook, s, Passes(w.count));
    HeadsKeepInvariant(w, hook, s, run, |run|);
    v := LoopCanReturn(w, HeadState(w, s, run, |run|), |run|, Read64(s.mem, w.entry), Saved(w, hook, s, run, |run|));
    LoopEndsExactly(w, hook, s, run, v);
    assert forall y :: Foreign(w, y) ==> !Own(w, y);
  }
}
