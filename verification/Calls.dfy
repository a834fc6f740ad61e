/**
  Calls the rewriter inserts into arbitrary code: the stack-aligning idiom around every call, and
  `CallFunctionPatch`, which saves the caller-saved registers around it.
 */
module Calls {
  import opened Words
  import opened Machine

  // ---------- the calling convention, section 3.2 of the System V AMD64 ABI ----------

  const RED_ZONE: int := 0x80

  predicate CalleeSaved(r: Reg) {
    r == RBX || r == RBP || 12 <= r
  }

  /** A conforming callee entered in state u returns in state v: the return address is popped, the
      callee-saved registers hold their values and the stack above it up to `top` is untouched. */
  ghost predicate Conforms(u: State, v: State, top: int) {
    && v.core.Rsp() == Plus(u.core.Rsp(), 8)
    && (forall r: Reg :: CalleeSaved(r) ==> v.core.regs[r] == u.core.regs[r])
    && (forall x :: u.core.Rsp() + 8 <= x < top ==> At(v.mem, x) == At(u.mem, x))
  }

  // ---------- the aligned call ----------

  function AlignBefore(r: Reg): seq<Instr> {
    [MovRR(r, RSP), Lea(RSP, Disp(RSP, -RED_ZONE)), AndAlign16(RSP), Push(r), Push(r)]
  }

  function AlignAfter(r: Reg): seq<Instr> {
    [Pop(r), MovRR(RSP, r)]
  }

  /** Where rsp stands when the call is made. */
  function CallRsp(rsp: u64): (a: int)
    requires 0xa0 <= rsp
    ensures a % 16 == 0 && rsp - RED_ZONE - 31 <= a <= rsp - RED_ZONE - 16
  {
    var low := rsp - RED_ZONE;
    low - low % 16 - 16
  }

  lemma AlignBeforeRuns(r: Reg, s: State)
    requires r != RSP && 0xa0 <= s.core.Rsp()
    ensures var u := RunBody(AlignBefore(r), s);
            var a := CallRsp(s.core.Rsp());
            && u.core == s.core.Set(r, s.core.Rsp()).Set(RSP, a).(flags := u.core.flags)
            && Read64(u.mem, a) == s.core.Rsp()
            && forall x :: a + 16 <= x || x < a ==> At(u.mem, x) == At(s.mem, x)
  {
    hide WriteN, ReadN, LogicFlags;
    var code := AlignBefore(r);
    var rsp := s.core.Rsp();
    var a := CallRsp(rsp);
    var s1 := State(s.core.Set(r, rsp), s.mem);
    assert Step(code[0], s) == s1 by { StepQuiet(code[0], s); }
    var s2 := State(s1.core.Set(RSP, rsp - RED_ZONE), s.mem);
    assert Step(code[1], s1) == s2 by { StepQuiet(code[1], s1); }
    var s3 := State(s2.core.Set(RSP, a + 16).(flags := LogicFlags(a + 16, TWO64)), s.mem);
    assert Step(code[2], s2) == s3 by { StepQuiet(code[2], s2); }
    var s4 := State(s3.core.Set(RSP, a + 8), Write64(s.mem, a + 8, rsp));
    assert Step(code[3], s3) == s4 by { StepPush(r, s3); }
    var s5 := State(s4.core.Set(RSP, a), Write64(s4.mem, a, rsp));
    assert Step(code[4], s4) == s5 by { StepPush(r, s4); }
    Chain5(code, s, s1, s2, s3, s4, s5);
    assert s5.core.regs == s.core.regs[r := rsp][RSP := a];
  }

  lemma AlignAfterRuns(r: Reg, v: State)
    requires r != RSP
    ensures var rsp := Read64(v.mem, v.core.Rsp());
            RunBody(AlignAfter(r), v) == State(v.core.Set(r, rsp).Set(RSP, rsp), v.mem)
  {
    hide WriteN, ReadN;
    var code := AlignAfter(r);
    var rsp := Read64(v.mem, v.core.Rsp());
    var s1 := State(v.core.Set(RSP, Plus(v.core.Rsp(), 8)).Set(r, rsp), v.mem);
    assert Step(code[0], v) == s1 by { StepPop(r, v); }
    var s2 := State(s1.core.Set(RSP, rsp), v.mem);
    assert Step(code[1], s1) == s2 by { StepQuiet(code[1], s1); }
    Chain2(code, v, s1, s2);
    assert s2.core.regs == v.core.regs[r := rsp][RSP := rsp];
  }

  /** Setting up arguments between the alignment and the call: only caller-saved registers change. */
  ghost predicate Arguments(u: State, mid: State) {
    && mid.mem == u.mem && mid.core.Rsp() == u.core.Rsp()
    && forall q: Reg :: CalleeSaved(q) ==> mid.core.regs[q] == u.core.regs[q]
  }

  /**
    Whatever rsp was, the call happens on a 16-byte boundary, nothing at or above the red zone is
    written, and afterwards rsp is what it was, provided the callee follows the convention.
   */
  lemma AlignedCall(r: Reg, s: State, mid: State, ret: u64, v: State, top: int)
    requires r != RSP && !CalleeSaved(r) && 0xa8 <= s.core.Rsp() <= top
    requires Arguments(RunBody(AlignBefore(r), s), mid) && Conforms(Called(mid, ret), v, top)
    ensures mid.core.Rsp() % 16 == 0
    ensures forall x :: x < s.core.Rsp() - 0xa8 || s.core.Rsp() - 0x80 <= x ==> At(Called(mid, ret).mem, x) == At(s.mem, x)
    ensures var w := RunBody(AlignAfter(r), v);
            && w.mem == v.mem
            && w.core == v.core.Set(r, s.core.Rsp()).Set(RSP, s.core.Rsp())
            && (forall q: Reg :: CalleeSaved(q) ==> w.core.regs[q] == s.core.regs[q])
            && (forall x :: s.core.Rsp() - 0x80 <= x < top ==> At(w.mem, x) == At(s.mem, x))
  {
    hide WriteN, ReadN, Read64, Write64, RunBody, CallRsp;
    AlignBeforeRuns(r, s);
    AlignAfterRuns(r, v);
    SavedRsp(r, s, mid, ret, v, top);
  }

  /** The word the callee leaves on top of the stack is the old stack pointer. */
  lemma SavedRsp(r: Reg, s: State, mid: State, ret: u64, v: State, top: int)
    requires r != RSP && 0xa8 <= s.core.Rsp() <= top
    requires Arguments(RunBody(AlignBefore(r), s), mid) && Conforms(Called(mid, ret), v, top)
    ensures Read64(v.mem, v.core.Rsp()) == s.core.Rsp()
  {
    hide ReadN, WriteN, Read64, Write64, RunBody, CallRsp;
    AlignBeforeRuns(r, s);
    var u := RunBody(AlignBefore(r), s);
    var a := CallRsp(s.core.Rsp());
    Read64Frame(u.mem, Called(mid, ret).mem, a);
    Read64Frame(Called(mid, ret).mem, v.mem, a);
  }

  // ---------- pushing and popping a list of registers ----------

  function Pushes(regs: seq<Reg>): (code: seq<Instr>)
    ensures |code| == |regs|
  {
    if regs == [] then [] else Pushes(regs[..|regs| - 1]) + [Push(regs[|regs| - 1])]
  }

  /** The mirror image: last pushed, first popped. */
  function Pops(regs: seq<Reg>): (code: seq<Instr>)
    ensures |code| == |regs|
  {
    if regs == [] then [] else [Pop(regs[|regs| - 1])] + Pops(regs[..|regs| - 1])
  }

  /** The stack below `rsp` holds the values of the listed registers, in pushing order. */
  ghost predicate Parked(m: Mem, rsp: int, regs: seq<Reg>, vals: Regs) {
    forall i :: 0 <= i < |regs| ==> Read64(m, rsp - 8 * (i + 1)) == vals[regs[i]]
  }

  lemma {:induction false} PushesRun(regs: seq<Reg>, s: State)
    requires RSP !in regs && 8 * |regs| <= s.core.Rsp()
    ensures var t := RunBody(Pushes(regs), s);
            && t.core == s.core.Set(RSP, s.core.Rsp() - 8 * |regs|)
            && Parked(t.mem, s.core.Rsp(), regs, s.core.regs)
            && forall x :: x < s.core.Rsp() - 8 * |regs| || s.core.Rsp() <= x ==> At(t.mem, x) == At(s.mem, x)
    decreases |regs|
  {
    hide Read64, Write64, ReadN, WriteN, Step;
    if regs == [] {
      assert s.core.regs[RSP := s.core.Rsp()] == s.core.regs;
    } else {
      hide RunBody, Parked;
      var n := |regs| - 1;
      PushesRun(regs[..n], s);
      RunConcat(Pushes(regs[..n]), [Push(regs[n])], s);
      var t := RunBody(Pushes(regs[..n]), s);
      RunOne(Push(regs[n]), t);
      PushOne(regs, s, t);
    }
  }

  lemma PushOne(regs: seq<Reg>, s: State, t: State)
    requires regs != [] && RSP !in regs && 8 * |regs| <= s.core.Rsp()
    requires t.core == s.core.Set(RSP, s.core.Rsp() - 8 * (|regs| - 1))
    requires Parked(t.mem, s.core.Rsp(), regs[..|regs| - 1], s.core.regs)
    ensures var u := Step(Push(regs[|regs| - 1]), t);
            && u.core == s.core.Set(RSP, s.core.Rsp() - 8 * |regs|)
            && Parked(u.mem, s.core.Rsp(), regs, s.core.regs)
            && forall x :: x < s.core.Rsp() - 8 * |regs| || s.core.Rsp() - 8 * (|regs| - 1) <= x ==> At(u.mem, x) == At(t.mem, x)
  {
    hide Read64, Write64, ReadN, WriteN, Step, At;
    var n := |regs| - 1;
    StepPush(regs[n], t);
    assert s.core.regs[RSP := t.core.Rsp()][RSP := t.core.Rsp() - 8] == s.core.regs[RSP := t.core.Rsp() - 8];
    var u := Step(Push(regs[n]), t);
    forall i | 0 <= i < |regs|
      ensures Read64(u.mem, s.core.Rsp() - 8 * (i + 1)) == s.core.regs[regs[i]]
    {
      if i < n {
        assert regs[..n][i] == regs[i];
        assert Read64(u.mem, s.core.Rsp() - 8 * (i + 1)) == Read64(t.mem, s.core.Rsp() - 8 * (i + 1));
      }
    }
  }

  /** u is t with the listed registers restored and the words dropped from the stack. */
  ghost predicate Restored(regs: seq<Reg>, t: State, u: State, vals: Regs) {
    && u.mem == t.mem && u.core == t.core.(regs := u.core.regs)
    && u.core.Rsp() == t.core.Rsp() + 8 * |regs|
    && forall r: Reg :: r != RSP ==> u.core.regs[r] == if r in regs then vals[r] else t.core.regs[r]
  }

  lemma {:induction false} PopsRun(regs: seq<Reg>, t: State, vals: Regs)
    requires RSP !in regs && t.core.Rsp() + 8 * |regs| < TWO64
    requires Parked(t.mem, t.core.Rsp() + 8 * |regs|, regs, vals)
    ensures Restored(regs, t, RunBody(Pops(regs), t), vals)
    decreases |regs|
  {
    hide Read64, Write64, ReadN, WriteN, Parked, Step;
    if regs != [] {
      hide RunBody, Restored;
      var n := |regs| - 1;
      RunConcat([Pop(regs[n])], Pops(regs[..n]), t);
      RunOne(Pop(regs[n]), t);
      PopOne(regs, t, vals);
      var t1 := Step(Pop(regs[n]), t);
      PopsRun(regs[..n], t1, vals);
      RestoredOneMore(regs, t, t1, RunBody(Pops(regs[..n]), t1), vals);
    }
  }

  lemma RestoredOneMore(regs: seq<Reg>, t: State, t1: State, u: State, vals: Regs)
    requires regs != [] && RSP !in regs && t.core.Rsp() + 8 * |regs| < TWO64
    requires var n := |regs| - 1;
             && t1 == State(t.core.Set(RSP, t.core.Rsp() + 8).Set(regs[n], vals[regs[n]]), t.mem)
             && Restored(regs[..n], t1, u, vals)
    ensures Restored(regs, t, u, vals)
  {
    assert regs == regs[..|regs| - 1] + [regs[|regs| - 1]];
  }

  lemma PopOne(regs: seq<Reg>, t: State, vals: Regs)
    requires regs != [] && RSP !in regs && t.core.Rsp() + 8 * |regs| < TWO64
    requires Parked(t.mem, t.core.Rsp() + 8 * |regs|, regs, vals)
    ensures var n := |regs| - 1;
            var u := Step(Pop(regs[n]), t);
            && u == State(t.core.Set(RSP, t.core.Rsp() + 8).Set(regs[n], vals[regs[n]]), t.mem)
            && Parked(t.mem, t.core.Rsp() + 8 + 8 * n, regs[..n], vals)
  {
    hide Read64, Write64, ReadN, WriteN, Step;
    var n := |regs| - 1;
    StepPop(regs[n], t);
    assert Read64(t.mem, t.core.Rsp() + 8 * |regs| - 8 * (n + 1)) == vals[regs[n]];
    forall i | 0 <= i < n
      ensures Read64(t.mem, t.core.Rsp() + 8 + 8 * n - 8 * (i + 1)) == vals[regs[..n][i]]
    {
      assert Read64(t.mem, t.core.Rsp() + 8 * |regs| - 8 * (i + 1)) == vals[regs[i]];
    }
  }

  // ---------- CallFunctionPatch ----------

  const SAVED: seq<Reg> := [RAX, RCX, RDX, RSI, RDI, 8, 9, 10, 11, RAX]

  function PatchBefore(save: nat): seq<Instr>
    requires save <= TWO32
  {
    [SubRI(RSP, save), Pushfq] + (Pushes(SAVED) + AlignBefore(RAX))
  }

  function PatchAfter(save: nat): seq<Instr>
    requires save <= TWO32
  {
    AlignAfter(RAX) + (Pops(SAVED) + [Popfq, AddRI(RSP, save)])
  }

  /** rsp once the flags and the ten words are pushed. */
  function FrameRsp(rsp: u64, save: nat): int {
    rsp - save - 8 - 8 * |SAVED|
  }

  lemma PatchBeforeRuns(save: nat, s: State) returns (m: State)
    requires save <= TWO32 && save + 0x100 <= s.core.Rsp()
    ensures RunBody(PatchBefore(save), s) == RunBody(AlignBefore(RAX), m)
    ensures m.core == s.core.Set(RSP, FrameRsp(s.core.Rsp(), save)).(flags := m.core.flags)
    ensures Parked(m.mem, s.core.Rsp() - save - 8, SAVED, s.core.regs)
    ensures forall x :: s.core.Rsp() - save <= x ==> At(m.mem, x) == At(s.mem, x)
  {
    hide Read64, Write64, ReadN, WriteN, RunBody, Pushes, AlignBefore, SubFlags;
    var code := [SubRI(RSP, save), Pushfq];
    var sp := s.core.Rsp() - save;
    var s1 := State(s.core.Set(RSP, sp).(flags := SubFlags(s.core.Rsp(), save, TWO64)), s.mem);
    assert Step(code[0], s) == s1 by { StepQuiet(code[0], s); }
    var s2 := State(s1.core.Set(RSP, sp - 8), Write64(s.mem, sp - 8, FlagWord(s1.core.flags)));
    assert Step(code[1], s1) == s2 by { StepPushfq(s1); }
    Chain2(code, s, s1, s2);
    RunConcat(code, Pushes(SAVED) + AlignBefore(RAX), s);
    RunConcat(Pushes(SAVED), AlignBefore(RAX), s2);
    PushesRun(SAVED, s2);
    m := RunBody(Pushes(SAVED), s2);
    assert s.core.regs[RSP := sp][RSP := sp - 8][RSP := sp - 8 - 8 * |SAVED|]
        == s.core.regs[RSP := sp - 8 - 8 * |SAVED|];
    assert forall r: Reg :: r in SAVED ==> s2.core.regs[r] == s.core.regs[r];
    assert Parked(m.mem, sp - 8, SAVED, s.core.regs);
  }

  lemma PatchAfterRuns(save: nat, v: State, rsp: u64, vals: Regs)
    requires save <= TWO32 && save + 0x100 <= rsp
    requires Read64(v.mem, v.core.Rsp()) == FrameRsp(rsp, save)
    requires Parked(v.mem, rsp - save - 8, SAVED, vals)
    ensures var w := RunBody(PatchAfter(save), v);
            && w.mem == v.mem && w.core.Rsp() == rsp
            && (forall r: Reg :: r != RSP ==> w.core.regs[r] == if r in SAVED then vals[r] else v.core.regs[r])
            && w.core.flags == AddFlags(rsp - save, save, 0, TWO64)
  {
    hide Read64, Write64, ReadN, WriteN, RunBody, Pops, AlignAfter, AddFlags, FromFlagWord;
    var tail := [Popfq, AddRI(RSP, save)];
    RunConcat(AlignAfter(RAX), Pops(SAVED) + tail, v);
    AlignAfterRuns(RAX, v);
    var t := RunBody(AlignAfter(RAX), v);
    RunConcat(Pops(SAVED), tail, t);
    PopsRun(SAVED, t, vals);
    var u := RunBody(Pops(SAVED), t);
    var u1 := State(u.core.Set(RSP, rsp - save).(flags := FromFlagWord(Read64(u.mem, rsp - save - 8))), u.mem);
    assert Step(tail[0], u) == u1 by { StepPopfq(u); }
    var u2 := State(u1.core.Set(RSP, rsp).(flags := AddFlags(rsp - save, save, 0, TWO64)), u.mem);
    assert Step(tail[1], u1) == u2 by { StepQuiet(tail[1], u1); }
    Chain2(tail, u, u1, u2);
  }

  /** No carry, no zero; sign, parity and adjust as rsp has them, and overflow only if the frame lies
      across the middle of the address space. */
  function ClosingFlags(rsp: u64, save: nat): Flags {
    Flags(false, !OddOnes(rsp % 256), rsp % 16 < save % 16, rsp == 0, rsp >= 0x8000_0000_0000_0000,
          rsp - save < 0x8000_0000_0000_0000 <= rsp)
  }

  lemma AddBack(rsp: u64, save: nat)
    requires save <= TWO32 && save <= rsp
    ensures AddFlags(rsp - save, save, 0, TWO64) == ClosingFlags(rsp, save)
  {
    hide OddOnes;
    Adjust(rsp - save, save);
    assert (rsp - save + save + 0) % TWO64 == rsp;
  }

  lemma Adjust(a: nat, b: nat)
    ensures a % 16 + b % 16 >= 16 <==> (a + b) % 16 < b % 16
  {
    ModOnce(a % 16 + b % 16, 16);
    assert a + b == 16 * (a / 16 + b / 16) + (a % 16 + b % 16);
    assert (a + b) % 16 == (a % 16 + b % 16) % 16;
  }

  /**
    The patch is invisible in the general registers: all sixteen, rsp included, end as they began.
    The call is aligned, and with at least 128 bytes skipped the red zone is untouched. The flags
    end as those of the closing `add rsp`, so they are kept only by coincidence.
   */
  lemma CallFunctionPatchKeepsRegisters(save: nat, s: State, ret: u64, v: State, top: int)
    requires 0x80 <= save <= TWO32 && save + 0x100 <= s.core.Rsp() <= top
    requires Conforms(Called(RunBody(PatchBefore(save), s), ret), v, top)
    ensures RunBody(PatchBefore(save), s).core.Rsp() % 16 == 0
    ensures forall x :: s.core.Rsp() - 0x80 <= x
              ==> At(Called(RunBody(PatchBefore(save), s), ret).mem, x) == At(s.mem, x)
    ensures var w := RunBody(PatchAfter(save), v);
            && w.core.regs == s.core.regs
            && (forall x :: s.core.Rsp() - 0x80 <= x < top ==> At(w.mem, x) == At(s.mem, x))
            && (w.core.flags == s.core.flags <==> s.core.flags == ClosingFlags(s.core.Rsp(), save))
  {
    hide Read64, Write64, ReadN, WriteN, RunBody, PatchBefore, PatchAfter, AddFlags, ClosingFlags;
    AddBack(s.core.Rsp(), save);
    var rsp, frame := s.core.Rsp(), FrameRsp(s.core.Rsp(), save);
    var m := PatchBeforeRuns(save, s);
    hide AlignBefore, AlignAfter, Called;
    var u := RunBody(AlignBefore(RAX), m);
    AlignedCall(RAX, m, u, ret, v, top);
    SavedRsp(RAX, m, u, ret, v, top);
    assert Parked(v.mem, rsp - save - 8, SAVED, s.core.regs) by {
      forall i | 0 <= i < |SAVED|
        ensures Read64(v.mem, rsp - save - 8 - 8 * (i + 1)) == s.core.regs[SAVED[i]]
      {
        Read64Frame(m.mem, v.mem, rsp - save - 8 - 8 * (i + 1));
      }
    }
    PatchAfterRuns(save, v, rsp, s.core.regs);
    var w := RunBody(PatchAfter(save), v);
    forall r: Reg ensures w.core.regs[r] == s.core.regs[r] {
      assert r == RSP || CalleeSaved(r) || r in SAVED;
    }
    assert w.core.regs == s.core.regs;
  }
}
