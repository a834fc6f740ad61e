/** The code the rewriter puts at a block head, and the `__afl_trace` function it calls. */
module Trampoline {
  import opened Words
  import opened Machine
  import opened Coverage

  /** Addresses of the two data cells the tracer uses and of the bitmap they lead to. */
  datatype Layout = Layout(areaPtr: u64, prevLoc: u64, area: u64)
  {
    function PtrCell(): Span { Span(areaPtr, 8) }
    function LocCell(): Span { Span(prevLoc, 8) }
    function Map(): Span { Span(area, MAP_SIZE) }

    ghost predicate Valid() {
      && areaPtr + 8 <= TWO64 && prevLoc + 8 <= TWO64 && area + MAP_SIZE <= TWO64
      && Apart(PtrCell(), LocCell()) && Apart(PtrCell(), Map()) && Apart(LocCell(), Map())
    }

    /** A span of program memory touches none of the tracer's data. */
    ghost predicate Clear(sp: Span) {
      Apart(sp, PtrCell()) && Apart(sp, LocCell()) && Apart(sp, Map())
    }
  }

  const FRAME: int := 0x98

  function Enter(id: u16): seq<Instr> {
    [Lea(RSP, Disp(RSP, -FRAME)),
     Store(Disp(RSP, 0), RDX),
     Store(Disp(RSP, 8), RCX),
     Store(Disp(RSP, 0x10), RAX),
     MovRI(RCX, id)]
  }

  /** lahf and seto keep the flags in rax; cheaper than pushf. */
  function SaveFlags(): seq<Instr> {
    [Lahf, SetoAl]
  }

  function Locate(l: Layout): seq<Instr> {
    [Load(RDX, Abs(l.areaPtr)),
     XorRM(RCX, Abs(l.prevLoc)),
     XorMR(Abs(l.prevLoc), RCX),
     Shr1M(Abs(l.prevLoc))]
  }

  function Bump(): seq<Instr> {
    [Inc8M(Index(RDX, RCX)), Adc8M(Index(RDX, RCX), 0)]
  }

  function RestoreFlags(): seq<Instr> {
    [AddAl(0x7f), Sahf]
  }

  /** The body of `__afl_trace`, up to its `ret`. */
  function TraceBody(l: Layout): seq<Instr> {
    SaveFlags() + (Locate(l) + (Bump() + RestoreFlags()))
  }

  function Leave(): seq<Instr> {
    [Load(RAX, Disp(RSP, 0x10)),
     Load(RCX, Disp(RSP, 8)),
     Load(RDX, Disp(RSP, 0)),
     Lea(RSP, Disp(RSP, FRAME))]
  }

  /** The 32 bytes of stack the trampoline and its call use: all of them below the red zone. */
  function Scratch(rsp: u64): Span {
    Span(rsp - FRAME - 8, 0x20)
  }

  /** The bitmap and previous location a machine state holds. */
  function Bitmap(m: Mem, area: u64): (c: Cells) {
    var c := seq<u8>(MAP_SIZE, (i: nat) => At(m, area + i));
    assert |c| == MAP_SIZE;
    c
  }

  ghost predicate Holds(l: Layout, m: Mem, c: Cov) {
    Read64(m, l.areaPtr) == l.area && Read64(m, l.prevLoc) == c.prev && Bitmap(m, l.area) == c.cells
  }

  // ---------- the three stretches of straight-line code ----------

  /** Memory with the three registers parked at the bottom of the frame. */
  function Spilled(m: Mem, sp: int, c: Core): Mem {
    Write64(Write64(Write64(m, sp, c.regs[RDX]), sp + 8, c.regs[RCX]), sp + 0x10, c.regs[RAX])
  }

  lemma EnterRuns(id: u16, s: State)
    requires FRAME <= s.core.Rsp()
    ensures var sp := s.core.Rsp() - FRAME;
            RunBody(Enter(id), s) == State(s.core.Set(RSP, sp).Set(RCX, id), Spilled(s.mem, sp, s.core))
  {
    hide Step, Write64, Read64;
    var code := Enter(id);
    var sp := s.core.Rsp() - FRAME;
    var c1 := s.core.Set(RSP, sp);
    var m1 := Write64(s.mem, sp, s.core.regs[RDX]);
    var m2 := Write64(m1, sp + 8, s.core.regs[RCX]);
    var m3 := Write64(m2, sp + 0x10, s.core.regs[RAX]);
    StepLea(RSP, Disp(RSP, -FRAME), s);
    StepStore(Disp(RSP, 0), RDX, State(c1, s.mem));
    StepStore(Disp(RSP, 8), RCX, State(c1, m1));
    StepStore(Disp(RSP, 0x10), RAX, State(c1, m2));
    StepMovRI(RCX, id, State(c1, m3));
    Chain5(code, s, State(c1, s.mem), State(c1, m1), State(c1, m2), State(c1, m3), State(c1.Set(RCX, id), m3));
  }

  lemma LeaveRuns(s: State)
    requires s.core.Rsp() + FRAME < TWO64
    ensures var sp := s.core.Rsp();
            RunBody(Leave(), s)
            == State(s.core.Set(RAX, Read64(s.mem, sp + 0x10)).Set(RCX, Read64(s.mem, sp + 8))
                     .Set(RDX, Read64(s.mem, sp)).Set(RSP, sp + FRAME), s.mem)
  {
    hide Step, Read64, Write64;
    var code := Leave();
    var c, sp := s.core, s.core.Rsp();
    var s1 := State(c.Set(RAX, Read64(s.mem, sp + 0x10)), s.mem);
    var s2 := State(s1.core.Set(RCX, Read64(s.mem, sp + 8)), s.mem);
    var s3 := State(s2.core.Set(RDX, Read64(s.mem, sp)), s.mem);
    var s4 := State(s3.core.Set(RSP, sp + FRAME), s.mem);
    assert Step(code[0], s) == s1 by { StepLoad(RAX, Disp(RSP, 0x10), s); }
    assert Step(code[1], s1) == s2 by { StepLoad(RCX, Disp(RSP, 8), s1); }
    assert Step(code[2], s2) == s3 by { StepLoad(RDX, Disp(RSP, 0), s2); }
    assert Step(code[3], s3) == s4 by { StepLea(RSP, Disp(RSP, FRAME), s3); }
    Chain4(code, s, s1, s2, s3, s4);
  }

  // ---------- __afl_trace ----------

  lemma SaveFlagsRuns(s: State)
    ensures var t := RunBody(SaveFlags(), s);
            && t == State(s.core.Set(RAX, t.core.regs[RAX]), s.mem)
            && Ah(t.core) == LowFlags(s.core.flags) && Al(t.core) == Bit(s.core.flags.of)
  {
    hide WriteN, ReadN;
    var code := SaveFlags();
    var s1 := State(SetAh(s.core, LowFlags(s.core.flags)), s.mem);
    var s2 := State(SetAl(s1.core, Bit(s.core.flags.of)), s.mem);
    assert Step(code[0], s) == s1 by { StepQuiet(code[0], s); }
    assert Step(code[1], s1) == s2 by { StepQuiet(code[1], s1); }
    SetAhParts(s.core, LowFlags(s.core.flags));
    SetAlParts(s1.core, Bit(s.core.flags.of));
    hide Ah, Al, SetAh, SetAl;
    Chain2(code, s, s1, s2);
  }

  lemma RestoreFlagsRuns(f: Flags, s: State)
    requires Ah(s.core) == LowFlags(f) && Al(s.core) == Bit(f.of)
    ensures var t := RunBody(RestoreFlags(), s);
            t == State(s.core.Set(RAX, t.core.regs[RAX]).(flags := f), s.mem)
  {
    hide WriteN, ReadN;
    var code := RestoreFlags();
    var al := Al(s.core);
    var s1 := State(SetAl(s.core, (al + 0x7f) % 256).(flags := AddFlags(al, 0x7f, 0, 256)), s.mem);
    var s2 := State(s1.core.(flags := f), s.mem);
    assert Step(code[0], s) == s1 by { StepQuiet(code[0], s); }
    assert s1.core.flags.of == f.of;
    assert Ah(s1.core) == Ah(s.core) by { SetAlParts(s.core, (al + 0x7f) % 256); }
    assert Step(code[1], s1) == s2 by {
      StepQuiet(code[1], s1);
      LowFlagsRoundTrip(f);
    }
    Chain2(code, s, s1, s2);
  }

  /** Memory after the record step: the location cell rewritten twice, one bitmap byte bumped. */
  function Recorded(l: Layout, m: Mem, prev: Loc, id: u16): Mem {
    var m1 := Write64(Write64(m, l.prevLoc, id), l.prevLoc, id / 2);
    var a := l.area + CellOf(prev, id);
    m1[a := Bumped(At(m1, a), id)]
  }

  lemma LocateRuns(l: Layout, prev: Loc, id: u16, s: State)
    requires Read64(s.mem, l.areaPtr) == l.area && Read64(s.mem, l.prevLoc) == prev
    requires s.core.regs[RCX] == id
    ensures var t := RunBody(Locate(l), s);
            && t.core == s.core.Set(RDX, l.area).Set(RCX, CellOf(prev, id)).(flags := t.core.flags)
            && t.core.flags.cf == (id % 2 == 1)
            && t.mem == Write64(Write64(s.mem, l.prevLoc, id), l.prevLoc, id / 2)
  {
    hide WriteN, ReadN, Read64, Write64;
    hide Xor;
    hide LogicFlags;
    var code := Locate(l);
    var k := CellOf(prev, id);
    var s1 := State(s.core.Set(RDX, l.area), s.mem);
    assert Step(code[0], s) == s1 by { StepLoad(RDX, Abs(l.areaPtr), s); }
    var s2 := State(s1.core.Set(RCX, k).(flags := LogicFlags(k, TWO64)), s.mem);
    assert Step(code[1], s1) == s2 by { StepXorRM(RCX, Abs(l.prevLoc), s1); }
    var s3 := State(s2.core.(flags := LogicFlags(id, TWO64)), Write64(s.mem, l.prevLoc, id));
    assert Step(code[2], s2) == s3 by {
      StepXorMR(Abs(l.prevLoc), RCX, s2);
      XorCancels(prev, id);
    }
    StepShr1(Abs(l.prevLoc), s3);
    var s4 := Step(code[3], s3);
    Chain4(code, s, s1, s2, s3, s4);
  }

  lemma BumpRuns(a: u64, id: u16, s: State)
    requires Plus(s.core.regs[RDX], s.core.regs[RCX]) == a
    requires s.core.flags.cf == (id % 2 == 1)
    ensures var t := RunBody(Bump(), s);
            && t.core == s.core.(flags := t.core.flags)
            && t.mem == s.mem[a := Bumped(At(s.mem, a), id)]
  {
    hide WriteN, ReadN, Read64, Write64;
    hide AddFlags;
    var code := Bump();
    var v := At(s.mem, a);
    StepInc8(Index(RDX, RCX), s);
    var s1 := Step(code[0], s);
    StepAdc8(Index(RDX, RCX), 0, s1);
    var s2 := Step(code[1], s1);
    assert ((v + 1) % 256 + id % 2) % 256 == Bumped(v, id);
    Chain2(code, s, s1, s2);
  }

  /** The whole of `__afl_trace`: rax, rcx and rdx change, the flags and the other registers do not. */
  lemma TraceBodyRuns(l: Layout, prev: Loc, id: u16, s: State)
    requires l.Valid()
    requires Read64(s.mem, l.areaPtr) == l.area && Read64(s.mem, l.prevLoc) == prev
    requires s.core.regs[RCX] == id
    ensures var t := RunBody(TraceBody(l), s);
            && t.core == s.core.Set(RAX, t.core.regs[RAX]).Set(RDX, l.area).Set(RCX, CellOf(prev, id))
            && t.mem == Recorded(l, s.mem, prev, id)
  {
    hide RunBody, SaveFlags, Locate, Bump, RestoreFlags, Ah, Al, Bit, LowFlags, CellOf, Write64, Read64, Bumped;
    var s1 := RunBody(SaveFlags(), s);
    SaveFlagsRuns(s);
    RunConcat(SaveFlags(), Locate(l) + (Bump() + RestoreFlags()), s);
    var s2 := RunBody(Locate(l), s1);
    LocateRuns(l, prev, id, s1);
    RunConcat(Locate(l), Bump() + RestoreFlags(), s1);
    var k := CellOf(prev, id);
    var s3 := RunBody(Bump(), s2);
    BumpRuns(l.area + k, id, s2);
    RunConcat(Bump(), RestoreFlags(), s2);
    SameRax(s1.core, s3.core, l.area, k);
    RestoreFlagsRuns(s.core.flags, s3);
    var s4 := RunBody(RestoreFlags(), s3);
    assert s4 == RunBody(TraceBody(l), s);
    SameUpToScratch(s.core, s1.core, s3.core, s4.core, l.area, k);
  }

  lemma SameRax(c: Core, d: Core, area: u64, k: u64)
    requires d == c.Set(RDX, area).Set(RCX, k).(flags := d.flags)
    ensures Ah(d) == Ah(c) && Al(d) == Al(c)
  {
  }

  lemma SameUpToScratch(c: Core, c1: Core, c3: Core, c4: Core, area: u64, k: u64)
    requires c1 == c.Set(RAX, c1.regs[RAX])
    requires c3 == c1.Set(RDX, area).Set(RCX, k).(flags := c3.flags)
    requires c4 == c3.Set(RAX, c4.regs[RAX]).(flags := c.flags)
    ensures c4 == c.Set(RAX, c4.regs[RAX]).Set(RDX, area).Set(RCX, k)
  {
    assert c4.regs == c.regs[RAX := c4.regs[RAX]][RDX := area][RCX := k];
  }
}
