/**
  Instrumentation as a program transformation: a trampoline is placed at the head of any set of
  blocks. A run of the instrumented program follows the original run block by block.
 */
module Instrument {
  import opened Words
  import opened Machine
  import opened Coverage
  import opened Trampoline

  // ---------- programs ----------

  /** How a block ends; code addresses are symbolic labels. A jump or call may go through memory: it
      reads one span chosen from the registers and takes its target from them and what it read. */
  datatype Term =
    | Goto(rd: Core -> Span, pick: (Core, nat) -> u64)
    | Call(rd: Core -> Span, target: (Core, nat) -> u64, ret: u64)
    | Ret

  datatype Block = Block(body: seq<Instr>, term: Term)

  type Program = map<u64, Block>

  datatype Config = Config(pc: u64, s: State)

  function TermRd(t: Term, c: Core): Span {
    if t.Ret? then Span(c.Rsp(), 8) else t.rd(c)
  }

  function TermWr(t: Term, c: Core): Span {
    if t.Call? then Span(Minus(c.Rsp(), 8), 8) else NOWHERE
  }

  function TermStep(t: Term, s: State): Config {
    match t
    case Goto(rd, pick) => Config(pick(s.core, ReadN(s.mem, rd(s.core).addr, rd(s.core).len)), s)
    case Call(rd, target, ret) =>
      Config(target(s.core, ReadN(s.mem, rd(s.core).addr, rd(s.core).len)), Called(s, ret))
    case Ret => Config(Read64(s.mem, s.core.Rsp()), State(s.core.Set(RSP, Plus(s.core.Rsp(), 8)), s.mem))
  }

  function BlockStep(b: Block, s: State): Config {
    TermStep(b.term, RunBody(b.body, s))
  }

  /** n block steps; a label outside the program halts. */
  function Run(p: Program, c: Config, n: nat): Config
    decreases n
  {
    if n == 0 || c.pc !in p then c else Run(p, BlockStep(p[c.pc], c.s), n - 1)
  }

  lemma {:induction false} RunAdd(p: Program, c: Config, m: nat, n: nat)
    ensures Run(p, c, m + n) == Run(p, Run(p, c, m), n)
    decreases m
  {
    hide BlockStep;
    if m > 0 && c.pc in p {
      RunAdd(p, BlockStep(p[c.pc], c.s), m - 1, n);
    } else if m > 0 {
      assert Run(p, c, m) == c;
    }
  }

  // ---------- what the original program may touch ----------

  ghost function Cells(sp: Span): iset<int> {
    iset x | In(x, sp)
  }

  ghost predicate ReadsOk(l: Layout, dirty: iset<int>, sp: Span) {
    l.Clear(sp) && forall x :: In(x, sp) ==> x !in dirty
  }

  /** The code from position k neither reads a dirty byte nor touches the tracer's data. */
  ghost predicate BodyOk(l: Layout, code: seq<Instr>, k: nat, s: State, dirty: iset<int>)
    decreases |code| - k
  {
    k < |code| ==>
      && ReadsOk(l, dirty, Rd(code[k], s.core))
      && l.Clear(Outcome(code[k], s).wr)
      && BodyOk(l, code, k + 1, Step(code[k], s), dirty - Cells(Outcome(code[k], s).wr))
  }

  /** Writing a byte makes it clean again. */
  ghost function BodyDirty(code: seq<Instr>, k: nat, s: State, dirty: iset<int>): iset<int>
    decreases |code| - k
  {
    if k >= |code| then dirty
    else BodyDirty(code, k + 1, Step(code[k], s), dirty - Cells(Outcome(code[k], s).wr))
  }

  ghost predicate BlockOk(l: Layout, b: Block, s: State, dirty: iset<int>) {
    var s1 := RunBody(b.body, s);
    && BodyOk(l, b.body, 0, s, dirty)
    && ReadsOk(l, BodyDirty(b.body, 0, s, dirty), TermRd(b.term, s1.core))
    && l.Clear(TermWr(b.term, s1.core))
  }

  ghost function BlockDirty(b: Block, s: State, dirty: iset<int>): iset<int> {
    BodyDirty(b.body, 0, s, dirty) - Cells(TermWr(b.term, RunBody(b.body, s).core))
  }

  // ---------- agreement ----------

  ghost predicate Own(l: Layout, x: int) {
    In(x, l.PtrCell()) || In(x, l.LocCell()) || In(x, l.Map())
  }

  /** Equal registers and flags, and equal memory outside the dirty bytes and the tracer's data. */
  ghost predicate Agree(l: Layout, dirty: iset<int>, s: State, t: State) {
    s.core == t.core && forall x :: x !in dirty && !Own(l, x) ==> At(s.mem, x) == At(t.mem, x)
  }

  ghost predicate Keeps(l: Layout, m: Mem, m': Mem) {
    forall x :: Own(l, x) ==> At(m, x) == At(m', x)
  }

  lemma WriteAgree(l: Layout, dirty: iset<int>, m: Mem, m': Mem, wr: Span, v: nat)
    requires forall x :: x !in dirty && !Own(l, x) ==> At(m, x) == At(m', x)
    requires l.Clear(wr)
    ensures forall x :: x !in dirty - Cells(wr) && !Own(l, x)
              ==> At(WriteN(m, wr.addr, wr.len, v), x) == At(WriteN(m', wr.addr, wr.len, v), x)
    ensures Keeps(l, m', WriteN(m', wr.addr, wr.len, v))
  {
    forall x | x !in dirty - Cells(wr) && !Own(l, x)
      ensures At(WriteN(m, wr.addr, wr.len, v), x) == At(WriteN(m', wr.addr, wr.len, v), x)
    {
      WriteSame(m, m', wr.addr, wr.len, v, x);
    }
  }

  lemma StepAgree(l: Layout, i: Instr, dirty: iset<int>, s: State, t: State)
    requires Agree(l, dirty, s, t)
    requires ReadsOk(l, dirty, Rd(i, s.core)) && l.Clear(Outcome(i, s).wr)
    ensures Agree(l, dirty - Cells(Outcome(i, s).wr), Step(i, s), Step(i, t))
    ensures Keeps(l, t.mem, Step(i, t).mem)
  {
    var rd := Rd(i, s.core);
    hide Exec;
    ReadFrame(s.mem, t.mem, rd.addr, rd.len);
    var e := Outcome(i, s);
    assert e == Outcome(i, t);
    WriteAgree(l, dirty, s.mem, t.mem, e.wr, e.val);
  }

  lemma {:induction false} BodyAgree(l: Layout, code: seq<Instr>, k: nat, dirty: iset<int>, s: State, t: State)
    requires Agree(l, dirty, s, t) && BodyOk(l, code, k, s, dirty)
    ensures Agree(l, BodyDirty(code, k, s, dirty), RunFrom(code, k, s), RunFrom(code, k, t))
    ensures Keeps(l, t.mem, RunFrom(code, k, t).mem)
    decreases |code| - k
  {
    if k < |code| {
      StepAgree(l, code[k], dirty, s, t);
      BodyAgree(l, code, k + 1, dirty - Cells(Outcome(code[k], s).wr), Step(code[k], s), Step(code[k], t));
    }
  }

  lemma BlockAgree(l: Layout, b: Block, dirty: iset<int>, s: State, t: State)
    requires Agree(l, dirty, s, t) && BlockOk(l, b, s, dirty)
    ensures BlockStep(b, s).pc == BlockStep(b, t).pc
    ensures Agree(l, BlockDirty(b, s, dirty), BlockStep(b, s).s, BlockStep(b, t).s)
    ensures Keeps(l, t.mem, BlockStep(b, t).s.mem)
  {
    BodyAgree(l, b.body, 0, dirty, s, t);
    var s1, t1 := RunBody(b.body, s), RunBody(b.body, t);
    var d1 := BodyDirty(b.body, 0, s, dirty);
    hide RunBody;
    match b.term
    case Goto(rd, _) =>
      ReadFrame(s1.mem, t1.mem, rd(s1.core).addr, rd(s1.core).len);
    case Call(rd, _, ret) =>
      ReadFrame(s1.mem, t1.mem, rd(s1.core).addr, rd(s1.core).len);
      var wr := TermWr(b.term, s1.core);
      WriteAgree(l, d1, s1.mem, t1.mem, wr, ret);
    case Ret =>
      Read64Frame(s1.mem, t1.mem, s1.core.Rsp());
  }

  // ---------- the trampoline as seen by the program ----------

  lemma HoldsFrame(l: Layout, m: Mem, m': Mem, c: Cov)
    requires Holds(l, m, c) && Keeps(l, m, m')
    ensures Holds(l, m', c)
  {
    Read64Frame(m, m', l.areaPtr);
    Read64Frame(m, m', l.prevLoc);
    assert Bitmap(m, l.area) == Bitmap(m', l.area);
  }

  lemma RecordedHolds(l: Layout, m: Mem, c: Cov, id: u16)
    requires l.Valid() && Holds(l, m, c)
    ensures Holds(l, Recorded(l, m, c.prev, id), Trace(c, id))
    ensures forall x :: !Own(l, x) ==> At(Recorded(l, m, c.prev, id), x) == At(m, x)
  {
    hide WriteN, ReadN, Read64, Write64, Xor;
    var k := CellOf(c.prev, id);
    var a := l.area + k;
    var m1 := Write64(Write64(m, l.prevLoc, id), l.prevLoc, id / 2);
    var m2 := m1[a := Bumped(At(m1, a), id)];
    Read64Frame(m1, m2, l.areaPtr);
    Read64Frame(m1, m2, l.prevLoc);
    assert forall x :: !In(x, l.LocCell()) ==> At(m1, x) == At(m, x);
    assert c.cells[k] == Bitmap(m, l.area)[k] == At(m, a) == At(m1, a);
    var after, want := Bitmap(m2, l.area), Trace(c, id).cells;
    forall i | 0 <= i < MAP_SIZE
      ensures after[i] == want[i]
    {
      assert c.cells[i] == Bitmap(m, l.area)[i] == At(m, l.area + i);
      assert In(l.area + i, l.Map()) && !In(l.area + i, l.LocCell());
      assert after[i] == At(m2, l.area + i);
      if i == k {
        assert after[i] == Bumped(At(m1, a), id);
      } else {
        assert l.area + i != a;
      }
    }
    assert after == want;
    assert Read64(m2, l.areaPtr) == Read64(m1, l.areaPtr) == Read64(m, l.areaPtr);
    assert Read64(m2, l.prevLoc) == Read64(m1, l.prevLoc) == id / 2;
    assert In(a, l.Map());
  }

  /** Call, trace and return, between the trampoline's two halves. */
  function Traced(l: Layout, resume: u64, s: State): Config {
    TermStep(Ret, RunBody(TraceBody(l), Called(s, resume)))
  }

  lemma ReturnWord(l: Layout, m: Mem, m': Mem, sp: int)
    requires l.Clear(Span(sp, 8)) && forall x :: !Own(l, x) ==> At(m', x) == At(m, x)
    ensures Read64(m', sp) == Read64(m, sp)
  {
    hide ReadN;
    Read64Frame(m, m', sp);
  }

  lemma SwapRsp(c: Core, d: Core, sp: u64)
    requires d == c.Set(RSP, sp).Set(RAX, d.regs[RAX]).Set(RDX, d.regs[RDX]).Set(RCX, d.regs[RCX])
    ensures d.Set(RSP, c.Rsp()) == c.Set(RAX, d.regs[RAX]).Set(RCX, d.regs[RCX]).Set(RDX, d.regs[RDX])
  {
    var e := d.Set(RSP, c.Rsp());
    var f := c.Set(RAX, d.regs[RAX]).Set(RCX, d.regs[RCX]).Set(RDX, d.regs[RDX]);
    assert forall r :: 0 <= r < 16 ==> e.regs[r] == f.regs[r];
    assert e.regs == f.regs;
  }

  lemma TracedRuns(l: Layout, id: u16, resume: u64, s: State, c: Cov)
    requires l.Valid() && Holds(l, s.mem, c)
    requires 8 <= s.core.Rsp() && l.Clear(Span(s.core.Rsp() - 8, 8)) && s.core.regs[RCX] == id
    ensures var t := Traced(l, resume, s);
            && t.pc == resume
            && t.s.core == s.core.Set(RAX, t.s.core.regs[RAX]).Set(RCX, t.s.core.regs[RCX]).Set(RDX, t.s.core.regs[RDX])
            && Holds(l, t.s.mem, Trace(c, id))
            && forall x :: !In(x, Span(s.core.Rsp() - 8, 8)) && !Own(l, x) ==> At(t.s.mem, x) == At(s.mem, x)
  {
    hide RunBody, WriteN, ReadN, Read64, Recorded, TraceBody, Trace, Bitmap;
    var sp := s.core.Rsp() - 8;
    var s1 := State(s.core.Set(RSP, sp), Write64(s.mem, sp, resume));
    assert s1 == Called(s, resume);
    HoldsFrame(l, s.mem, s1.mem, c);
    hide Write64;
    var s2 := RunBody(TraceBody(l), s1);
    assert s2.core == s1.core.Set(RAX, s2.core.regs[RAX]).Set(RDX, l.area).Set(RCX, CellOf(c.prev, id))
        && s2.mem == Recorded(l, s1.mem, c.prev, id) by {
      TraceBodyRuns(l, c.prev, id, s1);
    }
    RecordedHolds(l, s1.mem, c, id);
    ReturnWord(l, s1.mem, s2.mem, sp);
    assert Read64(s2.mem, sp) == resume;
    var t := TermStep(Ret, s2);
    assert t == Traced(l, resume, s);
    assert t.s.core == s2.core.Set(RSP, s.core.Rsp());
    SwapRsp(s.core, s2.core, sp);
  }

  /** The trampoline in full: everything the program can see is as before, one edge is recorded. */
  lemma TrampolineRuns(l: Layout, id: u16, resume: u64, s: State, c: Cov)
    requires l.Valid() && Holds(l, s.mem, c)
    requires FRAME + 8 <= s.core.Rsp() && l.Clear(Scratch(s.core.Rsp()))
    ensures var t := Traced(l, resume, RunBody(Enter(id), s));
            var u := RunBody(Leave(), t.s);
            && t.pc == resume
            && u.core == s.core
            && Holds(l, u.mem, Trace(c, id))
            && (forall x :: !In(x, Scratch(s.core.Rsp())) && !Own(l, x) ==> At(u.mem, x) == At(s.mem, x))
            && (forall x :: (x < s.core.Rsp() - 0xa0 || s.core.Rsp() - 0x80 <= x) && !Own(l, x)
                  ==> At(u.mem, x) == At(s.mem, x))
  {
    hide RunBody, WriteN, ReadN, Read64, Write64, Trace, Traced, Enter, Leave, TraceBody, TermStep, Bitmap;
    var rsp := s.core.Rsp();
    var sp := rsp - FRAME;
    EnterRuns(id, s);
    var s1 := RunBody(Enter(id), s);
    HoldsFrame(l, s.mem, s1.mem, c);
    TracedRuns(l, id, resume, s1, c);
    var t := Traced(l, resume, s1).s;
    LeaveRuns(t);
    SavedWords(l, s1.mem, t.mem, sp);
    var u := RunBody(Leave(), t);
    RestoredCore(s.core, t.core, sp);
  }

  /** The three words the trampoline parks on the stack survive the call. */
  lemma SavedWords(l: Layout, m: Mem, m': Mem, sp: int)
    requires l.Clear(Span(sp - 8, 0x20))
    requires forall x :: !In(x, Span(sp - 8, 8)) && !Own(l, x) ==> At(m', x) == At(m, x)
    ensures Read64(m', sp) == Read64(m, sp)
    ensures Read64(m', sp + 8) == Read64(m, sp + 8)
    ensures Read64(m', sp + 0x10) == Read64(m, sp + 0x10)
  {
    hide ReadN;
    Read64Frame(m, m', sp);
    Read64Frame(m, m', sp + 8);
    Read64Frame(m, m', sp + 0x10);
  }

  lemma RestoredCore(c: Core, d: Core, sp: u64)
    requires FRAME <= c.Rsp() && sp == c.Rsp() - FRAME
    requires var e := c.Set(RSP, sp).Set(RCX, d.regs[RCX]);
             d == e.Set(RAX, d.regs[RAX]).Set(RCX, d.regs[RCX]).Set(RDX, d.regs[RDX])
    ensures d.Set(RAX, c.regs[RAX]).Set(RCX, c.regs[RCX]).Set(RDX, c.regs[RDX]).Set(RSP, sp + FRAME) == c
  {
    var e := d.Set(RAX, c.regs[RAX]).Set(RCX, c.regs[RCX]).Set(RDX, c.regs[RDX]).Set(RSP, sp + FRAME);
    assert forall r :: 0 <= r < 16 ==> e.regs[r] == c.regs[r];
    assert e.regs == c.regs;
  }

  // ---------- the transformation ----------

  /**
    Which blocks are instrumented with which ids, and the fresh labels the rewriter uses:
    one return label per site and the entry of `__afl_trace`.
   */
  datatype Plan = Plan(l: Layout, ids: map<u64, u16>, resume: map<u64, u64>, owner: map<u64, u64>, tracer: u64)
  {
    ghost predicate Valid(p: Program) {
      && l.Valid()
      && ids.Keys <= p.Keys && resume.Keys == ids.Keys
      && (forall k :: k in ids ==> resume[k] in owner && owner[resume[k]] == k)
      && (forall r :: r in owner ==> owner[r] in ids && r !in p && r != tracer)
      && tracer !in p
    }

    predicate Fresh(k: u64) {
      k in owner || k == tracer
    }
  }

  function NewBlock(p: Program, plan: Plan, k: u64): Block
    requires k in p || plan.Fresh(k)
  {
    if k == plan.tracer then Block(TraceBody(plan.l), Ret)
    else if k in plan.owner && plan.owner[k] in p then
      Block(Leave() + p[plan.owner[k]].body, p[plan.owner[k]].term)
    else if k in plan.ids && k in plan.resume then
      Block(Enter(plan.ids[k]), Call((c: Core) => NOWHERE, (c: Core, v: nat) => plan.tracer, plan.resume[k]))
    else if k in p then p[k]
    else Block([], Ret)
  }

  function Instrumented(p: Program, plan: Plan): Program {
    map k | k in p.Keys + plan.owner.Keys + {plan.tracer} :: NewBlock(p, plan, k)
  }

  /** Three block steps at a site (trampoline, tracer, the block itself), one elsewhere. */
  function Cost(p: Program, plan: Plan, c: Config, n: nat): nat
    decreases n
  {
    if n == 0 || c.pc !in p then 0
    else (if c.pc in plan.ids then 3 else 1) + Cost(p, plan, BlockStep(p[c.pc], c.s), n - 1)
  }

  /** The ids of the sites an original run passes, in order. */
  function Visited(p: Program, plan: Plan, c: Config, n: nat): seq<u16>
    decreases n
  {
    if n == 0 || c.pc !in p then []
    else (if c.pc in plan.ids then [plan.ids[c.pc]] else []) + Visited(p, plan, BlockStep(p[c.pc], c.s), n - 1)
  }

  ghost function AtEntry(plan: Plan, c: Config, dirty: iset<int>): iset<int> {
    if c.pc in plan.ids then dirty + Cells(Scratch(c.s.core.Rsp())) else dirty
  }

  /** One block step: room on the stack at a site, and a disciplined block. */
  ghost predicate StepDisciplined(p: Program, plan: Plan, c: Config, dirty: iset<int>)
    requires c.pc in p
  {
    && (c.pc in plan.ids ==> FRAME + 8 <= c.s.core.Rsp() && plan.l.Clear(Scratch(c.s.core.Rsp())))
    && BlockOk(plan.l, p[c.pc], c.s, AtEntry(plan, c, dirty))
  }

  /**
    What the original run must respect for n block steps: it never reads bytes of the scratch area
    of a visited site (all of them beyond the red zone at that point) before writing them again,
    keeps off the tracer's data and jumps to no fresh label; the stack has room for the trampoline.
   */
  ghost predicate Disciplined(p: Program, plan: Plan, c: Config, dirty: iset<int>, n: nat)
    decreases n
  {
    && !plan.Fresh(c.pc)
    && (n > 0 && c.pc in p ==>
          && StepDisciplined(p, plan, c, dirty)
          && Disciplined(p, plan, BlockStep(p[c.pc], c.s), BlockDirty(p[c.pc], c.s, AtEntry(plan, c, dirty)), n - 1))
  }

  /** Bytes that may still differ after n block steps. */
  ghost function StillDirty(p: Program, plan: Plan, c: Config, dirty: iset<int>, n: nat): iset<int>
    decreases n
  {
    if n == 0 || c.pc !in p then dirty
    else StillDirty(p, plan, BlockStep(p[c.pc], c.s), BlockDirty(p[c.pc], c.s, AtEntry(plan, c, dirty)), n - 1)
  }

  /** Control, data and coverage of two configurations match. */
  ghost predicate Match(plan: Plan, dirty: iset<int>, c: Config, d: Config, cov: Cov) {
    d.pc == c.pc && Agree(plan.l, dirty, c.s, d.s) && Holds(plan.l, d.s.mem, cov)
  }

  lemma SiteSteps(p: Program, plan: Plan, t: State, k: u64)
    requires plan.Valid(p) && k in plan.ids
    ensures var q := Instrumented(p, plan);
            var u := Traced(plan.l, plan.resume[k], RunBody(Enter(plan.ids[k]), t));
            u.pc == plan.resume[k] ==>
              Run(q, Config(k, t), 3) == BlockStep(p[k], RunBody(Leave(), u.s))
  {
    var q := Instrumented(p, plan);
    var r := plan.resume[k];
    var c0 := Config(k, t);
    hide RunBody, Step, Read64, Write64, ReadN, WriteN, TraceBody, Enter, Leave;
    assert q[k] == NewBlock(p, plan, k);
    var t1 := RunBody(Enter(plan.ids[k]), t);
    var c1 := BlockStep(q[k], t);
    assert c1 == Config(plan.tracer, Called(t1, r));
    assert q[plan.tracer] == Block(TraceBody(plan.l), Ret);
    var c2 := BlockStep(q[plan.tracer], c1.s);
    assert c2 == Traced(plan.l, r, t1);
    if c2.pc == r {
      assert q[r] == Block(Leave() + p[k].body, p[k].term);
      RunConcat(Leave(), p[k].body, c2.s);
      var c3 := BlockStep(q[r], c2.s);
      assert Run(q, c0, 3) == Run(q, c1, 2) == Run(q, c2, 1) == Run(q, c3, 0) == c3;
    }
  }

  function StepCost(plan: Plan, c: Config): nat {
    if c.pc in plan.ids then 3 else 1
  }

  function StepCov(plan: Plan, c: Config, cov: Cov): Cov {
    if c.pc in plan.ids then Trace(cov, plan.ids[c.pc]) else cov
  }

  lemma SiteMatches(p: Program, plan: Plan, c: Config, d: Config, dirty: iset<int>, cov: Cov)
    requires plan.Valid(p) && Match(plan, dirty, c, d, cov)
    requires c.pc in plan.ids && StepDisciplined(p, plan, c, dirty)
    ensures Match(plan, BlockDirty(p[c.pc], c.s, AtEntry(plan, c, dirty)), BlockStep(p[c.pc], c.s),
                  Run(Instrumented(p, plan), d, 3), Trace(cov, plan.ids[c.pc]))
  {
    hide BlockStep, BlockOk, Trace, RunBody, BlockDirty, Holds, Run, Instrumented, Traced;
    var b, id, r := p[c.pc], plan.ids[c.pc], plan.resume[c.pc];
    var entry := AtEntry(plan, c, dirty);
    TrampolineRuns(plan.l, id, r, d.s, cov);
    var t := RunBody(Leave(), Traced(plan.l, r, RunBody(Enter(id), d.s)).s);
    SiteSteps(p, plan, d.s, c.pc);
    hide Leave, Enter, Keeps, Own;
    EntryAgree(plan, c, d.s, t, dirty);
    hide Agree;
    BlockAgree(plan.l, b, entry, c.s, t);
    HoldsFrame(plan.l, t.mem, BlockStep(b, t).s.mem, Trace(cov, id));
  }

  lemma EntryAgree(plan: Plan, c: Config, t: State, u: State, dirty: iset<int>)
    requires Agree(plan.l, dirty, c.s, t) && c.pc in plan.ids && u.core == t.core
    requires forall x :: !In(x, Scratch(t.core.Rsp())) && !Own(plan.l, x) ==> At(u.mem, x) == At(t.mem, x)
    ensures Agree(plan.l, AtEntry(plan, c, dirty), c.s, u)
  {
    hide Own, At, Scratch;
  }

  /** One original block step is matched by one or three steps of the instrumented program. */
  lemma BlockMatches(p: Program, plan: Plan, c: Config, d: Config, dirty: iset<int>, cov: Cov)
    requires plan.Valid(p) && Match(plan, dirty, c, d, cov)
    requires c.pc in p && StepDisciplined(p, plan, c, dirty)
    ensures Match(plan, BlockDirty(p[c.pc], c.s, AtEntry(plan, c, dirty)), BlockStep(p[c.pc], c.s),
                  Run(Instrumented(p, plan), d, StepCost(plan, c)), StepCov(plan, c, cov))
  {
    hide Step, Read64, Write64, ReadN, WriteN, TermStep;
    if c.pc in plan.ids {
      SiteMatches(p, plan, c, d, dirty, cov);
    } else {
      var q := Instrumented(p, plan);
      var b := p[c.pc];
      hide BlockStep, BlockOk, Trace, RunBody, BlockDirty;
      assert q[c.pc] == b;
      BlockAgree(plan.l, b, dirty, c.s, d.s);
      HoldsFrame(plan.l, d.s.mem, BlockStep(b, d.s).s.mem, cov);
      assert Run(q, d, 1) == Run(q, BlockStep(b, d.s), 0);
    }
  }

  lemma CostStep(p: Program, plan: Plan, c: Config, d: Config, n: nat)
    requires n > 0 && c.pc in p
    ensures var q := Instrumented(p, plan);
            Run(q, d, Cost(p, plan, c, n))
            == Run(q, Run(q, d, StepCost(plan, c)), Cost(p, plan, BlockStep(p[c.pc], c.s), n - 1))
  {
    hide BlockStep, Instrumented;
    RunAdd(Instrumented(p, plan), d, StepCost(plan, c), Cost(p, plan, BlockStep(p[c.pc], c.s), n - 1));
  }

  lemma VisitedStep(p: Program, plan: Plan, c: Config, cov: Cov, n: nat)
    requires n > 0 && c.pc in p
    ensures TraceAll(cov, Visited(p, plan, c, n))
         == TraceAll(StepCov(plan, c, cov), Visited(p, plan, BlockStep(p[c.pc], c.s), n - 1))
  {
    hide BlockStep, Trace;
    var rest := Visited(p, plan, BlockStep(p[c.pc], c.s), n - 1);
    if c.pc in plan.ids {
      assert ([plan.ids[c.pc]] + rest)[1..] == rest;
    } else {
      assert [] + rest == rest;
    }
  }

  /** What the theorem claims after n original block steps. */
  ghost predicate Follows(p: Program, plan: Plan, c: Config, d: Config, dirty: iset<int>, cov: Cov, n: nat) {
    var q := Instrumented(p, plan);
    var c', d' := Run(p, c, n), Run(q, d, Cost(p, plan, c, n));
    && Match(plan, StillDirty(p, plan, c, dirty, n), c', d', TraceAll(cov, Visited(p, plan, c, n)))
    && (d'.pc in q <==> c'.pc in p)
  }

  lemma FollowsStep(p: Program, plan: Plan, c: Config, d: Config, dirty: iset<int>, cov: Cov, n: nat)
    requires n > 0 && c.pc in p
    requires Follows(p, plan, BlockStep(p[c.pc], c.s), Run(Instrumented(p, plan), d, StepCost(plan, c)),
                     BlockDirty(p[c.pc], c.s, AtEntry(plan, c, dirty)), StepCov(plan, c, cov), n - 1)
    ensures Follows(p, plan, c, d, dirty, cov, n)
  {
    hide BlockDirty, BlockStep, Instrumented, Match, AtEntry, Visited, Cost, TraceAll, StepCost, StepCov;
    CostStep(p, plan, c, d, n);
    VisitedStep(p, plan, c, cov, n);
  }

  /**
    Instrumentation preserves meaning: any run of any program is followed by the instrumented
    program, which halts exactly when the original does and whose bitmap is the fold of the
    ids of the sites passed.
   */
  lemma {:induction false} InstrumentationPreservesMeaning(
      p: Program, plan: Plan, c: Config, d: Config, dirty: iset<int>, cov: Cov, n: nat)
    requires plan.Valid(p) && Match(plan, dirty, c, d, cov) && Disciplined(p, plan, c, dirty, n)
    ensures var q := Instrumented(p, plan);
            var c', d' := Run(p, c, n), Run(q, d, Cost(p, plan, c, n));
            && Match(plan, StillDirty(p, plan, c, dirty, n), c', d', TraceAll(cov, Visited(p, plan, c, n)))
            && (d'.pc in q <==> c'.pc in p)
    decreases n
  {
    FollowsInduction(p, plan, c, d, dirty, cov, n);
  }

  lemma {:induction false} FollowsInduction(
      p: Program, plan: Plan, c: Config, d: Config, dirty: iset<int>, cov: Cov, n: nat)
    requires plan.Valid(p) && Match(plan, dirty, c, d, cov) && Disciplined(p, plan, c, dirty, n)
    ensures Follows(p, plan, c, d, dirty, cov, n)
    decreases n
  {
    hide Step, Read64, Write64, ReadN, WriteN, TermStep, RunBody, Agree, Holds;
    if n == 0 || c.pc !in p {
      assert c.pc in Instrumented(p, plan) <==> c.pc in p;
    } else {
      hide Follows, BlockDirty, BlockStep, Match, AtEntry, StepDisciplined, Run;
      BlockMatches(p, plan, c, d, dirty, cov);
      FollowsInduction(p, plan, BlockStep(p[c.pc], c.s), Run(Instrumented(p, plan), d, StepCost(plan, c)),
                       BlockDirty(p[c.pc], c.s, AtEntry(plan, c, dirty)), StepCov(plan, c, cov), n - 1);
      FollowsStep(p, plan, c, d, dirty, cov, n);
    }
  }
}
