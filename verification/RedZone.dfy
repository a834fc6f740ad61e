/**
  Instrumentation under the rule programs are compiled to, section 3.2.2 of the System V AMD64 ABI:
  the 128 bytes below rsp belong to the function, and what lies further down may be overwritten at
  any time, so that nothing there is read before it is written again.
 */
module RedZone {
  import opened Words
  import opened Machine
  import opened Coverage
  import opened Trampoline
  import opened Instrument

  /** Bytes that the rule lets anybody overwrite when a block is entered. */
  ghost function Volatile(c: Config, dead: iset<int>): iset<int> {
    dead + iset x | BelowRedZone(x, c.s.core.Rsp())
  }

  predicate BelowRedZone(x: int, rsp: u64) { x < rsp - 0x80 }

  /** The bytes that have been up for overwriting at some block entry and were not written since. */
  ghost function StillDead(p: Program, c: Config, dead: iset<int>, n: nat): iset<int>
    decreases n
  {
    if n == 0 || c.pc !in p then dead
    else StillDead(p, BlockStep(p[c.pc], c.s), BlockDirty(p[c.pc], c.s, Volatile(c, dead)), n - 1)
  }

  /** A run of n block steps that reads no such byte, keeps off the tracer's data and labels, and has
      0xa0 bytes of stack left wherever a site is. */
  ghost predicate ObeysRule(p: Program, plan: Plan, c: Config, dead: iset<int>, n: nat)
    decreases n
  {
    && !plan.Fresh(c.pc)
    && (n > 0 && c.pc in p ==>
          && (c.pc in plan.ids ==> 0xa0 <= c.s.core.Rsp() && plan.l.Clear(Span(c.s.core.Rsp() - 0xa0, 0xa0)))
          && BlockOk(plan.l, p[c.pc], c.s, Volatile(c, dead))
          && ObeysRule(p, plan, BlockStep(p[c.pc], c.s), BlockDirty(p[c.pc], c.s, Volatile(c, dead)), n - 1))
  }

  /** What the trampoline writes at a site is up for overwriting there. */
  lemma SiteBelowRedZone(plan: Plan, c: Config, dirty: iset<int>, dead: iset<int>)
    requires dirty <= dead
    ensures AtEntry(plan, c, dirty) <= Volatile(c, dead)
  {
  }

  lemma {:induction false} BodyWithLess(l: Layout, code: seq<Instr>, k: nat, s: State, dirty: iset<int>, dead: iset<int>)
    requires dirty <= dead && BodyOk(l, code, k, s, dead)
    ensures BodyOk(l, code, k, s, dirty)
    ensures BodyDirty(code, k, s, dirty) <= BodyDirty(code, k, s, dead)
    decreases |code| - k
  {
    hide Step, Outcome, Rd;
    if k < |code| {
      var wr := Instrument.Cells(Outcome(code[k], s).wr);
      BodyWithLess(l, code, k + 1, Step(code[k], s), dirty - wr, dead - wr);
    }
  }

  /** A block that reads nothing out of a set reads nothing out of a smaller one. */
  lemma BlockWithLess(l: Layout, b: Block, s: State, dirty: iset<int>, dead: iset<int>)
    requires dirty <= dead && BlockOk(l, b, s, dead)
    ensures BlockOk(l, b, s, dirty) && BlockDirty(b, s, dirty) <= BlockDirty(b, s, dead)
  {
    hide RunBody, BodyOk, BodyDirty;
    BodyWithLess(l, b.body, 0, s, dirty, dead);
  }

  lemma {:induction false} RuleIsEnough(p: Program, plan: Plan, c: Config, dirty: iset<int>, dead: iset<int>, n: nat)
    requires dirty <= dead && ObeysRule(p, plan, c, dead, n)
    ensures Disciplined(p, plan, c, dirty, n)
    ensures StillDirty(p, plan, c, dirty, n) <= StillDead(p, c, dead, n)
    decreases n
  {
    hide BlockStep, BlockOk, BlockDirty, AtEntry, Volatile;
    if n > 0 && c.pc in p {
      var less, more := AtEntry(plan, c, dirty), Volatile(c, dead);
      SiteBelowRedZone(plan, c, dirty, dead);
      BlockWithLess(plan.l, p[c.pc], c.s, less, more);
      RuleIsEnough(p, plan, BlockStep(p[c.pc], c.s), BlockDirty(p[c.pc], c.s, less), BlockDirty(p[c.pc], c.s, more), n - 1);
    }
  }

  /**
    Every run that obeys the rule is followed by the instrumented program, with the whole processor
    state equal and all memory too except the tracer's data and bytes that were up for overwriting
    and not written since; so whatever a function has put into its red zone is equal.
   */
  lemma CompiledProgramsAreFollowed(
      p: Program, plan: Plan, c: Config, d: Config, dirty: iset<int>, dead: iset<int>, cov: Cov, n: nat)
    requires plan.Valid(p) && Match(plan, dirty, c, d, cov) && dirty <= dead && ObeysRule(p, plan, c, dead, n)
    ensures var q := Instrumented(p, plan);
            var c', d' := Run(p, c, n), Run(q, d, Cost(p, plan, c, n));
            && d'.pc == c'.pc && d'.s.core == c'.s.core
            && (forall x :: x !in StillDead(p, c, dead, n) && !Own(plan.l, x) ==> At(d'.s.mem, x) == At(c'.s.mem, x))
            && Holds(plan.l, d'.s.mem, TraceAll(cov, Visited(p, plan, c, n)))
            && (d'.pc in q <==> c'.pc in p)
  {
    hide Run, Cost, Visited, StillDead, StillDirty, ObeysRule, Disciplined, Instrumented, Holds, TraceAll, Own;
    RuleIsEnough(p, plan, c, dirty, dead, n);
    InstrumentationPreservesMeaning(p, plan, c, d, dirty, cov, n);
  }
}
