/** The pass counter behind `__afl_persistent_loop`: when it says "again" and when it says "stop". */
module Loop {
  import opened Words

  datatype Counter = Counter(firstPass: bool, cycle: u32)

  /** `--cycle_cnt` on an unsigned 32-bit word. */
  function Decremented(x: u32): u32 {
    if x == 0 then TWO32 - 1 else x - 1
  }

  function Next(c: Counter, max: u32): Counter {
    Counter(false, if c.firstPass then max else Decremented(c.cycle))
  }

  /** The return value of the call that turns c into Next(c, max). */
  predicate Again(c: Counter, max: u32) {
    c.firstPass || Decremented(c.cycle) != 0
  }

  /** A call other than the first that answers "again" stops the process until it is continued. */
  predicate Stops(c: Counter, max: u32) {
    !c.firstPass && Again(c, max)
  }

  /** How many calls answer "again": the argument, or a full wrap of the counter for zero. */
  function Passes(max: u32): (n: nat) {
    if max == 0 then TWO32 else max
  }

  /** The counter of a fresh process after k calls. */
  function After(max: u32, k: nat): Counter {
    if k == 0 then Counter(true, 0) else Next(After(max, k - 1), max)
  }

  /** Exactly Passes(max) calls answer "again", the one after them answers "stop". */
  lemma {:induction false} AgainExactly(max: u32, k: nat)
    requires k <= Passes(max)
    ensures Again(After(max, k), max) <==> k < Passes(max)
    ensures Stops(After(max, k), max) <==> 1 <= k < Passes(max)
    ensures k >= 1 ==> After(max, k) == Counter(false, (Passes(max) - (k - 1)) % TWO32)
  {
    if k > 0 {
      AgainExactly(max, k - 1);
    }
  }

  /** The start value of cycle_cnt plays no role: the first call overwrites it. */
  lemma FirstCallSetsCycle(c: Counter, max: u32)
    requires c.firstPass
    ensures Next(c, max) == After(max, 1) && Again(c, max)
  {
    assert After(max, 0) == Counter(true, 0);
  }
}
