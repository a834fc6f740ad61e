/**
  The injected C runtime: bitmap attachment, the persistent loop and the tracer, over real arrays.
  The class refines a value-level specification on which the isolation properties are proved.
 */
module Runtime {
  import opened Options
  import opened Words
  import opened Coverage
  import opened Loop

  /** The runtime as values. `onDummy` says that `__afl_area_ptr` points at the dummy region. */
  datatype Rt = Rt(counter: Counter, prev: u64, attached: bool, onDummy: bool, shared: Cells, dummy: Cells)
  {
    function Active(): Cells { if onDummy then dummy else shared }

    function WithActive(c: Cells): Rt { if onDummy then this.(dummy := c) else this.(shared := c) }

    /** prev_loc is a 64-bit cell in which the tracer keeps a 15-bit value. */
    predicate Sane() { prev < 0x8000 }
  }

  /** `__afl_prev_loc = 0`: a 32-bit store into the 64-bit cell. */
  function Low32Cleared(p: u64): u64 {
    p - p % TWO32
  }

  /** So the whole cell is cleared, as the tracer keeps it below 2^15. */
  lemma StoreClearsCell(p: u64)
    ensures Low32Cleared(p) == 0 <==> p < TWO32
  {
  }

  function Zeroes(): Cells { seq(MAP_SIZE, (i: nat) => 0) }

  /** The map a pass starts from: cell 0 is 1, the rest 0. */
  function Fresh(): Cells { Zeroes()[0 := 1] }

  function TraceRt(rt: Rt, id: u16): Rt
    requires rt.Sane()
    ensures TraceRt(rt, id).Sane()
  {
    var c := Trace(Cov(rt.prev, rt.Active()), id);
    rt.WithActive(c.cells).(prev := c.prev)
  }

  /** The part of `__afl_persistent_loop` after the stop. */
  function Resume(rt: Rt): Rt {
    rt.WithActive(rt.Active()[0 := 1]).(prev := Low32Cleared(rt.prev))
  }

  /** `__afl_persistent_loop`; `world` is the shared map as the fuzzer leaves it during the stop. */
  function LoopRt(rt: Rt, max: u32, world: Cells): Rt {
    var c := Next(rt.counter, max);
    if rt.counter.firstPass then
      rt.WithActive(Fresh()).(counter := c, prev := Low32Cleared(rt.prev))
    else if Again(rt.counter, max) then
      Resume((if rt.attached then rt.(shared := world) else rt).(counter := c))
    else
      rt.(counter := c, onDummy := true)
  }

  // ---------- the class ----------

  datatype Startup = Running | Exited(code: int, error: Option<int>)

  const FS_ERROR_SHMAT: int := 8

  class Process {
    var dummy: array?<u8>
    var area: array?<u8>
    var shmDone: bool
    var prevLoc: u64
    var firstPass: bool
    var cycleCnt: u32
    /** The segment the fuzzer also sees, if one was attached; the code itself only knows `area`. */
    var segment: array?<u8>

    constructor ()
      ensures dummy == null && area == null && segment == null && !shmDone
      ensures firstPass && cycleCnt == 0 && prevLoc == 0
    {
      dummy, area, segment, shmDone := null, null, null, false;
      prevLoc, firstPass, cycleCnt := 0, true, 0;
    }

    ghost predicate Valid()
      reads this
    {
      && dummy != null && dummy.Length == MAP_SIZE
      && (segment != null ==> segment.Length == MAP_SIZE && segment != dummy)
      && area != null && (area == dummy || area == segment)
      && prevLoc < 0x8000
    }

    ghost function View(): Rt
      reads this, dummy, segment
      requires Valid()
    {
      Rt(Counter(firstPass, cycleCnt), prevLoc, segment != null, area == dummy,
         if segment == null then Zeroes() else segment[..], dummy[..])
    }

    /** `__afl_setup` and `__afl_map_shm`: `heap` is what malloc returned; `shm` is absent without
        the environment variable and otherwise what shmat returned. */
    method Setup(heap: array?<u8>, shm: Option<array?<u8>>) returns (r: Startup)
      requires !shmDone && segment == null && prevLoc < 0x8000
      requires heap != null ==> heap.Length == MAP_SIZE
      requires shm.Some? && shm.value != null ==> shm.value.Length == MAP_SIZE && shm.value != heap
      modifies this`dummy, this`area, this`segment, this`shmDone
      modifies if shm.Some? then shm.value else null
      ensures r == if heap == null then Exited(1, None)
                   else if shm.Some? && shm.value == null then Exited(1, Some(8))
                   else Running
      ensures r.Running? ==> dummy == heap && dummy.Length == 0x1_0000 && shmDone && area == if shm.Some? then shm.value else heap
      ensures r.Running? ==> Valid() && dummy[..] == old(heap[..])
      ensures r.Running? && shm.Some? ==> segment == shm.value && segment[..] == old(shm.value[..])[0 := 1]
    {
      dummy := heap;
      if dummy == null {
        return Exited(1, None);
      }
      area := dummy;
      r := MapShm(shm);
    }

    method MapShm(shm: Option<array?<u8>>) returns (r: Startup)
      requires dummy != null && area == dummy
      requires shm.Some? && shm.value != null ==> shm.value.Length == MAP_SIZE && shm.value != dummy
      modifies this`area, this`segment, this`shmDone
      modifies if shm.Some? then shm.value else null
      ensures shmDone
      ensures old(shmDone) || shm.None? ==> r == Running && area == old(area) && segment == old(segment)
      ensures old(shmDone) && shm.Some? && shm.value != null ==> shm.value[..] == old(shm.value[..])
      ensures !old(shmDone) && shm.Some? ==> area == segment == shm.value
      ensures !old(shmDone) && shm.Some? && shm.value == null ==> r == Exited(1, Some(8))
      ensures !old(shmDone) && shm.Some? && shm.value != null ==> r == Running && segment[..] == old(shm.value[..])[0 := 1]
    {
      if shmDone {
        return Running;
      }
      shmDone := true;
      match shm
      case None =>
        r := Running;
      case Some(p) =>
        area := p;
        segment := p;
        if p == null {
          return Exited(1, Some(FS_ERROR_SHMAT));
        }
        p[0] := 1;
        r := Running;
    }

    /** `__afl_trace`: one byte of the active region and the location cell change, in place. */
    method TraceBlock(id: u16)
      requires Valid()
      modifies this`prevLoc, area
      ensures Valid() && View() == TraceRt(old(View()), id)
    {
      ghost var was := View();
      var k := CellOf(prevLoc, id);
      prevLoc := id / 2;
      area[k] := Bumped(area[k], id);
      assert area[..] == was.Active()[k := Bumped(was.Active()[k], id)];
    }

    /** `__afl_persistent_loop`. `stopped` is the map the fuzzer could read during the stop and
        `world` the map it left there. */
    method PersistentLoop(max: u32, world: seq<u8>) returns (r: int, ghost stopped: Option<Cells>)
      requires Valid() && |world| == MAP_SIZE
      modifies this, dummy, segment
      ensures Valid() && dummy == old(dummy) && segment == old(segment)
      ensures View() == LoopRt(old(View()), max, world)
      ensures r == if Again(old(View()).counter, max) then 1 else 0
      ensures stopped == if Stops(old(View()).counter, max) then Some(old(View()).shared) else None
    {
      ghost var was := View();
      stopped := None;
      if firstPass {
        forall i | 0 <= i < area.Length {
          area[i] := 0;
        }
        area[0] := 1;
        prevLoc := Low32Cleared(prevLoc);
        cycleCnt := max;
        firstPass := false;
        assert area[..] == Fresh();
        return 1, stopped;
      }
      cycleCnt := Decremented(cycleCnt);
      if cycleCnt != 0 {
        stopped := Some(was.shared);
        Stopped(world);
        area[0] := 1;
        prevLoc := Low32Cleared(prevLoc);
        assert area[..] == (if was.onDummy then was.dummy else world)[0 := 1];
        return 1, stopped;
      }
      area := dummy;
      return 0, stopped;
    }

    /** raise(SIGSTOP): until it is continued, this process does nothing and the fuzzer may rewrite
        the segment. */
    method Stopped(world: seq<u8>)
      requires Valid() && |world| == MAP_SIZE
      modifies segment
      ensures segment != null ==> segment[..] == world
      ensures dummy[..] == old(dummy[..])
    {
      if segment != null {
        forall i | 0 <= i < segment.Length {
          segment[i] := world[i];
        }
        assert segment[..] == world;
      }
    }
  }

  // ---------- coverage isolation ----------

  function TraceAllRt(rt: Rt, ids: seq<u16>): (r: Rt)
    requires rt.Sane()
    ensures r.Sane()
    decreases |ids|
  {
    if ids == [] then rt else TraceAllRt(TraceRt(rt, ids[0]), ids[1..])
  }

  /** Tracing is the pure fold on whichever map is active; everything else is untouched. */
  lemma {:induction false} TraceAllIsFold(rt: Rt, ids: seq<u16>)
    requires rt.Sane()
    ensures var c := TraceAll(Cov(rt.prev, rt.Active()), ids);
            TraceAllRt(rt, ids) == rt.WithActive(c.cells).(prev := c.prev)
    decreases |ids|
  {
    if ids != [] {
      var next := TraceRt(rt, ids[0]);
      TraceAllIsFold(next, ids[1..]);
      assert Cov(next.prev, next.Active()) == Trace(Cov(rt.prev, rt.Active()), ids[0]);
    }
  }

  /** The process just before its k-th call (from 0) of the persistent loop: between calls it traces
      one path, and the fuzzer leaves worlds[k] behind if call k stops it. */
  function BeforeCall(rt: Rt, max: u32, paths: seq<seq<u16>>, worlds: seq<Cells>, k: nat): (r: Rt)
    requires rt.Sane() && k <= |paths| == |worlds|
    ensures r.Sane()
  {
    if k == 0 then rt
    else
      var b := LoopRt(BeforeCall(rt, max, paths, worlds, k - 1), max, worlds[k - 1]);
      TraceAllRt(b, paths[k - 1])
  }

  /** A process with an attached map that has not entered the loop. */
  predicate Untouched(rt: Rt) {
    rt.Sane() && rt.attached && !rt.onDummy && rt.counter.firstPass
  }

  lemma {:induction false} PassesKeepAttached(rt: Rt, max: u32, paths: seq<seq<u16>>, worlds: seq<Cells>, k: nat)
    requires Untouched(rt) && k <= |paths| == |worlds| && k <= Passes(max)
    ensures var r := BeforeCall(rt, max, paths, worlds, k);
            && r.attached && !r.onDummy && r.dummy == rt.dummy
            && (k == 0 ==> r == rt) && (k >= 1 ==> r.counter == After(max, k))
    decreases k
  {
    hide Trace, TraceAll, TraceAllRt, Fresh, Zeroes;
    if k > 0 {
      PassesKeepAttached(rt, max, paths, worlds, k - 1);
      var a := BeforeCall(rt, max, paths, worlds, k - 1);
      AgainExactly(max, k - 1);
      if k == 1 {
        FirstCallSetsCycle(rt.counter, max);
      }
      TraceAllIsFold(LoopRt(a, max, worlds[k - 1]), paths[k - 1]);
    }
  }

  /** All zeroes, but for the cell that the runtime itself sets. */
  predicate Cleared(c: Cells) {
    forall i :: 1 <= i < MAP_SIZE ==> c[i] == 0
  }

  /** The map a pass starts from: the runtime clears it before the first pass only, later it is what
      the fuzzer left at the stop with cell 0 set. */
  function StartMap(worlds: seq<Cells>, k: nat): Cells
    requires 1 <= k <= |worlds|
  {
    if k == 1 then Fresh() else worlds[k - 1][0 := 1]
  }

  /** Every pass in turn, whatever the fuzzer does: the map is the fold of that pass's path over the
      map it started from, from location 0. */
  lemma PassMap(rt: Rt, max: u32, paths: seq<seq<u16>>, worlds: seq<Cells>, k: nat)
    requires Untouched(rt) && 1 <= k <= |paths| == |worlds| && k <= Passes(max)
    ensures BeforeCall(rt, max, paths, worlds, k).shared == TraceAll(Cov(0, StartMap(worlds, k)), paths[k - 1]).cells
  {
    hide Trace, TraceAll, TraceAllRt, Zeroes, Fresh, Low32Cleared;
    PassesKeepAttached(rt, max, paths, worlds, k - 1);
    var a := BeforeCall(rt, max, paths, worlds, k - 1);
    var b := LoopRt(a, max, worlds[k - 1]);
    AgainExactly(max, k - 1);
    StoreClearsCell(a.prev);
    assert b.prev == 0 && b.shared == StartMap(worlds, k) && !b.onDummy;
    TraceAllIsFold(b, paths[k - 1]);
  }

  /** One path from two start maps: a cell ends equal exactly if it started equal. */
  lemma FoldKeepsDifference(c: Cells, d: Cells, ids: seq<u16>, i: nat)
    requires i < MAP_SIZE
    ensures TraceAll(Cov(0, c), ids).cells[i] == TraceAll(Cov(0, d), ids).cells[i] <==> c[i] == d[i]
  {
    hide TraceAll, Weight;
    BitmapMeaning(Cov(0, c), ids, i);
    BitmapMeaning(Cov(0, d), ids, i);
    SameResidue(c[i], d[i], Weight(0, ids, i, |ids|));
  }

  lemma SameResidue(a: u8, b: u8, w: nat)
    ensures (a + w) % 256 == (b + w) % 256 <==> a == b
  {
    var q := (a + w) / 256 - (b + w) / 256;
    assert (a + w) % 256 == (b + w) % 256 ==> a - b == 256 * q;
  }

  /**
    Coverage isolation, exactly: the first pass is always isolated, and a later one leaves the fold of
    its own path over the fresh map if and only if the fuzzer left zeroes at the stop before it, in
    every cell but cell 0.
   */
  lemma IsolationExactly(rt: Rt, max: u32, paths: seq<seq<u16>>, worlds: seq<Cells>, k: nat)
    requires Untouched(rt) && 1 <= k <= |paths| == |worlds| && k <= Passes(max)
    ensures BeforeCall(rt, max, paths, worlds, k).shared == TraceAll(Cov(0, Fresh()), paths[k - 1]).cells
       <==> k == 1 || Cleared(worlds[k - 1])
  {
    hide BeforeCall, TraceAll, Untouched, Fresh, Cleared;
    PassMap(rt, max, paths, worlds, k);
    SameFolds(StartMap(worlds, k), Fresh(), paths[k - 1]);
    SetCellIsFresh(worlds[k - 1]);
  }

  /** One path over two start maps ends in the same map only if they are the same. */
  lemma SameFolds(c: Cells, d: Cells, ids: seq<u16>)
    ensures TraceAll(Cov(0, c), ids).cells == TraceAll(Cov(0, d), ids).cells <==> c == d
  {
    hide TraceAll;
    var e, f := TraceAll(Cov(0, c), ids).cells, TraceAll(Cov(0, d), ids).cells;
    forall i: nat | i < MAP_SIZE ensures e[i] == f[i] <==> c[i] == d[i] {
      FoldKeepsDifference(c, d, ids, i);
    }
    SameCells(c, d);
    SameCells(e, f);
  }

  lemma SetCellIsFresh(w: Cells)
    ensures w[0 := 1] == Fresh() <==> Cleared(w)
  {
    var c, d := w[0 := 1], Fresh();
    SameCells(c, d);
    if c == d {
      forall i | 1 <= i < MAP_SIZE ensures w[i] == 0 {
        assert c[i] == d[i];
      }
    }
  }

  lemma SameCells(c: Cells, d: Cells)
    ensures c == d <==> forall i: nat :: i < MAP_SIZE ==> c[i] == d[i]
  {
  }

  /** If the fuzzer zeroes the map during every stop, then whenever a pass has run (so in particular at
      every stop, and when the loop ends) the shared map is the fold of that pass's path alone. */
  lemma CoverageIsolated(rt: Rt, max: u32, paths: seq<seq<u16>>, worlds: seq<Cells>, k: nat)
    requires Untouched(rt) && 1 <= k <= |paths| == |worlds| && k <= Passes(max)
    requires forall j :: 1 <= j < |worlds| ==> worlds[j] == Zeroes()
    ensures BeforeCall(rt, max, paths, worlds, k).shared == TraceAll(Cov(0, Fresh()), paths[k - 1]).cells
  {
    hide BeforeCall, TraceAll, Untouched, Fresh;
    IsolationExactly(rt, max, paths, worlds, k);
  }

  /** When the last pass is over the loop turns to the dummy map, and from then on no block traced in
      this process changes the shared one. */
  lemma MapFrozenAfterLoop(rt: Rt, max: u32, paths: seq<seq<u16>>, worlds: seq<Cells>, world: Cells, later: seq<u16>)
    requires Untouched(rt) && |paths| == |worlds| == Passes(max)
    ensures var last := BeforeCall(rt, max, paths, worlds, |paths|);
            var ended := LoopRt(last, max, world);
            && !Again(last.counter, max)
            && ended.onDummy && TraceAllRt(ended, later).shared == last.shared
  {
    PassesKeepAttached(rt, max, paths, worlds, |paths|);
    AgainExactly(max, |paths|);
    var last := BeforeCall(rt, max, paths, worlds, |paths|);
    TraceAllIsFold(LoopRt(last, max, world), later);
  }
}
