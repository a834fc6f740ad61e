/** The edge bitmap as a pure fold over the traced block ids, and what its cells mean. */
module Coverage {
  import opened Words

  const MAP_SIZE: int := 0x1_0000

  type Cells = s: seq<u8> | |s| == MAP_SIZE witness seq(MAP_SIZE, _ => 0)

  /** prev_loc holds an id shifted right once, so it stays below 2^15. */
  type Loc = x: int | 0 <= x < 0x8000

  datatype Cov = Cov(prev: Loc, cells: Cells)

  /** `inc` then `adc` with the bit that `shr` moved out of the block id. */
  function Bumped(c: u8, id: u16): u8 {
    (c + 1 + id % 2) % 256
  }

  function CellOf(prev: Loc, id: u16): (k: nat)
    ensures k < 0x1_0000
  {
    XorBound16(id, prev);
    Xor(id, prev)
  }

  function Trace(c: Cov, id: u16): Cov {
    var k := CellOf(c.prev, id);
    Cov(id / 2, c.cells[k := Bumped(c.cells[k], id)])
  }

  function TraceAll(c: Cov, ids: seq<u16>): Cov
    decreases |ids|
  {
    if ids == [] then c else TraceAll(Trace(c, ids[0]), ids[1..])
  }

  // ---------- what a cell counts ----------

  /** The location the i-th traced block comes from. */
  function Before(prev: Loc, ids: seq<u16>, i: nat): Loc
    requires i <= |ids|
  {
    if i == 0 then prev else ids[i - 1] / 2
  }

  /** Sum over the first n edges that hash to cell k of one plus the low bit of the destination. */
  function Weight(prev: Loc, ids: seq<u16>, k: nat, n: nat): nat
    requires n <= |ids|
  {
    if n == 0 then 0
    else Weight(prev, ids, k, n - 1)
         + if Xor(ids[n - 1], Before(prev, ids, n - 1)) == k then 1 + ids[n - 1] % 2 else 0
  }

  lemma {:induction false} WeightTail(prev: Loc, ids: seq<u16>, k: nat, n: nat)
    requires 1 <= n <= |ids|
    ensures Weight(prev, ids, k, n)
         == (if Xor(ids[0], prev) == k then 1 + ids[0] % 2 else 0) + Weight(ids[0] / 2, ids[1..], k, n - 1)
  {
    if n == 1 {
      assert Weight(prev, ids, k, 0) == 0;
    } else {
      WeightTail(prev, ids, k, n - 1);
      assert Before(prev, ids, n - 1) == Before(ids[0] / 2, ids[1..], n - 2);
      assert ids[1..][n - 2] == ids[n - 1];
    }
  }

  /** Every cell holds its start value plus its weight, modulo 256; prev_loc is the last id halved. */
  lemma {:induction false} BitmapMeaning(c: Cov, ids: seq<u16>, k: nat)
    requires k < MAP_SIZE
    ensures TraceAll(c, ids).cells[k] == (c.cells[k] + Weight(c.prev, ids, k, |ids|)) % 256
    ensures TraceAll(c, ids).prev == Before(c.prev, ids, |ids|)
    decreases |ids|
  {
    if ids != [] {
      var d := Trace(c, ids[0]);
      BitmapMeaning(d, ids[1..], k);
      WeightTail(c.prev, ids, k, |ids|);
      BumpThenAdd(c.cells[k], ids[0], Weight(d.prev, ids[1..], k, |ids| - 1));
    }
  }

  lemma BumpThenAdd(cell: u8, id: u16, w: nat)
    ensures (Bumped(cell, id) + w) % 256 == (cell + (1 + id % 2 + w)) % 256
  {
    var x := cell + 1 + id % 2;
    ModShift(x / 256, x % 256 + w);
  }

  lemma ModShift(q: int, y: int)
    ensures (256 * q + y) % 256 == y % 256
  {
    assert 256 * q + y == 256 * (q + y / 256) + y % 256;
  }

  /** A block that ran can still leave its counter at zero: 256 hits of an even id do. */
  lemma CounterCanWrapToZero(c: Cov)
    requires c.prev == 0
    ensures var ids := seq(256, _ => 0);
            TraceAll(c, ids).cells[0] == c.cells[0] && Weight(0, ids, 0, 256) == 256
  {
    var ids: seq<u16> := seq(256, _ => 0);
    ZeroIdsWeight(ids, 256);
    BitmapMeaning(c, ids, 0);
  }

  lemma {:induction false} ZeroIdsWeight(ids: seq<u16>, n: nat)
    requires n <= |ids| && forall i :: 0 <= i < |ids| ==> ids[i] == 0
    ensures Weight(0, ids, 0, n) == n
  {
    if n > 0 {
      ZeroIdsWeight(ids, n - 1);
      assert Xor(ids[n - 1], Before(0, ids, n - 1)) == 0;
    }
  }

  // ---------- the edge hash ----------

  /** x xor (x >> 1) is injective on numbers of any width. */
  lemma {:induction false} GrayInjective(a: nat, b: nat)
    requires Xor(a, a / 2) == Xor(b, b / 2)
    ensures a == b
    decreases a + b
  {
    hide Xor;
    if a != 0 || b != 0 {
      XorParts(a, a / 2);
      XorParts(b, b / 2);
      GrayInjective(a / 2, b / 2);
      assert (a % 2 + a / 2 % 2) % 2 == (b % 2 + a / 2 % 2) % 2;
    }
  }

  /** The cell of the edge from block a to block b, for ids of any width. */
  function EdgeCell(a: nat, b: nat): nat {
    Xor(b, a / 2)
  }

  lemma {:induction false} XorSwap(a: nat, b: nat, p: nat, q: nat)
    requires Xor(a, p) == Xor(b, q)
    ensures Xor(a, q) == Xor(b, p)
    decreases a + b + p + q
  {
    hide Xor;
    if a != 0 || b != 0 || p != 0 || q != 0 {
      XorParts(a, p);
      XorParts(b, q);
      XorParts(a, q);
      XorParts(b, p);
      XorSwap(a / 2, b / 2, p / 2, q / 2);
      BitSwap(a % 2, b % 2, p % 2, q % 2);
      SameHalves(Xor(a, q), Xor(b, p));
    }
  }

  lemma SameHalves(x: nat, y: nat)
    requires x / 2 == y / 2 && x % 2 == y % 2
    ensures x == y
  {
  }

  lemma BitSwap(a: nat, b: nat, p: nat, q: nat)
    requires a < 2 && b < 2 && p < 2 && q < 2
    requires (a + p) % 2 == (b + q) % 2
    ensures (a + q) % 2 == (b + p) % 2
  {
  }

  /** The two directions of an edge share a cell only for a self loop. */
  lemma EdgeDirectionsSeparate(a: nat, b: nat)
    ensures EdgeCell(a, b) == EdgeCell(b, a) <==> a == b
  {
    if EdgeCell(a, b) == EdgeCell(b, a) {
      XorSwap(b, a, a / 2, b / 2);
      GrayInjective(a, b);
    }
  }

  /** From one source, distinct destinations hit distinct cells. */
  lemma EdgeDestinationsSeparate(a: nat, b: nat, c: nat)
    ensures EdgeCell(a, b) == EdgeCell(a, c) <==> b == c
  {
    if EdgeCell(a, b) == EdgeCell(a, c) {
      XorCancels(a / 2, b);
      XorCancels(a / 2, c);
    }
  }
}
