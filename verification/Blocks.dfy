/**
  Where to instrument: blocks that only continue after a call are merged into the list of the block
  they continue, and each list gets one trampoline, at its head.
 */
module Blocks {
  import opened Options
  import opened Words

  datatype EdgeKind = Branch | Call | Fallthrough | Return | Syscall | Sysret

  /** An incoming edge with the address of its source block and the kinds of that block's out-edges. */
  datatype InEdge = InEdge(kind: EdgeKind, source: int, sourceOut: seq<EdgeKind>)

  datatype Block = Block(addr: int, incoming: seq<InEdge>, outgoing: seq<EdgeKind>, entry: bool)

  // ---------- specification ----------

  predicate Detached(b: Block) {
    b.incoming == [] && b.outgoing == [] && !b.entry
  }

  predicate Enters(b: Block, kind: EdgeKind) {
    exists i :: 0 <= i < |b.incoming| && b.incoming[i].kind == kind
  }

  /** A fallthrough out of a block whose out-edges are exactly calls and fallthroughs. */
  predicate AfterCall(e: InEdge) {
    e.kind == Fallthrough && (set k | k in e.sourceOut) == {Call, Fallthrough}
  }

  function FirstAfterCall(edges: seq<InEdge>): Option<int> {
    if edges == [] then None
    else if AfterCall(edges[0]) then Some(edges[0].source)
    else FirstAfterCall(edges[1..])
  }

  /** The address of the block that b continues, if b is to be merged. */
  function Parent(b: Block): Option<int> {
    if Enters(b, Fallthrough) && !Enters(b, Branch) then FirstAfterCall(b.incoming) else None
  }

  predicate Holds(list: seq<Block>, a: int) {
    exists q :: 0 <= q < |list| && list[q].addr == a
  }

  /** b joins every list that holds its parent; no list means b is lost. */
  function Place(lists: seq<seq<Block>>, b: Block): seq<seq<Block>> {
    if Detached(b) then lists
    else match Parent(b)
      case None => lists + [[b]]
      case Some(a) => seq(|lists|, i requires 0 <= i < |lists| => if Holds(lists[i], a) then lists[i] + [b] else lists[i])
  }

  /** The lists after the first n blocks in address order. */
  function Group(s: seq<Block>, n: nat): (lists: seq<seq<Block>>)
    requires n <= |s|
    ensures forall i :: 0 <= i < |lists| ==> lists[i] != []
  {
    if n == 0 then [] else Place(Group(s, n - 1), s[n - 1])
  }

  // ---------- the loops ----------

  method AppendToParents(lists: seq<seq<Block>>, a: int, b: Block) returns (r: seq<seq<Block>>)
    ensures |r| == |lists|
    ensures forall i :: 0 <= i < |lists| ==> r[i] == if Holds(lists[i], a) then lists[i] + [b] else lists[i]
  {
    r := lists;
    var i := 0;
    while i < |lists|
      invariant 0 <= i <= |lists| == |r|
      invariant forall k :: 0 <= k < i ==> r[k] == if Holds(lists[k], a) then lists[k] + [b] else lists[k]
      invariant forall k :: i <= k < |lists| ==> r[k] == lists[k]
    {
      var q := 0;
      while q < |lists[i]|
        invariant 0 <= q <= |lists[i]|
        invariant forall p :: 0 <= p < q ==> lists[i][p].addr != a
        invariant r[i] == lists[i]
        invariant |r| == |lists|
        invariant forall k :: 0 <= k < i ==> r[k] == if Holds(lists[k], a) then lists[k] + [b] else lists[k]
        invariant forall k :: i <= k < |lists| ==> r[k] == lists[k]
      {
        if lists[i][q].addr == a {
          r := r[i := r[i] + [b]];
          break;
        }
        q := q + 1;
      }
      i := i + 1;
    }
  }

  /** The search over the incoming edges, which stops at the first merge. */
  method MergeIntoParents(lists: seq<seq<Block>>, b: Block) returns (r: seq<seq<Block>>, skip: bool)
    ensures skip <==> FirstAfterCall(b.incoming).Some?
    ensures !skip ==> r == lists
    ensures skip ==> |r| == |lists| && forall i :: 0 <= i < |lists| ==>
              r[i] == if Holds(lists[i], FirstAfterCall(b.incoming).value) then lists[i] + [b] else lists[i]
  {
    r, skip := lists, false;
    var k := 0;
    while k < |b.incoming|
      invariant 0 <= k <= |b.incoming| && !skip && r == lists
      invariant FirstAfterCall(b.incoming) == FirstAfterCall(b.incoming[k..])
    {
      var e := b.incoming[k];
      if e.kind == Fallthrough {
        if (set x | x in e.sourceOut) == {Call, Fallthrough} {
          r := AppendToParents(lists, e.source, b);
          skip := true;
          break;
        }
      }
      k := k + 1;
    }
  }

  method GetBasicBlocks(s: seq<Block>) returns (lists: seq<seq<Block>>)
    ensures lists == Group(s, |s|)
  {
    lists := [];
    var n := 0;
    while n < |s|
      invariant 0 <= n <= |s|
      invariant lists == Group(s, n)
    {
      var b := s[n];
      n := n + 1;
      if |b.incoming| == 0 && |b.outgoing| == 0 && !b.entry {
        continue;
      }
      if Enters(b, Fallthrough) && !Enters(b, Branch) {
        var merged, skip := MergeIntoParents(lists, b);
        if skip {
          assert merged == Place(lists, b);
          lists := merged;
          continue;
        }
      }
      lists := lists + [[b]];
    }
  }

  /** The instrumenting pass: its counter and the trampolines registered so far. */
  class TracingPass {
    var instrumentedLocations: nat
    var registered: seq<(Block, u16)>

    constructor ()
      ensures instrumentedLocations == 0 && registered == []
    {
      instrumentedLocations, registered := 0, [];
    }

    /** One trampoline at the head of each list; `ids` are the random 16-bit numbers drawn. */
    method AddBlockTracing(s: seq<Block>, ids: nat -> u16)
      modifies this
      ensures var lists := Group(s, |s|);
              && instrumentedLocations == old(instrumentedLocations) + |lists|
              && |registered| == |old(registered)| + |lists|
              && registered[..|old(registered)|] == old(registered)
              && forall i :: 0 <= i < |lists| ==> registered[|old(registered)| + i] == (lists[i][0], ids(i))
    {
      var lists := GetBasicBlocks(s);
      var i := 0;
      while i < |lists|
        invariant 0 <= i <= |lists| && lists == Group(s, |s|)
        invariant instrumentedLocations == old(instrumentedLocations) + i
        invariant |registered| == |old(registered)| + i && registered[..|old(registered)|] == old(registered)
        invariant forall k :: 0 <= k < i ==> registered[|old(registered)| + k] == (lists[k][0], ids(k))
      {
        registered := registered + [(lists[i][0], ids(i))];
        instrumentedLocations := instrumentedLocations + 1;
        i := i + 1;
      }
    }
  }

  // ---------- which blocks appear ----------

  predicate Increasing(s: seq<Block>) {
    forall i, j :: 0 <= i < j < |s| ==> s[i].addr < s[j].addr
  }

  predicate IsHead(b: Block) {
    !Detached(b) && Parent(b).None?
  }

  /** From block i, going to an earlier block at the address that the current one continues, one can
      come to block h, which continues nothing; no block on the way is detached. */
  predicate Reaches(s: seq<Block>, i: nat, h: nat)
    requires i < |s|
    decreases i
  {
    !Detached(s[i]) &&
    match Parent(s[i])
    case None => i == h
    case Some(a) => exists j: nat :: j < i && s[j].addr == a && Reaches(s, j, h)
  }

  /** The indices of the heads among the first n blocks. */
  function Heads(s: seq<Block>, n: nat): (r: seq<nat>)
    requires n <= |s|
    ensures forall k :: 0 <= k < |r| ==> r[k] < n && IsHead(s[r[k]])
    ensures forall h: nat :: h < n && IsHead(s[h]) ==> h in r
    ensures forall k, m :: 0 <= k < m < |r| ==> r[k] < r[m]
  {
    if n == 0 then [] else Heads(s, n - 1) + if IsHead(s[n - 1]) then [n - 1] else []
  }

  /** The indices below n from which head h is reached, in order. */
  function Members(s: seq<Block>, h: nat, n: nat): (r: seq<nat>)
    requires n <= |s|
    ensures forall k :: 0 <= k < |r| ==> r[k] < n && Reaches(s, r[k], h)
    ensures forall i: nat :: i < n && Reaches(s, i, h) ==> i in r
    ensures forall k, m :: 0 <= k < m < |r| ==> r[k] < r[m]
  {
    hide Reaches;
    if n == 0 then [] else Members(s, h, n - 1) + if Reaches(s, n - 1, h) then [n - 1] else []
  }

  function Pick(s: seq<Block>, idx: seq<nat>): (r: seq<Block>)
    requires forall k :: 0 <= k < |idx| ==> idx[k] < |s|
  {
    seq(|idx|, k requires 0 <= k < |idx| => s[idx[k]])
  }

  lemma {:induction false} ReachedIsHead(s: seq<Block>, i: nat, h: nat)
    requires i < |s| && Reaches(s, i, h)
    ensures h <= i && IsHead(s[h])
    decreases i
  {
    if Parent(s[i]).Some? {
      var j: nat :| j < i && s[j].addr == Parent(s[i]).value && Reaches(s, j, h);
      ReachedIsHead(s, j, h);
    }
  }

  /** A list of members holds address a if the block there reaches the same head. */
  lemma HoldsMember(s: seq<Block>, h: nat, n: nat, a: int)
    requires n <= |s|
    ensures Holds(Pick(s, Members(s, h, n)), a) <==> exists j: nat :: j < n && s[j].addr == a && Reaches(s, j, h)
  {
    hide Reaches;
    var m := Members(s, h, n);
    if Holds(Pick(s, m), a) {
      var q :| 0 <= q < |m| && Pick(s, m)[q].addr == a;
      assert Reaches(s, m[q], h);
    }
    if j: nat :| j < n && s[j].addr == a && Reaches(s, j, h) {
      var q :| 0 <= q < |m| && m[q] == j;
      assert Pick(s, m)[q].addr == a;
    }
  }

  /** Nothing before a head reaches it, so its list begins with it. */
  lemma NewHead(s: seq<Block>, n: nat)
    requires n < |s| && IsHead(s[n])
    ensures Pick(s, Members(s, n, n + 1)) == [s[n]]
  {
    hide Reaches, Parent, IsHead;
    var m := Members(s, n, n);
    if m != [] {
      ReachedIsHead(s, m[0], n);
    }
    assert Reaches(s, n, n) by { HeadReachesItself(s, n); }
  }

  lemma HeadReachesItself(s: seq<Block>, h: nat)
    requires h < |s| && IsHead(s[h])
    ensures forall g: nat :: Reaches(s, h, g) <==> g == h
  {
  }

  ghost predicate Grouped(s: seq<Block>, n: nat, lists: seq<seq<Block>>)
    requires n <= |s|
  {
    && |lists| == |Heads(s, n)|
    && forall p :: 0 <= p < |lists| ==> lists[p] == Pick(s, Members(s, Heads(s, n)[p], n))
  }

  /** One more block for a list: it joins if it reaches the list's head. */
  lemma ListGrows(s: seq<Block>, n: nat, h: nat)
    requires n < |s|
    ensures var list := Pick(s, Members(s, h, n));
            Pick(s, Members(s, h, n + 1)) == if Reaches(s, n, h) then list + [s[n]] else list
  {
    hide Reaches;
  }

  /** A merged block joins exactly the lists that hold the address it continues. */
  lemma MergedBlock(s: seq<Block>, n: nat, h: nat)
    requires n < |s| && !Detached(s[n]) && Parent(s[n]).Some?
    ensures Reaches(s, n, h) <==> Holds(Pick(s, Members(s, h, n)), Parent(s[n]).value)
  {
    hide Pick, Members, Holds, Parent, Detached;
    HoldsMember(s, h, n, Parent(s[n]).value);
  }

  lemma PlaceGroups(s: seq<Block>, n: nat, lists: seq<seq<Block>>)
    requires n < |s| && Grouped(s, n, lists)
    ensures Grouped(s, n + 1, Place(lists, s[n]))
  {
    var b, next := s[n], Place(lists, s[n]);
    var heads := Heads(s, n + 1);
    assert IsHead(b) ==> heads == Heads(s, n) + [n];
    forall p | 0 <= p < |next| ensures next[p] == Pick(s, Members(s, heads[p], n + 1)) {
      hide Reaches, Members, Pick, Parent, Detached, Holds;
      var h := heads[p];
      if p == |lists| {
        NewHead(s, n);
      } else {
        ListGrows(s, n, h);
        if IsHead(b) {
          HeadReachesItself(s, n);
        } else if Detached(b) {
          DetachedReachesNone(s, n, h);
        } else {
          MergedBlock(s, n, h);
        }
      }
    }
  }

  lemma DetachedReachesNone(s: seq<Block>, i: nat, h: nat)
    requires i < |s| && Detached(s[i])
    ensures !Reaches(s, i, h)
  {
  }

  /**
    What the grouping is, for any function whatever: one list for each head, in order, and in it, in
    order, exactly the blocks from which that head is reached.
   */
  lemma {:induction false} GroupExactly(s: seq<Block>, n: nat)
    requires n <= |s|
    ensures |Group(s, n)| == |Heads(s, n)|
    ensures forall p :: 0 <= p < |Group(s, n)| ==> Group(s, n)[p] == Pick(s, Members(s, Heads(s, n)[p], n))
  {
    hide Group, Heads, Members, Pick;
    IsGrouped(s, n);
  }

  lemma {:induction false} IsGrouped(s: seq<Block>, n: nat)
    requires n <= |s|
    ensures Grouped(s, n, Group(s, n))
    decreases n
  {
    hide Grouped, Place;
    if n == 0 {
      NothingGrouped(s);
    } else {
      IsGrouped(s, n - 1);
      PlaceGroups(s, n - 1, Group(s, n - 1));
    }
  }

  lemma NothingGrouped(s: seq<Block>)
    ensures Grouped(s, 0, [])
  {
  }

  /** Block i appears: it is not detached and the block it continues, if any, is an earlier block of
      the function that appears itself. */
  predicate Kept(s: seq<Block>, i: nat)
    requires i < |s|
    decreases i
  {
    !Detached(s[i]) &&
    match Parent(s[i])
    case None => true
    case Some(a) => exists j: nat :: j < i && s[j].addr == a && Kept(s, j)
  }

  lemma {:induction false} KeptReaches(s: seq<Block>, i: nat)
    requires i < |s|
    ensures Kept(s, i) <==> exists h: nat :: Reaches(s, i, h)
    decreases i
  {
    if Parent(s[i]).None? {
      if !Detached(s[i]) {
        assert Reaches(s, i, i);
      }
    } else {
      forall j: nat | j < i ensures Kept(s, j) <==> exists h: nat :: Reaches(s, j, h) {
        KeptReaches(s, j);
      }
      if Kept(s, i) {
        var j: nat :| j < i && s[j].addr == Parent(s[i]).value && Kept(s, j);
        var h: nat :| Reaches(s, j, h);
        assert Reaches(s, i, h);
      }
    }
  }

  lemma ReachingIsKept(s: seq<Block>, i: nat, h: nat)
    requires i < |s| && Reaches(s, i, h)
    ensures Kept(s, i)
  {
    KeptReaches(s, i);
  }

  ghost predicate KeptBelow(s: seq<Block>, n: nat, b: Block)
    requires n <= |s|
  {
    exists i: nat :: i < n && s[i] == b && Kept(s, i)
  }

  ghost predicate AtPlace(lists: seq<seq<Block>>, p: int, q: int, b: Block) {
    0 <= p < |lists| && 0 <= q < |lists[p]| && lists[p][q] == b
  }

  ghost predicate Somewhere(lists: seq<seq<Block>>, b: Block) {
    exists p, q :: AtPlace(lists, p, q, b)
  }

  /** No address stands in two places. */
  ghost predicate NoRepeats(lists: seq<seq<Block>>) {
    forall p, q, p', q', b, b' :: AtPlace(lists, p, q, b) && AtPlace(lists, p', q', b') && b.addr == b'.addr ==>
      p == p' && q == q'
  }

  lemma PlacedIn(lists: seq<seq<Block>>, b: Block, p: int, q: int, x: Block)
    requires AtPlace(Place(lists, b), p, q, x)
    ensures AtPlace(lists, p, q, x) || (x == b && (p < |lists| ==> q == |lists[p]|))
    ensures p < |lists| && q == |lists[p]| ==> Parent(b).Some? && Holds(lists[p], Parent(b).value)
    ensures p >= |lists| ==> p == |lists| && q == 0 && x == b
  {
  }

  /** The block at a place, by its index. */
  lemma PlaceIndex(s: seq<Block>, n: nat, p: int, q: int, b: Block) returns (i: nat)
    requires n <= |s| && AtPlace(Group(s, n), p, q, b)
    ensures p < |Heads(s, n)| && q < |Members(s, Heads(s, n)[p], n)|
    ensures i == Members(s, Heads(s, n)[p], n)[q] && i < n && s[i] == b && Reaches(s, i, Heads(s, n)[p])
  {
    hide Group, Reaches, Heads;
    GroupExactly(s, n);
    hide Members;
    i := Members(s, Heads(s, n)[p], n)[q];
  }

  /** The place of a block in the list of a head it reaches. */
  lemma PlaceOf(s: seq<Block>, n: nat, i: nat, h: nat) returns (p: int, q: int)
    requires i < n <= |s| && Reaches(s, i, h)
    ensures 0 <= p < |Heads(s, n)| && Heads(s, n)[p] == h
    ensures 0 <= q < |Members(s, h, n)| && Members(s, h, n)[q] == i
    ensures AtPlace(Group(s, n), p, q, s[i])
  {
    hide Group, Reaches, Heads, Members, IsHead;
    ReachedIsHead(s, i, h);
    assert h in Heads(s, n) && i in Members(s, h, n);
    p :| 0 <= p < |Heads(s, n)| && Heads(s, n)[p] == h;
    q :| 0 <= q < |Members(s, h, n)| && Members(s, h, n)[q] == i;
    GroupExactly(s, n);
  }

  /** With no assumption at all: the blocks that appear are exactly the kept ones. */
  lemma AppearsExactly(s: seq<Block>, n: nat, b: Block)
    requires n <= |s|
    ensures Somewhere(Group(s, n), b) <==> KeptBelow(s, n, b)
  {
    hide Group, Reaches, Kept, Heads, Members;
    if Somewhere(Group(s, n), b) {
      var p, q :| AtPlace(Group(s, n), p, q, b);
      var i := PlaceIndex(s, n, p, q, b);
      KeptReaches(s, i);
    }
    if KeptBelow(s, n, b) {
      var i: nat :| i < n && s[i] == b && Kept(s, i);
      KeptReaches(s, i);
      var h: nat :| Reaches(s, i, h);
      var p, q := PlaceOf(s, n, i, h);
    }
  }

  /** A block is lost exactly when it is detached or every way back from it ends outside the function,
      at a later block or at a detached one. */
  lemma LostBlocks(s: seq<Block>, b: Block)
    ensures !Somewhere(Group(s, |s|), b) <==> forall i: nat, h: nat :: i < |s| && s[i] == b ==> !Reaches(s, i, h)
  {
    hide Group, Reaches, Kept;
    AppearsExactly(s, |s|, b);
    forall i: nat, h: nat | i < |s| && s[i] == b && Reaches(s, i, h) ensures KeptBelow(s, |s|, b) {
      ReachingIsKept(s, i, h);
    }
    if i: nat :| i < |s| && s[i] == b && Kept(s, i) {
      KeptReaches(s, i);
    }
  }

  // ---------- how often ----------

  /** With unique addresses only one head is reached. */
  lemma {:induction false} OneHead(s: seq<Block>, i: nat, h: nat, g: nat)
    requires Increasing(s) && i < |s| && Reaches(s, i, h) && Reaches(s, i, g)
    ensures h == g
    decreases i
  {
    if Parent(s[i]).Some? {
      var j: nat :| j < i && s[j].addr == Parent(s[i]).value && Reaches(s, j, h);
      var k: nat :| k < i && s[k].addr == Parent(s[i]).value && Reaches(s, k, g);
      assert j == k;
      OneHead(s, j, h, g);
    }
  }

  /** Below n an address that reaches a head belongs to one block and reaches no other head. */
  ghost predicate OneWayBack(s: seq<Block>, n: nat)
    requires n <= |s|
  {
    forall i: nat, h: nat, i': nat, h': nat ::
      i < n && i' < n && Reaches(s, i, h) && Reaches(s, i', h') && s[i].addr == s[i'].addr ==> i == i' && h == h'
  }

  /** The exact condition for no repeats: where two ways back lead to two heads, because two of the
      blocks share an address, the merged block stands in both their lists. */
  lemma RepeatsExactly(s: seq<Block>, n: nat)
    requires n <= |s|
    ensures NoRepeats(Group(s, n)) <==> OneWayBack(s, n)
  {
    hide Group, Reaches, Heads, Members;
    if NoRepeats(Group(s, n)) {
      forall i: nat, h: nat, i': nat, h': nat
        | i < n && i' < n && Reaches(s, i, h) && Reaches(s, i', h') && s[i].addr == s[i'].addr
        ensures i == i' && h == h'
      {
        var p, q := PlaceOf(s, n, i, h);
        var p', q' := PlaceOf(s, n, i', h');
      }
    }
    if OneWayBack(s, n) {
      forall p, q, p', q', b, b' | AtPlace(Group(s, n), p, q, b) && AtPlace(Group(s, n), p', q', b') && b.addr == b'.addr
        ensures p == p' && q == q'
      {
        var i := PlaceIndex(s, n, p, q, b);
        var i' := PlaceIndex(s, n, p', q', b');
      }
    }
  }

  /** With unique addresses no block stands in two places. */
  lemma UniqueNoRepeats(s: seq<Block>, n: nat)
    requires Increasing(s) && n <= |s|
    ensures NoRepeats(Group(s, n))
  {
    hide Group, Reaches;
    forall i: nat, h: nat, i': nat, h': nat
      | i < n && i' < n && Reaches(s, i, h) && Reaches(s, i', h') && s[i].addr == s[i'].addr
      ensures i == i' && h == h'
    {
      OneHead(s, i, h, h');
    }
    RepeatsExactly(s, n);
  }

  /** The lists hold exactly the kept blocks, and with unique addresses each of them once. */
  lemma GroupIsPartition(s: seq<Block>, n: nat)
    requires n <= |s|
    ensures forall b :: Somewhere(Group(s, n), b) <==> KeptBelow(s, n, b)
    ensures Increasing(s) ==> NoRepeats(Group(s, n))
  {
    hide Group, Kept;
    forall b ensures Somewhere(Group(s, n), b) <==> KeptBelow(s, n, b) {
      AppearsExactly(s, n, b);
    }
    if Increasing(s) {
      UniqueNoRepeats(s, n);
    }
  }

  /** Every block that is to be merged continues an earlier block of the function, and that block has
      the out-edges its successor saw. */
  ghost predicate ParentsEarlier(s: seq<Block>) {
    forall i: nat :: i < |s| && Parent(s[i]).Some? ==>
      exists j: nat :: j < i && s[j].addr == Parent(s[i]).value && s[j].outgoing != []
  }

  lemma {:induction false} KeptUnlessDetached(s: seq<Block>, i: nat)
    requires ParentsEarlier(s) && i < |s|
    ensures Kept(s, i) <==> !Detached(s[i])
    decreases i
  {
    if Parent(s[i]).Some? {
      var j: nat :| j < i && s[j].addr == Parent(s[i]).value && s[j].outgoing != [];
      KeptUnlessDetached(s, j);
    }
  }

  /** In a well-formed function every block appears unless it is detached, and with unique addresses
      exactly once. */
  lemma GroupingIsPartition(s: seq<Block>)
    requires ParentsEarlier(s)
    ensures var lists := Group(s, |s|);
            && (forall i: nat :: i < |s| ==>
                  (Somewhere(lists, s[i]) <==> s[i].incoming != [] || s[i].outgoing != [] || s[i].entry))
            && (Increasing(s) ==> NoRepeats(lists))
  {
    hide Group, Parent;
    GroupIsPartition(s, |s|);
    forall i: nat | i < |s|
      ensures Somewhere(Group(s, |s|), s[i]) <==> s[i].incoming != [] || s[i].outgoing != [] || s[i].entry
    {
      KeptUnlessDetached(s, i);
    }
  }

  // ---------- heads and paths ----------

  /** The first block of a list continues nothing, the others continue some block. */
  lemma {:induction false} HeadsContinueNothing(s: seq<Block>, n: nat, p: int, q: int, b: Block)
    requires n <= |s| && AtPlace(Group(s, n), p, q, b)
    ensures q == 0 <==> Parent(b) == None
    decreases n
  {
    if n > 0 {
      var lists := Group(s, n - 1);
      PlacedIn(lists, s[n - 1], p, q, b);
      if AtPlace(lists, p, q, b) {
        HeadsContinueNothing(s, n - 1, p, q, b);
      }
    }
  }

  lemma {:induction false} NoAfterCall(edges: seq<InEdge>)
    ensures FirstAfterCall(edges) == None <==> forall i :: 0 <= i < |edges| ==> !AfterCall(edges[i])
  {
    if edges != [] {
      NoAfterCall(edges[1..]);
      assert forall i :: 1 <= i < |edges| ==> edges[i] == edges[1..][i - 1];
    }
  }

  /** In edges: the source of such an edge ends in a call and in nothing but calls and fallthroughs. */
  lemma AfterCallExactly(e: InEdge)
    ensures AfterCall(e) <==>
              && e.kind == Fallthrough && Call in e.sourceOut && Fallthrough in e.sourceOut
              && forall k :: k in e.sourceOut ==> k == Call || k == Fallthrough
  {
    var kinds := set k | k in e.sourceOut;
    assert forall k :: k in kinds <==> k in e.sourceOut;
    if kinds == {Call, Fallthrough} {
      assert forall k :: k in e.sourceOut ==> k in kinds;
    } else {
      var k :| (k in kinds) != (k in {Call, Fallthrough});
      assert (k in e.sourceOut) != (k == Call || k == Fallthrough);
    }
  }

  lemma {:induction false} FirstIsFirst(edges: seq<InEdge>)
    ensures match FirstAfterCall(edges)
            case None => forall i :: 0 <= i < |edges| ==> !AfterCall(edges[i])
            case Some(a) => exists k :: 0 <= k < |edges| && AfterCall(edges[k]) && edges[k].source == a
                                        && forall i :: 0 <= i < k ==> !AfterCall(edges[i])
  {
    hide AfterCall;
    if edges != [] && !AfterCall(edges[0]) {
      FirstIsFirst(edges[1..]);
      assert forall i :: 1 <= i < |edges| ==> edges[i] == edges[1..][i - 1];
      match FirstAfterCall(edges[1..])
      case None =>
      case Some(a) =>
        var k :| 0 <= k < |edges[1..]| && AfterCall(edges[1..][k]) && edges[1..][k].source == a
                 && forall i :: 0 <= i < k ==> !AfterCall(edges[1..][i]);
        assert AfterCall(edges[k + 1]);
    }
  }

  /** The block that b continues, in edges: no branch enters b, and the first of its incoming edges that
      falls through behind a call comes from there. */
  lemma ParentExactly(b: Block, a: int)
    ensures Parent(b) == Some(a) <==>
              && (forall i :: 0 <= i < |b.incoming| ==> b.incoming[i].kind != Branch)
              && exists k :: 0 <= k < |b.incoming| && AfterCall(b.incoming[k]) && b.incoming[k].source == a
                             && forall i :: 0 <= i < k ==> !AfterCall(b.incoming[i])
  {
    FirstIsFirst(b.incoming);
    if k :| 0 <= k < |b.incoming| && AfterCall(b.incoming[k]) {
      assert b.incoming[k].kind == Fallthrough;
    }
    hide AfterCall, FirstAfterCall;
  }

  /** The instrumented heads are exactly the blocks placed that a branch enters, or that no edge enters
      by falling through from a block whose out-edges are a call and a fallthrough and nothing else. */
  lemma HeadsExactly(s: seq<Block>, p: int, q: int, b: Block)
    requires AtPlace(Group(s, |s|), p, q, b)
    ensures q == 0 <==>
              || (exists i :: 0 <= i < |b.incoming| && b.incoming[i].kind == Branch)
              || (forall i :: 0 <= i < |b.incoming| && b.incoming[i].kind == Fallthrough ==>
                    var out := b.incoming[i].sourceOut;
                    !(Call in out && Fallthrough in out && forall k :: k in out ==> k == Call || k == Fallthrough))
  {
    hide Group, AfterCall;
    HeadsContinueNothing(s, |s|, p, q, b);
    NoAfterCall(b.incoming);
    forall i | 0 <= i < |b.incoming|
      ensures AfterCall(b.incoming[i]) <==>
                var e := b.incoming[i];
                && e.kind == Fallthrough && Call in e.sourceOut && Fallthrough in e.sourceOut
                && forall k :: k in e.sourceOut ==> k == Call || k == Fallthrough
    {
      AfterCallExactly(b.incoming[i]);
    }
  }

  /** No two blocks continue the same block: a call falls through to one place. */
  ghost predicate SingleSuccessor(s: seq<Block>) {
    forall i, j :: 0 <= i < |s| && 0 <= j < |s| && Parent(s[i]).Some? && Parent(s[i]) == Parent(s[j]) ==> i == j
  }

  predicate IsPath(list: seq<Block>) {
    forall q :: 1 <= q < |list| ==> Parent(list[q]) == Some(list[q - 1].addr)
  }

  /** Each list is a path: every block after the head continues the one just before it. */
  lemma {:induction false} GroupsArePaths(s: seq<Block>, n: nat)
    requires SingleSuccessor(s) && n <= |s|
    ensures forall p :: 0 <= p < |Group(s, n)| ==> IsPath(Group(s, n)[p])
    decreases n
  {
    if n > 0 {
      var lists, b := Group(s, n - 1), s[n - 1];
      GroupsArePaths(s, n - 1);
      forall p | 0 <= p < |Group(s, n)| ensures IsPath(Group(s, n)[p]) {
        if p < |lists| && Parent(b).Some? && !Detached(b) && Holds(lists[p], Parent(b).value) {
          ParentIsLast(s, n - 1, lists, p);
        }
      }
    }
  }

  lemma ParentIsLast(s: seq<Block>, n: nat, lists: seq<seq<Block>>, p: nat)
    requires SingleSuccessor(s) && n < |s| && lists == Group(s, n) && p < |lists|
    requires IsPath(lists[p]) && Parent(s[n]).Some? && Holds(lists[p], Parent(s[n]).value)
    ensures lists[p][|lists[p]| - 1].addr == Parent(s[n]).value
  {
    hide Group, Parent, SingleSuccessor, IsPath;
    var q :| 0 <= q < |lists[p]| && lists[p][q].addr == Parent(s[n]).value;
    if q + 1 < |lists[p]| {
      NotContinuedYet(s, n, lists, p, q);
    }
  }

  /** A block with a successor in its list is continued by no later block. */
  lemma NotContinuedYet(s: seq<Block>, n: nat, lists: seq<seq<Block>>, p: nat, q: nat)
    requires SingleSuccessor(s) && n < |s| && lists == Group(s, n) && p < |lists|
    requires IsPath(lists[p]) && q + 1 < |lists[p]|
    ensures Parent(s[n]) != Some(lists[p][q].addr)
  {
    hide Group, Parent, Reaches, Heads, Members;
    var i := PlaceIndex(s, n, p, q + 1, lists[p][q + 1]);
  }

  // ---------- one trampoline covers the whole list ----------

  /** An execution through blocks of the function that reaches a merged block only from the block it
      continues, and starts at a block that continues nothing. */
  ghost predicate Walk(s: seq<Block>, w: seq<Block>) {
    && (forall i :: 0 <= i < |w| ==> w[i] in s)
    && (w != [] ==> Parent(w[0]) == None)
    && (forall i :: 0 < i < |w| && Parent(w[i]).Some? ==> Parent(w[i]) == Some(w[i - 1].addr))
  }

  /** Whoever reaches the q-th block of a list has just come down the list from its head, so the one
      trampoline at the head has run. */
  lemma {:induction false} HeadDominates(s: seq<Block>, w: seq<Block>, m: nat, p: nat, q: nat)
    requires Increasing(s) && SingleSuccessor(s) && Walk(s, w) && m < |w|
    requires AtPlace(Group(s, |s|), p, q, w[m])
    ensures q <= m && w[m - q..m + 1] == Group(s, |s|)[p][..q + 1]
    decreases q
  {
    hide Group, Increasing, SingleSuccessor, Walk;
    HeadsContinueNothing(s, |s|, p, q, w[m]);
    if q > 0 {
      StepBack(s, w, m, p, q);
      HeadDominates(s, w, m - 1, p, q - 1);
      assert w[m - q..m + 1] == w[m - 1 - (q - 1)..m] + [w[m]];
    }
  }

  lemma StepBack(s: seq<Block>, w: seq<Block>, m: nat, p: nat, q: nat)
    requires Increasing(s) && SingleSuccessor(s) && Walk(s, w) && m < |w| && q > 0
    requires AtPlace(Group(s, |s|), p, q, w[m])
    ensures m > 0 && AtPlace(Group(s, |s|), p, q - 1, w[m - 1])
  {
    hide Group;
    var lists := Group(s, |s|);
    GroupsArePaths(s, |s|);
    assert IsPath(lists[p]);
    var x := lists[p][q - 1];
    var i := PlaceIndex(s, |s|, p, q - 1, x);
    SameAddress(s, w[m - 1], x);
  }

  lemma SameAddress(s: seq<Block>, x: Block, y: Block)
    requires Increasing(s) && x in s && y in s && x.addr == y.addr
    ensures x == y
  {
    var i :| 0 <= i < |s| && s[i] == x;
    var j :| 0 <= j < |s| && s[j] == y;
  }
}
