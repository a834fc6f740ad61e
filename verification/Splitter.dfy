/**
  The assembly splitter: one index scans forwards for functions and, at each, backwards for the
  read-only data in front of it.
 */
module Splitter {
  import opened Options
  import opened Lines

  datatype File = File(name: string, code: seq<string>, rodata: seq<string>)

  /** The files in order with the byte tally, or the exception of an index past the end. */
  datatype Result = Done(files: seq<File>, total: nat) | IndexError

  function DropLast(s: string): string {
    if s == "" then "" else s[..|s| - 1]
  }

  // ---------- specification ----------

  /** Where the backward scan from i stops: at a rodata section, a function end, or before line 0. */
  function BackStop(lines: seq<string>, i: nat): (j: nat)
    requires i < |lines|
    ensures j <= i
  {
    if i == 0 then 0
    else if RodataStart(lines[i]) || FunctionEnd(lines[i]) then i
    else BackStop(lines, i - 1)
  }

  function Copied(lines: seq<string>): seq<string> {
    if lines == [] then []
    else (if Skipped(lines[0]) then [] else [lines[0]]) + Copied(lines[1..])
  }

  function NonCfi(lines: seq<string>): seq<string> {
    if lines == [] then []
    else (if Cfi(lines[0]) then [] else [lines[0]]) + NonCfi(lines[1..])
  }

  /** The lines the backward scan from i looks at, in file order; line 0 is never among them. */
  function Scanned(lines: seq<string>, i: nat): seq<string>
    requires i < |lines|
  {
    var j := BackStop(lines, i);
    if j == 0 then lines[1..i + 1] else lines[j..i + 1]
  }

  function RodataOf(lines: seq<string>, i: nat): seq<string>
    requires i < |lines|
  {
    var j := BackStop(lines, i);
    if j > 0 && RodataStart(lines[j]) then Copied(lines[j..i + 1]) else []
  }

  /** The end of the function whose code starts at k, if there is one. */
  function CodeEnd(lines: seq<string>, k: nat): (r: Option<nat>)
    ensures r.Some? ==> k <= r.value < |lines|
    decreases |lines| - k
  {
    if k >= |lines| then None
    else if FunctionEnd(lines[k]) then Some(k)
    else CodeEnd(lines, k + 1)
  }

  function Before(files: seq<File>, total: nat, rest: Result): Result {
    match rest
    case Done(f, t) => Done(files + f, total + t)
    case IndexError => IndexError
  }

  function SplitFrom(lines: seq<string>, i: nat): Result
    decreases |lines| - i
  {
    if i >= |lines| then Done([], 0)
    else if !FunctionStart(lines[i]) then SplitFrom(lines, i + 1)
    else if i + 1 >= |lines| then IndexError
    else
      var end := CodeEnd(lines, i + 2);
      if end.None? then IndexError
      else
        var file := File(DropLast(lines[i + 1]), NonCfi(lines[i + 2..end.value]), RodataOf(lines, i));
        Before([file], TallyAll(Scanned(lines, i)), SplitFrom(lines, end.value + 1))
  }

  // ---------- what is kept ----------

  /** The positions idx, in order, are exactly those of the lines not dropped, and out holds these lines. */
  ghost predicate Picks(lines: seq<string>, out: seq<string>, idx: seq<nat>, drop: string -> bool) {
    && |idx| == |out|
    && (forall k, m :: 0 <= k < m < |idx| ==> idx[k] < idx[m])
    && (forall k :: 0 <= k < |idx| ==> idx[k] < |lines| && out[k] == lines[idx[k]] && !drop(out[k]))
    && (forall i: nat :: i < |lines| && !drop(lines[i]) ==> i in idx)
  }

  /** out is lines, in order, without the lines dropped. */
  ghost predicate Selection(lines: seq<string>, out: seq<string>, drop: string -> bool) {
    exists idx :: Picks(lines, out, idx, drop)
  }

  lemma SelectionGrows(lines: seq<string>, out: seq<string>, drop: string -> bool)
    requires lines != [] && Selection(lines[1..], out, drop)
    ensures Selection(lines, (if drop(lines[0]) then [] else [lines[0]]) + out, drop)
  {
    var tail :| Picks(lines[1..], out, tail, drop);
    var idx := seq<nat>(|tail|, k requires 0 <= k < |tail| => tail[k] + 1);
    ShiftedPicks(lines, out, tail, idx, drop);
    if drop(lines[0]) {
      assert [] + out == out;
      assert Picks(lines, out, idx, drop);
    } else {
      FirstPicked(lines, out, idx, drop);
    }
  }

  /** Positions in all lines but the first. */
  lemma ShiftedPicks(lines: seq<string>, out: seq<string>, tail: seq<nat>, idx: seq<nat>, drop: string -> bool)
    requires lines != [] && Picks(lines[1..], out, tail, drop)
    requires |idx| == |tail| && forall k :: 0 <= k < |idx| ==> idx[k] == tail[k] + 1
    ensures PicksBut(lines, out, idx, drop)
  {
    forall i: nat | 0 < i < |lines| && !drop(lines[i]) ensures i in idx {
      assert lines[1..][i - 1] == lines[i];
      var k :| 0 <= k < |tail| && tail[k] == i - 1;
      assert idx[k] == i;
    }
  }

  ghost predicate PicksBut(lines: seq<string>, out: seq<string>, idx: seq<nat>, drop: string -> bool) {
    && |idx| == |out|
    && (forall k, m :: 0 <= k < m < |idx| ==> idx[k] < idx[m])
    && (forall k :: 0 <= k < |idx| ==> 0 < idx[k] < |lines| && out[k] == lines[idx[k]] && !drop(out[k]))
    && (forall i: nat :: 0 < i < |lines| && !drop(lines[i]) ==> i in idx)
  }

  lemma FirstPicked(lines: seq<string>, out: seq<string>, idx: seq<nat>, drop: string -> bool)
    requires lines != [] && !drop(lines[0]) && PicksBut(lines, out, idx, drop)
    ensures Selection(lines, [lines[0]] + out, drop)
  {
    var all: seq<nat> := [0] + idx;
    var next := [lines[0]] + out;
    forall k | 0 <= k < |all|
      ensures all[k] < |lines| && next[k] == lines[all[k]] && !drop(next[k])
    {
      assert k > 0 ==> all[k] == idx[k - 1] && next[k] == out[k - 1];
    }
    forall i: nat | i < |lines| && !drop(lines[i]) ensures i in all {
      assert i > 0 ==> i in idx;
    }
    assert Picks(lines, next, all, drop);
  }

  /** The code loses its cfi directives and nothing else. */
  lemma {:induction false} NonCfiSelects(lines: seq<string>)
    ensures Selection(lines, NonCfi(lines), Cfi)
  {
    hide Cfi, Selection;
    if lines == [] {
      NothingSelected(Cfi);
    } else {
      NonCfiSelects(lines[1..]);
      SelectionGrows(lines, NonCfi(lines[1..]), Cfi);
    }
  }

  /** The data loses its type, text and alignment directives and nothing else. */
  lemma {:induction false} CopiedSelects(lines: seq<string>)
    ensures Selection(lines, Copied(lines), Skipped)
  {
    hide Skipped, Selection;
    if lines == [] {
      NothingSelected(Skipped);
    } else {
      CopiedSelects(lines[1..]);
      SelectionGrows(lines, Copied(lines[1..]), Skipped);
    }
  }

  lemma NothingSelected(drop: string -> bool)
    ensures Selection([], [], drop)
  {
    assert Picks([], [], [], drop);
  }

  // ---------- the loops ----------

  function Reversed(s: seq<string>): (r: seq<string>)
    ensures |r| == |s|
  {
    if s == [] then [] else Reversed(s[1..]) + [s[0]]
  }

  lemma {:induction false} ReversedConcat(a: seq<string>, b: seq<string>)
    ensures Reversed(a + b) == Reversed(b) + Reversed(a)
  {
    if a == [] {
      assert a + b == b;
    } else {
      assert (a + b)[1..] == a[1..] + b;
      ReversedConcat(a[1..], b);
    }
  }

  lemma {:induction false} CopiedConcat(a: seq<string>, b: seq<string>)
    ensures Copied(a + b) == Copied(a) + Copied(b)
  {
    hide Skipped;
    if a == [] {
      assert a + b == b;
    } else {
      assert (a + b)[1..] == a[1..] + b;
      CopiedConcat(a[1..], b);
    }
  }

  lemma {:induction false} NonCfiConcat(a: seq<string>, b: seq<string>)
    ensures NonCfi(a + b) == NonCfi(a) + NonCfi(b)
  {
    hide Cfi;
    if a == [] {
      assert a + b == b;
    } else {
      assert (a + b)[1..] == a[1..] + b;
      NonCfiConcat(a[1..], b);
    }
  }

  /** The inner loop: walk back from the header, copying and tallying, then reverse the copy. */
  method ScanBack(lines: seq<string>, start: nat) returns (rodata: seq<string>, tally: nat)
    requires start < |lines|
    ensures rodata == RodataOf(lines, start) && tally == TallyAll(Scanned(lines, start))
  {
    hide Skipped, RodataStart, FunctionEnd, Tally;
    var i := start;
    var found := false;
    rodata, tally := [], 0;
    ghost var seen: seq<string> := [];
    while i > 0
      invariant 0 <= i <= start && !found
      invariant seen == lines[i + 1..start + 1]
      invariant Reversed(rodata) == Copied(seen) && tally == TallyAll(seen)
      invariant BackStop(lines, start) == BackStop(lines, i)
      decreases i
    {
      var line := lines[i];
      assert lines[i..start + 1] == [line] + seen;
      CopiedConcat([line], seen);
      TallyConcat([line], seen);
      ReversedConcat(rodata, [line]);
      assert [line][1..] == [];
      seen := [line] + seen;
      if !Skipped(line) {
        rodata := rodata + [line];
      }
      tally := tally + Tally(line);
      if RodataStart(line) {
        found := true;
        break;
      }
      if FunctionEnd(line) {
        break;
      }
      i := i - 1;
    }
    rodata := Reversed(rodata);
    if !found {
      rodata := [];
    }
  }

  /** The code loop: everything but cfi directives up to the end of the function. */
  method CollectCode(lines: seq<string>, start: nat) returns (code: seq<string>, end: Option<nat>)
    ensures end == CodeEnd(lines, start)
    ensures end.Some? ==> code == NonCfi(lines[start..end.value])
  {
    hide Cfi, FunctionEnd;
    var i := start;
    code := [];
    while i < |lines| && !FunctionEnd(lines[i])
      invariant start <= i && (start <= |lines| ==> i <= |lines|)
      invariant i <= |lines| ==> code == NonCfi(lines[start..i])
      invariant CodeEnd(lines, start) == CodeEnd(lines, i)
      decreases |lines| - i
    {
      assert lines[start..i + 1] == lines[start..i] + [lines[i]];
      NonCfiConcat(lines[start..i], [lines[i]]);
      assert [lines[i]][1..] == [];
      if !Cfi(lines[i]) {
        code := code + [lines[i]];
      }
      i := i + 1;
    }
    end := if i < |lines| then Some(i) else None;
  }

  /** The whole script, from the list of lines to the files written and the recorded total. */
  method Split(lines: seq<string>) returns (r: Result)
    ensures r == SplitFrom(lines, 0)
  {
    hide FunctionStart, CodeEnd, RodataOf, Scanned, TallyAll, NonCfi;
    var files: seq<File>, total := [], 0;
    var i := 0;
    while i < |lines|
      invariant 0 <= i
      invariant SplitFrom(lines, 0) == Before(files, total, SplitFrom(lines, i))
      decreases |lines| - i
    {
      if FunctionStart(lines[i]) {
        if i + 1 >= |lines| {
          return IndexError;
        }
        var name := DropLast(lines[i + 1]);
        var rodata, tally := ScanBack(lines, i);
        total := total + tally;
        var code, end := CollectCode(lines, i + 2);
        if end.None? {
          return IndexError;
        }
        files := files + [File(name, code, rodata)];
        i := end.value;
      }
      i := i + 1;
    }
    return Done(files, total);
  }
}
