/**
  What the splitter does to a whole listing, stated over an independent description of listings:
  functions with the lines in front of them. Then the number it records, and the padding
  computed from that number.
 */
module Listing {
  import opened Options
  import opened Lines
  import opened Splitter

  /** The lines in front of a function, its `.type` line, its label, its code and its end. */
  datatype Unit = Unit(lead: seq<string>, header: string, tag: string, body: seq<string>, end: string)

  predicate WellFormed(u: Unit) {
    && (forall i :: 0 <= i < |u.lead| ==> !FunctionStart(u.lead[i]) && !FunctionEnd(u.lead[i]))
    && FunctionStart(u.header) && FunctionEnd(u.end)
    && (forall i :: 0 <= i < |u.body| ==> !FunctionEnd(u.body[i]))
  }

  function Text(u: Unit): seq<string> {
    u.lead + ([u.header, u.tag] + (u.body + [u.end]))
  }

  function Whole(units: seq<Unit>): seq<string> {
    if units == [] then [] else Text(units[0]) + Whole(units[1..])
  }

  /** The lines the script can take for a function's data: those in front of it, but never line 0. */
  function Region(u: Unit, first: bool): seq<string> {
    if first && u.lead != [] then u.lead[1..] else u.lead
  }

  function LastRodata(lines: seq<string>): (r: Option<nat>)
    ensures r.Some? ==> r.value < |lines| && RodataStart(lines[r.value])
  {
    if lines == [] then None
    else if RodataStart(lines[|lines| - 1]) then Some(|lines| - 1)
    else LastRodata(lines[..|lines| - 1])
  }

  /** Which line LastRodata finds. */
  lemma LastRodataExactly(lines: seq<string>)
    ensures LastRodata(lines).None? ==> forall i :: 0 <= i < |lines| ==> !RodataStart(lines[i])
    ensures LastRodata(lines).Some? ==>
              var r := LastRodata(lines).value;
              r < |lines| && RodataStart(lines[r]) && forall i :: r < i < |lines| ==> !RodataStart(lines[i])
  {
    hide RodataStart;
    forall i: nat | i < |lines| && (LastRodata(lines).Some? ==> LastRodata(lines).value < i) ensures !RodataStart(lines[i]) {
      NoRodata(lines, i);
    }
  }

  /** The section the file gets: from the last rodata directive on. */
  function Data(u: Unit, first: bool): seq<string> {
    var region := Region(u, first);
    var r := LastRodata(region);
    if r.None? then [] else region[r.value..]
  }

  /** Lines counted but not written: a function without a rodata section of its own. */
  function Discarded(u: Unit, first: bool): seq<string> {
    if LastRodata(Region(u, first)).None? then Region(u, first) else []
  }

  function FileOf(u: Unit, first: bool): File {
    File(DropLast(u.tag), NonCfi(u.body), Copied(Data(u, first)))
  }

  // ---------- one function ----------

  lemma {:induction false} NoRodata(lines: seq<string>, i: nat)
    requires i < |lines| && match LastRodata(lines) case None => true case Some(r) => r < i
    ensures !RodataStart(lines[i])
    decreases |lines|
  {
    if i < |lines| - 1 {
      assert lines[..|lines| - 1][i] == lines[i];
      NoRodata(lines[..|lines| - 1], i);
    }
  }

  /** The backward scan passes over lines that are no stop. */
  lemma {:induction false} BackOver(lines: seq<string>, lo: nat, i: nat)
    requires lo <= i < |lines|
    requires forall k :: lo < k <= i ==> !RodataStart(lines[k]) && !FunctionEnd(lines[k])
    ensures BackStop(lines, i) == BackStop(lines, lo)
    decreases i
  {
    hide RodataStart, FunctionEnd;
    if i > lo {
      BackOver(lines, lo, i - 1);
    }
  }

  lemma {:induction false} SkipTo(lines: seq<string>, a: nat, b: nat)
    requires a <= b <= |lines| && forall k :: a <= k < b ==> !FunctionStart(lines[k])
    ensures SplitFrom(lines, a) == SplitFrom(lines, b)
    decreases b - a
  {
    hide FunctionStart;
    if a < b {
      SkipTo(lines, a + 1, b);
    }
  }

  lemma {:induction false} CodeEndAt(lines: seq<string>, k: nat, e: nat)
    requires k <= e < |lines| && FunctionEnd(lines[e]) && forall i :: k <= i < e ==> !FunctionEnd(lines[i])
    ensures CodeEnd(lines, k) == Some(e)
    decreases e - k
  {
    hide FunctionEnd;
    if k < e {
      CodeEndAt(lines, k + 1, e);
    }
  }

  lemma HeaderAddsNothing(lines: seq<string>, header: string)
    requires FunctionStart(header)
    ensures Copied(lines + [header]) == Copied(lines) && TallyAll(lines + [header]) == TallyAll(lines)
  {
    hide FunctionStart, FunctionEnd, RodataStart, Skipped, Tally;
    HeaderIsNeither(header);
    NoStringThere(header);
    CopiedConcat(lines, [header]);
    TallyConcat(lines, [header]);
    assert [header][1..] == [];
  }

  /** Where the function's header is and what stands around it. */
  ghost predicate Located(lines: seq<string>, pre: seq<string>, u: Unit, h: nat) {
    && h == |pre| + |u.lead| && h + 2 + |u.body| < |lines|
    && lines[..|pre|] == pre && lines[|pre|..h] == u.lead
    && lines[h] == u.header && lines[h + 1] == u.tag
    && lines[h + 2..h + 2 + |u.body|] == u.body && lines[h + 2 + |u.body|] == u.end
  }

  lemma Locate(pre: seq<string>, u: Unit, rest: seq<string>)
    ensures Located(pre + (Text(u) + rest), pre, u, |pre| + |u.lead|)
  {
    var lines, h := pre + (Text(u) + rest), |pre| + |u.lead|;
    assert lines == (pre + u.lead) + ([u.header, u.tag] + ((u.body + [u.end]) + rest));
    assert lines[h..] == [u.header, u.tag] + ((u.body + [u.end]) + rest);
    assert lines[h] == lines[h..][0] && lines[h + 1] == lines[h..][1];
    assert lines[h + 2..] == (u.body + [u.end]) + rest;
    assert lines[h + 2 + |u.body|] == lines[h + 2..][|u.body|];
    assert lines[h + 2..h + 2 + |u.body|] == lines[h + 2..][..|u.body|];
  }

  /** The function before ends right before these lines, or this is the first function. */
  predicate Boundary(pre: seq<string>) {
    pre == [] || FunctionEnd(pre[|pre| - 1])
  }

  /** The offset of the region in the listing. */
  function RegionStart(pre: seq<string>, u: Unit): nat {
    if pre == [] && u.lead != [] then 1 else |pre|
  }

  lemma RegionLines(lines: seq<string>, pre: seq<string>, u: Unit, h: nat)
    requires Located(lines, pre, u, h)
    ensures RegionStart(pre, u) <= h && lines[RegionStart(pre, u)..h] == Region(u, pre == [])
    ensures forall k :: RegionStart(pre, u) <= k < h ==> lines[k] == Region(u, pre == [])[k - RegionStart(pre, u)]
  {
    assert forall k :: |pre| <= k < h ==> lines[k] == lines[|pre|..h][k - |pre|];
  }

  /** With a rodata section in front, the scan stops at the last one. */
  lemma StopsAtSection(lines: seq<string>, pre: seq<string>, u: Unit, h: nat, r: nat)
    requires Located(lines, pre, u, h) && WellFormed(u) && LastRodata(Region(u, pre == [])) == Some(r)
    ensures BackStop(lines, h) == RegionStart(pre, u) + r && BackStop(lines, h) > 0
    ensures RodataStart(lines[RegionStart(pre, u) + r])
  {
    hide FunctionStart, FunctionEnd, RodataStart;
    var region, at := Region(u, pre == []), RegionStart(pre, u);
    RegionLines(lines, pre, u, h);
    HeaderIsNeither(u.header);
    forall k | at + r < k <= h ensures !RodataStart(lines[k]) && !FunctionEnd(lines[k]) {
      if k < h {
        NoRodata(region, k - at);
        assert region[k - at] in u.lead;
      }
    }
    BackOver(lines, at + r, h);
  }

  /** Without one it runs to the function before, or to the top. */
  lemma StopsAtBoundary(lines: seq<string>, pre: seq<string>, u: Unit, h: nat)
    requires Located(lines, pre, u, h) && WellFormed(u) && Boundary(pre) && LastRodata(Region(u, pre == [])) == None
    ensures BackStop(lines, h) == if |pre| == 0 then 0 else |pre| - 1
    ensures BackStop(lines, h) > 0 ==> FunctionEnd(lines[|pre| - 1]) && !RodataStart(lines[|pre| - 1])
  {
    hide FunctionStart, FunctionEnd, RodataStart;
    var region, at := Region(u, pre == []), RegionStart(pre, u);
    RegionLines(lines, pre, u, h);
    HeaderIsNeither(u.header);
    forall k | at <= k <= h ensures !RodataStart(lines[k]) && !FunctionEnd(lines[k]) {
      if k < h {
        NoRodata(region, k - at);
        assert region[k - at] in u.lead;
      }
    }
    var lo := if |pre| == 0 then 0 else |pre| - 1;
    BackOver(lines, lo, h);
    if |pre| > 0 {
      assert lines[lo] == lines[..|pre|][lo] == pre[|pre| - 1];
      EndIsNoRodata(lines[lo]);
    }
  }

  /** The data written and the bytes counted for one function. */
  lemma DataRuns(lines: seq<string>, pre: seq<string>, u: Unit, h: nat)
    requires Located(lines, pre, u, h) && WellFormed(u) && Boundary(pre)
    ensures var first := pre == [];
            && RodataOf(lines, h) == Copied(Data(u, first))
            && TallyAll(Scanned(lines, h)) == TallyAll(Data(u, first)) + TallyAll(Discarded(u, first))
  {
    hide FunctionStart, FunctionEnd, RodataStart, Copied, Tally, TallyAll, WellFormed, Boundary, LastRodata;
    hide Scanned, RodataOf, Region, Located;
    EmptyCopy();
    match LastRodata(Region(u, pre == [])) {
      case Some(r) =>
        SectionRuns(lines, pre, u, h, r);
      case None =>
        NoDataRuns(lines, pre, u, h);
    }
  }

  lemma SectionRuns(lines: seq<string>, pre: seq<string>, u: Unit, h: nat, r: nat)
    requires Located(lines, pre, u, h) && WellFormed(u) && LastRodata(Region(u, pre == [])) == Some(r)
    ensures RodataOf(lines, h) == Copied(Region(u, pre == [])[r..])
    ensures TallyAll(Scanned(lines, h)) == TallyAll(Region(u, pre == [])[r..])
  {
    hide FunctionStart, FunctionEnd, RodataStart, Copied, Tally, TallyAll, WellFormed, BackStop, LastRodata;
    var region, at := Region(u, pre == []), RegionStart(pre, u);
    RegionLines(lines, pre, u, h);
    WellHeader(u);
    StopsAtSection(lines, pre, u, h, r);
    assert lines[at + r..h + 1] == lines[at..h][r..] + [u.header];
    HeaderAddsNothing(region[r..], u.header);
  }

  lemma NoDataRuns(lines: seq<string>, pre: seq<string>, u: Unit, h: nat)
    requires Located(lines, pre, u, h) && WellFormed(u) && Boundary(pre) && LastRodata(Region(u, pre == [])) == None
    ensures RodataOf(lines, h) == [] && TallyAll(Scanned(lines, h)) == TallyAll(Region(u, pre == []))
  {
    hide FunctionStart, FunctionEnd, RodataStart, Copied, Tally, WellFormed, BackStop, LastRodata;
    var region, at := Region(u, pre == []), RegionStart(pre, u);
    RegionLines(lines, pre, u, h);
    WellHeader(u);
    StopsAtBoundary(lines, pre, u, h);
    HeaderAddsNothing(region, u.header);
    if |pre| <= 1 {
      EmptyCopy();
      NothingBefore(lines, pre, u, h);
    } else {
      var prev := lines[|pre| - 1];
      assert lines[|pre| - 1..h + 1] == [prev] + (lines[at..h] + [u.header]);
      TallyConcat([prev], region + [u.header]);
      NoStringThere(prev);
      assert [prev][1..] == [];
    }
  }

  lemma WellHeader(u: Unit)
    requires WellFormed(u)
    ensures FunctionStart(u.header)
  {
  }

  lemma EmptyCopy()
    ensures Copied([]) == [] && TallyAll([]) == 0
  {
  }

  /** At the top of the listing the scan covers the region and the header, if it moves at all. */
  lemma NothingBefore(lines: seq<string>, pre: seq<string>, u: Unit, h: nat)
    requires Located(lines, pre, u, h) && |pre| <= 1
    ensures var region := Region(u, pre == []);
            lines[1..h + 1] == if h == 0 then [] else region + [u.header]
    ensures h == 0 ==> Region(u, pre == []) == []
  {
    RegionLines(lines, pre, u, h);
    if h > 0 {
      assert RegionStart(pre, u) == 1;
      assert lines[1..h + 1] == lines[1..h] + [lines[h]];
    }
  }

  lemma UnitRuns(lines: seq<string>, pre: seq<string>, u: Unit, h: nat)
    requires Located(lines, pre, u, h) && WellFormed(u) && Boundary(pre)
    ensures var first := pre == [];
            SplitFrom(lines, |pre|)
            == Before([FileOf(u, first)], TallyAll(Data(u, first)) + TallyAll(Discarded(u, first)),
                      SplitFrom(lines, h + 3 + |u.body|))
  {
    hide FunctionStart, FunctionEnd, RodataOf, Scanned, TallyAll, Data, Discarded, Copied, NonCfi;
    var e := h + 2 + |u.body|;
    assert forall k :: |pre| <= k < h ==> lines[k] == lines[|pre|..h][k - |pre|];
    SkipTo(lines, |pre|, h);
    assert forall k :: h + 2 <= k < e ==> lines[k] == lines[h + 2..e][k - (h + 2)];
    CodeEndAt(lines, h + 2, e);
    DataRuns(lines, pre, u, h);
  }

  // ---------- the whole listing ----------

  function Files(units: seq<Unit>, first: bool): (f: seq<File>)
    ensures |f| == |units|
  {
    if units == [] then [] else [FileOf(units[0], first)] + Files(units[1..], false)
  }

  function Written(units: seq<Unit>, first: bool): nat {
    if units == [] then 0 else TallyAll(Data(units[0], first)) + Written(units[1..], false)
  }

  function Lost(units: seq<Unit>, first: bool): nat {
    if units == [] then 0 else TallyAll(Discarded(units[0], first)) + Lost(units[1..], false)
  }

  ghost predicate AllWellFormed(units: seq<Unit>) {
    forall i :: 0 <= i < |units| ==> WellFormed(units[i])
  }

  lemma TailRuns(pre: seq<string>, tail: seq<string>)
    requires forall i :: 0 <= i < |tail| ==> !FunctionStart(tail[i])
    ensures SplitFrom(pre + tail, |pre|) == Done([], 0)
  {
    hide FunctionStart;
    SkipTo(pre + tail, |pre|, |pre + tail|);
  }

  lemma {:induction false} ListingRuns(pre: seq<string>, units: seq<Unit>, tail: seq<string>)
    requires AllWellFormed(units) && Boundary(pre)
    requires forall i :: 0 <= i < |tail| ==> !FunctionStart(tail[i])
    ensures SplitFrom(pre + (Whole(units) + tail), |pre|)
         == Done(Files(units, pre == []), Written(units, pre == []) + Lost(units, pre == []))
    decreases |units|
  {
    hide FunctionStart, FunctionEnd, WellFormed, TallyAll, Data, Discarded, FileOf, Located, Text, SplitFrom;
    var lines := pre + (Whole(units) + tail);
    if units == [] {
      assert lines == pre + tail;
      TailRuns(pre, tail);
    } else {
      var u, rest := units[0], Whole(units[1..]) + tail;
      assert lines == pre + (Text(u) + rest);
      Locate(pre, u, rest);
      UnitRuns(lines, pre, u, |pre| + |u.lead|);
      var next := pre + Text(u);
      assert lines == next + rest;
      EndsUnit(pre, u);
      ListingRuns(next, units[1..], tail);
    }
  }

  lemma EndsUnit(pre: seq<string>, u: Unit)
    requires WellFormed(u)
    ensures Boundary(pre + Text(u)) && pre + Text(u) != [] && |pre + Text(u)| == |pre| + |u.lead| + 3 + |u.body|
  {
    var next := pre + Text(u);
    assert next[|next| - 1] == u.end;
  }

  /**
    The splitter on a well-formed listing: one file per function, in order, named after its label, with
    exactly its code lines that are no cfi directives, in order, and with the lines from the last rodata
    directive in front of it that are no type, text or alignment directives. No data line serves two
    functions, because each lies in one unit.
   */
  lemma SplitterIsCorrect(units: seq<Unit>, tail: seq<string>)
    requires AllWellFormed(units) && forall i :: 0 <= i < |tail| ==> !FunctionStart(tail[i])
    ensures SplitFrom(Whole(units) + tail, 0) == Done(Files(units, true), Written(units, true) + Lost(units, true))
    ensures forall i :: 0 <= i < |units| ==> Carries(Files(units, true)[i], units[i], i == 0)
  {
    hide FunctionStart, WellFormed, SplitFrom, Written, Lost, Whole, Carries;
    WholeRuns([], units, tail);
    forall i | 0 <= i < |units| ensures Carries(Files(units, true)[i], units[i], i == 0) {
      FilesAt(units, true, i);
      FileCarries(units[i], i == 0);
    }
  }

  ghost predicate Carries(f: File, u: Unit, first: bool) {
    && (forall name: string :: u.tag == name + ":" ==> f.name == name)
    && Selection(u.body, f.code, Cfi)
    && Selection(Data(u, first), f.rodata, Skipped)
  }

  lemma FileCarries(u: Unit, first: bool)
    ensures Carries(FileOf(u, first), u, first)
  {
    hide Cfi, Skipped, Selection, Data;
    NonCfiSelects(u.body);
    CopiedSelects(Data(u, first));
    forall name: string | u.tag == name + ":" ensures FileOf(u, first).name == name {
      assert u.tag[..|u.tag| - 1] == name;
    }
  }

  /** A last function with no line for its label or no end makes the script run off the list, whatever
      came before. */
  lemma UnfinishedFails(units: seq<Unit>, lead: seq<string>, header: string, rest: seq<string>)
    requires AllWellFormed(units) && FunctionStart(header)
    requires forall i :: 0 <= i < |lead| ==> !FunctionStart(lead[i])
    requires forall i :: 1 <= i < |rest| ==> !FunctionEnd(rest[i])
    ensures SplitFrom(Whole(units) + (lead + ([header] + rest)), 0) == IndexError
  {
    hide FunctionStart, FunctionEnd, WellFormed, SplitFrom, Whole;
    UnfinishedRuns([], units, lead, header, rest);
    assert [] + (Whole(units) + (lead + ([header] + rest))) == Whole(units) + (lead + ([header] + rest));
  }

  lemma {:induction false} UnfinishedRuns(
      pre: seq<string>, units: seq<Unit>, lead: seq<string>, header: string, rest: seq<string>)
    requires AllWellFormed(units) && Boundary(pre) && FunctionStart(header)
    requires forall i :: 0 <= i < |lead| ==> !FunctionStart(lead[i])
    requires forall i :: 1 <= i < |rest| ==> !FunctionEnd(rest[i])
    ensures SplitFrom(pre + (Whole(units) + (lead + ([header] + rest))), |pre|) == IndexError
    decreases |units|
  {
    hide FunctionStart, FunctionEnd, WellFormed, TallyAll, Data, Discarded, FileOf, Located, Text, SplitFrom;
    var last := lead + ([header] + rest);
    if units == [] {
      assert Whole(units) + last == last;
      LastFails(pre, lead, header, rest);
    } else {
      var u, more := units[0], Whole(units[1..]) + last;
      var lines := pre + (Whole(units) + last);
      assert lines == pre + (Text(u) + more);
      Locate(pre, u, more);
      UnitRuns(lines, pre, u, |pre| + |u.lead|);
      var next := pre + Text(u);
      assert lines == next + more;
      EndsUnit(pre, u);
      UnfinishedRuns(next, units[1..], lead, header, rest);
    }
  }

  lemma LastFails(pre: seq<string>, lead: seq<string>, header: string, rest: seq<string>)
    requires FunctionStart(header)
    requires forall i :: 0 <= i < |lead| ==> !FunctionStart(lead[i])
    requires forall i :: 1 <= i < |rest| ==> !FunctionEnd(rest[i])
    ensures SplitFrom(pre + (lead + ([header] + rest)), |pre|) == IndexError
  {
    hide FunctionStart, FunctionEnd, SplitFrom;
    var lines, h := pre + (lead + ([header] + rest)), |pre| + |lead|;
    LastLines(pre, lead, header, rest);
    SkipTo(lines, |pre|, h);
    HeaderFails(lines, h);
  }

  lemma HeaderFails(lines: seq<string>, h: nat)
    requires h < |lines| && FunctionStart(lines[h]) && forall i :: h + 2 <= i < |lines| ==> !FunctionEnd(lines[i])
    ensures SplitFrom(lines, h) == IndexError
  {
    hide FunctionStart, FunctionEnd, RodataOf, Scanned, TallyAll, NonCfi, CodeEnd;
    NoCodeEnd(lines, h + 2);
  }

  lemma LastLines(pre: seq<string>, lead: seq<string>, header: string, rest: seq<string>)
    ensures var lines, h := pre + (lead + ([header] + rest)), |pre| + |lead|;
            && |lines| == h + 1 + |rest| && lines[h] == header
            && (forall k :: |pre| <= k < h ==> lines[k] == lead[k - |pre|])
            && forall k :: h + 1 <= k < |lines| ==> lines[k] == rest[k - h - 1]
  {
    var lines, h := pre + (lead + ([header] + rest)), |pre| + |lead|;
    assert lines == (pre + lead) + ([header] + rest);
    assert lines[..h] == pre + lead && lines[h..] == [header] + rest;
    assert lines[h] == lines[h..][0];
    assert forall k :: h + 1 <= k < |lines| ==> lines[k] == lines[h..][k - h];
    assert forall k :: |pre| <= k < h ==> lines[k] == lines[..h][k];
  }

  lemma {:induction false} NoCodeEnd(lines: seq<string>, k: nat)
    requires forall i :: k <= i < |lines| ==> !FunctionEnd(lines[i])
    ensures CodeEnd(lines, k) == None
    decreases |lines| - k
  {
    hide FunctionEnd;
    if k < |lines| {
      NoCodeEnd(lines, k + 1);
    }
  }

  lemma WholeRuns(none: seq<string>, units: seq<Unit>, tail: seq<string>)
    requires none == []
    requires AllWellFormed(units) && forall i :: 0 <= i < |tail| ==> !FunctionStart(tail[i])
    ensures SplitFrom(Whole(units) + tail, 0) == Done(Files(units, true), Written(units, true) + Lost(units, true))
  {
    hide FunctionStart, FunctionEnd, WellFormed, SplitFrom, Written, Lost, Files, Whole;
    assert none + (Whole(units) + tail) == Whole(units) + tail;
    ListingRuns(none, units, tail);
  }

  lemma {:induction false} FilesAt(units: seq<Unit>, first: bool, i: nat)
    requires i < |units|
    ensures Files(units, first)[i] == FileOf(units[i], first && i == 0)
  {
    if i > 0 {
      FilesAt(units[1..], false, i - 1);
    }
  }
}
