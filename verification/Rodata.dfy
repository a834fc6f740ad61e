/**
  What the recorded total is worth: the bytes the assembler really emits for the strings in the
  written files, and the padding of `.rodata` computed from the total.
 */
module Rodata {
  import opened Options
  import opened Lines
  import opened Splitter
  import opened Listing

  // ---------- the total against the assembler ----------

  /** Bytes the assembler emits for the strings of one line, with the terminator. */
  ghost function Emitted(line: string): nat {
    if p :| line == StringLine(p) then AsmLen(p) + 1 else 0
  }

  /** Characters of escapes the script does not know, beyond one a byte. */
  ghost function Overcount(line: string): nat {
    if p :| line == StringLine(p) then Surplus(p) else 0
  }

  /** Characters cut off a string, up to and including its last early quote. */
  ghost function Undercount(line: string): nat {
    if p :| line == StringLine(p) then Dropped(p) else 0
  }

  ghost function Sum(f: string -> nat, lines: seq<string>): nat {
    if lines == [] then 0 else f(lines[0]) + Sum(f, lines[1..])
  }

  /** A string line as the compiler writes it, or no string. */
  ghost predicate Plain(line: string) {
    Payload(line).None? || exists p :: line == StringLine(p)
  }

  ghost predicate Exact(line: string) {
    forall p :: line == StringLine(p) ==> NewlineEscapesOnly(p)
  }

  ghost predicate QuotesLate(line: string) {
    forall p :: line == StringLine(p) ==> !EarlyQuote(p)
  }

  /** All read-only data of the files written. */
  function Output(files: seq<File>): seq<string> {
    if files == [] then [] else files[0].rodata + Output(files[1..])
  }

  lemma StringLineInjective(p: string, q: string)
    requires StringLine(p) == StringLine(q)
    ensures p == q
  {
    StringLineLength(p);
    StringLineLength(q);
    assert p == StringLine(p)[10..|p| + 10] && q == StringLine(q)[10..|q| + 10];
  }

  lemma StringLineLength(p: string)
    ensures |StringLine(p)| == |p| + 11 && forall i :: 0 <= i < |p| ==> StringLine(p)[10 + i] == p[i]
  {
  }

  lemma KnownLine(p: string)
    ensures Emitted(StringLine(p)) == AsmLen(p) + 1
    ensures Overcount(StringLine(p)) == Surplus(p) && Undercount(StringLine(p)) == Dropped(p)
    ensures Exact(StringLine(p)) <==> NewlineEscapesOnly(p)
    ensures QuotesLate(StringLine(p)) <==> !EarlyQuote(p)
  {
    hide AsmLen, NewlineEscapesOnly, StringLine, Surplus, Dropped, EarlyQuote;
    forall q | StringLine(p) == StringLine(q) ensures p == q {
      StringLineInjective(p, q);
    }
  }

  lemma NoStringLine(line: string)
    requires Payload(line).None?
    ensures forall p :: line != StringLine(p)
  {
    hide Payload, StringLine;
    forall p ensures line != StringLine(p) {
      StringLineCaptures(p);
    }
  }

  lemma OneLine(line: string)
    requires Plain(line)
    ensures Tally(line) + Undercount(line) == Emitted(line) + Overcount(line)
    ensures Overcount(line) == 0 <==> Exact(line)
    ensures QuotesLate(line) ==> Undercount(line) == 0
  {
    hide Payload, StringLine, EarlyQuote, AsmLen, PyLen, NewlineEscapesOnly, Surplus;
    if Payload(line).None? {
      NoStringLine(line);
    } else {
      hide Tally, Emitted, Overcount, Undercount, Exact, QuotesLate, Dropped;
      var p :| line == StringLine(p);
      KnownLine(p);
      StringLineTally(p);
      NoSurplus(p);
      if !EarlyQuote(p) {
        NothingDropped(p);
      }
    }
  }

  lemma NothingDropped(p: string)
    requires !EarlyQuote(p)
    ensures Dropped(p) == 0
  {
  }

  lemma {:induction false} ManyLines(lines: seq<string>)
    requires forall i :: 0 <= i < |lines| ==> Plain(lines[i])
    ensures TallyAll(lines) + Sum(Undercount, lines) == Sum(Emitted, lines) + Sum(Overcount, lines)
    ensures Sum(Overcount, lines) == 0 <==> forall i :: 0 <= i < |lines| ==> Exact(lines[i])
    ensures (forall i :: 0 <= i < |lines| ==> QuotesLate(lines[i])) ==> Sum(Undercount, lines) == 0
  {
    hide Plain, Exact, Tally, Emitted, Overcount, Undercount, QuotesLate;
    if lines != [] {
      OneLine(lines[0]);
      ManyLines(lines[1..]);
      assert forall i :: 0 < i < |lines| ==> lines[i] == lines[1..][i - 1];
    }
  }

  /** The lines left out of a copy hold no strings. */
  lemma {:induction false} CopyKeepsTally(lines: seq<string>)
    ensures TallyAll(Copied(lines)) == TallyAll(lines)
  {
    hide Skipped, Tally;
    if lines != [] {
      CopyKeepsTally(lines[1..]);
      if Skipped(lines[0]) {
        NoStringThere(lines[0]);
        assert Copied(lines) == Copied(lines[1..]);
      } else {
        TallyConcat([lines[0]], Copied(lines[1..]));
        assert [lines[0]][1..] == [];
      }
    }
  }

  lemma {:induction false} WrittenIsOutput(units: seq<Unit>, first: bool)
    ensures Written(units, first) == TallyAll(Output(Files(units, first)))
  {
    hide Data, Copied, TallyAll, NonCfi, DropLast;
    if units == [] {
      EmptyCopy();
    } else {
      CopyKeepsTally(Data(units[0], first));
      WrittenIsOutput(units[1..], false);
      var files := Files(units, first);
      assert files[1..] == Files(units[1..], false);
      TallyConcat(files[0].rodata, Output(files[1..]));
    }
  }

  /** No line of the unit is a string that is counted and then thrown away. */
  predicate NothingLost(u: Unit, first: bool) {
    forall i :: 0 <= i < |Discarded(u, first)| ==> Payload(Discarded(u, first)[i]).None?
  }

  lemma {:induction false} NoStrings(lines: seq<string>)
    ensures TallyAll(lines) == 0 <==> forall i :: 0 <= i < |lines| ==> Payload(lines[i]).None?
  {
    hide Payload, PyLen;
    if lines != [] {
      NoStrings(lines[1..]);
      assert forall i :: 0 < i < |lines| ==> lines[i] == lines[1..][i - 1];
    }
  }

  lemma {:induction false} LostExactly(units: seq<Unit>, first: bool)
    ensures Lost(units, first) == 0 <==> forall i :: 0 <= i < |units| ==> NothingLost(units[i], first && i == 0)
  {
    hide NothingLost, Discarded, TallyAll;
    if units != [] {
      LostHere(units[0], first);
      LostExactly(units[1..], false);
      assert forall i :: 0 < i < |units| ==> units[i] == units[1..][i - 1];
    }
  }

  lemma LostHere(u: Unit, first: bool)
    ensures TallyAll(Discarded(u, first)) == 0 <==> NothingLost(u, first)
  {
    hide Payload, TallyAll, Discarded;
    NoStrings(Discarded(u, first));
  }

  /** The total the splitter records for a listing. */
  function Total(units: seq<Unit>): nat {
    Written(units, true) + Lost(units, true)
  }

  /** All read-only data written for a listing. */
  function AllData(units: seq<Unit>): seq<string> {
    Output(Files(units, true))
  }

  ghost function Bytes(units: seq<Unit>): nat {
    Sum(Emitted, AllData(units))
  }

  /** How far the recorded total is off. */
  ghost function Miscount(units: seq<Unit>): int {
    Sum(Overcount, AllData(units)) - Sum(Undercount, AllData(units)) + Lost(units, true)
  }

  ghost predicate AllPlain(units: seq<Unit>) {
    forall i :: 0 <= i < |AllData(units)| ==> Plain(AllData(units)[i])
  }

  /**
    The recorded total against the bytes in the written strings: too large by the extra characters of
    escapes and by what functions without a rodata section throw away, too small by what early quotes
    cut off; so it is exact if and only if the two balance.
   */
  lemma TotalExactly(units: seq<Unit>)
    requires AllPlain(units)
    ensures Total(units) == Bytes(units) + Miscount(units)
    ensures Total(units) == Bytes(units) <==>
              Sum(Overcount, AllData(units)) + Lost(units, true) == Sum(Undercount, AllData(units))
  {
    hide Plain, Output, Files, Written, Lost, TallyAll, Sum;
    WrittenIsOutput(units, true);
    ManyLines(AllData(units));
  }

  /** Where every quote comes after a word character, the total never falls short, and is exact if and
      only if `\n` is the only escape and no function without a rodata section has strings in front. */
  lemma TotalWithLateQuotes(units: seq<Unit>)
    requires AllPlain(units) && forall i :: 0 <= i < |AllData(units)| ==> QuotesLate(AllData(units)[i])
    ensures Total(units) >= Bytes(units)
    ensures Total(units) == Bytes(units) <==>
            && (forall i :: 0 <= i < |AllData(units)| ==> Exact(AllData(units)[i]))
            && (forall i :: 0 <= i < |units| ==> NothingLost(units[i], i == 0))
  {
    hide Plain, Exact, QuotesLate, NothingLost, AllData, Written, Lost, TallyAll, Sum;
    TotalExactly(units);
    ManyLines(AllData(units));
    LostExactly(units, true);
  }

  // ---------- an early quote can err either way ----------

  /** n tabulators as escapes. */
  function Tabs(n: nat): string {
    if n == 0 then "" else "\\t" + Tabs(n - 1)
  }

  lemma {:induction false} TabsCount(n: nat)
    ensures Surplus(Tabs(n)) == n && LastEarlyQuote(Tabs(n)) == None
  {
    if n > 0 {
      var p := Tabs(n);
      TabsCount(n - 1);
      assert p[2..] == Tabs(n - 1) && TokenLen(p) == 2;
      assert IsWord(p[1..][0]) && LastEarlyQuote(p[1..]) == None;
    }
  }

  /** A quote followed by n tabulators is counted one short for n = 0, right for n = 1 and too long
      from then on. */
  lemma EarlyQuoteMiscounts(n: nat)
    ensures Tally(StringLine("\\\"" + Tabs(n))) + 1 == Emitted(StringLine("\\\"" + Tabs(n))) + n
  {
    hide StringLine, Tally, Emitted, AsmLen, Tabs;
    var p := "\\\"" + Tabs(n);
    TabsCount(n);
    assert p[1..] == "\"" + Tabs(n) && p[1..][1..] == Tabs(n) && p[2..] == Tabs(n);
    assert LastEarlyQuote(p[1..]) == Some(0);
    assert LastEarlyQuote(p) == Some(1);
    assert TokenLen(p) == 2 && Surplus(p) == 1 + n;
    StringLineTally(p);
    KnownLine(p);
  }

  // ---------- the padding ----------

  const ALIGNMENT := 16

  function CalcAlignment(n: nat): int {
    ALIGNMENT * (n / ALIGNMENT + 1) - n
  }

  /** What the data pass adds: 16 bytes, and a padded signature for each mode in use. */
  function DataPass(persistent: bool, deferred: bool): nat {
    16
    + (if persistent then AsmLen("##SIG_AFL_PERSISTENT##") + 1 + 9 else 0)
    + (if deferred then AsmLen("##SIG_AFL_DEFER_FORKSRV##") + 1 + 6 else 0)
  }

  lemma {:induction false} PlainLength(p: string)
    requires forall i :: 0 <= i < |p| ==> p[i] != '\\'
    ensures AsmLen(p) == |p|
  {
    if p != "" {
      PlainLength(p[1..]);
    }
  }

  lemma DataPassAligned(persistent: bool, deferred: bool)
    ensures DataPass(persistent, deferred) == 16 + (if persistent then 32 else 0) + (if deferred then 32 else 0)
    ensures DataPass(persistent, deferred) % 16 == 0
  {
    hide AsmLen;
    PlainLength("##SIG_AFL_PERSISTENT##");
    PlainLength("##SIG_AFL_DEFER_FORKSRV##");
  }

  /** Everything the passes add to `.rodata` when the function patches hold `bytes` and record `total`. */
  function Growth(persistent: bool, deferred: bool, bytes: nat, total: nat): int {
    DataPass(persistent, deferred) + bytes + CalcAlignment(total)
  }

  /** Padding is 1 to 16 bytes, and the section stays aligned exactly when the miscount is a multiple of 16. */
  lemma GrowthAligned(persistent: bool, deferred: bool, bytes: nat, total: nat)
    ensures 1 <= CalcAlignment(total) <= 16 && (total + CalcAlignment(total)) % 16 == 0
    ensures Growth(persistent, deferred, bytes, total) == DataPass(persistent, deferred) + bytes + CalcAlignment(total)
    ensures Growth(persistent, deferred, bytes, total) % 16 == 0 <==> (total - bytes) % 16 == 0
  {
    hide DataPass;
    DataPassAligned(persistent, deferred);
  }

  /** From the listing to the section: in every combination of modes it stays aligned if and only if
      the total is off by a multiple of 16. */
  lemma ListingKeepsAlignment(units: seq<Unit>, persistent: bool, deferred: bool)
    requires AllPlain(units)
    ensures Growth(persistent, deferred, Bytes(units), Total(units)) % 16 == 0 <==> Miscount(units) % 16 == 0
  {
    hide AllPlain, Total, Bytes, Growth, Miscount, CalcAlignment, Sum, Lost;
    TotalExactly(units);
    var off: int := Total(units) - Bytes(units);
    assert off == Miscount(units);
    GrowthAligned(persistent, deferred, Bytes(units), Total(units));
  }
}
