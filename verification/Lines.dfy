/** How the splitter looks at one line of assembly: its regular expressions and its string tally. */
module Lines {
  import opened Options

  // ---------- the regular expressions ----------

  predicate IsWord(c: char) {
    'a' <= c <= 'z' || 'A' <= c <= 'Z' || '0' <= c <= '9' || c == '_'
  }

  /** `^\W*d` for a literal d. */
  predicate Directive(s: string, d: string) {
    d <= s || (s != "" && !IsWord(s[0]) && Directive(s[1..], d))
  }

  predicate Contains(s: string, d: string) {
    d <= s || (s != "" && Contains(s[1..], d))
  }

  /** `^\W*\.type.*function` */
  predicate FunctionStart(s: string) {
    (".type" <= s && Contains(s[5..], "function")) || (s != "" && !IsWord(s[0]) && FunctionStart(s[1..]))
  }

  predicate FunctionEnd(s: string) { Directive(s, ".cfi_endproc") }

  predicate Cfi(s: string) { Directive(s, ".cfi") }

  /** `^\W*\.section\W*\.rodata` */
  predicate RodataStart(s: string) {
    (".section" <= s && Directive(s[8..], ".rodata")) || (s != "" && !IsWord(s[0]) && RodataStart(s[1..]))
  }

  /** Lines the rodata copy leaves out: type, text section and alignment directives. */
  predicate Skipped(s: string) {
    Directive(s, ".type") || Directive(s, ".text") || Directive(s, ".align")
  }

  predicate Quoted(s: string) {
    |s| >= 2 && s[0] == '"' && s[|s| - 1] == '"'
  }

  /** `\W*"(.*)"$`: the first part takes as much as it can. */
  function Unquote(s: string): Option<string> {
    if s != "" && !IsWord(s[0]) && Unquote(s[1..]).Some? then Unquote(s[1..])
    else if Quoted(s) then Some(s[1..|s| - 1])
    else None
  }

  /** `^\W*\.string\W*"(.*)"$` */
  function Payload(s: string): Option<string> {
    if s != "" && !IsWord(s[0]) && Payload(s[1..]).Some? then Payload(s[1..])
    else if ".string" <= s then Unquote(s[7..])
    else None
  }

  // ---------- what the expressions match ----------

  /** `\w` in the ASCII table: digits, capitals, the underscore and small letters. */
  lemma WordCharacters(c: char)
    ensures var n := c as int;
            IsWord(c) <==> 48 <= n <= 57 || 65 <= n <= 90 || n == 95 || 97 <= n <= 122
  {
  }

  predicate NonWordUpTo(p: string, k: nat)
    requires k <= |p|
  {
    forall i :: 0 <= i < k ==> !IsWord(p[i])
  }

  predicate At(s: string, k: nat, d: string) {
    k + |d| <= |s| && s[k..k + |d|] == d
  }

  /** d stands at k with no word character in front of it. */
  predicate DirectiveAt(s: string, k: nat, d: string) {
    At(s, k, d) && NonWordUpTo(s, k)
  }

  lemma {:induction false} DirectiveExactly(s: string, d: string)
    ensures Directive(s, d) <==> exists k: nat :: DirectiveAt(s, k, d)
  {
    if d <= s {
      assert DirectiveAt(s, 0, d);
    } else if s != "" && !IsWord(s[0]) {
      DirectiveExactly(s[1..], d);
      DirectiveShifts(s, d);
    }
  }

  lemma DirectiveShifts(s: string, d: string)
    requires s != "" && !IsWord(s[0])
    ensures forall k: nat :: DirectiveAt(s[1..], k, d) ==> DirectiveAt(s, k + 1, d)
    ensures forall k: nat :: k > 0 && DirectiveAt(s, k, d) ==> DirectiveAt(s[1..], k - 1, d)
  {
    forall k: nat | DirectiveAt(s[1..], k, d) ensures DirectiveAt(s, k + 1, d) {
      assert s[1..][k..k + |d|] == s[k + 1..k + 1 + |d|];
      assert forall i :: 1 <= i < k + 1 ==> s[i] == s[1..][i - 1];
    }
    forall k: nat | k > 0 && DirectiveAt(s, k, d) ensures DirectiveAt(s[1..], k - 1, d) {
      assert s[1..][k - 1..k - 1 + |d|] == s[k..k + |d|];
    }
  }

  lemma {:induction false} ContainsExactly(s: string, d: string)
    ensures Contains(s, d) <==> exists m: nat :: At(s, m, d)
  {
    if d <= s {
      assert At(s, 0, d);
    } else if s != "" {
      ContainsExactly(s[1..], d);
      forall m: nat | At(s[1..], m, d) ensures At(s, m + 1, d) {
        assert s[1..][m..m + |d|] == s[m + 1..m + 1 + |d|];
      }
      forall m: nat | m > 0 && At(s, m, d) ensures At(s[1..], m - 1, d) {
        assert s[1..][m - 1..m - 1 + |d|] == s[m..m + |d|];
      }
      assert !At(s, 0, d);
    }
  }

  /** A function starts at `.type` with "function" anywhere behind it. */
  lemma {:induction false} FunctionStartExactly(s: string)
    ensures FunctionStart(s) <==> exists k: nat :: DirectiveAt(s, k, ".type") && Contains(s[k + 5..], "function")
  {
    if ".type" <= s {
      assert DirectiveAt(s, 0, ".type");
      OnlyThere(s, ".type");
      if !IsWord(s[0]) {
        assert s[1..][0] == 't';
        assert !FunctionStart(s[1..]);
      }
    } else if s != "" && !IsWord(s[0]) {
      FunctionStartExactly(s[1..]);
      DirectiveShifts(s, ".type");
      if k: nat :| DirectiveAt(s[1..], k, ".type") && Contains(s[1..][k + 5..], "function") {
        assert DirectiveAt(s, k + 1, ".type") && s[1..][k + 5..] == s[k + 1 + 5..];
      }
      if k: nat :| DirectiveAt(s, k, ".type") && Contains(s[k + 5..], "function") {
        assert k > 0 && DirectiveAt(s[1..], k - 1, ".type") && s[1..][k - 1 + 5..] == s[k + 5..];
      }
    }
  }

  /** At the start of a line a literal of a dot and a word character leaves no room for another place. */
  lemma OnlyThere(s: string, d: string)
    requires |d| >= 2 && d <= s && IsWord(d[1])
    ensures forall k: nat :: DirectiveAt(s, k, d) && d[0] == '.' ==> k == 0
  {
    forall k: nat | DirectiveAt(s, k, d) && d[0] == '.' ensures k == 0 {
      assert s[1] == d[1] && s[k..k + |d|][0] == s[k];
    }
  }

  lemma {:induction false} RodataStartExactly(s: string)
    ensures RodataStart(s) <==> exists k: nat :: DirectiveAt(s, k, ".section") && Directive(s[k + 8..], ".rodata")
  {
    if ".section" <= s {
      assert DirectiveAt(s, 0, ".section");
      OnlyThere(s, ".section");
      assert s[1..][0] == 's';
      assert !RodataStart(s[1..]);
    } else if s != "" && !IsWord(s[0]) {
      RodataStartExactly(s[1..]);
      DirectiveShifts(s, ".section");
      if k: nat :| DirectiveAt(s[1..], k, ".section") && Directive(s[1..][k + 8..], ".rodata") {
        assert DirectiveAt(s, k + 1, ".section") && s[1..][k + 8..] == s[k + 1 + 8..];
      }
      if k: nat :| DirectiveAt(s, k, ".section") && Directive(s[k + 8..], ".rodata") {
        assert k > 0 && DirectiveAt(s[1..], k - 1, ".section") && s[1..][k - 1 + 8..] == s[k + 8..];
      }
    }
  }

  /** What each expression is: where its literal stands, with no word character before it. */
  lemma ExpressionsExactly(s: string)
    ensures FunctionEnd(s) <==> exists k: nat :: DirectiveAt(s, k, ".cfi_endproc")
    ensures Cfi(s) <==> exists k: nat :: DirectiveAt(s, k, ".cfi")
    ensures Skipped(s) <==> exists k: nat :: DirectiveAt(s, k, ".type") || DirectiveAt(s, k, ".text") || DirectiveAt(s, k, ".align")
  {
    hide Directive, DirectiveAt;
    DirectiveExactly(s, ".cfi_endproc");
    DirectiveExactly(s, ".cfi");
    DirectiveExactly(s, ".type");
    DirectiveExactly(s, ".text");
    DirectiveExactly(s, ".align");
  }

  /** A quote at j with no word character in front of it, and another at the very end. */
  predicate OpensAt(t: string, j: nat) {
    j + 1 < |t| && t[j] == '"' && t[|t| - 1] == '"' && NonWordUpTo(t, j)
  }

  /** The quoted part begins behind the last quote that can open it. */
  lemma {:induction false} UnquoteExactly(t: string)
    ensures Unquote(t).None? ==> forall j: nat :: !OpensAt(t, j)
    ensures Unquote(t).Some? ==>
              exists j: nat :: OpensAt(t, j) && Unquote(t).value == t[j + 1..|t| - 1] && forall i: nat :: OpensAt(t, i) ==> i <= j
  {
    if t != "" {
      UnquoteExactly(t[1..]);
      OpensShifts(t);
      if !IsWord(t[0]) && Unquote(t[1..]).Some? {
        var j: nat :| OpensAt(t[1..], j) && Unquote(t[1..]).value == t[1..][j + 1..|t| - 2]
                      && forall i: nat :: OpensAt(t[1..], i) ==> i <= j;
        assert t[1..][j + 1..|t| - 2] == t[j + 2..|t| - 1];
        assert OpensAt(t, j + 1);
      } else if Quoted(t) {
        assert OpensAt(t, 0);
      }
    }
  }

  lemma OpensShifts(t: string)
    requires t != ""
    ensures forall j: nat :: !IsWord(t[0]) && OpensAt(t[1..], j) ==> OpensAt(t, j + 1)
    ensures forall j: nat :: j > 0 && OpensAt(t, j) ==> !IsWord(t[0]) && OpensAt(t[1..], j - 1)
  {
    forall j: nat | !IsWord(t[0]) && OpensAt(t[1..], j) ensures OpensAt(t, j + 1) {
      assert forall i :: 1 <= i < j + 1 ==> t[i] == t[1..][i - 1];
    }
  }

  /** A string is what stands behind `.string`, unquoted. */
  lemma {:induction false} PayloadExactly(s: string)
    ensures forall k: nat :: DirectiveAt(s, k, ".string") ==> Payload(s) == Unquote(s[k + 7..])
    ensures (forall k: nat :: !DirectiveAt(s, k, ".string")) ==> Payload(s) == None
  {
    hide Unquote;
    if ".string" <= s {
      assert s[1..][0] == 's' && Payload(s[1..]) == None;
      OnlyThere(s, ".string");
      assert DirectiveAt(s, 0, ".string");
    } else if s != "" && !IsWord(s[0]) {
      PayloadExactly(s[1..]);
      DirectiveShifts(s, ".string");
      forall k: nat | DirectiveAt(s, k, ".string") ensures Payload(s) == Unquote(s[k + 7..]) {
        assert k > 0 && s[1..][k - 1 + 7..] == s[k + 7..] && DirectiveAt(s[1..], k - 1, ".string");
      }
      if forall k: nat :: !DirectiveAt(s, k, ".string") {
        forall k: nat ensures !DirectiveAt(s[1..], k, ".string") {
          assert !DirectiveAt(s, k + 1, ".string");
        }
      }
    }
  }

  // ---------- the tally ----------

  /** Length after `\n` is replaced by a newline. */
  function PyLen(p: string): nat {
    if p == "" then 0
    else if |p| >= 2 && p[0] == '\\' && p[1] == 'n' then 1 + PyLen(p[2..])
    else 1 + PyLen(p[1..])
  }

  /** Bytes the script counts for a line: the string and its terminator. */
  function Tally(s: string): nat {
    match Payload(s)
    case Some(p) => PyLen(p) + 1
    case None => 0
  }

  function TallyAll(lines: seq<string>): nat {
    if lines == [] then 0 else Tally(lines[0]) + TallyAll(lines[1..])
  }

  lemma {:induction false} TallyConcat(a: seq<string>, b: seq<string>)
    ensures TallyAll(a + b) == TallyAll(a) + TallyAll(b)
  {
    if a == [] {
      assert a + b == b;
    } else {
      assert (a + b)[1..] == a[1..] + b;
      TallyConcat(a[1..], b);
    }
  }

  // ---------- which expressions exclude each other ----------

  /** Two literals that both begin with a dot and a word character match only if one begins the other. */
  lemma {:induction false} DirectivesClash(s: string, d: string, e: string)
    requires |d| >= 2 && |e| >= 2 && d[0] == e[0] == '.' && IsWord(d[1]) && IsWord(e[1])
    requires Directive(s, d) && Directive(s, e)
    ensures d <= e || e <= d
  {
    if d <= s && e <= s {
      assert d == s[..|d|] && e == s[..|e|];
    } else if !(d <= s) && !(e <= s) {
      DirectivesClash(s[1..], d, e);
    }
  }

  lemma {:induction false} StartIsType(s: string)
    requires FunctionStart(s)
    ensures Directive(s, ".type")
  {
    if !(".type" <= s) {
      StartIsType(s[1..]);
    }
  }

  lemma {:induction false} RodataIsSection(s: string)
    requires RodataStart(s)
    ensures Directive(s, ".section")
  {
    if !(".section" <= s) {
      RodataIsSection(s[1..]);
    }
  }

  lemma {:induction false} PayloadIsString(s: string)
    requires Payload(s).Some?
    ensures Directive(s, ".string")
  {
    if s != "" && !IsWord(s[0]) && Payload(s[1..]).Some? {
      PayloadIsString(s[1..]);
    }
  }

  /** Headers, function ends and skipped lines hold no string. */
  lemma NoStringThere(s: string)
    requires FunctionStart(s) || FunctionEnd(s) || Skipped(s)
    ensures Tally(s) == 0
  {
    if Payload(s).Some? {
      PayloadIsString(s);
      if FunctionStart(s) {
        StartIsType(s);
      }
      var d := if FunctionEnd(s) then ".cfi_endproc" else if Directive(s, ".text") then ".text"
               else if Directive(s, ".align") then ".align" else ".type";
      DirectivesClash(s, ".string", d);
    }
  }

  lemma HeaderIsNeither(s: string)
    requires FunctionStart(s)
    ensures !FunctionEnd(s) && !RodataStart(s) && Skipped(s)
  {
    StartIsType(s);
    if FunctionEnd(s) {
      DirectivesClash(s, ".type", ".cfi_endproc");
    }
    if RodataStart(s) {
      RodataIsSection(s);
      DirectivesClash(s, ".type", ".section");
    }
  }

  lemma EndIsNoRodata(s: string)
    requires FunctionEnd(s)
    ensures !RodataStart(s)
  {
    if RodataStart(s) {
      RodataIsSection(s);
      DirectivesClash(s, ".cfi_endproc", ".section");
    }
  }

  // ---------- what the tally is worth ----------

  predicate OctalDigit(c: char) { '0' <= c <= '7' }

  predicate HexDigit(c: char) { '0' <= c <= '9' || 'a' <= c <= 'f' || 'A' <= c <= 'F' }

  function HexRun(p: string): (n: nat)
    ensures n <= |p| && forall i :: 0 <= i < n ==> HexDigit(p[i])
  {
    if p != "" && HexDigit(p[0]) then 1 + HexRun(p[1..]) else 0
  }

  /** Source characters the assembler turns into the next byte of a string literal. */
  function TokenLen(p: string): (n: nat)
    requires p != ""
    ensures 1 <= n <= |p|
  {
    if p[0] != '\\' || |p| == 1 then 1
    else if OctalDigit(p[1]) then
      if |p| > 2 && OctalDigit(p[2]) then (if |p| > 3 && OctalDigit(p[3]) then 4 else 3) else 2
    else if p[1] == 'x' || p[1] == 'X' then 2 + HexRun(p[2..])
    else 2
  }

  /** Bytes the assembler emits for a string literal, without the terminator. */
  function AsmLen(p: string): nat
    decreases |p|
  {
    if p == "" then 0 else 1 + AsmLen(p[TokenLen(p)..])
  }

  /** Every escape is `\n`, or an escaped backslash directly before the letter n. */
  predicate NewlineEscapesOnly(p: string)
    decreases |p|
  {
    p == "" ||
    if p[0] != '\\' || |p| == 1 then NewlineEscapesOnly(p[1..])
    else if p[1] == 'n' then NewlineEscapesOnly(p[2..])
    else p[1] == '\\' && |p| > 2 && p[2] == 'n' && NewlineEscapesOnly(p[3..])
  }

  /** Characters that start no escape count one each. */
  lemma {:induction false} PlainRun(p: string, n: nat)
    requires n <= |p| && forall i :: 0 <= i < n ==> p[i] != '\\'
    ensures PyLen(p) == n + PyLen(p[n..])
  {
    if n > 0 {
      PlainRun(p[1..], n - 1);
      assert p[1..][n - 1..] == p[n..];
    }
  }

  lemma TokenPlain(p: string)
    requires |p| >= 2 && p[0] == '\\' && p[1] != '\\'
    ensures TokenLen(p) >= 2
    ensures forall i :: 1 <= i < TokenLen(p) ==> p[i] != '\\'
  {
    if p[1] == 'x' || p[1] == 'X' {
      assert forall i :: 2 <= i < TokenLen(p) ==> p[i] == p[2..][i - 2];
    }
  }

  /** Source characters beyond one a byte in all escapes that the script does not know. An escaped
      backslash before the letter n is read as a backslash and a newline, which is two for two. */
  function Surplus(p: string): nat
    decreases |p|
  {
    if p == "" then 0
    else if p[0] != '\\' || |p| == 1 then Surplus(p[1..])
    else if p[1] == 'n' then Surplus(p[2..])
    else if p[1] == '\\' && |p| > 2 && p[2] == 'n' then Surplus(p[3..])
    else TokenLen(p) - 1 + Surplus(p[TokenLen(p)..])
  }

  /** The script counts one for every character of an escape it does not know. */
  lemma {:induction false} TallySurplus(p: string)
    ensures PyLen(p) == AsmLen(p) + Surplus(p)
    decreases |p|
  {
    hide TokenLen;
    if p == "" {
    } else if p[0] != '\\' || |p| == 1 {
      ShortToken(p);
      TallySurplus(p[1..]);
    } else if p[1] == 'n' {
      ShortToken(p);
      TallySurplus(p[2..]);
    } else if p[1] == '\\' {
      ShortToken(p);
      EscapedBackslash(p);
      if |p| > 2 && p[2] == 'n' {
        ShortToken(p[2..]);
        TallySurplus(p[3..]);
        assert p[2..][1..] == p[3..];
      } else {
        TallySurplus(p[2..]);
      }
    } else {
      OtherEscape(p);
      TallySurplus(p[TokenLen(p)..]);
    }
  }

  lemma {:induction false} NoSurplus(p: string)
    ensures Surplus(p) == 0 <==> NewlineEscapesOnly(p)
    decreases |p|
  {
    hide TokenLen;
    if p == "" {
    } else if p[0] != '\\' || |p| == 1 {
      NoSurplus(p[1..]);
    } else if p[1] == 'n' {
      NoSurplus(p[2..]);
    } else if p[1] == '\\' && |p| > 2 && p[2] == 'n' {
      NoSurplus(p[3..]);
    } else if p[1] == '\\' {
      ShortToken(p);
    } else {
      OtherEscape(p);
    }
  }

  /** The script never counts a text too short, and counts it right exactly when `\n` is the only escape,
      up to the coincidence of an escaped backslash followed by n. */
  lemma TallyAgainstAssembler(p: string)
    ensures PyLen(p) >= AsmLen(p)
    ensures PyLen(p) == AsmLen(p) <==> NewlineEscapesOnly(p)
  {
    hide PyLen, AsmLen, Surplus, NewlineEscapesOnly;
    TallySurplus(p);
    NoSurplus(p);
  }

  lemma ShortToken(p: string)
    requires p != ""
    ensures p[0] != '\\' || |p| == 1 ==> TokenLen(p) == 1
    ensures |p| >= 2 && p[0] == '\\' && (p[1] == 'n' || p[1] == '\\') ==> TokenLen(p) == 2
  {
  }

  /** The script counts every character of any other escape. */
  lemma OtherEscape(p: string)
    requires |p| >= 2 && p[0] == '\\' && p[1] != 'n' && p[1] != '\\'
    ensures TokenLen(p) >= 2 && PyLen(p) == TokenLen(p) + PyLen(p[TokenLen(p)..])
  {
    hide TokenLen, PyLen;
    var n := TokenLen(p);
    TokenPlain(p);
    NoNewline(p);
    PlainRun(p[1..], n - 1);
    assert p[1..][n - 1..] == p[n..];
  }

  lemma NoNewline(p: string)
    requires |p| >= 2 && p[1] != 'n'
    ensures PyLen(p) == 1 + PyLen(p[1..])
  {
  }

  lemma EscapedBackslash(p: string)
    requires |p| >= 2 && p[0] == '\\' && p[1] == '\\'
    ensures PyLen(p) == if |p| > 2 && p[2] == 'n' then 2 + PyLen(p[3..]) else 2 + PyLen(p[2..])
  {
    assert p[1..][1..] == p[2..];
    assert |p| > 2 ==> p[1..][2..] == p[3..];
  }

  // ---------- what the string expression captures ----------

  /** A quote in the string before any word character. */
  predicate EarlyQuote(p: string) {
    exists k: nat :: k < |p| && QuoteAt(p, k)
  }

  predicate QuoteAt(p: string, k: nat) {
    k < |p| && p[k] == '"' && NonWordUpTo(p, k)
  }

  function LastEarlyQuote(p: string): (r: Option<nat>)
    ensures r.Some? ==> QuoteAt(p, r.value)
    ensures forall k: nat :: QuoteAt(p, k) ==> r.Some? && k <= r.value
  {
    if p == "" || IsWord(p[0]) then None
    else
      var later := LastEarlyQuote(p[1..]);
      assert forall k: nat :: k > 0 && QuoteAt(p, k) ==> QuoteAt(p[1..], k - 1);
      if later.Some? then Some(later.value + 1) else if p[0] == '"' then Some(0) else None
  }

  /** What the first, greedy part of the expression leaves of the string. */
  function Captured(p: string): string {
    match LastEarlyQuote(p)
    case None => p
    case Some(k) => p[k + 1..]
  }

  /** Characters the expression drops: the string up to its last early quote. */
  function Dropped(p: string): nat {
    match LastEarlyQuote(p)
    case None => 0
    case Some(k) => k + 1
  }

  lemma {:induction false} UnquoteTail(p: string)
    ensures Unquote(p + "\"") == match LastEarlyQuote(p) case None => None case Some(k) => Some(p[k + 1..])
  {
    var t := p + "\"";
    if p == "" {
      assert Unquote(t[1..]) == None;
    } else {
      UnquoteTail(p[1..]);
      assert t[1..] == p[1..] + "\"";
      assert t[1..|t| - 1] == p[1..];
      if !IsWord(p[0]) && LastEarlyQuote(p[1..]).Some? {
        var k := LastEarlyQuote(p[1..]).value;
        assert p[1..][k + 1..] == p[k + 2..];
      }
    }
  }

  /** The characters dropped hold no escape that the script knows. */
  lemma DroppedCounts(p: string)
    ensures PyLen(p) == Dropped(p) + PyLen(Captured(p))
  {
    match LastEarlyQuote(p)
    case None =>
    case Some(k) => NoEscapeRun(p, k + 1);
  }

  lemma {:induction false} NoEscapeRun(p: string, n: nat)
    requires n <= |p| && forall i :: 0 <= i < n ==> p[i] != 'n'
    requires n > 0 ==> p[n - 1] != '\\'
    ensures PyLen(p) == n + PyLen(p[n..])
  {
    if n > 0 {
      NoEscapeRun(p[1..], n - 1);
      assert p[1..][n - 1..] == p[n..];
    }
  }

  /** A string line as the compiler writes it. */
  function StringLine(p: string): string {
    "\t" + (".string" + ("\t" + ("\"" + (p + "\""))))
  }

  /** Such a line always matches, and yields what follows the last early quote of p. */
  lemma StringLineCaptures(p: string)
    ensures Payload(StringLine(p)) == Some(Captured(p))
    ensures Captured(p) == p <==> !EarlyQuote(p)
  {
    hide Payload, StringLine, Unquote;
    StringLineUnquotes(p);
    QuotedUnquotes(p);
    if EarlyQuote(p) {
      assert LastEarlyQuote(p).Some?;
    }
  }

  lemma QuotedUnquotes(p: string)
    ensures Unquote("\"" + (p + "\"")) == Some(Captured(p))
  {
    hide LastEarlyQuote;
    var t := p + "\"";
    var q := "\"" + t;
    assert q[1..] == t && Quoted(q) && q[1..|q| - 1] == p;
    UnquoteTail(p);
  }

  /** What the script counts for a string line, against the bytes the assembler emits for it. */
  lemma StringLineTally(p: string)
    ensures Tally(StringLine(p)) + Dropped(p) == AsmLen(p) + 1 + Surplus(p)
  {
    hide Payload, StringLine, PyLen, AsmLen, Surplus, Dropped, Captured;
    StringLineCaptures(p);
    DroppedCounts(p);
    TallySurplus(p);
  }

  lemma StringLineUnquotes(p: string)
    ensures Payload(StringLine(p)) == Unquote("\"" + (p + "\""))
  {
    hide Unquote;
    var s, q := StringLine(p), "\"" + (p + "\"");
    var body := ".string" + ("\t" + q);
    assert s[1..] == body && s[0] == '\t';
    PayloadHere(body, "\t" + q);
    BlankUnquotes(q);
  }

  lemma PayloadHere(s: string, rest: string)
    requires s == ".string" + rest
    ensures Payload(s) == Unquote(rest)
  {
    hide Unquote;
    assert s[0] == '.' && s[1..][0] == 's' && s[7..] == rest;
    assert Payload(s[1..]) == None;
  }

  lemma BlankUnquotes(q: string)
    ensures Unquote("\t" + q) == Unquote(q)
  {
    assert ("\t" + q)[1..] == q;
  }
}
