/** The register backup area of persistent mode and the code that fills and reloads it. */
module RegBackup {
  import opened Words
  import opened Machine

  /** The general registers in the order of the backup area, which is that of the hook's struct. */
  const ORDER: seq<Reg> := [RAX, RBX, RCX, RDX, RDI, RSI, 8, 9, 10, 11, 12, 13, 14, 15]
  const GPRS: int := 14
  const XMM_OFFSET: int := 0x70
  const AREA_SIZE: int := 0x170

  function Backup(base: u64): seq<Instr>
    requires base + AREA_SIZE <= TWO64
  {
    BackupGpr(base, GPRS) + BackupXmm(base, 16)
  }

  function Restore(base: u64): seq<Instr>
    requires base + AREA_SIZE <= TWO64
  {
    RestoreGpr(base, GPRS) + RestoreXmm(base, 16)
  }

  function BackupGpr(base: u64, n: nat): seq<Instr>
    requires base + AREA_SIZE <= TWO64 && n <= GPRS
  {
    if n == 0 then [] else BackupGpr(base, n - 1) + [Store(Abs(base + 8 * (n - 1)), ORDER[n - 1])]
  }

  function BackupXmm(base: u64, n: nat): seq<Instr>
    requires base + AREA_SIZE <= TWO64 && n <= 16
  {
    if n == 0 then [] else BackupXmm(base, n - 1) + [MovqStore(Abs(base + XMM_OFFSET + 16 * (n - 1)), n - 1)]
  }

  function RestoreGpr(base: u64, n: nat): seq<Instr>
    requires base + AREA_SIZE <= TWO64 && n <= GPRS
  {
    if n == 0 then [] else RestoreGpr(base, n - 1) + [Load(ORDER[n - 1], Abs(base + 8 * (n - 1)))]
  }

  function RestoreXmm(base: u64, n: nat): seq<Instr>
    requires base + AREA_SIZE <= TWO64 && n <= 16
  {
    if n == 0 then [] else RestoreXmm(base, n - 1) + [MovqLoad(n - 1, Abs(base + XMM_OFFSET + 16 * (n - 1)))]
  }

  /** The struct a hook sees: fourteen general registers and both halves of sixteen xmm registers. */
  datatype RegFile = RegFile(gpr: seq<u64>, xlo: seq<u64>, xhi: seq<u64>)

  type File = f: RegFile | |f.gpr| == GPRS && |f.xlo| == 16 && |f.xhi| == 16
    witness RegFile(seq<u64>(GPRS, (i: nat) => 0), seq<u64>(16, (i: nat) => 0), seq<u64>(16, (i: nat) => 0))

  function FileAt(m: Mem, base: int): File {
    RegFile(seq<u64>(GPRS, (i: nat) => Read64(m, base + 8 * i)),
            seq<u64>(16, (j: nat) => Read64(m, base + XMM_OFFSET + 16 * j)),
            seq<u64>(16, (j: nat) => Read64(m, base + XMM_OFFSET + 8 + 16 * j)))
  }

  /** What a backup of c over an area whose high xmm halves hold `xhi` stores. */
  function FileOf(c: Core, xhi: seq<u64>): File
    requires |xhi| == 16
  {
    RegFile(seq<u64>(GPRS, (i: nat) requires i < GPRS => c.regs[ORDER[i]]), c.xlo, xhi)
  }

  /** The slots tile the area: every byte belongs to exactly one of the fourteen general slots or the
      thirty-two xmm halves, eight bytes each. */
  lemma SlotsFillArea(off: nat)
    requires off < AREA_SIZE
    ensures off < XMM_OFFSET <==> off / 8 < GPRS
    ensures In(off, Span(8 * (off / 8), 8)) && off / 8 < GPRS + 32
    ensures forall k :: In(off, Span(8 * k, 8)) ==> k == off / 8
  {
  }

  lemma {:induction false} BackupGprRuns(base: u64, n: nat, s: State)
    requires base + AREA_SIZE <= TWO64 && n <= GPRS
    ensures var t := RunBody(BackupGpr(base, n), s);
            && t.core == s.core
            && (forall i :: 0 <= i < n ==> Read64(t.mem, base + 8 * i) == s.core.regs[ORDER[i]])
            && (forall x :: x < base || base + 8 * n <= x ==> At(t.mem, x) == At(s.mem, x))
  {
    hide Step, Read64, Write64, ReadN, WriteN;
    if n > 0 {
      hide RunBody;
      BackupGprRuns(base, n - 1, s);
      var last := Store(Abs(base + 8 * (n - 1)), ORDER[n - 1]);
      RunConcat(BackupGpr(base, n - 1), [last], s);
      var t := RunBody(BackupGpr(base, n - 1), s);
      RunOne(last, t);
      StepStore(Abs(base + 8 * (n - 1)), ORDER[n - 1], t);
    }
  }

  lemma {:induction false} BackupXmmRuns(base: u64, n: nat, s: State)
    requires base + AREA_SIZE <= TWO64 && n <= 16
    ensures var t := RunBody(BackupXmm(base, n), s);
            && t.core == s.core
            && (forall j :: 0 <= j < n ==> Read64(t.mem, base + XMM_OFFSET + 16 * j) == s.core.xlo[j])
            && (forall a {:trigger Read64(t.mem, a)} :: (a + 8 <= base + XMM_OFFSET || base + AREA_SIZE <= a
                  || exists j :: 0 <= j < 16 && a == base + XMM_OFFSET + 8 + 16 * j)
                  ==> Read64(t.mem, a) == Read64(s.mem, a))
            && (forall x :: x < base + XMM_OFFSET || base + AREA_SIZE <= x ==> At(t.mem, x) == At(s.mem, x))
  {
    hide Step, Read64, Write64, ReadN, WriteN;
    if n > 0 {
      hide RunBody;
      BackupXmmRuns(base, n - 1, s);
      var last := MovqStore(Abs(base + XMM_OFFSET + 16 * (n - 1)), n - 1);
      RunConcat(BackupXmm(base, n - 1), [last], s);
      var t := RunBody(BackupXmm(base, n - 1), s);
      RunOne(last, t);
      StepMovqStore(Abs(base + XMM_OFFSET + 16 * (n - 1)), n - 1, t);
    }
  }

  /** Backup stores every register in its own slot, changes no register and nothing outside. */
  lemma BackupRuns(base: u64, s: State)
    requires base + AREA_SIZE <= TWO64
    ensures var t := RunBody(Backup(base), s);
            && t.core == s.core
            && FileAt(t.mem, base) == FileOf(s.core, FileAt(s.mem, base).xhi)
            && forall x :: x < base || base + AREA_SIZE <= x ==> At(t.mem, x) == At(s.mem, x)
  {
    hide RunBody, Read64, BackupGpr, BackupXmm;
    RunConcat(BackupGpr(base, GPRS), BackupXmm(base, 16), s);
    BackupGprRuns(base, GPRS, s);
    var t := RunBody(BackupGpr(base, GPRS), s);
    BackupXmmRuns(base, 16, t);
    var u := RunBody(BackupXmm(base, 16), t);
    forall i | 0 <= i < GPRS
      ensures Read64(u.mem, base + 8 * i) == s.core.regs[ORDER[i]]
    {
      assert Read64(t.mem, base + 8 * i) == s.core.regs[ORDER[i]];
    }
    forall j | 0 <= j < 16
      ensures Read64(u.mem, base + XMM_OFFSET + 8 + 16 * j) == Read64(s.mem, base + XMM_OFFSET + 8 + 16 * j)
    {
      Read64Frame(s.mem, t.mem, base + XMM_OFFSET + 8 + 16 * j);
    }
    assert FileAt(u.mem, base).gpr == FileOf(s.core, FileAt(s.mem, base).xhi).gpr;
    assert FileAt(u.mem, base).xlo == s.core.xlo;
    assert FileAt(u.mem, base).xhi == FileAt(s.mem, base).xhi;
  }

  // ---------- restore ----------

  lemma OrderDistinct(n: nat)
    requires n < GPRS
    ensures ORDER[n] != RSP && ORDER[n] != RBP && forall i :: 0 <= i < n ==> ORDER[i] != ORDER[n]
  {
    assert forall i :: 0 <= i < GPRS ==> ORDER[i] == if i < 6 then i else i + 2;
  }

  lemma {:induction false} RestoreGprRuns(base: u64, n: nat, s: State)
    requires base + AREA_SIZE <= TWO64 && n <= GPRS
    ensures var t := RunBody(RestoreGpr(base, n), s);
            && t.mem == s.mem && t.core == s.core.(regs := t.core.regs)
            && (forall i :: 0 <= i < n ==> t.core.regs[ORDER[i]] == Read64(s.mem, base + 8 * i))
            && t.core.Rsp() == s.core.Rsp() && t.core.regs[RBP] == s.core.regs[RBP]
  {
    hide Step, Read64, Write64, ReadN, WriteN;
    if n > 0 {
      hide RunBody, ORDER;
      RestoreGprRuns(base, n - 1, s);
      var last := Load(ORDER[n - 1], Abs(base + 8 * (n - 1)));
      RunConcat(RestoreGpr(base, n - 1), [last], s);
      var t := RunBody(RestoreGpr(base, n - 1), s);
      RunOne(last, t);
      StepLoad(ORDER[n - 1], Abs(base + 8 * (n - 1)), t);
      OrderDistinct(n - 1);
    }
  }

  lemma {:induction false} RestoreXmmRuns(base: u64, n: nat, s: State)
    requires base + AREA_SIZE <= TWO64 && n <= 16
    ensures var t := RunBody(RestoreXmm(base, n), s);
            && t.mem == s.mem && t.core == s.core.(xlo := t.core.xlo, xhi := t.core.xhi)
            && (forall j :: 0 <= j < n ==> t.core.xlo[j] == Read64(s.mem, base + XMM_OFFSET + 16 * j))
            && (forall j :: 0 <= j < n ==> t.core.xhi[j] == 0)
  {
    hide Step, Read64, Write64, ReadN, WriteN;
    if n > 0 {
      hide RunBody;
      RestoreXmmRuns(base, n - 1, s);
      var last := MovqLoad(n - 1, Abs(base + XMM_OFFSET + 16 * (n - 1)));
      RunConcat(RestoreXmm(base, n - 1), [last], s);
      var t := RunBody(RestoreXmm(base, n - 1), s);
      RunOne(last, t);
      StepMovqLoad(n - 1, Abs(base + XMM_OFFSET + 16 * (n - 1)), t);
    }
  }

  /** The fourteen general registers and the low xmm halves of c are those of the file; the high
      xmm halves are cleared, because `movq` zeroes them. */
  ghost predicate Loaded(c: Core, f: File) {
    && (forall i :: 0 <= i < GPRS ==> c.regs[ORDER[i]] == f.gpr[i])
    && c.xlo == f.xlo
    && (forall j :: 0 <= j < 16 ==> c.xhi[j] == 0)
  }

  /** Restore loads the file held by the area; rsp, rbp, the flags and memory are untouched. */
  lemma RestoreRuns(base: u64, s: State)
    requires base + AREA_SIZE <= TWO64
    ensures var t := RunBody(Restore(base), s);
            && t.mem == s.mem && t.core.flags == s.core.flags
            && t.core.Rsp() == s.core.Rsp() && t.core.regs[RBP] == s.core.regs[RBP]
            && Loaded(t.core, FileAt(s.mem, base))
  {
    hide RunBody, Read64, RestoreGpr, RestoreXmm;
    RunConcat(RestoreGpr(base, GPRS), RestoreXmm(base, 16), s);
    RestoreGprRuns(base, GPRS, s);
    RestoreXmmRuns(base, 16, RunBody(RestoreGpr(base, GPRS), s));
    var t := RunBody(Restore(base), s);
    assert t.core.xlo == FileAt(s.mem, base).xlo;
  }

  /** Restore undoes backup on the fourteen registers and the low xmm halves. */
  lemma RestoreUndoesBackup(base: u64, s: State, t: State)
    requires base + AREA_SIZE <= TWO64
    requires forall x :: base <= x < base + AREA_SIZE ==> At(t.mem, x) == At(RunBody(Backup(base), s).mem, x)
    ensures var u := RunBody(Restore(base), t);
            (forall i :: 0 <= i < GPRS ==> u.core.regs[ORDER[i]] == s.core.regs[ORDER[i]]) && u.core.xlo == s.core.xlo
  {
    hide RunBody, Read64, Backup, Restore;
    BackupRuns(base, s);
    RestoreRuns(base, t);
    FileFrame(RunBody(Backup(base), s).mem, t.mem, base);
  }

  /** The struct shows the whole area: two memories hold the same one if and only if they agree on all
      of its bytes. */
  lemma FileIsArea(m: Mem, m': Mem, base: int)
    ensures FileAt(m, base) == FileAt(m', base)
       <==> forall x :: base <= x < base + 0x170 ==> At(m, x) == At(m', x)
  {
    hide Read64;
    if FileAt(m, base) == FileAt(m', base) {
      forall x | base <= x < base + AREA_SIZE ensures At(m, x) == At(m', x) {
        SlotsFillArea(x - base);
        var k := (x - base) / 8;
        SameSlot(m, m', base, k);
        Read64Injective(m, m', base + 8 * k, x);
      }
    }
    if forall x :: base <= x < base + AREA_SIZE ==> At(m, x) == At(m', x) {
      FileFrame(m, m', base);
    }
  }

  lemma Read64Injective(m: Mem, m': Mem, a: int, x: int)
    requires Read64(m, a) == Read64(m', a) && a <= x < a + 8
    ensures At(m, x) == At(m', x)
  {
    ReadInjective(m, m', a, 8, x);
  }

  lemma SameSlot(m: Mem, m': Mem, base: int, k: nat)
    requires FileAt(m, base) == FileAt(m', base) && k < GPRS + 32
    ensures Read64(m, base + 8 * k) == Read64(m', base + 8 * k)
  {
    hide Read64;
    var f, g := FileAt(m, base), FileAt(m', base);
    if k < GPRS {
      assert f.gpr[k] == g.gpr[k];
    } else {
      var j := (k - GPRS) / 2;
      assert f.xlo[j] == g.xlo[j] && f.xhi[j] == g.xhi[j];
      assert 8 * k == XMM_OFFSET + 16 * j || 8 * k == XMM_OFFSET + 8 + 16 * j;
    }
  }

  // ---------- field by field ----------

  /** The general registers in the order of the struct's fields, by name. */
  function Named(c: Core): seq<u64> {
    [c.regs[RAX], c.regs[RBX], c.regs[RCX], c.regs[RDX], c.regs[RDI], c.regs[RSI], c.regs[8], c.regs[9],
     c.regs[10], c.regs[11], c.regs[12], c.regs[13], c.regs[14], c.regs[15]]
  }

  /** The words at the offsets of those fields. */
  function FieldsAt(m: Mem, base: int): seq<u64> {
    [Read64(m, base), Read64(m, base + 0x8), Read64(m, base + 0x10), Read64(m, base + 0x18),
     Read64(m, base + 0x20), Read64(m, base + 0x28), Read64(m, base + 0x30), Read64(m, base + 0x38),
     Read64(m, base + 0x40), Read64(m, base + 0x48), Read64(m, base + 0x50), Read64(m, base + 0x58),
     Read64(m, base + 0x60), Read64(m, base + 0x68)]
  }

  lemma GprByName(c: Core, xhi: seq<u64>)
    requires |xhi| == 16
    ensures FileOf(c, xhi).gpr == Named(c)
  {
  }

  lemma GprByOffset(m: Mem, base: int)
    ensures FileAt(m, base).gpr == FieldsAt(m, base)
  {
    hide Read64;
  }

  /** The area is laid out as the hook's struct: rax at 0x0, rbx at 0x8, rcx at 0x10, rdx at 0x18, rdi at
      0x20, rsi at 0x28, r8 to r15 from 0x30 on, and the low half of xmm register i at 0x70 + 0x10 i. */
  lemma BackupLayout(base: u64, s: State)
    requires base + 0x170 <= TWO64
    ensures var m := RunBody(Backup(base), s).mem;
            && [Read64(m, base), Read64(m, base + 0x8), Read64(m, base + 0x10), Read64(m, base + 0x18),
                Read64(m, base + 0x20), Read64(m, base + 0x28), Read64(m, base + 0x30), Read64(m, base + 0x38),
                Read64(m, base + 0x40), Read64(m, base + 0x48), Read64(m, base + 0x50), Read64(m, base + 0x58),
                Read64(m, base + 0x60), Read64(m, base + 0x68)]
            == [s.core.regs[RAX], s.core.regs[RBX], s.core.regs[RCX], s.core.regs[RDX], s.core.regs[RDI], s.core.regs[RSI],
                s.core.regs[8], s.core.regs[9], s.core.regs[10], s.core.regs[11], s.core.regs[12], s.core.regs[13],
                s.core.regs[14], s.core.regs[15]]
            && forall i: int :: 0 <= i < 16 ==> Read64(m, base + 0x70 + 0x10 * i) == s.core.xlo[i]
    ensures var t := RunBody(Backup(base), s);
            t.core == s.core && forall x :: x < base || base + 0x170 <= x ==> At(t.mem, x) == At(s.mem, x)
  {
    hide RunBody, Read64, Backup, ORDER;
    BackupRuns(base, s);
    var m := RunBody(Backup(base), s).mem;
    var f := FileAt(m, base);
    GprByName(s.core, FileAt(s.mem, base).xhi);
    GprByOffset(m, base);
    assert FieldsAt(m, base) == Named(s.core);
    forall i: int | 0 <= i < 16 ensures Read64(m, base + 0x70 + 0x10 * i) == s.core.xlo[i] {
      assert f.xlo[i] == Read64(m, base + XMM_OFFSET + 16 * i);
    }
  }

  /** Restore reads the same fields. */
  lemma RestoreLayout(base: u64, s: State)
    requires base + 0x170 <= TWO64
    ensures var c := RunBody(Restore(base), s).core;
            && [c.regs[RAX], c.regs[RBX], c.regs[RCX], c.regs[RDX], c.regs[RDI], c.regs[RSI],
                c.regs[8], c.regs[9], c.regs[10], c.regs[11], c.regs[12], c.regs[13],
                c.regs[14], c.regs[15]]
            == [Read64(s.mem, base), Read64(s.mem, base + 0x8), Read64(s.mem, base + 0x10), Read64(s.mem, base + 0x18),
                Read64(s.mem, base + 0x20), Read64(s.mem, base + 0x28), Read64(s.mem, base + 0x30), Read64(s.mem, base + 0x38),
                Read64(s.mem, base + 0x40), Read64(s.mem, base + 0x48), Read64(s.mem, base + 0x50), Read64(s.mem, base + 0x58),
                Read64(s.mem, base + 0x60), Read64(s.mem, base + 0x68)]
            && forall i: int :: 0 <= i < 16 ==> c.xlo[i] == Read64(s.mem, base + 0x70 + 0x10 * i) && c.xhi[i] == 0
  {
    hide RunBody, Read64, Restore, ORDER;
    RestoreRuns(base, s);
    var c, f := RunBody(Restore(base), s).core, FileAt(s.mem, base);
    GprByOffset(s.mem, base);
    LoadedByName(c, f);
    assert Named(c) == FieldsAt(s.mem, base);
    forall i: int | 0 <= i < 16 ensures c.xlo[i] == Read64(s.mem, base + 0x70 + 0x10 * i) && c.xhi[i] == 0 {
      assert f.xlo[i] == Read64(s.mem, base + XMM_OFFSET + 16 * i);
    }
  }

  lemma LoadedByName(c: Core, f: File)
    requires Loaded(c, f)
    ensures Named(c) == f.gpr
  {
    GprByName(c, f.xhi);
    assert FileOf(c, f.xhi).gpr == f.gpr;
  }

  lemma FileFrame(m: Mem, m': Mem, base: int)
    requires forall x :: base <= x < base + AREA_SIZE ==> At(m, x) == At(m', x)
    ensures FileAt(m, base) == FileAt(m', base)
  {
    hide Read64;
    var f, g := FileAt(m, base), FileAt(m', base);
    forall i | 0 <= i < GPRS ensures f.gpr[i] == g.gpr[i] {
      Read64Frame(m, m', base + 8 * i);
    }
    forall j | 0 <= j < 16 ensures f.xlo[j] == g.xlo[j] && f.xhi[j] == g.xhi[j] {
      Read64Frame(m, m', base + XMM_OFFSET + 16 * j);
      Read64Frame(m, m', base + XMM_OFFSET + 8 + 16 * j);
    }
    assert f.gpr == g.gpr && f.xlo == g.xlo && f.xhi == g.xhi;
  }
}
