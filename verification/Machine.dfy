/**
  A small x86-64 semantics: sixteen general registers, the low and high halves of the sixteen
  xmm registers, the six arithmetic flags and byte-addressed little-endian memory.
  Every instruction reads at most one span of memory and writes at most one span.
 */
module Machine {
  import opened Words

  // ---------- memory ----------

  /** Bytes that were never written read as zero. */
  type Mem = map<int, u8>

  function At(m: Mem, a: int): u8 {
    if a in m then m[a] else 0
  }

  datatype Span = Span(addr: int, len: nat)

  predicate In(x: int, sp: Span) {
    sp.addr <= x < sp.addr + sp.len
  }

  predicate Apart(p: Span, q: Span) {
    p.addr + p.len <= q.addr || q.addr + q.len <= p.addr
  }

  /** What a value read from `n` bytes is known to satisfy. */
  predicate Fits(v: nat, n: nat) {
    && (n == 1 ==> v < 0x100)
    && (n == 4 ==> v < TWO32)
    && (n == 8 ==> v < TWO64)
  }

  lemma FitsPow(v: nat, n: nat)
    requires v < Pow(256, n)
    ensures Fits(v, n)
  {
    assert Pow(256, 1) == 256 && Pow(256, 2) == 0x1_0000;
    PowAdd(256, 2, 2);
    PowAdd(256, 4, 4);
  }

  function ReadN(m: Mem, a: int, n: nat): (v: nat)
    ensures v < Pow(256, n) && Fits(v, n)
    decreases n
  {
    if n == 0 then 0
    else
      var v := At(m, a) + 256 * ReadN(m, a + 1, n - 1);
      FitsPow(v, n);
      v
  }

  function WriteN(m: Mem, a: int, n: nat, v: nat): (r: Mem)
    ensures forall x :: !(a <= x < a + n) ==> At(r, x) == At(m, x)
    decreases n
  {
    if n == 0 then m else WriteN(m[a := v % 256], a + 1, n - 1, v / 256)
  }

  lemma {:induction false} ReadFrame(m: Mem, m': Mem, a: int, n: nat)
    requires forall x :: a <= x < a + n ==> At(m, x) == At(m', x)
    ensures ReadN(m, a, n) == ReadN(m', a, n)
    decreases n
  {
    if n > 0 {
      ReadFrame(m, m', a + 1, n - 1);
    }
  }

  lemma {:induction false} ReadWrite(m: Mem, a: int, n: nat, v: nat)
    requires v < Pow(256, n)
    ensures ReadN(WriteN(m, a, n, v), a, n) == v
    decreases n
  {
    if n > 0 {
      assert Pow(256, n) == 256 * Pow(256, n - 1);
      ReadWrite(m[a := v % 256], a + 1, n - 1, v / 256);
    }
  }

  /** A value determines the bytes it was read from. */
  lemma {:induction false} ReadInjective(m: Mem, m': Mem, a: int, n: nat, x: int)
    requires ReadN(m, a, n) == ReadN(m', a, n) && a <= x < a + n
    ensures At(m, x) == At(m', x)
    decreases n
  {
    var p, q: int := ReadN(m, a + 1, n - 1), ReadN(m', a + 1, n - 1);
    assert At(m, a) - At(m', a) == 256 * (q - p);
    if x > a {
      ReadInjective(m, m', a + 1, n - 1, x);
    }
  }

  /** A write stores the low bytes of the value, whatever was there before. */
  lemma {:induction false} WriteSame(m: Mem, m': Mem, a: int, n: nat, v: nat, x: int)
    requires a <= x < a + n || At(m, x) == At(m', x)
    ensures At(WriteN(m, a, n, v), x) == At(WriteN(m', a, n, v), x)
    decreases n
  {
    if n > 0 {
      WriteSame(m[a := v % 256], m'[a := v % 256], a + 1, n - 1, v / 256, x);
    }
  }

  function Read64(m: Mem, a: int): (v: u64) {
    ReadN(m, a, 8)
  }

  lemma Read64Frame(m: Mem, m': Mem, a: int)
    requires forall x :: a <= x < a + 8 ==> At(m, x) == At(m', x)
    ensures Read64(m, a) == Read64(m', a)
  {
    ReadFrame(m, m', a, 8);
  }

  /** Little-endian, byte by byte. */
  lemma Read64Bytes(m: Mem, a: int)
    ensures Read64(m, a)
         == At(m, a) + 0x100 * (At(m, a + 1) + 0x100 * (At(m, a + 2) + 0x100 * (At(m, a + 3)
            + 0x100 * (At(m, a + 4) + 0x100 * (At(m, a + 5) + 0x100 * (At(m, a + 6) + 0x100 * At(m, a + 7)))))))
  {
    assert ReadN(m, a + 8, 0) == 0;
  }

  function Write64(m: Mem, a: int, v: u64): (r: Mem)
    ensures Read64(r, a) == v
    ensures forall x :: !(a <= x < a + 8) ==> At(r, x) == At(m, x)
    ensures forall b {:trigger Read64(r, b)} :: b + 8 <= a || a + 8 <= b ==> Read64(r, b) == Read64(m, b)
  {
    var r := WriteN(m, a, 8, v);
    Pow256At8();
    ReadWrite(m, a, 8, v);
    assert forall b {:trigger Read64(r, b)} :: b + 8 <= a || a + 8 <= b ==> Read64(r, b) == Read64(m, b) by {
      forall b | b + 8 <= a || a + 8 <= b ensures Read64(r, b) == Read64(m, b) {
        ReadFrame(r, m, b, 8);
      }
    }
    r
  }

  lemma Pow256At8()
    ensures Pow(256, 8) == TWO64
  {
    assert Pow(256, 2) == 0x1_0000;
    PowAdd(256, 2, 2);
    PowAdd(256, 4, 4);
  }

  // ---------- processor state ----------

  type Reg = r: int | 0 <= r < 16
  const RAX: Reg := 0
  const RBX: Reg := 1
  const RCX: Reg := 2
  const RDX: Reg := 3
  const RDI: Reg := 4
  const RSI: Reg := 5
  const RSP: Reg := 6
  const RBP: Reg := 7
  // r8 to r15 are their own numbers.

  type Regs = s: seq<u64> | |s| == 16 witness [0, 0, 0, 0, 0, 0, 0, 0, 0, 0, 0, 0, 0, 0, 0, 0]

  datatype Flags = Flags(cf: bool, pf: bool, af: bool, zf: bool, sf: bool, of: bool)

  /** `rest` is everything else in the processor, such as the direction flag, segment bases, x87 and
      wider vector state; only instructions of the program itself see it. */
  datatype Core = Core(regs: Regs, flags: Flags, xlo: Regs, xhi: Regs, rest: nat)
  {
    function Rsp(): u64 { regs[RSP] }
    function Set(r: Reg, v: u64): Core { this.(regs := regs[r := v]) }
  }

  datatype State = State(core: Core, mem: Mem)

  // ---------- flags ----------

  function Bit(b: bool): (r: int) { if b then 1 else 0 }

  function OddOnes(v: nat): bool {
    if v == 0 then false else (v % 2 == 1) != OddOnes(v / 2)
  }

  /** Flags of a + b + carry on words below `m`; `m` is twice the sign bit. */
  function AddFlags(a: nat, b: nat, carry: nat, m: nat): Flags
    requires m > 0
  {
    var r := (a + b + carry) % m;
    Flags(a + b + carry >= m, !OddOnes(r % 256), a % 16 + b % 16 + carry >= 16, r == 0, 2 * r >= m,
          (2 * a >= m) == (2 * b >= m) && (2 * r >= m) != (2 * a >= m))
  }

  function SubFlags(a: nat, b: nat, m: nat): Flags
    requires m > 0
  {
    var r := (a - b) % m;
    Flags(a < b, !OddOnes(r % 256), a % 16 < b % 16, r == 0, 2 * r >= m,
          (2 * a >= m) != (2 * b >= m) && (2 * r >= m) != (2 * a >= m))
  }

  /** `and`, `xor` and `test`; the adjust flag they leave undefined is taken as clear. */
  function LogicFlags(r: nat, m: nat): Flags {
    Flags(false, !OddOnes(r % 256), false, r == 0, 2 * r >= m, false)
  }

  /** A word read as a two's complement number; `m` is twice the sign bit. */
  function Signed(a: nat, m: nat): int {
    if 2 * a >= m then a - m else a
  }

  lemma ModOnce(x: int, m: int)
    requires m > 0 && -m <= x < 2 * m
    ensures x % m == if x < 0 then x + m else if x >= m then x - m else x
  {
    var q := x / m;
    assert x == m * q + x % m;
    assert q >= 2 ==> m * q >= 2 * m;
    assert q <= -2 ==> m * q <= -2 * m;
  }

  /** What the flags of a sum say: carry is unsigned overflow, overflow is signed overflow. */
  lemma AddFlagsMeaning(a: nat, b: nat, carry: nat, m: nat)
    requires m > 0 && m % 2 == 0 && a < m && b < m && carry <= 1
    ensures var f := AddFlags(a, b, carry, m);
            var r := (a + b + carry) % m;
            && (f.cf <==> a + b + carry != r) && (f.zf <==> r == 0) && (f.sf <==> Signed(r, m) < 0)
            && (f.of <==> Signed(a, m) + Signed(b, m) + carry != Signed(r, m))
  {
    hide OddOnes;
    ModOnce(a + b + carry, m);
  }

  lemma SubFlagsMeaning(a: nat, b: nat, m: nat)
    requires m > 0 && m % 2 == 0 && a < m && b < m
    ensures var f := SubFlags(a, b, m);
            var r := (a - b) % m;
            && (f.cf <==> a - b != r) && (f.zf <==> r == 0) && (f.sf <==> Signed(r, m) < 0)
            && (f.of <==> Signed(a, m) - Signed(b, m) != Signed(r, m))
  {
    hide OddOnes;
    ModOnce(a - b, m);
  }

  /** The byte `lahf` puts in ah: SF:ZF:0:AF:0:PF:1:CF. */
  function LowFlags(f: Flags): (b: u8) {
    Bit(f.cf) + 2 + 4 * Bit(f.pf) + 16 * Bit(f.af) + 64 * Bit(f.zf) + 128 * Bit(f.sf)
  }

  function FromLowFlags(b: u8, of: bool): Flags {
    Flags(b % 2 == 1, b / 4 % 2 == 1, b / 16 % 2 == 1, b / 64 % 2 == 1, b / 128 % 2 == 1, of)
  }

  lemma LowFlagsRoundTrip(f: Flags)
    ensures FromLowFlags(LowFlags(f), f.of) == f
    ensures var b := LowFlags(f);
            && (b % 2 == 1 <==> f.cf) && (b / 4 % 2 == 1 <==> f.pf) && (b / 16 % 2 == 1 <==> f.af)
            && (b / 64 % 2 == 1 <==> f.zf) && (b / 128 == 1 <==> f.sf)
  {
    var c, p, a, z, s := Bit(f.cf), Bit(f.pf), Bit(f.af), Bit(f.zf), Bit(f.sf);
    var b: int := LowFlags(f);
    assert b == 2 * (1 + 2 * p + 8 * a + 32 * z + 64 * s) + c;
    assert b / 4 == p + 4 * a + 16 * z + 32 * s;
    assert b / 16 == a + 4 * z + 8 * s;
    assert b / 64 == z + 2 * s;
    assert b / 128 == s;
  }

  /** The six flags as `pushfq` stores them; the other bits are not modelled. */
  function FlagWord(f: Flags): (v: u64) {
    LowFlags(f) + 2048 * Bit(f.of)
  }

  function FromFlagWord(v: u64): Flags {
    FromLowFlags(v % 256, v / 2048 % 2 == 1)
  }

  // ---------- instructions ----------

  datatype Addr =
    | Abs(a: u64)
    | Disp(base: Reg, d: int)
    | Index(b: Reg, i: Reg)

  predicate ValidAddr(ad: Addr) {
    ad.Disp? ==> -TWO32 <= ad.d <= TWO32
  }

  type Address = ad: Addr | ValidAddr(ad) witness Abs(0)

  function EA(ad: Address, c: Core): u64 {
    match ad
    case Abs(a) => a
    case Disp(b, d) => Plus(c.regs[b], d)
    case Index(b, i) => Plus(c.regs[b], c.regs[i])
  }

  datatype Effect = Effect(core: Core, wr: Span, val: nat)

  datatype Instr =
    | MovRI(dst: Reg, imm: u64)
    | MovRR(dst: Reg, src: Reg)
    | Load(dst: Reg, m: Address)
    | Store(m: Address, src: Reg)
    | Load32(dst: Reg, m: Address)
    | Movzx8(dst: Reg, m: Address)
    | Lea(dst: Reg, m: Address)
    | Push(src: Reg)
    | Pop(dst: Reg)
    | Pushfq
    | Popfq
    | AddRI(dst: Reg, imm: u64)
    | SubRI(dst: Reg, imm: u64)
    | AndAlign16(dst: Reg)
    | XorRM(dst: Reg, m: Address)
    | XorMR(m: Address, src: Reg)
    | Shr1M(m: Address)
    | Inc8M(m: Address)
    | Adc8M(m: Address, imm8: u8)
    | AddAl(imm8: u8)
    | Lahf
    | Sahf
    | SetoAl
    | TestAl
    | TestEax
    | MovqStore(m: Address, x: Reg)
    | MovqLoad(x: Reg, m: Address)
      /** Any other instruction: it reads one span chosen from the registers and then changes
          registers, flags and one span of memory as a function of what it saw. */
    | Other(rd: Core -> Span, act: (Core, nat) -> Effect)

  const NOWHERE := Span(0, 0)

  function Rd(i: Instr, c: Core): Span {
    match i
    case Load(_, m) => Span(EA(m, c), 8)
    case Load32(_, m) => Span(EA(m, c), 4)
    case Movzx8(_, m) => Span(EA(m, c), 1)
    case Pop(_) => Span(c.Rsp(), 8)
    case Popfq => Span(c.Rsp(), 8)
    case XorRM(_, m) => Span(EA(m, c), 8)
    case XorMR(m, _) => Span(EA(m, c), 8)
    case Shr1M(m) => Span(EA(m, c), 8)
    case Inc8M(m) => Span(EA(m, c), 1)
    case Adc8M(m, _) => Span(EA(m, c), 1)
    case MovqLoad(_, m) => Span(EA(m, c), 8)
    case Other(rd, _) => rd(c)
    case _ => NOWHERE
  }

  function Al(c: Core): u8 { c.regs[RAX] % 256 }

  function Ah(c: Core): u8 { c.regs[RAX] / 256 % 256 }

  function SetAl(c: Core, v: u8): Core {
    c.Set(RAX, c.regs[RAX] / 256 * 256 + v)
  }

  function SetAh(c: Core, v: u8): Core {
    c.Set(RAX, c.regs[RAX] / 65536 * 65536 + v * 256 + c.regs[RAX] % 256)
  }

  lemma ByteParts(q: nat, h: u8, l: u8)
    ensures (q * 65536 + h * 256 + l) % 256 == l
    ensures (q * 65536 + h * 256 + l) / 256 % 256 == h
  {
    var x := q * 65536 + h * 256 + l;
    assert x == 256 * (256 * q + h) + l;
    assert x / 256 == 256 * q + h;
  }

  lemma SetAhParts(c: Core, v: u8)
    ensures Ah(SetAh(c, v)) == v && Al(SetAh(c, v)) == Al(c)
  {
    ByteParts(c.regs[RAX] / 65536, v, c.regs[RAX] % 256);
  }

  lemma SetAlParts(c: Core, v: u8)
    ensures Al(SetAl(c, v)) == v && Ah(SetAl(c, v)) == Ah(c)
  {
    var x := c.regs[RAX];
    assert x / 256 * 256 == x / 65536 * 65536 + Ah(c) * 256;
    ByteParts(x / 65536, Ah(c), v);
  }

  /** Registers, flags and the memory write of one instruction, given the value it read. */
  function Exec(i: Instr, c: Core, v: nat): Effect
    requires Fits(v, Rd(i, c).len)
  {
    match i
    case MovRI(d, imm) => Effect(c.Set(d, imm), NOWHERE, 0)
    case MovRR(d, s) => Effect(c.Set(d, c.regs[s]), NOWHERE, 0)
    case Load(d, _) => Effect(c.Set(d, v), NOWHERE, 0)
    case Store(m, s) => Effect(c, Span(EA(m, c), 8), c.regs[s])
    case Load32(d, _) => Effect(c.Set(d, v), NOWHERE, 0)
    case Movzx8(d, _) => Effect(c.Set(d, v), NOWHERE, 0)
    case Lea(d, m) => Effect(c.Set(d, EA(m, c)), NOWHERE, 0)
    case Push(s) =>
      var sp := Minus(c.Rsp(), 8);
      Effect(c.Set(RSP, sp), Span(sp, 8), c.regs[s])
    case Pop(d) => Effect(c.Set(RSP, Plus(c.Rsp(), 8)).Set(d, v), NOWHERE, 0)
    case Pushfq =>
      var sp := Minus(c.Rsp(), 8);
      Effect(c.Set(RSP, sp), Span(sp, 8), FlagWord(c.flags))
    case Popfq => Effect(c.Set(RSP, Plus(c.Rsp(), 8)).(flags := FromFlagWord(v)), NOWHERE, 0)
    case AddRI(d, imm) =>
      Effect(c.Set(d, Plus(c.regs[d], imm)).(flags := AddFlags(c.regs[d], imm, 0, TWO64)), NOWHERE, 0)
    case SubRI(d, imm) =>
      Effect(c.Set(d, Minus(c.regs[d], imm)).(flags := SubFlags(c.regs[d], imm, TWO64)), NOWHERE, 0)
    case AndAlign16(d) =>
      var r := c.regs[d] - c.regs[d] % 16;
      Effect(c.Set(d, r).(flags := LogicFlags(r, TWO64)), NOWHERE, 0)
    case XorRM(d, _) =>
      var r := Xor64(c.regs[d], v);
      Effect(c.Set(d, r).(flags := LogicFlags(r, TWO64)), NOWHERE, 0)
    case XorMR(m, s) =>
      var r := Xor64(v, c.regs[s]);
      Effect(c.(flags := LogicFlags(r, TWO64)), Span(EA(m, c), 8), r)
    case Shr1M(m) =>
      var r := v / 2;
      Effect(c.(flags := Flags(v % 2 == 1, !OddOnes(r % 256), false, r == 0, false, 2 * v >= TWO64)),
             Span(EA(m, c), 8), r)
    case Inc8M(m) => // the carry flag is not written
      Effect(c.(flags := AddFlags(v, 1, 0, 256).(cf := c.flags.cf)), Span(EA(m, c), 1), v + 1)
    case Adc8M(m, imm8) =>
      Effect(c.(flags := AddFlags(v, imm8, Bit(c.flags.cf), 256)), Span(EA(m, c), 1), v + imm8 + Bit(c.flags.cf))
    case AddAl(imm8) =>
      Effect(SetAl(c, (Al(c) + imm8) % 256).(flags := AddFlags(Al(c), imm8, 0, 256)), NOWHERE, 0)
    case Lahf => Effect(SetAh(c, LowFlags(c.flags)), NOWHERE, 0)
    case Sahf => Effect(c.(flags := FromLowFlags(Ah(c), c.flags.of)), NOWHERE, 0)
    case SetoAl => Effect(SetAl(c, Bit(c.flags.of)), NOWHERE, 0)
    case TestAl => Effect(c.(flags := LogicFlags(Al(c), 256)), NOWHERE, 0)
    case TestEax => Effect(c.(flags := LogicFlags(c.regs[RAX] % TWO32, TWO32)), NOWHERE, 0)
    case MovqStore(m, x) => Effect(c, Span(EA(m, c), 8), c.xlo[x])
    case MovqLoad(x, _) => Effect(c.(xlo := c.xlo[x := v], xhi := c.xhi[x := 0]), NOWHERE, 0)
    case Other(_, act) => act(c, v)
  }

  function Outcome(i: Instr, s: State): Effect {
    var rd := Rd(i, s.core);
    Exec(i, s.core, ReadN(s.mem, rd.addr, rd.len))
  }

  function Step(i: Instr, s: State): State {
    var e := Outcome(i, s);
    State(e.core, WriteN(s.mem, e.wr.addr, e.wr.len, e.val))
  }

  /** Straight-line execution from position `k` of `code`. */
  function RunFrom(code: seq<Instr>, k: nat, s: State): State
    decreases |code| - k
  {
    if k >= |code| then s else RunFrom(code, k + 1, Step(code[k], s))
  }

  function RunBody(code: seq<Instr>, s: State): State {
    RunFrom(code, 0, s)
  }

  lemma {:induction false} RunShift(a: seq<Instr>, b: seq<Instr>, k: nat, s: State)
    requires k <= |b|
    ensures RunFrom(a + b, |a| + k, s) == RunFrom(b, k, s)
    decreases |b| - k
  {
    if k < |b| {
      assert (a + b)[|a| + k] == b[k];
      RunShift(a, b, k + 1, Step(b[k], s));
    }
  }

  lemma {:induction false} RunConcatFrom(a: seq<Instr>, b: seq<Instr>, k: nat, s: State)
    requires k <= |a|
    ensures RunFrom(a + b, k, s) == RunBody(b, RunFrom(a, k, s))
    decreases |a| - k
  {
    if k == |a| {
      RunShift(a, b, 0, s);
    } else {
      assert (a + b)[k] == a[k];
      RunConcatFrom(a, b, k + 1, Step(a[k], s));
    }
  }

  lemma RunConcat(a: seq<Instr>, b: seq<Instr>, s: State)
    ensures RunBody(a + b, s) == RunBody(b, RunBody(a, s))
  {
    RunConcatFrom(a, b, 0, s);
  }

  /** What `call` does to the stack: the return address is pushed. */
  function Called(s: State, ret: u64): State {
    var sp := Minus(s.core.Rsp(), 8);
    State(s.core.Set(RSP, sp), Write64(s.mem, sp, ret))
  }

  // ---------- one-step facts used on emitted code ----------

  lemma OneByte(m: Mem, a: int, v: nat)
    ensures ReadN(m, a, 1) == At(m, a)
    ensures WriteN(m, a, 1, v) == m[a := v % 256]
  {
    assert ReadN(m, a + 1, 0) == 0;
  }

  /** An instruction that writes no memory leaves it alone. */
  lemma StepQuiet(i: Instr, s: State)
    requires Outcome(i, s).wr.len == 0
    ensures Step(i, s) == State(Outcome(i, s).core, s.mem)
  {
  }

  lemma StepLea(r: Reg, m: Address, s: State)
    ensures Step(Lea(r, m), s) == State(s.core.Set(r, EA(m, s.core)), s.mem)
  {
  }

  lemma StepMovRI(r: Reg, imm: u64, s: State)
    ensures Step(MovRI(r, imm), s) == State(s.core.Set(r, imm), s.mem)
  {
  }

  lemma StepStore(m: Address, r: Reg, s: State)
    ensures Step(Store(m, r), s) == State(s.core, Write64(s.mem, EA(m, s.core), s.core.regs[r]))
  {
  }

  lemma StepLoad(r: Reg, m: Address, s: State)
    ensures Step(Load(r, m), s) == State(s.core.Set(r, Read64(s.mem, EA(m, s.core))), s.mem)
  {
  }

  lemma StepPush(r: Reg, s: State)
    ensures Step(Push(r), s)
         == State(s.core.Set(RSP, Minus(s.core.Rsp(), 8)), Write64(s.mem, Minus(s.core.Rsp(), 8), s.core.regs[r]))
  {
  }

  lemma StepPop(r: Reg, s: State)
    ensures Step(Pop(r), s)
         == State(s.core.Set(RSP, Plus(s.core.Rsp(), 8)).Set(r, Read64(s.mem, s.core.Rsp())), s.mem)
  {
  }

  lemma StepPushfq(s: State)
    ensures Step(Pushfq, s)
         == State(s.core.Set(RSP, Minus(s.core.Rsp(), 8)),
                  Write64(s.mem, Minus(s.core.Rsp(), 8), FlagWord(s.core.flags)))
  {
    hide ReadN, WriteN, FlagWord;
  }

  lemma StepPopfq(s: State)
    ensures Step(Popfq, s)
         == State(s.core.Set(RSP, Plus(s.core.Rsp(), 8)).(flags := FromFlagWord(Read64(s.mem, s.core.Rsp()))), s.mem)
  {
  }

  lemma StepLoad32(r: Reg, m: Address, s: State)
    ensures Step(Load32(r, m), s) == State(s.core.Set(r, ReadN(s.mem, EA(m, s.core), 4)), s.mem)
  {
  }

  lemma StepMovqStore(m: Address, x: Reg, s: State)
    ensures Step(MovqStore(m, x), s) == State(s.core, Write64(s.mem, EA(m, s.core), s.core.xlo[x]))
  {
    hide ReadN, WriteN, EA;
  }

  lemma StepMovqLoad(x: Reg, m: Address, s: State)
    ensures Step(MovqLoad(x, m), s)
         == State(s.core.(xlo := s.core.xlo[x := Read64(s.mem, EA(m, s.core))], xhi := s.core.xhi[x := 0]), s.mem)
  {
  }

  lemma StepInc8(m: Address, s: State)
    ensures var a := EA(m, s.core);
            var v := At(s.mem, a);
            Step(Inc8M(m), s)
            == State(s.core.(flags := AddFlags(v, 1, 0, 256).(cf := s.core.flags.cf)), s.mem[a := (v + 1) % 256])
  {
    hide AddFlags, ReadN, WriteN, EA;
    var a := EA(m, s.core);
    OneByte(s.mem, a, At(s.mem, a) + 1);
  }

  lemma StepAdc8(m: Address, imm8: u8, s: State)
    ensures var a := EA(m, s.core);
            var v := At(s.mem, a);
            var cf := Bit(s.core.flags.cf);
            Step(Adc8M(m, imm8), s)
            == State(s.core.(flags := AddFlags(v, imm8, cf, 256)), s.mem[a := (v + imm8 + cf) % 256])
  {
    hide AddFlags, ReadN, WriteN, EA;
    var a := EA(m, s.core);
    OneByte(s.mem, a, At(s.mem, a) + imm8 + Bit(s.core.flags.cf));
  }

  lemma StepXorRM(r: Reg, m: Address, s: State)
    ensures var v := Xor64(s.core.regs[r], Read64(s.mem, EA(m, s.core)));
            Step(XorRM(r, m), s) == State(s.core.Set(r, v).(flags := LogicFlags(v, TWO64)), s.mem)
  {
  }

  lemma StepXorMR(m: Address, r: Reg, s: State)
    ensures var a := EA(m, s.core);
            var v := Xor64(Read64(s.mem, a), s.core.regs[r]);
            Step(XorMR(m, r), s) == State(s.core.(flags := LogicFlags(v, TWO64)), Write64(s.mem, a, v))
  {
  }

  lemma StepShr1(m: Address, s: State)
    ensures var a := EA(m, s.core);
            var v := Read64(s.mem, a);
            Step(Shr1M(m), s).mem == Write64(s.mem, a, v / 2)
    ensures var v := Read64(s.mem, EA(m, s.core));
            exists f: Flags {:trigger s.core.(flags := f)} ::
              f.cf == (v % 2 == 1) && Step(Shr1M(m), s).core == s.core.(flags := f)
  {
    hide ReadN, WriteN, EA, OddOnes;
    var f := Step(Shr1M(m), s).core.flags;
    assert Step(Shr1M(m), s).core == s.core.(flags := f);
  }

  // A run is known once each of its steps is.

  lemma Chain1(code: seq<Instr>, s0: State, s1: State)
    requires |code| == 1 && Step(code[0], s0) == s1
    ensures RunBody(code, s0) == s1
  {
    assert RunFrom(code, 1, s1) == s1;
  }

  lemma RunOne(i: Instr, s: State)
    ensures RunBody([i], s) == Step(i, s)
  {
    Chain1([i], s, Step(i, s));
  }

  lemma Chain2(code: seq<Instr>, s0: State, s1: State, s2: State)
    requires |code| == 2 && Step(code[0], s0) == s1 && Step(code[1], s1) == s2
    ensures RunBody(code, s0) == s2
  {
    assert RunFrom(code, 2, s2) == s2;
    assert RunFrom(code, 1, s1) == s2;
  }

  lemma Chain3(code: seq<Instr>, s0: State, s1: State, s2: State, s3: State)
    requires |code| == 3 && Step(code[0], s0) == s1 && Step(code[1], s1) == s2 && Step(code[2], s2) == s3
    ensures RunBody(code, s0) == s3
  {
    hide Step;
    assert RunFrom(code, 3, s3) == s3;
    assert RunFrom(code, 2, s2) == s3;
    assert RunFrom(code, 1, s1) == s3;
  }

  lemma Chain4(code: seq<Instr>, s0: State, s1: State, s2: State, s3: State, s4: State)
    requires |code| == 4 && Step(code[0], s0) == s1 && Step(code[1], s1) == s2
    requires Step(code[2], s2) == s3 && Step(code[3], s3) == s4
    ensures RunBody(code, s0) == s4
  {
    hide Step;
    assert RunFrom(code, 4, s4) == s4;
    assert RunFrom(code, 3, s3) == s4;
    assert RunFrom(code, 2, s2) == s4;
    assert RunFrom(code, 1, s1) == s4;
  }

  lemma Chain5(code: seq<Instr>, s0: State, s1: State, s2: State, s3: State, s4: State, s5: State)
    requires |code| == 5 && Step(code[0], s0) == s1 && Step(code[1], s1) == s2
    requires Step(code[2], s2) == s3 && Step(code[3], s3) == s4 && Step(code[4], s4) == s5
    ensures RunBody(code, s0) == s5
  {
    hide Step;
    assert RunFrom(code, 5, s5) == s5;
    assert RunFrom(code, 4, s4) == s5;
    assert RunFrom(code, 3, s3) == s5;
    assert RunFrom(code, 2, s2) == s5;
    assert RunFrom(code, 1, s1) == s5;
  }
}
