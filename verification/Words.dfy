/** Fixed-width unsigned words and bitwise exclusive-or on natural numbers. */
module Words {

  const TWO64: int := 0x1_0000_0000_0000_0000
  const TWO32: int := 0x1_0000_0000

  type u8 = x: int | 0 <= x < 0x100
  type u16 = x: int | 0 <= x < 0x1_0000
  type u32 = x: int | 0 <= x < 0x1_0000_0000
  type u64 = x: int | 0 <= x < 0x1_0000_0000_0000_0000

  /** 64-bit sum, wrapping around in either direction. */
  function Plus(a: u64, d: int): (r: u64)
    requires -TWO64 <= d < TWO64
  {
    var x: int := a;
    if x + d < 0 then x + d + TWO64 else if x + d >= TWO64 then x + d - TWO64 else x + d
  }

  function Minus(a: u64, d: u64): (r: u64)
  {
    var x: int := a;
    if x < d then x - d + TWO64 else x - d
  }

  function Pow(b: nat, e: nat): (r: nat)
    ensures b > 0 ==> r > 0
  {
    if e == 0 then 1 else b * Pow(b, e - 1)
  }

  lemma {:induction false} PowAdd(b: nat, m: nat, n: nat)
    ensures Pow(b, m + n) == Pow(b, m) * Pow(b, n)
  {
    if m > 0 {
      PowAdd(b, m - 1, n);
      assert Pow(b, m + n) == b * Pow(b, m - 1 + n);
      MulAssoc(b, Pow(b, m - 1), Pow(b, n));
    }
  }

  lemma MulAssoc(a: nat, b: nat, c: nat)
    ensures a * (b * c) == (a * b) * c
  {
  }

  lemma Pow2Values()
    ensures Pow(2, 16) == 0x1_0000 && Pow(2, 64) == TWO64
  {
    assert Pow(2, 4) == 16;
    PowAdd(2, 4, 4);
    PowAdd(2, 8, 8);
    PowAdd(2, 16, 16);
    PowAdd(2, 32, 32);
  }

  lemma PlusIsModular(a: u64, d: int)
    requires -TWO64 <= d < TWO64
    ensures Plus(a, d) == (a + d) % 0x1_0000_0000_0000_0000
  {
    var x: int := a;
    assert x + d < 0 ==> (x + d) % TWO64 == x + d + TWO64;
    assert x + d >= TWO64 ==> (x + d) % TWO64 == x + d - TWO64;
  }

  lemma MinusIsModular(a: u64, d: u64)
    ensures Minus(a, d) == (a - d) % 0x1_0000_0000_0000_0000
  {
    var x: int := a;
    assert x < d ==> (x - d) % TWO64 == x - d + TWO64;
  }

  /** Bitwise exclusive-or, least significant bit first. */
  function Xor(a: nat, b: nat): (r: nat)
    decreases a + b
  {
    if a == 0 && b == 0 then 0
    else (a % 2 + b % 2) % 2 + 2 * Xor(a / 2, b / 2)
  }

  lemma {:induction false} XorBound(a: nat, b: nat, w: nat)
    requires a < Pow(2, w) && b < Pow(2, w)
    ensures Xor(a, b) < Pow(2, w)
    decreases w
  {
    if w > 0 {
      XorBound(a / 2, b / 2, w - 1);
    }
  }

  lemma XorParts(a: nat, b: nat)
    ensures Xor(a, b) % 2 == (a % 2 + b % 2) % 2
    ensures Xor(a, b) / 2 == Xor(a / 2, b / 2)
  {
  }

  predicate BitAt(x: nat, i: nat) {
    if i == 0 then x % 2 == 1 else BitAt(x / 2, i - 1)
  }

  /** Bit by bit. */
  lemma {:induction false} XorBits(a: nat, b: nat, i: nat)
    ensures BitAt(Xor(a, b), i) <==> BitAt(a, i) != BitAt(b, i)
    decreases i
  {
    XorParts(a, b);
    if i > 0 {
      XorBits(a / 2, b / 2, i - 1);
    }
  }

  lemma BitCancels(p: nat, x: nat)
    requires p < 2 && x < 2
    ensures (p + (x + p) % 2) % 2 == x
  {
  }

  /** `xor p, x` after `xor x, p` leaves the old value of x in p. */
  lemma {:induction false} XorCancels(p: nat, x: nat)
    ensures Xor(p, Xor(x, p)) == x
    decreases p + x
  {
    if p != 0 || x != 0 {
      var y := Xor(x, p);
      XorParts(x, p);
      XorParts(p, y);
      XorCancels(p / 2, x / 2);
      var z := Xor(p, y);
      BitCancels(p % 2, x % 2);
      assert z == 2 * (z / 2) + z % 2 && x == 2 * (x / 2) + x % 2;
    }
  }

  lemma XorBound16(a: nat, b: nat)
    requires a < 0x1_0000 && b < 0x1_0000
    ensures Xor(a, b) < 0x1_0000
  {
    Pow2Values();
    XorBound(a, b, 16);
  }

  lemma XorBound64(a: nat, b: nat)
    requires a < TWO64 && b < TWO64
    ensures Xor(a, b) < TWO64
  {
    Pow2Values();
    XorBound(a, b, 64);
  }

  function Xor64(a: u64, b: u64): u64 {
    XorBound64(a, b);
    Xor(a, b)
  }
}
