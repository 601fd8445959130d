/**
 Fixed-width machine integers and the bit operations of 64-bit words.

 A word is a `uint64`; shifts, or, and are defined on its binary digits, with the
 overflow of a left shift cut off at 64 bits. `Bit(w, i)` reads digit `i`, and the
 lemmas say what each operation does to single digits.
 */
module Words {

  type uint8 = x: int | 0 <= x < 0x100
  type uint16 = x: int | 0 <= x < 0x1_0000
  type uint32 = x: int | 0 <= x < 0x1_0000_0000
  type uint64 = x: int | 0 <= x < 0x1_0000_0000_0000_0000

  const TWO_32: int := 0x1_0000_0000
  const TWO_64: int := 0x1_0000_0000_0000_0000

  function Pow2(k: nat): (r: nat)
    ensures r > 0
  {
    if k == 0 then 1 else 2 * Pow2(k - 1)
  }

  predicate Bit(w: nat, i: nat)
    decreases i
  {
    if i == 0 then w % 2 == 1 else Bit(w / 2, i - 1)
  }

  /** w << b, keeping the low 64 digits. */
  function Shl(w: uint64, b: nat): uint64 {
    if b == 0 then w else 2 * Shl(w, b - 1) % TWO_64
  }

  /** w >> b. */
  function Shr(w: uint64, b: nat): uint64 {
    if b == 0 then w else Shr(w, b - 1) / 2
  }

  function OrDigits(v: nat, w: nat): nat
    decreases v + w
  {
    if v == 0 then w
    else if w == 0 then v
    else (if v % 2 == 1 || w % 2 == 1 then 1 else 0) + 2 * OrDigits(v / 2, w / 2)
  }

  function AndDigits(v: nat, w: nat): nat
    decreases v + w
  {
    if v == 0 || w == 0 then 0
    else (if v % 2 == 1 && w % 2 == 1 then 1 else 0) + 2 * AndDigits(v / 2, w / 2)
  }

  /** v | w. */
  function Or(v: uint64, w: uint64): uint64 {
    Pow2Of64();
    OrBelow(v, w, 64);
    OrDigits(v, w)
  }

  lemma {:induction false} Pow2Add(a: nat, b: nat)
    ensures Pow2(a + b) == Pow2(a) * Pow2(b)
  {
    if a == 0 {
    } else {
      Pow2Add(a - 1, b);
    }
  }

  lemma Pow2Of64()
    ensures Pow2(64) == TWO_64
  {
    assert Pow2(4) == 16;
    Pow2Add(4, 4);
    Pow2Add(8, 8);
    assert Pow2(16) == 0x1_0000;
    Pow2Add(16, 16);
    Pow2Add(32, 32);
  }

  lemma {:induction false} OrBelow(v: nat, w: nat, k: nat)
    requires v < Pow2(k) && w < Pow2(k)
    ensures OrDigits(v, w) < Pow2(k)
    decreases k
  {
    if k == 0 {
    } else {
      OrBelow(v / 2, w / 2, k - 1);
    }
  }

  lemma {:induction false} ZeroBit(i: nat)
    ensures !Bit(0, i)
  {
    if i == 0 {
    } else {
      ZeroBit(i - 1);
    }
  }

  lemma {:induction false} BitBelow(w: nat, k: nat, i: nat)
    requires w < Pow2(k) && i >= k
    ensures !Bit(w, i)
    decreases k
  {
    if k == 0 {
      ZeroBit(i);
    } else {
      BitBelow(w / 2, k - 1, i - 1);
    }
  }

  lemma HalfMod(w: nat, k: nat)
    requires k > 0
    ensures w % Pow2(k) % 2 == w % 2
    ensures w % Pow2(k) / 2 == w / 2 % Pow2(k - 1)
  {
    var m := Pow2(k - 1);
    var q, r := w / 2 / m, w / 2 % m;
    Doubled(w, m, q, r);
    ModUnique(w, 2 * m, q, 2 * r + w % 2);
  }

  lemma Doubled(w: nat, m: nat, q: nat, r: nat)
    requires w / 2 == m * q + r
    ensures w == 2 * m * q + (2 * r + w % 2)
  {
    assert w == 2 * (m * q + r) + w % 2;
  }

  lemma SmallMultiple(m: int, e: int)
    requires -m < m * e < m
    ensures e == 0
  {
  }

  lemma ModUnique(w: int, m: int, q: int, r: int)
    requires 0 <= r < m && w == m * q + r
    ensures w % m == r
  {
    SmallMultiple(m, q - w / m);
  }

  lemma {:induction false} ModBit(w: nat, k: nat, i: nat)
    requires i < k
    ensures Bit(w % Pow2(k), i) == Bit(w, i)
    decreases i
  {
    HalfMod(w, k);
    if i == 0 {
    } else {
      ModBit(w / 2, k - 1, i - 1);
    }
  }

  /** A left shift by b moves digit i - b to digit i and clears the b lowest digits. */
  lemma {:induction false} ShlBit(w: uint64, b: nat, i: nat)
    requires i < 64
    ensures Bit(Shl(w, b), i) == (i >= b && Bit(w, i - b))
    decreases b
  {
    if b == 0 {
    } else {
      Pow2Of64();
      var v: nat := Shl(w, b - 1);
      ModBit(2 * v, 64, i);
      if i > 0 {
        assert 2 * v / 2 == v;
        ShlBit(w, b - 1, i - 1);
      }
    }
  }

  /** A right shift by b moves digit i + b to digit i. */
  lemma {:induction false} ShrBit(w: uint64, b: nat, i: nat)
    ensures Bit(Shr(w, b), i) == Bit(w, i + b)
    decreases b
  {
    if b == 0 {
    } else {
      ShrBit(w, b - 1, i + 1);
    }
  }

  lemma {:induction false} OrDigit(v: nat, w: nat, i: nat)
    ensures Bit(OrDigits(v, w), i) == (Bit(v, i) || Bit(w, i))
    decreases i
  {
    ZeroBit(i);
    if v == 0 || w == 0 || i == 0 {
    } else {
      OrDigit(v / 2, w / 2, i - 1);
    }
  }

  lemma {:induction false} OneDigit(i: nat, j: nat)
    ensures Bit(Pow2(i), j) == (i == j)
    decreases i
  {
    if j == 0 {
    } else if i == 0 {
      ZeroBit(j - 1);
    } else {
      OneDigit(i - 1, j - 1);
    }
  }

  lemma {:induction false} AndPow2(w: nat, i: nat)
    ensures (AndDigits(w, Pow2(i)) != 0) == Bit(w, i)
    decreases i
  {
    ZeroBit(i);
    if w == 0 || i == 0 {
    } else {
      AndPow2(w / 2, i - 1);
    }
  }

  lemma {:induction false} Pow2Below(i: nat, k: nat)
    requires i < k
    ensures Pow2(i) < Pow2(k)
  {
    if i == k - 1 {
    } else {
      Pow2Below(i, k - 1);
    }
  }

  lemma Pow2Fits(i: nat)
    requires i < 64
    ensures Pow2(i) < TWO_64
  {
    hide Pow2;
    Pow2Below(i, 64);
    Pow2Of64();
  }

  lemma {:induction false} ShlOne(i: nat)
    requires i < 64
    ensures Shl(1, i) == Pow2(i)
  {
    if i == 0 {
    } else {
      ShlOne(i - 1);
      Pow2Fits(i);
    }
  }

  /** w & (1 << i) is nonzero exactly when digit i of w is set. */
  lemma TestBit(w: uint64, i: nat)
    requires i < 64
    ensures (AndDigits(w, Shl(1, i)) != 0) == Bit(w, i)
  {
    ShlOne(i);
    AndPow2(w, i);
  }

  /** w | (1 << i) sets digit i and no other. */
  lemma SetBit(w: uint64, i: nat, j: nat)
    requires i < 64
    ensures Bit(Or(w, Shl(1, i)), j) == (Bit(w, j) || i == j)
  {
    ShlOne(i);
    OrDigit(w, Shl(1, i), j);
    OneDigit(i, j);
  }

  // ---- Exclusive or ----

  function XorDigits(v: nat, w: nat): nat
    decreases v + w
  {
    if v == 0 then w
    else if w == 0 then v
    else (v + w) % 2 + 2 * XorDigits(v / 2, w / 2)
  }

  lemma {:induction false} XorBelow(v: nat, w: nat, k: nat)
    requires v < Pow2(k) && w < Pow2(k)
    ensures XorDigits(v, w) < Pow2(k)
    decreases k
  {
    if k == 0 {
    } else {
      XorBelow(v / 2, w / 2, k - 1);
    }
  }

  /** v ^ w. */
  function Xor(v: uint8, w: uint8): uint8 {
    assert Pow2(4) == 16;
    Pow2Add(4, 4);
    XorBelow(v, w, 8);
    XorDigits(v, w)
  }

  lemma {:induction false} XorTwice(v: nat, w: nat)
    ensures XorDigits(XorDigits(v, w), w) == v
    decreases v + w
  {
    if v == 0 {
      XorSelf(w);
    } else if w != 0 {
      XorTwice(v / 2, w / 2);
      XorOnceTwice(v, w);
    }
  }

  lemma XorOnceTwice(v: nat, w: nat)
    requires XorDigits(XorDigits(v / 2, w / 2), w / 2) == v / 2
    ensures XorDigits(XorDigits(v, w), w) == v
  {
    hide XorDigits;
    XorStep(v, w);
    LowBit(v, w, XorDigits(v / 2, w / 2));
    XorStep(XorDigits(v, w), w);
  }

  lemma LowBit(v: nat, w: nat, y: nat)
    ensures var x := (v + w) % 2 + 2 * y; x / 2 == y && (x + w) % 2 == v % 2
  {
  }

  lemma XorStep(v: nat, w: nat)
    ensures XorDigits(v, w) == (v + w) % 2 + 2 * XorDigits(v / 2, w / 2)
  {
  }

  lemma {:induction false} XorSelf(w: nat)
    ensures XorDigits(w, w) == 0
  {
    if w == 0 {
    } else {
      XorSelf(w / 2);
    }
  }
}
