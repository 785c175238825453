/** Rust's bitwise `&`, `<<` and logical `>>` on unsigned integers, defined
    over naturals one binary digit at a time, and the facts about the masks
    `macaddress` uses. */
module Bits {
  import opened Ints

  /** Bitwise AND, from the least significant binary digit up. */
  function And(a: nat, b: nat): nat
  {
    if a == 0 || b == 0 then 0
    else 2 * And(a / 2, b / 2) + (if a % 2 == 1 && b % 2 == 1 then 1 else 0)
  }

  /** Logical right shift: `k` halvings. */
  function Shr(a: nat, k: nat): nat
  {
    if k == 0 then a else Shr(a / 2, k - 1)
  }

  /** Left shift without a width limit: `k` doublings. */
  function Shl(a: nat, k: nat): nat
  {
    if k == 0 then a else 2 * Shl(a, k - 1)
  }

  /** The `k` low binary digits of `a`. */
  function Low(a: nat, k: nat): nat
  {
    if k == 0 then 0 else 2 * Low(a / 2, k - 1) + a % 2
  }

  /** `k` one-digits: the mask `(1 << k) - 1`. */
  function Ones(k: nat): nat
  {
    if k == 0 then 0 else 2 * Ones(k - 1) + 1
  }

  lemma {:induction false} ShlZero(m: nat, k: nat)
    ensures Shl(m, k) == 0 <==> m == 0
  {
    if k > 0 {
      ShlZero(m, k - 1);
    }
  }

  /** Shifting left then right by the same amount loses nothing. */
  lemma {:induction false} ShrShl(a: nat, k: nat)
    ensures Shr(Shl(a, k), k) == a
  {
    if k > 0 {
      assert Shl(a, k) / 2 == Shl(a, k - 1);
      ShrShl(a, k - 1);
    }
  }

  /** Masking with `m << k` looks only at the digits from `k` up. */
  lemma {:induction false} AndShifted(a: nat, m: nat, k: nat)
    ensures And(a, Shl(m, k)) == Shl(And(Shr(a, k), m), k)
  {
    if k > 0 {
      ShlZero(m, k - 1);
      ShlZero(And(Shr(a, k), m), k - 1);
      if a == 0 {
        ShrZero(k);
      } else if m == 0 {
      } else {
        assert And(a, Shl(m, k)) == 2 * And(a / 2, Shl(m, k - 1));
        AndShifted(a / 2, m, k - 1);
      }
    }
  }

  lemma {:induction false} ShrZero(k: nat)
    ensures Shr(0, k) == 0
  {
    if k > 0 {
      ShrZero(k - 1);
    }
  }

  /** Masking with `k` one-digits keeps the `k` low digits. */
  lemma {:induction false} AndOnes(a: nat, k: nat)
    ensures And(a, Ones(k)) == Low(a, k)
  {
    if k > 0 {
      if a == 0 {
        LowZero(k);
      } else {
        AndOnes(a / 2, k - 1);
      }
    }
  }

  lemma {:induction false} LowZero(k: nat)
    ensures Low(0, k) == 0
  {
    if k > 0 {
      LowZero(k - 1);
    }
  }

  function Pow2(k: nat): (r: nat)
    ensures r >= 1
  {
    if k == 0 then 1 else 2 * Pow2(k - 1)
  }

  /** Dividing by `2 * p` is halving, then dividing by `p`; the remainder
      collects the lost binary digit. */
  lemma HalveDivMod(a: nat, p: nat)
    requires p >= 1
    ensures a / (2 * p) == (a / 2) / p
    ensures a % (2 * p) == 2 * ((a / 2) % p) + a % 2
  {
    var q := (a / 2) / p;
    var r := (a / 2) % p;
    assert a / 2 == p * q + r;
    assert a == 2 * (a / 2) + a % 2;
    assert a == (2 * p) * q + (2 * r + a % 2);
    DivModUnique(a, 2 * p, q, 2 * r + a % 2);
  }

  lemma {:induction false} ShrIsDiv(a: nat, k: nat)
    ensures Shr(a, k) == a / Pow2(k)
  {
    if k > 0 {
      ShrIsDiv(a / 2, k - 1);
      HalveDivMod(a, Pow2(k - 1));
    }
  }

  lemma {:induction false} LowIsMod(a: nat, k: nat)
    ensures Low(a, k) == a % Pow2(k)
  {
    if k > 0 {
      LowIsMod(a / 2, k - 1);
      HalveDivMod(a, Pow2(k - 1));
    }
  }

  lemma {:induction false} ShlIsMul(a: nat, k: nat)
    ensures Shl(a, k) == Pow2(k) * a
  {
    if k > 0 {
      ShlIsMul(a, k - 1);
    }
  }

  /** `x & 0x0200` tests bit 9 and nothing else. */
  lemma TestBit9(x: nat)
    ensures And(x, 0x0200) == 0 <==> (x / 0x200) % 2 == 0
  {
    assert Pow2(9) == 0x200;
    ShlIsMul(1, 9);
    ShrIsDiv(x, 9);
    assert Ones(1) == 1;
    AndShifted(x, 1, 9);
    AndOnes(x / 0x200, 1);
    ShlZero(And(x / 0x200, 1), 9);
  }

  /** Masking with `m << k` and shifting back is shifting first, then masking with `m`. */
  lemma ShiftedMask(x: nat, m: nat, k: nat)
    ensures Shr(And(x, Shl(m, k)), k) == And(Shr(x, k), m)
  {
    AndShifted(x, m, k);
    ShrShl(And(Shr(x, k), m), k);
  }

  /** `(x & 0xff00) >> 8` is the high byte of a 16-bit value. */
  lemma HighByte(x: nat)
    requires x <= 0xffff
    ensures Shr(And(x, 0xff00), 8) == x / 0x100
  {
    assert Shl(0xff, 8) == 0xff00 by {
      ShlIsMul(0xff, 8);
    }
    ShiftedMask(x, 0xff, 8);
    assert Shr(x, 8) == x / 0x100 by {
      assert Pow2(8) == 0x100;
      ShrIsDiv(x, 8);
    }
    ByteFits(x / 0x100);
  }

  /** `h & 0xff` leaves a byte unchanged. */
  lemma ByteFits(h: nat)
    requires h < 0x100
    ensures And(h, 0xff) == h
  {
    LowByte(h);
    DivModUnique(h, 0x100, 0, h);
  }

  /** `x & 0x00ff` is the low byte. */
  lemma LowByte(x: nat)
    ensures And(x, 0x00ff) == x % 0x100
  {
    assert Pow2(8) == 0x100;
    assert Ones(8) == 0xff;
    AndOnes(x, 8);
    LowIsMod(x, 8);
  }
}
