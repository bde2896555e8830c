// Machine words as integers: bitwise operations and their arithmetic.

module Bits {
  import opened Powers

  function And(x: nat, y: nat): nat {
    if x == 0 || y == 0 then 0 else 2 * And(x / 2, y / 2) + (if x % 2 == 1 && y % 2 == 1 then 1 else 0)
  }

  function Or(x: nat, y: nat): nat
    decreases x + y
  {
    if x == 0 then y else if y == 0 then x else 2 * Or(x / 2, y / 2) + (if x % 2 == 1 || y % 2 == 1 then 1 else 0)
  }

  lemma Pow2Of1()
    ensures Pow2(1) == 2
  {}

  lemma Pow2Of16()
    ensures Pow2(16) == 0x1_0000
  {
    assert Pow2(4) == 16;
    Pow2Add(4, 4);
    Pow2Add(8, 8);
  }

  lemma Pow2Known()
    ensures Pow2(64) == 0x1_0000_0000_0000_0000 && Pow2(63) == 0x8000_0000_0000_0000
    ensures Pow2(127) == 0x8000_0000_0000_0000_0000_0000_0000_0000
      && Pow2(128) == 0x1_0000_0000_0000_0000_0000_0000_0000_0000
  {
    Pow2Of64();
    Pow2Add(64, 64);
    Pow2Add(1, 63);
    Pow2Add(1, 127);
    Pow2Of1();
    hide Pow2;
  }

  lemma Pow2Of64()
    ensures Pow2(64) == 0x1_0000_0000_0000_0000
  {
    Pow2Of16();
    Pow2Add(16, 16);
    Pow2Add(32, 32);
    hide Pow2;
  }

  // (2 q + r) / (2 p) and % when 0 <= r < 2
  lemma HalfDivMod(x: nat, p: nat)
    requires p > 0
    ensures x / (2 * p) == (x / 2) / p && x % (2 * p) == 2 * ((x / 2) % p) + x % 2
  {
    var h, b := x / 2, x % 2;
    var q, r := h / p, h % p;
    assert h == q * p + r;
    assert x == q * (2 * p) + (2 * r + b);
    DivModIs(x, 2 * p, q, 2 * r + b);
  }

  lemma DivModIs(x: int, d: int, q: int, r: int)
    requires d > 0 && x == q * d + r && 0 <= r < d
    ensures x / d == q && x % d == r
  {
    var q', r' := x / d, x % d;
    assert x == q' * d + r';
    assert (q' - q) * d == r - r' && (q - q') * d == r' - r;
    if q' > q {
      AtLeastOnce(q' - q, d);
    } else if q' < q {
      AtLeastOnce(q - q', d);
    }
  }

  lemma AtLeastOnce(k: int, d: int)
    requires k >= 1 && d > 0
    ensures k * d >= d
  {
    assert (k - 1) * d >= 0;
    assert k * d == (k - 1) * d + d;
  }

  // Masking the low bits is a remainder.
  lemma {:induction false} AndLow(x: nat, n: nat)
    ensures And(x, Pow2(n) - 1) == x % Pow2(n)
  {
    if n > 0 {
      var p := Pow2(n - 1);
      HalfDivMod(x, p);
      AndLow(x / 2, n - 1);
      assert (2 * p - 1) / 2 == p - 1 && (2 * p - 1) % 2 == 1;
    }
  }

  // Masking the high bits of an m-bit number removes a remainder.
  lemma {:induction false} AndHigh(x: nat, k: nat, m: nat)
    requires k <= m && x < Pow2(m)
    ensures Pow2(k) <= Pow2(m) && And(x, Pow2(m) - Pow2(k)) == x - x % Pow2(k)
  {
    if k == 0 {
      AndLow(x, m);
      SmallMod(x, Pow2(m));
    } else {
      var p, r := Pow2(k - 1), Pow2(m - 1);
      AndHigh(x / 2, k - 1, m - 1);
      HalfDivMod(x, p);
      AndEven(x, r - p);
    }
  }

  lemma AndEven(x: nat, y: nat)
    ensures And(x, 2 * y) == 2 * And(x / 2, y)
  {
    assert 2 * y / 2 == y && 2 * y % 2 == 0;
  }

  lemma SmallMod(x: int, d: int)
    requires 0 <= x < d
    ensures x % d == x && x / d == 0
  {
    DivModIs(x, d, 0, x);
  }

  // Joining disjoint bits is a sum.
  lemma {:induction false} OrDisjoint(x: nat, y: nat, k: nat)
    requires x < Pow2(k) && y % Pow2(k) == 0
    ensures Or(x, y) == x + y
  {
    if k > 0 && x > 0 && y > 0 {
      HalfDivMod(y, Pow2(k - 1));
      OrDisjoint(x / 2, y / 2, k - 1);
    }
  }

  // The logical right shift of a word.
  function Shr(x: nat, n: nat): nat {
    QuotientNat(x, Pow2(n));
    x / Pow2(n)
  }

  lemma QuotientNat(x: nat, d: nat)
    requires d > 0
    ensures x / d >= 0
  {
    var q := x / d;
    assert x == q * d + x % d && -q * d == -(q * d);
    if q < 0 {
      AtLeastOnce(-q, d);
    }
  }

  // Bit n of x.
  predicate Bit(x: int, n: nat) { (x / Pow2(n)) % 2 == 1 }

  lemma {:induction false} AndBit(x: nat, n: nat)
    ensures And(x, Pow2(n)) != 0 <==> Bit(x, n)
  {
    if n > 0 {
      HalfDivMod(x, Pow2(n - 1));
      AndBit(x / 2, n - 1);
      if x == 0 {
        SmallMod(0, Pow2(n));
      }
    } else {
      assert And(x / 2, 0) == 0;
    }
  }

  lemma {:induction false} OrBit(x: nat, n: nat)
    ensures Or(x, Pow2(n)) == if Bit(x, n) then x else x + Pow2(n)
  {
    if x == 0 {
      SmallMod(0, Pow2(n));
    } else if n > 0 {
      HalfDivMod(x, Pow2(n - 1));
      OrBit(x / 2, n - 1);
    } else {
      assert Or(x / 2, 0) == x / 2;
    }
  }

  // Masking one bit of an m-bit number away.
  lemma {:induction false} AndNotBit(x: nat, n: nat, m: nat)
    requires n < m && x < Pow2(m)
    ensures Pow2(n) < Pow2(m) && And(x, Pow2(m) - 1 - Pow2(n)) == if Bit(x, n) then x - Pow2(n) else x
  {
    if n == 0 {
      AndHigh(x, 1, m);
      Pow2Of1();
      assert x / Pow2(0) == x;
    } else {
      var p, r := Pow2(n - 1), Pow2(m - 1);
      AndNotBit(x / 2, n - 1, m - 1);
      HalfDivMod(x, p);
      AndOdd(x, r - 1 - p);
    }
  }

  lemma AndOdd(x: nat, y: nat)
    ensures And(x, 2 * y + 1) == 2 * And(x / 2, y) + x % 2
  {
    assert (2 * y + 1) / 2 == y && (2 * y + 1) % 2 == 1;
  }

  lemma TimesMonotone(a: int, b: int, q: int)
    requires a <= b && q > 0
    ensures a * q <= b * q
  {
    assert (b - a) * q >= 0;
  }

  lemma QuotientAtMost(x: int, d: int)
    requires x >= 0 && d > 0
    ensures 0 <= x / d <= x
  {
    QuotientNat(x, d);
    var q := x / d;
    assert x == q * d + x % d;
    if q > 0 {
      TimesMonotone(1, d, q);
    }
  }

  lemma TimesQuotient(x: int, a: int, d: int)
    requires d > 0 && 0 <= a <= x / d && x >= 0
    ensures 0 <= a * d <= x
  {
    TimesMonotone(a, x / d, d);
    TimesMonotone(0, a, d);
    assert x == x / d * d + x % d;
  }
}
