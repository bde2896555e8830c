// 128-bit integers as a low unsigned and a high signed word.

module Wide {
  import opened Bits
  import opened Powers

  const W: int := 0x1_0000_0000_0000_0000
  const H: int := 0x8000_0000_0000_0000
  const M: int := 0x1_0000_0000_0000_0000_0000_0000_0000_0000
  const MAX: int := 0x7FFF_FFFF_FFFF_FFFF_FFFF_FFFF_FFFF_FFFF
  const MIN: int := -MAX - 1

  type uint64 = x: int | 0 <= x < 0x1_0000_0000_0000_0000
  type int64 = x: int | -0x8000_0000_0000_0000 <= x < 0x8000_0000_0000_0000

  // Conversions to the word types keep the low 64 bits.
  function Unsigned(x: int): uint64 { x % W }

  function Signed(x: int): int64 {
    if x % W < H then x % W else x % W - W
  }

  // The 128-bit integer congruent to x.
  function Wrap(x: int): (v: int)
    ensures MIN <= v <= MAX
  {
    if x % M <= MAX then x % M else x % M - M
  }

  lemma WrapIs(x: int, v: int, k: int)
    requires MIN <= v <= MAX && x == v + k * M
    ensures Wrap(x) == v
  {
    if v >= 0 {
      DivModIs(x, M, k, v);
    } else {
      DivModIs(x, M, k - 1, v + M);
    }
  }

  lemma WrapAway(x: int) returns (k: int)
    ensures x == Wrap(x) + k * M
  {
    k := x / M + if x % M <= MAX then 0 else 1;
  }

  lemma SignedAway(x: int) returns (k: int)
    ensures x == Signed(x) + k * W
  {
    k := x / W + if x % W < H then 0 else 1;
  }

  // Congruent integers have the same representative.
  lemma WrapSame(x: int, y: int, k: int)
    requires x == y + k * M
    ensures Wrap(x) == Wrap(y)
  {
    var j := WrapAway(y);
    assert x == Wrap(y) + (j + k) * M;
    WrapIs(x, Wrap(y), j + k);
  }

  lemma WrapAdd(x: int, y: int)
    ensures Wrap(Wrap(x) + y) == Wrap(x + y) && Wrap(x + Wrap(y)) == Wrap(x + y)
  {
    var j := WrapAway(x);
    WrapSame(x + y, Wrap(x) + y, j);
    var k := WrapAway(y);
    WrapSame(x + y, x + Wrap(y), k);
  }

  predicate Words(lo: int, hi: int) { 0 <= lo < W && -H <= hi < H }

  function Val(lo: int, hi: int): int { hi * W + lo }

  // ---- single operations on words

  lemma AddWords(lo: int, hi: int, lo2: int, hi2: int)
    requires Words(lo, hi) && Words(lo2, hi2)
    ensures var l, h: int := Unsigned(lo + lo2), Signed(hi + hi2);
      Val(l, if l < lo then Signed(h + 1) else h) == Wrap(Val(lo, hi) + Val(lo2, hi2))
  {
    var l, h: int := Unsigned(lo + lo2), Signed(hi + hi2);
    var k := SignedAway(hi + hi2);
    if l < lo {
      var j := SignedAway(h + 1);
      assert lo + lo2 == l + W;
      WrapIs(Val(lo, hi) + Val(lo2, hi2), Val(l, Signed(h + 1)), j + k);
    } else {
      assert lo + lo2 == l;
      WrapIs(Val(lo, hi) + Val(lo2, hi2), Val(l, h), k);
    }
  }

  lemma NegWords(lo: int, hi: int)
    requires Words(lo, hi)
    ensures Val(Unsigned(-lo), if lo == 0 then Signed(-hi) else -hi - 1) == Wrap(-Val(lo, hi))
  {
    if lo == 0 {
      var k := SignedAway(-hi);
      WrapIs(-Val(lo, hi), Val(0, Signed(-hi)), k);
    } else {
      DivModIs(-lo, W, -1, W - lo);
      WrapIs(-Val(lo, hi), Val(W - lo, -hi - 1), 0);
    }
  }

  // The comparison is right except between negative numbers with the same
  // high word whose low words differ in their top bits.
  predicate Less(lo: int, hi: int, lo2: int, hi2: int) {
    if hi == hi2 then (if hi < 0 then Signed(lo) < Signed(lo2) else lo < lo2) else hi < hi2
  }

  lemma LessExactly(lo: int, hi: int, lo2: int, hi2: int)
    requires Words(lo, hi) && Words(lo2, hi2)
    ensures (Less(lo, hi, lo2, hi2) <==> Val(lo, hi) < Val(lo2, hi2)) <==> !(hi == hi2 < 0 && ((lo < H) != (lo2 < H)))
  {}

  // ---- shifts

  // The higher n bits of the low word, as in a left shift by n.
  function Carried(lo: int, n: nat): (r: int)
    requires 0 <= lo < W && 0 < n < 64
    ensures r == lo / Pow2(64 - n) && r >= 0
  {
    MaskedHigh(lo, n);
    var mask := W - 1 - (Pow2(64 - n) - 1);
    And(lo, mask) / Pow2(64 - n)
  }

  lemma MaskedHigh(lo: int, n: nat)
    requires 0 <= lo < W && 0 < n < 64
    ensures Pow2(64 - n) <= W && And(lo, W - 1 - (Pow2(64 - n) - 1)) / Pow2(64 - n) == lo / Pow2(64 - n) >= 0
  {
    Pow2Known();
    AndHigh(lo, 64 - n, 64);
    var q := Pow2(64 - n);
    assert W - 1 - (q - 1) == W - q;
    hide Pow2, And;
    QuotientNat(lo, q);
    MultipleQuotient(lo, q);
  }

  lemma MultipleQuotient(x: int, q: int)
    requires q > 0
    ensures (x - x % q) / q == x / q
  {
    assert x - x % q == x / q * q;
    DivModIs(x / q * q, q, x / q, 0);
  }

  lemma LeftWords(lo: int, hi: int, n: nat)
    requires Words(lo, hi) && 0 < n < 64
    ensures Val(Unsigned(lo * Pow2(n)), Signed(Or(Unsigned(Signed(hi * Pow2(n))), Carried(lo, n)))) ==
      Wrap(Val(lo, hi) * Pow2(n))
  {
    var p, q := Pow2(n), Pow2(64 - n);
    Pow2Known();
    Pow2Add(n, 64 - n);
    var k := SignedAway(hi * p);
    var k2: int := (Signed(hi * p) as int) / W;
    var u := Unsigned(Signed(hi * p));
    assert u == hi * p - (k + k2) * W;
    MultipleOf(hi, p, q, k + k2, u);
    Quotient(lo, p, q);
    OrDisjoint(lo / q, u, n);
    OrCommutes(u, lo / q);
    hide Pow2, Or, And, Carried;
    LeftArithmetic(lo, hi, p, q, u, k + k2);
  }

  // The same for any factors p and q of the word size.
  lemma LeftArithmetic(lo: int, hi: int, p: int, q: int, u: int, k: int)
    requires Words(lo, hi) && p > 0 && q > 0 && p * q == W && u == hi * p - k * W
    ensures Val(Unsigned(lo * p), Signed(u + lo / q)) == Wrap(Val(lo, hi) * p)
  {
    var a, b := lo / q, lo % q;
    assert lo == a * q + b;
    Split(lo, p, q, a, b);
    var j := SignedAway(u + a);
    assert Val(lo, hi) * p == hi * p * W + lo * p by {
      assert (hi * W) * p == hi * p * W;
    }
    WrapIs(Val(lo, hi) * p, Val(b * p, Signed(u + a)), k + j);
  }

  lemma Split(lo: int, p: int, q: int, a: int, b: int)
    requires p > 0 && q > 0 && p * q == W && lo == a * q + b && 0 <= b < q
    ensures lo * p == a * W + b * p && 0 <= b * p < W && Unsigned(lo * p) == b * p
  {
    assert lo * p == a * q * p + b * p;
    assert a * q * p == a * (p * q);
    assert b * p >= 0;
    assert (q - b) * p > 0;
    assert (q - b) * p == p * q - b * p;
    DivModIs(lo * p, W, a, b * p);
  }

  lemma MultipleOf(hi: int, p: int, q: int, k: int, u: int)
    requires p > 0 && p * q == W && u == hi * p - k * W
    ensures u % p == 0
  {
    assert k * W == k * q * p;
    assert u == (hi - k * q) * p;
    DivModIs(u, p, hi - k * q, 0);
  }

  lemma Quotient(x: int, p: int, q: int)
    requires 0 <= x < p * q && p > 0 && q > 0
    ensures 0 <= x / q < p
  {
    assert x == x / q * q + x % q;
    if p <= x / q {
      TimesMonotone(p, x / q, q);
    }
  }

  lemma {:induction false} OrCommutes(x: nat, y: nat)
    ensures Or(x, y) == Or(y, x)
    decreases x + y
  {
    if x > 0 && y > 0 {
      OrCommutes(x / 2, y / 2);
    }
  }

  // A left shift by 64 bits or more drops the high word.
  lemma LeftFar(lo: int, hi: int, n: nat)
    requires Words(lo, hi) && 64 <= n < 128
    ensures Val(0, Signed(Unsigned(lo * Pow2(n - 64)))) == Wrap(Val(lo, hi) * Pow2(n))
  {
    var p := Pow2(n - 64);
    Pow2Known();
    Pow2Add(64, n - 64);
    var k: int := lo * p / W;
    var u := Unsigned(lo * p);
    var j := SignedAway(u);
    assert lo * p == u + k * W;
    FarProduct(lo, hi, p);
    WrapIs(Val(lo, hi) * (W * p), Val(0, Signed(u)), hi * p + k + j);
  }

  lemma FarProduct(lo: int, hi: int, p: int)
    ensures Val(lo, hi) * (W * p) == hi * p * M + lo * p * W
  {
    assert hi * W * (W * p) == hi * p * M;
    assert lo * (W * p) == lo * p * W;
    assert Val(lo, hi) * (W * p) == hi * W * (W * p) + lo * (W * p);
  }

  lemma LeftAll(v: int, n: nat)
    requires n >= 128
    ensures Wrap(v * Pow2(n)) == 0
  {
    Pow2Known();
    Pow2Add(128, n - 128);
    assert v * Pow2(n) == v * Pow2(n - 128) * M;
    WrapIs(v * Pow2(n), 0, v * Pow2(n - 128));
  }

  // (hi : lo) / p when p divides the word size
  lemma RightArithmetic(lo: int, hi: int, p: int, q: int)
    requires Words(lo, hi) && p > 0 && q > 0 && p * q == W
    ensures Val(lo, hi) / p == Val(lo / p + hi % p * q, hi / p) == hi * q + lo / p
    ensures 0 <= lo / p < q && 0 <= hi % p * q <= W - q && -H <= hi / p < H
  {
    var h, c, a, b := hi / p, hi % p, lo / p, lo % p;
    assert hi == h * p + c && lo == a * p + b;
    assert Val(lo, hi) == (hi * q + a) * p + b by {
      assert hi * W == hi * q * p;
    }
    DivModIs(Val(lo, hi), p, hi * q + a, b);
    assert hi * q == h * W + c * q by {
      assert hi * q == h * p * q + c * q;
      assert h * p * q == h * (p * q);
    }
    assert q * p == p * q;
    Quotient(lo, q, p);
    TimesMonotone(c, p - 1, q);
    assert (p - 1) * q == W - q;
    assert c * q >= 0;
    SmallerQuotient(hi, p);
  }

  lemma SmallerQuotient(x: int, p: int)
    requires p > 0 && -H <= x < H
    ensures -H <= x / p < H
  {
    var k := x / p;
    assert x == k * p + x % p;
    if k >= 1 {
      TimesMonotone(1, p, k);
    } else if k <= -2 {
      TimesMonotone(1, p, -(k + 1));
      assert p * -(k + 1) == -(k * p + p);
    }
  }

  lemma RightWords(lo: int, hi: int, n: nat)
    requires Words(lo, hi) && 0 < n < 64
    ensures var l := Or(Shr(lo, n), Unsigned(And(Unsigned(hi), Pow2(n) - 1) * Pow2(64 - n)));
      0 <= l < W && -H <= hi / Pow2(n) < H && Val(l, hi / Pow2(n)) == Val(lo, hi) / Pow2(n)
  {
    var p, q := Pow2(n), Pow2(64 - n);
    Pow2Known();
    Pow2Add(n, 64 - n);
    AndLow(Unsigned(hi), n);
    var c := hi % p;
    SameRemainder(hi, p, q);
    RightArithmetic(lo, hi, p, q);
    SmallMod(c * q, W);
    DivModIs(c * q, q, c, 0);
    OrDisjoint(lo / p, c * q, 64 - n);
  }

  lemma SameRemainder(hi: int, p: int, q: int)
    requires p > 0 && p * q == W
    ensures Unsigned(hi) % p == hi % p
  {
    var k := hi / W;
    assert hi == k * W + Unsigned(hi);
    assert k * W == k * q * p;
    DivModIs(Unsigned(hi), p, hi / p - k * q, hi % p);
  }

  lemma RightFar(lo: int, hi: int, n: nat)
    requires Words(lo, hi) && 64 <= n < 128
    ensures Val(Unsigned(hi / Pow2(n - 64)), if hi < 0 then -1 else 0) == Val(lo, hi) / Pow2(n) == hi / Pow2(n - 64)
  {
    var p := Pow2(n - 64);
    Pow2Known();
    Pow2Add(64, n - 64);
    SmallerQuotient(hi, p);
    var h := hi / p;
    hide Pow2;
    FarQuotient(lo, hi, p);
    SignKept(hi, p);
    if hi < 0 {
      DivModIs(h, W, -1, h + W);
    } else {
      SmallMod(h, W);
    }
  }

  lemma FarQuotient(lo: int, hi: int, p: int)
    requires Words(lo, hi) && p > 0
    ensures Val(lo, hi) / (W * p) == hi / p
  {
    var h, c := hi / p, hi % p;
    assert hi == h * p + c;
    assert Val(lo, hi) == h * (W * p) + (c * W + lo) by {
      assert h * p * W == h * (W * p);
    }
    TimesMonotone(c, p - 1, W);
    DivModIs(Val(lo, hi), W * p, h, c * W + lo);
  }

  lemma SignKept(x: int, p: int)
    requires p > 0
    ensures x / p < 0 <==> x < 0
  {
    assert x == x / p * p + x % p;
    if x / p >= 0 {
      assert x / p * p >= 0;
    } else {
      TimesMonotone(x / p, -1, p);
    }
  }

  lemma RightAll(lo: int, hi: int, n: nat)
    requires Words(lo, hi) && n >= 128
    ensures Val(lo, hi) / Pow2(n) == if hi < 0 then -1 else 0
  {
    Pow2Known();
    Pow2Monotonic(128, n);
    var v := Val(lo, hi);
    if hi < 0 {
      DivModIs(v, Pow2(n), -1, v + Pow2(n));
    } else {
      SmallMod(v, Pow2(n));
    }
  }

  // ---- single bits

  lemma EvenShift(x: int, c: int, q: int)
    requires q % 2 == 0
    ensures (x + c * q) % 2 == x % 2
  {
    var h := q / 2;
    assert c * q == 2 * (c * h);
  }

  lemma LowBit(lo: int, hi: int, n: nat)
    requires Words(lo, hi) && n < 64
    ensures Bit(Val(lo, hi), n) == Bit(lo, n)
  {
    var p, q := Pow2(n), Pow2(64 - n);
    Pow2Known();
    Pow2Add(n, 64 - n);
    EvenPow2(64 - n);
    hide Pow2;
    RightArithmetic(lo, hi, p, q);
    EvenShift(lo / p, hi, q);
  }

  lemma HighBit(lo: int, hi: int, n: nat)
    requires Words(lo, hi) && 64 <= n < 128
    ensures Bit(Val(lo, hi), n) == Bit(Unsigned(hi), n - 64)
  {
    var p, q := Pow2(n - 64), Pow2(128 - n);
    Pow2Known();
    Pow2Add(n - 64, 128 - n);
    EvenPow2(128 - n);
    RightFar(lo, hi, n);
    hide Pow2;
    UnsignedQuotient(hi, p, q);
    EvenShift(Unsigned(hi) / p, hi / W, q);
  }

  lemma UnsignedQuotient(hi: int, p: int, q: int)
    requires p > 0 && p * q == W
    ensures hi / p == Unsigned(hi) / p + hi / W * q
  {
    var u, k := Unsigned(hi), hi / W;
    assert hi == u + k * W && u == u / p * p + u % p;
    assert k * W == k * q * p;
    DivModIs(hi, p, u / p + k * q, u % p);
  }

  lemma SignBit(lo: int, hi: int, n: nat)
    requires Words(lo, hi) && n >= 128
    ensures Bit(Val(lo, hi), n) == (hi < 0)
  {
    RightAll(lo, hi, n);
  }

  // A clear bit leaves room for it.
  lemma RoomForBit(x: int, n: nat, m: nat)
    requires 0 <= x < Pow2(m) && n < m && !Bit(x, n)
    ensures x + Pow2(n) < Pow2(m)
  {
    var p, q := Pow2(n), Pow2(m - n);
    Pow2Add(n, m - n);
    EvenPow2(m - n);
    hide Pow2;
    RoomArithmetic(x, p, q);
  }

  lemma RoomArithmetic(x: int, p: int, q: int)
    requires 0 <= x < p * q && p > 0 && q > 0 && q % 2 == 0 && x / p % 2 == 0
    ensures x + p < p * q
  {
    assert q * p == p * q;
    Quotient(x, q, p);
    var a, b := x / p, x % p;
    assert x == a * p + b;
    TimesMonotone(a + 2, q, p);
    assert (a + 2) * p == a * p + 2 * p;
  }

  lemma EvenPow2(n: nat)
    requires n > 0
    ensures Pow2(n) % 2 == 0
  {}
}