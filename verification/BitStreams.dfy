// Numbers as sequences of bits, the most significant first.

module BitStreams {
  import opened Bits
  import opened Powers

  lemma BitStep(x: nat, m: nat)
    ensures Bit(x, 0) == (x % 2 == 1) && Bit(x, m + 1) == Bit(x / 2, m)
  {
    HalfDivMod(x, Pow2(m));
  }

  lemma {:induction false} BitOr(x: nat, y: nat, m: nat)
    ensures Bit(Or(x, y), m) == (Bit(x, m) || Bit(y, m))
    decreases m
  {
    hide Or, Bit;
    BitOfZero(m);
    OrStep(x, y);
    if x > 0 && y > 0 {
      var k := if m > 0 then m - 1 else 0;
      BitStep(x, k);
      BitStep(y, k);
      BitStep(Or(x, y), k);
      if m > 0 {
        BitOr(x / 2, y / 2, k);
      }
    }
  }

  lemma OrStep(x: nat, y: nat)
    ensures Or(0, y) == y && Or(x, 0) == x
    ensures x > 0 && y > 0 ==> Or(x, y) / 2 == Or(x / 2, y / 2) && (Or(x, y) % 2 == 1 <==> x % 2 == 1 || y % 2 == 1)
  {}

  lemma {:induction false} BitAnd(x: nat, y: nat, m: nat)
    ensures Bit(And(x, y), m) == (Bit(x, m) && Bit(y, m))
    decreases m
  {
    BitOfZero(m);
    if x > 0 && y > 0 {
      if m > 0 {
        BitStep(x, m - 1);
        BitStep(y, m - 1);
        BitStep(And(x, y), m - 1);
        BitAnd(x / 2, y / 2, m - 1);
      } else {
        assert Pow2(0) == 1;
      }
    }
  }

  lemma BitOfZero(m: nat)
    ensures !Bit(0, m)
  {
    SmallMod(0, Pow2(m));
  }

  lemma {:induction false} BitShr(x: nat, k: nat, m: nat)
    ensures x / Pow2(k) >= 0 && Bit(x / Pow2(k), m) == Bit(x, m + k)
    decreases k
  {
    QuotientNat(x, Pow2(k));
    if k > 0 {
      HalfDivMod(x, Pow2(k - 1));
      BitShr(x / 2, k - 1, m);
      BitStep(x, m + k - 1);
    } else {
      assert Pow2(0) == 1;
    }
  }

  lemma {:induction false} BitShl(x: nat, k: nat, m: nat)
    ensures x * Pow2(k) >= 0 && Bit(x * Pow2(k), m) == (m >= k && Bit(x, m - k))
    decreases k
  {
    if k > 0 {
      var y := x * Pow2(k - 1);
      BitShl(x, k - 1, 0);
      assert x * Pow2(k) == 2 * y;
      if m > 0 {
        BitShl(x, k - 1, m - 1);
        BitStep(2 * y, m - 1);
      } else {
        BitStep(2 * y, 0);
      }
    } else {
      assert Pow2(0) == 1;
    }
  }

  lemma {:induction false} BitMod(x: nat, k: nat, m: nat)
    ensures Bit(x % Pow2(k), m) == (m < k && Bit(x, m))
    decreases k
  {
    if k > 0 {
      HalfDivMod(x, Pow2(k - 1));
      var y := x % Pow2(k);
      if m > 0 {
        BitMod(x / 2, k - 1, m - 1);
        BitStep(y, m - 1);
        BitStep(x, m - 1);
      } else {
        BitStep(y, 0);
        BitStep(x, 0);
      }
    } else {
      assert Pow2(0) == 1;
      BitOfZero(m);
    }
  }

  // A number is given by its bits.
  lemma {:induction false} SameBits(x: nat, y: nat, n: nat)
    requires x < Pow2(n) && y < Pow2(n) && forall m :: 0 <= m < n ==> Bit(x, m) == Bit(y, m)
    ensures x == y
    decreases n
  {
    if n > 0 {
      forall m | 0 <= m < n - 1 ensures Bit(x / 2, m) == Bit(y / 2, m) {
        BitStep(x, m);
        BitStep(y, m);
        assert Bit(x, m + 1) == Bit(y, m + 1);
      }
      SameBits(x / 2, y / 2, n - 1);
      BitStep(x, 0);
      BitStep(y, 0);
      assert Bit(x, 0) == Bit(y, 0);
    }
  }

  // The lowest n bits of v.
  function NumBits(v: nat, n: nat): (s: seq<bool>)
    ensures |s| == n && forall k :: 0 <= k < n ==> s[k] == Bit(v, n - 1 - k)
  {
    seq(n, k requires 0 <= k < n => Bit(v, n - 1 - k))
  }

  lemma NumBitsInjective(x: nat, y: nat, n: nat)
    requires x < Pow2(n) && y < Pow2(n) && NumBits(x, n) == NumBits(y, n)
    ensures x == y
  {
    forall m | 0 <= m < n ensures Bit(x, m) == Bit(y, m) {
      assert NumBits(x, n)[n - 1 - m] == NumBits(y, n)[n - 1 - m];
    }
    SameBits(x, y, n);
  }

  // High bits first, then low bits.
  lemma NumBitsSplit(v: nat, m: nat, k: nat)
    ensures v / Pow2(k) >= 0 && NumBits(v, m + k) == NumBits(v / Pow2(k), m) + NumBits(v, k)
  {
    QuotientNat(v, Pow2(k));
    hide Bit, Pow2;
    var high, low := NumBits(v / Pow2(k), m), NumBits(v, k);
    forall i | 0 <= i < m + k ensures NumBits(v, m + k)[i] == (high + low)[i] {
      if i < m {
        BitShr(v, k, m - 1 - i);
      }
    }
  }

  lemma NumBitsMod(v: nat, k: nat, n: nat)
    requires n <= k
    ensures NumBits(v % Pow2(k), n) == NumBits(v, n)
  {
    hide Bit, Pow2;
    forall i | 0 <= i < n ensures NumBits(v % Pow2(k), n)[i] == NumBits(v, n)[i] {
      BitMod(v, k, n - 1 - i);
    }
  }

  lemma {:induction false} OrBound(x: nat, y: nat, n: nat)
    requires x < Pow2(n) && y < Pow2(n)
    ensures Or(x, y) < Pow2(n)
    decreases n
  {
    if n > 0 && x > 0 && y > 0 {
      OrBound(x / 2, y / 2, n - 1);
    }
  }

  lemma {:induction false} AndBound(x: nat, y: nat)
    ensures And(x, y) <= x && And(x, y) <= y
  {
    if x > 0 && y > 0 {
      AndBound(x / 2, y / 2);
    }
  }

  lemma {:induction false} Ones(n: nat, m: nat)
    ensures Bit(Pow2(n) - 1, m) == (m < n)
    decreases n
  {
    if n == 0 {
      BitOfZero(m);
    } else {
      var x := Pow2(n) - 1;
      assert x / 2 == Pow2(n - 1) - 1 && x % 2 == 1;
      if m > 0 {
        BitStep(x, m - 1);
        Ones(n - 1, m - 1);
      } else {
        BitStep(x, 0);
      }
    }
  }

  lemma BitOfPow2(n: nat, m: nat)
    ensures Bit(Pow2(n), m) == (m == n)
  {
    BitShl(1, n, m);
    assert 1 * Pow2(n) == Pow2(n);
    if m >= n {
      BitOfOne(m - n);
    }
  }

  lemma BitOfOne(m: nat)
    ensures Bit(1, m) == (m == 0)
  {
    Ones(1, m);
    Pow2Of1();
  }

  // ---- bytes

  type uint8 = x: int | 0 <= x < 256

  lemma Pow2Of8()
    ensures Pow2(8) == 256
  {
    Pow2Of4();
    Pow2Add(4, 4);
  }

  lemma Pow2Of4()
    ensures Pow2(4) == 16
  {}

  // The i-th bit of a sequence of bytes.
  predicate BitAt(data: seq<uint8>, i: nat)
    requires i < 8 * |data|
  {
    Bit(data[i / 8], 7 - i % 8)
  }

  // length bits in the fewest bytes; the unused bits are 0.
  ghost predicate Packed(data: seq<uint8>, length: nat) {
    |data| == (length + 7) / 8 && forall i :: length <= i < 8 * |data| ==> !BitAt(data, i)
  }

  function ContentsOf(data: seq<uint8>, length: nat): (s: seq<bool>)
    requires length <= 8 * |data|
    ensures |s| == length && forall i :: 0 <= i < length ==> s[i] == BitAt(data, i)
  {
    seq(length, i requires 0 <= i < length => BitAt(data, i))
  }

  // ---- what the writers do to the bytes

  // The byte with its bit number j, from the left, set.
  function SetIn(byte: uint8, j: nat): (r: uint8)
    requires j < 8
    ensures forall m :: 0 <= m < 8 ==> Bit(r, m) == (Bit(byte, m) || m == 7 - j)
  {
    SetInIs(byte, j);
    Or(byte, Pow2(7 - j))
  }

  lemma SetInIs(byte: uint8, j: nat)
    requires j < 8
    ensures var r := Or(byte, Pow2(7 - j));
      r < 256 && forall m :: 0 <= m < 8 ==> Bit(r, m) == (Bit(byte, m) || m == 7 - j)
  {
    Pow2Of8();
    Pow2Below(7 - j, 8);
    OrBound(byte, Pow2(7 - j), 8);
    forall m | 0 <= m < 8 ensures Bit(Or(byte, Pow2(7 - j)), m) == (Bit(byte, m) || m == 7 - j) {
      BitOr(byte, Pow2(7 - j), m);
      BitOfPow2(7 - j, m);
    }
  }

  lemma {:induction false} Pow2Below(m: nat, n: nat)
    requires m < n
    ensures Pow2(m) < Pow2(n)
    decreases n
  {
    if m < n - 1 {
      Pow2Below(m, n - 1);
    }
  }

  // The two parts writeByte makes of a byte when l1 bits of the last byte are used.
  function UpperPart(value: uint8, l1: nat): (r: uint8)
    requires 0 < l1 < 8
    ensures forall m :: 0 <= m < 8 ==> Bit(r, m) == Bit(value, m + 8 - l1)
  {
    var l2 := 8 - l1;
    UpperPartIs(value, l2);
    And(value, 255 * Pow2(l2)) / Pow2(l2)
  }

  lemma UpperPartIs(value: uint8, l2: nat)
    requires 0 < l2 < 8
    ensures var r := And(value, 255 * Pow2(l2)) / Pow2(l2);
      0 <= r < 256 && forall m :: 0 <= m < 8 ==> Bit(r, m) == Bit(value, m + l2)
  {
    var a := And(value, 255 * Pow2(l2));
    AndBound(value, 255 * Pow2(l2));
    QuotientAtMost(a, Pow2(l2));
    Pow2Of8();
    hide Pow2, And, Bit;
    forall m | 0 <= m < 8 ensures Bit(a / Pow2(l2), m) == Bit(value, m + l2) {
      BitShr(a, l2, m);
      BitAnd(value, 255 * Pow2(l2), m + l2);
      BitShl(255, l2, m + l2);
      Ones(8, m);
    }
  }

  function LowerPart(value: uint8, l1: nat): (r: uint8)
    requires 0 < l1 < 8
    ensures forall m :: 0 <= m < 8 ==> Bit(r, m) == (m >= l1 && Bit(value, m - l1))
  {
    LowerPartIs(value, l1);
    And(value, 255 / Pow2(l1)) * Pow2(l1)
  }

  lemma LowerPartIs(value: uint8, l1: nat)
    requires 0 < l1 < 8
    ensures 255 / Pow2(l1) >= 0
    ensures var r := And(value, 255 / Pow2(l1)) * Pow2(l1);
      0 <= r < 256 && forall m :: 0 <= m < 8 ==> Bit(r, m) == (m >= l1 && Bit(value, m - l1))
  {
    var p := Pow2(l1);
    QuotientNat(255, p);
    var a := And(value, 255 / p);
    AndBound(value, 255 / p);
    TimesQuotient(255, a, p);
    Pow2Of8();
    hide Pow2, And, Bit;
    forall m | 0 <= m < 8 ensures Bit(a * p, m) == (m >= l1 && Bit(value, m - l1)) {
      BitShl(a, l1, m);
      if m >= l1 {
        BitAnd(value, 255 / p, m - l1);
        BitShr(255, l1, m - l1);
        Ones(8, m);
      }
    }
  }

  function Joined(x: uint8, y: uint8): (r: uint8)
    ensures forall m :: 0 <= m < 8 ==> Bit(r, m) == (Bit(x, m) || Bit(y, m))
  {
    JoinedIs(x, y);
    Or(x, y)
  }

  lemma JoinedIs(x: uint8, y: uint8)
    ensures Or(x, y) < 256 && forall m :: 0 <= m < 8 ==> Bit(Or(x, y), m) == (Bit(x, m) || Bit(y, m))
  {
    Pow2Of8();
    OrBound(x, y, 8);
    forall m | 0 <= m < 8 ensures Bit(Or(x, y), m) == (Bit(x, m) || Bit(y, m)) {
      BitOr(x, y, m);
    }
  }

  // writeBit
  function PutBit(data: seq<uint8>, length: nat, value: bool): (r: seq<uint8>)
    requires |data| == (length + 7) / 8
  {
    var grown := if length % 8 == 0 then data + [0] else data;
    if value then grown[length / 8 := SetIn(grown[length / 8], length % 8)] else grown
  }

  lemma PutBitAppends(data: seq<uint8>, length: nat, value: bool)
    requires Packed(data, length)
    ensures Packed(PutBit(data, length, value), length + 1)
    ensures ContentsOf(PutBit(data, length, value), length + 1) == ContentsOf(data, length) + [value]
  {
    var grown := if length % 8 == 0 then data + [0] else data;
    var r := PutBit(data, length, value);
    forall i: nat | i < 8 * |grown| ensures BitAt(grown, i) == (i < length && BitAt(data, i)) {
      if i / 8 == |data| {
        BitOfZero(7 - i % 8);
      }
    }
    forall i: nat | i < 8 * |r| ensures BitAt(r, i) == if i == length then value else BitAt(grown, i) {
      if i / 8 == length / 8 {
        assert 7 - i % 8 == 7 - length % 8 <==> i == length;
      }
    }
    hide BitAt;
    var c := ContentsOf(data, length) + [value];
    forall i | 0 <= i < length + 1 ensures ContentsOf(r, length + 1)[i] == c[i] {
      assert BitAt(grown, i) == (i < length && BitAt(data, i));
    }
  }

  // writeByte
  function PutByte(data: seq<uint8>, length: nat, value: uint8): (r: seq<uint8>)
    requires |data| == (length + 7) / 8
    ensures |r| == |data| + 1
  {
    if length % 8 == 0 then data + [value]
    else
      var last := |data| - 1;
      data[last := Joined(data[last], UpperPart(value, length % 8))] + [LowerPart(value, length % 8)]
  }

  // At the start or in the middle of a byte, writeByte appends the bits of value.
  lemma PutByteAppends(data: seq<uint8>, length: nat, value: uint8)
    requires Packed(data, length) && length % 4 == 0
    ensures Packed(PutByte(data, length, value), length + 8)
    ensures ContentsOf(PutByte(data, length, value), length + 8) == ContentsOf(data, length) + NumBits(value, 8)
  {
    var r := PutByte(data, length, value);
    forall i: nat | i < 8 * |r|
      ensures BitAt(r, i) == if i < length then BitAt(data, i)
        else if i < length + 8 then Bit(value, length + 7 - i) else false
    {
      PutByteBit(data, length, value, i);
    }
    hide BitAt, PutByte;
    var c := ContentsOf(data, length) + NumBits(value, 8);
    forall i | 0 <= i < length + 8 ensures ContentsOf(r, length + 8)[i] == c[i] {
    }
  }

  lemma PutByteBit(data: seq<uint8>, length: nat, value: uint8, i: nat)
    requires Packed(data, length) && length % 4 == 0 && i < 8 * |PutByte(data, length, value)|
    ensures BitAt(PutByte(data, length, value), i) ==
      if i < length then BitAt(data, i) else if i < length + 8 then Bit(value, length + 7 - i) else false
  {
    var r := PutByte(data, length, value);
    if length % 8 == 0 {
      if i >= length {
        assert i / 8 == |data| && 7 - i % 8 == length + 7 - i;
      }
    } else {
      var last := |data| - 1;
      assert length % 8 == 4 && length == 8 * last + 4;
      if i / 8 == last {
        if i >= length {
          assert !BitAt(data, i);
        } else {
          AboveByte(value, 7 - i % 8 + 4);
        }
      }
    }
  }

  lemma AboveByte(value: uint8, m: nat)
    requires m >= 8
    ensures !Bit(value, m)
  {
    BitMod(value, 8, m);
    Pow2Of8();
    SmallMod(value, Pow2(8));
  }

  // At other positions it does not, for all data and values.
  ghost predicate AppendsBytes(length: nat) {
    forall data: seq<uint8>, value: uint8 :: Packed(data, length) ==>
      ContentsOf(PutByte(data, length, value), length + 8) == ContentsOf(data, length) + NumBits(value, 8)
  }

  lemma PutByteExactly(length: nat)
    ensures AppendsBytes(length) <==> length % 4 == 0
  {
    if length % 4 == 0 {
      forall data: seq<uint8>, value: uint8 | Packed(data, length)
        ensures ContentsOf(PutByte(data, length, value), length + 8) == ContentsOf(data, length) + NumBits(value, 8)
      {
        PutByteAppends(data, length, value);
      }
    } else {
      PutByteFails(length);
    }
  }

  // The byte 255 after zeros: it changes a bit already written, or its own first bit is lost.
  lemma PutByteFails(length: nat)
    requires length % 4 != 0
    ensures !AppendsBytes(length)
  {
    PutByteFailsAt(length / 8, length % 8, length);
  }

  lemma PutByteFailsAt(a: nat, l1: nat, length: nat)
    requires l1 in {1, 2, 3, 5, 6, 7} && length == 8 * a + l1
    ensures !AppendsBytes(length)
  {
    hide PutByte, BitAt, Zeros, NumBits, Packed;
    var data, i := Zeros(a + 1), 8 * a + if l1 < 4 then l1 else l1 - 1;
    var r := PutByte(data, length, 255);
    PutAfterZeros(a, l1);
    FirstOne(ContentsOf(data, length));
    ZerosPacked(a + 1, length);
    var c := ContentsOf(data, length) + NumBits(255, 8);
    assert ContentsOf(r, length + 8)[i] == (i != length);
    assert c[i] == (i == length);
  }

  lemma ZerosPacked(n: nat, length: nat)
    requires n == (length + 7) / 8
    ensures Packed(Zeros(n), length)
  {}

  lemma FirstOne(c: seq<bool>)
    ensures (c + NumBits(255, 8))[|c|]
  {
    Pow2Of8();
    Ones(8, 7);
  }

  function Zeros(n: nat): (r: seq<uint8>)
    ensures |r| == n && forall i: nat :: i < 8 * n ==> !BitAt(r, i)
  {
    BitsOfZero();
    seq(n, _ => 0)
  }

  lemma BitsOfZero()
    ensures forall m :: 0 <= m < 8 ==> !Bit(0, m)
  {
    forall m | 0 <= m < 8 ensures !Bit(0, m) {
      BitOfZero(m);
    }
  }

  lemma PutAfterZeros(a: nat, l1: nat)
    requires l1 in {1, 2, 3, 5, 6, 7}
    ensures var i := 8 * a + if l1 < 4 then l1 else l1 - 1;
      BitAt(PutByte(Zeros(a + 1), 8 * a + l1, 255), i) == (i != 8 * a + l1)
  {
    var j := if l1 < 4 then l1 else l1 - 1;
    var i, m, data := 8 * a + j, 7 - j, Zeros(a + 1);
    assert (8 * a + l1) % 8 == l1 && i / 8 == a && i % 8 == j;
    PutByteLast(data, 8 * a + l1, 255);
    UpperOnes(l1, m);
    assert !BitAt(data, i);
    hide PutByte, Zeros, UpperPart, Bit;
  }

  lemma UpperOnes(l1: nat, m: nat)
    requires 0 < l1 < 8 && m < 8
    ensures Bit(UpperPart(255, l1), m) == (m < l1)
  {
    Pow2Of8();
    Ones(8, m + 8 - l1);
  }

  lemma PutByteLast(data: seq<uint8>, length: nat, value: uint8)
    requires |data| == (length + 7) / 8 && length % 8 != 0
    ensures var last := |data| - 1;
      PutByte(data, length, value)[last] == Joined(data[last], UpperPart(value, length % 8))
  {}

  // readByte, where a whole byte is left
  function GetByte(data: seq<uint8>, position: nat): (r: uint8)
    requires position + 8 <= 8 * |data|
  {
    var i, l1 := position / 8, position % 8;
    if l1 == 0 then
      data[i]
    else
      Joined(LeftPart(data[i], l1), RightPart(data[i + 1], 8 - l1))
  }

  // A byte moved to the left, cut to a byte, and a byte moved to the right.
  function LeftPart(x: uint8, n: nat): (r: uint8)
    requires n < 8
    ensures forall m :: 0 <= m < 8 ==> Bit(r, m) == (m >= n && Bit(x, m - n))
  {
    LeftPartIs(x, n);
    (x * Pow2(n)) % 256
  }

  lemma LeftPartIs(x: uint8, n: nat)
    requires n < 8
    ensures forall m :: 0 <= m < 8 ==> Bit((x * Pow2(n)) % 256, m) == (m >= n && Bit(x, m - n))
  {
    BitShl(x, n, 0);
    Pow2Of8();
    forall m | 0 <= m < 8 ensures Bit((x * Pow2(n)) % 256, m) == (m >= n && Bit(x, m - n)) {
      BitMod(x * Pow2(n), 8, m);
      BitShl(x, n, m);
    }
  }

  function RightPart(x: uint8, n: nat): (r: uint8)
    requires n < 8
    ensures forall m :: 0 <= m < 8 ==> Bit(r, m) == Bit(x, m + n)
  {
    RightPartIs(x, n);
    x / Pow2(n)
  }

  lemma RightPartIs(x: uint8, n: nat)
    requires n < 8
    ensures 0 <= x / Pow2(n) < 256 && forall m :: 0 <= m < 8 ==> Bit(x / Pow2(n), m) == Bit(x, m + n)
  {
    QuotientAtMost(x, Pow2(n));
    forall m | 0 <= m < 8 ensures Bit(x / Pow2(n), m) == Bit(x, m + n) {
      BitShr(x, n, m);
    }
  }

  lemma GetByteBit(data: seq<uint8>, position: nat, k: nat)
    requires position + 8 <= 8 * |data| && k < 8
    ensures Bit(GetByte(data, position), 7 - k) == BitAt(data, position + k)
  {
    var i, l1 := position / 8, position % 8;
    if l1 == 0 {
      assert (position + k) / 8 == i && (position + k) % 8 == k;
    } else if k < 8 - l1 {
      assert (position + k) / 8 == i && (position + k) % 8 == l1 + k;
      AboveByte(data[i + 1], 7 - k + 8 - l1);
    } else {
      assert (position + k) / 8 == i + 1 && (position + k) % 8 == l1 + k - 8;
    }
  }

  // At any position, readByte gives the next eight bits.
  lemma GetByteReads(data: seq<uint8>, position: nat, length: nat)
    requires position + 8 <= length <= 8 * |data|
    ensures NumBits(GetByte(data, position), 8) == ContentsOf(data, length)[position..position + 8]
  {
    hide GetByte;
    forall k | 0 <= k < 8
      ensures NumBits(GetByte(data, position), 8)[k] == ContentsOf(data, length)[position..position + 8][k]
    {
      GetByteBit(data, position, k);
    }
  }
}