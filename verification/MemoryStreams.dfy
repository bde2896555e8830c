// MemoryOutputStream and MemoryInputStream: bits written are read back.

module MemoryStreams {
  import opened Bits
  import opened Powers
  import opened BitStreams
  import opened Sequences

  // The k-th byte of v, from the least significant.
  function Byte(v: nat, k: nat): (r: uint8) { Shr(v, 8 * k) % 256 }

  // The lowest n bytes of v, the least and the most significant first.
  function LeBits(v: nat, n: nat): (s: seq<bool>)
    ensures |s| == 8 * n
  {
    if n == 0 then [] else LeBits(v, n - 1) + NumBits(Byte(v, n - 1), 8)
  }

  function BeBits(v: nat, n: nat): (s: seq<bool>)
    ensures |s| == 8 * n
  {
    if n == 0 then [] else NumBits(Byte(v, n - 1), 8) + BeBits(v, n - 1)
  }

  lemma NoBytes(v: nat)
    ensures LeBits(v, 0) == [] && BeBits(v, 0) == []
  {}

  // Big endian is just the order of the bits.
  lemma {:induction false} BeBitsAre(v: nat, n: nat)
    ensures BeBits(v, n) == NumBits(v, 8 * n)
  {
    if n > 0 {
      BeBitsAre(v, n - 1);
      var k := 8 * (n - 1);
      NumBitsSplit(v, 8, k);
      Pow2Of8();
      NumBitsMod(Shr(v, k), 8, 8);
    }
  }

  class MemoryOutputStream {
    var data: seq<uint8>
    var length: nat

    ghost predicate Valid()
      reads this
    {
      Packed(data, length)
    }

    ghost function Contents(): seq<bool>
      requires Valid()
      reads this
    {
      ContentsOf(data, length)
    }

    constructor ()
      ensures Valid() && length == 0 && Contents() == []
    {
      data, length := [], 0;
    }

    method WriteBit(value: bool)
      requires Valid()
      modifies this
      ensures Valid() && length == old(length) + 1 && Contents() == old(Contents()) + [value]
    {
      PutBitAppends(data, length, value);
      var byteIndex, bitIndex := length / 8, length % 8;
      if bitIndex == 0 {
        data := data + [0];
      }
      if value {
        data := data[byteIndex := SetIn(data[byteIndex], bitIndex)];
      }
      length := length + 1;
    }

    // The bits from `offset` on, `count` of them or, for -1, all. Fails after the
    // last bit if there are not so many.
    method WriteBits(bits: seq<bool>, offset: nat, count: int) returns (ok: bool)
      requires Valid() && count >= -1
      modifies this
      ensures Valid() && length == |Contents()|
      ensures var end := if count == -1 then |bits| else offset + count;
        (ok <==> end <= |bits| || end <= offset) && Contents() == old(Contents()) + Slice(bits, offset, end)
    {
      var end := if count == -1 then |bits| else offset + count;
      var i := offset;
      while i < end
        invariant offset <= i && (i <= end || i == offset) && (i <= |bits| || i == offset)
        invariant Valid() && Contents() == old(Contents()) + Slice(bits, offset, i)
        decreases end - i
      {
        if i >= |bits| {
          return false;
        }
        WriteBit(bits[i]);
        assert Slice(bits, offset, i + 1) == Slice(bits, offset, i) + [bits[i]];
        i := i + 1;
      }
      return true;
    }

    // Appends the byte at the start and in the middle of a byte; PutByteExactly
    // says that it does so nowhere else.
    method WriteByte(value: uint8)
      requires |data| == (length + 7) / 8
      modifies this
      ensures data == PutByte(old(data), old(length), value) && length == old(length) + 8
      ensures old(length) % 8 == 0 ==> data == old(data) + [value]
      ensures old(Valid()) && old(length) % 4 == 0 ==> Valid() && Contents() == old(Contents()) + NumBits(value, 8)
    {
      if Packed(data, length) && length % 4 == 0 {
        PutByteAppends(data, length, value);
      }
      if length % 8 == 0 {
        data := data + [value];
      } else {
        var l1, last := length % 8, |data| - 1;
        data := data[last := Joined(data[last], UpperPart(value, l1))];
        data := data + [LowerPart(value, l1)];
      }
      length := length + 8;
    }

    // The bytes from `offset` on, `count` of them or, for -1, all.
    method WriteBytes(bytes: seq<uint8>, offset: nat, count: int)
      requires Valid() && length % 8 == 0 && count >= -1
      requires offset <= (if count == -1 then |bytes| else offset + count) <= |bytes|
      modifies this
      ensures var end := if count == -1 then |bytes| else offset + count;
        Valid() && length == old(length) + 8 * (end - offset)
          && Contents() == old(Contents()) + BytesBits(bytes[offset..end])
    {
      var end := if count == -1 then |bytes| else offset + count;
      BytesAppended(data, length, bytes[offset..end]);
      data := data + bytes[offset..end];
      length := length + 8 * (end - offset);
    }

    // The k-th byte of value, in big endian order: `c` is what is to be written in all.
    method WriteBeByte(value: nat, k: nat, ghost c: seq<bool>)
      requires Valid() && length % 4 == 0 && Contents() + BeBits(value, k + 1) == c
      modifies this
      ensures Valid() && length == old(length) + 8 && Contents() + BeBits(value, k) == c
    {
      ghost var before := Contents();
      WriteByte(Byte(value, k));
      Assoc(before, NumBits(Byte(value, k), 8), BeBits(value, k));
    }

    // The k-th byte of value, in little endian order, after `c` and the lower bytes.
    method WriteLeByte(value: nat, k: nat, ghost c: seq<bool>)
      requires Valid() && length % 4 == 0 && Contents() == c + LeBits(value, k)
      modifies this
      ensures Valid() && length == old(length) + 8 && Contents() == c + LeBits(value, k + 1)
    {
      WriteByte(Byte(value, k));
      Assoc(c, LeBits(value, k), NumBits(Byte(value, k), 8));
    }

    // Four bytes of value, from the k-th on.
    method WriteBeFour(value: nat, k: nat, ghost c: seq<bool>)
      requires Valid() && length % 4 == 0 && Contents() + BeBits(value, k + 4) == c
      modifies this
      ensures Valid() && length == old(length) + 32 && Contents() + BeBits(value, k) == c
    {
      hide Packed, ContentsOf, NumBits, Byte, BeBits;
      WriteBeByte(value, k + 3, c);
      WriteBeByte(value, k + 2, c);
      WriteBeByte(value, k + 1, c);
      WriteBeByte(value, k, c);
    }

    method WriteLeFour(value: nat, k: nat, ghost c: seq<bool>)
      requires Valid() && length % 4 == 0 && Contents() == c + LeBits(value, k)
      modifies this
      ensures Valid() && length == old(length) + 32 && Contents() == c + LeBits(value, k + 4)
    {
      hide Packed, ContentsOf, NumBits, Byte, LeBits;
      WriteLeByte(value, k, c);
      WriteLeByte(value, k + 1, c);
      WriteLeByte(value, k + 2, c);
      WriteLeByte(value, k + 3, c);
    }

    method WriteUint2(value: nat)
      requires Valid()
      modifies this
      ensures Valid() && length == old(length) + 2 && Contents() == old(Contents()) + NumBits(value, 2)
    {
      Masks(value);
      WriteBit(And(value, 0x2) != 0);
      WriteBit(And(value, 0x1) != 0);
    }

    method WriteUint4(value: nat)
      requires Valid()
      modifies this
      ensures Valid() && length == old(length) + 4 && Contents() == old(Contents()) + NumBits(value, 4)
    {
      Masks(value);
      WriteBit(And(value, 0x8) != 0);
      WriteBit(And(value, 0x4) != 0);
      WriteBit(And(value, 0x2) != 0);
      WriteBit(And(value, 0x1) != 0);
    }

    method WriteUint16Be(value: nat)
      requires Valid() && length % 4 == 0
      modifies this
      ensures Valid() && length == old(length) + 16 && Contents() == old(Contents()) + BeBits(value, 2)
    {
      hide Packed, ContentsOf, NumBits, Byte, Shr, BeBits, LeBits;
      ghost var c := Contents() + BeBits(value, 2);
      NoBytes(value);
      WriteBeByte(value, 1, c);
      WriteBeByte(value, 0, c);
    }

    method WriteUint16Le(value: nat)
      requires Valid() && length % 4 == 0
      modifies this
      ensures Valid() && length == old(length) + 16 && Contents() == old(Contents()) + LeBits(value, 2)
    {
      hide Packed, ContentsOf, NumBits, Byte, Shr, BeBits, LeBits;
      ghost var c := Contents();
      NoBytes(value);
      WriteLeByte(value, 0, c);
      WriteLeByte(value, 1, c);
    }

    method WriteUint24Be(value: nat)
      requires Valid() && length % 4 == 0
      modifies this
      ensures Valid() && length == old(length) + 24 && Contents() == old(Contents()) + BeBits(value, 3)
    {
      hide Packed, ContentsOf, NumBits, Byte, Shr, BeBits, LeBits;
      ghost var c := Contents() + BeBits(value, 3);
      NoBytes(value);
      WriteBeByte(value, 2, c);
      WriteBeByte(value, 1, c);
      WriteBeByte(value, 0, c);
    }

    method WriteUint24Le(value: nat)
      requires Valid() && length % 4 == 0
      modifies this
      ensures Valid() && length == old(length) + 24 && Contents() == old(Contents()) + LeBits(value, 3)
    {
      hide Packed, ContentsOf, NumBits, Byte, Shr, BeBits, LeBits;
      ghost var c := Contents();
      NoBytes(value);
      WriteLeByte(value, 0, c);
      WriteLeByte(value, 1, c);
      WriteLeByte(value, 2, c);
    }

    method WriteUint32Be(value: nat)
      requires Valid() && length % 4 == 0
      modifies this
      ensures Valid() && length == old(length) + 32 && Contents() == old(Contents()) + BeBits(value, 4)
    {
      hide Packed, ContentsOf, NumBits, Byte, Shr, BeBits, LeBits;
      ghost var c := Contents() + BeBits(value, 4);
      NoBytes(value);
      WriteBeFour(value, 0, c);
    }

    method WriteUint32Le(value: nat)
      requires Valid() && length % 4 == 0
      modifies this
      ensures Valid() && length == old(length) + 32 && Contents() == old(Contents()) + LeBits(value, 4)
    {
      hide Packed, ContentsOf, NumBits, Byte, Shr, BeBits, LeBits;
      ghost var c := Contents();
      NoBytes(value);
      WriteLeFour(value, 0, c);
    }

    method WriteUint64Be(value: nat)
      requires Valid() && length % 4 == 0
      modifies this
      ensures Valid() && length == old(length) + 64 && Contents() == old(Contents()) + BeBits(value, 8)
    {
      hide Packed, ContentsOf, NumBits, Byte, Shr, BeBits, LeBits;
      ghost var c := Contents() + BeBits(value, 8);
      NoBytes(value);
      WriteBeFour(value, 4, c);
      WriteBeFour(value, 0, c);
    }

    method WriteUint64Le(value: nat)
      requires Valid() && length % 4 == 0
      modifies this
      ensures Valid() && length == old(length) + 64 && Contents() == old(Contents()) + LeBits(value, 8)
    {
      hide Packed, ContentsOf, NumBits, Byte, Shr, BeBits, LeBits;
      ghost var c := Contents();
      NoBytes(value);
      WriteLeFour(value, 0, c);
      WriteLeFour(value, 4, c);
    }

    // The characters and a zero byte.
    method WriteString(s: seq<uint8>)
      requires Valid() && length % 8 == 0
      modifies this
      ensures Valid() && length == old(length) + 8 * (|s| + 1) && Contents() == old(Contents()) + BytesBits(s + [0])
    {
      ghost var c := Contents();
      ByteAdded(s, 0);
      Assoc(c, BytesBits(s), NumBits(0, 8));
      hide Packed, ContentsOf, NumBits, BytesBits, PutByte;
      assert s[0..|s|] == s;
      WriteBytes(s, 0, -1);
      assert length % 4 == 0;
      WriteByte(0);
    }

    // n bits of value, by a mask that moves to the right. Fails for n = 0 and n > 64.
    // From n = 33 on `shifted` is what the undefined shift gives.
    method WriteNBitsOfUint64Be(value: nat, n: nat, shifted: nat) returns (ok: bool)
      requires Valid() && value < Pow2(64) && shifted < Pow2(64)
      modifies this
      ensures Valid() && (ok <==> 0 < n <= 64)
      ensures !ok ==> length == old(length) && Contents() == old(Contents())
      ensures ok ==>
        length == old(length) + n && Contents() == old(Contents()) + Masked(value, FirstMask(n, shifted), n)
    {
      if n == 0 || n > 64 {
        return false;
      }
      var mul := FirstMask(n, shifted);
      ghost var c := Contents();
      for i := 0 to n
        invariant Valid() && length == old(length) + i
        invariant Contents() + Masked(value, mul, n - i) == c + Masked(value, FirstMask(n, shifted), n)
      {
        ghost var before := Contents();
        WriteBit(And(value, mul) != 0);
        Assoc(before, [And(value, mul) != 0], Masked(value, mul / 2, n - i - 1));
        mul := mul / 2;
      }
      ok := true;
    }
  }

  // The elements from `offset` up to `end`, or as many of them as there are.
  function Slice<T>(s: seq<T>, offset: nat, end: int): seq<T> {
    if end <= offset || offset >= |s| then [] else s[offset..if end <= |s| then end else |s|]
  }

  // The mask is built as an int and then widened: for n = 32 its sign is
  // extended, and for greater n the shift is undefined.
  function FirstMask(n: nat, shifted: nat): (mul: nat)
    requires 0 < n <= 64 && shifted < Pow2(64)
    ensures mul < Pow2(64)
  {
    Pow2Below(31, 64);
    if n < 32 then
      Pow2Below(n - 1, 64);
      Pow2(n - 1)
    else if n == 32 then Pow2(64) - Pow2(31)
    else shifted
  }

  // The bits of value a moving mask finds.
  function Masked(value: nat, mul: nat, n: nat): (s: seq<bool>)
    ensures |s| == n
  {
    if n == 0 then [] else [And(value, mul) != 0] + Masked(value, mul / 2, n - 1)
  }

  // The number a moving mask makes of bits.
  function Gathered(num: nat, s: seq<bool>, mul: nat): nat
    decreases |s|
  {
    if s == [] then num else Gathered(if s[0] then Or(num, mul) else num, s[1..], mul / 2)
  }

  lemma {:induction false} MaskedAre(value: nat, n: nat)
    requires n > 0
    ensures Masked(value, Pow2(n - 1), n) == NumBits(value, n)
  {
    AndBit(value, n - 1);
    if n > 1 {
      MaskedAre(value, n - 1);
      assert Pow2(n - 1) / 2 == Pow2(n - 2);
      assert NumBits(value, n) == [Bit(value, n - 1)] + NumBits(value, n - 1);
    } else {
      assert Masked(value, Pow2(0) / 2, 0) == [];
    }
  }

  // The n lowest bits are written, for all values, just if the first mask is the
  // single bit n - 1.
  lemma MaskedExactly(mul: nat, n: nat)
    requires 0 < n <= 64 && mul < Pow2(64)
    ensures (forall value: nat :: value < Pow2(64) ==> Masked(value, mul, n) == NumBits(value, n)) <==>
      mul == Pow2(n - 1)
  {
    if mul == Pow2(n - 1) {
      forall value: nat ensures Masked(value, mul, n) == NumBits(value, n) {
        MaskedAre(value, n);
      }
    }
    if forall value: nat :: value < Pow2(64) ==> Masked(value, mul, n) == NumBits(value, n) {
      forall i | 0 <= i < 64 ensures Bit(mul, i) == Bit(Pow2(n - 1), i) {
        Pow2Below(i, 64);
        FirstMasked(Pow2(i), mul, n);
        MaskedBit(mul, i, n);
      }
      if n - 1 < 64 {
        Pow2Below(n - 1, 64);
      }
      SameBits(mul, Pow2(n - 1), 64);
    }
  }

  lemma FirstMasked(value: nat, mul: nat, n: nat)
    requires n > 0
    ensures Masked(value, mul, n)[0] == (And(value, mul) != 0) && NumBits(value, n)[0] == Bit(value, n - 1)
  {}

  lemma MaskedBit(mul: nat, i: nat, n: nat)
    requires n > 0
    ensures (And(Pow2(i), mul) != 0) == Bit(mul, i) && Bit(Pow2(i), n - 1) == Bit(Pow2(n - 1), i)
  {
    AndCommutes(mul, Pow2(i));
    AndBit(mul, i);
    BitOfPow2(i, n - 1);
    BitOfPow2(n - 1, i);
  }

  lemma {:induction false} AndCommutes(x: nat, y: nat)
    ensures And(x, y) == And(y, x)
  {
    if x > 0 && y > 0 {
      AndCommutes(x / 2, y / 2);
    }
  }

  // Which it is just for n up to 31, or if an undefined shift happens to give it.
  lemma FirstMaskRight(n: nat, shifted: nat)
    requires 0 < n <= 64 && shifted < Pow2(64)
    ensures FirstMask(n, shifted) == Pow2(n - 1) <==> n < 32 || (n > 32 && shifted == Pow2(n - 1))
  {
    if n == 32 {
      Pow2Below(32, 64);
      assert Pow2(32) == 2 * Pow2(31);
    }
  }

  // With the single bit n - 1 as first mask, and with no other, all n bits are
  // read as the number they write.
  lemma GatheredExactly(mul: nat, n: nat)
    requires 0 < n <= 64 && mul < Pow2(64)
    ensures (forall s: seq<bool> :: |s| == n ==>
      Gathered(0, s, mul) < Pow2(n) && NumBits(Gathered(0, s, mul), n) == s) <==> mul == Pow2(n - 1)
  {
    if mul == Pow2(n - 1) {
      forall s: seq<bool> | |s| == n ensures Gathered(0, s, mul) < Pow2(n) && NumBits(Gathered(0, s, mul), n) == s {
        MaskStart(n);
        assert [] + s == s;
        GatheredRead(0, [], s, n, mul);
      }
    }
    if forall s: seq<bool> :: |s| == n ==> Gathered(0, s, mul) < Pow2(n) && NumBits(Gathered(0, s, mul), n) == s {
      var s := NumBits(Pow2(n - 1), n);
      FirstGathered(mul, n);
      assert NumBits(Gathered(0, s, mul), n) == s;
      Pow2Below(n - 1, n);
      NumBitsInjective(mul, Pow2(n - 1), n);
    }
  }

  lemma {:induction false} GatheredRead(num: nat, done: seq<bool>, rest: seq<bool>, n: nat, mul: nat)
    requires MaskRead(num, done, n, |done|) && |done| + |rest| == n && (rest != [] ==> mul == Pow2(|rest| - 1))
    ensures Gathered(num, rest, mul) < Pow2(n) && NumBits(Gathered(num, rest, mul), n) == done + rest
    decreases |rest|
  {
    if rest == [] {
      assert done + rest == done;
      MaskEnd(num, done, n);
    } else {
      hide MaskRead, NumBits, Or;
      MaskStep(num, done, n, |done|, rest[0]);
      assert |rest| > 1 ==> Pow2(|rest| - 1) / 2 == Pow2(|rest| - 2);
      GatheredRead(if rest[0] then Or(num, mul) else num, done + [rest[0]], rest[1..], n, mul / 2);
      assert done + [rest[0]] + rest[1..] == done + rest;
    }
  }

  // Only the first bit is set.
  lemma FirstGathered(mul: nat, n: nat)
    requires n > 0
    ensures Gathered(0, NumBits(Pow2(n - 1), n), mul) == mul
  {
    var s := NumBits(Pow2(n - 1), n);
    forall k | 0 <= k < n ensures s[k] == (k == 0) {
      BitOfPow2(n - 1, n - 1 - k);
    }
    assert Or(0, mul) == mul;
    NothingGathered(mul, s[1..], mul / 2);
  }

  lemma {:induction false} NothingGathered(num: nat, s: seq<bool>, mul: nat)
    requires forall k :: 0 <= k < |s| ==> !s[k]
    ensures Gathered(num, s, mul) == num
    decreases |s|
  {
    if s != [] {
      NothingGathered(num, s[1..], mul / 2);
    }
  }

  lemma Masks(value: nat)
    ensures (And(value, 0x1) != 0) == Bit(value, 0) && (And(value, 0x2) != 0) == Bit(value, 1)
    ensures (And(value, 0x4) != 0) == Bit(value, 2) && (And(value, 0x8) != 0) == Bit(value, 3)
  {
    AndBit(value, 0);
    AndBit(value, 1);
    AndBit(value, 2);
    AndBit(value, 3);
    assert Pow2(0) == 1 && Pow2(1) == 2 && Pow2(2) == 4 && Pow2(3) == 8;
  }

  function BytesBits(bytes: seq<uint8>): (s: seq<bool>)
    ensures |s| == 8 * |bytes|
  {
    if bytes == [] then [] else BytesBits(bytes[..|bytes| - 1]) + NumBits(bytes[|bytes| - 1], 8)
  }

  lemma {:induction false} BytesAppended(data: seq<uint8>, length: nat, bytes: seq<uint8>)
    requires Packed(data, length) && length % 8 == 0
    ensures Packed(data + bytes, length + 8 * |bytes|)
    ensures ContentsOf(data + bytes, length + 8 * |bytes|) == ContentsOf(data, length) + BytesBits(bytes)
    decreases |bytes|
  {
    if bytes == [] {
      assert data + bytes == data;
    } else {
      var before, last := bytes[..|bytes| - 1], bytes[|bytes| - 1];
      BytesAppended(data, length, before);
      OneByteMore(data + before, length + 8 * |before|, last);
      hide Packed, ContentsOf, NumBits;
      assert bytes == before + [last] && data + bytes == data + before + [last];
      Assoc(ContentsOf(data, length), BytesBits(before), NumBits(last, 8));
    }
  }

  lemma OneByteMore(data: seq<uint8>, length: nat, byte: uint8)
    requires Packed(data, length) && length % 8 == 0
    ensures Packed(data + [byte], length + 8)
      && ContentsOf(data + [byte], length + 8) == ContentsOf(data, length) + NumBits(byte, 8)
  {
    PutByteAppends(data, length, byte);
  }

  // ---- reading

  // The bytes of value from the k-th on, of n, are read: they spell s.
  ghost predicate BeRead(value: nat, s: seq<bool>, n: nat, k: nat) {
    && k <= n && |s| == 8 * (n - k) && value < Pow2(8 * n)
    && (forall m :: 0 <= m < 8 * n ==> Bit(value, m) == (m >= 8 * k && s[8 * n - 1 - m]))
  }

  ghost predicate LeRead(value: nat, s: seq<bool>, k: nat) {
    value < Pow2(8 * k) && LeBits(value, k) == s
  }

  lemma BeStart(n: nat)
    ensures BeRead(0, [], n, n)
  {
    forall m ensures m >= 0 ==> !Bit(0, m) {
      if m >= 0 {
        BitOfZero(m);
      }
    }
  }

  lemma LeStart()
    ensures LeRead(0, [], 0)
  {}

  lemma BeStep(value: nat, s: seq<bool>, n: nat, k: nat, b: uint8)
    requires BeRead(value, s, n, k + 1)
    ensures BeRead(Or(value, b * Pow2(8 * k)), s + NumBits(b, 8), n, k)
  {
    var t, r := s + NumBits(b, 8), Or(value, b * Pow2(8 * k));
    Pow2Of8();
    Pow2Add(8, 8 * k);
    TimesMonotone(b, 255, Pow2(8 * k));
    if k + 1 < n {
      Pow2Below(8 * (k + 1), 8 * n);
    }
    BitShl(b, 8 * k, 0);
    OrBound(value, b * Pow2(8 * k), 8 * n);
    forall m | 0 <= m < 8 * n ensures Bit(r, m) == (m >= 8 * k && t[8 * n - 1 - m]) {
      BitOr(value, b * Pow2(8 * k), m);
      BitShl(b, 8 * k, m);
      if m >= 8 * k + 8 {
        AboveByte(b, m - 8 * k);
      }
    }
  }

  lemma BeEnd(value: nat, s: seq<bool>, n: nat)
    ensures BeRead(value, s, n, 0) ==> BeBits(value, n) == s
  {
    BeBitsAre(value, n);
    if BeRead(value, s, n, 0) {
      forall i | 0 <= i < 8 * n ensures NumBits(value, 8 * n)[i] == s[i] {
        assert Bit(value, 8 * n - 1 - i) == s[8 * n - 1 - (8 * n - 1 - i)];
      }
    }
  }

  lemma LeStep(value: nat, s: seq<bool>, k: nat, b: uint8)
    requires LeRead(value, s, k)
    ensures LeRead(Or(value, b * Pow2(8 * k)), s + NumBits(b, 8), k + 1)
  {
    hide Or, Pow2, NumBits, LeBits, Byte;
    var p := Pow2(8 * k);
    Pow2Of8();
    Pow2Add(8, 8 * k);
    LeArithmetic(value, p, b);
    OrDisjoint(value, b * p, 8 * k);
    LeLow(value, value + b * p, k);
    LeNext(value + b * p, k, b);
  }

  lemma LeArithmetic(value: nat, p: nat, b: uint8)
    requires value < p
    ensures b * p >= 0 && b * p % p == 0
    ensures (value + b * p) / p == b && (value + b * p) % p == value && value + b * p < 256 * p
  {
    TimesMonotone(b, 255, p);
    DivModIs(b * p, p, b, 0);
    DivModIs(value + b * p, p, b, value);
  }

  lemma LeNext(v: nat, k: nat, b: uint8)
    requires v / Pow2(8 * k) == b
    ensures LeBits(v, k + 1) == LeBits(v, k) + NumBits(b, 8)
  {
    hide Pow2, NumBits;
  }

  // The lowest bytes depend on the lowest bits only.
  lemma {:induction false} LeLow(v: nat, w: nat, k: nat)
    requires v == w % Pow2(8 * k)
    ensures LeBits(v, k) == LeBits(w, k)
    decreases k
  {
    if k > 0 {
      var j := 8 * (k - 1);
      LeLow(v % Pow2(j), v, k - 1);
      LeLow(w % Pow2(j), w, k - 1);
      forall m | 0 <= m < 8 * k ensures Bit(v, m) == Bit(w, m) {
        BitMod(w, 8 * k, m);
      }
      LowBitsSame(v, w, j, 8 * k);
      ByteBits(v, w, k - 1);
    }
  }

  lemma LowBitsSame(v: nat, w: nat, j: nat, n: nat)
    requires j <= n && forall m :: 0 <= m < n ==> Bit(v, m) == Bit(w, m)
    ensures v % Pow2(j) == w % Pow2(j)
  {
    forall m | 0 <= m < j ensures Bit(v % Pow2(j), m) == Bit(w % Pow2(j), m) {
      BitMod(v, j, m);
      BitMod(w, j, m);
    }
    SameBits(v % Pow2(j), w % Pow2(j), j);
  }

  lemma ByteBits(v: nat, w: nat, j: nat)
    requires forall m :: 0 <= m < 8 * j + 8 ==> Bit(v, m) == Bit(w, m)
    ensures Byte(v, j) == Byte(w, j)
  {
    Pow2Of8();
    forall m | 0 <= m < 8 ensures Bit(Byte(v, j), m) == Bit(Byte(w, j), m) {
      BitMod(Shr(v, 8 * j), 8, m);
      BitMod(Shr(w, 8 * j), 8, m);
      BitShr(v, 8 * j, m);
      BitShr(w, 8 * j, m);
    }
    SameBits(Byte(v, j), Byte(w, j), 8);
  }

  class MemoryInputStream {
    const data: seq<uint8>
    const length: nat
    var position: nat
    var isReadBeyondEnd: bool

    ghost predicate Valid()
      reads this
    {
      length <= 8 * |data| && position <= length
    }

    // All the bits of the stream.
    ghost function Bits(): seq<bool>
      requires length <= 8 * |data|
    {
      ContentsOf(data, length)
    }

    ghost function Next(p: nat, n: nat): seq<bool>
      requires length <= 8 * |data| && p + n <= length
    {
      Bits()[p..p + n]
    }

    // n bits were read from position p on, or as many as there were.
    ghost predicate Advanced(p: nat, n: nat, beyond: bool)
      reads this
    {
      && Valid() && position == (if p + n <= length then p + n else length)
      && isReadBeyondEnd == (beyond || p + n > length)
    }

    // What n single bits are read as: beyond the end they are not set.
    ghost function Padded(p: nat, n: nat): (s: seq<bool>)
      requires length <= 8 * |data|
      ensures p + n <= length ==> s == Next(p, n)
    {
      seq(n, i requires 0 <= i < n => p + i < length && Bits()[p + i])
    }

    // What n bytes are read as: a byte that is not there as a whole is 0.
    ghost function Filled(p: nat, n: nat): (s: seq<bool>)
      requires length <= 8 * |data|
      ensures p + 8 * n <= length ==> s == Next(p, 8 * n)
    {
      seq(8 * n, i requires 0 <= i < 8 * n => p + 8 * (i / 8 + 1) <= length && Bits()[p + i])
    }

    lemma PaddedMore(p: nat, n: nat)
      requires length <= 8 * |data|
      ensures Padded(p, 0) == [] && Padded(p, n + 1) == Padded(p, n) + [p + n < length && Bits()[p + n]]
    {}

    lemma FilledMore(p: nat, n: nat, b: uint8)
      requires length <= 8 * |data|
      requires if p + 8 * n + 8 <= length then NumBits(b, 8) == Next(p + 8 * n, 8) else b == 0
      ensures Filled(p, 0) == [] && Filled(p, n + 1) == Filled(p, n) + NumBits(b, 8)
    {
      var s, t := Filled(p, n + 1), Filled(p, n) + NumBits(b, 8);
      assert |s| == |t| == 8 * n + 8;
      forall i | 0 <= i < |s| ensures s[i] == t[i] {
        if i >= 8 * n {
          assert i / 8 == n && t[i] == NumBits(b, 8)[i - 8 * n];
          if p + 8 * n + 8 > length {
            BitOfZero(8 * n + 7 - i);
          }
        }
      }
    }

    constructor (data: seq<uint8>, length: int := -1, position: nat := 0)
      requires -1 <= length <= 8 * |data| && position <= if length == -1 then 8 * |data| else length
      ensures Valid() && this.data == data && this.length == (if length == -1 then 8 * |data| else length)
      ensures this.position == position && !isReadBeyondEnd
    {
      this.data, this.length := data, if length == -1 then 8 * |data| else length;
      this.position, isReadBeyondEnd := position, false;
    }

    method ReadBit() returns (r: bool)
      requires Valid()
      modifies this`position, this`isReadBeyondEnd
      ensures Advanced(old(position), 1, old(isReadBeyondEnd))
      ensures if old(position) == length then !r && position == length else r == Bits()[old(position)]
    {
      if position == length {
        isReadBeyondEnd := true;
        return false;
      }
      var byteIndex, bitIndex := position / 8, position % 8;
      position := position + 1;
      var byte: nat := data[byteIndex];
      AndBit(byte, 7 - bitIndex);
      r := And(byte, Pow2(7 - bitIndex)) != 0;
    }

    method ReadByte() returns (r: uint8)
      requires Valid()
      modifies this`position, this`isReadBeyondEnd
      ensures Advanced(old(position), 8, old(isReadBeyondEnd))
      ensures if old(position) + 8 > length then r == 0 && position == length
        else NumBits(r, 8) == Next(old(position), 8)
      ensures old(position) % 8 == 0 && old(position) + 8 <= length ==> r == data[old(position) / 8]
    {
      if position + 8 > length {
        isReadBeyondEnd := true;
        position := length;
        return 0;
      }
      GetByteReads(data, position, length);
      if position % 8 == 0 {
        r := data[position / 8];
      } else {
        var l1 := position % 8;
        var l2 := 8 - l1;
        r := LeftPart(data[(position - l1) / 8], l1);
        r := Joined(r, RightPart(data[(position + l2) / 8], l2));
      }
      position := position + 8;
    }

    // k bytes of n are still to be read, most significant first, from position p on.
    ghost predicate BeProgress(value: nat, k: nat, p: nat, n: nat, beyond: bool)
      reads this
    {
      Valid() && k <= n && Advanced(p, 8 * (n - k), beyond) && BeRead(value, Filled(p, n - k), n, k)
    }

    // k bytes are read, least significant first.
    ghost predicate LeProgress(value: nat, k: nat, p: nat, n: nat, beyond: bool)
      reads this
    {
      Valid() && k <= n && Advanced(p, 8 * k, beyond) && LeRead(value, Filled(p, k), k)
    }

    // Puts the next byte into the k-th eight bits of value.
    method ReadBeByte(value: nat, k: nat, ghost p: nat, ghost n: nat, ghost beyond: bool) returns (r: nat)
      requires BeProgress(value, k + 1, p, n, beyond)
      modifies this`position, this`isReadBeyondEnd
      ensures BeProgress(r, k, p, n, beyond)
    {
      hide Filled, BeRead, NumBits, Or, Pow2;
      var b := ReadByte();
      r := Or(value, b * Pow2(8 * k));
      FilledMore(p, n - k - 1, b);
      BeStep(value, Filled(p, n - k - 1), n, k, b);
    }

    method ReadLeByte(value: nat, k: nat, ghost p: nat, ghost n: nat, ghost beyond: bool) returns (r: nat)
      requires LeProgress(value, k, p, n, beyond) && k < n
      modifies this`position, this`isReadBeyondEnd
      ensures LeProgress(r, k + 1, p, n, beyond)
    {
      hide Filled, LeRead, NumBits, Or, Pow2;
      var b := ReadByte();
      r := Or(value, b * Pow2(8 * k));
      FilledMore(p, k, b);
      LeStep(value, Filled(p, k), k, b);
    }

    method ReadBeFour(value: nat, k: nat, ghost p: nat, ghost n: nat, ghost beyond: bool) returns (r: nat)
      requires BeProgress(value, k + 4, p, n, beyond)
      modifies this`position, this`isReadBeyondEnd
      ensures BeProgress(r, k, p, n, beyond)
    {
      hide MemoryInputStream.BeProgress;
      r := ReadBeByte(value, k + 3, p, n, beyond);
      r := ReadBeByte(r, k + 2, p, n, beyond);
      r := ReadBeByte(r, k + 1, p, n, beyond);
      r := ReadBeByte(r, k, p, n, beyond);
    }

    method ReadLeFour(value: nat, k: nat, ghost p: nat, ghost n: nat, ghost beyond: bool) returns (r: nat)
      requires LeProgress(value, k, p, n, beyond) && k + 4 <= n
      modifies this`position, this`isReadBeyondEnd
      ensures LeProgress(r, k + 4, p, n, beyond)
    {
      hide MemoryInputStream.LeProgress;
      r := ReadLeByte(value, k, p, n, beyond);
      r := ReadLeByte(r, k + 1, p, n, beyond);
      r := ReadLeByte(r, k + 2, p, n, beyond);
      r := ReadLeByte(r, k + 3, p, n, beyond);
    }

    lemma BeFinished(value: nat, p: nat, n: nat, beyond: bool)
      requires BeProgress(value, 0, p, n, beyond)
      ensures Advanced(p, 8 * n, beyond) && value < Pow2(8 * n) && BeBits(value, n) == Filled(p, n)
    {
      BeEnd(value, Filled(p, n), n);
    }

    lemma LeFinished(value: nat, p: nat, n: nat, beyond: bool)
      requires LeProgress(value, n, p, n, beyond)
      ensures Advanced(p, 8 * n, beyond) && value < Pow2(8 * n) && LeBits(value, n) == Filled(p, n)
    {}

    method ReadUint16Be() returns (value: nat)
      requires Valid()
      modifies this`position, this`isReadBeyondEnd
      ensures Advanced(old(position), 16, old(isReadBeyondEnd))
      ensures value < Pow2(16) && BeBits(value, 2) == Filled(old(position), 2)
    {
      ghost var p, beyond := position, isReadBeyondEnd;
      BeStart(2);
      assert Filled(p, 0) == [];
      hide BeRead, BeBits, NumBits;
      value := 0;
      value := ReadBeByte(value, 1, p, 2, beyond);
      value := ReadBeByte(value, 0, p, 2, beyond);
      BeFinished(value, p, 2, beyond);
    }

    method ReadUint16Le() returns (value: nat)
      requires Valid()
      modifies this`position, this`isReadBeyondEnd
      ensures Advanced(old(position), 16, old(isReadBeyondEnd))
      ensures value < Pow2(16) && LeBits(value, 2) == Filled(old(position), 2)
    {
      ghost var p, beyond := position, isReadBeyondEnd;
      LeStart();
      assert Filled(p, 0) == [];
      hide LeRead, LeBits, NumBits;
      value := 0;
      value := ReadLeByte(value, 0, p, 2, beyond);
      value := ReadLeByte(value, 1, p, 2, beyond);
      LeFinished(value, p, 2, beyond);
    }

    method ReadUint24Be() returns (value: nat)
      requires Valid()
      modifies this`position, this`isReadBeyondEnd
      ensures Advanced(old(position), 24, old(isReadBeyondEnd))
      ensures value < Pow2(24) && BeBits(value, 3) == Filled(old(position), 3)
    {
      ghost var p, beyond := position, isReadBeyondEnd;
      BeStart(3);
      assert Filled(p, 0) == [];
      hide BeRead, BeBits, NumBits;
      value := 0;
      value := ReadBeByte(value, 2, p, 3, beyond);
      value := ReadBeByte(value, 1, p, 3, beyond);
      value := ReadBeByte(value, 0, p, 3, beyond);
      BeFinished(value, p, 3, beyond);
    }

    method ReadUint24Le() returns (value: nat)
      requires Valid()
      modifies this`position, this`isReadBeyondEnd
      ensures Advanced(old(position), 24, old(isReadBeyondEnd))
      ensures value < Pow2(24) && LeBits(value, 3) == Filled(old(position), 3)
    {
      ghost var p, beyond := position, isReadBeyondEnd;
      LeStart();
      assert Filled(p, 0) == [];
      hide LeRead, LeBits, NumBits;
      value := 0;
      value := ReadLeByte(value, 0, p, 3, beyond);
      value := ReadLeByte(value, 1, p, 3, beyond);
      value := ReadLeByte(value, 2, p, 3, beyond);
      LeFinished(value, p, 3, beyond);
    }

    method ReadUint32Be() returns (value: nat)
      requires Valid()
      modifies this`position, this`isReadBeyondEnd
      ensures Advanced(old(position), 32, old(isReadBeyondEnd))
      ensures value < Pow2(32) && BeBits(value, 4) == Filled(old(position), 4)
    {
      ghost var p, beyond := position, isReadBeyondEnd;
      BeStart(4);
      assert Filled(p, 0) == [];
      hide BeRead, BeBits, NumBits;
      value := 0;
      value := ReadBeFour(value, 0, p, 4, beyond);
      BeFinished(value, p, 4, beyond);
    }

    method ReadUint32Le() returns (value: nat)
      requires Valid()
      modifies this`position, this`isReadBeyondEnd
      ensures Advanced(old(position), 32, old(isReadBeyondEnd))
      ensures value < Pow2(32) && LeBits(value, 4) == Filled(old(position), 4)
    {
      ghost var p, beyond := position, isReadBeyondEnd;
      LeStart();
      assert Filled(p, 0) == [];
      hide LeRead, LeBits, NumBits;
      value := 0;
      value := ReadLeFour(value, 0, p, 4, beyond);
      LeFinished(value, p, 4, beyond);
    }

    method ReadUint64Be() returns (value: nat)
      requires Valid()
      modifies this`position, this`isReadBeyondEnd
      ensures Advanced(old(position), 64, old(isReadBeyondEnd))
      ensures value < Pow2(64) && BeBits(value, 8) == Filled(old(position), 8)
    {
      ghost var p, beyond := position, isReadBeyondEnd;
      BeStart(8);
      assert Filled(p, 0) == [];
      hide BeRead, BeBits, NumBits;
      value := 0;
      value := ReadBeFour(value, 4, p, 8, beyond);
      value := ReadBeFour(value, 0, p, 8, beyond);
      BeFinished(value, p, 8, beyond);
    }

    method ReadUint64Le() returns (value: nat)
      requires Valid()
      modifies this`position, this`isReadBeyondEnd
      ensures Advanced(old(position), 64, old(isReadBeyondEnd))
      ensures value < Pow2(64) && LeBits(value, 8) == Filled(old(position), 8)
    {
      ghost var p, beyond := position, isReadBeyondEnd;
      LeStart();
      assert Filled(p, 0) == [];
      hide LeRead, LeBits, NumBits;
      value := 0;
      value := ReadLeFour(value, 0, p, 8, beyond);
      value := ReadLeFour(value, 4, p, 8, beyond);
      LeFinished(value, p, 8, beyond);
    }

    // i bits of n are read, from position p on.
    ghost predicate MaskProgress(num: nat, i: nat, p: nat, n: nat, beyond: bool)
      reads this
    {
      Valid() && i <= n && Advanced(p, i, beyond) && MaskRead(num, Padded(p, i), n, i)
    }

    // Adds the place value mul to num if the next bit is set.
    method ReadMaskBit(num: nat, mul: nat, ghost i: nat, ghost p: nat, ghost n: nat, ghost beyond: bool)
      returns (r: nat)
      requires MaskProgress(num, i, p, n, beyond) && i < n && mul == Pow2(n - 1 - i)
      modifies this`position, this`isReadBeyondEnd
      ensures MaskProgress(r, i + 1, p, n, beyond)
    {
      var b := ReadBit();
      r := if b then Or(num, mul) else num;
      PaddedMore(p, i);
      MaskStep(num, Padded(p, i), n, i, b);
    }

    lemma MaskFinished(num: nat, p: nat, n: nat, beyond: bool)
      requires MaskProgress(num, n, p, n, beyond)
      ensures Advanced(p, n, beyond) && num < Pow2(n) && NumBits(num, n) == Padded(p, n)
    {
      MaskEnd(num, Padded(p, n), n);
    }

    method ReadUint2() returns (value: nat)
      requires Valid()
      modifies this`position, this`isReadBeyondEnd
      ensures Advanced(old(position), 2, old(isReadBeyondEnd))
      ensures value < Pow2(2) && NumBits(value, 2) == Padded(old(position), 2)
    {
      ghost var p, beyond := position, isReadBeyondEnd;
      SmallPowers();
      MaskStart(2);
      assert Padded(p, 0) == [];
      hide MaskRead, NumBits, Pow2;
      value := ReadMaskBit(0, 0x2, 0, p, 2, beyond);
      value := ReadMaskBit(value, 0x1, 1, p, 2, beyond);
      MaskFinished(value, p, 2, beyond);
    }

    method ReadUint4() returns (value: nat)
      requires Valid()
      modifies this`position, this`isReadBeyondEnd
      ensures Advanced(old(position), 4, old(isReadBeyondEnd))
      ensures value < Pow2(4) && NumBits(value, 4) == Padded(old(position), 4)
    {
      ghost var p, beyond := position, isReadBeyondEnd;
      SmallPowers();
      MaskStart(4);
      assert Padded(p, 0) == [];
      hide MaskRead, NumBits, Pow2;
      value := ReadMaskBit(0, 0x8, 0, p, 4, beyond);
      value := ReadMaskBit(value, 0x4, 1, p, 4, beyond);
      value := ReadMaskBit(value, 0x2, 2, p, 4, beyond);
      value := ReadMaskBit(value, 0x1, 3, p, 4, beyond);
      MaskFinished(value, p, 4, beyond);
    }

    method ReadUint8() returns (value: uint8)
      requires Valid()
      modifies this`position, this`isReadBeyondEnd
      ensures Advanced(old(position), 8, old(isReadBeyondEnd))
      ensures if old(position) + 8 > length then value == 0 else NumBits(value, 8) == Next(old(position), 8)
    {
      value := ReadByte();
    }

    // Bits one after the other. A read past the end gives one more bit, and is the last.
    method ReadBits(n: nat) returns (bits: seq<bool>, i: nat)
      requires Valid()
      modifies this`position, this`isReadBeyondEnd
      ensures Valid() && i == |bits|
      ensures if old(isReadBeyondEnd) then bits == [] && position == old(position) && isReadBeyondEnd
        else if old(position) + n <= length
          then bits == Next(old(position), n) && position == old(position) + n && !isReadBeyondEnd
        else bits == Next(old(position), length - old(position)) + [false] && position == length && isReadBeyondEnd
    {
      bits, i := [], 0;
      ghost var p := position;
      while i < n
        invariant Valid() && i == |bits| <= n
        invariant if old(isReadBeyondEnd) then bits == [] && position == p && isReadBeyondEnd
          else if p + i <= length then bits == Next(p, i) && position == p + i && !isReadBeyondEnd
          else bits == Next(p, length - p) + [false] && position == length && isReadBeyondEnd
      {
        if isReadBeyondEnd {
          break;
        }
        var b := ReadBit();
        bits := bits + [b];
        i := i + 1;
      }
    }

    // s is read from position p on, and after it b, which is 0 at the end of the stream.
    ghost predicate StringProgress(s: seq<uint8>, b: uint8, p: nat, beyond: bool)
      reads this
    {
      && Valid() && (forall i :: 0 <= i < |s| ==> s[i] != 0)
      && p + 8 * |s| <= length && BytesBits(s) == Next(p, 8 * |s|) && Advanced(p, 8 * |s| + 8, beyond)
      && if p + 8 * |s| + 8 <= length then
           NumBits(b, 8) == Next(p + 8 * |s|, 8)
         else
           b == 0
    }

    method FirstChar() returns (b: uint8)
      requires Valid()
      modifies this`position, this`isReadBeyondEnd
      ensures StringProgress([], b, old(position), old(isReadBeyondEnd))
    {
      assert Next(position, 0) == [];
      b := ReadByte();
    }

    // The next byte after one that is not 0.
    method NextChar(ghost s: seq<uint8>, c: uint8, ghost p: nat, ghost beyond: bool) returns (b: uint8)
      requires StringProgress(s, c, p, beyond) && c != 0
      modifies this`position, this`isReadBeyondEnd
      ensures StringProgress(s + [c], b, p, beyond)
    {
      ByteAdded(s, c);
      NextSplit(p, 8 * |s|, 8);
      b := ReadByte();
    }

    lemma StringFinished(s: seq<uint8>, p: nat, beyond: bool)
      requires StringProgress(s, 0, p, beyond)
      ensures p + 8 * |s| + 8 <= length ==> BytesBits(s + [0]) == Next(p, 8 * |s| + 8)
    {
      ByteAdded(s, 0);
      if p + 8 * |s| + 8 <= length {
        NextSplit(p, 8 * |s|, 8);
      }
    }

    // The bytes up to a zero, which is also what is read beyond the end.
    method ReadString() returns (s: seq<uint8>)
      requires Valid()
      modifies this`position, this`isReadBeyondEnd
      ensures StringProgress(s, 0, old(position), old(isReadBeyondEnd))
      ensures old(position) + 8 * |s| + 8 <= length ==> BytesBits(s + [0]) == Next(old(position), 8 * |s| + 8)
    {
      s := [];
      var b := FirstChar();
      while b != 0
        invariant StringProgress(s, b, old(position), old(isReadBeyondEnd))
        decreases length - old(position) - 8 * |s|
      {
        var c := b;
        b := NextChar(s, c, old(position), old(isReadBeyondEnd));
        s := s + [c];
      }
      StringFinished(s, old(position), old(isReadBeyondEnd));
    }

    lemma NextSplit(p: nat, a: nat, b: nat)
      requires length <= 8 * |data| && p + a + b <= length
      ensures Next(p, a + b) == Next(p, a) + Next(p + a, b)
    {}

    // n bits to a number, by a mask that moves to the right; `shifted` as for writing.
    method ReadNBitsToUint64Be(n: nat, shifted: nat) returns (ok: bool, num: nat)
      requires Valid() && shifted < Pow2(64)
      modifies this`position, this`isReadBeyondEnd
      ensures ok <==> 0 < n <= 64
      ensures !ok ==> Valid() && position == old(position) && isReadBeyondEnd == old(isReadBeyondEnd)
      ensures ok ==> Advanced(old(position), n, old(isReadBeyondEnd))
      ensures ok ==> num == Gathered(0, Padded(old(position), n), FirstMask(n, shifted))
    {
      if n == 0 || n > 64 {
        return false, 0;
      }
      hide Gathering, FirstMask;
      ok, num := true, 0;
      var mul := FirstMask(n, shifted);
      ghost var p, beyond, first := position, isReadBeyondEnd, mul;
      GatherStarts(n, first);
      for i := 0 to n
        invariant Gathering(num, mul, i, p, n, beyond, first)
      {
        num := GatherBit(num, mul, i, p, n, beyond, first);
        mul := mul / 2;
      }
      GatherEnds(num, mul, p, n, beyond, first);
    }

    // i bits of n are read, from position p on, with `first` as the first mask.
    ghost predicate Gathering(num: nat, mul: nat, i: nat, p: nat, n: nat, beyond: bool, first: nat)
      reads this
    {
      && Valid() && i <= n && Advanced(p, i, beyond)
      && Gathered(num, Padded(p + i, n - i), mul) == Gathered(0, Padded(p, n), first)
    }

    // Adds the mask to num if the next bit is set.
    method GatherBit(num: nat, mul: nat, ghost i: nat, ghost p: nat, ghost n: nat, ghost beyond: bool, ghost first: nat)
      returns (r: nat)
      requires Gathering(num, mul, i, p, n, beyond, first) && i < n
      modifies this`position, this`isReadBeyondEnd
      ensures Gathering(r, mul / 2, i + 1, p, n, beyond, first)
    {
      hide Gathered, Or, Bits;
      GatherOne(num, p + i, n - i, mul);
      var b := ReadBit();
      r := if b then Or(num, mul) else num;
    }

    lemma GatherStarts(n: nat, first: nat)
      requires Valid()
      ensures Gathering(0, first, 0, position, n, isReadBeyondEnd, first)
    {}

    lemma GatherEnds(num: nat, mul: nat, p: nat, n: nat, beyond: bool, first: nat)
      requires Gathering(num, mul, n, p, n, beyond, first)
      ensures Advanced(p, n, beyond) && num == Gathered(0, Padded(p, n), first)
    {
      assert Padded(p + n, 0) == [];
      NothingGathered(num, [], mul);
    }

    lemma GatherOne(num: nat, p: nat, n: nat, mul: nat)
      requires length <= 8 * |data| && n > 0
      ensures Gathered(num, Padded(p, n), mul) ==
        Gathered(if p < length && Bits()[p] then Or(num, mul) else num, Padded(p + 1, n - 1), mul / 2)
    {
      hide Or;
      assert Padded(p, n)[1..] == Padded(p + 1, n - 1);
    }
  }

  lemma SmallPowers()
    ensures Pow2(0) == 1 && Pow2(1) == 2 && Pow2(2) == 4 && Pow2(3) == 8
  {}

  lemma ByteAdded(s: seq<uint8>, b: uint8)
    ensures BytesBits(s + [b]) == BytesBits(s) + NumBits(b, 8)
  {
    assert (s + [b])[..|s|] == s;
  }

  // i bits of n are read into the high bits of num.
  ghost predicate MaskRead(num: nat, s: seq<bool>, n: nat, i: nat) {
    && i <= n && |s| == i && num < Pow2(n)
    && forall m :: 0 <= m < n ==> Bit(num, m) == (m >= n - i && s[n - 1 - m])
  }

  lemma MaskStart(n: nat)
    ensures MaskRead(0, [], n, 0)
  {
    forall m | 0 <= m < n ensures !Bit(0, m) {
      BitOfZero(m);
    }
  }

  lemma MaskStep(num: nat, s: seq<bool>, n: nat, i: nat, b: bool)
    requires MaskRead(num, s, n, i) && i < n
    ensures MaskRead(if b then Or(num, Pow2(n - 1 - i)) else num, s + [b], n, i + 1)
  {
    var k, t := n - 1 - i, s + [b];
    var r := if b then Or(num, Pow2(k)) else num;
    Pow2Below(k, n);
    OrBound(num, Pow2(k), n);
    forall m | 0 <= m < n ensures Bit(r, m) == (m >= n - i - 1 && t[n - 1 - m]) {
      BitOr(num, Pow2(k), m);
      BitOfPow2(k, m);
    }
  }

  lemma MaskEnd(num: nat, s: seq<bool>, n: nat)
    requires MaskRead(num, s, n, n)
    ensures NumBits(num, n) == s
  {
    forall i | 0 <= i < n ensures NumBits(num, n)[i] == s[i] {
      assert Bit(num, n - 1 - i) == s[n - 1 - (n - 1 - i)];
    }
  }
}
