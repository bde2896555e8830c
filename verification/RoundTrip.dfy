// Any sequence of writes, read back.

module StreamRoundTrip {
  import opened Bits
  import opened Powers
  import opened BitStreams
  import opened MemoryStreams

  // What can be written at one time.
  datatype Item =
    | BitItem(bit: bool)
    | Uint2(v: nat)
    | Uint4(v: nat)
    | Uint8(b: uint8)
    | Be(v: nat, n: nat)
    | Le(v: nat, n: nat)
    | NBits(v: nat, n: nat)
    | Str(s: seq<uint8>)

  datatype Kind =
    | BitKind
    | Uint2Kind
    | Uint4Kind
    | Uint8Kind
    | BeKind(n: nat)
    | LeKind(n: nat)
    | NBitsKind(n: nat)
    | StrKind

  function KindOf(i: Item): Kind {
    match i
    case BitItem(_) => BitKind
    case Uint2(_) => Uint2Kind
    case Uint4(_) => Uint4Kind
    case Uint8(_) => Uint8Kind
    case Be(_, n) => BeKind(n)
    case Le(_, n) => LeKind(n)
    case NBits(_, n) => NBitsKind(n)
    case Str(_) => StrKind
  }

  // The value has as many bits as are written.
  predicate InRange(i: Item) {
    match i
    case BitItem(_) => true
    case Uint2(v) => v < Pow2(2)
    case Uint4(v) => v < Pow2(4)
    case Uint8(_) => true
    case Be(v, n) => n in {2, 3, 4, 8} && v < Pow2(8 * n)
    case Le(v, n) => n in {2, 3, 4, 8} && v < Pow2(8 * n)
    case NBits(v, n) => 0 < n < 32 && v < Pow2(n)
    case Str(s) => forall k :: 0 <= k < |s| ==> s[k] != 0
  }

  // Bytes are written at the start or in the middle of a byte, strings at the start.
  predicate InPlace(i: Item, length: nat) {
    match i
    case Uint8(_) => length % 4 == 0
    case Be(_, _) => length % 4 == 0
    case Le(_, _) => length % 4 == 0
    case Str(_) => length % 8 == 0
    case _ => true
  }

  function Encoded(i: Item): seq<bool> {
    match i
    case BitItem(b) => [b]
    case Uint2(v) => NumBits(v, 2)
    case Uint4(v) => NumBits(v, 4)
    case Uint8(b) => NumBits(b, 8)
    case Be(v, n) => BeBits(v, n)
    case Le(v, n) => LeBits(v, n)
    case NBits(v, n) => NumBits(v, n)
    case Str(s) => BytesBits(s + [0])
  }

  function EncodedAll(items: seq<Item>): seq<bool> {
    if items == [] then [] else EncodedAll(items[..|items| - 1]) + Encoded(items[|items| - 1])
  }

  predicate Writable(items: seq<Item>) {
    items == [] || (Writable(items[..|items| - 1]) && InRange(items[|items| - 1])
      && InPlace(items[|items| - 1], |EncodedAll(items[..|items| - 1])|))
  }

  method WriteItem(out: MemoryOutputStream, i: Item)
    requires out.Valid() && InRange(i) && InPlace(i, out.length)
    modifies out
    ensures out.Valid() && out.length == old(out.length) + |Encoded(i)|
      && out.Contents() == old(out.Contents()) + Encoded(i)
  {
    match i {
      case BitItem(b) => out.WriteBit(b);
      case Uint2(v) => out.WriteUint2(v);
      case Uint4(v) => out.WriteUint4(v);
      case Uint8(b) => out.WriteByte(b);
      case Be(v, n) => WriteBe(out, v, n);
      case Le(v, n) => WriteLe(out, v, n);
      case NBits(v, n) =>
        MaskedAre(v, n);
        FirstMaskRight(n, 0);
        Pow2Below(n, 64);
        var ok := out.WriteNBitsOfUint64Be(v, n, 0);
      case Str(s) => out.WriteString(s);
    }
  }

  method WriteBe(out: MemoryOutputStream, v: nat, n: nat)
    requires out.Valid() && out.length % 4 == 0 && n in {2, 3, 4, 8}
    modifies out
    ensures out.Valid() && out.length == old(out.length) + 8 * n && out.Contents() == old(out.Contents()) + BeBits(v, n)
  {
    match n {
      case 2 => out.WriteUint16Be(v);
      case 3 => out.WriteUint24Be(v);
      case 4 => out.WriteUint32Be(v);
      case _ => out.WriteUint64Be(v);
    }
  }

  method WriteLe(out: MemoryOutputStream, v: nat, n: nat)
    requires out.Valid() && out.length % 4 == 0 && n in {2, 3, 4, 8}
    modifies out
    ensures out.Valid() && out.length == old(out.length) + 8 * n && out.Contents() == old(out.Contents()) + LeBits(v, n)
  {
    match n {
      case 2 => out.WriteUint16Le(v);
      case 3 => out.WriteUint24Le(v);
      case 4 => out.WriteUint32Le(v);
      case _ => out.WriteUint64Le(v);
    }
  }

  // Reads an item of kind k: x, if its bits come next.
  method ReadItem(inp: MemoryInputStream, k: Kind, ghost x: Item) returns (i: Item)
    requires inp.Valid() && InRange(x) && KindOf(x) == k
    requires inp.position + |Encoded(x)| <= inp.length && inp.Next(inp.position, |Encoded(x)|) == Encoded(x)
    modifies inp
    ensures i == x && inp.Valid() && inp.position == old(inp.position) + |Encoded(x)|
      && inp.isReadBeyondEnd == old(inp.isReadBeyondEnd)
  {
    hide NumBits, BeBits, LeBits, BytesBits, Pow2;
    match k {
      case BitKind =>
        var b := inp.ReadBit();
        i := BitItem(b);
        assert [b] == Encoded(x);
      case Uint2Kind =>
        var v := inp.ReadUint2();
        NumBitsInjective(v, x.v, 2);
        i := Uint2(v);
      case Uint4Kind =>
        var v := inp.ReadUint4();
        NumBitsInjective(v, x.v, 4);
        i := Uint4(v);
      case Uint8Kind =>
        var b := inp.ReadUint8();
        Pow2Of8();
        NumBitsInjective(b, x.b, 8);
        i := Uint8(b);
      case BeKind(n) =>
        var v := ReadBe(inp, n, x.v);
        i := Be(v, n);
      case LeKind(n) =>
        var v := ReadLe(inp, n, x.v);
        i := Le(v, n);
      case NBitsKind(n) =>
        var v := ReadN(inp, n, x.v);
        i := NBits(v, n);
      case StrKind =>
        var s := ReadStr(inp, x.s);
        i := Str(s);
    }
  }

  method ReadN(inp: MemoryInputStream, n: nat, ghost x: nat) returns (v: nat)
    requires inp.Valid() && 0 < n < 32 && x < Pow2(n)
    requires inp.position + n <= inp.length && inp.Next(inp.position, n) == NumBits(x, n)
    modifies inp
    ensures v == x && inp.Advanced(old(inp.position), n, old(inp.isReadBeyondEnd))
  {
    hide Gathered, FirstMask, NumBits;
    FirstMaskRight(n, 0);
    Pow2Below(n - 1, 64);
    GatheredExactly(Pow2(n - 1), n);
    var ok;
    ok, v := inp.ReadNBitsToUint64Be(n, 0);
    NumBitsInjective(v, x, n);
  }

  method ReadBe(inp: MemoryInputStream, n: nat, ghost x: nat) returns (v: nat)
    requires inp.Valid() && n in {2, 3, 4, 8} && x < Pow2(8 * n)
    requires inp.position + 8 * n <= inp.length && inp.Next(inp.position, 8 * n) == BeBits(x, n)
    modifies inp
    ensures v == x && inp.Advanced(old(inp.position), 8 * n, old(inp.isReadBeyondEnd))
  {
    match n {
      case 2 => v := inp.ReadUint16Be();
      case 3 => v := inp.ReadUint24Be();
      case 4 => v := inp.ReadUint32Be();
      case _ => v := inp.ReadUint64Be();
    }
    BeBitsAre(v, n);
    BeBitsAre(x, n);
    NumBitsInjective(v, x, 8 * n);
  }

  method ReadLe(inp: MemoryInputStream, n: nat, ghost x: nat) returns (v: nat)
    requires inp.Valid() && n in {2, 3, 4, 8} && x < Pow2(8 * n)
    requires inp.position + 8 * n <= inp.length && inp.Next(inp.position, 8 * n) == LeBits(x, n)
    modifies inp
    ensures v == x && inp.Advanced(old(inp.position), 8 * n, old(inp.isReadBeyondEnd))
  {
    match n {
      case 2 => v := inp.ReadUint16Le();
      case 3 => v := inp.ReadUint24Le();
      case 4 => v := inp.ReadUint32Le();
      case _ => v := inp.ReadUint64Le();
    }
    LeInjective(v, x, n);
  }

  method ReadStr(inp: MemoryInputStream, ghost x: seq<uint8>) returns (s: seq<uint8>)
    requires inp.Valid() && forall k :: 0 <= k < |x| ==> x[k] != 0
    requires inp.position + 8 * (|x| + 1) <= inp.length && inp.Next(inp.position, 8 * (|x| + 1)) == BytesBits(x + [0])
    modifies inp
    ensures s == x && inp.Advanced(old(inp.position), 8 * (|x| + 1), old(inp.isReadBeyondEnd))
  {
    ghost var p, bits := inp.position, inp.Bits()[inp.position..];
    s := inp.ReadString();
    SameString(bits, s, x, p + 8 * |s| + 8 <= inp.length);
  }

  // A string is given by the bits at its place.
  lemma SameString(bits: seq<bool>, s: seq<uint8>, x: seq<uint8>, ended: bool)
    requires (forall k :: 0 <= k < |x| ==> x[k] != 0) && forall k :: 0 <= k < |s| ==> s[k] != 0
    requires BytesBits(x + [0]) <= bits
    requires if ended then BytesBits(s + [0]) <= bits else BytesBits(s) <= bits && |bits| < 8 * |s| + 8
    ensures s == x
  {
    hide BytesBits, NumBits;
    var t, y := if ended then s + [0] else s, x + [0];
    forall j | 0 <= j < |t| && j < |y| ensures t[j] == y[j] {
      ByteAt(t, j);
      ByteAt(y, j);
      Pow2Of8();
      NumBitsInjective(t[j], y[j], 8);
    }
    SameEnds(s, x, if ended then [0] else []);
  }

  lemma {:induction false} SameEnds(s: seq<uint8>, x: seq<uint8>, end: seq<uint8>)
    requires (forall k :: 0 <= k < |x| ==> x[k] != 0) && forall k :: 0 <= k < |s| ==> s[k] != 0
    requires end == [0] || (end == [] && |x| < |s|)
    requires var t, y := s + end, x + [0]; forall j :: 0 <= j < |t| && j < |y| ==> t[j] == y[j]
    ensures s == x
  {
    if s == [] || x == [] {
      assert (s + end)[0] == (x + [0])[0];
    } else {
      assert s[0] == (s + end)[0] && x[0] == (x + [0])[0];
      forall j | 0 <= j < |s[1..] + end| && j < |x[1..] + [0]| ensures (s[1..] + end)[j] == (x[1..] + [0])[j] {
        assert (s[1..] + end)[j] == (s + end)[j + 1] && (x[1..] + [0])[j] == (x + [0])[j + 1];
      }
      SameEnds(s[1..], x[1..], end);
    }
  }

  lemma {:induction false} ByteAt(s: seq<uint8>, j: nat)
    requires j < |s|
    ensures BytesBits(s)[8 * j..8 * j + 8] == NumBits(s[j], 8)
  {
    if j < |s| - 1 {
      ByteAt(s[..|s| - 1], j);
    }
  }

  lemma {:induction false} LeInjective(x: nat, y: nat, n: nat)
    requires x < Pow2(8 * n) && y < Pow2(8 * n) && LeBits(x, n) == LeBits(y, n)
    ensures x == y
  {
    forall m | 0 <= m < 8 * n ensures Bit(x, m) == Bit(y, m) {
      LeBitAt(x, n, m);
      LeBitAt(y, n, m);
    }
    SameBits(x, y, 8 * n);
  }

  // Where bit m of a number is, in little endian order.
  lemma {:induction false} LeBitAt(v: nat, n: nat, m: nat)
    requires m < 8 * n
    ensures LeBits(v, n)[m - m % 8 + 7 - m % 8] == Bit(v, m)
  {
    if m < 8 * (n - 1) {
      LeBitAt(v, n - 1, m);
    } else {
      var j := m % 8;
      assert m == 8 * (n - 1) + j;
      BitMod(Shr(v, 8 * (n - 1)), 8, j);
      Pow2Of8();
      BitShr(v, 8 * (n - 1), j);
    }
  }

  // ---- everything written is read back

  method WriteAll(items: seq<Item>) returns (out: MemoryOutputStream)
    requires Writable(items)
    ensures fresh(out) && out.Valid() && out.Contents() == EncodedAll(items)
  {
    out := new MemoryOutputStream();
    assert items[..0] == [];
    for i := 0 to |items|
      invariant fresh(out) && out.Valid() && out.Contents() == EncodedAll(items[..i])
    {
      ItemAt(items, i);
      assert items[..i + 1][..i] == items[..i];
      WriteItem(out, items[i]);
    }
    assert items[..|items|] == items;
  }

  method RoundTrip(items: seq<Item>) returns (got: seq<Item>, inp: MemoryInputStream)
    requires Writable(items)
    ensures fresh(inp) && got == items && inp.position == inp.length == |EncodedAll(items)| && !inp.isReadBeyondEnd
  {
    var out := WriteAll(items);
    inp := new MemoryInputStream(out.data, out.length, 0);
    got := ReadAll(items, inp);
  }

  method ReadAll(items: seq<Item>, inp: MemoryInputStream) returns (got: seq<Item>)
    requires Writable(items) && inp.Valid() && inp.Bits() == EncodedAll(items) && inp.length == |EncodedAll(items)|
    requires inp.position == 0 && !inp.isReadBeyondEnd
    modifies inp
    ensures got == items && inp.Valid() && inp.position == inp.length && !inp.isReadBeyondEnd
  {
    got := [];
    OffsetEnds(items);
    hide Writable, EncodedAll, Encoded, KindOf, InRange, InPlace, Offset, ContentsOf;
    for i := 0 to |items|
      invariant inp.Valid() && !inp.isReadBeyondEnd && inp.position == Offset(items, i)
      invariant |got| == i && forall j :: 0 <= j < i ==> got[j] == items[j]
    {
      var x := ReadNext(items, i, KindOf(items[i]), inp);
      got := got + [x];
    }
  }

  // Where the i-th item begins.
  function Offset(items: seq<Item>, i: nat): nat
    requires i <= |items|
  {
    |EncodedAll(items[..i])|
  }

  lemma OffsetEnds(items: seq<Item>)
    ensures Offset(items, 0) == 0 && Offset(items, |items|) == |EncodedAll(items)|
  {
    assert items[..|items|] == items;
  }

  method ReadNext(ghost items: seq<Item>, ghost i: nat, k: Kind, inp: MemoryInputStream) returns (x: Item)
    requires Writable(items) && i < |items| && k == KindOf(items[i])
    requires inp.Valid() && inp.Bits() == EncodedAll(items) && inp.position == Offset(items, i)
    modifies inp
    ensures x == items[i] && inp.Valid() && inp.position == Offset(items, i + 1)
    ensures inp.isReadBeyondEnd == old(inp.isReadBeyondEnd)
  {
    EncodedAt(items, i);
    ItemAt(items, i);
    hide Writable, EncodedAll, Encoded, InRange, InPlace, ContentsOf, KindOf;
    x := ReadItem(inp, k, items[i]);
  }

  lemma ItemAt(items: seq<Item>, i: nat)
    requires Writable(items) && i < |items|
    ensures InRange(items[i]) && InPlace(items[i], |EncodedAll(items[..i])|)
  {
    WritablePrefix(items, i + 1);
    assert items[..i + 1][..i] == items[..i];
  }

  lemma {:induction false} WritablePrefix(items: seq<Item>, k: nat)
    requires Writable(items) && k <= |items|
    ensures Writable(items[..k])
    decreases |items|
  {
    if k == |items| {
      assert items[..k] == items;
    } else {
      var before := items[..|items| - 1];
      WritablePrefix(before, k);
      assert before[..k] == items[..k];
    }
  }

  lemma {:induction false} EncodedPrefix(items: seq<Item>, k: nat)
    requires k <= |items|
    ensures EncodedAll(items[..k]) <= EncodedAll(items)
    decreases |items|
  {
    if k == |items| {
      assert items[..k] == items;
    } else {
      var before := items[..|items| - 1];
      EncodedPrefix(before, k);
      assert before[..k] == items[..k];
    }
  }

  // The i-th item comes after those before it.
  lemma EncodedAt(items: seq<Item>, i: nat)
    requires i < |items|
    ensures var a, e := EncodedAll(items[..i]), Encoded(items[i]);
      |a| + |e| <= |EncodedAll(items)| && EncodedAll(items)[|a|..|a| + |e|] == e && EncodedAll(items[..i + 1]) == a + e
  {
    assert items[..i + 1][..i] == items[..i];
    EncodedPrefix(items, i + 1);
    hide Encoded;
    SliceOfSum(EncodedAll(items[..i]), Encoded(items[i]), EncodedAll(items));
  }

  lemma SliceOfSum(a: seq<bool>, b: seq<bool>, c: seq<bool>)
    requires a + b <= c
    ensures c[|a|..|a| + |b|] == b
  {
    assert c[..|a| + |b|] == a + b;
  }
}