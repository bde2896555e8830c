// Int128: two's-complement arithmetic, division, and decimal text.

module Int128s {
  import opened Bits
  import opened Powers
  import opened Sequences
  import opened Wide

  class Int128 {
    var lo: uint64
    var hi: int64

    ghost function Value(): (v: int)
      reads this
      ensures MIN <= v <= MAX && (v < 0 <==> hi < 0)
    {
      Val(lo, hi)
    }

    constructor (lo: uint64, hi: int64)
      ensures this.lo == lo && this.hi == hi
    {
      this.lo, this.hi := lo, hi;
    }

    constructor FromUint32(a: int)
      requires 0 <= a < 0x1_0000_0000
      ensures Value() == a
    {
      lo, hi := a, 0;
    }

    constructor Copy(a: Int128)
      ensures Value() == a.Value()
    {
      lo, hi := a.lo, a.hi;
    }

    method Assign(a: Int128)
      modifies this
      ensures Value() == old(a.Value())
    {
      lo, hi := a.lo, a.hi;
    }

    predicate IsZero()
      reads this
    {
      !(hi != 0 || lo != 0)
    }

    method Negated() returns (r: Int128)
      ensures fresh(r) && r.Value() == Wrap(-Value())
    {
      var l: int, h: int := lo, hi;
      NegWords(l, h);
      if l == 0 {
        r := new Int128(0, Signed(-h));
      } else {
        r := new Int128(Unsigned(-l), -h - 1);
      }
    }

    method Add(b: Int128)
      modifies this
      ensures Value() == Wrap(old(Value()) + old(b.Value()))
    {
      var l: int, h: int, l2: int, h2: int := lo, hi, b.lo, b.hi;
      AddWords(l, h, l2, h2);
      var old_lo := lo;
      lo := Unsigned(l + l2);
      hi := Signed(h + h2);
      if lo < old_lo {
        hi := Signed((hi as int) + 1);
      }
    }

    method Sub(b: Int128)
      modifies this
      ensures Value() == Wrap(old(Value()) - old(b.Value()))
    {
      var n := b.Negated();
      WrapAdd(Value(), -b.Value());
      Add(n);
    }

    method ShiftLeft(n: nat)
      modifies this
      ensures Value() == Wrap(old(Value()) * Pow2(n))
    {
      var l: int, h: int := lo, hi;
      if n >= 128 {
        LeftAll(Value(), n);
        lo, hi := 0, 0;
      } else if n >= 64 {
        LeftFar(l, h, n);
        hi := Signed(Unsigned(l * Pow2(n - 64)));
        lo := 0;
      } else if n > 0 {
        LeftWords(l, h, n);
        hi := Signed(h * Pow2(n));
        var x: int := hi;
        hi := Signed(Or(Unsigned(x), Carried(l, n)));
        lo := Unsigned(l * Pow2(n));
      } else {
        WrapIs(Value(), Value(), 0);
      }
    }

    method ShiftRight(n: nat)
      modifies this
      ensures Value() == old(Value()) / Pow2(n)
    {
      var l: int, h: int := lo, hi;
      if n >= 128 {
        RightAll(l, h, n);
        hi := if hi < 0 then -1 else 0;
        var x: int := hi;
        lo := Unsigned(x);
      } else if n >= 64 {
        RightFar(l, h, n);
        SmallerQuotient(h, Pow2(n - 64));
        lo := Unsigned(h / Pow2(n - 64));
        hi := if hi < 0 then -1 else 0;
      } else if n > 0 {
        RightWords(l, h, n);
        lo := Or(Shr(l, n), Unsigned(And(Unsigned(h), Pow2(n) - 1) * Pow2(64 - n)));
        hi := h / Pow2(n);
      }
    }

    method TestBit(n: nat) returns (r: bool)
      ensures r == Bit(Value(), n)
    {
      var l: int, h: int := lo, hi;
      if n >= 128 {
        SignBit(l, h, n);
        return hi < 0;
      }
      if n < 64 {
        LowBit(l, h, n);
        AndBit(l, n);
        return And(l, Pow2(n)) != 0;
      } else {
        HighBit(l, h, n);
        AndBit(Unsigned(h), n - 64);
        return And(Unsigned(h), Pow2(n - 64)) != 0;
      }
    }

    // Sets or clears bit n.
    method SetBit(n: nat, val: bool)
      modifies this
      ensures Value() ==
        if n >= 128 || Bit(old(Value()), n) == val then old(Value())
        else Wrap(if val then old(Value()) + Pow2(n) else old(Value()) - Pow2(n))
    {
      if n >= 128 {
        return;
      }
      var l: int, h: int := lo, hi;
      if !val {
        if n < 64 {
          ClearLowBit(l, h, n);
          lo := And(l, W - 1 - Pow2(n));
        } else {
          ClearHighBit(l, h, n);
          hi := Signed(And(Unsigned(h), W - 1 - Pow2(n - 64)));
        }
      } else if n < 64 {
        SetLowBit(l, h, n);
        lo := Or(l, Pow2(n));
      } else {
        SetHighBit(l, h, n);
        hi := Signed(Or(Unsigned(h), Pow2(n - 64)));
      }
    }

    // -- multiplication

    method Mul(b: Int128)
      modifies this
      ensures Value() == Wrap(old(Value()) * old(b.Value()))
    {
      ghost var x, y := Value(), b.Value();
      if b.IsZero() {
        WrapIs(x * y, 0, 0);
        lo, hi := 0, 0;
        return;
      }
      if b.hi == 0 && b.lo == 1 {
        WrapIs(x * y, x, 0);
        return;
      }
      var a := new Int128.Copy(this);
      var t := new Int128.Copy(b);
      lo, hi := 0, 0;
      LowStart(x, y);
      for i := 0 to 128
        invariant fresh(a) && fresh(t) && t != a && a != this && t != this
        invariant a.Value() == x && t.Value() == y / Pow2(i) && Value() == Wrap(x * Low(y, i))
      {
        LowNext(x, y, i);
        var l: int := t.lo;
        LowestBit(l, t.hi);
        if And(l, 1) != 0 {
          var s := new Int128.Copy(a);
          s.ShiftLeft(i);
          Add(s);
        }
        t.ShiftRight(1);
      }
      LowAll(x, y);
    }

    // -- division

    method AbsValue() returns (r: Int128)
      ensures fresh(r) && (Value() != MIN ==> r.Value() == Abs(Value())) && (Value() == MIN ==> r.Value() == MIN)
    {
      if hi < 0 {
        r := Negated();
        if Value() == MIN {
          WrapIs(-Value(), MIN, 1);
        } else {
          WrapIs(-Value(), -Value(), 0);
        }
      } else {
        r := new Int128.Copy(this);
      }
    }

    // r moves left by one bit, and takes bit n of dd.
    method ShiftIn(dd: Int128, n: nat)
      requires dd != this && 0 <= Value() && 2 * Value() + 1 <= MAX
      modifies this
      ensures Value() == 2 * old(Value()) + (dd.Value() / Pow2(n)) % 2
    {
      hide Pow2, Wrap, Or;
      ghost var v := Value();
      Pow2Of1();
      WrapIs(v * Pow2(1), v * 2, 0);
      ShiftLeft(1);
      var bit := dd.TestBit(n);
      if bit {
        var l: int := lo;
        SetLowest(l, hi);
        lo := Or(l, 1);
      }
    }

    // n bits of dd are left, and the others make up r.
    ghost predicate Leading(dd: Int128, ds: Int128, r: Int128, b: int, n: nat)
      reads dd, ds, r
    {
      && n <= 128 && b == (if n == 0 then 0x1_0000_0000 else n) - 1
      && r.Value() == dd.Value() / Pow2(n) && 0 <= r.Value() < 2 * ds.Value()
      && (n == 128 ==> r.Value() == 0) && (n == 0 ==> r.Value() == dd.Value())
      && (Less(r.lo, r.hi, ds.lo, ds.hi) <==> r.Value() < ds.Value())
    }

    lemma LeadingStarts(dd: Int128, ds: Int128, r: Int128)
      requires 0 < ds.Value() <= dd.Value() && r.Value() == 0
      ensures Leading(dd, ds, r, 127, 128)
    {
      hide Less, Pow2;
      AllBitsOff(dd.Value());
      Compared(r, ds);
    }

    // r takes one more bit of dd.
    method LeadOne(dd: Int128, ds: Int128, r: Int128, b: int, ghost n: nat)
      requires 0 < ds.Value() <= dd.Value() && dd != r && ds != r && Leading(dd, ds, r, b, n) && n > 0
        && r.Value() < ds.Value()
      modifies r
      ensures Leading(dd, ds, r, if b == 0 then 0xFFFF_FFFF else b - 1, n - 1)
    {
      hide Less, Pow2;
      ghost var d := dd.Value();
      AllBitsOff(d);
      NextBit(d, n);
      r.ShiftIn(dd, b);
      Compared(r, ds);
    }

    // The first loop of div: takes the leading bits of dd, until they make up
    // at least ds. All bits below the n-th are left.
    method TakeLeading(dd: Int128, ds: Int128) returns (r: Int128, b: int, ghost n: nat)
      requires 0 < ds.Value() <= dd.Value()
      ensures fresh(r) && n < 128 && b == n && r.Value() == dd.Value() / Pow2(n)
      ensures ds.Value() <= r.Value() < 2 * ds.Value()
    {
      hide Less, Pow2, Leading, Val;
      r := new Int128.FromUint32(0);
      b, n := 127, 128;
      LeadingStarts(dd, ds, r);
      while Less(r.lo, r.hi, ds.lo, ds.hi)
        invariant fresh(r) && Leading(dd, ds, r, b, n)
        decreases n
      {
        StillLess(dd, ds, r, b, n);
        LeadOne(dd, ds, r, b, n);
        b := if b == 0 then 0xFFFF_FFFF else b - 1;
        n := n - 1;
      }
      LeadingEnds(dd, ds, r, b, n);
      b := (b + 1) % 0x1_0000_0000;
    }

    lemma StillLess(dd: Int128, ds: Int128, r: Int128, b: int, n: nat)
      requires 0 < ds.Value() <= dd.Value() && Leading(dd, ds, r, b, n) && Less(r.lo, r.hi, ds.lo, ds.hi)
      ensures n > 0 && r.Value() < ds.Value()
    {
      hide Less, Pow2;
    }

    lemma LeadingEnds(dd: Int128, ds: Int128, r: Int128, b: int, n: nat)
      requires 0 < ds.Value() <= dd.Value() && Leading(dd, ds, r, b, n) && !Less(r.lo, r.hi, ds.lo, ds.hi)
      ensures n < 128 && (b + 1) % 0x1_0000_0000 == n && r.Value() == dd.Value() / Pow2(n)
        && ds.Value() <= r.Value() < 2 * ds.Value()
    {
      hide Less, Pow2;
    }

    // The divisor is taken away, and bit b of the quotient set.
    method TakeAway(q: Int128, r: Int128, ds: Int128, b: nat, ghost d: int, ghost u: int)
      requires q != r && r != ds && q != ds && 0 < ds.Value() <= r.Value() && 0 <= d <= MAX && b < 128
      requires q.Value() == u * Pow2(b) && Dividing(d, ds.Value(), b, u, r.Value())
      modifies q, r
      ensures q.Value() == (u + 1) * Pow2(b) && r.Value() == old(r.Value()) - ds.Value()
        && Dividing(d, ds.Value(), b, u + 1, r.Value())
    {
      hide Dividing, Wrap, Val, Pow2, Bit;
      ghost var s := ds.Value();
      DivisionTake(d, s, b, u, r.Value());
      WrapIs(r.Value() - s, r.Value() - s, 0);
      WrapIs((u + 1) * Pow2(b), (u + 1) * Pow2(b), 0);
      r.Sub(ds);
      q.SetBit(b, true);
    }

    // Division of a positive number by one that is not greater.
    method DivPositive(dd: Int128, ds: Int128) returns (q: Int128, r: Int128)
      requires 0 < ds.Value() <= dd.Value()
      ensures fresh(q) && fresh(r) && q != r
      ensures dd.Value() == q.Value() * ds.Value() + r.Value() && 0 <= r.Value() < ds.Value() && 0 < q.Value()
    {
      ghost var d, s := dd.Value(), ds.Value();
      var b: int;
      ghost var n;
      r, b, n := TakeLeading(dd, ds);
      q := new Int128(0, 0);
      ghost var u := 0;
      while true
        invariant fresh(q) && fresh(r) && q != r && 0 <= b < 128
        invariant q.Value() == u * Pow2(b) && Dividing(d, s, b, u, r.Value())
        decreases b, r.Value()
      {
        if Less(r.lo, r.hi, ds.lo, ds.hi) {
          if b == 0 {
            break;
          }
          b := b - 1;
          DivisionShift(d, s, b, u, r.Value());
          r.ShiftIn(dd, b);
          u := 2 * u;
        } else {
          TakeAway(q, r, ds, b, d, u);
          u := u + 1;
        }
      }
      assert Pow2(0) == 1 && u * Pow2(0) == u;
    }

    lemma NotZero(a: Int128)
      ensures a.IsZero() <==> a.Value() == 0
    {}

    lemma Compared(a: Int128, b: Int128)
      requires a.Value() >= 0 || b.Value() >= 0
      ensures Less(a.lo, a.hi, b.lo, b.hi) <==> a.Value() < b.Value()
    {
      LessExactly(a.lo, a.hi, b.lo, b.hi);
    }

    // The last step of div.
    method GiveSigns(q: Int128, r: Int128, divisorNegative: bool, negative: bool, ghost x: int, ghost y: int)
      returns (q': Int128, r': Int128)
      requires MIN < x <= MAX && MIN < y <= MAX && y != 0 && divisorNegative == (y < 0) && negative == (x < 0)
      requires Abs(x) == q.Value() * Abs(y) + r.Value() && 0 <= r.Value() < Abs(y) && 0 < q.Value()
      ensures (q' == q || fresh(q')) && (r' == r || fresh(r'))
      ensures Truncated(x, y, q'.Value(), r'.Value())
    {
      hide Truncated, Wrap, Val, Abs;
      SignedDivision(x, y, q.Value(), r.Value());
      q', r' := q, r;
      if divisorNegative != negative {
        q' := q.Negated();
      }
      if negative {
        r' := r.Negated();
      }
    }

    method Div(divisor: Int128, remainder: Int128) returns (quotient: Int128)
      requires !divisor.IsZero() && divisor.Value() != MIN
      modifies remainder
      ensures fresh(quotient)
      ensures old(Value()) != MIN ==> Truncated(old(Value()), old(divisor.Value()), quotient.Value(), remainder.Value())
      ensures old(Value()) == MIN ==> quotient.Value() == 0 && remainder.Value() == MIN
    {
      hide Less, Truncated, Wrap;
      ghost var x, y := Value(), divisor.Value();
      NotZero(divisor);
      var ds := divisor.AbsValue();
      var dd := AbsValue();
      Compared(dd, ds);
      if Less(dd.lo, dd.hi, ds.lo, ds.hi) {
        OnlyRemainder(x, y);
        remainder.Assign(this);
        return new Int128(0, 0);
      }
      var q, r := DivPositive(dd, ds);
      quotient, r := GiveSigns(q, r, divisor.hi < 0, hi < 0, x, y);
      remainder.Assign(r);
    }

    method DivAssign(b: Int128)
      requires !b.IsZero() && b.Value() != MIN
      modifies this
      ensures Value() == if old(Value()) == MIN then 0 else Quot(old(Value()), old(b.Value()))
    {
      var dummy := new Int128(0, 0);
      var q := Div(b, dummy);
      if Value() != MIN {
        TruncatedIs(Value(), b.Value(), q.Value(), dummy.Value());
      }
      Assign(q);
    }

    // The remainder replaces the dividend it is computed from.
    method ModAssign(b: Int128)
      requires !b.IsZero() && b.Value() != MIN
      modifies this
      ensures Value() == if old(Value()) == MIN then MIN else Rem(old(Value()), old(b.Value()))
    {
      ghost var x, y := Value(), b.Value();
      var q := Div(b, this);
      if x != MIN {
        TruncatedIs(x, y, q.Value(), Value());
      }
    }

    // -- text

    // The low 32 bits, as a signed number.
    function ToInt(): int
      reads this
    {
      if (lo as int) % 0x1_0000_0000 < 0x8000_0000 then (lo as int) % 0x1_0000_0000
        else (lo as int) % 0x1_0000_0000 - 0x1_0000_0000
    }

    // This number without its last digit, and that digit.
    method LastDigit(radix: Int128, r: Int128) returns (q: Int128, c: int)
      requires Value() == MIN || Value() > 0
      requires 2 <= radix.Value() <= 37 && r != this && r != radix
      modifies r
      ensures fresh(q) && 0 <= c < 37
      ensures if Value() == MIN then q.Value() == 0 && c == 0
        else q.Value() == Value() / radix.Value() && c == Value() % radix.Value()
    {
      ghost var n, d := Value(), radix.Value();
      q := Div(radix, r);
      if n != MIN {
        TruncatedIs(n, d, q.Value(), r.Value());
        PositiveParts(n, d);
      }
      c := r.ToInt();
    }

    // The last digit goes in front of those written before.
    method PutDigit(ii: Int128, aux: Int128, r: Int128, sz: array<char>, i: nat) returns (q: Int128)
      requires ii.Value() == MIN || ii.Value() > 0
      requires 2 <= aux.Value() <= 37 && r != ii && r != aux && 0 < i <= 255 && sz.Length == 256
      modifies r, sz
      ensures fresh(q)
      ensures q.Value() == if old(ii.Value()) == MIN then 0 else old(ii.Value()) / old(aux.Value())
      ensures sz[i - 1..255] ==
        [DigitChar(if old(ii.Value()) == MIN then 0 else old(ii.Value()) % old(aux.Value()))] + old(sz[i..255])
    {
      hide DigitChar, Val;
      ghost var before := sz[i..255];
      var c;
      q, c := ii.LastDigit(aux, r);
      sz[i - 1] := DigitChar(c);
      assert sz[i - 1..255] == [DigitChar(c)] + before;
    }

    // The loop of toString: the digits of ii, at the end of the buffer.
    method PutDigits(ii: Int128, radix: int, sz: array<char>) returns (i: nat)
      requires 2 <= radix <= 37 && sz.Length == 256 && (ii.Value() == MIN || ii.Value() > 0)
      modifies sz
      ensures 127 <= i <= 255
      ensures sz[i..255] == if ii.Value() == MIN then "0" else Digits(ii.Value(), radix)
    {
      hide Digits, DigitChar, Val, Pow2;
      var r := new Int128(0, 0);
      var aux := new Int128.FromUint32(radix);
      ghost var v := ii.Value();
      var left: Int128 := ii;
      i := 255;
      DigitsStart(v, radix);
      NotZero(left);
      while !left.IsZero() && i != 0
        invariant fresh(r) && fresh(aux) && left != r && aux != r && aux.Value() == radix
        invariant 127 <= i <= 255 && sz.Length == 256
        invariant v == MIN ==> if i == 255 then left.Value() == MIN else sz[i..255] == "0" && left.Value() == 0
        invariant v != MIN ==>
          i >= 128 && 0 <= left.Value() < Pow2(i - 128) && Digits(v, radix) == Digits(left.Value(), radix) + sz[i..255]
        decreases i
      {
        NotZero(left);
        if v != MIN {
          TextGrows(v, left.Value(), radix, i - 128, sz[i..255]);
        }
        left := PutDigit(left, aux, r, sz, i);
        i := i - 1;
      }
      NotZero(left);
      DigitsEnd(radix);
    }

    method ToString(radix: int) returns (s: string)
      requires 0 <= radix < 0x1_0000_0000
      ensures s == Text(Value(), radix)
    {
      hide Digits, Val;
      NotZero(this);
      if IsZero() {
        return "0";
      }
      if radix < 2 || radix > 37 {
        return "(invalid radix)";
      }
      var sz := new char[256](_ => '\0');
      var ii := AbsValue();
      var i := PutDigits(ii, radix, sz);
      if hi < 0 {
        ghost var digits := sz[i..255];
        i := i - 1;
        sz[i] := '-';
        assert sz[i..255] == "-" + digits;
      }
      return sz[i..255];
    }

    // One more digit.
    method TakeDigit(radix: int, n: int, ghost acc: int)
      requires 0 <= radix < 0x1_0000_0000 && 0 <= n < 0x1_0000_0000 && Value() == Wrap(acc)
      modifies this
      ensures Value() == Wrap(acc * radix + n)
    {
      hide Wrap, Val;
      ScaledSum(acc, radix, n);
      var f := new Int128.FromUint32(radix);
      Mul(f);
      var g := new Int128.FromUint32(n);
      Add(g);
    }

    // The sign and the prefix: where the digits begin, and their radix.
    method ReadPrefix(sz: string) returns (radix: int, i: nat, minus: bool)
      requires sz != ""
      ensures i <= |sz| && radix in {8, 10, 16}
      ensures Number(sz) == if minus then -Accumulated(sz[i..], radix, 0) else Accumulated(sz[i..], radix, 0)
    {
      hide Accumulated;
      radix, i, minus := 10, 0, false;
      if sz[i] == '-' {
        i := i + 1;
        minus := true;
      }
      ghost var rest := sz[i..];
      assert minus ==> rest == sz[1..];
      assert !minus ==> rest == sz;
      if i < |sz| && sz[i] == '0' {
        radix := 8;
        i := i + 1;
        assert rest[1..] == sz[i..];
        if i < |sz| && sz[i] == 'x' {
          radix := 16;
          i := i + 1;
          assert rest[2..] == sz[i..];
        }
      }
    }

    // The number sz writes, up to the first character that is no digit.
    method Set(sz: string)
      modifies this
      ensures Value() == Wrap(Number(sz))
    {
      hide Wrap, IsDigit, DigitValue, Accumulated;
      lo, hi := 0, 0;
      NothingRead();
      if sz == "" {
        return;
      }
      var radix, i, minus := ReadPrefix(sz);
      ghost var start, acc := i, 0;
      while i < |sz| && IsDigit(sz[i], radix)
        invariant start <= i <= |sz| && Value() == Wrap(acc)
        invariant Accumulated(sz[start..], radix, 0) == Accumulated(sz[i..], radix, acc)
        decreases |sz| - i
      {
        var n := DigitValue(sz[i]);
        NextRead(sz, i, radix, acc);
        TakeDigit(radix, n, acc);
        acc := acc * radix + n;
        i := i + 1;
      }
      ReadEnds(sz, i, radix, acc);
      if minus {
        WrapMinus(acc);
        var z := new Int128(0, 0);
        z.Sub(this);
        Assign(z);
      }
    }
  }

  predicate IsDigit(ch: char, radix: int) {
    var c := ch as int;
    || ('0' as int <= c <= '9' as int && c < '0' as int + radix)
    || 'a' as int <= c <= 'a' as int + radix - 10
    || 'A' as int <= c <= 'A' as int + radix - 10
  }

  function DigitValue(ch: char): (n: nat)
    ensures n < 0x1_0000_0000
  {
    if '0' <= ch <= '9' then ch as int - '0' as int
    else if 'a' <= ch then ch as int - 'a' as int + 10
    else if 'A' <= ch then ch as int - 'A' as int + 10
    else 0
  }

  function Accumulated(s: string, radix: int, acc: int): int {
    if s == "" || !IsDigit(s[0], radix) then acc else Accumulated(s[1..], radix, acc * radix + DigitValue(s[0]))
  }

  lemma NothingRead()
    ensures Wrap(0) == 0 && Number("") == 0
  {
    WrapIs(0, 0, 0);
  }

  lemma NextRead(sz: string, i: nat, radix: int, acc: int)
    requires i < |sz| && IsDigit(sz[i], radix)
    ensures Accumulated(sz[i..], radix, acc) == Accumulated(sz[i + 1..], radix, acc * radix + DigitValue(sz[i]))
  {
    assert sz[i..][0] == sz[i] && sz[i..][1..] == sz[i + 1..];
  }

  lemma ReadEnds(sz: string, i: nat, radix: int, acc: int)
    requires i <= |sz| && (i == |sz| || !IsDigit(sz[i], radix))
    ensures Accumulated(sz[i..], radix, acc) == acc
  {
    assert i < |sz| ==> sz[i..][0] == sz[i];
  }

  // What set reads: a sign, a prefix for octal or hexadecimal, and digits.
  function Number(sz: string): int {
    if sz != "" && sz[0] == '-' then -Magnitude(sz[1..]) else Magnitude(sz)
  }

  function Magnitude(sz: string): int {
    if sz != "" && sz[0] == '0' then
      if |sz| > 1 && sz[1] == 'x' then Accumulated(sz[2..], 16, 0) else Accumulated(sz[1..], 8, 0)
    else
      Accumulated(sz, 10, 0)
  }

  lemma ScaledSum(acc: int, radix: int, n: int)
    ensures Wrap(Wrap(Wrap(acc) * radix) + n) == Wrap(acc * radix + n)
  {
    var k := WrapAway(acc);
    assert acc * radix == Wrap(acc) * radix + k * radix * M;
    WrapSame(acc * radix, Wrap(acc) * radix, k * radix);
    WrapAdd(acc * radix, n);
  }

  lemma WrapMinus(x: int)
    ensures Wrap(0 - Wrap(x)) == Wrap(-x)
  {
    var k := WrapAway(x);
    WrapSame(-x, -Wrap(x), -k);
  }

  // ---- what is written is read back

  lemma {:induction false} DigitsRead(n: nat, radix: nat)
    requires 2 <= radix <= 37
    ensures Accumulated(Digits(n, radix), radix, 0) == n && forall c :: c in Digits(n, radix) ==> IsDigit(c, radix)
  {
    if n > 0 {
      hide DigitChar, DigitValue, IsDigit, Accumulated;
      Smaller(n, radix);
      var q, c := n / radix, n % radix;
      DigitsRead(q, radix);
      DigitChars(c);
      OneMoreDigit(Digits(q, radix), DigitChar(c), radix, 0);
      LastDigitOf(n, radix);
    }
  }

  lemma LastDigitOf(n: nat, radix: nat)
    requires n > 0 && 2 <= radix <= 37
    ensures n == n / radix * radix + n % radix && 0 <= n % radix < radix && n / radix >= 0
    ensures Digits(n, radix) == Digits(n / radix, radix) + [DigitChar(n % radix)]
  {
    QuotientAtMost(n, radix);
  }

  lemma {:induction false} OneMoreDigit(s: string, c: char, radix: int, acc: int)
    requires (forall d :: d in s ==> IsDigit(d, radix)) && IsDigit(c, radix)
    ensures Accumulated(s + [c], radix, acc) == Accumulated(s, radix, acc) * radix + DigitValue(c)
  {
    if s == "" {
      assert (s + [c])[1..] == "";
    } else {
      assert (s + [c])[1..] == s[1..] + [c] && s[0] in s && forall d :: d in s[1..] ==> d in s;
      OneMoreDigit(s[1..], c, radix, acc * radix + DigitValue(s[0]));
    }
  }

  // The digits, in their order; 36 is what comes after the letters.
  lemma DigitChars(c: nat)
    requires c < 37
    ensures DigitChar(c) == "0123456789ABCDEFGHIJKLMNOPQRSTUVWXYZ["[c]
    ensures DigitValue(DigitChar(c)) == c && forall radix :: c < radix ==> IsDigit(DigitChar(c), radix)
  {}

  // In decimal and hexadecimal, what is read as a digit is one of those below
  // the radix, in either case, or the letter after them, which counts as the radix.
  lemma OneDigitTooMany(ch: char, radix: int)
    requires radix == 10 || radix == 16
    ensures IsDigit(ch, radix) <==>
      ch in "0123456789" || ch in "aA" || (radix == 16 && ch in "bcdefgBCDEFG")
    ensures IsDigit(ch, radix) ==>
      var n := DigitValue(ch);
      n <= radix && (ch == "0123456789abcdefg"[n] || ch == "0123456789ABCDEFG"[n])
    ensures IsDigit(ch, radix) && DigitValue(ch) == radix <==> if radix == 10 then ch in "aA" else ch in "gG"
  {}

  // Octal and hexadecimal texts are read as what they write, after a prefix.
  lemma PrefixedRead(n: nat)
    ensures Number("0" + Digits(n, 8)) == n
    ensures Number("0x" + Digits(n, 16)) == n && Number("-0x" + Digits(n, 16)) == 0 - n
  {
    DigitsRead(n, 8);
    DigitsRead(n, 16);
    var o, h := Digits(n, 8), "0x" + Digits(n, 16);
    assert ("0" + o)[1..] == o && h[2..] == Digits(n, 16) && ("-" + h)[1..] == h && "-" + h == "-0x" + Digits(n, 16);
    assert o != "" ==> o[0] in o;
  }

  // No number but 0 begins with the digit 0, which would make it octal.
  lemma {:induction false} NoLeadingZero(n: nat)
    requires n > 0
    ensures Digits(n, 10) != "" && '1' <= Digits(n, 10)[0] <= '9'
  {
    Smaller(n, 10);
    if n / 10 > 0 {
      NoLeadingZero(n / 10);
    }
  }

  // The least integer is written as "-0", which is read as 0.
  lemma WrittenAndRead(v: int)
    requires MIN <= v <= MAX
    ensures Wrap(Number(Text(v, 10))) == v <==> v != MIN
  {
    if v == 0 {
      WrapIs(0, 0, 0);
      assert Number("0") == 0;
    } else if v == MIN {
      assert "-0"[1..] == "0" && "0"[1..] == "";
      WrapIs(0, 0, 0);
    } else {
      var t := Digits(Abs(v), 10);
      NoLeadingZero(Abs(v));
      DigitsRead(Abs(v), 10);
      assert v < 0 ==> ("-" + t)[1..] == t && ("-" + t)[0] == '-';
      assert "" + t == t && Magnitude(t) == Abs(v);
      assert Number(Text(v, 10)) == v;
      WrapIs(v, v, 0);
    }
  }

  function DigitChar(c: int): char
    requires 0 <= c < 37
  {
    (c + (if c > 9 then 'A' as int - 10 else '0' as int)) as char
  }

  function Digits(n: nat, radix: nat): string
    requires 2 <= radix <= 37
  {
    if n == 0 then "" else
      QuotientAtMost(n, radix);
      Smaller(n, radix);
      Digits(n / radix, radix) + [DigitChar(n % radix)]
  }

  lemma Smaller(n: nat, radix: nat)
    requires n > 0 && radix >= 2
    ensures 0 <= n / radix < n
  {
    assert n == n / radix * radix + n % radix;
    QuotientNat(n, radix);
    if n / radix > 0 {
      TimesMonotone(2, radix, n / radix);
    }
  }

  // What toString gives.
  function Text(v: int, radix: nat): string {
    if v == 0 then "0"
    else if radix < 2 || radix > 37 then "(invalid radix)"
    else if v == MIN then "-0"
    else (if v < 0 then "-" else "") + Digits(Abs(v), radix)
  }

  lemma PositiveParts(n: int, d: int)
    requires n > 0 && d > 0
    ensures Quot(n, d) == n / d && Rem(n, d) == n % d
  {
    assert n == n / d * d + n % d;
  }

  lemma NextDigit(n: int, radix: int, k: int)
    requires 2 <= radix <= 37 && k >= 0 && 0 < n < Pow2(k)
    ensures k > 0 && 0 <= n / radix < Pow2(k - 1)
    ensures Digits(n, radix) == Digits(n / radix, radix) + [DigitChar(n % radix)]
  {
    HalfAtMost(n, radix, if k > 0 then Pow2(k - 1) else 1);
  }

  lemma TextGrows(v: nat, n: int, radix: int, k: int, s: string)
    requires 2 <= radix <= 37 && k >= 0 && 0 < n < Pow2(k) && Digits(v, radix) == Digits(n, radix) + s
    ensures k > 0 && 0 <= n / radix < Pow2(k - 1)
    ensures Digits(v, radix) == Digits(n / radix, radix) + ([DigitChar(n % radix)] + s)
  {
    NextDigit(n, radix, k);
    hide Digits, DigitChar, Pow2;
    Assoc(Digits(n / radix, radix), [DigitChar(n % radix)], s);
  }

  lemma DigitsStart(v: int, radix: nat)
    requires 2 <= radix <= 37 && v <= MAX
    ensures v >= 0 ==> v < Pow2(255 - 128) && Digits(v, radix) == Digits(v, radix) + ""
    ensures DigitChar(0) == '0'
  {
    Pow2Known();
  }

  lemma DigitsEnd(radix: nat)
    requires 2 <= radix <= 37
    ensures Digits(0, radix) == ""
  {}

  lemma HalfAtMost(n: int, radix: int, p: int)
    requires radix >= 2 && 0 <= n < 2 * p
    ensures 0 <= n / radix < p
  {
    var q := n / radix;
    assert n == q * radix + n % radix;
    QuotientNat(n, radix);
    if q > 0 {
      TimesMonotone(2, radix, q);
      Commutes(radix, q);
    }
  }

  // ---- division

  // Quotient and remainder of division that truncates towards zero.
  function Quot(x: int, y: int): int
    requires y != 0
  {
    if (x < 0) != (y < 0) then -(Abs(x) / Abs(y)) else Abs(x) / Abs(y)
  }

  function Rem(x: int, y: int): int
    requires y != 0
  {
    x - Quot(x, y) * y
  }

  lemma TruncatedIs(x: int, y: int, q: int, r: int)
    requires y != 0 && Truncated(x, y, q, r)
    ensures q == Quot(x, y) && r == Rem(x, y)
  {
    var m, n := if x < 0 then -1 else 1, if y < 0 then -1 else 1;
    SignsOut(q, y, m, n);
    DivModIs(Abs(x), Abs(y), m * n * q, Abs(r));
  }

  lemma SignsOut(q: int, y: int, m: int, n: int)
    requires (m == 1 || m == -1) && (n == 1 || n == -1)
    ensures m * (q * y) == (m * n * q) * (n * y)
  {
    if m == 1 && n == -1 {
      assert (-q) * (-y) == q * y;
    } else if m == -1 && n == 1 {
      assert (-q) * y == -(q * y);
    } else if m == -1 {
      assert q * -y == -(q * y);
    }
  }

  // The least integer is divided wrongly, by anything: the remainder is not
  // smaller than the divisor.
  lemma MinDividedWrongly(y: int)
    requires MIN <= y <= MAX
    ensures !Truncated(MIN, y, 0, MIN)
  {}

  // Whether div's comparison finds the remainder r below the least integer.
  predicate BelowMin(r: int) { Less(r % W, r / W, MIN % W, MIN / W) }

  // The remainder after k rounds of div's second loop for the least divisor,
  // which is its own negative. Only with the remainder below the divisor would
  // a round take the next bit, or end the loop; otherwise it takes the divisor away.
  function AfterRounds(k: nat): int {
    if k == 0 then 0
    else
      var r := AfterRounds(k - 1);
      if BelowMin(r) then r else Wrap(r - MIN)
  }

  // A division by the least integer does not end. No absolute value dd is below
  // it, so the division begins; the first loop is not entered; and in the second
  // the remainder goes from 0 to the divisor and back for ever.
  lemma {:induction false} MinDivisorRepeats(dd: int, k: nat)
    requires 0 <= dd <= MAX || dd == MIN
    ensures Wrap(-MIN) == MIN && !BelowMin(dd)
    ensures AfterRounds(k) == (if k % 2 == 0 then 0 else MIN) && !BelowMin(AfterRounds(k))
  {
    WrapIs(-MIN, MIN, 1);
    WrapIs(0, 0, 0);
    NotBelowMin(dd);
    NotBelowMin(0);
    NotBelowMin(MIN);
    if k > 0 {
      MinDivisorRepeats(dd, k - 1);
    }
  }

  lemma NotBelowMin(v: int)
    requires 0 <= v <= MAX || v == MIN
    ensures !BelowMin(v)
  {}

  // q and r as truncating division gives them
  predicate Truncated(x: int, y: int, q: int, r: int) {
    && x == q * y + r && Abs(r) < Abs(y) && (r > 0 ==> x > 0) && (r < 0 ==> x < 0)
  }

  lemma AllBitsOff(d: int)
    requires 0 <= d <= MAX
    ensures d / Pow2(128) == 0 && d / Pow2(0) == d
  {
    Pow2Known();
    SmallMod(d, Pow2(128));
  }

  lemma NextBit(d: int, n: nat)
    requires 0 <= d <= MAX && n > 0
    ensures d / Pow2(n - 1) == 2 * (d / Pow2(n)) + d / Pow2(n - 1) % 2
    ensures 0 <= d / Pow2(n) && 2 * (d / Pow2(n)) + 1 <= MAX
  {
    LowNext(1, d, n - 1);
    Pow2Of1();
    QuotientAtMost(d, Pow2(n - 1));
    QuotientAtMost(d, Pow2(n));
  }

  // The bits of d down to the b-th, divided by s: u is the quotient so far.
  ghost predicate Dividing(d: int, s: int, b: nat, u: int, r: int) {
    u >= 0 && d / Pow2(b) == u * s + r && 0 <= r < 2 * s && (r >= s ==> u % 2 == 0)
  }

  lemma DivisionShift(d: int, s: int, b: nat, u: int, r: int)
    requires 0 <= d <= MAX && Dividing(d, s, b + 1, u, r) && r < s
    ensures Dividing(d, s, b, 2 * u, 2 * r + d / Pow2(b) % 2)
    ensures u * Pow2(b + 1) == 2 * u * Pow2(b) && 2 * r + 1 <= MAX
  {
    NextBit(d, b + 1);
    assert u * s >= 0;
    assert 2 * u * s == 2 * (u * s);
    assert u * (2 * Pow2(b)) == 2 * u * Pow2(b);
  }

  lemma DivisionTake(d: int, s: int, b: nat, u: int, r: int)
    requires 0 <= d <= MAX && 0 < s && Dividing(d, s, b, u, r) && r >= s
    ensures Dividing(d, s, b, u + 1, r - s)
    ensures !Bit(u * Pow2(b), b) && 0 <= u * Pow2(b) && u * Pow2(b) + Pow2(b) == (u + 1) * Pow2(b) <= MAX
  {
    hide Pow2;
    TakeArithmetic(d, s, Pow2(b), u, r);
  }

  lemma TakeArithmetic(d: int, s: int, p: int, u: int, r: int)
    requires d >= 0 && s > 0 && p > 0 && u >= 0 && d / p == u * s + r && r >= s
    ensures d / p == (u + 1) * s + (r - s)
    ensures u * p / p == u && 0 <= u * p && u * p + p == (u + 1) * p <= d
  {
    DivModIs(u * p, p, u, 0);
    Distributes(u, 1, s);
    Distributes(u, 1, p);
    TimesMonotone(1, s, u + 1);
    Commutes(s, u + 1);
    TimesQuotient(d, u + 1, p);
    TimesQuotient(d, u, p);
  }

  lemma Distributes(a: int, b: int, c: int)
    ensures (a + b) * c == a * c + b * c
  {}

  lemma Commutes(a: int, b: int)
    ensures a * b == b * a
  {}

  lemma OnlyRemainder(x: int, y: int)
    requires x != MIN ==> Abs(x) < Abs(y)
    ensures x != MIN ==> Truncated(x, y, 0, x)
  {}

  lemma SignedDivision(x: int, y: int, q: int, r: int)
    requires MIN < x <= MAX && MIN < y <= MAX && y != 0 && 0 <= q <= MAX && 0 <= r <= MAX
    requires Abs(x) == q * Abs(y) + r && r < Abs(y) && q > 0
    ensures Wrap(-q) == -q && Wrap(-r) == -r
    ensures Truncated(x, y, if (y < 0) != (x < 0) then -q else q, if x < 0 then -r else r)
  {
    WrapIs(-q, -q, 0);
    WrapIs(-r, -r, 0);
    assert q * -y == -(q * y) && -q * y == -(q * y);
    assert q * Abs(y) > 0 by {
      TimesMonotone(1, q, Abs(y));
    }
  }

  function Abs(x: int): nat { if x < 0 then -x else x }

  // The lowest i bits of y.
  function Low(y: int, i: nat): nat { y % Pow2(i) }

  lemma LowStart(x: int, y: int)
    ensures Wrap(x * Low(y, 0)) == 0 && y / Pow2(0) == y
  {
    WrapIs(x * Low(y, 0), 0, 0);
  }

  lemma LowestBit(lo: int, hi: int)
    requires Words(lo, hi)
    ensures Val(lo, hi) % 2 == lo % 2 && And(lo, 1) == lo % 2
  {
    AndLow(lo, 1);
    Pow2Of1();
    hide And, Pow2;
    EvenShift(lo, hi, W);
  }

  // One round of the multiplication.
  lemma LowNext(x: int, y: int, i: nat)
    ensures y / Pow2(i + 1) == y / Pow2(i) / Pow2(1)
    ensures y / Pow2(i) % 2 == 1 ==> Wrap(x * Low(y, i + 1)) == Wrap(Wrap(x * Low(y, i)) + Wrap(x * Pow2(i)))
    ensures y / Pow2(i) % 2 == 0 ==> x * Low(y, i + 1) == x * Low(y, i)
  {
    var p := Pow2(i);
    var q, r := y / p, y % p;
    assert y == q * p + r;
    var h, b := q / 2, q % 2;
    assert y == h * (2 * p) + (b * p + r) by {
      assert q * p == h * (2 * p) + b * p;
    }
    DivModIs(y, 2 * p, h, b * p + r);
    assert Low(y, i + 1) == b * p + r;
    if b == 1 {
      assert x * (p + r) == x * r + x * p;
      WrapAdd(x * r, Wrap(x * p));
      WrapAdd(x * r, x * p);
    }
  }

  lemma LowAll(x: int, y: int)
    ensures Wrap(x * Low(y, 128)) == Wrap(x * y)
  {
    Pow2Known();
    var k := y / M;
    assert y == Low(y, 128) + k * M;
    assert x * y == x * Low(y, 128) + x * k * M;
    WrapSame(x * y, x * Low(y, 128), x * k);
  }

  lemma SetLowBit(lo: int, hi: int, n: nat)
    requires Words(lo, hi) && n < 64
    ensures Or(lo, Pow2(n)) < W
    ensures Val(Or(lo, Pow2(n)), hi) == if Bit(Val(lo, hi), n) then Val(lo, hi) else Wrap(Val(lo, hi) + Pow2(n))
  {
    Pow2Known();
    LowBit(lo, hi, n);
    OrBit(lo, n);
    hide Pow2, Or;
    if !Bit(lo, n) {
      RoomForBit(lo, n, 64);
      WrapIs(Val(lo, hi) + Pow2(n), Val(lo + Pow2(n), hi), 0);
    }
  }

  lemma SetLowest(lo: int, hi: int)
    requires Words(lo, hi) && Val(lo, hi) % 2 == 0
    ensures Or(lo, 1) < W && Val(Or(lo, 1), hi) == Val(lo, hi) + 1
  {
    LowestBit(lo, hi);
    OrBit(lo, 0);
  }

  lemma SetHighBit(lo: int, hi: int, n: nat)
    requires Words(lo, hi) && 64 <= n < 128
    ensures Val(lo, Signed(Or(Unsigned(hi), Pow2(n - 64)))) == if Bit(Val(lo, hi), n) then Val(lo, hi)
      else Wrap(Val(lo, hi) + Pow2(n))
  {
    var m, v := n - 64, Val(lo, hi);
    Pow2Known();
    Pow2Add(m, 64);
    assert m + 64 == n && Pow2(n) == Pow2(m) * W;
    HighBit(lo, hi, n);
    OrBit(Unsigned(hi), m);
    hide Pow2, Or, Bit, Val, Wrap, Signed, Unsigned;
    SignedBack(hi);
    AddHigh(lo, hi, Pow2(m));
  }

  lemma ClearLowBit(lo: int, hi: int, n: nat)
    requires Words(lo, hi) && n < 64
    ensures Pow2(n) < W && And(lo, W - 1 - Pow2(n)) < W
    ensures Val(And(lo, W - 1 - Pow2(n)), hi) == if Bit(Val(lo, hi), n) then Wrap(Val(lo, hi) - Pow2(n))
      else Val(lo, hi)
  {
    Pow2Known();
    LowBit(lo, hi, n);
    AndNotBit(lo, n, 64);
    hide Pow2, And;
    if Bit(lo, n) {
      WrapIs(Val(lo, hi) - Pow2(n), Val(lo - Pow2(n), hi), 0);
    }
  }

  lemma ClearHighBit(lo: int, hi: int, n: nat)
    requires Words(lo, hi) && 64 <= n < 128
    ensures Pow2(n - 64) < W
    ensures Val(lo, Signed(And(Unsigned(hi), W - 1 - Pow2(n - 64)))) == if Bit(Val(lo, hi), n)
      then Wrap(Val(lo, hi) - Pow2(n)) else Val(lo, hi)
  {
    var m, v := n - 64, Val(lo, hi);
    Pow2Known();
    Pow2Add(m, 64);
    assert m + 64 == n && Pow2(n) == Pow2(m) * W;
    HighBit(lo, hi, n);
    AndNotBit(Unsigned(hi), m, 64);
    hide Pow2, And, Bit, Val, Wrap, Signed, Unsigned;
    SignedBack(hi);
    var p: int := Pow2(m);
    AddHigh(lo, hi, -p);
    assert -p * W == -(p * W);
  }

  lemma SignedBack(hi: int)
    requires -H <= hi < H
    ensures Signed(Unsigned(hi)) == hi
  {
    var k := hi / W;
    SignedIs(Unsigned(hi), hi, -k);
  }

  lemma AddHigh(lo: int, hi: int, p: int)
    requires Words(lo, hi)
    ensures Val(lo, Signed(Unsigned(hi) + p)) == Wrap(Val(lo, hi) + p * W)
  {
    var u, k := Unsigned(hi), hi / W;
    var j := SignedAway(u + p);
    assert hi == u + k * W;
    WrapIs(Val(lo, hi) + p * W, Val(lo, Signed(u + p)), j + k);
  }

  lemma SignedIs(x: int, v: int, k: int)
    requires -H <= v < H && x == v + k * W
    ensures Signed(x) == v
  {
    if v >= 0 {
      DivModIs(x, W, k, v);
    } else {
      DivModIs(x, W, k - 1, v + W);
    }
  }
}
