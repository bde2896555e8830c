// PatternMatcher: glob patterns, as lists of elements, matched against lines.

module PatternMatching {

  datatype Elem =
    | LiteralString(literal: string)
    | AnyChar
    | CommonChar
    | Set(setchars: string)
    | NegSet(setchars: string)
    | NumRange(fromnum: int, tonum: int)
    | AnySeq
    | CommonSeq
    | End

  predicate IsDigit(c: char) { '0' <= c <= '9' }

  // The number of digits s begins with, and the number they write.
  function DigitRun(s: string): (n: nat)
    ensures n <= |s| && (n < |s| ==> !IsDigit(s[n])) && forall i :: 0 <= i < n ==> IsDigit(s[i])
  {
    if s == "" || !IsDigit(s[0]) then 0 else 1 + DigitRun(s[1..])
  }

  function Value(digits: string): nat
    requires forall i :: 0 <= i < |digits| ==> IsDigit(digits[i])
  {
    if digits == "" then 0
    else
      var d := digits[|digits| - 1];
      assert IsDigit(d);
      10 * Value(digits[..|digits| - 1]) + (d as int - '0' as int)
  }

  // set holds character ranges, as pairs of their first and last characters.
  ghost predicate InSet(c: char, set_: string) {
    exists i :: 0 <= 2 * i && 2 * i + 1 < |set_| && InRange(c, set_, i)
  }

  predicate InRange(c: char, set_: string, i: int)
    requires 0 <= 2 * i && 2 * i + 1 < |set_|
  {
    set_[2 * i] <= c <= set_[2 * i + 1]
  }

  // ---- what a pattern means

  // The piece of a line that e stands for, when `rest` comes after it. A
  // number is never cut short.
  ghost predicate Fits(e: Elem, piece: string, rest: string) {
    match e
    case LiteralString(t) => piece == t
    case AnyChar => |piece| == 1
    case CommonChar => |piece| == 1 && piece[0] != '.'
    case Set(cs) => |piece| == 1 && InSet(piece[0], cs)
    case NegSet(cs) => |piece| == 1 && !InSet(piece[0], cs)
    case NumRange(lo, up) =>
      && piece != "" && (forall i :: 0 <= i < |piece| ==> IsDigit(piece[i])) && (rest == "" || !IsDigit(rest[0]))
      && (lo >= 0 ==> Value(piece) >= lo) && (up >= 0 ==> Value(piece) <= up)
    case AnySeq => true
    case CommonSeq => '.' !in piece
    case End => false
  }

  function Joined(pieces: seq<string>): string {
    if pieces == [] then "" else pieces[0] + Joined(pieces[1..])
  }

  // The line splits into pieces, one for each element.
  ghost predicate Splits(es: seq<Elem>, line: string) {
    exists pieces :: IsSplit(es, line, pieces)
  }

  ghost predicate IsSplit(es: seq<Elem>, line: string, pieces: seq<string>) {
    |pieces| == |es| && Joined(pieces) == line
      && forall i :: 0 <= i < |es| ==> Fits(es[i], pieces[i], Joined(pieces[i + 1..]))
  }

  // A split is a first piece and a split of what remains.
  ghost predicate Starts(e: Elem, es: seq<Elem>, s: string, n: int) {
    0 <= n <= |s| && Fits(e, s[..n], s[n..]) && Splits(es, s[n..])
  }

  lemma SplitOff(e: Elem, es: seq<Elem>, s: string, pieces: seq<string>) returns (n: nat)
    requires IsSplit([e] + es, s, pieces)
    ensures Starts(e, es, s, n)
  {
    var more := pieces[1..];
    n := |pieces[0]|;
    assert s[..n] == pieces[0] && s[n..] == Joined(more);
    forall i | 0 <= i < |es| ensures Fits(es[i], more[i], Joined(more[i + 1..])) {
      assert ([e] + es)[i + 1] == es[i] && pieces[i + 1] == more[i] && pieces[i + 1 + 1..] == more[i + 1..];
    }
    assert IsSplit(es, s[n..], more);
    assert ([e] + es)[0] == e;
  }

  lemma PutFirst(e: Elem, es: seq<Elem>, s: string, n: int)
    requires Starts(e, es, s, n)
    ensures Splits([e] + es, s)
  {
    var more :| IsSplit(es, s[n..], more);
    var pieces := [s[..n]] + more;
    assert pieces[1..] == more && s == s[..n] + s[n..];
    forall i | 0 <= i < |[e] + es| ensures Fits(([e] + es)[i], pieces[i], Joined(pieces[i + 1..])) {
      if i > 0 {
        assert pieces[i + 1..] == more[i - 1 + 1..] && pieces[i] == more[i - 1] && ([e] + es)[i] == es[i - 1];
      }
    }
    assert IsSplit([e] + es, s, pieces);
  }

  lemma SplitsFirst(e: Elem, es: seq<Elem>, s: string)
    ensures Splits([e] + es, s) <==> exists n :: Starts(e, es, s, n)
  {
    if pieces :| IsSplit([e] + es, s, pieces) {
      var n := SplitOff(e, es, s, pieces);
    }
    if n :| Starts(e, es, s, n) {
      PutFirst(e, es, s, n);
    }
  }

  lemma SplitsNone(s: string)
    ensures Splits([], s) <==> s == ""
  {
    if s == "" {
      assert IsSplit([], s, []);
    }
  }

  // Only the first piece that is n characters long can fit.
  lemma SplitsFixed(e: Elem, es: seq<Elem>, s: string, n: nat)
    requires forall m :: 0 <= m <= |s| && Fits(e, s[..m], s[m..]) ==> m == n
    ensures Splits([e] + es, s) <==> Starts(e, es, s, n)
  {
    SplitsFirst(e, es, s);
  }

  // ---- the matcher

  ghost predicate WellFormed(pattern: seq<Elem>) {
    && pattern != [] && pattern[|pattern| - 1] == End
    && forall i :: 0 <= i < |pattern| - 1 ==>
      !pattern[i].End? && ((pattern[i].Set? || pattern[i].NegSet?) ==> |pattern[i].setchars| % 2 == 0)
  }

  lemma LiteralPiece(t: string, es: seq<Elem>, s: string)
    ensures Splits([LiteralString(t)] + es, s) <==> t <= s && Splits(es, s[|t|..])
  {
    forall m | 0 <= m <= |s| && Fits(LiteralString(t), s[..m], s[m..]) ensures m == |t| {
      assert |s[..m]| == m;
    }
    SplitsFixed(LiteralString(t), es, s, |t|);
    if t <= s {
      assert s[..|t|] == t;
    }
  }

  lemma CharPiece(e: Elem, es: seq<Elem>, s: string)
    requires e.AnyChar? || e.CommonChar? || e.Set? || e.NegSet?
    ensures Splits([e] + es, s) <==> s != "" && Fits(e, s[..1], s[1..]) && Splits(es, s[1..])
  {
    SplitsFixed(e, es, s, 1);
  }

  lemma NumberPiece(e: Elem, es: seq<Elem>, s: string)
    requires e.NumRange?
    ensures Splits([e] + es, s) <==> Fits(e, s[..DigitRun(s)], s[DigitRun(s)..]) && Splits(es, s[DigitRun(s)..])
  {
    var n := DigitRun(s);
    forall m | 0 <= m < n ensures !Fits(e, s[..m], s[m..]) {
      assert s[m..][0] == s[m];
    }
    forall m | n < m <= |s| ensures !Fits(e, s[..m], s[m..]) {
      assert s[..m][n] == s[n];
    }
    SplitsFixed(e, es, s, n);
  }

  // A sequence takes nothing, or one more character.
  lemma SequencePiece(e: Elem, es: seq<Elem>, s: string)
    requires e.AnySeq? || e.CommonSeq?
    ensures Splits([e] + es, s) <==>
      Splits(es, s) || (s != "" && (e.CommonSeq? ==> s[0] != '.') && Splits([e] + es, s[1..]))
  {
    SplitsFirst(e, es, s);
    assert s[..0] == "" && s[0..] == s;
    assert Splits(es, s) ==> Starts(e, es, s, 0);
    if s != "" {
      SplitsFirst(e, es, s[1..]);
      if n :| Starts(e, es, s, n) && n > 0 {
        assert s[1..][..n - 1] == s[..n][1..] && s[1..][n - 1..] == s[n..] && s[..n][0] == s[0];
        assert Starts(e, es, s[1..], n - 1);
      }
      if (e.CommonSeq? ==> s[0] != '.') && exists m :: Starts(e, es, s[1..], m) {
        var m :| Starts(e, es, s[1..], m);
        assert s[..m + 1] == [s[0]] + s[1..][..m] && s[1..][m..] == s[m + 1..];
        assert Starts(e, es, s, m + 1);
      }
    }
  }

  // A pattern ending in "**" matches what is left, whatever it is.
  lemma LastSequence(s: string)
    ensures Splits([AnySeq], s)
  {
    SplitsNone("");
    assert s[|s|..] == "" && [AnySeq] + [] == [AnySeq];
    assert Starts(AnySeq, [], s, |s|);
    SplitsFirst(AnySeq, [], s);
  }

  predicate EndsWith(s: string, ending: string) {
    |s| >= |ending| && s[|s| - |ending|..] == ending
  }

  // "**" and a last literal match what ends in the literal.
  lemma SequenceAndLiteral(t: string, s: string)
    ensures Splits([AnySeq, LiteralString(t)], s) <==> EndsWith(s, t)
  {
    SplitsFirst(AnySeq, [LiteralString(t)], s);
    assert [AnySeq] + [LiteralString(t)] == [AnySeq, LiteralString(t)];
    if n :| Starts(AnySeq, [LiteralString(t)], s, n) {
      LastLiteral(t, s[n..]);
    }
    if EndsWith(s, t) {
      LastLiteral(t, s[|s| - |t|..]);
      assert Starts(AnySeq, [LiteralString(t)], s, |s| - |t|);
    }
  }

  lemma LastLiteral(t: string, s: string)
    ensures Splits([LiteralString(t)], s) <==> s == t
  {
    assert [LiteralString(t)] + [] == [LiteralString(t)];
    LiteralPiece(t, [], s);
    if t <= s {
      SplitsNone(s[|t|..]);
    }
  }

  // Whatever comes before a last literal, the line ends in it.
  lemma {:induction false} EndsInLiteral(es: seq<Elem>, t: string, s: string)
    requires Splits(es + [LiteralString(t)], s)
    ensures EndsWith(s, t)
  {
    if es == [] {
      assert es + [LiteralString(t)] == [LiteralString(t)];
      LastLiteral(t, s);
    } else {
      assert es + [LiteralString(t)] == [es[0]] + (es[1..] + [LiteralString(t)]);
      SplitsFirst(es[0], es[1..] + [LiteralString(t)], s);
      var n :| Starts(es[0], es[1..] + [LiteralString(t)], s, n);
      EndsInLiteral(es[1..], t, s[n..]);
      assert s[n..][|s[n..]| - |t|..] == s[|s| - |t|..];
    }
  }

  lemma LastTwo(es: seq<Elem>, t: string, s: string)
    requires Splits(es + [LiteralString(t)], s) && |t| >= 2
    ensures |s| >= 2 && s[|s| - 1] == t[|t| - 1] && s[|s| - 2] == t[|t| - 2]
  {
    EndsInLiteral(es, t, s);
    var d := |s| - |t|;
    assert s[d..][|t| - 1] == s[d + |t| - 1] && s[d..][|t| - 2] == s[d + |t| - 2];
  }

  method SkipDigits(line: string) returns (s: string)
    ensures s == line[DigitRun(line)..]
  {
    s := line;
    ghost var n := 0;
    while s != "" && IsDigit(s[0])
      invariant n <= |line| && s == line[n..] && n + DigitRun(s) == DigitRun(line)
      decreases |s|
    {
      s, n := s[1..], n + 1;
    }
  }

  class PatternMatcher {
    var pattern: seq<Elem>

    constructor (pattern: seq<Elem>)
      ensures this.pattern == pattern
    {
      this.pattern := pattern;
    }

    // The elements before the end mark, from the k-th on.
    ghost function From(k: nat): seq<Elem>
      reads this
      requires k < |pattern|
    {
      pattern[k..|pattern| - 1]
    }

    method IsInSet(c: char, set_: string) returns (r: bool)
      requires |set_| % 2 == 0
      ensures r <==> InSet(c, set_)
    {
      var i := 0;
      while i < |set_|
        invariant 0 <= i <= |set_| && i % 2 == 0
        invariant forall j :: 0 <= 2 * j < i ==> !InRange(c, set_, j)
      {
        assert 2 * (i / 2) == i;
        if set_[i] <= c && c <= set_[i + 1] {
          assert InRange(c, set_, i / 2);
          return true;
        }
        i := i + 2;
      }
      return false;
    }

    method DoMatch(line: string, patternpos: nat) returns (r: bool)
      requires WellFormed(pattern) && patternpos < |pattern|
      ensures r <==> Splits(From(patternpos), line)
      decreases |pattern| - patternpos, 0
    {
      var s, k := line, patternpos;
      while true
        invariant patternpos <= k < |pattern|
        invariant Splits(From(patternpos), line) <==> Splits(From(k), s)
        decreases |pattern| - k
      {
        var e := pattern[k];
        if e.End? {
          SplitsNone(s);
          assert From(k) == [];
          return s == "";
        }
        assert From(k) == [e] + From(k + 1);
        match e {
          case LiteralString(t) =>
            LiteralPiece(t, From(k + 1), s);
            if !(t <= s) {
              return false;
            }
            s := s[|t|..];
          case AnyChar =>
            CharPiece(e, From(k + 1), s);
            if s == "" {
              return false;
            }
            s := s[1..];
          case CommonChar =>
            CharPiece(e, From(k + 1), s);
            if s == "" || s[0] == '.' {
              return false;
            }
            s := s[1..];
          case Set(cs) =>
            CharPiece(e, From(k + 1), s);
            if s == "" {
              return false;
            }
            var in_ := IsInSet(s[0], cs);
            if !in_ {
              return false;
            }
            s := s[1..];
          case NegSet(cs) =>
            CharPiece(e, From(k + 1), s);
            if s == "" {
              return false;
            }
            var in_ := IsInSet(s[0], cs);
            if in_ {
              return false;
            }
            s := s[1..];
          case NumRange(fromnum, tonum) =>
            NumberPiece(e, From(k + 1), s);
            if s == "" || !IsDigit(s[0]) {
              return false;
            }
            var num := Value(s[..DigitRun(s)]);
            s := SkipDigits(s);
            if (fromnum >= 0 && num < fromnum) || (tonum >= 0 && num > tonum) {
              return false;
            }
          case AnySeq =>
            if k == |pattern| - 2 {
              assert From(k) == [AnySeq];
              LastSequence(s);
              return true;
            }
            if k == |pattern| - 3 && pattern[k + 1].LiteralString? {
              assert From(k) == [AnySeq, pattern[k + 1]];
              SequenceAndLiteral(pattern[k + 1].literal, s);
              return EndsWith(s, pattern[k + 1].literal);
            }
            r := TryAll(s, k);
            return;
          case CommonSeq =>
            r := TryAll(s, k);
            return;
        }
        k := k + 1;
      }
    }

    // The k-th element takes longer and longer pieces, until the rest matches.
    method TryAll(line: string, k: nat) returns (r: bool)
      requires WellFormed(pattern) && k < |pattern| - 1 && (pattern[k].AnySeq? || pattern[k].CommonSeq?)
      ensures r <==> Splits(From(k), line)
      decreases |pattern| - k - 1, 1
    {
      var s, e := line, pattern[k];
      assert From(k) == [e] + From(k + 1);
      while true
        invariant Splits(From(k), line) <==> Splits(From(k), s)
        decreases |s|
      {
        SequencePiece(e, From(k + 1), s);
        var rest := DoMatch(s, k + 1);
        if rest {
          return true;
        }
        if s == "" || (e.CommonSeq? && s[0] == '.') {
          return false;
        }
        s := s[1..];
      }
    }

    // Whether the whole line matches the pattern (case-sensitively).
    method Matches(line: string) returns (r: bool)
      requires WellFormed(pattern)
      ensures r <==> Splits(From(0), line)
    {
      if |pattern| >= 2 {
        var e := pattern[|pattern| - 2];
        if e.LiteralString? {
          var pattlen, linelen := |e.literal|, |line|;
          if pattlen >= 2 && linelen >= 2
              && (line[linelen - 1] != e.literal[pattlen - 1] || line[linelen - 2] != e.literal[pattlen - 2]) {
            assert From(0) == pattern[..|pattern| - 2] + [e];
            if Splits(From(0), line) {
              LastTwo(pattern[..|pattern| - 2], e.literal, line);
            }
            return false;
          }
        }
      }
      r := DoMatch(line, 0);
    }
  }
}