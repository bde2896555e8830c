// The numbers that patterns and lines write in decimal, and what ranges and
// wildcards match.

module PatternNumbers {
  import opened Options
  import opened PatternGrammar
  import opened PatternMatching
  import opened PatternMeaning
  import opened PatternParsing
  import opened Sequences

  function Digit(d: nat): (c: char)
    requires d < 10
    ensures IsDigit(c)
  {
    ('0' as int + d) as char
  }

  // The decimal text of n.
  function Decimal(n: nat): string { if n < 10 then [Digit(n)] else Decimal(n / 10) + [Digit(n % 10)] }

  function Power10(n: nat): nat { if n == 0 then 1 else 10 * Power10(n - 1) }

  // What the digits at the places of d add up to.
  function PlaceSum(d: string): nat
    requires Digits(d)
  {
    if d == "" then 0 else (d[0] as int - '0' as int) * Power10(|d| - 1) + PlaceSum(d[1..])
  }

  lemma ValueOfLast(d: string, c: char)
    requires Digits(d) && IsDigit(c)
    ensures Digits(d + [c]) && Value(d + [c]) == 10 * Value(d) + (c as int - '0' as int)
  {
    assert (d + [c])[..|d|] == d;
  }

  lemma {:induction false} PlacesOfLast(d: string, c: char)
    requires Digits(d) && IsDigit(c)
    ensures PlaceSum(d + [c]) == 10 * PlaceSum(d) + (c as int - '0' as int)
  {
    if d == "" {
      assert d + [c] == [c] && [c][1..] == "";
    } else {
      PlacesOfLast(d[1..], c);
      assert (d + [c])[1..] == d[1..] + [c] && Power10(|d|) == 10 * Power10(|d| - 1);
      var x := d[0] as int - '0' as int;
      assert x * Power10(|d|) == 10 * (x * Power10(|d| - 1));
    }
  }

  // Digits write the sum of each digit times the power of ten of its place.
  lemma {:induction false} ValueByPlaces(d: string)
    requires Digits(d)
    ensures Value(d) == PlaceSum(d)
  {
    if d != "" {
      var h := d[..|d| - 1];
      ValueByPlaces(h);
      assert d == h + [d[|d| - 1]];
      PlacesOfLast(h, d[|d| - 1]);
      ValueOfLast(h, d[|d| - 1]);
    }
  }

  // Leading zeros change nothing.
  lemma LeadingZero(d: string)
    requires Digits(d)
    ensures Digits("0" + d) && Value("0" + d) == Value(d)
  {
    ValueByPlaces(d);
    ValueByPlaces("0" + d);
    assert ("0" + d)[1..] == d;
  }

  // The decimal text of a number writes it.
  lemma {:induction false} DecimalValue(n: nat)
    ensures Digits(Decimal(n)) && Decimal(n) != "" && Value(Decimal(n)) == n
  {
    var c := Digit(n % 10);
    if n < 10 {
      assert "" + [c] == Decimal(n);
      ValueOfLast("", c);
    } else {
      DecimalValue(n / 10);
      ValueOfLast(Decimal(n / 10), c);
    }
  }

  // ---- what ranges match

  // One end of a range as it is written: a number, or nothing.
  function EndText(a: Option<nat>): string { if a.Some? then Decimal(a.value) else "" }

  predicate Between(n: nat, a: Option<nat>, b: Option<nat>) {
    (a.Some? ==> a.value <= n) && (b.Some? ==> n <= b.value)
  }

  // The text is a pattern, and matches the line.
  ghost predicate TextMatches(text: string, dottedpath: bool, line: string) {
    Complete(text) && Elements(text, false, dottedpath).Some? && Splits(Elements(text, false, dottedpath).value, line)
  }

  lemma EndBound(a: Option<nat>)
    ensures Digits(EndText(a)) && Bound(EndText(a)) == if a.Some? then a.value else -1
  {
    if a.Some? {
      DecimalValue(a.value);
    }
  }

  lemma RangeFits(lo: int, up: int, a: Option<nat>, b: Option<nat>, piece: string, rest: string)
    requires lo == (if a.Some? then a.value else -1) && up == (if b.Some? then b.value else -1)
    ensures Fits(NumRange(lo, up), piece, rest) <==>
      piece != "" && Digits(piece) && (rest == "" || !IsDigit(rest[0])) && Between(Value(piece), a, b)
  {}

  // A range in braces matches the numbers in it, and nothing else.
  lemma BracesMatch(a: Option<nat>, b: Option<nat>, dottedpath: bool, line: string)
    ensures TextMatches("{" + EndText(a) + ".." + EndText(b) + "}", dottedpath, line) <==>
      line != "" && Digits(line) && Between(Value(line), a, b)
  {
    hide Splits, Fits, Elements, Value, Complete;
    EndBound(a);
    EndBound(b);
    var p := Numbers(EndText(a), EndText(b));
    assert "{" + EndText(a) + ".." + EndText(b) + "}" == PieceText(p);
    OnePiece(p, dottedpath);
    var e := ElemOf(p, dottedpath);
    NumberPiece(e, [], line);
    var n := DigitRun(line);
    SplitsNone(line[n..]);
    RangeFits(e.fromnum, e.tonum, a, b, line[..n], line[n..]);
    WholeRun(line);
  }

  lemma WholeRun(line: string)
    ensures line[DigitRun(line)..] == "" <==> Digits(line)
    ensures Digits(line) ==> line[..DigitRun(line)] == line
  {}

  lemma DecimalBetween(a: Option<nat>, b: Option<nat>, dottedpath: bool, n: nat)
    ensures TextMatches("{" + EndText(a) + ".." + EndText(b) + "}", dottedpath, Decimal(n)) <==> Between(n, a, b)
  {
    hide TextMatches;
    BracesMatch(a, b, dottedpath, Decimal(n));
    DecimalValue(n);
  }

  lemma OnePiece(p: Piece, dottedpath: bool)
    requires Sound(p) && !p.Inner? && !p.Text?
    ensures Complete(PieceText(p))
    ensures Elements(PieceText(p), false, dottedpath) == Some([ElemOf(p, dottedpath)] + [])
  {
    hide IsSuffix, NumRangeAt, LiteralAt, Complete, Elements, PieceText, ElemOf, Sound;
    assert [p][1..] == [] && Proper([p]);
    WrittenIsRead([p], false, dottedpath);
    NothingRendered();
    NothingBefore(PieceText(p));
    assert Render([p]) == PieceText(p) + "" == PieceText(p);
    assert Spelled([p]) == PieceText(p);
    assert ElemsOf([p], dottedpath) == [ElemOf(p, dottedpath)] + [];
  }

  lemma BracketSound(c: char)
    requires c == '[' || c == ']'
    ensures Sound(Text([c])) && LiteralAt([c]).text == [c]
  {
    NoRange(']');
    CharBefore([c], c, "");
    NothingThere("");
    assert [c] + "" == [c];
  }

  // A range in brackets matches the numbers in it, in brackets.
  lemma BracketsMatch(a: Option<nat>, b: Option<nat>, dottedpath: bool, t: string)
    ensures TextMatches("[" + EndText(a) + ".." + EndText(b) + "]", dottedpath, "[" + t + "]") <==>
      t != "" && Digits(t) && Between(Value(t), a, b)
  {
    hide Splits, Fits, Elements, Value, Complete, LiteralAt, NumRangeAt, IsSuffix;
    EndBound(a);
    EndBound(b);
    BracketSound('[');
    BracketSound(']');
    var p := Inner(EndText(a), EndText(b));
    var e := ElemOf(p, dottedpath);
    InBrackets(p, dottedpath);
    var line := "[" + t + "]";
    LiteralPiece("[", [e] + [LiteralString("]")], line);
    assert line[1..] == t + "]";
    NumberPiece(e, [LiteralString("]")], t + "]");
    var n := DigitRun(t + "]");
    LastLiteral("]", (t + "]")[n..]);
    RangeFits(e.fromnum, e.tonum, a, b, (t + "]")[..n], (t + "]")[n..]);
    RunBefore(t, "]");
  }

  lemma {:induction false} RunBefore(t: string, rest: string)
    requires rest != "" && !IsDigit(rest[0])
    ensures (t + rest)[DigitRun(t + rest)..] == rest <==> Digits(t)
    ensures Digits(t) ==> (t + rest)[..DigitRun(t + rest)] == t
  {
    if Digits(t) {
      RunOf(t, rest);
    }
  }

  lemma InBrackets(p: Piece, dottedpath: bool)
    requires p.Inner? && Sound(p) && Sound(Text("[")) && Sound(Text("]"))
    requires LiteralAt("[").text == "[" && LiteralAt("]").text == "]"
    ensures var text := "[" + p.n + ".." + p.m + "]";
      && Complete(text)
      && Elements(text, false, dottedpath) ==
        Some([LiteralString("[")] + ([ElemOf(p, dottedpath)] + [LiteralString("]")]))
  {
    hide IsSuffix, NumRangeAt, LiteralAt, Complete, Elements;
    var l, r := Text("["), Text("]");
    assert [r][1..] == [] && [p, r][1..] == [r] && [l, p, r][1..] == [p, r];
    assert Proper([r]) && Proper([p, r]) && Proper([l, p, r]);
    WrittenIsRead([l, p, r], false, dottedpath);
    assert Render([r]) == "]" && Render([p, r]) == p.n + ".." + p.m + "]";
    assert Spelled([l, p, r]) == "[" + p.n + ".." + p.m + "]";
    assert ElemsOf([r], dottedpath) == [LiteralString("]")];
    assert ElemsOf([p, r], dottedpath) == [ElemOf(p, dottedpath)] + [LiteralString("]")];
  }

  // ---- what wildcards match

  // A question mark matches one character, an asterisk any number of them, but
  // no dots when patterns are paths; two asterisks match everything.
  lemma WildcardsMatch(dottedpath: bool, line: string)
    ensures TextMatches("?", dottedpath, line) <==> |line| == 1 && (dottedpath ==> line[0] != '.')
    ensures TextMatches("*", dottedpath, line) <==> dottedpath ==> '.' !in line
    ensures TextMatches("**", dottedpath, line)
  {
    hide Splits, Elements, Complete;
    OnePiece(Any, dottedpath);
    OnePiece(Star, dottedpath);
    OnePiece(TwoStars, dottedpath);
    CharPiece(ElemOf(Any, dottedpath), [], line);
    if line != "" {
      SplitsNone(line[1..]);
    }
    SequenceMatches(ElemOf(Star, dottedpath), line);
    SequenceMatches(AnySeq, line);
  }

  lemma SequenceMatches(e: Elem, line: string)
    requires e.AnySeq? || e.CommonSeq?
    ensures Splits([e] + [], line) <==> e.CommonSeq? ==> '.' !in line
  {
    hide Splits;
    SplitsFirst(e, [], line);
    forall n | Starts(e, [], line, n) ensures n == |line| {
      SplitsNone(line[n..]);
    }
    SplitsNone("");
    assert line[..|line|] == line && line[|line|..] == "";
    assert Starts(e, [], line, |line|) <==> Fits(e, line, "");
  }
}
