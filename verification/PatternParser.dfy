// PatternMatcher::setPattern: the text of a pattern, and what it comes to mean.

module PatternParsing {
  import opened Options
  import opened PatternMatching
  import opened Sequences

  datatype Range = Range(lo: int, up: int, rest: string)
  datatype Parsed = Parsed(text: string, rest: string)

  // The character at a place of a string that ends with a zero.
  function At(s: string, i: nat): char { if i < |s| then s[i] else '\0' }

  function Number(s: string): int { if DigitRun(s) > 0 then Value(s[..DigitRun(s)]) else -1 }

  // "[n..m]" or "{n..m}" at the start of s; the rest begins with the closing character.
  function NumRangeAt(s: string, closingchar: char): (r: Option<Range>)
    requires s != ""
    ensures r.Some? ==>
      r.value.rest != "" && r.value.rest[0] == closingchar && |r.value.rest| < |s| && IsSuffix(r.value.rest, s)
  {
    var a := s[1..];
    var b := a[DigitRun(a)..];
    if At(b, 0) != '.' || At(b, 1) != '.' then None
    else
      var c := b[2..];
      var d := c[DigitRun(c)..];
      if At(d, 0) != closingchar || d == "" then None else Some(Range(Number(a), Number(c), d))
  }

  predicate IsSuffix(rest: string, s: string) { |rest| <= |s| && s[|s| - |rest|..] == rest }

  // Read from the left, no backslash is left without a character after it.
  predicate Complete(s: string) {
    s == "" || if s[0] == '\\' then |s| > 1 && Complete(s[2..]) else Complete(s[1..])
  }

  // Whatever is not a backslash begins a text that is complete as the whole is.
  lemma {:induction false} CompleteFrom(s: string, k: nat)
    requires k < |s| && s[k] != '\\'
    ensures Complete(s) <==> Complete(s[k..])
  {
    if k == 1 && s[0] == '\\' {
      assert s[1..][1..] == s[2..];
    } else if k > 0 {
      var d := if s[0] == '\\' then 2 else 1;
      CompleteFrom(s[d..], k - d);
      assert s[d..][k - d..] == s[k..];
    }
  }

  lemma SuffixFrom(rest: string, s: string, k: nat)
    requires k <= |s| && IsSuffix(rest, s[k..])
    ensures IsSuffix(rest, s)
  {}

  lemma CompleteRest(rest: string, s: string)
    requires IsSuffix(rest, s) && rest != "" && rest[0] != '\\'
    ensures Complete(s) <==> Complete(rest)
    ensures Complete(rest) <==> Complete(rest[1..])
  {
    CompleteFrom(s, |s| - |rest|);
  }

  // Characters up to the next special one; a "[" that begins a numeric range is the last.
  function LiteralAt(s: string): (r: Parsed)
    requires Complete(s)
    ensures |r.rest| <= |s| && Complete(r.rest)
  {
    if s == "" || s[0] in {'?', '{', '*'} then Parsed("", s)
    else
      var t := if s[0] == '\\' then s[1..] else s;
      if t[0] == '[' && NumRangeAt(t, ']').Some? then Parsed([t[0]], t)
      else
        var r := LiteralAt(t[1..]);
        Parsed([t[0]] + r.text, r.rest)
  }

  // Pairs of range ends, up to the closing brace or the end.
  function SetAt(s: string, first: bool): (r: Parsed)
    ensures |r.rest| <= |s| && |r.text| % 2 == 0
    ensures r.rest != "" ==> r.rest[0] == '}'
    decreases |s|
  {
    if s == "" || (s[0] == '}' && !first) then Parsed("", s)
    else if At(s, 1) == '-' && |s| > 2 && s[2] != '}' then
      var r := SetAt(s[3..], false);
      Parsed([s[0], s[2]] + r.text, r.rest)
    else
      var r := SetAt(s[1..], false);
      Parsed([s[0], s[0]] + r.text, r.rest)
  }

  lemma {:induction false} SetEnds(s: string, first: bool)
    ensures IsSuffix(SetAt(s, first).rest, s)
    decreases |s|
  {
    if s == "" || (s[0] == '}' && !first) {
    } else if At(s, 1) == '-' && |s| > 2 && s[2] != '}' {
      SetEnds(s[3..], false);
      SuffixFrom(SetAt(s, first).rest, s, 3);
    } else {
      SetEnds(s[1..], false);
      SuffixFrom(SetAt(s, first).rest, s, 1);
    }
  }

  datatype Token = Token(e: Elem, rest: string)

  // The first element of a pattern, or nothing if a brace is not closed.
  function TokenAt(s: string, afterLiteral: bool, dottedpath: bool): (r: Option<Token>)
    requires Complete(s) && s != ""
    ensures r.Some? ==> Regular(r.value.e) && Complete(r.value.rest)
    ensures r.Some? ==> |r.value.rest| < |s| || (r.value.rest == s && !afterLiteral && r.value.e.LiteralString?)
  {
    if s[0] == '?' then Some(Token(if dottedpath then CommonChar else AnyChar, s[1..]))
    else if s[0] == '*' then
      if At(s, 1) == '*' then
        CompleteRest(s[1..], s);
        assert s[1..][1..] == s[2..];
        Some(Token(AnySeq, s[2..]))
      else Some(Token(if dottedpath then CommonSeq else AnySeq, s[1..]))
    else if s[0] == '{' then BraceAt(s)
    else if s[0] == '[' && afterLiteral && NumRangeAt(s, ']').Some? then
      var n := NumRangeAt(s, ']').value;
      CompleteRest(n.rest, s);
      Some(Token(NumRange(n.lo, n.up), n.rest))
    else
      LiteralMoves(s);
      Some(Token(LiteralString(LiteralAt(s).text), LiteralAt(s).rest))
  }

  function BraceAt(s: string): (r: Option<Token>)
    requires s != "" && s[0] == '{'
    ensures r.Some? ==> Regular(r.value.e) && |r.value.rest| < |s| && (Complete(s) ==> Complete(r.value.rest))
  {
    var n := NumRangeAt(s, '}');
    if n.Some? then
      CompleteRest(n.value.rest, s);
      Some(Token(NumRange(n.value.lo, n.value.up), n.value.rest[1..]))
    else SetTokenAt(s)
  }

  function SetTokenAt(s: string): (r: Option<Token>)
    requires s != "" && s[0] == '{'
    ensures r.Some? ==> Regular(r.value.e) && |r.value.rest| < |s| && (Complete(s) ==> Complete(r.value.rest))
  {
    var neg := At(s, 1) == '^';
    var r := SetAt(if neg then s[2..] else s[1..], true);
    if r.rest == "" then None
    else
      SetEnds(if neg then s[2..] else s[1..], true);
      SuffixFrom(r.rest, s, if neg then 2 else 1);
      CompleteRest(r.rest, s);
      Some(Token(if neg then NegSet(r.text) else Set(r.text), r.rest[1..]))
  }

  predicate Regular(e: Elem) { !e.End? && ((e.Set? || e.NegSet?) ==> |e.setchars| % 2 == 0) }

  // The elements of a pattern.
  function Elements(s: string, afterLiteral: bool, dottedpath: bool): (r: Option<seq<Elem>>)
    requires Complete(s)
    ensures r.Some? ==> forall e :: e in r.value ==> Regular(e)
    decreases |s|, if afterLiteral then 0 else 1
  {
    if s == "" then Some([])
    else
      var t := TokenAt(s, afterLiteral, dottedpath);
      if t.None? then None
      else
        var more := Elements(t.value.rest, t.value.e.LiteralString?, dottedpath);
        if more.None? then None else Some([t.value.e] + more.value)
  }

  // A literal takes a character, or is a "[" before a numeric range.
  lemma LiteralMoves(s: string)
    requires Complete(s) && s != "" && s[0] !in {'?', '{', '*'}
    ensures |LiteralAt(s).rest| < |s| || (s[0] == '[' && NumRangeAt(s, ']').Some? && LiteralAt(s) == Parsed("[", s))
  {}

  // The whole pattern: for a substring match, "**" at both ends.
  function Pattern(es: seq<Elem>, fullstring: bool): seq<Elem> {
    if fullstring then es + [End]
    else
      var more := if es == [] || es[|es| - 1] != AnySeq then es + [AnySeq] else es;
      (if more[0] != AnySeq then [AnySeq] + more else more) + [End]
  }

  // ---- the parser

  method ParseNumRange(str: string, closingchar: char) returns (r: Option<Range>)
    requires str != ""
    ensures r == NumRangeAt(str, closingchar)
  {
    var lo: int, up: int := -1, -1;
    var s := str[1..];
    if s != "" && IsDigit(s[0]) {
      lo := Value(s[..DigitRun(s)]);
      s := SkipDigits(s);
    }
    if At(s, 0) != '.' || At(s, 1) != '.' {
      return None;
    }
    s := s[2..];
    if s != "" && IsDigit(s[0]) {
      up := Value(s[..DigitRun(s)]);
      s := SkipDigits(s);
    }
    if s == "" || s[0] != closingchar {
      return None;
    }
    return Some(Range(lo, up, s));
  }

  method ParseLiteralString(str: string) returns (r: Parsed)
    requires Complete(str)
    ensures r == LiteralAt(str)
  {
    var s, literal := str, "";
    while s != "" && s[0] !in {'?', '{', '*'}
      invariant Complete(s) && literal + LiteralAt(s).text == LiteralAt(str).text
        && LiteralAt(s).rest == LiteralAt(str).rest
      decreases |s|
    {
      LiteralStep(s);
      hide LiteralAt, NumRangeAt;
      if s[0] == '\\' {
        s := s[1..];
      }
      Assoc(literal, [s[0]], LiteralAt(s[1..]).text);
      literal := literal + [s[0]];
      if s[0] == '[' {
        var n := ParseNumRange(s, ']');
        if n.Some? {
          return Parsed(literal, s);
        }
      }
      s := s[1..];
    }
    return Parsed(literal, s);
  }

  lemma LiteralStep(s: string)
    requires Complete(s) && s != "" && s[0] !in {'?', '{', '*'}
    ensures var t := if s[0] == '\\' then s[1..] else s;
      && t != "" && Complete(t[1..])
      && LiteralAt(s) == if t[0] == '[' && NumRangeAt(t, ']').Some? then Parsed([t[0]], t)
         else Parsed([t[0]] + LiteralAt(t[1..]).text, LiteralAt(t[1..]).rest)
  {
    if s[0] == '\\' {
      assert s[1..][1..] == s[2..];
    }
  }

  method ParseSet(str: string) returns (r: Option<Token>)
    requires str != "" && str[0] == '{'
    ensures r == SetTokenAt(str)
  {
    var s, neg := str[1..], false;
    if At(s, 0) == '^' {
      neg := true;
      s := s[1..];
      assert s == str[2..];
    }
    var sbeg, setchars := s, "";
    while s != "" && (s[0] != '}' || |s| == |sbeg|)
      invariant |s| <= |sbeg| && (|s| == |sbeg| ==> s == sbeg && setchars == "")
      invariant setchars + SetAt(s, |s| == |sbeg|).text == SetAt(sbeg, true).text
        && SetAt(s, |s| == |sbeg|).rest == SetAt(sbeg, true).rest
      decreases |s|
    {
      var range;
      if At(s, 1) == '-' && |s| > 2 && s[2] != '}' {
        range := [s[0], s[2]];
        s := s[3..];
      } else {
        range := [s[0], s[0]];
        s := s[1..];
      }
      Assoc(setchars, range, SetAt(s, false).text);
      setchars := setchars + range;
    }
    assert SetAt(s, |s| == |sbeg|) == Parsed("", s) && setchars + "" == setchars;
    assert neg == (At(str, 1) == '^') && sbeg == if neg then str[2..] else str[1..];
    if s == "" {
      return None;
    }
    return Some(Token(if neg then NegSet(setchars) else Set(setchars), s[1..]));
  }

  method ParseToken(s: string, afterLiteral: bool, dottedpath: bool) returns (r: Option<Token>)
    requires Complete(s) && s != ""
    ensures r == TokenAt(s, afterLiteral, dottedpath)
  {
    match s[0] {
      case '?' =>
        return Some(Token(if dottedpath then CommonChar else AnyChar, s[1..]));
      case '[' =>
        var n := ParseNumRange(s, ']');
        if !afterLiteral || n.None? {
          var l := ParseLiteralString(s);
          return Some(Token(LiteralString(l.text), l.rest));
        }
        return Some(Token(NumRange(n.value.lo, n.value.up), n.value.rest));
      case '{' =>
        var n := ParseNumRange(s, '}');
        if n.Some? {
          return Some(Token(NumRange(n.value.lo, n.value.up), n.value.rest[1..]));
        }
        r := ParseSet(s);
      case '*' =>
        if At(s, 1) == '*' {
          return Some(Token(AnySeq, s[2..]));
        }
        return Some(Token(if dottedpath then CommonSeq else AnySeq, s[1..]));
      case _ =>
        var l := ParseLiteralString(s);
        return Some(Token(LiteralString(l.text), l.rest));
    }
  }

  // Sets the pattern; fails if a brace is not closed.
  method SetPattern(m: PatternMatcher, patt: string, dottedpath: bool, fullstring: bool) returns (ok: bool)
    requires Complete(patt)
    modifies m
    ensures ok <==> Elements(patt, false, dottedpath).Some?
    ensures ok ==> WellFormed(m.pattern) && m.pattern == Pattern(Elements(patt, false, dottedpath).value, fullstring)
  {
    var s, pattern: seq<Elem> := patt, [];
    hide TokenAt;
    while s != ""
      invariant Complete(s) && Begun(patt, pattern, s, dottedpath)
      decreases |s|, if EndsInLiteral(pattern) then 0 else 1
    {
      var t := ParseToken(s, EndsInLiteral(pattern), dottedpath);
      if t.None? {
        m.pattern := pattern;
        return false;
      }
      TokenTaken(patt, pattern, s, dottedpath);
      pattern := pattern + [t.value.e];
      s := t.value.rest;
    }
    assert pattern == Elements(patt, false, dottedpath).value;
    if !fullstring {
      if pattern == [] || pattern[|pattern| - 1] != AnySeq {
        pattern := pattern + [AnySeq];
      }
      if pattern[0] != AnySeq {
        pattern := [AnySeq] + pattern;
      }
    }
    pattern := pattern + [End];
    PatternFormed(Elements(patt, false, dottedpath).value, fullstring);
    m.pattern := pattern;
    ok := true;
  }

  predicate EndsInLiteral(es: seq<Elem>) { es != [] && es[|es| - 1].LiteralString? }

  // pattern holds the first elements of patt, and s is the rest of its text.
  ghost predicate Begun(patt: string, pattern: seq<Elem>, s: string, dottedpath: bool)
    requires Complete(patt) && Complete(s)
  {
    var whole, more := Elements(patt, false, dottedpath), Elements(s, EndsInLiteral(pattern), dottedpath);
    (whole.Some? <==> more.Some?) && (whole.Some? ==> whole.value == pattern + more.value)
  }

  lemma TokenTaken(patt: string, pattern: seq<Elem>, s: string, dottedpath: bool)
    requires Complete(patt) && Complete(s) && s != "" && Begun(patt, pattern, s, dottedpath)
    ensures var t := TokenAt(s, EndsInLiteral(pattern), dottedpath);
      t.Some? ==> Begun(patt, pattern + [t.value.e], t.value.rest, dottedpath)
  {
    var t := TokenAt(s, EndsInLiteral(pattern), dottedpath);
    hide TokenAt;
    if t.Some? {
      var more := Elements(t.value.rest, t.value.e.LiteralString?, dottedpath);
      if more.Some? {
        assert pattern + ([t.value.e] + more.value) == pattern + [t.value.e] + more.value;
      }
    }
  }

  lemma PatternFormed(es: seq<Elem>, fullstring: bool)
    requires forall e :: e in es ==> Regular(e)
    ensures WellFormed(Pattern(es, fullstring))
  {
    var p := Pattern(es, fullstring);
    forall i | 0 <= i < |p| - 1 ensures Regular(p[i]) {
      assert p[i] == AnySeq || p[i] in es;
    }
  }
}
