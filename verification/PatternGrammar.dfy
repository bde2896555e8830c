// The grammar of patterns: which texts are patterns, and what elements they are
// read as.

module PatternGrammar {
  import opened Options
  import opened PatternMatching
  import opened PatternMeaning
  import opened PatternParsing
  import opened Sequences

  // What a pattern is written from. A numeric range stands in braces, or is the
  // inner part of brackets that end one literal and begin the next.
  datatype Piece =
    | Text(raw: string)
    | Inner(n: string, m: string)
    | Numbers(n: string, m: string)
    | Chars(neg: bool, items: seq<Item>)
    | Any
    | Star
    | TwoStars

  function PieceText(p: Piece): string {
    match p
    case Text(raw) => raw
    case Inner(n, m) => n + (".." + m)
    case Numbers(n, m) => "{" + (n + (".." + (m + "}")))
    case Chars(neg, items) => (if neg then "{^" else "{") + Written(items) + "}"
    case Any => "?"
    case Star => "*"
    case TwoStars => "**"
  }

  function Render(ps: seq<Piece>): string { if ps == [] then "" else PieceText(ps[0]) + Render(ps[1..]) }

  predicate Begins(s: string, c: char) { s != "" && s[0] == c }

  // A literal is one when it is read alone, with backslashes wherever its writer
  // put them; braces around single characters and ranges do not happen to
  // write a numeric range.
  predicate Sound(p: Piece) {
    match p
    case Text(raw) => raw != "" && Complete(raw) && LiteralAt(raw).rest == ""
    case Inner(n, m) => Digits(n) && Digits(m)
    case Numbers(n, m) => Digits(n) && Digits(m)
    case Chars(neg, items) =>
      Readable(items, true) && (neg || ItemText(items[0])[0] != '^') && NumRangeAt(PieceText(p), '}').None?
    case _ => true
  }

  // Literals are not next to each other, an asterisk is not before another, and
  // an inner range is between brackets.
  predicate Joins(p: Piece, ps: seq<Piece>)
    requires Sound(p)
  {
    match p
    case Text(raw) => ps == [] || if ps[0].Inner? then raw[|raw| - 1] == '[' else !ps[0].Text?
    case Inner(_, _) => ps != [] && ps[0].Text? && Begins(ps[0].raw, ']')
    case Star => ps == [] || !(ps[0].Inner? || ps[0].Star? || ps[0].TwoStars?)
    case _ => !StartsInner(ps)
  }

  predicate StartsInner(ps: seq<Piece>) { ps != [] && ps[0].Inner? }

  predicate Proper(ps: seq<Piece>) { ps == [] || (Sound(ps[0]) && Joins(ps[0], ps[1..]) && Proper(ps[1..])) }

  predicate Writes(ps: seq<Piece>, s: string) { Proper(ps) && !StartsInner(ps) && Render(ps) == s }

  function ElemOf(p: Piece, dottedpath: bool): Elem
    requires Sound(p)
  {
    match p
    case Text(raw) => LiteralString(LiteralAt(raw).text)
    case Inner(n, m) => NumRange(Bound(n), Bound(m))
    case Numbers(n, m) => NumRange(Bound(n), Bound(m))
    case Chars(neg, items) => if neg then NegSet(Pairs(items)) else Set(Pairs(items))
    case Any => if dottedpath then CommonChar else AnyChar
    case Star => if dottedpath then CommonSeq else AnySeq
    case TwoStars => AnySeq
  }

  function ElemsOf(ps: seq<Piece>, dottedpath: bool): seq<Elem>
    requires Proper(ps)
  {
    if ps == [] then [] else [ElemOf(ps[0], dottedpath)] + ElemsOf(ps[1..], dottedpath)
  }

  // ---- ranges in longer texts

  // Text after w cannot complete a range that w leaves open.
  predicate Apart(w: string, rest: string, closingchar: char) {
    || rest == ""
    || (!IsDigit(rest[0]) && rest[0] != '.' && rest[0] != closingchar)
    || (w != "" && !IsDigit(w[|w| - 1]) && w[|w| - 1] != '.')
  }

  lemma RangeLonger(s: string, rest: string, closingchar: char)
    requires s != ""
    ensures NumRangeAt(s, closingchar).Some? ==> NumRangeAt(s + rest, closingchar).Some?
    ensures Apart(s[1..], rest, closingchar) && NumRangeAt(s + rest, closingchar).Some? ==>
      NumRangeAt(s, closingchar).Some?
  {
    hide *;
    var n, b := RunSplits(s[1..]);
    assert (s + rest)[1..] == n + b + rest;
    if ".." <= b {
      var m, d := RunSplits(b[2..]);
      assert b == ".." + (m + d);
      BoundsLonger(s, rest, closingchar, n, m, d);
    } else {
      RangeParts(s, closingchar, n, b);
      NoDots(s, rest, closingchar, n, b);
    }
  }

  lemma NoDots(s: string, rest: string, closingchar: char, n: string, b: string)
    requires s != "" && Digits(n) && (b == "" || !IsDigit(b[0])) && s[1..] == n + b && !(".." <= b)
    ensures Apart(s[1..], rest, closingchar) ==> NumRangeAt(s + rest, closingchar).None?
  {
    hide IsSuffix, NumRangeAt, Bound, Number, DigitRun, Value;
    if Apart(n + b, rest, closingchar) {
      assert (s + rest)[1..] == n + b + rest;
      Assoc(n, b, rest);
      assert s[1..] != "" ==> s[1..][|s| - 2] == if b == "" then n[|n| - 1] else b[|b| - 1];
      assert b == "" ==> b + rest == rest;
      assert b == "." ==> rest != "" ==> (b + rest)[1] == rest[0];
      RangeParts(s + rest, closingchar, n, b + rest);
    }
  }

  lemma BoundsLonger(s: string, rest: string, closingchar: char, n: string, m: string, d: string)
    requires s != "" && Digits(n) && Digits(m) && (d == "" || !IsDigit(d[0])) && s[1..] == n + (".." + (m + d))
    ensures NumRangeAt(s, closingchar).Some? ==> NumRangeAt(s + rest, closingchar).Some?
    ensures Apart(s[1..], rest, closingchar) && NumRangeAt(s + rest, closingchar).Some? ==>
      NumRangeAt(s, closingchar).Some?
  {
    hide IsSuffix, NumRangeAt, Bound, Number, DigitRun, Value;
    var z := s + rest;
    assert z[1..] == n + (".." + (m + (d + rest)));
    RangeBounds(s, closingchar, n, m, d);
    if d != "" {
      RangeBounds(z, closingchar, n, m, d + rest);
    } else if Apart(s[1..], rest, closingchar) {
      assert m + d == m && d + rest == rest && m != "" ==> IsDigit(m[|m| - 1]);
      assert s[1..][|s| - 2] == if m == "" then '.' else m[|m| - 1];
      RangeBounds(z, closingchar, n, m, rest);
    }
  }

  lemma NoRange(closingchar: char)
    ensures NumRangeAt("[", closingchar).None?
  {
    RangeParts("[", closingchar, "", "");
  }

  // ---- literals in longer texts

  predicate Stops(s: string) { s == "" || s[0] in {'?', '{', '*'} }

  predicate RangeAhead(s: string) { s != "" && s[0] == '[' && NumRangeAt(s, ']').Some? }

  // How the first character of a literal is written.
  predicate WritesChar(x: string, c: char) { x == ['\\', c] || (x == [c] && c !in {'?', '*', '{', '\\'}) }

  ghost predicate LiteralGoesOn(s: string, c: char, w: string)
    requires Complete(s) && Complete(w)
  {
    LiteralAt(s) == if RangeAhead([c] + w) then Parsed([c], [c] + w)
      else Parsed([c] + LiteralAt(w).text, LiteralAt(w).rest)
  }

  lemma FirstChar(s: string) returns (x: string, c: char, w: string)
    requires Complete(s) && !Stops(s)
    ensures s == x + w && WritesChar(x, c) && Complete(w) && LiteralGoesOn(s, c, w)
  {
    hide IsSuffix, NumRangeAt, LiteralAt, Complete;
    LiteralStep(s);
    var d := if s[0] == '\\' then 2 else 1;
    x, c, w := s[..d], s[d - 1], s[d..];
    assert s[d - 1..] == [c] + w && s[d - 1..][1..] == w;
  }

  lemma CharBefore(x: string, c: char, w: string)
    requires WritesChar(x, c) && Complete(w)
    ensures Complete(x + w) && !Stops(x + w) && LiteralGoesOn(x + w, c, w)
  {
    hide IsSuffix, NumRangeAt, LiteralAt, Complete;
    CharRead(x + w, c, w);
  }

  lemma NothingThere(tail: string)
    ensures Complete("") && LiteralAt("") == Parsed("", "") && "" + tail == tail
    ensures Stops(tail) && Complete(tail) ==> LiteralAt(tail) == Parsed("", tail)
  {}

  // A literal is read as it is alone, up to what ends it.
  lemma {:induction false} LiteralBefore(raw: string, tail: string)
    requires Complete(raw) && LiteralAt(raw).rest == "" && Complete(tail)
    requires Stops(tail) || (raw != "" && raw[|raw| - 1] == '[' && RangeAhead("[" + tail))
    ensures Complete(raw + tail)
    ensures LiteralAt(raw + tail) == Parsed(LiteralAt(raw).text, if Stops(tail) then tail else "[" + tail)
    decreases |raw|
  {
    hide IsSuffix, NumRangeAt, LiteralAt, Complete;
    NothingThere(tail);
    if raw != "" {
      AloneIsLiteral(raw);
      var x, c, w := FirstChar(raw);
      assert raw[|raw| - 1] == (if w == "" then c else w[|w| - 1]);
      Assoc(x, w, tail);
      Assoc([c], w, tail);
      RangeLonger([c] + w, tail, ']');
      assert ([c] + w)[1..] == w;
      if w != "" || Stops(tail) {
        LiteralBefore(w, tail);
      }
      CharBefore(x, c, w + tail);
    }
  }

  lemma AloneIsLiteral(raw: string)
    requires Complete(raw) && LiteralAt(raw).rest == "" && raw != ""
    ensures !Stops(raw)
  {}

  // Whatever is read as a literal is written as one.
  lemma {:induction false} LiteralWritten(s: string) returns (raw: string)
    requires Complete(s)
    ensures Complete(raw) && LiteralAt(raw) == Parsed(LiteralAt(s).text, "") && (Stops(s) <==> raw == "")
    ensures Ended(raw, s, LiteralAt(s).rest)
    decreases |s|
  {
    hide IsSuffix, NumRangeAt, LiteralAt, Complete;
    NothingThere(s);
    if Stops(s) {
      raw := "";
    } else {
      var x, c, w := FirstChar(s);
      assert ([c] + w)[1..] == w && ([c] + "")[1..] == "";
      if RangeAhead([c] + w) {
        raw := x + "";
        NoRange(']');
        CharBefore(x, c, "");
      } else {
        var more := LiteralWritten(w);
        var rest := LiteralAt(w).rest;
        var tail := if RangeAhead(rest) then rest[1..] else rest;
        raw := x + more;
        Assoc([c], more, tail);
        Assoc(x, more, tail);
        RangeLonger([c] + more, tail, ']');
        CharBefore(x, c, more);
      }
    }
  }

  // The literal raw was read from s, and rest is left; the bracket that begins
  // a range is read twice.
  predicate Ended(raw: string, s: string, rest: string) {
    if RangeAhead(rest) then s == raw + rest[1..] && raw != "" && raw[|raw| - 1] == '['
      else Stops(rest) && s == raw + rest
  }

  // ---- what is written is read

  // The bracket before an inner range, which is read with it.
  function Lead(ps: seq<Piece>): string { if StartsInner(ps) then "[" else "" }

  function Spelled(ps: seq<Piece>): string { Lead(ps) + Render(ps) }

  predicate Reads(s: string, afterLiteral: bool, dottedpath: bool, e: Elem, rest: string) {
    Complete(s) && s != "" && TokenAt(s, afterLiteral, dottedpath) == Some(Token(e, rest))
  }

  lemma HeadOf(ps: seq<Piece>)
    requires Proper(ps) && ps != []
    ensures ps[0].Text? ==> ps[0].raw != "" && Render(ps) != "" && Render(ps)[0] == ps[0].raw[0] && !Stops(Render(ps))
    ensures ps[0].Inner? ==> Render(ps) != "" && (Render(ps)[0] == '.' || IsDigit(Render(ps)[0]))
    ensures ps[0].Numbers? || ps[0].Chars? ==> Begins(Render(ps), '{')
    ensures ps[0].Any? ==> Begins(Render(ps), '?')
    ensures ps[0].Star? || ps[0].TwoStars? ==> Begins(Render(ps), '*')
  {
    hide Complete, LiteralAt, NumRangeAt, Joins, Written, Readable;
    if ps[0].Text? {
      AloneIsLiteral(ps[0].raw);
    }
  }

  lemma TextRead(raw: string, ps: seq<Piece>, dottedpath: bool)
    requires Proper([Text(raw)] + ps) && Complete(Spelled(ps)) && (StartsInner(ps) ==> RangeAhead(Spelled(ps)))
    ensures Reads(raw + Render(ps), false, dottedpath, ElemOf(Text(raw), dottedpath), Spelled(ps))
  {
    hide IsSuffix, NumRangeAt, LiteralAt, Complete, Render;
    assert ([Text(raw)] + ps)[1..] == ps;
    var tail := Render(ps);
    if ps != [] {
      HeadOf(ps);
    } else {
      NothingRendered();
    }
    assert "" + tail == tail;
    if StartsInner(ps) {
      BracketComplete(tail);
    }
    LiteralBefore(raw, tail);
    AloneIsLiteral(raw);
    LiteralToken(raw + tail, dottedpath);
  }

  lemma NothingRendered()
    ensures Render([]) == ""
  {}

  lemma BracketComplete(tail: string)
    ensures Complete("[" + tail) <==> Complete(tail)
  {
    assert ("[" + tail)[1..] == tail;
  }

  lemma LiteralToken(s: string, dottedpath: bool)
    requires Complete(s) && !Stops(s)
    ensures Reads(s, false, dottedpath, LiteralString(LiteralAt(s).text), LiteralAt(s).rest)
  {
    hide IsSuffix, NumRangeAt, LiteralAt, Complete;
  }

  // After text without a backslash at its end.
  lemma CompleteAfter(head: string, rest: string)
    requires head != "" && head[|head| - 1] != '\\'
    ensures Complete(head + rest) <==> Complete(rest)
  {
    var s := head + rest;
    CompleteFrom(s, |head| - 1);
    assert s[|head| - 1..][1..] == rest;
  }

  // An inner range, with the bracket before it.
  lemma InnerRead(n: string, m: string, rest: string, dottedpath: bool)
    requires Digits(n) && Digits(m) && Begins(rest, ']') && Complete(rest)
    ensures RangeAhead("[" + (PieceText(Inner(n, m)) + rest))
    ensures Reads("[" + (PieceText(Inner(n, m)) + rest), true, dottedpath, ElemOf(Inner(n, m), dottedpath), rest)
  {
    hide IsSuffix, NumRangeAt, LiteralAt, Complete, Bound;
    var s := "[" + (n + (".." + m) + rest);
    assert s[1..] == n + (".." + (m + rest));
    assert s == "[" + n + ".." + m + rest;
    RangeBounds(s, ']', n, m, rest);
    CompleteAfter("[" + n + ".." + m, rest) by {
      assert m != "" ==> IsDigit(m[|m| - 1]);
    }
  }

  lemma NumbersRead(n: string, m: string, rest: string, afterLiteral: bool, dottedpath: bool)
    requires Digits(n) && Digits(m) && Complete(rest)
    ensures Reads(PieceText(Numbers(n, m)) + rest, afterLiteral, dottedpath, ElemOf(Numbers(n, m), dottedpath), rest)
  {
    hide IsSuffix, NumRangeAt, LiteralAt, Complete, Bound;
    var t := PieceText(Numbers(n, m));
    var s := t + rest;
    assert s[1..] == n + (".." + (m + ("}" + rest)));
    RangeBounds(s, '}', n, m, "}" + rest);
    assert t[|t| - 1] == '}' && ("}" + rest)[1..] == rest;
    CompleteAfter(t, rest);
  }

  lemma CharsRead(p: Piece, rest: string, afterLiteral: bool, dottedpath: bool)
    requires p.Chars? && Sound(p) && Complete(rest)
    ensures Reads(PieceText(p) + rest, afterLiteral, dottedpath, ElemOf(p, dottedpath), rest)
  {
    hide IsSuffix, NumRangeAt, LiteralAt, Complete, Readable, Written, SetTokenAt;
    var t := PieceText(p);
    var s := t + rest;
    assert t[|t| - 1] == '}' && t[1..][|t| - 2] == '}';
    RangeLonger(t, rest, '}');
    CompleteAfter(t, rest);
    assert WritesSet(s, Token(ElemOf(p, dottedpath), rest), p.neg, p.items);
    SetAccepted(s, Token(ElemOf(p, dottedpath), rest), p.neg, p.items);
  }

  lemma WildcardRead(p: Piece, rest: string, afterLiteral: bool, dottedpath: bool)
    requires p.Any? || p.Star? || p.TwoStars?
    requires Complete(rest) && (p.Star? ==> !Begins(rest, '*'))
    ensures Reads(PieceText(p) + rest, afterLiteral, dottedpath, ElemOf(p, dottedpath), rest)
  {
    var t := PieceText(p);
    CompleteAfter(t, rest);
    assert (t + rest)[|t|..] == rest;
    hide IsSuffix, NumRangeAt, LiteralAt, Complete, BraceAt;
  }

  lemma FirstRead(p: Piece, more: seq<Piece>, s: string, afterLiteral: bool, dottedpath: bool)
    requires Proper([p] + more) && Complete(Spelled(more)) && (StartsInner(more) ==> RangeAhead(Spelled(more)))
    requires (p.Inner? ==> afterLiteral) && (p.Text? ==> !afterLiteral)
    requires s == (if p.Inner? then "[" else "") + (PieceText(p) + Render(more))
    ensures Reads(s, afterLiteral, dottedpath, ElemOf(p, dottedpath), Spelled(more)) && (p.Inner? ==> RangeAhead(s))
  {
    hide IsSuffix, NumRangeAt, LiteralAt, Complete, TokenAt, Readable, Render, ElemOf, Joins, RangeAhead, Reads;
    assert ([p] + more)[1..] == more;
    var rest := Render(more);
    assert !p.Inner? ==> s == PieceText(p) + rest;
    hide PieceText;
    if p.Text? {
      TextRead(p.raw, more, dottedpath);
    } else {
      HeadMatters(p, more);
      assert Spelled(more) == rest;
      if p.Inner? {
        InnerRead(p.n, p.m, rest, dottedpath);
      } else if p.Numbers? {
        NumbersRead(p.n, p.m, rest, afterLiteral, dottedpath);
      } else if p.Chars? {
        CharsRead(p, rest, afterLiteral, dottedpath);
      } else {
        WildcardRead(p, rest, afterLiteral, dottedpath);
      }
    }
  }

  lemma HeadMatters(p: Piece, ps: seq<Piece>)
    requires Sound(p) && Proper(ps) && Joins(p, ps)
    ensures !p.Text? ==> !StartsInner(ps)
    ensures p.Inner? ==> Begins(Render(ps), ']')
    ensures p.Star? ==> !Begins(Render(ps), '*')
  {
    if ps != [] {
      HeadOf(ps);
    }
  }

  lemma {:induction false} WrittenIsRead(ps: seq<Piece>, afterLiteral: bool, dottedpath: bool)
    requires Proper(ps) && (StartsInner(ps) ==> afterLiteral) && (ps != [] && ps[0].Text? ==> !afterLiteral)
    ensures Complete(Spelled(ps)) && (StartsInner(ps) ==> RangeAhead(Spelled(ps)))
    ensures Elements(Spelled(ps), afterLiteral, dottedpath) == Some(ElemsOf(ps, dottedpath))
  {
    hide IsSuffix, NumRangeAt, LiteralAt, Complete, TokenAt, PieceText, ElemOf, Sound, RangeAhead;
    if ps == [] {
      NothingThere("");
    } else {
      var p, more := ps[0], ps[1..];
      WrittenIsRead(more, p.Text?, dottedpath);
      assert [p] + more == ps;
      FirstRead(p, more, Spelled(ps), afterLiteral, dottedpath);
      assert ElemOf(p, dottedpath).LiteralString? <==> p.Text? by {
        IsLiteral(p, dottedpath);
      }
      OneToken(Spelled(ps), afterLiteral, dottedpath, ElemOf(p, dottedpath), Spelled(more), ElemsOf(more, dottedpath));
    }
  }

  lemma IsLiteral(p: Piece, dottedpath: bool)
    requires Sound(p)
    ensures ElemOf(p, dottedpath).LiteralString? <==> p.Text?
  {}

  // ---- what is read was written

  // The piece p was read from s; e is its element, and rest is left.
  predicate Taken(p: Piece, s: string, afterLiteral: bool, rest: string) {
    match p
    case Text(raw) => !afterLiteral && raw != "" && Ended(raw, s, rest)
    case Inner(_, _) => afterLiteral && s == "[" + (PieceText(p) + rest) && Begins(rest, ']')
    case Star => s == "*" + rest && !Begins(rest, '*')
    case _ => s == PieceText(p) + rest
  }

  // What a literal leaves.
  predicate LiteralLeaves(s: string) { Stops(s) || RangeAhead(s) }

  lemma TakeRange(s: string, closingchar: char) returns (n: string, m: string)
    requires s != "" && !IsDigit(closingchar) && NumRangeAt(s, closingchar).Some?
    ensures Digits(n) && Digits(m)
    ensures var r := NumRangeAt(s, closingchar).value;
      s == [s[0]] + (n + (".." + m) + r.rest) && r.rest != "" && r.rest[0] == closingchar && r.lo == Bound(n)
        && r.up == Bound(m)
  {
    hide IsSuffix, NumRangeAt, Bound;
    var r := NumRangeAt(s, closingchar).value;
    RangeIs(s, closingchar, r);
    n, m :| Digits(n) && Digits(m) && IsWritten(s[1..], n, m, r) && r.rest != "" && r.rest[0] == closingchar;
    assert n + (".." + (m + r.rest)) == n + (".." + m) + r.rest;
  }

  lemma TakeBrace(s: string) returns (p: Piece)
    requires s != "" && s[0] == '{' && BraceAt(s).Some?
    ensures Sound(p) && (p.Numbers? || p.Chars?) && s == PieceText(p) + BraceAt(s).value.rest
    ensures forall dottedpath :: ElemOf(p, dottedpath) == BraceAt(s).value.e
  {
    hide IsSuffix, NumRangeAt, Bound, SetTokenAt, Readable, Written, Pairs;
    if NumRangeAt(s, '}').Some? {
      var n, m := TakeRange(s, '}');
      p := Numbers(n, m);
      NumbersText(n, m, NumRangeAt(s, '}').value.rest);
    } else {
      p := TakeSet(s, BraceAt(s).value);
    }
  }

  lemma NumbersText(n: string, m: string, rest: string)
    requires rest != "" && rest[0] == '}'
    ensures "{" + (n + (".." + m) + rest) == PieceText(Numbers(n, m)) + rest[1..]
  {
    assert rest == "}" + rest[1..];
    assert n + (".." + m) + ("}" + rest[1..]) == n + (".." + (m + "}")) + rest[1..];
  }

  lemma TakeSet(s: string, t: Token) returns (p: Piece)
    requires s != "" && s[0] == '{' && NumRangeAt(s, '}').None? && SetTokenAt(s) == Some(t)
    ensures Sound(p) && p.Chars? && s == PieceText(p) + t.rest
    ensures forall dottedpath :: ElemOf(p, dottedpath) == t.e
  {
    hide IsSuffix, NumRangeAt, SetTokenAt, Readable, Written, Pairs;
    SetTokenIs(s, t);
    var neg, items :| WritesSet(s, t, neg, items);
    p := Chars(neg, items);
    RangeLonger(PieceText(p), t.rest, '}');
  }

  lemma TakeLiteral(s: string) returns (p: Piece)
    requires Complete(s) && !Stops(s)
    ensures p.Text? && Sound(p) && Taken(p, s, false, LiteralAt(s).rest) && LiteralLeaves(LiteralAt(s).rest)
    ensures LiteralAt(p.raw).text == LiteralAt(s).text
  {
    hide IsSuffix, NumRangeAt, LiteralAt, Complete;
    var raw := LiteralWritten(s);
    p := Text(raw);
  }

  lemma TakeToken(s: string, afterLiteral: bool, dottedpath: bool) returns (p: Piece)
    requires Complete(s) && s != "" && (afterLiteral ==> LiteralLeaves(s)) && TokenAt(s, afterLiteral, dottedpath).Some?
    ensures var t := TokenAt(s, afterLiteral, dottedpath).value;
      && Sound(p) && ElemOf(p, dottedpath) == t.e && Taken(p, s, afterLiteral, t.rest)
      && (p.Text? ==> LiteralLeaves(t.rest)) && (p.Inner? <==> afterLiteral && s[0] == '[')
  {
    hide IsSuffix, NumRangeAt, LiteralAt, Complete, BraceAt;
    if s[0] == '?' {
      p := Any;
    } else if s[0] == '*' {
      p := if At(s, 1) == '*' then TwoStars else Star;
    } else if s[0] == '{' {
      p := TakeBrace(s);
    } else if afterLiteral {
      var n, m := TakeRange(s, ']');
      p := Inner(n, m);
    } else {
      p := TakeLiteral(s);
    }
  }

  lemma NothingBefore(rest: string)
    ensures "" + rest == rest
  {}

  lemma {:induction false} ReadWasWritten(s: string, afterLiteral: bool, dottedpath: bool) returns (ps: seq<Piece>)
    requires Complete(s) && (afterLiteral ==> LiteralLeaves(s)) && Elements(s, afterLiteral, dottedpath).Some?
    ensures Proper(ps) && s == Spelled(ps) && Some(ElemsOf(ps, dottedpath)) == Elements(s, afterLiteral, dottedpath)
    ensures StartsInner(ps) <==> afterLiteral && s != "" && s[0] == '['
    ensures afterLiteral && ps != [] ==> !ps[0].Text?
    decreases |s|, if afterLiteral then 0 else 1
  {
    hide IsSuffix, NumRangeAt, LiteralAt, Complete, TokenAt, PieceText, ElemOf, Sound, RangeAhead, Joins;
    if s == "" {
      ps := [];
    } else {
      var t := TokenAt(s, afterLiteral, dottedpath).value;
      var p := TakeToken(s, afterLiteral, dottedpath);
      IsLiteral(p, dottedpath);
      var more := ReadWasWritten(t.rest, p.Text?, dottedpath);
      ps := [p] + more;
      assert ps[1..] == more;
      TakenJoins(p, s, afterLiteral, more);
    }
  }

  lemma TakenJoins(p: Piece, s: string, afterLiteral: bool, more: seq<Piece>)
    requires Sound(p) && Proper(more) && Taken(p, s, afterLiteral, Spelled(more))
    requires StartsInner(more) <==> p.Text? && Begins(Spelled(more), '[')
    requires p.Text? ==> LiteralLeaves(Spelled(more)) && (more != [] ==> !more[0].Text?)
    ensures Joins(p, more) && s == (if p.Inner? then "[" else "") + (PieceText(p) + Render(more))
  {
    hide IsSuffix, NumRangeAt, LiteralAt, Complete, PieceText, Render, Proper, Sound, Stops, LiteralLeaves, Ended;
    if more != [] {
      HeadOf(more);
    } else {
      NothingRendered();
    }
    assert !StartsInner(more) ==> Spelled(more) == Render(more);
    if p.Text? {
      TextTaken(p.raw, s, more);
    } else if p.Star? {
      StarText(Render(more));
    } else if !p.Inner? {
      assert "" + (PieceText(p) + Render(more)) == s;
    }
  }

  lemma StarText(rest: string)
    ensures "" + (PieceText(Star) + rest) == "*" + rest
  {}

  lemma TextTaken(raw: string, s: string, more: seq<Piece>)
    requires Ended(raw, s, Spelled(more)) && LiteralLeaves(Spelled(more))
    requires StartsInner(more) <==> Begins(Spelled(more), '[')
    ensures s == "" + (PieceText(Text(raw)) + Render(more))
    ensures StartsInner(more) ==> raw != "" && raw[|raw| - 1] == '['
  {
    hide NumRangeAt, Render;
    assert Spelled(more)[|Lead(more)|..] == Render(more);
    assert Begins(Spelled(more), '[') ==> !Stops(Spelled(more));
  }

  // Any literal can be written: with a backslash before every character, and
  // with fewer of them if no numeric range begins in it.
  lemma Spellings(t: string, dottedpath: bool)
    requires t != ""
    ensures Sound(Text(Escaped(t))) && ElemOf(Text(Escaped(t)), dottedpath) == LiteralString(t)
    ensures !HoldsRange(t) ==> Sound(Text(Quoted(t))) && ElemOf(Text(Quoted(t)), dottedpath) == LiteralString(t)
  {
    hide IsSuffix, NumRangeAt, LiteralAt, Complete, HoldsRange;
    EscapedLiteral(t);
    QuotedLiteral(t);
  }

  // A text is a pattern with these elements just if it is written from pieces
  // that stand for them.
  lemma PatternIs(s: string, dottedpath: bool, es: seq<Elem>)
    ensures Complete(s) && Elements(s, false, dottedpath) == Some(es) <==>
      exists ps :: Writes(ps, s) && ElemsOf(ps, dottedpath) == es
  {
    hide Elements, Complete, Sound, Joins, ElemOf;
    if ps :| Writes(ps, s) && ElemsOf(ps, dottedpath) == es {
      WrittenIsRead(ps, false, dottedpath);
      NothingBefore(s);
    }
    if Complete(s) && Elements(s, false, dottedpath) == Some(es) {
      var ps := ReadWasWritten(s, false, dottedpath);
      NothingBefore(Render(ps));
      assert Writes(ps, s);
    }
  }
}
