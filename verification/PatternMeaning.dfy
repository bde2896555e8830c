// What the texts of patterns come to mean: escapes, substring matches, numeric
// ranges and sets.

module PatternMeaning {
  import opened Options
  import opened PatternMatching
  import opened PatternParsing
  import opened Sequences

  // ---- numeric ranges as they are written

  predicate Digits(d: string) { forall i :: 0 <= i < |d| ==> IsDigit(d[i]) }

  function Bound(d: string): int
    requires Digits(d)
  {
    if d == "" then -1 else Value(d)
  }

  // After the bracket: digits or none, two dots, digits or none, the closing
  // character.
  ghost predicate WritesRange(s: string, closingchar: char, r: Range)
    requires s != ""
  {
    exists n, m :: Digits(n) && Digits(m) && IsWritten(s[1..], n, m, r) && r.rest != "" && r.rest[0] == closingchar
  }

  predicate IsWritten(a: string, n: string, m: string, r: Range)
    requires Digits(n) && Digits(m)
  {
    a == n + (".." + (m + r.rest)) && r.lo == Bound(n) && r.up == Bound(m)
  }

  lemma {:induction false} RunOf(d: string, rest: string)
    requires Digits(d) && (rest == "" || !IsDigit(rest[0]))
    ensures DigitRun(d + rest) == |d| && (d + rest)[..|d|] == d && (d + rest)[|d|..] == rest
    ensures Number(d + rest) == Bound(d)
  {
    assert (d + rest)[..|d|] == d;
    if d == "" {
      assert d + rest == rest;
    } else {
      RunOf(d[1..], rest);
      assert (d + rest)[1..] == d[1..] + rest;
    }
  }

  lemma RunSplits(a: string) returns (d: string, b: string)
    ensures Digits(d) && a == d + b && (b == "" || !IsDigit(b[0]))
  {
    d, b := a[..DigitRun(a)], a[DigitRun(a)..];
  }

  lemma RangeParts(s: string, closingchar: char, n: string, b: string)
    requires s != "" && Digits(n) && (b == "" || !IsDigit(b[0])) && s[1..] == n + b
    ensures NumRangeAt(s, closingchar).Some? ==> ".." <= b
    ensures ".." <= b ==>
      var c := b[2..]; var d := c[DigitRun(c)..];
      NumRangeAt(s, closingchar) == if d != "" && d[0] == closingchar then Some(Range(Bound(n), Number(c), d)) else None
  {
    hide DigitRun, Bound, Value, Number, IsSuffix;
    RunOf(n, b);
    var a := n + b;
    assert a[DigitRun(a)..] == b;
  }

  lemma RangeBounds(s: string, closingchar: char, n: string, m: string, d: string)
    requires s != "" && Digits(n) && Digits(m) && (d == "" || !IsDigit(d[0])) && s[1..] == n + (".." + (m + d))
    ensures NumRangeAt(s, closingchar) == if d != "" && d[0] == closingchar then Some(Range(Bound(n), Bound(m), d))
      else None
  {
    var b := ".." + (m + d);
    assert b[2..] == m + d;
    RangeParts(s, closingchar, n, b);
    RunOf(m, d);
  }

  // A numeric range is read just where one is written, with its bounds.
  lemma RangeIs(s: string, closingchar: char, r: Range)
    requires s != "" && !IsDigit(closingchar)
    ensures NumRangeAt(s, closingchar) == Some(r) <==> WritesRange(s, closingchar, r)
  {
    hide IsSuffix, NumRangeAt, Bound;
    if n, m :| Digits(n) && Digits(m) && IsWritten(s[1..], n, m, r) && r.rest != "" && r.rest[0] == closingchar {
      RangeBounds(s, closingchar, n, m, r.rest);
    }
    if NumRangeAt(s, closingchar) == Some(r) {
      var n, b := RunSplits(s[1..]);
      RangeParts(s, closingchar, n, b);
      var m, d := RunSplits(b[2..]);
      assert b == ".." + (m + d);
      RangeBounds(s, closingchar, n, m, d);
      assert IsWritten(s[1..], n, m, r);
    }
  }

  // ---- texts that match themselves

  predicate Special(c: char) { c in {'?', '*', '{', '[', '\\'} }

  predicate Plain(t: string) { forall i :: 0 <= i < |t| ==> !Special(t[i]) }

  // A backslash before every character that could be taken for something else.
  function Quoted(t: string): string {
    if t == "" then "" else (if Special(t[0]) then ['\\', t[0]] else [t[0]]) + Quoted(t[1..])
  }

  // A backslash before every character.
  function Escaped(t: string): string { if t == "" then "" else ['\\', t[0]] + Escaped(t[1..]) }

  // A numeric range begins at some bracket of the text.
  ghost predicate HoldsRange(t: string) {
    exists k :: RangeFrom(t, k)
  }

  predicate RangeFrom(t: string, k: int) {
    0 <= k < |t| && t[k] == '[' && NumRangeAt(t[k..], ']').Some?
  }

  lemma {:induction false} PlainQuoted(t: string)
    requires Plain(t)
    ensures Quoted(t) == t
  {
    if t != "" {
      PlainQuoted(t[1..]);
    }
  }

  lemma {:induction false} QuotedComplete(t: string)
    ensures Complete(Quoted(t))
  {
    if t != "" {
      QuotedComplete(t[1..]);
      var d := if Special(t[0]) then 2 else 1;
      assert Quoted(t)[d..] == Quoted(t[1..]);
    }
  }

  // Quoting leaves digits alone.
  lemma {:induction false} QuotedDigits(d: string, b: string)
    requires Digits(d)
    ensures Quoted(d + b) == d + Quoted(b)
  {
    if d == "" {
      assert d + b == b;
    } else {
      QuotedDigits(d[1..], b);
      assert (d + b)[1..] == d[1..] + b;
    }
  }

  lemma QuotedDots(c: string)
    ensures Quoted(".." + c) == ".." + Quoted(c)
  {
    assert (".." + c)[1..] == "." + c && ("." + c)[1..] == c;
  }

  lemma QuotedHead(b: string)
    ensures b == "" <==> Quoted(b) == ""
    ensures b != "" ==> Quoted(b)[0] == if Special(b[0]) then '\\' else b[0]
    ensures ".." <= Quoted(b) ==> ".." <= b
  {
    if ".." <= Quoted(b) {
      assert Quoted(b)[1] == Quoted(b[1..])[0];
      assert b[1..] != "" && b[1..][0] == '.';
    }
  }

  // So a bracket begins a range just if it does in the quoted text.
  lemma QuotedRange(w: string)
    ensures var q, n := NumRangeAt("[" + Quoted(w), ']'), NumRangeAt("[" + w, ']');
      && q.Some? == n.Some?
      && (q.Some? ==> q.value == n.value.(rest := Quoted(n.value.rest)))
  {
    hide IsSuffix, NumRangeAt, Bound, Number, DigitRun, Value;
    var s, z := "[" + w, "[" + Quoted(w);
    assert s[1..] == w && z[1..] == Quoted(w);
    var n, b := RunSplits(w);
    QuotedDigits(n, b);
    QuotedHead(b);
    RangeParts(s, ']', n, b);
    RangeParts(z, ']', n, Quoted(b));
    if ".." <= b {
      var m, d := RunSplits(b[2..]);
      assert b == ".." + (m + d);
      QuotedDots(m + d);
      QuotedDigits(m, d);
      QuotedHead(d);
      RangeBounds(s, ']', n, m, d);
      RangeBounds(z, ']', n, m, Quoted(d));
    }
  }

  // How the literal at the start of a quoted text is read: to its end, or up to
  // the first bracket that begins a range.
  lemma CharRead(s: string, c: char, w: string)
    requires Complete(w) && (s == ['\\', c] + w || (s == [c] + w && c !in {'?', '*', '{', '\\'}))
    ensures Complete(s) && LiteralAt(s) ==
      if c == '[' && NumRangeAt([c] + w, ']').Some? then Parsed([c], [c] + w)
      else Parsed([c] + LiteralAt(w).text, LiteralAt(w).rest)
  {
    if s[0] == '\\' {
      assert s[2..] == w && s[1..] == [c] + w && s[1..][1..] == w;
    } else {
      assert s[1..] == w;
    }
    hide IsSuffix, NumRangeAt;
    LiteralStep(s);
  }

  lemma {:induction false} EscapedLiteral(t: string)
    ensures Complete(Escaped(t)) && LiteralAt(Escaped(t)) == Parsed(t, "")
  {
    if t != "" {
      hide LiteralAt, NumRangeAt, Complete;
      var w := Escaped(t[1..]);
      EscapedLiteral(t[1..]);
      CharRead(Escaped(t), t[0], w);
      assert ([t[0]] + w)[1..] == "" + w;
      RangeParts([t[0]] + w, ']', "", w);
      assert t == [t[0]] + t[1..];
    }
  }

  lemma QuotedStep(t: string)
    requires t != ""
    ensures Complete(Quoted(t)) && Complete(Quoted(t[1..])) && Quoted(t) != ""
    ensures LiteralAt(Quoted(t)) ==
      if RangeFrom(t, 0) then Parsed("[", "[" + Quoted(t[1..]))
      else Parsed([t[0]] + LiteralAt(Quoted(t[1..])).text, LiteralAt(Quoted(t[1..])).rest)
  {
    QuotedComplete(t[1..]);
    CharRead(Quoted(t), t[0], Quoted(t[1..]));
    hide IsSuffix, NumRangeAt, LiteralAt, Quoted, Complete;
    assert t[0..] == t == [t[0]] + t[1..];
    if t[0] == '[' {
      QuotedRange(t[1..]);
    }
  }

  ghost predicate ReadTo(t: string, k: int) {
    && RangeFrom(t, k) && Complete(Quoted(t))
    && LiteralAt(Quoted(t)) == Parsed(t[..k + 1], "[" + Quoted(t[k + 1..]))
  }

  lemma {:induction false} QuotedLiteral(t: string)
    requires t != ""
    ensures Complete(Quoted(t)) && Quoted(t) != ""
    ensures !HoldsRange(t) ==> LiteralAt(Quoted(t)) == Parsed(t, "")
    ensures HoldsRange(t) ==> exists k :: ReadTo(t, k)
  {
    hide IsSuffix, LiteralAt, NumRangeAt, Quoted, Complete;
    QuotedStep(t);
    NothingRead();
    assert t == [t[0]] + t[1..];
    if RangeFrom(t, 0) {
      assert t[..1] == "[";
      assert ReadTo(t, 0);
    } else {
      RangeLater(t);
      if t[1..] != "" {
        QuotedLiteral(t[1..]);
        if HoldsRange(t) {
          var k :| ReadTo(t[1..], k);
          ReadLater(t, k);
        }
      }
    }
  }

  lemma NothingRead()
    ensures Quoted("") == "" && LiteralAt("") == Parsed("", "") && !HoldsRange("")
    ensures forall dottedpath :: Elements("", true, dottedpath) == Some([])
  {}

  lemma ReadLater(t: string, k: int)
    requires t != "" && !RangeFrom(t, 0) && ReadTo(t[1..], k)
    ensures ReadTo(t, k + 1)
  {
    hide IsSuffix, LiteralAt, NumRangeAt, Quoted, Complete;
    QuotedStep(t);
    assert t[1..][k..] == t[k + 1..];
    assert t[1..][k + 1..] == t[k + 2..];
    assert [t[0]] + t[1..][..k + 1] == t[..k + 2];
  }

  lemma RangeLater(t: string)
    requires t != "" && !RangeFrom(t, 0)
    ensures HoldsRange(t) <==> HoldsRange(t[1..])
  {
    if k :| RangeFrom(t, k) {
      assert t[1..][k - 1..] == t[k..];
      assert RangeFrom(t[1..], k - 1);
    }
    if k :| RangeFrom(t[1..], k) {
      assert t[1..][k..] == t[k + 1..];
      assert RangeFrom(t, k + 1);
    }
  }

  lemma OneToken(s: string, afterLiteral: bool, dottedpath: bool, e: Elem, rest: string, more: seq<Elem>)
    requires Complete(s) && s != "" && TokenAt(s, afterLiteral, dottedpath) == Some(Token(e, rest))
    requires Elements(rest, e.LiteralString?, dottedpath) == Some(more)
    ensures Elements(s, afterLiteral, dottedpath) == Some([e] + more)
  {}

  // The elements of a quoted text: its literal, and, if that ends before a
  // range, the range and a literal that begins with the closing bracket.
  lemma {:induction false} QuotedElements(t: string, dottedpath: bool) returns (es: seq<Elem>)
    requires t != ""
    ensures Complete(Quoted(t)) && Elements(Quoted(t), false, dottedpath) == Some(es)
    ensures es != [] && es[0].LiteralString? && es[0].literal != "" && es[0].literal[0] == t[0]
    ensures !HoldsRange(t) ==> es == [LiteralString(t)]
    ensures HoldsRange(t) ==> exists k, more :: InTheWay(t, es, k, more)
    decreases |t|
  {
    hide IsSuffix, LiteralAt, NumRangeAt, Quoted, Complete, TokenAt, Elements;
    QuotedLiteral(t);
    LiteralFirst(t, dottedpath);
    NothingRead();
    var q := Quoted(t);
    var l := LiteralAt(q);
    if !HoldsRange(t) {
      es := [LiteralString(t)];
      assert es + [] == es;
      OneToken(q, false, dottedpath, LiteralString(t), "", []);
    } else {
      var k :| ReadTo(t, k);
      var n := NumRangeAt(t[k..], ']').value;
      RangeAfter(t, k, dottedpath);
      assert |n.rest| < |t|;
      var after := QuotedElements(n.rest, dottedpath);
      var range := NumRange(n.lo, n.up);
      OneToken(l.rest, true, dottedpath, range, Quoted(n.rest), after);
      OneToken(q, false, dottedpath, LiteralString(t[..k + 1]), l.rest, [range] + after);
      es := [LiteralString(t[..k + 1])] + ([range] + after);
      assert after == [after[0]] + after[1..];
      assert AroundRange(es, t, k, range, after[0].literal, after[1..]);
      assert InTheWay(t, es, k, after[1..]);
    }
  }

  lemma LiteralFirst(t: string, dottedpath: bool)
    requires t != "" && Complete(Quoted(t)) && Quoted(t) != ""
    ensures var l := LiteralAt(Quoted(t));
      TokenAt(Quoted(t), false, dottedpath) == Some(Token(LiteralString(l.text), l.rest))
  {
    hide LiteralAt, NumRangeAt, Complete, IsSuffix;
  }

  // The bracket is read again, as the beginning of the range.
  lemma RangeAfter(t: string, k: int, dottedpath: bool)
    requires RangeFrom(t, k)
    ensures var n := NumRangeAt(t[k..], ']').value; var s := "[" + Quoted(t[k + 1..]);
      && n.rest != "" && n.rest[0] == ']' && |n.rest| < |t| && Complete(s)
      && TokenAt(s, true, dottedpath) == Some(Token(NumRange(n.lo, n.up), Quoted(n.rest)))
  {
    hide IsSuffix, Quoted, LiteralAt, NumRangeAt, DigitRun, Number;
    var w := t[k + 1..];
    var s := "[" + Quoted(w);
    assert t[k..] == "[" + w;
    QuotedRange(w);
    QuotedComplete(w);
    assert s[1..] == Quoted(w);
  }

  // A literal, a range, and a literal that begins with "]".
  ghost predicate InTheWay(t: string, es: seq<Elem>, k: int, more: seq<Elem>) {
    RangeFrom(t, k) && exists range, l :: AroundRange(es, t, k, range, l, more)
  }

  ghost predicate AroundRange(es: seq<Elem>, t: string, k: int, range: Elem, l: string, more: seq<Elem>)
    requires 0 <= k < |t|
  {
    && range.NumRange? && l != "" && l[0] == ']'
    && es == [LiteralString(t[..k + 1])] + ([range] + ([LiteralString(l)] + more))
  }

  lemma RangeInTheWay(t: string, es: seq<Elem>, k: int, more: seq<Elem>)
    requires InTheWay(t, es, k, more)
    ensures !Splits(es, t)
  {
    var range, l :| AroundRange(es, t, k, range, l, more);
    var a := t[k + 1..];
    assert t[k..][1..] == a && t[|t[..k + 1]|..] == a;
    LiteralPiece(t[..k + 1], [range] + ([LiteralString(l)] + more), t);
    NumberPiece(range, [LiteralString(l)] + more, a);
    LiteralPiece(l, more, a[DigitRun(a)..]);
    hide Splits, Fits;
    assert a[DigitRun(a)..] != "" && a[DigitRun(a)..][0] == '.';
  }

  // A quoted text is always a pattern. It matches just itself if no numeric
  // range begins in it; if one does, it does not match itself.
  lemma QuotedMatchesItself(t: string, dottedpath: bool, line: string)
    ensures Complete(Quoted(t)) && Elements(Quoted(t), false, dottedpath).Some?
    ensures Splits(Elements(Quoted(t), false, dottedpath).value, t) <==> !HoldsRange(t)
    ensures !HoldsRange(t) ==> (Splits(Elements(Quoted(t), false, dottedpath).value, line) <==> line == t)
  {
    if t == "" {
      SplitsNone(line);
      SplitsNone(t);
    } else {
      var es := QuotedElements(t, dottedpath);
      LastLiteral(t, line);
      LastLiteral(t, t);
      if HoldsRange(t) {
        var k, more :| InTheWay(t, es, k, more);
        RangeInTheWay(t, es, k, more);
      }
    }
  }

  // Text without special characters, and any text with a backslash before each
  // character, matches just itself.
  lemma TextMatchesItself(t: string, escaped: bool, dottedpath: bool, line: string)
    requires escaped || Plain(t)
    ensures var patt := if escaped then Escaped(t) else t;
      && Complete(patt) && Elements(patt, false, dottedpath).Some?
      && (Splits(Elements(patt, false, dottedpath).value, line) <==> line == t)
  {
    if !escaped {
      PlainQuoted(t);
      QuotedMatchesItself(t, dottedpath, line);
    } else if t == "" {
      SplitsNone(line);
    } else {
      EscapedLiteral(t);
      LastLiteral(t, line);
      assert TokenAt(Escaped(t), false, dottedpath) == Some(Token(LiteralString(t), ""));
      assert Elements("", true, dottedpath) == Some([]) && [LiteralString(t)] + [] == [LiteralString(t)];
      OneToken(Escaped(t), false, dottedpath, LiteralString(t), "", []);
    }
  }

  // A backslash takes away the special meaning of a bracket just if no numeric
  // range begins there.
  lemma EscapedBracket(u: string, dottedpath: bool)
    requires Plain(u)
    ensures Complete("\\[" + u) && Elements("\\[" + u, false, dottedpath).Some?
    ensures Splits(Elements("\\[" + u, false, dottedpath).value, "[" + u) <==> NumRangeAt("[" + u, ']').None?
  {
    var t := "[" + u;
    PlainQuoted(u);
    assert t[1..] == u && t[0..] == t;
    assert Quoted(t) == "\\[" + u;
    QuotedMatchesItself(t, dottedpath, t);
    forall k | 0 < k < |t| ensures t[k] != '[' {
      assert t[k] == u[k - 1];
    }
    assert RangeFrom(t, 0) <==> NumRangeAt(t, ']').Some?;
  }

  // For instance: a range after a backslash.
  lemma EscapedBracketIsRange()
    ensures Complete("\\[1..2]") && Elements("\\[1..2]", false, true).Some?
    ensures !Splits(Elements("\\[1..2]", false, true).value, "[1..2]")
  {
    hide IsSuffix, NumRangeAt, LiteralAt, Complete, Elements, Splits, Value;
    var u := "1..2]";
    assert "\\[" + u == "\\[1..2]" && "[" + u == "[1..2]";
    EscapedBracket(u, true);
    assert "[1..2]"[1..] == "1" + (".." + ("2" + "]"));
    RangeBounds("[1..2]", ']', "1", "2", "]");
  }

  // ---- sets as they are written

  // What is written between the braces of a set.
  datatype Item = One(c: char) | Span(lo: char, up: char)

  function ItemText(item: Item): string {
    match item
    case One(c) => [c]
    case Span(lo, up) => [lo, '-', up]
  }

  function Written(items: seq<Item>): string {
    if items == [] then "" else ItemText(items[0]) + Written(items[1..])
  }

  ghost predicate Holds(items: seq<Item>, c: char) {
    exists item :: item in items && Covers(item, c)
  }

  predicate Covers(item: Item, c: char) {
    match item
    case One(x) => c == x
    case Span(lo, up) => lo <= c <= up
  }

  // A closing brace comes first or not at all, and a hyphen after a single
  // character comes last or not at all.
  predicate Readable(items: seq<Item>, first: bool) {
    if items == [] then !first
    else
      var more := Written(items[1..]);
      && (first || ItemText(items[0])[0] != '}')
      && (if items[0].Span? then items[0].up != '}' else |more| > 1 ==> more[0] != '-')
      && Readable(items[1..], false)
  }

  function Pairs(items: seq<Item>): string {
    if items == [] then ""
      else (if items[0].Span? then [items[0].lo, items[0].up] else [items[0].c, items[0].c]) + Pairs(items[1..])
  }

  ghost predicate WritesSet(s: string, t: Token, neg: bool, items: seq<Item>) {
    && Readable(items, true) && s == (if neg then "{^" else "{") + Written(items) + "}" + t.rest
    && (neg || ItemText(items[0])[0] != '^')
    && t.e == if neg then NegSet(Pairs(items)) else Set(Pairs(items))
  }

  lemma ItemRead(item: Item, more: string, first: bool, rest: string)
    requires (first || ItemText(item)[0] != '}') && rest != "" && rest[0] == '}'
    requires if item.Span? then item.up != '}' else |more| > 1 ==> more[0] != '-'
    ensures SetAt(ItemText(item) + (more + rest), first) ==
      var r := SetAt(more + rest, false);
      Parsed((if item.Span? then [item.lo, item.up] else [item.c, item.c]) + r.text, r.rest)
  {
    var s := ItemText(item) + (more + rest);
    assert s[|ItemText(item)|..] == more + rest;
  }

  lemma {:induction false} SetRead(items: seq<Item>, first: bool, rest: string)
    requires Readable(items, first) && rest != "" && rest[0] == '}'
    ensures SetAt(Written(items) + rest, first) == Parsed(Pairs(items), rest)
  {
    hide SetAt, ItemText;
    if items == [] {
      assert Written(items) + rest == rest;
      SetStops(rest);
    } else {
      SetRead(items[1..], false, rest);
      ItemRead(items[0], Written(items[1..]), first, rest);
      Assoc(ItemText(items[0]), Written(items[1..]), rest);
    }
  }

  lemma SetStops(rest: string)
    requires rest != "" && rest[0] == '}'
    ensures SetAt(rest, false) == Parsed("", rest)
  {}

  lemma {:induction false} SetWritten(s: string, first: bool) returns (items: seq<Item>)
    requires SetAt(s, first).rest != ""
    ensures Readable(items, first) && s == Written(items) + SetAt(s, first).rest && SetAt(s, first).text == Pairs(items)
    decreases |s|
  {
    if s == "" || (s[0] == '}' && !first) {
      items := [];
    } else {
      hide Readable, Written, Pairs;
      var rest := SetAt(s, first).rest;
      if At(s, 1) == '-' && |s| > 2 && s[2] != '}' {
        var more := SetWritten(s[3..], false);
        assert s == [s[0], '-', s[2]] + (Written(more) + rest);
        items := OneMore(Span(s[0], s[2]), more, first, rest);
      } else {
        var more := SetWritten(s[1..], false);
        assert s == [s[0]] + (Written(more) + rest);
        SecondBrace(more);
        assert |Written(more)| > 1 ==> s[1] == Written(more)[0] && s[2] == Written(more)[1];
        items := OneMore(One(s[0]), more, first, rest);
      }
    }
  }

  lemma OneMore(item: Item, more: seq<Item>, first: bool, rest: string) returns (items: seq<Item>)
    requires Readable(more, false) && (first || ItemText(item)[0] != '}')
    requires if item.Span? then item.up != '}' else |Written(more)| > 1 ==> Written(more)[0] != '-'
    ensures Readable(items, first)
      && Pairs(items) == (if item.Span? then [item.lo, item.up] else [item.c, item.c]) + Pairs(more)
    ensures ItemText(item) + (Written(more) + rest) == Written(items) + rest
  {
    items := [item] + more;
    assert items[1..] == more;
  }

  lemma SecondBrace(items: seq<Item>)
    requires Readable(items, false)
    ensures |Written(items)| > 1 && Written(items)[0] == '-' ==> Written(items)[1] != '}'
  {
    if items != [] && items[0].One? {
      assert Written(items)[1..] == Written(items[1..]);
    }
  }

  lemma {:induction false} PairsHold(items: seq<Item>, c: char)
    ensures |Pairs(items)| % 2 == 0
    ensures InSet(c, Pairs(items)) <==> Holds(items, c)
  {
    if items != [] {
      PairsHold(items[1..], c);
      var p, q := Pairs(items), Pairs(items[1..]);
      assert p[2..] == q;
      if Covers(items[0], c) {
        assert InRange(c, p, 0);
      }
      if i :| 0 <= 2 * i && 2 * i + 1 < |p| && InRange(c, p, i) {
        if i > 0 {
          assert InRange(c, q, i - 1);
        }
      }
      if i :| 0 <= 2 * i && 2 * i + 1 < |q| && InRange(c, q, i) {
        assert InRange(c, p, i + 1);
      }
    }
  }

  // The text of a set, from the bracket on.
  function Inside(s: string, neg: bool): string
    requires s != "" && s[0] == '{' && (neg <==> At(s, 1) == '^')
    ensures s == (if neg then "{^" else "{") + Inside(s, neg)
  {
    if neg then s[2..] else s[1..]
  }

  lemma SetInside(s: string, neg: bool, w: string)
    requires s == (if neg then "{^" else "{") + w && (neg || w == "" || w[0] != '^')
    ensures s != "" && s[0] == '{' && (neg <==> At(s, 1) == '^') && Inside(s, neg) == w
  {}

  lemma FirstOf(items: seq<Item>)
    requires items != []
    ensures Written(items) != "" && Written(items)[0] == ItemText(items[0])[0]
  {}

  lemma SetTokenIs(s: string, t: Token)
    requires s != "" && s[0] == '{'
    ensures SetTokenAt(s) == Some(t) <==> exists neg, items :: WritesSet(s, t, neg, items)
  {
    hide SetTokenAt, WritesSet;
    if neg, items :| WritesSet(s, t, neg, items) {
      SetAccepted(s, t, neg, items);
    }
    if SetTokenAt(s) == Some(t) {
      var items := SetText(s, t);
    }
  }

  lemma SetAccepted(s: string, t: Token, neg: bool, items: seq<Item>)
    requires WritesSet(s, t, neg, items)
    ensures SetTokenAt(s) == Some(t)
  {
    hide SetAt, Written, Readable, Pairs, Inside, ItemText, SetTokenAt, At;
    NotNothing(items);
    FirstOf(items);
    var rest := "}" + t.rest;
    Assoc(if neg then "{^" else "{", Written(items), rest);
    Assoc((if neg then "{^" else "{") + Written(items), "}", t.rest);
    SetInside(s, neg, Written(items) + rest);
    SetRead(items, true, rest);
    TokenFromSet(s, neg);
    assert rest[1..] == t.rest;
  }

  lemma SetText(s: string, t: Token) returns (items: seq<Item>)
    requires s != "" && s[0] == '{' && SetTokenAt(s) == Some(t)
    ensures exists neg :: WritesSet(s, t, neg, items)
  {
    hide SetAt, Written, Readable, Pairs, Inside, ItemText, SetTokenAt;
    var neg := At(s, 1) == '^';
    TokenFromSet(s, neg);
    var r := SetAt(Inside(s, neg), true);
    items := SetWritten(Inside(s, neg), true);
    NotNothing(items);
    FirstOf(items);
    assert r.rest == "}" + t.rest;
    Assoc(if neg then "{^" else "{", Written(items), r.rest);
    Assoc((if neg then "{^" else "{") + Written(items), "}", t.rest);
    assert !neg ==> At(s, 1) == Written(items)[0];
    assert WritesSet(s, t, neg, items);
  }

  lemma NotNothing(items: seq<Item>)
    requires Readable(items, true)
    ensures items != []
  {}

  lemma TokenFromSet(s: string, neg: bool)
    requires s != "" && s[0] == '{' && (neg <==> At(s, 1) == '^')
    ensures var r := SetAt(Inside(s, neg), true);
      SetTokenAt(s) == if r.rest == "" then None
        else Some(Token(if neg then NegSet(r.text) else Set(r.text), r.rest[1..]))
  {
    hide SetAt;
  }

  // Braces are read as a numeric range if they write one, and otherwise as a
  // set just if they write one; a set stands for the characters written, or
  // with "^" for the others.
  lemma BracesAre(s: string, t: Token)
    requires s != "" && s[0] == '{'
    ensures BraceAt(s) == Some(t) <==>
      || (exists r :: WritesRange(s, '}', r) && t == Token(NumRange(r.lo, r.up), r.rest[1..]))
      || ((forall r :: !WritesRange(s, '}', r)) && exists neg, items :: WritesSet(s, t, neg, items))
  {
    SetTokenIs(s, t);
    forall r ensures NumRangeAt(s, '}') == Some(r) <==> WritesRange(s, '}', r) {
      RangeIs(s, '}', r);
    }
    if NumRangeAt(s, '}').Some? {
      assert WritesRange(s, '}', NumRangeAt(s, '}').value);
    }
  }

  lemma SetStandsFor(s: string, t: Token, neg: bool, items: seq<Item>, c: char, rest: string)
    requires WritesSet(s, t, neg, items)
    ensures Fits(t.e, [c], rest) <==> (Holds(items, c) <==> !neg)
  {
    PairsHold(items, c);
  }

  // ---- substring matches

  // An element that may stand for nothing.
  predicate MayBeEmpty(e: Elem) { e.AnySeq? || e.CommonSeq? || (e.LiteralString? && e.literal == "") }

  // The last element that stands for something is a number.
  ghost predicate EndsInNumber(es: seq<Elem>) {
    exists i :: NumberLast(es, i)
  }

  ghost predicate NumberLast(es: seq<Elem>, i: int) {
    0 <= i < |es| && es[i].NumRange? && forall k :: i < k < |es| ==> MayBeEmpty(es[k])
  }

  // No number goes on at j.
  predicate NumberEnds(line: string, j: nat)
    requires j <= |line|
  {
    j == |line| || !IsDigit(line[j])
  }

  // A part of the line matches, and if the pattern ends in a number, the number
  // ends there in the line.
  ghost predicate MatchesPart(es: seq<Elem>, line: string) {
    exists i, j :: 0 <= i <= j <= |line| && Splits(es, line[i..j]) && (EndsInNumber(es) ==> NumberEnds(line, j))
  }

  lemma NoNumber()
    ensures !EndsInNumber([])
  {}

  lemma NumberLater(e: Elem, es: seq<Elem>)
    ensures EndsInNumber(es) ==> EndsInNumber([e] + es)
    ensures e.NumRange? && (forall x :: x in es ==> MayBeEmpty(x)) ==> EndsInNumber([e] + es)
    ensures EndsInNumber([e] + es) ==> EndsInNumber(es) || (e.NumRange? && forall x :: x in es ==> MayBeEmpty(x))
  {
    if i :| NumberLast(es, i) {
      assert NumberLast([e] + es, i + 1);
    }
    if e.NumRange? && forall x :: x in es ==> MayBeEmpty(x) {
      assert NumberLast([e] + es, 0);
    }
    if i :| NumberLast([e] + es, i) {
      if i > 0 {
        forall k | i - 1 < k < |es| ensures MayBeEmpty(es[k]) {
          assert ([e] + es)[k + 1] == es[k];
        }
        assert NumberLast(es, i - 1);
      } else {
        forall x | x in es ensures MayBeEmpty(x) {
          var k :| 0 <= k < |es| && es[k] == x;
          assert ([e] + es)[k + 1] == x;
        }
      }
    }
  }

  lemma {:induction false} NothingMatched(es: seq<Elem>)
    ensures Splits(es, "") <==> forall e :: e in es ==> MayBeEmpty(e)
  {
    SplitsNone("");
    if es != [] {
      assert es == [es[0]] + es[1..] && ""[..0] == "" && ""[0..] == "";
      SplitsFirst(es[0], es[1..], "");
      NothingMatched(es[1..]);
      assert Splits(es, "") <==> Starts(es[0], es[1..], "", 0);
      assert Fits(es[0], "", "") <==> MayBeEmpty(es[0]);
      assert forall e :: e in es <==> e == es[0] || e in es[1..];
    }
  }

  // A match of a part stays one when more follows, unless that makes its last
  // number longer.
  lemma {:induction false} MoreFollows(es: seq<Elem>, s: string, more: string)
    requires Splits(es, s) && (EndsInNumber(es) ==> NumberEnds(more, 0))
    ensures Splits(es + [AnySeq], s + more)
  {
    hide Splits, EndsInNumber, Value;
    if es == [] {
      SplitsNone(s);
      LastSequence(s + more);
      assert es + [AnySeq] == [AnySeq];
    } else {
      var e, rest := es[0], es[1..];
      assert es == [e] + rest && es + [AnySeq] == [e] + (rest + [AnySeq]);
      SplitsFirst(e, rest, s);
      var n :| Starts(e, rest, s, n);
      NumberLater(e, rest);
      NothingMatched(rest);
      assert s[n..] == "" && e.NumRange? ==> EndsInNumber(es);
      MoreFollows(rest, s[n..], more);
      assert (s + more)[..n] == s[..n] && (s + more)[n..] == s[n..] + more;
      assert Starts(e, rest + [AnySeq], s + more, n);
      SplitsFirst(e, rest + [AnySeq], s + more);
    }
  }

  lemma PieceKept(e: Elem, es: seq<Elem>, s: string, n: nat, k: nat)
    requires n + k <= |s| && Fits(e, s[..n], s[n..]) && Splits(es, s[n..][..k])
    ensures Splits([e] + es, s[..n + k])
  {
    hide Splits;
    assert s[..n + k][..n] == s[..n] && s[..n + k][n..] == s[n..][..k];
    assert Fits(e, s[..n], s[n..][..k]);
    assert Starts(e, es, s[..n + k], n);
    SplitsFirst(e, es, s[..n + k]);
  }

  lemma {:induction false} LessFollows(es: seq<Elem>, s: string) returns (j: nat)
    requires Splits(es + [AnySeq], s)
    ensures j <= |s| && Splits(es, s[..j]) && (EndsInNumber(es) ==> NumberEnds(s, j))
  {
    hide Splits, EndsInNumber, Value;
    if es == [] {
      j := 0;
      SplitsNone("");
      NoNumber();
    } else {
      var e, rest := es[0], es[1..];
      assert es == [e] + rest && es + [AnySeq] == [e] + (rest + [AnySeq]);
      SplitsFirst(e, rest + [AnySeq], s);
      var n :| Starts(e, rest + [AnySeq], s, n);
      NumberLater(e, rest);
      var k := 0;
      if EndsInNumber(rest) || !EndsInNumber(es) {
        k := LessFollows(rest, s[n..]);
      } else {
        NothingMatched(rest);
        assert s[n..][..0] == "";
      }
      PieceKept(e, rest, s, n, k);
      j := n + k;
    }
  }

  // Elements may be exchanged for others that match the same, at the end.
  lemma {:induction false} SameAfter(es: seq<Elem>, x: seq<Elem>, y: seq<Elem>, s: string)
    requires forall t :: Splits(x, t) <==> Splits(y, t)
    ensures Splits(es + x, s) <==> Splits(es + y, s)
  {
    if es == [] {
      assert es + x == x && es + y == y;
    } else {
      var e, rest := es[0], es[1..];
      assert es + x == [e] + (rest + x) && es + y == [e] + (rest + y);
      SplitsFirst(e, rest + x, s);
      SplitsFirst(e, rest + y, s);
      forall n | 0 <= n <= |s| ensures Starts(e, rest + x, s, n) <==> Starts(e, rest + y, s, n) {
        SameAfter(rest, x, y, s[n..]);
      }
    }
  }

  lemma TwoSequences(es: seq<Elem>, s: string)
    ensures Splits([AnySeq] + ([AnySeq] + es), s) <==> Splits([AnySeq] + es, s)
  {
    SplitsFirst(AnySeq, [AnySeq] + es, s);
    if n :| Starts(AnySeq, [AnySeq] + es, s, n) {
      SplitsFirst(AnySeq, es, s[n..]);
      var m :| Starts(AnySeq, es, s[n..], m);
      assert s[n..][m..] == s[n + m..];
      assert Starts(AnySeq, es, s, n + m);
      SplitsFirst(AnySeq, es, s);
    }
    if Splits([AnySeq] + es, s) {
      assert s[0..] == s;
      assert Starts(AnySeq, [AnySeq] + es, s, 0);
    }
  }

  // The elements of a substring match are the pattern between two "**".
  lemma BetweenSequences(es: seq<Elem>, line: string)
    ensures var p := Pattern(es, false); Splits(p[..|p| - 1], line) <==> Splits([AnySeq] + (es + [AnySeq]), line)
  {
    var p := Pattern(es, false);
    var more := if es == [] || es[|es| - 1] != AnySeq then es + [AnySeq] else es;
    var padded := if more[0] != AnySeq then [AnySeq] + more else more;
    assert p[..|p| - 1] == padded;
    if more[0] == AnySeq {
      assert more == [AnySeq] + more[1..];
      TwoSequences(more[1..], line);
    }
    if more == es {
      var front := [AnySeq] + es[..|es| - 1];
      assert [AnySeq] + es == front + [AnySeq] && [AnySeq] + (es + [AnySeq]) == front + [AnySeq, AnySeq];
      forall t ensures Splits([AnySeq], t) <==> Splits([AnySeq, AnySeq], t) {
        LastSequence(t);
        TwoSequences([], t);
        assert [AnySeq] + ([AnySeq] + []) == [AnySeq, AnySeq] && [AnySeq] + [] == [AnySeq];
      }
      SameAfter(front, [AnySeq], [AnySeq, AnySeq], line);
    }
  }

  // A substring match matches a line just if the pattern matches a part of it
  // in which it does not cut a last number short.
  lemma SubstringMatch(es: seq<Elem>, line: string)
    ensures var p := Pattern(es, false); Splits(p[..|p| - 1], line) <==> MatchesPart(es, line)
  {
    hide Splits, Pattern, EndsInNumber;
    BetweenSequences(es, line);
    SplitsFirst(AnySeq, es + [AnySeq], line);
    if n :| Starts(AnySeq, es + [AnySeq], line, n) {
      var k := LessFollows(es, line[n..]);
      assert line[n..][..k] == line[n..n + k];
    }
    if i, j :| 0 <= i <= j <= |line| && Splits(es, line[i..j]) && (EndsInNumber(es) ==> NumberEnds(line, j)) {
      MoreFollows(es, line[i..j], line[j..]);
      assert line[i..j] + line[j..] == line[i..];
      assert Starts(AnySeq, es + [AnySeq], line, i);
    }
  }

  // The number 3 in 39 is no match for a range from 3 to 5.
  lemma NumberCutShort()
    ensures var p := Pattern([NumRange(3, 5)], false);
      Splits([NumRange(3, 5)], "39"[..1]) && !Splits(p[..|p| - 1], "39")
  {
    hide Splits, Pattern;
    var r, line := NumRange(3, 5), "39";
    assert Value("3") == 3 && Value("9") == 9 && Value("39") == 39 by {
      assert "3"[..0] == "" && "9"[..0] == "" && "39"[..1] == "3";
    }
    assert line[0..1] == "3" && line[1..] == "9" && line[2..] == "" && line[0..] == line;
    assert DigitRun("3") == 1 && DigitRun("9") == 1 && DigitRun("39") == 2 && DigitRun("") == 0 by {
      assert "3"[1..] == "" && "9"[1..] == "" && "39"[1..] == "9";
    }
    SplitsNone("");
    NumberPiece(r, [], "3");
    assert [r] + [] == [r] && "3"[..1] == "3" && "3"[1..] == "";
    BetweenSequences([r], line);
    SplitsFirst(AnySeq, [r] + [AnySeq], line);
    forall n | 0 <= n <= 2 ensures !Splits([r] + [AnySeq], line[n..]) {
      NumberPiece(r, [AnySeq], line[n..]);
      assert "39"[..2] == "39" && "9"[..1] == "9";
    }
  }
}
