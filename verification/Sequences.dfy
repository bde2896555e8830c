// Facts about sequences of anything.

module Sequences {

  lemma Assoc<T>(a: seq<T>, b: seq<T>, c: seq<T>)
    ensures a + (b + c) == a + b + c
  {}

  lemma Around<T>(a: seq<T>, l: seq<T>, r: seq<T>, b: seq<T>)
    ensures a + (l + r) + b == (a + l) + (r + b)
  {}

  ghost predicate NoRepeats<T>(s: seq<T>) {
    forall i, j :: 0 <= i < j < |s| ==> s[i] != s[j]
  }

  lemma NoRepeatsAround<T>(a: seq<T>, x: T, b: seq<T>)
    requires NoRepeats(a) && NoRepeats(b) && x !in a && x !in b
    requires forall i, j :: 0 <= i < |a| && 0 <= j < |b| ==> a[i] != b[j]
    ensures NoRepeats(a + [x] + b)
  {
    var s := a + [x] + b;
    forall i, j | 0 <= i < j < |s| ensures s[i] != s[j] {
      if i < |a| {
        assert s[i] in a;
      }
      if j > |a| {
        assert s[j] == b[j - |a| - 1] && s[j] in b;
      }
    }
  }

  lemma Twice<T>(s: seq<T>, i: nat, j: nat)
    requires i < j < |s| && s[i] == s[j]
    ensures multiset(s)[s[i]] >= 2
  {
    assert s == s[..i] + [s[i]] + s[i + 1..j] + [s[j]] + s[j + 1..];
  }

  lemma OnlyOnce<T>(s: seq<T>, a: nat)
    requires NoRepeats(s) && a < |s|
    ensures multiset(s)[s[a]] == 1
  {
    assert s == s[..a] + [s[a]] + s[a + 1..];
    assert s[a] !in s[..a] && s[a] !in s[a + 1..];
  }

  // A sequence in another order has no repeats either.
  lemma StillNoRepeats<T>(s: seq<T>, t: seq<T>)
    requires NoRepeats(s) && multiset(s) == multiset(t)
    ensures NoRepeats(t)
  {
    forall i, j | 0 <= i < j < |t| ensures t[i] != t[j] {
      if t[i] == t[j] {
        Twice(t, i, j);
        assert t[i] in multiset(s);
        var a :| 0 <= a < |s| && s[a] == t[i];
        OnlyOnce(s, a);
      }
    }
  }
}
