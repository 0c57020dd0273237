// Character classes, and the searches of the C library that the parser leans on.
// A search looks at text[i..end] and answers with a position in text.
module Chars {

  datatype Option<+T> = None | Some(value: T)

  predicate IsSpace(c: char) {
    c == ' ' || '\t' <= c <= '\r'
  }

  predicate IsDigit(c: char) {
    '0' <= c <= '9'
  }

  predicate Has(s: string, c: char) {
    exists i :: 0 <= i < |s| && s[i] == c
  }

  // The text reads s from position i on, within end.
  predicate At(text: string, i: nat, end: nat, s: string)
    requires end <= |text|
  {
    i + |s| <= end && text[i..i + |s|] == s
  }

  // memchr: the position of the first c, or end.
  function NextCh(text: string, i: nat, end: nat, c: char): (j: nat)
    requires i <= end <= |text|
    ensures i <= j <= end
    ensures j < end ==> text[j] == c
    ensures forall k :: i <= k < j ==> text[k] != c
    decreases end - i
  {
    if i == end || text[i] == c then i else NextCh(text, i + 1, end, c)
  }

  // memmem: the position of the first pat, or end.
  function NextPat(text: string, i: nat, end: nat, pat: string): (j: nat)
    requires i <= end <= |text| && pat != ""
    ensures i <= j <= end
    ensures j < end ==> At(text, j, end, pat)
    decreases end - i
  {
    if end < i + |pat| then end
    else if At(text, i, end, pat) then i
    else NextPat(text, i + 1, end, pat)
  }

  // The position after leading white space.
  function PastWhite(text: string, i: nat, end: nat): (j: nat)
    requires i <= end <= |text|
    ensures i <= j <= end
    decreases end - i
  {
    if i == end || !IsSpace(text[i]) then i else PastWhite(text, i + 1, end)
  }

  lemma AtSplit(text: string, i: nat, end: nat, a: string, b: string)
    requires end <= |text|
    ensures At(text, i, end, a + b) <==> At(text, i, end, a) && At(text, i + |a|, end, b)
  {
    if i + |a| + |b| <= end {
      var t := text[i..i + |a + b|];
      assert t == t[..|a|] + t[|a|..];
      assert t[..|a|] == text[i..i + |a|] && t[|a|..] == text[i + |a|..i + |a| + |b|];
      assert (a + b)[..|a|] == a && (a + b)[|a|..] == b;
    }
  }

  // A place inside an occurrence of t reads what t reads there.
  lemma AtWithin(text: string, i: nat, end: nat, t: string, k: nat, p: string)
    requires end <= |text| && At(text, i, end, t) && k + |p| <= |t|
    ensures At(text, i + k, end, p) <==> At(t, k, |t|, p)
  {
    var a, b := text[i + k..i + k + |p|], t[k..k + |p|];
    assert t == text[i..i + |t|] && |a| == |b|;
    assert forall m :: 0 <= m < |b| ==> b[m] == t[k + m] && a[m] == text[i + (k + m)] && text[i + (k + m)] == t[k + m];
    assert a == b;
  }

  lemma AtChars(text: string, i: nat, end: nat, s: string)
    requires end <= |text| && At(text, i, end, s)
    ensures i + |s| <= end
    ensures forall k {:trigger s[k]} :: 0 <= k < |s| ==> text[i + k] == s[k]
  {
    forall k | 0 <= k < |s|
      ensures text[i + k] == s[k]
    {
      assert text[i..i + |s|][k] == text[i + k];
    }
  }

  lemma NotAt(text: string, i: nat, end: nat, s: string, k: nat)
    requires end <= |text| && k < |s|
    requires i + k < end ==> text[i + k] != s[k]
    ensures !At(text, i, end, s)
  {
    if At(text, i, end, s) {
      AtChars(text, i, end, s);
      assert false;
    }
  }
}
