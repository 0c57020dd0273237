// What a key means, told from its characters: which keys are well formed, what each
// part of one stands for, and that key expansion gives just that.
module KeyMeaning {
  import opened Chars
  import opened KeyPath
  import opened Decimal
  import opened DocFind
  import opened MxmlInt
  import opened Find
  import opened Ekey

  // A tag begins at i.
  predicate TagStart(key: string, i: nat)
    requires i <= |key|
  {
    i == 0 || key[i - 1] == '.'
  }

  // What can stand in a bracket: a number that does not begin with 0, or a sign.
  predicate Stands(s: string) {
    || s == "$" || s == "+" || s == "*" || s == "#"
    || (s != "" && s[0] != '0' && AllDigits(s))
  }

  // Signs that only the last bracket of a key can have.
  predicate EndsKey(s: string) {
    s == "*" || s == "#"
  }

  // Where the bracket that opens at i closes, or the end.
  function CloseOf(key: string, i: nat): (n: nat)
    requires i < |key|
    ensures i < n <= |key|
  {
    NextCh(key, i + 1, |key|, ']')
  }

  predicate GoodBracket(key: string, i: nat)
    requires i < |key|
  {
    var n := CloseOf(key, i);
    && n < |key| && Stands(key[i + 1..n])
    && (n + 1 == |key| || (key[n + 1] == '.' && !EndsKey(key[i + 1..n])))
  }

  predicate GoodAt(key: string, i: nat)
    requires i < |key|
  {
    && (key[i] == '.' ==> !TagStart(key, i))
    && (key[i] == '[' ==> !TagStart(key, i) && GoodBracket(key, i))
  }

  // No tag is empty but the last, and every bracket is after a tag, holds what can
  // stand there, and ends its tag.
  predicate WellFormed(key: string) {
    forall i :: 0 <= i < |key| ==> GoodAt(key, i)
  }

  // The position of the last "[", or -1.
  function LastOpen(s: string): (d: int)
    ensures -1 <= d < |s|
    ensures d >= 0 ==> s[d] == '['
    ensures forall i :: d < i < |s| ==> s[i] != '['
  {
    if s == "" then -1
    else if s[|s| - 1] == '[' then |s| - 1
    else LastOpen(s[..|s| - 1])
  }

  // The key ends in a bracket.
  predicate Bracketed(key: string) {
    var i := LastOpen(key);
    i >= 0 && key[|key| - 1] == ']' && Stands(key[i + 1..|key| - 1])
  }

  // The element that s in a bracket names after a tag, whose key is out: the item or
  // the total of the list, or the list. A "$" or "+" goes by the total.
  function Named(text: string, es: seq<Edit>, out: string, tag: string, s: string): string {
    var list := out + "s";
    if s == "*" then list
    else if s == "#" then list + ".total"
    else if s == "$" then list + "." + tag + ToDec(TotalOf(text, es, list + ".total"))
    else if s == "+" then list + "." + tag + ToDec((TotalOf(text, es, list + ".total") + 1) % 0x1_0000_0000)
    else list + "." + tag + s
  }

  // The dotted key that a key stands for, read from its end.
  function Meaning(text: string, es: seq<Edit>, key: string): string
    decreases |key|
  {
    if key == "" then ""
    else if Bracketed(key) then
      var i := LastOpen(key);
      Named(text, es, Meaning(text, es, key[..i]), LastTag(key[..i]), key[i + 1..|key| - 1])
    else Meaning(text, es, key[..|key| - 1]) + [key[|key| - 1]]
  }

  // A total that is read for the bracket at i, if one is, has a key that fits.
  predicate RoomAt(text: string, es: seq<Edit>, key: string, i: nat)
    requires i < |key|
  {
    key[i] == '[' && (CharAt(key, i + 1) == '$' || CharAt(key, i + 1) == '+') ==>
      |Meaning(text, es, key[..i])| + 7 <= KEY_MAX
  }

  predicate Roomy(text: string, es: seq<Edit>, key: string) {
    |Meaning(text, es, key)| < KEY_MAX && forall i :: 0 <= i < |key| ==> RoomAt(text, es, key, i)
  }

  // From i on.
  ghost predicate GoodFrom(key: string, i: nat) {
    forall j :: i <= j < |key| ==> GoodAt(key, j)
  }

  ghost predicate RoomFrom(text: string, es: seq<Edit>, key: string, i: nat) {
    forall j :: i <= j < |key| ==> RoomAt(text, es, key, j)
  }

  // Brackets before i are closed before i.
  ghost predicate ClosedBefore(key: string, i: nat) {
    forall j :: 0 <= j < i && j < |key| && key[j] == '[' ==> CloseOf(key, j) < i
  }

  // Where the expansion stands at i, having written out.
  ghost predicate Stood(text: string, es: seq<Edit>, key: string, i: nat, ts: nat, out: string) {
    && ts <= i <= |key| && ts == LastDot(key[..i]) + 1
    && out == Meaning(text, es, key[..i]) && ClosedBefore(key, i)
  }

  lemma StartIs(key: string, i: nat)
    requires i <= |key|
    ensures i == LastDot(key[..i]) + 1 <==> TagStart(key, i)
  {
    var p := key[..i];
    assert i > 0 ==> p[i - 1] == key[i - 1];
  }

  // Another character.
  lemma CharStep(text: string, es: seq<Edit>, key: string, i: nat, ts: nat, out: string)
    requires Stood(text, es, key, i, ts, out) && i < |key| && key[i] != '['
    ensures Stood(text, es, key, i + 1, if key[i] == '.' then i + 1 else ts, out + [key[i]])
  {
    hide Meaning, LastOpen, Stands, ClosedBefore, LastDot, Bracketed;
    var p := key[..i + 1];
    assert p[..i] == key[..i] && p[i] == key[i];
    NotBracketed(key, i);
    MeaningChar(text, es, p);
    DotStep(key, i);
    StillClosed(key, i);
  }

  lemma DotStep(key: string, i: nat)
    requires i < |key|
    ensures LastDot(key[..i + 1]) == if key[i] == '.' then i else LastDot(key[..i])
  {
    var p := key[..i + 1];
    assert p[..i] == key[..i] && p[i] == key[i];
  }

  lemma StillClosed(key: string, i: nat)
    requires i < |key| && key[i] != '[' && ClosedBefore(key, i)
    ensures ClosedBefore(key, i + 1)
  {
    hide CloseOf;
  }

  lemma MeaningChar(text: string, es: seq<Edit>, p: string)
    requires p != "" && !Bracketed(p)
    ensures Meaning(text, es, p) == Meaning(text, es, p[..|p| - 1]) + [p[|p| - 1]]
  {
    hide Bracketed;
  }

  lemma NoClose(s: string)
    requires Stands(s)
    ensures !Has(s, ']') && !Has(s, '[') && !Has(s, '.') && s != ""
  {
  }

  lemma ClosedInside(key: string, j: nat, i: nat)
    requires j < i <= |key| && CloseOf(key, j) < i
    ensures Has(key[j + 1..i], ']')
  {
    var n := CloseOf(key, j);
    assert key[j + 1..i][n - j - 1] == key[n];
  }

  // Where brackets are closed before i, a "]" there closes none.
  lemma NotBracketed(key: string, i: nat)
    requires i < |key| && key[i] != '[' && ClosedBefore(key, i)
    ensures !Bracketed(key[..i + 1])
  {
    hide LastOpen, Stands, CloseOf, Has;
    var p := key[..i + 1];
    var j := LastOpen(p);
    if j >= 0 {
      assert key[j] == p[j] && j != i;
      assert p[j + 1..i] == key[j + 1..i];
      ClosedInside(key, j, i);
      if Stands(p[j + 1..i]) {
        NoClose(p[j + 1..i]);
        assert false;
      }
    }
  }

  // A whole bracket.
  lemma BracketStep(text: string, es: seq<Edit>, key: string, i: nat, ts: nat, out: string)
    requires Stood(text, es, key, i, ts, out) && i < |key| && key[i] == '[' && GoodBracket(key, i)
    ensures
      var n := CloseOf(key, i);
      Stood(text, es, key, n + 1, ts, Named(text, es, out, key[ts..i], key[i + 1..n]))
  {
    hide Meaning, Stands, Named, ClosedBefore, LastDot, CloseOf, LastOpen, LastTag, GoodBracket;
    var n := CloseOf(key, i);
    InBracket(key, i);
    BracketParts(key, i);
    MeaningBracket(text, es, key[..n + 1], i);
    DotBefore(key, i, n + 1);
    ClosedNow(key, i);
  }

  lemma BracketParts(key: string, i: nat)
    requires i < |key| && key[i] == '[' && GoodBracket(key, i)
    ensures
      var n := CloseOf(key, i);
      var p := key[..n + 1];
      && n < |key| && p != "" && LastOpen(p) == i && p[|p| - 1] == ']' && Stands(p[i + 1..|p| - 1])
      && p[..i] == key[..i] && p[i + 1..n] == key[i + 1..n]
      && LastTag(key[..i]) == key[LastDot(key[..i]) + 1..i]
  {
    hide Stands, LastDot, CloseOf;
    InBracket(key, i);
    var n := CloseOf(key, i);
    var p := key[..n + 1];
    assert p[..i] == key[..i] && p[i + 1..n] == key[i + 1..n];
    assert forall j :: 0 <= j < |p| ==> p[j] == key[j];
    assert LastOpen(p) == i;
  }

  lemma ClosedNow(key: string, i: nat)
    requires i < |key| && key[i] == '[' && GoodBracket(key, i) && ClosedBefore(key, i)
    ensures ClosedBefore(key, CloseOf(key, i) + 1)
  {
    hide CloseOf, GoodBracket;
    InBracket(key, i);
    forall j | 0 <= j < CloseOf(key, i) + 1 && j < |key| && key[j] == '['
      ensures CloseOf(key, j) < CloseOf(key, i) + 1
    {
      assert j <= i;
    }
  }

  lemma MeaningBracket(text: string, es: seq<Edit>, p: string, i: nat)
    requires p != "" && LastOpen(p) == i && p[|p| - 1] == ']' && Stands(p[i + 1..|p| - 1])
    ensures Meaning(text, es, p)
      == Named(text, es, Meaning(text, es, p[..i]), LastTag(p[..i]), p[i + 1..|p| - 1])
  {
    hide Stands, Named, LastTag;
  }

  // What stands in a bracket has no dot and opens no bracket.
  lemma InBracket(key: string, i: nat)
    requires i < |key| && key[i] == '[' && GoodBracket(key, i)
    ensures var n := CloseOf(key, i);
      && i + 1 < n < |key| && key[n] == ']'
      && forall j :: i < j <= n ==> key[j] != '.' && key[j] != '['
  {
    hide Stands;
    var n := CloseOf(key, i);
    var s := key[i + 1..n];
    NoClose(s);
    forall j | i < j <= n
      ensures key[j] != '.' && key[j] != '['
    {
      assert j < n ==> s[j - i - 1] == key[j];
    }
  }

  lemma DotBefore(key: string, i: nat, n: nat)
    requires i <= n <= |key| && forall j :: i <= j < n ==> key[j] != '.'
    ensures LastDot(key[..n]) == LastDot(key[..i])
  {
    hide LastDot;
    var p, q := key[..i], key[..n];
    assert forall j :: 0 <= j < i ==> p[j] == q[j];
    var d, e := LastDot(p), LastDot(q);
    assert d >= 0 ==> q[d] == '.';
    assert e >= 0 ==> e < i && p[e] == '.';
  }

  // A bracket is taken just when it is good and there is room.
  ghost predicate BracketTaken(text: string, es: seq<Edit>, key: string, i: nat, ts: nat, out: string)
    requires ts < i < |key| && key[i] == '['
  {
    var piece := Bracket(text, es, key, i, ts, out);
    if !GoodBracket(key, i) then piece.NoPiece?
    else
      var n := CloseOf(key, i);
      var named := Named(text, es, out, key[ts..i], key[i + 1..n]);
      var counts := CharAt(key, i + 1) == '$' || CharAt(key, i + 1) == '+';
      if piece.Piece? then piece == Piece(named, n + 1) && (counts ==> |out| + 7 <= KEY_MAX)
      else piece == NoPiece(ENOMEM) && (|named| >= KEY_MAX || (counts && |out| + 7 > KEY_MAX))
  }

  lemma BracketIs(text: string, es: seq<Edit>, key: string, i: nat, ts: nat, out: string)
    requires ts < i < |key| && key[i] == '['
    ensures BracketTaken(text, es, key, i, ts, out)
  {
    hide BracketTaken;
    if '1' <= CharAt(key, i + 1) <= '9' {
      DigitsTaken(text, es, key, i, ts, out);
    } else {
      SignTaken(text, es, key, i, ts, out);
    }
  }

  lemma DigitsTaken(text: string, es: seq<Edit>, key: string, i: nat, ts: nat, out: string)
    requires ts < i < |key| && key[i] == '[' && '1' <= CharAt(key, i + 1) <= '9'
    ensures BracketTaken(text, es, key, i, ts, out)
  {
    hide TotalOf, ToDec, GoodBracket, CloseOf, PastDigits;
    DigitsBracket(key, i);
    if GoodBracket(key, i) {
      NumberNamed(text, es, out, key[ts..i], key[i + 1..CloseOf(key, i)]);
    }
  }

  lemma NumberNamed(text: string, es: seq<Edit>, out: string, tag: string, s: string)
    requires s != "" && '1' <= s[0] <= '9'
    ensures Named(text, es, out, tag, s) == out + "s" + "." + tag + s
  {
    hide TotalOf, ToDec;
  }

  lemma SignTaken(text: string, es: seq<Edit>, key: string, i: nat, ts: nat, out: string)
    requires ts < i < |key| && key[i] == '[' && !('1' <= CharAt(key, i + 1) <= '9')
    ensures BracketTaken(text, es, key, i, ts, out)
  {
    hide TotalOf, ToDec, GoodBracket, CloseOf, PastDigits;
    SignBracket(key, i);
  }

  lemma DigitsBracket(key: string, i: nat)
    requires i + 1 < |key| && key[i] == '[' && '1' <= key[i + 1] <= '9'
    ensures
      var n := PastDigits(key, i + 1);
      && i + 1 < n
      && (GoodBracket(key, i) <==> CharAt(key, n) == ']' && (n + 1 == |key| || key[n + 1] == '.'))
      && (CharAt(key, n) == ']' ==> CloseOf(key, i) == n)
    ensures GoodBracket(key, i) ==>
      var s := key[i + 1..CloseOf(key, i)]; s != "" && s[0] == key[i + 1] && !EndsKey(s)
  {
    var n, m := PastDigits(key, i + 1), CloseOf(key, i);
    if n < |key| && key[n] == ']' {
      assert m == n;
      assert AllDigits(key[i + 1..n]);
    }
    if GoodBracket(key, i) {
      var s := key[i + 1..m];
      assert s[0] == key[i + 1];
      forall j | i + 1 <= j < m
        ensures IsDigit(key[j])
      {
        assert key[j] == s[j - i - 1];
      }
      assert m == n;
    }
  }

  predicate Sign(c: char) {
    c == '$' || c == '+' || c == '*' || c == '#'
  }

  lemma SignStands(s: string)
    requires s != "" && !('1' <= s[0] <= '9')
    ensures Stands(s) <==> |s| == 1 && Sign(s[0])
    ensures |s| == 1 ==> (EndsKey(s) <==> s[0] == '*' || s[0] == '#')
  {
    assert |s| == 1 ==> s == [s[0]];
    assert AllDigits(s) ==> IsDigit(s[0]);
  }

  lemma SignBracket(key: string, i: nat)
    requires i < |key| && key[i] == '[' && !('1' <= CharAt(key, i + 1) <= '9')
    ensures
      var c, n := CharAt(key, i + 1), CloseOf(key, i);
      && (GoodBracket(key, i) <==>
            && Sign(c) && CharAt(key, i + 2) == ']'
            && (i + 3 == |key| || (key[i + 3] == '.' && (c == '$' || c == '+'))))
      && (GoodBracket(key, i) ==> n == i + 2 && key[i + 1..n] == [c])
  {
    hide Stands, EndsKey, CloseOf;
    var c, n := CharAt(key, i + 1), CloseOf(key, i);
    CloseHere(key, i);
    if i + 1 < n {
      SignStands(key[i + 1..n]);
      assert n == i + 2 ==> key[i + 1..n] == [c];
    } else {
      NothingStands(key[i + 1..n]);
    }
  }

  lemma NothingStands(s: string)
    requires s == ""
    ensures !Stands(s)
  {
  }

  lemma CloseHere(key: string, i: nat)
    requires i < |key|
    ensures var n := CloseOf(key, i);
      && (n < |key| ==> key[n] == ']')
      && (i + 1 < |key| && key[i + 1] != ']' ==> n > i + 1)
      && (i + 2 < |key| && key[i + 1] != ']' && key[i + 2] == ']' ==> n == i + 2)
  {
  }

  // What the expansion has to come to from i on.
  ghost predicate ComesTo(text: string, es: seq<Edit>, key: string, i: nat, out: string, r: Expansion) {
    && (r.Expanded? <==> GoodFrom(key, i) && RoomFrom(text, es, key, i) && |Meaning(text, es, key)| < KEY_MAX)
    && (r.Expanded? ==> r.key == Meaning(text, es, key))
    && (GoodFrom(key, i) ==> out <= Meaning(text, es, key))
    && (GoodFrom(key, i) && r.Refused? ==> r == Refused(ENOMEM))
  }

  lemma {:induction false} Follows(text: string, es: seq<Edit>, key: string, i: nat, ts: nat, out: string)
    requires Stood(text, es, key, i, ts, out)
    ensures ComesTo(text, es, key, i, out, ExpandFrom(text, es, key, i, ts, out))
    decreases |key| - i
  {
    hide Meaning, Bracket, GoodBracket, Named, Stood, ComesTo, GoodAt, RoomAt;
    StoodAt(text, es, key, i, ts, out);
    if i == |key| {
      AtEnd(text, es, key, ts, out);
    } else if key[i] != '[' {
      var next := if key[i] == '.' then i + 1 else ts;
      CharStep(text, es, key, i, ts, out);
      Follows(text, es, key, i + 1, next, out + [key[i]]);
      CharFollows(text, es, key, i, ts, out);
    } else if GoodBracket(key, i) && ts < i {
      BracketStep(text, es, key, i, ts, out);
      Follows(text, es, key, CloseOf(key, i) + 1, ts, Named(text, es, out, key[ts..i], key[i + 1..CloseOf(key, i)]));
      BracketFollows(text, es, key, i, ts, out);
    } else {
      BadBracket(text, es, key, i, ts, out);
    }
  }

  lemma StoodAt(text: string, es: seq<Edit>, key: string, i: nat, ts: nat, out: string)
    requires Stood(text, es, key, i, ts, out)
    ensures ts <= i <= |key| && (i == ts <==> TagStart(key, i)) && out == Meaning(text, es, key[..i])
  {
    hide Meaning;
    StartIs(key, i);
  }

  lemma AtEnd(text: string, es: seq<Edit>, key: string, ts: nat, out: string)
    requires ts <= |key| && out == Meaning(text, es, key[..|key|])
    ensures ComesTo(text, es, key, |key|, out, ExpandFrom(text, es, key, |key|, ts, out))
  {
    hide Meaning, GoodAt, RoomAt;
    assert key[..|key|] == key;
  }

  // All is good from i on if it is at i and later on.
  lemma FromNext(text: string, es: seq<Edit>, key: string, i: nat, n: nat)
    requires i < n <= |key|
    requires forall j :: i < j < n ==> GoodAt(key, j) && RoomAt(text, es, key, j)
    ensures GoodFrom(key, i) <==> GoodAt(key, i) && GoodFrom(key, n)
    ensures RoomFrom(text, es, key, i) <==> RoomAt(text, es, key, i) && RoomFrom(text, es, key, n)
  {
    hide GoodAt, RoomAt;
  }

  lemma CharFollows(text: string, es: seq<Edit>, key: string, i: nat, ts: nat, out: string)
    requires i < |key| && key[i] != '[' && ts <= i && (i == ts <==> TagStart(key, i))
    requires
      var next := if key[i] == '.' then i + 1 else ts;
      ComesTo(text, es, key, i + 1, out + [key[i]], ExpandFrom(text, es, key, i + 1, next, out + [key[i]]))
    ensures ComesTo(text, es, key, i, out, ExpandFrom(text, es, key, i, ts, out))
  {
    hide Meaning, GoodBracket, GoodFrom, RoomFrom;
    FromNext(text, es, key, i, i + 1);
    assert out <= out + [key[i]];
  }

  lemma BadBracket(text: string, es: seq<Edit>, key: string, i: nat, ts: nat, out: string)
    requires i < |key| && key[i] == '[' && ts <= i && (i == ts <==> TagStart(key, i))
    requires i == ts || !GoodBracket(key, i)
    ensures ComesTo(text, es, key, i, out, ExpandFrom(text, es, key, i, ts, out))
  {
    hide Meaning, GoodBracket, Bracket;
    assert !GoodAt(key, i);
    if ts < i {
      BracketIs(text, es, key, i, ts, out);
    }
  }

  lemma NamedLonger(text: string, es: seq<Edit>, out: string, tag: string, s: string)
    ensures out <= Named(text, es, out, tag, s)
  {
    hide TotalOf, ToDec;
  }

  lemma BracketFollows(text: string, es: seq<Edit>, key: string, i: nat, ts: nat, out: string)
    requires ts < i < |key| && key[i] == '[' && GoodBracket(key, i) && !TagStart(key, i)
    requires out == Meaning(text, es, key[..i])
    requires
      var n := CloseOf(key, i);
      var named := Named(text, es, out, key[ts..i], key[i + 1..n]);
      ComesTo(text, es, key, n + 1, named, ExpandFrom(text, es, key, n + 1, ts, named))
    ensures ComesTo(text, es, key, i, out, ExpandFrom(text, es, key, i, ts, out))
  {
    hide Meaning, GoodFrom, RoomFrom, Bracket, Named, GoodBracket;
    var n := CloseOf(key, i);
    InBracket(key, i);
    assert GoodAt(key, i);
    FromNext(text, es, key, i, n + 1);
    BracketIs(text, es, key, i, ts, out);
    NamedLonger(text, es, out, key[ts..i], key[i + 1..n]);
  }

  // A key expands exactly when it is well formed and what it stands for fits; it
  // expands to what it stands for; and a well-formed key is refused for room only.
  lemma ExpandExactly(text: string, es: seq<Edit>, key: string)
    ensures
      var x := Expand(text, es, key);
      && (x.Expanded? <==> WellFormed(key) && Roomy(text, es, key))
      && (x.Expanded? ==> x.key == Meaning(text, es, key))
      && (WellFormed(key) && x.Refused? ==> x == Refused(ENOMEM))
  {
    hide Meaning, GoodAt, RoomAt, ExpandFrom;
    assert key[..0] == "";
    MeaningNothing(text, es);
    Follows(text, es, key, 0, 0, "");
  }

  lemma MeaningNothing(text: string, es: seq<Edit>)
    ensures Meaning(text, es, "") == ""
  {
  }

  // So what a malformed key is asked for is refused, whatever the document.
  lemma MalformedRefused(text: string, es: seq<Edit>, key: string)
    requires !WellFormed(key)
    ensures Expand(text, es, key).Refused?
  {
    hide WellFormed, Roomy, Meaning, ExpandFrom;
    ExpandExactly(text, es, key);
  }
}
