// mxml_expand_key (mxml.c): every "[$]" of a key as the number it stands for.
module Pinning {
  import opened Chars
  import opened KeyPath
  import opened Decimal
  import opened DocFind
  import opened MxmlInt
  import opened Find
  import opened Ekey
  import opened KeyMeaning
  import opened Api
  import opened Reachable
  import opened ApiReach

  // The total that a key ending in "[#]" names; 0 when there is none that makes
  // sense, or the key does not.
  function TotalFor(text: string, es: seq<Edit>, tkey: string): nat {
    match Expand(text, es, tkey)
    case Refused(_) => 0
    case Expanded(t) => TotalOf(text, es, t)
  }

  // What "[$]" at p stands for.
  function LastAt(text: string, es: seq<Edit>, key: string, p: nat): nat
    requires p <= |key|
  {
    TotalFor(text, es, key[..p] + TOTAL)
  }

  function Index(n: nat): string {
    "[" + ToDec(n) + "]"
  }

  // The key from i on, with every "[$]" replaced.
  function PinFrom(text: string, es: seq<Edit>, key: string, i: nat): string
    requires i <= |key|
    decreases |key| - i
  {
    if i == |key| then ""
    else if At(key, i, |key|, LAST) then Index(LastAt(text, es, key, i)) + PinFrom(text, es, key, i + 3)
    else [key[i]] + PinFrom(text, es, key, i + 1)
  }

  // mxml_expand_key as a function of the document and its edits.
  function Pinned(text: string, es: seq<Edit>, key: string): Option<string> {
    var pinned := PinFrom(text, es, key, 0);
    if |pinned| < KEY_MAX then Some(pinned) else None
  }

  lemma {:induction false} PinUpTo(text: string, es: seq<Edit>, key: string, i: nat, stop: nat)
    requires i <= |key| && i <= stop <= NextPat(key, i, |key|, LAST)
    ensures PinFrom(text, es, key, i) == key[i..stop] + PinFrom(text, es, key, stop)
    decreases stop - i
  {
    hide LastAt, Index, At, PinFrom, NextPat;
    if i == stop {
      assert key[i..stop] + PinFrom(text, es, key, stop) == PinFrom(text, es, key, stop);
    } else {
      NextPatStep(key, i, stop);
      PinNext(text, es, key, i);
      PinUpTo(text, es, key, i + 1, stop);
      assert key[i..stop] == [key[i]] + key[i + 1..stop];
    }
  }

  lemma NextPatStep(key: string, i: nat, stop: nat)
    requires i < |key| && i < stop <= NextPat(key, i, |key|, LAST)
    ensures !At(key, i, |key|, LAST) && stop <= NextPat(key, i + 1, |key|, LAST)
  {
  }

  method ReadTotalFor(m: Mxml, tkey: string) returns (total: nat)
    requires m.Valid() && tkey != ""
    modifies m`cacheNext, m.cache
    ensures m.Valid() && total == TotalFor(m.text, m.edits, tkey)
  {
    hide ParseUint, ExpandFrom;
    var _, hit := FindExpandKey(m, tkey);
    if hit.None? {
      return 0;
    }
    var n := ParseUintOf(Content(m.text, hit.value));
    total := if n.Some? then n.value else 0;
  }

  // One turn of the loop: out and the key from first, up to the next "[$]".
  lemma PinStep(text: string, es: seq<Edit>, key: string, first: nat, out: string)
    requires first <= |key|
    ensures
      var brack := NextPat(key, first, |key|, LAST);
      out + PinFrom(text, es, key, first) ==
        if brack == |key| then out + key[first..]
        else out + key[first..brack] + Index(LastAt(text, es, key, brack)) + PinFrom(text, es, key, brack + 3)
  {
    hide LastAt, Index, NextPat, At, PinFrom;
    var brack := NextPat(key, first, |key|, LAST);
    PinUpTo(text, es, key, first, brack);
    PinHead(text, es, key, brack);
    assert brack == |key| ==> out + (key[first..brack] + "") == out + key[first..];
    if brack < |key| {
      LastFits(key, brack);
      PinAtLast(text, es, key, brack);
      var a, b, c := key[first..brack], Index(LastAt(text, es, key, brack)), PinFrom(text, es, key, brack + 3);
      assert out + (a + (b + c)) == out + a + b + c;
    }
  }

  lemma PinAtLast(text: string, es: seq<Edit>, key: string, i: nat)
    requires i < |key| && At(key, i, |key|, LAST)
    ensures PinFrom(text, es, key, i) == Index(LastAt(text, es, key, i)) + PinFrom(text, es, key, i + 3)
  {
    hide LastAt, Index;
  }

  method MxmlExpandKey(m: Mxml, key: string) returns (r: Option<string>)
    requires m.Valid()
    modifies m`cacheNext, m.cache
    ensures m.Valid() && r == Pinned(m.text, m.edits, key)
  {
    hide NextPat, TotalFor, ToDec, PinFrom, At, Index;
    var out, first := "", 0;
    ghost var pinned := PinFrom(m.text, m.edits, key, 0);
    assert "" + pinned == pinned;
    while true
      invariant m.Valid() && first <= |key| && |out| < KEY_MAX
      invariant out + PinFrom(m.text, m.edits, key, first) == pinned
      decreases |key| - first
    {
      var brack := NextPat(key, first, |key|, LAST);
      PinStep(m.text, m.edits, key, first, out);
      if brack == |key| {
        break;
      }
      LastFits(key, brack);
      var total := ReadTotalFor(m, key[..brack] + TOTAL);
      out := out + key[first..brack] + Index(total);
      if |out| >= KEY_MAX {
        return None;
      }
      first := brack + 3;
    }
    out := out + key[first..];
    r := if |out| < KEY_MAX then Some(out) else None;
  }

  lemma LastFits(key: string, i: nat)
    requires i < |key| && At(key, i, |key|, LAST)
    ensures i + 3 <= |key| && key[i] == '[' && key[i + 1] == '$' && key[i + 2] == ']'
  {
    AtChars(key, i, |key|, LAST);
    assert LAST[0] == '[' && LAST[1] == '$' && LAST[2] == ']';
  }

  // The expansion of the key up to p, as far as i.
  ghost predicate Reaches(text: string, es: seq<Edit>, key: string, p: nat, i: nat, ts: nat, out: string)
    requires ts <= i <= p <= |key|
  {
    Expand(text, es, key[..p] + TOTAL) == ExpandFrom(text, es, key[..p] + TOTAL, i, ts, out)
  }

  lemma TotalKeyChars(key: string, p: nat)
    requires p <= |key|
    ensures var t := key[..p] + TOTAL;
      |t| == p + 3 && t[..p] == key[..p] && t[p] == '[' && t[p + 1] == '#' && t[p + 2] == ']'
  {
    assert TOTAL[0] == '[' && TOTAL[1] == '#' && TOTAL[2] == ']';
  }

  lemma ReachesCopy(text: string, es: seq<Edit>, key: string, p: nat, i: nat, ts: nat, out: string)
    requires ts <= i < p <= |key| && Reaches(text, es, key, p, i, ts, out)
    requires key[i] != '[' && !(key[i] == '.' && i == ts) && |out| < KEY_MAX
    ensures Reaches(text, es, key, p, i + 1, if key[i] == '.' then i + 1 else ts, out + [key[i]])
  {
    hide Bracket;
    TotalKeyChars(key, p);
    assert (key[..p] + TOTAL)[..p][i] == key[..p][i];
  }

  lemma ReachesBracket(text: string, es: seq<Edit>, key: string, p: nat, i: nat, ts: nat, out: string)
    requires ts < i < p && p + 3 <= |key| && Reaches(text, es, key, p, i, ts, out) && key[i] == '[' && key[p] == '['
    requires Bracket(text, es, key, i, ts, out).Piece?
    ensures
      var piece := Bracket(text, es, key, i, ts, out);
      piece.next < p && Reaches(text, es, key, p, piece.next, ts, piece.out)
  {
    hide Bracket;
    var t := key[..p] + TOTAL;
    TotalKeyChars(key, p);
    assert t[..p][i] == key[..p][i];
    SameBracketBefore(text, es, key, t, p, i, ts, out);
  }

  // So "[$]" stands for the total that is read there.
  lemma ReachedTotal(text: string, es: seq<Edit>, key: string, p: nat, ts: nat, out: string)
    requires ts < p <= |key| && Reaches(text, es, key, p, p, ts, out)
    ensures var t := out + "s" + ".total";
      LastAt(text, es, key, p) == if |t| < KEY_MAX then TotalOf(text, es, t) else 0
  {
    hide TotalOf, PastDigits, ToDec;
    TotalKeyChars(key, p);
    var tkey, t := key[..p] + TOTAL, out + "s" + ".total";
    assert |t| == |out + "s"| + 6;
    assert Bracket(text, es, tkey, p, ts, out) == if |t| <= KEY_MAX then Piece(t, p + 3) else NoPiece(ENOMEM);
    assert |t| <= KEY_MAX ==> ExpandFrom(text, es, tkey, p, ts, out) == ExpandFrom(text, es, tkey, p + 3, ts, t);
  }

  // Position j of pk, the rest of which is key's from i with every "[$]" replaced,
  // is where the expansion of pk is when that of key is at i.
  ghost predicate Aligned(text: string, es: seq<Edit>, key: string, i: nat, ts: nat, pk: string, j: nat, tj: nat) {
    && ts <= i <= |key| && tj <= j <= |pk|
    && pk[j..] == PinFrom(text, es, key, i)
    && (i == ts <==> j == tj)
    && (key[ts..i] == pk[tj..j] || (i > ts && (i == |key| || key[i] == '.')))
  }

  // Every "[$]" from i on stands for an item there can be.
  ghost predicate LastsCount(text: string, es: seq<Edit>, key: string, i: nat) {
    forall p :: i <= p < |key| && At(key, p, |key|, LAST) ==> LastAt(text, es, key, p) >= 1
  }

  lemma PinHead(text: string, es: seq<Edit>, key: string, i: nat)
    requires i <= |key|
    ensures i == |key| <==> PinFrom(text, es, key, i) == ""
    ensures i < |key| ==> PinFrom(text, es, key, i)[0] == key[i]
  {
    hide LastAt, ToDec;
    if i < |key| && At(key, i, |key|, LAST) {
      LastFits(key, i);
      assert Index(LastAt(text, es, key, i))[0] == '[';
    }
  }

  lemma PinNext(text: string, es: seq<Edit>, key: string, i: nat)
    requires i < |key| && !At(key, i, |key|, LAST)
    ensures PinFrom(text, es, key, i) == [key[i]] + PinFrom(text, es, key, i + 1)
  {
  }

  lemma StepCopy(text: string, es: seq<Edit>, key: string, i: nat, ts: nat, pk: string, j: nat, tj: nat)
    requires Aligned(text, es, key, i, ts, pk, j, tj) && i < |key| && key[i] != '['
    requires i != ts || key[i] != '.'
    ensures j < |pk| && pk[j] == key[i]
    ensures
      var dot := key[i] == '.';
      Aligned(text, es, key, i + 1, if dot then i + 1 else ts, pk, j + 1, if dot then j + 1 else tj)
    ensures LastsCount(text, es, key, i) <==> LastsCount(text, es, key, i + 1)
  {
    hide PinFrom, LastAt, At;
    NotAt(key, i, |key|, LAST, 0);
    assert LAST[0] == '[';
    PinNext(text, es, key, i);
    assert pk[j..][0] == pk[j];
    assert pk[j + 1..] == pk[j..][1..];
    if key[i] != '.' {
      assert key[ts..i + 1] == key[ts..i] + [key[i]];
      assert pk[tj..j + 1] == pk[tj..j] + [pk[j]];
    }
  }

  lemma {:induction false} NotBefore(key: string, i: nat, n: nat)
    requires i <= n <= |key| && forall m :: i <= m < n ==> !At(key, m, |key|, LAST)
    ensures n <= NextPat(key, i, |key|, LAST)
    decreases n - i
  {
    hide At;
    if i == n {
    } else {
      NotBefore(key, i + 1, n);
    }
  }

  lemma BracketShape(text: string, es: seq<Edit>, key: string, i: nat, ts: nat, out: string)
    requires ts < i < |key| && Bracket(text, es, key, i, ts, out).Piece?
    ensures
      var n := Bracket(text, es, key, i, ts, out).next;
      && i + 3 <= n <= |key| && key[n - 1] == ']' && (n == |key| || key[n] == '.')
      && forall m :: i < m < n ==> key[m] != '['
  {
    hide TotalOf, ToDec, PastDigits;
  }

  // The same bracket after the same tag, elsewhere.
  lemma BracketMoved(text: string, es: seq<Edit>, key: string, i: nat, ts: nat, out: string,
                     pk: string, j: nat, tj: nat)
    requires ts < i < |key| && tj < j < |pk| && key[ts..i] == pk[tj..j]
    requires Bracket(text, es, key, i, ts, out).Piece?
    requires
      var n := Bracket(text, es, key, i, ts, out).next;
      && j + (n - i) <= |pk| && key[i..n] == pk[j..j + (n - i)]
      && (n == |key| <==> j + (n - i) == |pk|) && (n < |key| ==> key[n] == pk[j + (n - i)])
    ensures
      var piece := Bracket(text, es, key, i, ts, out);
      Bracket(text, es, pk, j, tj, out) == Piece(piece.out, j + (piece.next - i))
  {
    hide TotalOf, ToDec, PastDigits;
    BracketShape(text, es, key, i, ts, out);
    var n := Bracket(text, es, key, i, ts, out).next;
    MovedChars(key, i, pk, j, n - i);
  }

  lemma MovedChars(key: string, i: nat, pk: string, j: nat, len: nat)
    requires 3 <= len && i + len <= |key| && j + len <= |pk|
    requires key[i..i + len] == pk[j..j + len] && !IsDigit(key[i + len - 1])
    ensures key[i + 1] == pk[j + 1] && key[i + 2] == pk[j + 2] && key[i + len - 1] == pk[j + len - 1]
    ensures
      var n := PastDigits(key, i + 1);
      && n < i + len && PastDigits(pk, j + 1) == j + (n - i) && key[n] == pk[j + (n - i)]
      && key[i + 1..n] == pk[j + 1..j + (n - i)]
  {
    hide PastDigits, IsDigit;
    SameChars(key, i, pk, j, len);
    MovedPart(key, i, pk, j, len, PastDigits(key, i + 1) - i);
  }

  lemma SameChars(key: string, i: nat, pk: string, j: nat, len: nat)
    requires i + len <= |key| && j + len <= |pk| && key[i..i + len] == pk[j..j + len]
    ensures forall m :: j <= m < j + len ==> pk[m] == key[m - j + i]
    ensures forall m :: i <= m < i + len ==> key[m] == pk[m - i + j]
  {
    var part := key[i..i + len];
    assert forall m :: j <= m < j + len ==> pk[m] == part[m - j] && part[m - j] == key[m - j + i];
    assert forall m :: i <= m < i + len ==> key[m] == part[m - i] && part[m - i] == pk[m - i + j];
  }

  lemma MovedPart(key: string, i: nat, pk: string, j: nat, len: nat, m: nat)
    requires 1 <= m <= len && i + len <= |key| && j + len <= |pk| && key[i..i + len] == pk[j..j + len]
    ensures key[i + 1..i + m] == pk[j + 1..j + m]
  {
    var part, other := key[i..i + len], pk[j..j + len];
    var a, b := key[i + 1..i + m], pk[j + 1..j + m];
    assert forall k :: 0 <= k < m - 1 ==> a[k] == part[k + 1] && b[k] == other[k + 1];
    assert a == b;
  }

  lemma StepOther(text: string, es: seq<Edit>, key: string, i: nat, ts: nat, out: string, pk: string, j: nat, tj: nat)
    requires Aligned(text, es, key, i, ts, pk, j, tj) && ts < i < |key| && key[i] == '['
    requires !At(key, i, |key|, LAST) && Bracket(text, es, key, i, ts, out).Piece?
    ensures
      var piece := Bracket(text, es, key, i, ts, out);
      var n' := j + (piece.next - i);
      && j < |pk| && pk[j] == '['
      && Bracket(text, es, pk, j, tj, out) == Piece(piece.out, n')
      && Aligned(text, es, key, piece.next, ts, pk, n', tj)
      && (LastsCount(text, es, key, i) <==> LastsCount(text, es, key, piece.next))
  {
    hide PinFrom, LastAt, At, Bracket, NextPat;
    BracketShape(text, es, key, i, ts, out);
    var n := Bracket(text, es, key, i, ts, out).next;
    forall m | i <= m < n
      ensures !At(key, m, |key|, LAST)
    {
      assert LAST[0] == '[';
      if m > i { NotAt(key, m, |key|, LAST, 0); }
    }
    NotBefore(key, i, n);
    PinUpTo(text, es, key, i, n);
    PinHead(text, es, key, n);
    PartAt(pk, j, key[i..n], PinFrom(text, es, key, n));
    assert key[i..n][0] == key[i];
    BracketMoved(text, es, key, i, ts, out, pk, j, tj);
  }

  lemma PartAt(s: string, j: nat, a: string, b: string)
    requires j <= |s| && s[j..] == a + b
    ensures j + |a| <= |s| && s[j..j + |a|] == a && s[j + |a|..] == b
    ensures a != "" ==> s[j] == a[0]
    ensures b == "" <==> j + |a| == |s|
    ensures b != "" ==> s[j + |a|] == b[0]
  {
    assert s[j..][..|a|] == a && s[j..][|a|..] == b;
    assert a != "" ==> s[j..][0] == s[j];
    assert b != "" ==> s[j + |a|..][0] == s[j + |a|];
  }

  lemma Inner(s: string, i: nat, n: nat)
    requires i + 2 <= n <= |s|
    ensures s[i..n][1..n - i - 1] == s[i + 1..n - 1]
  {
    var t := s[i..n];
    var u, v := t[1..n - i - 1], s[i + 1..n - 1];
    assert forall k :: 0 <= k < |u| ==> u[k] == t[k + 1] && v[k] == s[i + 1 + k];
    assert u == v;
  }

  // "[$]" and the number in its place.
  lemma StepLast(text: string, es: seq<Edit>, key: string, i: nat, ts: nat, out: string, pk: string, j: nat, tj: nat)
    requires Aligned(text, es, key, i, ts, pk, j, tj) && ts < i < |key|
    requires At(key, i, |key|, LAST) && Bracket(text, es, key, i, ts, out).Piece?
    requires Reaches(text, es, key, i, i, ts, out)
    ensures j < |pk| && pk[j] == '['
    ensures
      var piece := Bracket(text, es, key, i, ts, out);
      if LastAt(text, es, key, i) == 0 then Bracket(text, es, pk, j, tj, out).NoPiece?
      else
        var n' := j + |Index(LastAt(text, es, key, i))|;
        && piece.next == i + 3
        && Bracket(text, es, pk, j, tj, out) == Piece(piece.out, n')
        && Aligned(text, es, key, i + 3, ts, pk, n', tj)
        && (LastsCount(text, es, key, i) <==> LastsCount(text, es, key, i + 3))
  {
    hide PinFrom, LastAt, At, Bracket, ToDec, Reaches;
    LastFits(key, i);
    var n := LastAt(text, es, key, i);
    PinAtLast(text, es, key, i);
    PartAt(pk, j, Index(n), PinFrom(text, es, key, i + 3));
    PinHead(text, es, key, i + 3);
    IndexDigits(pk, j, n);
    if n == 0 {
      ZeroRefused(text, es, pk, j, tj, out);
    } else {
      LastPiece(text, es, key, i, ts, out);
      NumberPiece(text, es, pk, j, tj, out, n);
      NoLastInside(key, i);
      assert forall p :: i <= p < i + 3 && At(key, p, |key|, LAST) ==> p == i;
    }
  }

  lemma NoLastInside(key: string, i: nat)
    requires i + 3 <= |key| && key[i + 1] == '$' && key[i + 2] == ']'
    ensures !At(key, i + 1, |key|, LAST) && !At(key, i + 2, |key|, LAST)
  {
    hide At;
    assert LAST[0] == '[';
    NotAt(key, i + 1, |key|, LAST, 0);
    NotAt(key, i + 2, |key|, LAST, 0);
  }

  lemma IndexDigits(pk: string, j: nat, n: nat)
    requires j + |Index(n)| <= |pk| && pk[j..j + |Index(n)|] == Index(n)
    ensures
      var e := j + |Index(n)| - 1;
      && j + 2 <= e && pk[j] == '[' && pk[e] == ']' && pk[j + 1..e] == ToDec(n) && PastDigits(pk, j + 1) == e
      && (pk[j + 1] == '0' <==> n == 0)
  {
    hide ToDec, PastDigits;
    var e, s := j + |Index(n)| - 1, pk[j..j + |Index(n)|];
    assert s[0] == pk[j] && s[|s| - 1] == pk[e];
    Inner(pk, j, e + 1);
    assert s[1..|s| - 1] == ToDec(n);
    assert forall k :: j + 1 <= k < e ==> pk[k] == pk[j + 1..e][k - j - 1];
    LeadingDigit(n);
    assert pk[j + 1..e][0] == pk[j + 1];
  }

  lemma ZeroRefused(text: string, es: seq<Edit>, pk: string, j: nat, tj: nat, out: string)
    requires tj < j && j + 1 < |pk| && pk[j + 1] == '0'
    ensures Bracket(text, es, pk, j, tj, out).NoPiece?
  {
    hide PastDigits, ToDec, TotalOf;
  }

  lemma LastPiece(text: string, es: seq<Edit>, key: string, i: nat, ts: nat, out: string)
    requires ts < i && i + 3 <= |key| && key[i + 1] == '$' && LastAt(text, es, key, i) > 0
    requires Bracket(text, es, key, i, ts, out).Piece? && Reaches(text, es, key, i, i, ts, out)
    ensures
      var item := out + "s" + "." + key[ts..i] + ToDec(LastAt(text, es, key, i));
      && Bracket(text, es, key, i, ts, out) == Piece(item, i + 3) && |item| < KEY_MAX
      && (i + 3 == |key| || key[i + 3] == '.')
  {
    hide PastDigits, ToDec, TotalOf, Reaches, LastAt;
    ReachedTotal(text, es, key, i, ts, out);
  }

  lemma NumberPiece(text: string, es: seq<Edit>, pk: string, j: nat, tj: nat, out: string, n: nat)
    requires tj < j && j + |Index(n)| <= |pk| && pk[j..j + |Index(n)|] == Index(n) && n > 0
    requires |out + "s" + "." + pk[tj..j] + ToDec(n)| < KEY_MAX
    requires var e := j + |Index(n)|; e == |pk| || pk[e] == '.'
    ensures Bracket(text, es, pk, j, tj, out) == Piece(out + "s" + "." + pk[tj..j] + ToDec(n), j + |Index(n)|)
  {
    hide PastDigits, ToDec, TotalOf;
    IndexDigits(pk, j, n);
    assert IsDigit(pk[j + 1..j + |Index(n)| - 1][0]);
  }

  // Every later "[$]" is on the way.
  ghost predicate AllReached(text: string, es: seq<Edit>, key: string, i: nat, ts: nat, out: string)
    requires ts <= i <= |key|
  {
    forall p :: i <= p && p + 3 <= |key| && key[p] == '[' ==> Reaches(text, es, key, p, i, ts, out)
  }

  // The two expansions, side by side.
  lemma {:induction false} ExpandsAlike(text: string, es: seq<Edit>, key: string, i: nat, ts: nat, out: string,
                                        pk: string, j: nat, tj: nat)
    requires Aligned(text, es, key, i, ts, pk, j, tj)
    requires ExpandFrom(text, es, key, i, ts, out).Expanded? && AllReached(text, es, key, i, ts, out)
    ensures LastsCount(text, es, key, i) ==>
      ExpandFrom(text, es, pk, j, tj, out) == ExpandFrom(text, es, key, i, ts, out)
    ensures !LastsCount(text, es, key, i) ==> ExpandFrom(text, es, pk, j, tj, out).Refused?
    decreases |key| - i, 1
  {
    hide Bracket, PinFrom, Reaches, LastAt, At, Aligned, LastsCount, ToDec;
    AlignedStart(text, es, key, i, ts, pk, j, tj);
    if i == |key| {
      AlignedEnd(text, es, key, i, ts, pk, j, tj);
    } else if key[i] != '[' {
      StepCopy(text, es, key, i, ts, pk, j, tj);
      forall p | i + 1 <= p && p + 3 <= |key| && key[p] == '['
        ensures Reaches(text, es, key, p, i + 1, if key[i] == '.' then i + 1 else ts, out + [key[i]])
      {
        ReachesCopy(text, es, key, p, i, ts, out);
      }
      var dot := key[i] == '.';
      ExpandsAlike(text, es, key, i + 1, if dot then i + 1 else ts, out + [key[i]],
                   pk, j + 1, if dot then j + 1 else tj);
    } else {
      BracketAlike(text, es, key, i, ts, out, pk, j, tj);
    }
  }

  lemma AlignedStart(text: string, es: seq<Edit>, key: string, i: nat, ts: nat, pk: string, j: nat, tj: nat)
    requires Aligned(text, es, key, i, ts, pk, j, tj)
    ensures ts <= i <= |key| && tj <= j <= |pk| && (i == ts <==> j == tj)
  {
  }

  lemma AlignedEnd(text: string, es: seq<Edit>, key: string, i: nat, ts: nat, pk: string, j: nat, tj: nat)
    requires Aligned(text, es, key, i, ts, pk, j, tj) && i == |key|
    ensures tj <= j == |pk| && LastsCount(text, es, key, i)
  {
    hide LastAt, At;
    PinHead(text, es, key, i);
  }

  lemma BracketAlike(text: string, es: seq<Edit>, key: string, i: nat, ts: nat, out: string,
                     pk: string, j: nat, tj: nat)
    requires Aligned(text, es, key, i, ts, pk, j, tj) && i < |key| && key[i] == '['
    requires ExpandFrom(text, es, key, i, ts, out).Expanded? && AllReached(text, es, key, i, ts, out)
    ensures LastsCount(text, es, key, i) ==>
      ExpandFrom(text, es, pk, j, tj, out) == ExpandFrom(text, es, key, i, ts, out)
    ensures !LastsCount(text, es, key, i) ==> ExpandFrom(text, es, pk, j, tj, out).Refused?
    decreases |key| - i, 0
  {
    hide Bracket, PinFrom, Reaches, LastAt, At, Aligned, LastsCount, ToDec;
    AlignedStart(text, es, key, i, ts, pk, j, tj);
    BracketShape(text, es, key, i, ts, out);
    var piece := Bracket(text, es, key, i, ts, out);
    ReachedPast(text, es, key, i, ts, out);
    if At(key, i, |key|, LAST) {
      LastFits(key, i);
      StepLast(text, es, key, i, ts, out, pk, j, tj);
      var n := LastAt(text, es, key, i);
      if n == 0 {
        NotCounted(text, es, key, i);
      } else {
        ExpandsAlike(text, es, key, i + 3, ts, piece.out, pk, j + |Index(n)|, tj);
      }
    } else {
      StepOther(text, es, key, i, ts, out, pk, j, tj);
      ExpandsAlike(text, es, key, piece.next, ts, piece.out, pk, j + (piece.next - i), tj);
    }
  }

  lemma NotCounted(text: string, es: seq<Edit>, key: string, i: nat)
    requires i < |key| && At(key, i, |key|, LAST) && LastAt(text, es, key, i) == 0
    ensures !LastsCount(text, es, key, i)
  {
    hide LastAt, At;
  }

  lemma ReachedPast(text: string, es: seq<Edit>, key: string, i: nat, ts: nat, out: string)
    requires ts < i < |key| && key[i] == '[' && AllReached(text, es, key, i, ts, out)
    requires Bracket(text, es, key, i, ts, out).Piece?
    ensures
      var piece := Bracket(text, es, key, i, ts, out);
      AllReached(text, es, key, piece.next, ts, piece.out)
  {
    hide Bracket, Reaches;
    BracketShape(text, es, key, i, ts, out);
    var piece := Bracket(text, es, key, i, ts, out);
    forall p | piece.next <= p && p + 3 <= |key| && key[p] == '['
      ensures Reaches(text, es, key, p, piece.next, ts, piece.out)
    {
      ReachesBracket(text, es, key, p, i, ts, out);
    }
  }

  // The two expanders agree: a key that expands, and does not grow too long with
  // its numbers, expands alike with the numbers in place of "[$]" exactly when
  // every "[$]" is of a list that has items.
  lemma PinnedExpandsAlike(text: string, es: seq<Edit>, key: string)
    requires Expand(text, es, key).Expanded? && Pinned(text, es, key).Some?
    ensures Expand(text, es, Pinned(text, es, key).value) == Expand(text, es, key) <==> LastsCount(text, es, key, 0)
  {
    hide ExpandFrom, PinFrom, LastAt, At;
    var pk := Pinned(text, es, key).value;
    assert key[0..0] == pk[0..0] == "" && pk[0..] == pk;
    ExpandsAlike(text, es, key, 0, 0, "", pk, 0, 0);
  }

  // How much longer the numbers make the key from i on: each takes the place of "$".
  function Growth(text: string, es: seq<Edit>, key: string, i: nat): nat
    requires i <= |key|
    decreases |key| - i
  {
    if i == |key| then 0
    else
      (if At(key, i, |key|, LAST) then |ToDec(LastAt(text, es, key, i))| - 1 else 0) + Growth(text, es, key, i + 1)
  }

  // How many "[$]" there are from i on.
  function Lasts(key: string, i: nat): nat
    requires i <= |key|
    decreases |key| - i
  {
    if i == |key| then 0 else (if At(key, i, |key|, LAST) then 1 else 0) + Lasts(key, i + 1)
  }

  lemma {:induction false} PinLength(text: string, es: seq<Edit>, key: string, i: nat)
    requires i <= |key|
    ensures |PinFrom(text, es, key, i)| == |key| - i + Growth(text, es, key, i)
    decreases |key| - i
  {
    hide At, LastAt, ToDec;
    if i == |key| {
    } else if At(key, i, |key|, LAST) {
      LastFits(key, i);
      NoLastInside(key, i);
      PinLength(text, es, key, i + 3);
      GrowthPast(text, es, key, i);
    } else {
      PinLength(text, es, key, i + 1);
    }
  }

  lemma GrowthPast(text: string, es: seq<Edit>, key: string, i: nat)
    requires i + 3 <= |key| && !At(key, i + 1, |key|, LAST) && !At(key, i + 2, |key|, LAST)
    ensures Growth(text, es, key, i + 1) == Growth(text, es, key, i + 3)
  {
    hide At, LastAt, ToDec;
    assert Growth(text, es, key, i + 2) == Growth(text, es, key, i + 3);
  }

  lemma {:induction false} GrowthBound(text: string, es: seq<Edit>, key: string, i: nat)
    requires i <= |key|
    ensures Growth(text, es, key, i) <= 9 * Lasts(key, i)
    decreases |key| - i
  {
    hide At, TotalFor, ToDec;
    if i == |key| {
    } else {
      GrowthBound(text, es, key, i + 1);
      TotalForFits(text, es, key[..i] + TOTAL);
      UintLength(LastAt(text, es, key, i));
    }
  }

  lemma TotalForFits(text: string, es: seq<Edit>, tkey: string)
    ensures TotalFor(text, es, tkey) <= UINT_MAX
  {
    hide Expand, Lookup, ValueOf;
  }

  // mxml_expand_key succeeds exactly when the key with its numbers has room, as it does
  // whenever there is room for ten digits in place of every "$"; and a key with no
  // "[$]" is given back as it is.
  lemma PinnedExactly(text: string, es: seq<Edit>, key: string)
    ensures Pinned(text, es, key).Some? <==> |key| + Growth(text, es, key, 0) < KEY_MAX
    ensures |key| + 9 * Lasts(key, 0) < KEY_MAX ==> Pinned(text, es, key).Some?
    ensures Lasts(key, 0) == 0 && |key| < KEY_MAX ==> Pinned(text, es, key) == Some(key)
  {
    hide PinFrom, Growth, Lasts;
    PinLength(text, es, key, 0);
    GrowthBound(text, es, key, 0);
    if Lasts(key, 0) == 0 {
      PinNone(text, es, key, 0);
      assert key[0..] == key;
    }
  }

  lemma {:induction false} PinNone(text: string, es: seq<Edit>, key: string, i: nat)
    requires i <= |key| && Lasts(key, i) == 0
    ensures PinFrom(text, es, key, i) == key[i..]
    decreases |key| - i
  {
    hide At, LastAt, ToDec;
    if i == |key| {
    } else {
      PinNone(text, es, key, i + 1);
    }
  }

  // What stands for the first "[$]" of a key, and for what follows it.
  lemma PinnedParts(text: string, es: seq<Edit>, key: string)
    ensures
      var p, pinned := NextPat(key, 0, |key|, LAST), PinFrom(text, es, key, 0);
      if p == |key| then pinned == key
      else
        && p + 3 <= |key|
        && pinned == key[..p] + "[" + ToDec(LastAt(text, es, key, p)) + "]" + PinFrom(text, es, key, p + 3)
  {
    hide NextPat, At, PinFrom, LastAt, ToDec;
    var p := NextPat(key, 0, |key|, LAST);
    PinStep(text, es, key, 0, "");
    assert "" + PinFrom(text, es, key, 0) == PinFrom(text, es, key, 0) && "" + key[0..] == key;
    if p < |key| {
      LastFits(key, p);
      var a, n, b := key[..p], ToDec(LastAt(text, es, key, p)), PinFrom(text, es, key, p + 3);
      assert "" + key[0..p] + ("[" + n + "]") + b == a + "[" + n + "]" + b;
    }
  }

  // After what is malformed "[$]" stands for 0.
  lemma MalformedCounts(text: string, es: seq<Edit>, key: string, p: nat)
    requires p <= |key| && !WellFormed(key[..p] + TOTAL)
    ensures LastAt(text, es, key, p) == 0
  {
    hide WellFormed, ExpandFrom;
    MalformedRefused(text, es, key[..p] + TOTAL);
  }
}
