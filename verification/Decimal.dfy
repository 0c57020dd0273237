// Unsigned integers in text: parse_uint, "%u", and the borrow in mxml_delete.
module Decimal {
  import opened Chars

  const UINT_MAX := 0xffff_ffff

  // The room for digits in totalbuf: 4 bytes of unsigned int, times 25 / 10, and 1.
  const UINT_MAX_LEN := 11

  function Digit(c: char): nat
    requires IsDigit(c)
  {
    (c - '0') as int
  }

  function DigitChar(d: nat): char
    requires d < 10
  {
    '0' + d as char
  }

  predicate AllDigits(s: string) {
    forall i :: 0 <= i < |s| ==> IsDigit(s[i])
  }

  // The number a string of digits denotes.
  function ValueOf(s: string): nat
    requires AllDigits(s)
  {
    if s == "" then 0 else 10 * ValueOf(s[..|s| - 1]) + Digit(s[|s| - 1])
  }

  // snprintf("%u")
  function ToDec(n: nat): (s: string)
    ensures s != "" && AllDigits(s)
  {
    if n < 10 then [DigitChar(n)] else ToDec(n / 10) + [DigitChar(n % 10)]
  }

  // The position after a run of digits.
  function PastDigits(s: string, i: nat): (j: nat)
    requires i <= |s|
    ensures i <= j <= |s|
    ensures forall k :: i <= k < j ==> IsDigit(s[k])
    ensures j < |s| ==> !IsDigit(s[j])
    decreases |s| - i
  {
    if i == |s| || !IsDigit(s[i]) then i else PastDigits(s, i + 1)
  }

  // Digits with white space around them, and nothing else, of a value that fits.
  function ParseUint(s: string): Option<nat> {
    var i := PastWhite(s, 0, |s|);
    var j := PastDigits(s, i);
    if i < j && PastWhite(s, j, |s|) == |s| && ValueOf(s[i..j]) <= UINT_MAX
    then Some(ValueOf(s[i..j])) else None
  }

  // The number a total stands for: 0 for what is no number.
  function CountOf(s: string): nat {
    match ParseUint(s)
    case None => 0
    case Some(n) => n
  }

  // The digits at first, or None when their value does not fit.
  method ParseDigits(s: string, first: nat) returns (r: Option<nat>, n: nat)
    requires first < |s| && IsDigit(s[first])
    ensures
      var j := PastDigits(s, first);
      if ValueOf(s[first..j]) <= UINT_MAX then n == j && r == Some(ValueOf(s[first..j])) else r == None
  {
    hide ValueOf;
    n := first;
    var val: nat := 0;
    ghost var last := PastDigits(s, first);
    assert s[first..first] == "";
    EmptyValue();
    while n < |s| && IsDigit(s[n])
      invariant first <= n <= last && PastDigits(s, n) == last
      invariant val == ValueOf(s[first..n]) <= UINT_MAX
    {
      ValueGrows(s, first, n, last);
      if val > UINT_MAX / 10 || (val == UINT_MAX / 10 && Digit(s[n]) > UINT_MAX % 10) {
        return None, n;
      }
      val := val * 10 + Digit(s[n]);
      n := n + 1;
    }
    r := Some(val);
  }

  method ParseUintOf(s: string) returns (r: Option<nat>)
    ensures r == ParseUint(s)
  {
    hide ValueOf;
    var n := 0;
    while n < |s| && IsSpace(s[n])
      invariant n <= |s| && PastWhite(s, n, |s|) == PastWhite(s, 0, |s|)
    {
      n := n + 1;
    }
    if !(n < |s| && IsDigit(s[n])) {
      return None;
    }
    r, n := ParseDigits(s, n);
    if r.None? {
      return;
    }
    ghost var last := n;
    while n < |s| && IsSpace(s[n])
      invariant last <= n <= |s| && PastWhite(s, n, |s|) == PastWhite(s, last, |s|)
    {
      n := n + 1;
    }
    if n < |s| {
      return None;
    }
  }

  lemma EmptyValue()
    ensures ValueOf("") == 0
  {
  }

  lemma {:induction false} ValueStep(s: string, first: nat, n: nat)
    requires first <= n < |s| && AllDigits(s[first..n + 1])
    ensures AllDigits(s[first..n]) && IsDigit(s[n])
    ensures ValueOf(s[first..n + 1]) == 10 * ValueOf(s[first..n]) + Digit(s[n])
  {
    var t := s[first..n + 1];
    assert t[..|t| - 1] == s[first..n] && t[|t| - 1] == s[n];
    assert forall i :: 0 <= i < |t| - 1 ==> s[first..n][i] == t[i];
  }

  // The value of more digits is no smaller, and one more digit counts ten times.
  lemma {:induction false} ValueGrows(s: string, first: nat, n: nat, last: nat)
    requires first <= n < last <= |s| && AllDigits(s[first..last])
    ensures AllDigits(s[first..n]) && AllDigits(s[first..n + 1]) && IsDigit(s[n])
    ensures ValueOf(s[first..n + 1]) == 10 * ValueOf(s[first..n]) + Digit(s[n])
    ensures ValueOf(s[first..n + 1]) <= ValueOf(s[first..last])
    decreases last - n
  {
    hide ValueOf;
    var t := s[first..n + 1];
    forall i | 0 <= i < |t|
      ensures IsDigit(t[i])
    {
      assert t[i] == s[first..last][i];
    }
    ValueStep(s, first, n);
    if n + 1 < last {
      ValueGrows(s, first, n + 1, last);
    }
  }

  lemma {:induction false} ValueToDec(n: nat)
    ensures ValueOf(ToDec(n)) == n
  {
    var s := ToDec(n);
    if n < 10 {
      assert s[..0] == "";
    } else {
      ValueToDec(n / 10);
      assert s[..|s| - 1] == ToDec(n / 10);
    }
  }

  // What "%u" prints, parse_uint reads.
  lemma ParseToDec(n: nat)
    requires n <= UINT_MAX
    ensures ParseUint(ToDec(n)) == Some(n)
  {
    var s := ToDec(n);
    assert IsDigit(s[0]);
    PastAllDigits(s, 0);
    assert s[0..|s|] == s;
    ValueToDec(n);
  }

  // s[i..j] is digits, with white space and nothing else around them.
  predicate Padded(s: string, i: nat, j: nat) {
    && i < j <= |s|
    && (forall k :: 0 <= k < i ==> IsSpace(s[k]))
    && (forall k :: i <= k < j ==> IsDigit(s[k]))
    && (forall k :: j <= k < |s| ==> IsSpace(s[k]))
  }

  lemma {:induction false} PastWhiteIs(s: string, from: nat, i: nat)
    requires from <= i <= |s| && (forall k :: from <= k < i ==> IsSpace(s[k])) && (i < |s| ==> !IsSpace(s[i]))
    ensures PastWhite(s, from, |s|) == i
    decreases i - from
  {
    if from == i {
    } else {
      PastWhiteIs(s, from + 1, i);
    }
  }

  // The value parse_uint gives is that of the digits.
  lemma ParsePadded(s: string, i: nat, j: nat)
    requires Padded(s, i, j)
    ensures ParseUint(s) == if ValueOf(s[i..j]) <= UINT_MAX then Some(ValueOf(s[i..j])) else None
  {
    hide ValueOf;
    PastWhiteIs(s, 0, i);
    PastWhiteIs(s, j, |s|);
    assert PastDigits(s, i) == j;
  }

  lemma {:induction false} WhitePassed(s: string, from: nat)
    requires from <= |s|
    ensures forall k :: from <= k < PastWhite(s, from, |s|) ==> IsSpace(s[k])
    decreases |s| - from
  {
    if from < |s| && IsSpace(s[from]) { WhitePassed(s, from + 1); }
  }

  // It accepts exactly padded digits of a value that fits.
  lemma ParseExactly(s: string)
    ensures ParseUint(s).Some? <==> exists i: nat, j: nat :: Padded(s, i, j) && ValueOf(s[i..j]) <= UINT_MAX
  {
    hide ValueOf;
    forall i: nat, j: nat | Padded(s, i, j)
      ensures ParseUint(s) == if ValueOf(s[i..j]) <= UINT_MAX then Some(ValueOf(s[i..j])) else None
    {
      ParsePadded(s, i, j);
    }
    if ParseUint(s).Some? {
      var i := PastWhite(s, 0, |s|);
      var j := PastDigits(s, i);
      WhitePassed(s, 0);
      WhitePassed(s, j);
      assert Padded(s, i, j);
    }
  }

  // White space is any of the six that isspace knows.
  lemma PaddedOnItsLine()
    ensures ParseUint(" \t\n" + ['\U{0B}', '\U{0C}'] + "\r12\n") == Some(12)
  {
    var s := " \t\n" + ['\U{0B}', '\U{0C}'] + "\r12\n";
    assert Padded(s, 6, 8);
    ParsePadded(s, 6, 8);
    assert s[6..8] == ['1', '2'] && ['1', '2'][..1] == ['1'] && ['1'][..0] == [];
    assert ValueOf(['1']) == 1;
  }

  lemma {:induction false} PastAllDigits(s: string, i: nat)
    requires i <= |s| && AllDigits(s)
    ensures PastDigits(s, i) == |s|
  {
  }

  // Where the digits at the end of s begin.
  function DigitsStart(s: string): (j: nat)
    ensures j <= |s| && AllDigits(s[j..])
    ensures j > 0 ==> !IsDigit(s[j - 1])
  {
    if s == "" || !IsDigit(s[|s| - 1]) then |s|
    else
      var j := DigitsStart(s[..|s| - 1]);
      assert s[j..] == s[..|s| - 1][j..] + [s[|s| - 1]];
      j
  }

  // One less, digit by digit from the right; None when there is nothing to
  // borrow from.
  function Borrow(ds: string): (r: Option<string>)
    requires AllDigits(ds)
    ensures r.Some? ==> |r.value| == |ds| > 0
  {
    if ds == "" then None
    else
      var init, last := ds[..|ds| - 1], ds[|ds| - 1];
      if last != '0' then Some(init + [last - 1 as char])
      else
        match Borrow(init)
        case None => None
        case Some(x) => Some(x + "9")
  }

  // The new total: "09" becomes "9", and nothing is left of "0".
  function Decremented(ds: string): string
    requires AllDigits(ds)
  {
    match Borrow(ds)
    case None => ""
    case Some(x) => if x[0] == '0' then x[1..] else x
  }

  lemma {:induction false} BorrowToDec(n: nat)
    requires n >= 1
    ensures Borrow(ToDec(n)).Some?
    ensures Borrow(ToDec(n)).value == ToDec(n - 1) || (n >= 10 && Borrow(ToDec(n)).value == "0" + ToDec(n - 1))
  {
    var ds := ToDec(n);
    if n < 10 {
      assert ds[..0] == "" && ds[0] == DigitChar(n);
      assert Borrow(ds).value == "" + [DigitChar(n - 1)];
    } else {
      var m := n / 10;
      assert ds[..|ds| - 1] == ToDec(m) && ds[|ds| - 1] == DigitChar(n % 10);
      if n % 10 != 0 {
        assert (n - 1) / 10 == m && (n - 1) % 10 == n % 10 - 1;
      } else {
        BorrowToDec(m);
        BorrowTens(n);
      }
    }
  }

  lemma {:induction false} BorrowTens(n: nat)
    requires n >= 10 && n % 10 == 0
    requires Borrow(ToDec(n / 10)).Some?
    requires Borrow(ToDec(n / 10)).value == ToDec(n / 10 - 1) || Borrow(ToDec(n / 10)).value == "0" + ToDec(n / 10 - 1)
    ensures Borrow(ToDec(n)).Some?
    ensures Borrow(ToDec(n)).value == ToDec(n - 1) || Borrow(ToDec(n)).value == "0" + ToDec(n - 1)
  {
    hide Borrow;
    var m, ds, y := n / 10, ToDec(n), Borrow(ToDec(n / 10)).value;
    assert ds[..|ds| - 1] == ToDec(m) && ds[|ds| - 1] == '0';
    BorrowZero(ds);
    assert (n - 1) / 10 == m - 1 && (n - 1) % 10 == 9;
    if m == 1 {
      assert y == "0" || y == "00";
      OneBorrow();
    } else {
      assert ToDec(n - 1) == ToDec(m - 1) + "9";
      assert y == "0" + ToDec(m - 1) ==> y + "9" == "0" + (ToDec(m - 1) + "9");
    }
  }

  lemma OneBorrow()
    ensures Borrow("1") == Some("0")
  {
    assert "1"[..0] + ['0'] == "0";
  }

  lemma BorrowZero(ds: string)
    requires AllDigits(ds) && ds != "" && ds[|ds| - 1] == '0'
    requires Borrow(ds[..|ds| - 1]).Some?
    ensures Borrow(ds) == Some(Borrow(ds[..|ds| - 1]).value + "9")
  {
  }

  lemma {:induction false} LeadingDigit(n: nat)
    ensures ToDec(n)[0] == '0' <==> n == 0
  {
    if n >= 10 { LeadingDigit(n / 10); }
  }

  // The right-to-left borrow takes "N" to "N-1", and "1" to nothing.
  lemma DecrementToDec(n: nat)
    ensures Decremented(ToDec(n)) == if n <= 1 then "" else ToDec(n - 1)
  {
    hide Borrow;
    if n == 0 {
      ZeroBorrow();
      assert ToDec(0) == "0";
    } else {
      BorrowToDec(n);
      LeadingDigit(n - 1);
      assert ("0" + ToDec(n - 1))[1..] == ToDec(n - 1);
    }
  }

  lemma ZeroBorrow()
    ensures Borrow("0") == None
  {
    assert "0"[..0] == "";
  }

  function Nines(n: nat): (s: string)
    ensures |s| == n
  {
    if n == 0 then "" else "9" + Nines(n - 1)
  }

  lemma {:induction false} NinesEnd(n: nat)
    ensures Nines(n) + "9" == Nines(n + 1)
  {
    if n == 0 {
    } else {
      NinesEnd(n - 1);
    }
  }

  // The borrow, seen from the left.
  lemma {:induction false} BorrowFront(c: char, ds: string)
    requires IsDigit(c) && AllDigits(ds)
    ensures AllDigits([c] + ds)
    ensures Borrow(ds).Some? ==> Borrow([c] + ds) == Some([c] + Borrow(ds).value)
    ensures Borrow(ds).None? && c == '0' ==> Borrow([c] + ds) == None
    ensures Borrow(ds).None? && c != '0' ==> Borrow([c] + ds) == Some([c - 1 as char] + Nines(|ds|))
  {
    var all := [c] + ds;
    if ds == "" {
      assert all == [c] && all[..0] == "" && all[0] == c;
      assert "" + [c - 1 as char] == [c - 1 as char] + Nines(0);
    } else {
      var init, last := ds[..|ds| - 1], ds[|ds| - 1];
      BorrowFront(c, init);
      NinesEnd(|init|);
      assert all[..|all| - 1] == [c] + init && all[|all| - 1] == last;
      if last != '0' {
        assert ([c] + init) + [last - 1 as char] == [c] + (init + [last - 1 as char]);
      } else if Borrow(init).Some? {
        assert ([c] + Borrow(init).value) + "9" == [c] + (Borrow(init).value + "9");
      } else {
        assert [c - 1 as char] + Nines(|init|) + "9" == [c - 1 as char] + Nines(|ds|);
      }
    }
  }

  // The decrement in mxml_delete: the digits at the end of ekey less one, and
  // the position that the loop stops at. More digits than totalbuf has room for
  // would be written before its start.
  method DecrementTail(ekey: string) returns (fits: bool, total: string, i: nat)
    ensures fits == (|ekey| - DigitsStart(ekey) <= UINT_MAX_LEN)
    ensures fits ==> total == Decremented(ekey[DigitsStart(ekey)..])
    ensures fits ==> i <= |ekey| && i == if DigitsStart(ekey) > 0 then DigitsStart(ekey) - 1 else 0
  {
    hide Borrow, DigitsStart, ValueOf, ToDec, Nines;
    var carry;
    var totalbuf := new char[UINT_MAX_LEN + 1];
    var j: nat;
    fits, carry, j, i := FillTotal(ekey, totalbuf);
    if !fits {
      return false, "", i;
    }
    if carry {
      j := UINT_MAX_LEN;
    }
    if totalbuf[j] == '0' {
      j := j + 1;
    }
    total := totalbuf[j..UINT_MAX_LEN];
  }

  // The digits so far, less the carry that is still to be taken from the rest.
  ghost predicate Taken(ds: string, carry: bool, tail: string)
    requires AllDigits(ds)
  {
    (carry <==> Borrow(ds).None?) && tail == if carry then Nines(|ds|) else Borrow(ds).value
  }

  // A digit, and whether there is still a carry, after taking the carry from it.
  function Take(ch: char, carry: bool): (char, bool)
    requires IsDigit(ch)
  {
    if !carry then (ch, false) else if ch == '0' then ('9', true) else (ch - 1 as char, false)
  }

  lemma TakeStep(ch: char, ds: string, carry: bool, tail: string)
    requires IsDigit(ch) && AllDigits(ds) && Taken(ds, carry, tail)
    ensures AllDigits([ch] + ds) && Taken([ch] + ds, Take(ch, carry).1, [Take(ch, carry).0] + tail)
  {
    hide Borrow;
    BorrowFront(ch, ds);
  }

  // The right-to-left loop: totalbuf[j..] is the digits of ekey less the carry.
  method FillTotal(ekey: string, totalbuf: array<char>) returns (fits: bool, carry: bool, j: nat, i: nat)
    requires totalbuf.Length == UINT_MAX_LEN + 1
    modifies totalbuf
    ensures fits == (|ekey| - DigitsStart(ekey) <= UINT_MAX_LEN)
    ensures fits ==>
      && i <= |ekey| && i == (if DigitsStart(ekey) > 0 then DigitsStart(ekey) - 1 else 0)
      && j == UINT_MAX_LEN - (|ekey| - DigitsStart(ekey)) && totalbuf[UINT_MAX_LEN] == '\0'
      && Taken(ekey[DigitsStart(ekey)..], carry, totalbuf[j..UINT_MAX_LEN])
  {
    hide DigitsStart, Taken, AllDigits;
    i, j := |ekey|, UINT_MAX_LEN;
    carry := true;
    totalbuf[j] := '\0';
    NothingTaken();
    assert ekey[i..] == "" && totalbuf[j..UINT_MAX_LEN] == "";
    while i > 0
      invariant DigitsStart(ekey) <= i <= |ekey| && AllDigits(ekey[i..])
      invariant |ekey| - i <= UINT_MAX_LEN && j == UINT_MAX_LEN - (|ekey| - i)
      invariant totalbuf[UINT_MAX_LEN] == '\0' && Taken(ekey[i..], carry, totalbuf[j..UINT_MAX_LEN])
    {
      var ch := ekey[i - 1];
      DigitsAround(ekey, i);
      if !IsDigit(ch) {
        i := i - 1;
        break;
      }
      if j == 0 {
        return false, carry, j, i;
      }
      ghost var rest, tail := ekey[i..], totalbuf[j..UINT_MAX_LEN];
      TakeStep(ch, rest, carry, tail);
      i := i - 1;
      if carry {
        if ch == '0' {
          ch := '9';
        } else {
          ch := ch - 1 as char;
          carry := false;
        }
      }
      j := j - 1;
      totalbuf[j] := ch;
      assert ekey[i..] == [ekey[i]] + rest && totalbuf[j..UINT_MAX_LEN] == [ch] + tail;
    }
    fits := true;
  }

  lemma NothingTaken()
    ensures AllDigits("") && Taken("", true, "")
  {
  }

  // Where the digits go on to the left of i.
  lemma DigitsAround(s: string, i: nat)
    requires DigitsStart(s) <= i <= |s| && i > 0
    ensures IsDigit(s[i - 1]) <==> DigitsStart(s) < i
  {
    hide DigitsStart;
    DigitsFrom(s, DigitsStart(s));
  }

  function Pow10(k: nat): (p: nat)
    ensures p > 0
  {
    if k == 0 then 1 else 10 * Pow10(k - 1)
  }

  lemma {:induction false} ToDecLength(n: nat, digits: nat)
    requires n < Pow10(digits) && digits > 0
    ensures |ToDec(n)| <= digits
    decreases digits
  {
    if n >= 10 { ToDecLength(n / 10, digits - 1); }
  }

  lemma UintLength(n: nat)
    requires n <= UINT_MAX
    ensures |ToDec(n)| <= 10
  {
    assert Pow10(4) == 10_000;
    assert Pow10(8) == 100_000_000;
    assert Pow10(10) == 10_000_000_000;
    ToDecLength(n, 10);
  }

  lemma ZeroDec()
    ensures ToDec(0) == "0"
  {
    assert DigitChar(0) == '0';
  }

  lemma ToDecInjective(a: nat, b: nat)
    ensures ToDec(a) == ToDec(b) <==> a == b
  {
    ValueToDec(a);
    ValueToDec(b);
  }

  lemma TimesTen(a: nat, p: nat)
    ensures a * (10 * p) == 10 * (a * p)
  {
  }

  lemma {:induction false} ValueJoin(a: string, b: string)
    requires AllDigits(a) && AllDigits(b)
    ensures AllDigits(a + b) && ValueOf(a + b) == ValueOf(a) * Pow10(|b|) + ValueOf(b)
  {
    if b == "" {
      assert a + b == a;
    } else {
      var init := b[..|b| - 1];
      ValueJoin(a, init);
      assert (a + b)[..|a + b| - 1] == a + init && (a + b)[|a + b| - 1] == b[|b| - 1];
      TimesTen(ValueOf(a), Pow10(|init|));
    }
  }

  // The borrow takes one from any number but 0, and leaves nothing of that.
  lemma {:induction false} BorrowValue(ds: string)
    requires AllDigits(ds)
    ensures Borrow(ds).Some? <==> ValueOf(ds) > 0
    ensures Borrow(ds).Some? ==> AllDigits(Borrow(ds).value) && ValueOf(Borrow(ds).value) == ValueOf(ds) - 1
  {
    if ds == "" {
    } else {
      var init, last := ds[..|ds| - 1], ds[|ds| - 1];
      BorrowValue(init);
      if last != '0' {
        var x := init + [last - 1 as char];
        assert x[..|x| - 1] == init;
      } else if Borrow(init).Some? {
        var x := Borrow(init).value + "9";
        assert x[..|x| - 1] == Borrow(init).value;
      }
    }
  }

  lemma OneDigit(c: char)
    requires IsDigit(c)
    ensures ValueOf([c]) == Digit(c)
  {
    assert [c][..0] == "";
  }

  lemma DecrementValue(ds: string)
    requires AllDigits(ds)
    ensures AllDigits(Decremented(ds))
    ensures ValueOf(Decremented(ds)) == if ValueOf(ds) > 0 then ValueOf(ds) - 1 else 0
  {
    hide Borrow, ValueOf;
    BorrowValue(ds);
    EmptyValue();
    if Borrow(ds).Some? {
      var x := Borrow(ds).value;
      assert x == [x[0]] + x[1..];
      ValueJoin([x[0]], x[1..]);
      OneDigit(x[0]);
    }
  }

  lemma ProductPositive(a: nat, p: nat)
    requires p > 0
    ensures a * p > 0 <==> a > 0
  {
    assert a > 0 ==> a * p == (a - 1) * p + p && (a - 1) * p >= 0;
  }

  lemma DigitsFrom(s: string, j: nat)
    requires j <= |s| && AllDigits(s[j..])
    ensures forall i :: j <= i < |s| ==> IsDigit(s[i])
  {
    forall i | j <= i < |s|
      ensures IsDigit(s[i])
    {
      assert s[j..][i - j] == s[i];
    }
  }

  lemma DigitsAre(s: string, j: nat)
    requires 0 < j <= |s| && AllDigits(s[j..]) && !IsDigit(s[j - 1])
    ensures DigitsStart(s) == j
  {
    hide AllDigits;
    DigitsFrom(s, j);
    DigitsFrom(s, DigitsStart(s));
  }

  lemma DigitsAfter(head: string, tail: string)
    requires head != "" && !IsDigit(head[|head| - 1]) && AllDigits(tail)
    ensures DigitsStart(head + tail) == |head| && (head + tail)[|head|..] == tail
  {
    hide DigitsStart, AllDigits;
    DigitsAre(head + tail, |head|);
  }
}
