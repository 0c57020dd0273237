// For which tags deleting "t[$]" leaves the list right: the borrow in mxml_delete
// takes the digits that the tag itself ends in for a part of the item's number.
module ListTags {
  import opened Chars
  import opened KeyPath
  import opened Decimal
  import opened Codec
  import opened DocFind
  import opened MxmlInt
  import opened Find
  import opened Ekey
  import opened Api
  import opened Tree
  import opened TreeText
  import opened Reachable
  import opened ApiReach
  import opened Lists

  // The tag ends in no digits; or it is not all digits, they denote 0, the item is
  // not the only one, and with its number they fit totalbuf.
  predicate PopsRight(base: string, n: nat) {
    var ds := TagDigits(base);
    ds == "" || (MixedTag(base) && ValueOf(ds) == 0 && n >= 2 && NumberFits(base, n))
  }

  lemma {:induction false} BorrowAfter(a: string, b: string)
    requires AllDigits(a) && AllDigits(b) && Borrow(b).Some?
    ensures AllDigits(a + b) && Borrow(a + b) == Some(a + Borrow(b).value)
  {
    hide Borrow;
    if a == "" {
      assert a + b == b && a + Borrow(b).value == Borrow(b).value;
    } else {
      BorrowAfter(a[1..], b);
      BorrowFront(a[0], a[1..] + b);
      assert [a[0]] + (a[1..] + b) == a + b;
      assert [a[0]] + (a[1..] + Borrow(b).value) == a + Borrow(b).value;
    }
  }

  lemma {:induction false} ZeroDigits(s: string)
    requires AllDigits(s) && ValueOf(s) == 0
    ensures forall i :: 0 <= i < |s| ==> s[i] == '0'
  {
    if s == "" {
    } else {
      ZeroDigits(s[..|s| - 1]);
    }
  }

  lemma DigitsParse(s: string)
    requires AllDigits(s) && s != ""
    ensures ParseUint(s) == if ValueOf(s) <= UINT_MAX then Some(ValueOf(s)) else None
  {
    hide ValueOf, ParseUint;
    assert s[0..|s|] == s;
    ParsePadded(s, 0, |s|);
  }

  // The number that is left is one less exactly for a tag whose digits denote 0.
  lemma LeftValue(ds: string, n: nat)
    requires AllDigits(ds) && n >= 1
    ensures
      var left := Decremented(ds + ToDec(n));
      AllDigits(left) && |left| >= |ds| && (ValueOf(left) == n - 1 <==> ValueOf(ds) == 0) && ValueOf(left) >= n - 1
  {
    hide ToDec, ValueOf, Decremented;
    var dec := ToDec(n);
    ValueJoin(ds, dec);
    ValueToDec(n);
    DecrementValue(ds + dec);
    ProductPositive(ValueOf(ds), Pow10(|dec|));
    LeftLength(ds + dec);
  }

  lemma LeftLength(x: string)
    requires AllDigits(x) && ValueOf(x) > 0
    ensures |Decremented(x)| >= |x| - 1
  {
    hide Borrow, ValueOf;
    BorrowValue(x);
  }

  lemma LeftRightExactly(base: string, n: nat)
    requires 1 <= n <= UINT_MAX
    ensures LeftRight(CountedDown(base, n), n) <==> TagDigits(base) == "" || (ValueOf(TagDigits(base)) == 0 && n >= 2)
  {
    hide ToDec, ValueOf, Decremented, TagDigits, ParseUint;
    var ds, left := TagDigits(base), CountedDown(base, n);
    LeftValue(ds, n);
    EmptyValue();
    if left != "" {
      DigitsParse(left);
    }
    if ds == "" {
      assert ds + ToDec(n) == ToDec(n);
      DecrementToDec(n);
    }
  }

  // The new total is as it would be printed only where the borrow leaves just one
  // leading zero.
  predicate CountsRight(base: string, n: nat) {
    var ds := TagDigits(base);
    ds == "" || (MixedTag(base) && ds == "0" && n >= 2 && |ToDec(n)| == |ToDec(n - 1)|)
  }

  lemma CountedCanonical(ds: string, n: nat)
    requires AllDigits(ds) && n >= 1
    ensures
      Decremented(ds + ToDec(n)) == (if n == 1 then "" else ToDec(n - 1)) <==>
        ds == "" || (ds == "0" && n >= 2 && |ToDec(n)| == |ToDec(n - 1)|)
  {
    hide ToDec, ValueOf, Decremented;
    var left := Decremented(ds + ToDec(n));
    LeftValue(ds, n);
    if ds == "" {
      assert ds + ToDec(n) == ToDec(n);
      DecrementToDec(n);
    } else if n > 1 {
      ValueToDec(n - 1);
      if ValueOf(ds) == 0 {
        ZerosBefore(ds, n);
      } else {
        ZeroValue(ds);
      }
    }
  }

  lemma ZeroValue(ds: string)
    requires AllDigits(ds) && ValueOf(ds) > 0
    ensures ds != "0"
  {
    OneDigit('0');
  }

  lemma ZerosBefore(ds: string, n: nat)
    requires AllDigits(ds) && ds != "" && ValueOf(ds) == 0 && n >= 2
    ensures Decremented(ds + ToDec(n)) == ToDec(n - 1) <==> ds == "0" && |ToDec(n)| == |ToDec(n - 1)|
  {
    hide ToDec, ValueOf, Borrow;
    var x := ds + ToDec(n);
    BorrowToDec(n);
    var y := Borrow(ToDec(n)).value;
    BorrowAfter(ds, ToDec(n));
    ZeroDigits(ds);
    assert (ds + y)[0] == '0' && (ds + y)[1..] == ds[1..] + y;
    assert Decremented(x) == ds[1..] + y;
    assert |ds| == 1 ==> ds == "0" && ds[1..] + y == y;
  }

  // A tag of digits only: the whole of "t12" is taken for the number, and the total
  // is looked for one dot too far to the left.
  lemma BesideDigits(base: string, n: nat)
    requires ListBase(base) && !MixedTag(base)
    ensures TotalBeside(ItemKey(base, n)) == base[..LastDot(base) + 1] + "total"
    ensures LastDot(base) + 1 < |base| && IsDigit(base[LastDot(base) + 1])
  {
    hide LastDot, ToDec, DigitsStart, LastTag, ItemKey, TotalBeside, ParentKey, MixedTag, ListBase, AllDigits;
    var k, front := ItemKey(base, n), base + "s.";
    NonEmpty(base);
    AllTagDigits(base);
    ItemParts(base, n);
    BothDigits(LastTag(base), ToDec(n));
    DigitsAfter(front, LastTag(base) + ToDec(n));
    BesideAt(k, |base| + 1);
    DotBeforeS(base);
    FrontParts(base, k, LastDot(base) + 1);
  }

  lemma FrontParts(base: string, k: string, d: nat)
    requires d <= |base| && |base| + 2 <= |k| && k[..|base| + 2] == base + "s."
    ensures k[..|base| + 1] == base + "s" && k[..d] == base[..d]
  {
    assert k[..|base| + 1] == k[..|base| + 2][..|base| + 1];
    assert k[..d] == k[..|base| + 2][..d];
  }

  lemma AllTagDigits(base: string)
    requires ListBase(base) && !MixedTag(base)
    ensures AllDigits(LastTag(base)) && LastDot(base) + 1 < |base| && IsDigit(base[LastDot(base) + 1])
  {
    hide LastDot, DigitsStart, AllDigits;
    var d := LastDot(base) + 1;
    DigitsFrom(base, DigitsStart(base));
    DigitsOnly(base, d);
  }

  lemma DigitsOnly(s: string, d: nat)
    requires d <= |s| && forall i :: d <= i < |s| ==> IsDigit(s[i])
    ensures AllDigits(s[d..])
  {
  }

  lemma DotBeforeS(base: string)
    ensures LastDot(base + "s") == LastDot(base)
  {
    assert (base + "s")[..|base + "s"| - 1] == base;
  }

  // That total is not the list's.
  lemma BesideElsewhere(base: string, n: nat)
    requires ListBase(base) && !MixedTag(base)
    ensures !SelfOrChild(TotalKeyOf(base), TotalBeside(ItemKey(base, n)))
  {
    hide LastDot, TotalBeside, ItemKey, ToDec, LastTag;
    BesideDigits(base, n);
    var d := LastDot(base) + 1;
    var t, b := TotalKeyOf(base), base[..LastDot(base) + 1] + "total";
    assert t[d] == base[d] && b[d] == 't';
  }

  // So the list's own total stays.
  lemma PopBeside(text: string, es: seq<Edit>, base: string, items: seq<Hit>)
    requires ListBase(base) && !MixedTag(base) && Consistent(text, es, base, items) && items != []
    ensures !Consistent(text, DoDelete(text, es, base + LAST).edits, base, items[..|items| - 1])
  {
    hide ExpandFrom, LastDot, ToDec, ItemKey, TotalKeyOf, Lookup, ListBase, MixedTag, DoDelete, DigitsFit, CountDown,
         TotalOf,
         ValidEdits, EndsWith, SelfOrChild, TotalBeside, ParentKey;
    var t, n := TotalKeyOf(base), |items|;
    var k, es' := ItemKey(base, n), DoDelete(text, es, base + LAST).edits;
    TopThere(text, es, base, items);
    assert base + LAST == base + ['[', '$', ']'];
    ExpandBracket(text, es, base, '$');
    LastIsNoTotal(base);
    DeleteLast(text, es, base + LAST, k);
    TotalShape(base);
    ItemShape(base, n);
    TotalIsNoItem(base, n);
    SiblingApart(base, t, k);
    BesideElsewhere(base, n);
    NonEmpty(base);
    DeleteValid(text, es, base + LAST);
    CountDownElsewhere(text, es, es', k, t);
    SameTotalOf(text, es, es', t);
  }

  lemma SameTotalOf(text: string, es: seq<Edit>, es': seq<Edit>, t: string)
    requires Lookup(text, es', t) == Lookup(text, es, t)
    ensures TotalOf(text, es', t) == TotalOf(text, es, t)
  {
  }

  // Counting down records nothing but at the key beside.
  lemma CountDownElsewhere(text: string, es: seq<Edit>, es': seq<Edit>, k: string, q: string)
    requires ValidEdits(text, es') && Rooted(q) && !SelfOrChild(q, k) && !SelfOrChild(q, TotalBeside(k))
    requires var deleted := [Edit(EditDelete, k, "")] + es; es' == deleted || es' == CountDown(text, deleted, k)
    ensures Lookup(text, es', q) == Lookup(text, es, q)
  {
    hide Lookup, ValidEdits, TotalBeside, Decremented, DigitsStart, SelfOrChild;
    SelfIsChild(q);
    var deleted := [Edit(EditDelete, k, "")] + es;
    if es' == deleted {
      OneStep(text, es', es, q);
    } else {
      TwoSteps(text, es', es, q);
    }
  }

  lemma SelfIsChild(q: string)
    ensures SelfOrChild(q, q)
  {
  }

  lemma OneStep(text: string, o: seq<Edit>, es: seq<Edit>, q: string)
    requires |o| == |es| + 1 && o[1..] == es && ValidEdits(text, o) && Rooted(q)
    ensures Lookup(text, o, q) == Overlaid(o[0], q, Lookup(text, es, q))
  {
    hide FindOver, Overlaid;
    LookupStep(text, o, q);
  }

  // For every list that is consistent and not empty, and every tag: deleting "t[$]"
  // takes the last item off and leaves the list consistent if and only if the tag
  // and the number of items are as PopsRight says.
  lemma PopExactly(text: string, es: seq<Edit>, base: string, items: seq<Hit>)
    requires ListBase(base) && Consistent(text, es, base, items) && items != []
    ensures
      var o := DoDelete(text, es, base + LAST);
      (o.status == Ok && Consistent(text, o.edits, base, items[..|items| - 1])) <==> PopsRight(base, |items|)
  {
    hide Consistent, DoDelete, ListBase, MixedTag, NumberFits, CountedDown, LeftRight, TagDigits, Lookup, ToDec,
         ValueOf;
    var n := |items|;
    TopThere(text, es, base, items);
    NoDigitsMixed(base, n);
    if !MixedTag(base) {
      PopBeside(text, es, base, items);
    } else if !NumberFits(base, n) {
      PopOutcome(text, es, base);
    } else {
      PopMixed(text, es, base, items);
      LeftRightExactly(base, n);
    }
  }

  lemma NoDigitsMixed(base: string, n: nat)
    requires ListBase(base) && n <= UINT_MAX
    ensures TagDigits(base) == "" ==> MixedTag(base) && NumberFits(base, n)
  {
    hide LastDot, DigitsStart, ToDec;
    TagIn(base, base);
    UintLength(n);
  }

  // With the total as "t[#]" prints it.
  lemma PopCountsExactly(text: string, es: seq<Edit>, base: string, items: seq<Hit>)
    requires ListBase(base) && Consistent(text, es, base, items) && items != []
    ensures
      var o, n := DoDelete(text, es, base + LAST), |items|;
      (o.status == Ok && Consistent(text, o.edits, base, items[..n - 1]) && Counts(text, o.edits, base, n - 1))
      <==> CountsRight(base, n)
  {
    hide Consistent, DoDelete, ListBase, MixedTag, NumberFits, LeftRight, TagDigits, Lookup, ToDec, ValueOf,
         Decremented,
         TotalKeyOf;
    var n := |items|;
    TopThere(text, es, base, items);
    PopExactly(text, es, base, items);
    NoDigitsMixed(base, n);
    CountedCanonical(TagDigits(base), n);
    OneZeroRight(base, n);
    if MixedTag(base) && NumberFits(base, n) {
      PopMixed(text, es, base, items);
    }
  }

  lemma OneZeroRight(base: string, n: nat)
    requires n <= UINT_MAX
    ensures CountsRight(base, n) ==> PopsRight(base, n)
  {
    hide ToDec, TagDigits, MixedTag;
    OneDigit('0');
    UintLength(n);
  }

  // So every deletion is right, whatever the number of items, if and only if the
  // tag does not end in a digit.
  lemma AllPopsRight(base: string)
    requires ListBase(base)
    ensures (forall n :: 1 <= n <= UINT_MAX ==> PopsRight(base, n)) <==> ListKey(base)
  {
    hide LastDot, DigitsStart, MixedTag, NumberFits;
    if ListKey(base) {
      NoDigits(base);
    } else {
      SomeDigits(base);
      assert !PopsRight(base, 1);
    }
  }

  lemma SomeDigits(s: string)
    requires s != "" && IsDigit(s[|s| - 1])
    ensures s[DigitsStart(s)..] != ""
  {
    hide DigitsStart;
    assert DigitsStart(s) != |s|;
  }

  // A document, and a run on it: three values appended to "r.t1", the last deleted.
  const EMPTY_DOC := Txt(Raw(""), El("r", Nil, Nil))
  const PUSHED := [CallAppend("r.t1[+]", "a"), CallAppend("r.t1[+]", "b"), CallAppend("r.t1[+]", "c")]

  // The list then counts 12 items.
  lemma DigitTagMiscounts()
    ensures
      var text := Ser(EMPTY_DOC);
      && GetText(text, Run(text, PUSHED), "r.t1[#]") == Some("3")
      && Answer(text, Run(text, PUSHED), CallDelete("r.t1[$]")).status == Ok
      && GetText(text, Run(text, PUSHED + [CallDelete("r.t1[$]")]), "r.t1[#]") == Some("12")
  {
    hide Run, GetText, DoDelete, Consistent, ListBase, MixedTag, NumberFits, CountedDown, Lookup, TotalKeyOf, Ser,
         ToDec, LeftRight;
    var text, base := Ser(EMPTY_DOC), "r.t1";
    assert base + PLUS == "r.t1[+]" && base + LAST == "r.t1[$]" && base + TOTAL == "r.t1[#]";
    OneDigitTag();
    var es := PushedThree();
    var items := [EditValue("a"), EditValue("b"), EditValue("c")];
    PopMixed(text, es, base, items);
    RunOne(text, PUSHED, CallDelete("r.t1[$]"));
    DigitsPlainText(text, DoDelete(text, es, base + LAST).edits, base, "12");
  }

  lemma RunOne(text: string, calls: seq<Call>, c: Call)
    ensures Run(text, calls + [c]) == Answer(text, Run(text, calls), c).edits
  {
    hide Answer;
    assert (calls + [c])[..|calls|] == calls;
  }

  lemma OneDigitTag()
    ensures ListBase("r.t1") && MixedTag("r.t1") && NumberFits("r.t1", 3) && CountedDown("r.t1", 3) == "12"
  {
    hide ToDec, LastDot, DigitsStart, Borrow;
    assert "r.t1" == "r.t" + "1";
    DigitsAfter("r.t", "1");
    assert "r.t1"[1] == '.' && "r.t1"[2] == 't' && "r.t1"[3] == '1';
    assert LastDot("r.t1") == 1;
    assert ToDec(3) == "3" by { ThreeDec(); }
    assert "1" + "3" == "13";
    BorrowThirteen();
    assert "12"[1..] == "2";
  }

  lemma ThreeDec()
    ensures ToDec(3) == "3"
  {
    assert DigitChar(3) == '3';
  }

  lemma BorrowThirteen()
    ensures Borrow("13") == Some("12")
  {
    var ds := "13";
    assert ds[..1] == "1" && ds[1] == '3';
    assert "1" + ['2'] == "12";
  }

  lemma NoListYet()
    ensures !Found(Ser(EMPTY_DOC), [], "r.t1s")
  {
    hide FindNoEdit;
    var doc := EMPTY_DOC;
    assert "r.t1s"[1] == '.' && "r.t1s"[2] == 't' && "r.t1s"[3] == '1' && "r.t1s"[4] == 's';
    assert LastDot("r.t1s") == 1;
    assert "r.t1s"[..1] == "r" && "r.t1s"[2..] == "t1s";
    assert Nav(doc, "r") == Some(Nil);
    FindRefinesNav(Ser(doc), doc, "r.t1s");
  }

  lemma PushNext(text: string, calls: seq<Call>, es: seq<Edit>, items: seq<Hit>, v: string)
    requires es == Run(text, calls) && Consistent(text, es, "r.t1", items) && |items| < 3
    ensures Consistent(text, Run(text, calls + [CallAppend("r.t1[+]", v)]), "r.t1", items + [EditValue(v)])
    ensures Counts(text, Run(text, calls + [CallAppend("r.t1[+]", v)]), "r.t1", |items| + 1)
  {
    hide DoAppend, Consistent, ListBase, Counts;
    assert "r.t1" + PLUS == "r.t1[+]";
    OneDigitTag();
    PushHolds(text, es, "r.t1", items, v);
    RunOne(text, calls, CallAppend("r.t1[+]", v));
  }

  lemma PushedThree() returns (es: seq<Edit>)
    ensures es == Run(Ser(EMPTY_DOC), PUSHED)
    ensures Consistent(Ser(EMPTY_DOC), es, "r.t1", [EditValue("a"), EditValue("b"), EditValue("c")])
    ensures GetText(Ser(EMPTY_DOC), es, "r.t1[#]") == Some("3")
  {
    hide DoAppend, GetText, Consistent, ListBase, Lookup, TotalKeyOf, Ser, ToDec, Counts;
    var text, base := Ser(EMPTY_DOC), "r.t1";
    assert base + PLUS == "r.t1[+]" && base + TOTAL == "r.t1[#]";
    OneDigitTag();
    NoListYet();
    assert base + "s" == "r.t1s";
    FreshList(text, [], base);
    var a, b, c := CallAppend("r.t1[+]", "a"), CallAppend("r.t1[+]", "b"), CallAppend("r.t1[+]", "c");
    var x, y, z := EditValue("a"), EditValue("b"), EditValue("c");
    assert [] + [x] == [x] && [x] + [y] == [x, y] && [x, y] + [z] == [x, y, z];
    PushNext(text, [], [], [], "a");
    assert [] + [a] == [a];
    PushNext(text, [a], Run(text, [a]), [x], "b");
    assert [a] + [b] == [a, b];
    PushNext(text, [a, b], Run(text, [a, b]), [x, y], "c");
    assert [a, b] + [c] == [a, b, c];
    es := Run(text, [a, b, c]);
    TotalReads(text, es, base, 3);
    ThreeDec();
  }

  // "t[#]" reads a total of digits as it stands.
  lemma DigitsPlainText(text: string, es: seq<Edit>, base: string, v: string)
    requires ListBase(base) && AllDigits(v) && Lookup(text, es, TotalKeyOf(base)) == Some(EditValue(v))
    ensures GetText(text, es, base + TOTAL) == Some(v)
  {
    hide ExpandFrom, ToDec, LastDot, ItemKey, TotalKeyOf, FindOver, ListBase, Decode, ParseUint;
    assert base + TOTAL == base + ['[', '#', ']'];
    TotalFits(text, es, TotalKeyOf(base));
    ExpandBracket(text, es, base, '#');
    DecodeKeepsPlain(v);
  }

  lemma TotalFits(text: string, es: seq<Edit>, t: string)
    ensures TotalOf(text, es, t) <= UINT_MAX
  {
  }
}
