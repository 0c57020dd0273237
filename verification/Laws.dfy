// What one operation of the editor does to the lookup of every key: it changes what
// it names, the total that goes with it, and nothing beside them.
module Laws {
  import opened Chars
  import opened KeyPath
  import opened Decimal
  import opened Codec
  import opened MxmlInt
  import opened Find
  import opened Ekey
  import opened KeyMeaning
  import opened Api
  import opened Reachable
  import opened ApiReach
  import opened Tree
  import opened TreeText
  import opened TreeTokens
  import opened Tokens
  import opened Tokenizer
  import opened Flatten
  import opened DocFind
  import opened Write
  import opened Agreement
  import opened RunAgreement
  import opened Keys

  lemma DottedPlain(text: string, es: seq<Edit>, key: string)
    requires DottedKey(key)
    ensures Expand(text, es, key) == Expanded(key)
    ensures !EndsWith(key, TOTAL) && !EndsWith(key, LAST) && TotalKey(key) == None
  {
    hide ExpandFrom, NextPat;
    ExpandItself(text, es, key);
    assert |key| >= 3 ==> key[|key| - 3..][0] == key[|key| - 3];
    var plus := NextPat(key, 0, |key|, PLUS);
    assert PLUS[0] == '[';
    if plus < |key| {
      AtChars(key, plus, |key|, PLUS);
    }
  }

  // The list whose key a key up to its first "[+]" names as "a[*]".
  const WHOLE := "[*]"

  // The key of the total that the first "[+]" counts up, if there is one.
  function PlusTotal(text: string, es: seq<Edit>, key: string): Option<string> {
    var plus := NextPat(key, 0, |key|, PLUS);
    if plus == |key| then None
    else
      match Expand(text, es, key[..plus] + WHOLE)
      case Refused(_) => None
      case Expanded(list) => Some(list + ".total")
  }

  // That total's key fits with its end. One of KEY_MAX characters fits the buffer only
  // while the item's key is made of it.
  predicate RoomForTotal(t: Option<string>) {
    t.Some? ==> |t.value| < KEY_MAX
  }

  // What the key with "[+]" goes through, the key with "[*]" ends in, and "[#]" after it.
  lemma {:induction false} ToPlus(text: string, es: seq<Edit>, key: string, b: nat, i: nat, tagstart: nat, out: string)
    requires tagstart <= i <= b && At(key, b, |key|, PLUS)
    requires ExpandFrom(text, es, key, i, tagstart, out).Expanded?
    ensures
      var l := ExpandFrom(text, es, key[..b] + WHOLE, i, tagstart, out);
      && l.Expanded? && |l.key + ".total"| <= KEY_MAX
      && ExpandFrom(text, es, key[..b] + TOTAL, i, tagstart, out) ==
           if |l.key + ".total"| < KEY_MAX then Expanded(l.key + ".total") else Refused(ENOMEM)
    decreases b - i
  {
    hide Inside, At;
    AtChars(key, b, |key|, PLUS);
    assert PLUS[0] == '[' && PLUS[1] == '+' && PLUS[2] == ']';
    var wkey, tkey := key[..b] + WHOLE, key[..b] + TOTAL;
    assert wkey[..b] == key[..b] == tkey[..b];
    assert wkey[b] == '[' == tkey[b] && wkey[b + 1] == '*' && tkey[b + 1] == '#' && wkey[b + 2] == ']' == tkey[b + 2];
    if i == b {
      PlusHere(text, es, key, wkey, tkey, b, tagstart, out);
    } else {
      assert key[i] == key[..b][i] == tkey[i] == wkey[i];
      if key[i] != '[' {
        ToPlus(text, es, key, b, i + 1, if key[i] == '.' then i + 1 else tagstart, out + [key[i]]);
      } else {
        SameBracketBefore(text, es, key, wkey, b, i, tagstart, out);
        SameBracketBefore(text, es, key, tkey, b, i, tagstart, out);
        var piece := Bracket(text, es, key, i, tagstart, out);
        ToPlus(text, es, key, b, piece.next, tagstart, piece.out);
      }
    }
  }

  lemma PlusHere(text: string, es: seq<Edit>, key: string, wkey: string, tkey: string,
                 b: nat, tagstart: nat, out: string)
    requires tagstart <= b && b + 3 <= |key| && b + 3 == |tkey| == |wkey|
    requires key[b] == '[' && key[b + 1] == '+' && key[b + 2] == ']'
    requires wkey[b] == '[' && wkey[b + 1] == '*' && wkey[b + 2] == ']'
    requires tkey[b] == '[' && tkey[b + 1] == '#' && tkey[b + 2] == ']'
    requires ExpandFrom(text, es, key, b, tagstart, out).Expanded?
    ensures
      var l := ExpandFrom(text, es, wkey, b, tagstart, out);
      && l.Expanded? && |l.key + ".total"| <= KEY_MAX
      && ExpandFrom(text, es, tkey, b, tagstart, out) ==
           if |l.key + ".total"| < KEY_MAX then Expanded(l.key + ".total") else Refused(ENOMEM)
  {
    hide PastDigits, TotalOf, ToDec;
    assert Bracket(text, es, key, b, tagstart, out).Piece?;
    assert Bracket(text, es, wkey, b, tagstart, out) == Piece(out + "s", b + 3);
    assert Bracket(text, es, tkey, b, tagstart, out) == Piece(out + "s" + ".total", b + 3);
  }

  // For a key that expands, where its "[+]" counts.
  lemma PlusCounts(text: string, es: seq<Edit>, key: string)
    requires Expand(text, es, key).Expanded?
    ensures
      var t, tkey := PlusTotal(text, es, key), TotalKey(key);
      && (t.Some? <==> tkey.Some?)
      && (t.Some? ==>
            Expand(text, es, tkey.value) == if RoomForTotal(t) then Expanded(t.value) else Refused(ENOMEM))
  {
    hide ExpandFrom, NextPat;
    var plus := NextPat(key, 0, |key|, PLUS);
    if plus < |key| {
      ToPlus(text, es, key, plus, 0, 0, "");
    }
  }

  // What adding the missing parents of k does to a lookup.
  lemma ParentsLookup(text: string, es: seq<Edit>, k: string, q: string)
    requires ValidEdits(text, es) && Rooted(k) && Rooted(q) && !Found(text, es, k)
    ensures
      Lookup(text, AppendParents(text, es, k, 0), q)
        == if Around(k, q) && !Found(text, es, q) then Some(EditValue("")) else Lookup(text, es, q)
  {
    hide Lookup, ValidEdits, AppendParents, Around;
    var es1 := AppendParents(text, es, k, 0);
    ParentsAdded(text, es, k, 0);
    if Around(k, q) {
      AroundFound(text, es1, k, q);
      assert Lookup(text, es1, q) == Lookup(text, es, q) || Lookup(text, es1, q) == Some(EditValue(""));
    } else {
      ParentsBeside(text, es, k, 0, q);
    }
  }

  // Appending, for any key: refused for what is there; else it adds the elements that
  // were missing around, with no text, and, unless there is no room for the total's
  // key, the element itself and one to the total. Success is returned either way.
  lemma AppendAny(text: string, es: seq<Edit>, key: string, value: string, q: string)
    requires ValidEdits(text, es) && key != "" && Rooted(q)
    ensures
      var o, x, t := DoAppend(text, es, key, value), Expand(text, es, key), PlusTotal(text, es, key);
      if x.Refused? then o == Outcome(es, Ok)
      else if Found(text, es, x.key) then o == Outcome(es, Fail(EEXIST))
      else
        && o.status == Ok
        && Lookup(text, o.edits, q) ==
             if q == x.key then if RoomForTotal(t) then Some(EditValue(value)) else None
             else if t == Some(q) && RoomForTotal(t) then Some(EditValue(ToDec(Next(TotalOf(text, es, q)))))
             else if Around(x.key, q) && !Found(text, es, q) then Some(EditValue(""))
             else Lookup(text, es, q)
  {
    hide ExpandFrom, Lookup, ValidEdits, AppendParents, Around, PlusTotal, TotalKey, TotalOf, ToDec, Next;
    var x, t := Expand(text, es, key), PlusTotal(text, es, key);
    if x.Expanded? && !Found(text, es, x.key) {
      var k := x.key;
      ExpandFromRooted(text, es, key, 0, 0, "");
      var es1 := AppendParents(text, es, k, 0);
      ParentsAdded(text, es, k, 0);
      ParentsLookup(text, es, k, q);
      PlusCounts(text, es, key);
      match TotalKey(key) {
        case None => AppendedLast(text, es1, Edit(EditAppend, k, value), q);
        case Some(tkey) =>
          NonEmptyTotal(key);
          SameExpansion(text, es, es1, tkey, 0, 0, "");
          if RoomForTotal(t) {
            PlusBeside(text, es, key);
            BesideFacts(k, t.value);
            SameTotal(text, es, es1, t.value);
            CountedLast(text, es1, k, t.value, value, q);
          }
      }
    }
  }

  lemma NonEmptyTotal(key: string)
    ensures TotalKey(key).Some? ==> TotalKey(key).value != ""
  {
    hide NextPat;
  }

  lemma PlusBeside(text: string, es: seq<Edit>, key: string)
    requires Expand(text, es, key).Expanded? && TotalKey(key).Some?
    requires Expand(text, es, TotalKey(key).value).Expanded?
    ensures Beside(Expand(text, es, key).key, Expand(text, es, TotalKey(key).value).key)
  {
    hide ExpandFrom, NextPat, Beside;
    ThroughPlus(text, es, key, NextPat(key, 0, |key|, PLUS), 0, 0, "");
  }

  lemma CountedLast(text: string, es: seq<Edit>, k: string, t: string, value: string, q: string)
    requires ValidEdits(text, es) && Rooted(k) && Rooted(q) && Beside(k, t) && k != t
    requires ParentsFound(text, es, k, |k|) && !Found(text, es, k)
    ensures Lookup(text, [Edit(EditAppend, k, value)] + CountUp(text, es, t), q) ==
      if q == k then Some(EditValue(value))
      else if q == t then Some(EditValue(ToDec(Next(TotalOf(text, es, t)))))
      else Lookup(text, es, q)
  {
    hide Lookup, ValidEdits, TotalOf, ToDec, Next, Beside;
    var counted, e := CountUp(text, es, t), Edit(EditAppend, k, value);
    CountUpValid(text, es, k, t);
    PushLookup(text, counted, e, q);
    assert counted == [counted[0]] + es && counted[1..] == es;
    LookupStep(text, counted, q);
  }

  // Appending is refused for what is there; else it adds the element, and those
  // around it that were missing, with no text.
  lemma AppendOnly(text: string, es: seq<Edit>, key: string, value: string, q: string)
    requires ValidEdits(text, es) && DottedKey(key) && Rooted(q)
    ensures
      var o := DoAppend(text, es, key, value);
      if Found(text, es, key) then o == Outcome(es, Fail(EEXIST))
      else
        && o.status == Ok
        && Lookup(text, o.edits, q) ==
             if q == key then Some(EditValue(value))
             else if Around(key, q) && !Found(text, es, q) then Some(EditValue(""))
             else Lookup(text, es, q)
  {
    hide ExpandFrom, Lookup, ValidEdits, DottedKey, DoAppend, Around, PlusTotal, TotalKey;
    DottedPlain(text, es, key);
    DottedRooted(key);
    PlusCounts(text, es, key);
    AppendAny(text, es, key, value, q);
  }

  // Deleting, for any key but a total's: it takes away the element and all inside it,
  // for "t[$]" makes the total one smaller or takes it away, and nothing else; deleting
  // what is not there changes nothing. A total that cannot be counted down is left.
  lemma DeleteAny(text: string, es: seq<Edit>, key: string, q: string)
    requires ValidEdits(text, es) && key != "" && Rooted(q)
    ensures
      var o, x := DoDelete(text, es, key), Expand(text, es, key);
      if x.Refused? then o == Outcome(es, Ok)
      else if EndsWith(key, TOTAL) then o == Outcome(es, Fail(EPERM))
      else if !Found(text, es, x.key) then o == Outcome(es, Ok)
      else
        var t, left := TotalBeside(x.key), Decremented(x.key[DigitsStart(x.key)..]);
        var counted := EndsWith(key, LAST) && DigitsFit(x.key) && |t| <= KEY_MAX;
        && o.status ==
             (if !EndsWith(key, LAST) || counted then Ok else if !DigitsFit(x.key) then Overrun else Fail(ENOMEM))
        && Lookup(text, o.edits, q) ==
             if counted && left != "" && q == t then Some(EditValue(left))
             else if counted && left == "" && SelfOrChild(q, t) then None
             else if SelfOrChild(q, x.key) then None
             else Lookup(text, es, q)
  {
    hide ExpandFrom, Lookup, ValidEdits, TotalBeside, DigitsStart, Decremented, DigitsFit, SelfOrChild, EndsWith,
         CountDown;
    var x := Expand(text, es, key);
    if x.Expanded? && Found(text, es, x.key) {
      var k, t := x.key, TotalBeside(x.key);
      ExpandFromRooted(text, es, key, 0, 0, "");
      PushLookup(text, es, Edit(EditDelete, k, ""), q);
      CountedDownLast(text, es, k, q);
    }
  }

  lemma CountedDownLast(text: string, es: seq<Edit>, k: string, q: string)
    requires ValidEdits(text, es) && Rooted(k) && Rooted(q) && Found(text, es, k)
    ensures
      var t, left := TotalBeside(k), Decremented(k[DigitsStart(k)..]);
      var deleted := [Edit(EditDelete, k, "")] + es;
      Lookup(text, CountDown(text, deleted, k), q) ==
        if left != "" && q == t then Some(EditValue(left))
        else if left == "" && SelfOrChild(q, t) then None
        else Lookup(text, deleted, q)
  {
    hide Lookup, ValidEdits, TotalBeside, DigitsStart, Decremented, SelfOrChild;
    var t, left := TotalBeside(k), Decremented(k[DigitsStart(k)..]);
    var deleted := [Edit(EditDelete, k, "")] + es;
    var counted := CountDown(text, deleted, k);
    CountDownValid(text, es, k);
    BesideDeleted(k);
    if counted == deleted {
      if SelfOrChild(q, t) && Found(text, deleted, q) {
        AncestorFound(text, deleted, q, t);
        assert false;
      }
    } else {
      assert counted[1..] == deleted;
      LookupStep(text, counted, q);
    }
  }

  // Deleting takes away the element and all inside it, and nothing else; deleting
  // what is not there changes nothing.
  lemma DeleteOnly(text: string, es: seq<Edit>, key: string, q: string)
    requires ValidEdits(text, es) && DottedKey(key) && Rooted(q)
    ensures
      var o := DoDelete(text, es, key);
      && o.status == Ok
      && Lookup(text, o.edits, q) == if SelfOrChild(q, key) then None else Lookup(text, es, q)
  {
    hide ExpandFrom, Lookup, ValidEdits, DottedKey, DoDelete, TotalBeside, DigitsStart, Decremented, DigitsFit;
    DottedPlain(text, es, key);
    DottedRooted(key);
    DeleteAny(text, es, key, q);
    if !Found(text, es, key) && SelfOrChild(q, key) && Found(text, es, q) {
      AncestorFound(text, es, q, key);
      assert false;
    }
  }

  lemma DottedRooted(key: string)
    requires DottedKey(key)
    ensures Rooted(key) && key != ""
  {
  }

  lemma AppendedLast(text: string, es: seq<Edit>, e: Edit, q: string)
    requires ValidEdits(text, es) && e.op == EditAppend && Rooted(e.key) && Rooted(q)
    requires !Found(text, es, e.key) && ParentsFound(text, es, e.key, |e.key|)
    ensures Lookup(text, [e] + es, q) == if q == e.key then Some(EditValue(e.value)) else Lookup(text, es, q)
  {
    hide Lookup, ValidEdits;
    ParentOfFound(text, es, e.key);
    PushLookup(text, es, e, q);
  }

  lemma AroundFound(text: string, es: seq<Edit>, k: string, q: string)
    requires ParentsFound(text, es, k, |k|) && Around(k, q) && Rooted(q)
    ensures Found(text, es, q)
  {
    hide Lookup;
    assert k[|q|] == '.' && k[..|q|] == q;
  }

  // Setting, for any key: what is there takes the value and nothing else changes, but a
  // total is refused; else it is appending.
  lemma SetAny(text: string, es: seq<Edit>, key: string, value: string, q: string)
    requires ValidEdits(text, es) && key != "" && Rooted(q)
    ensures
      var o, x := DoSet(text, es, key, Some(value)), Expand(text, es, key);
      if x.Refused? || !Found(text, es, x.key) then o == DoAppend(text, es, key, value)
      else if EndsWith(key, TOTAL) then o == Outcome(es, Fail(EPERM))
      else
        && o.status == Ok
        && Lookup(text, o.edits, q) == if q == x.key then Some(EditValue(value)) else Lookup(text, es, q)
  {
    hide ExpandFrom, Lookup, ValidEdits, DoAppend, EndsWith;
    var x := Expand(text, es, key);
    AppendAny(text, es, key, value, q);
    if x.Expanded? && Found(text, es, x.key) {
      ExpandFromRooted(text, es, key, 0, 0, "");
      PushLookup(text, es, Edit(EditSet, x.key, value), q);
    }
  }

  // Setting to nothing, for any key, is deleting: what is there goes, with all inside
  // it, and for "t[$]" the total is counted down.
  lemma SetNothing(text: string, es: seq<Edit>, key: string, q: string)
    requires ValidEdits(text, es) && key != "" && Rooted(q)
    ensures
      var o, x := DoSet(text, es, key, None), Expand(text, es, key);
      if x.Refused? then o == Outcome(es, Ok)
      else if EndsWith(key, TOTAL) then o == Outcome(es, Fail(EPERM))
      else if !Found(text, es, x.key) then o == Outcome(es, Ok)
      else
        var t, left := TotalBeside(x.key), Decremented(x.key[DigitsStart(x.key)..]);
        var counted := EndsWith(key, LAST) && DigitsFit(x.key) && |t| <= KEY_MAX;
        && o.status ==
             (if !EndsWith(key, LAST) || counted then Ok else if !DigitsFit(x.key) then Overrun else Fail(ENOMEM))
        && Lookup(text, o.edits, q) ==
             if counted && left != "" && q == t then Some(EditValue(left))
             else if counted && left == "" && SelfOrChild(q, t) then None
             else if SelfOrChild(q, x.key) then None
             else Lookup(text, es, q)
  {
    hide ExpandFrom, Lookup, ValidEdits, DoDelete, EndsWith, TotalBeside, Decremented, DigitsStart, DigitsFit,
         SelfOrChild;
    DeleteAny(text, es, key, q);
  }

  // After a set to nothing mxml_get reads nothing at a dotted key, or inside it.
  lemma SetNothingThenGet(text: string, es: seq<Edit>, key: string, q: string)
    requires ValidEdits(text, es) && DottedKey(key) && DottedKey(q) && SelfOrChild(q, key)
    ensures
      var o := DoSet(text, es, key, None);
      o.status == Ok && GetText(text, o.edits, q) == None
  {
    hide ExpandFrom, Lookup, ValidEdits, DottedKey, DoDelete, Decode, SelfOrChild;
    DottedRooted(q);
    DeleteOnly(text, es, key, q);
    DottedPlain(text, DoDelete(text, es, key).edits, q);
  }

  // Updating, for any key: what is there takes the value and nothing else changes; what
  // is not there, and a total, is refused.
  lemma UpdateAny(text: string, es: seq<Edit>, key: string, value: string, q: string)
    requires ValidEdits(text, es) && key != "" && Rooted(q)
    ensures
      var o, x := DoUpdate(text, es, key, value), Expand(text, es, key);
      if x.Refused? then o == Outcome(es, Ok)
      else if EndsWith(key, TOTAL) then o == Outcome(es, Fail(EPERM))
      else if !Found(text, es, x.key) then o == Outcome(es, Fail(ENOENT))
      else
        && o.status == Ok
        && Lookup(text, o.edits, q) == if q == x.key then Some(EditValue(value)) else Lookup(text, es, q)
  {
    hide ExpandFrom, Lookup, ValidEdits, EndsWith;
    var x := Expand(text, es, key);
    if x.Expanded? && Found(text, es, x.key) {
      ExpandFromRooted(text, es, key, 0, 0, "");
      PushLookup(text, es, Edit(EditSet, x.key, value), q);
    }
  }

  // A malformed key reads nothing and changes nothing, whatever is asked of it.
  lemma MalformedIdle(text: string, es: seq<Edit>, c: Call)
    requires !WellFormed(c.key)
    ensures Answer(text, es, c) == Outcome(es, Ok) && GetText(text, es, c.key) == None
  {
    hide WellFormed, ExpandFrom, Lookup;
    MalformedRefused(text, es, c.key);
  }

  // Setting: whatever was there before, the key then reads as the value, and every
  // key but those newly created around it reads as before.
  lemma SetOnly(text: string, es: seq<Edit>, key: string, value: string, q: string)
    requires ValidEdits(text, es) && DottedKey(key) && Rooted(q)
    ensures
      var o := DoSet(text, es, key, Some(value));
      && o.status == Ok
      && Lookup(text, o.edits, q) ==
           if q == key then Some(EditValue(value))
           else if Around(key, q) && !Found(text, es, q) then Some(EditValue(""))
           else Lookup(text, es, q)
  {
    hide ExpandFrom, Lookup, ValidEdits, DottedKey, DoAppend, Around;
    DottedPlain(text, es, key);
    DottedRooted(key);
    AppendOnly(text, es, key, value, q);
    if Found(text, es, key) {
      PushLookup(text, es, Edit(EditSet, key, value), q);
      if Around(key, q) {
        AroundIsOuter(key, q);
        AncestorFound(text, es, key, q);
      }
    }
  }

  lemma AroundIsOuter(k: string, q: string)
    requires Around(k, q) && Rooted(q)
    ensures SelfOrChild(k, q) && q != ""
  {
  }

  // Set, then get: the text comes back, exactly when it is plain.
  lemma SetThenGet(text: string, es: seq<Edit>, key: string, value: string)
    requires ValidEdits(text, es) && DottedKey(key)
    ensures
      var got := GetText(text, DoSet(text, es, key, Some(value)).edits, key);
      got == Some(Decode(value)) && (got == Some(value) <==> Plain(value))
  {
    hide ExpandFrom, Lookup, ValidEdits, DottedKey, DoSet, Decode, Plain;
    DottedRooted(key);
    SetOnly(text, es, key, value, key);
    DottedPlain(text, DoSet(text, es, key, Some(value)).edits, key);
    DecodeKeepsPlain(value);
  }

  // The document can be written, and listed, exactly when every tag appended has at
  // most 124 characters.
  lemma WritesExactly(doc: Items, es: seq<Edit>)
    requires SourceDoc(doc)
    ensures
      var short := forall i :: 0 <= i < |es| && es[i].op == EditAppend ==> |LastTag(es[i].key)| <= 124;
      && (WriteAnswer(Ser(doc), es).Some? <==> short)
      && (KeysAnswer(Ser(doc), es).Some? <==> short)
  {
    hide SourceDoc, Written, Source, LastTag, Ser, OpenKeys, ApplyAll;
    SourceOfTree(doc);
    assert forall i :: 0 <= i < |es| ==> |CloseTag(LastTag(es[i].key))| == |LastTag(es[i].key)| + 3;
    assert forall i :: 0 <= i < |es| ==> (TagFits(es[i]) <==> es[i].op == EditAppend ==> |LastTag(es[i].key)| <= 124);
  }

  // An element whose new tag does not fit its buffer is appended and found; but the
  // document can then be neither written nor listed.
  lemma LongTagUnwritten(text: string, es: seq<Edit>, key: string, value: string)
    requires ValidEdits(text, es) && DottedKey(key) && !Found(text, es, key)
    requires |LastTag(key)| >= TAGDATA_MAX - 3
    ensures
      var o := DoAppend(text, es, key, value);
      && o.status == Ok && Found(text, o.edits, key)
      && WriteAnswer(text, o.edits) == None && KeysAnswer(text, o.edits) == None
  {
    hide ExpandFrom, Lookup, ValidEdits, DottedKey, AppendParents, Written, Source, LastTag, TotalKey;
    DottedPlain(text, es, key);
    DottedRooted(key);
    AppendOnly(text, es, key, value, key);
    var e := DoAppend(text, es, key, value).edits[0];
    assert e == Edit(EditAppend, key, value);
    assert |CloseTag(LastTag(key))| == |LastTag(key)| + 3;
    assert !TagFits(e);
  }

  // "<a></a>", and an element of a 125-character name in it.
  const SMALL_DOC := Txt(Raw(""), El("a", Nil, Nil))
  const LONG_KEY: string := "a." + seq(125, _ => 'b')

  lemma LongTagRun(value: string)
    ensures SourceDoc(SMALL_DOC) && CleanKey(LONG_KEY)
    ensures
      var text := Ser(SMALL_DOC);
      var es := Run(text, [CallAppend(LONG_KEY, value)]);
      && Found(text, es, LONG_KEY)
      && WriteAnswer(text, es) == None && KeysAnswer(text, es) == None
  {
    hide DoAppend, Found, WriteAnswer, KeysAnswer, Ser, TagsFit;
    LongKeyShape();
    LongKeyMissing();
    NoEditsValid(Ser(SMALL_DOC));
    LongTagUnwritten(Ser(SMALL_DOC), [], LONG_KEY, value);
    var c := CallAppend(LONG_KEY, value);
    assert [c][..0] == [];
    assert Run(Ser(SMALL_DOC), [c]) == Answer(Ser(SMALL_DOC), [], c).edits;
  }

  lemma LongKeyShape()
    ensures DottedKey(LONG_KEY) && CleanKey(LONG_KEY) && LastDot(LONG_KEY) == 1 && |LastTag(LONG_KEY)| == 125
    ensures SourceDoc(SMALL_DOC) && !Has(LONG_KEY, '>')
  {
    hide LastDot;
    var k := LONG_KEY;
    assert |k| == 127 && k[0] == 'a' && k[1] == '.' && forall i :: 2 <= i < |k| ==> k[i] == 'b';
    assert LastDot(k) == 1;
  }

  lemma LongKeyMissing()
    ensures !Found(Ser(SMALL_DOC), [], LONG_KEY)
  {
    hide FindNoEdit, LastDot, Ser;
    LongKeyShape();
    var doc := SMALL_DOC;
    assert LONG_KEY[..1] == "a";
    assert Nav(doc, "a") == Some(Nil) by { NavRoot(); }
    SourceDocValid(doc);
    FindRefinesNav(Ser(doc), doc, LONG_KEY);
  }

  lemma NavRoot()
    ensures Nav(SMALL_DOC, "a") == Some(Nil)
  {
    assert LastDot("a") == -1;
  }

  // An element appended at the top is found, and is not in the text written.
  lemma RootUnwritten(value: string)
    ensures SourceDoc(SMALL_DOC) && CleanKey("b")
    ensures
      var text := Ser(SMALL_DOC);
      var es := Run(text, [CallAppend("b", value)]);
      && Found(text, es, "b") && GetText(text, es, "b") == Some(Decode(value))
      && match WriteAnswer(text, es)
         case None => false
         case Some(w) => !Found(w, [], "b") && GetText(w, [], "b") == None
  {
    hide Lookup, Ser, Decode, SourceDoc, ValidEdits, Written, Source, DottedKey, CleanKey, Run, DomainEdits, TagsFit,
         CleanEdits, LiveRoot, RootOf, Expand, Has, Rooted, LastDot, TotalKey;
    var text, es := Ser(SMALL_DOC), Run(Ser(SMALL_DOC), [CallAppend("b", value)]);
    TopKey();
    TopRun(value);
    TopFits(value);
    RunClean(text, [CallAppend("b", value)]);
    CleanEditsDomain(es);
    FoundAgrees(SMALL_DOC, es, "b");
    DottedPlain(text, es, "b");
    DottedPlain(Written(text, es), [], "b");
    SourceOfTree(SMALL_DOC);
  }

  lemma TopRun(value: string)
    ensures
      var text, e := Ser(SMALL_DOC), Edit(EditAppend, "b", value);
      && Run(text, [CallAppend("b", value)]) == [e] && ValidEdits(text, [e])
      && Lookup(text, [e], "b") == Some(EditValue(value))
  {
    hide DoAppend, Lookup, Ser, DottedKey, LastDot, Has, ValidEdits;
    var text, e := Ser(SMALL_DOC), Edit(EditAppend, "b", value);
    TopKey();
    TopMissing();
    NoEditsValid(text);
    AppendTop(text, value);
    var c := CallAppend("b", value);
    assert [c][..0] == [];
    assert Run(text, [c]) == Answer(text, [], c).edits == [e];
    assert [e] + [] == [e];
    PushOk(text, [], e);
    PushLookup(text, [], e, "b");
  }

  lemma TopKey()
    ensures DottedKey("b") && CleanKey("b") && Rooted("b") && !Has("b", '>') && LastDot("b") < 0 && RootOf("b") == "b"
    ensures SourceDoc(SMALL_DOC)
  {
  }

  lemma TopMissing()
    ensures !Found(Ser(SMALL_DOC), [], "b")
  {
    hide FindNoEdit, LastDot, Ser, SourceDoc;
    TopKey();
    SourceDocValid(SMALL_DOC);
    FindRefinesNav(Ser(SMALL_DOC), SMALL_DOC, "b");
  }

  lemma AppendTop(text: string, value: string)
    requires !Found(text, [], "b")
    ensures DoAppend(text, [], "b", value).edits == [Edit(EditAppend, "b", value)]
    ensures EditOk(text, [], Edit(EditAppend, "b", value))
  {
    hide ExpandFrom, Lookup, TotalKey;
    TopKey();
    DottedPlain(text, [], "b");
  }

  lemma TopFits(value: string)
    ensures var es := [Edit(EditAppend, "b", value)]; TagsFit(es) && LiveRoot(es, "b")
  {
    hide LastTag;
    TopTag();
  }

  lemma TopTag()
    ensures |CloseTag(LastTag("b"))| == 4
  {
    hide LastDot;
    assert LastDot("b") < 0 by { TopKey(); }
    assert "b"[0..] == "b";
  }
}
