// Lists behave as stacks: "t[+]" pushes, deleting "t[$]" pops, "t[#]" counts.
module Lists {
  import opened Chars
  import opened KeyPath
  import opened Decimal
  import opened Codec
  import opened DocFind
  import opened MxmlInt
  import opened Find
  import opened Ekey
  import opened Api
  import opened Reachable
  import opened ApiReach

  // "a.b.t", the key of a list without its bracket: a dotted key with room for the
  // keys of its items.
  predicate ListBase(base: string) {
    DottedKey(base) && base[|base| - 1] != '.' && 2 * |base| + 12 < KEY_MAX
  }

  // One whose tag does not end in a digit.
  predicate ListKey(base: string) {
    ListBase(base) && !IsDigit(base[|base| - 1])
  }

  function TotalKeyOf(base: string): string {
    Ext(base + "s", "total")
  }

  function ItemKey(base: string, n: nat): string {
    Ext(base + "s", LastTag(base) + ToDec(n))
  }

  // Keys of the children of a list element.
  predicate InList(base: string, q: string) {
    LastDot(q) == |base| + 1 && Rooted(q)
  }

  lemma TotalShape(base: string)
    requires ListBase(base)
    ensures var t := TotalKeyOf(base);
      InList(base, t) && ParentKey(t) == base + "s" && t == base + "s" + ".total" && t[|t| - 1] == 'l'
  {
    hide LastDot;
    var p, tail := base + "s", "total";
    assert forall i :: 0 <= i < |tail| ==> tail[i] != '.';
    ExtInverse(p, tail);
    assert |ParentKey(TotalKeyOf(base))| == |base| + 1;
    assert p + "." + tail == p + ".total";
  }

  lemma ItemDot(base: string, n: nat)
    requires base != ""
    ensures LastDot(ItemKey(base, n)) == |base| + 1 && ParentKey(ItemKey(base, n)) == base + "s"
  {
    hide LastDot, ToDec;
    var tail := LastTag(base) + ToDec(n);
    assert forall i :: 0 <= i < |tail| ==> tail[i] != '.';
    ExtInverse(base + "s", tail);
    assert |ParentKey(ItemKey(base, n))| == |base| + 1;
  }

  lemma ItemShape(base: string, n: nat)
    requires ListBase(base)
    ensures var k := ItemKey(base, n);
      && InList(base, k) && ParentKey(k) == base + "s" && LastTag(base) != ""
      && |k| == |base| + 2 + |LastTag(base)| + |ToDec(n)|
      && k[..|base| + 2] == base + "s."
  {
    hide LastDot, ToDec;
    ItemDot(base, n);
  }

  // An item's key ends in a digit.
  lemma ItemEnd(base: string, n: nat)
    ensures var k := ItemKey(base, n); IsDigit(k[|k| - 1])
  {
    hide ToDec, LastTag;
    var k, ds := ItemKey(base, n), ToDec(n);
    assert k[|k| - 1] == ds[|ds| - 1];
  }

  lemma ItemsDiffer(base: string, a: nat, b: nat)
    ensures ItemKey(base, a) == ItemKey(base, b) <==> a == b
  {
    var p := base + "s." + LastTag(base);
    assert ItemKey(base, a)[|p|..] == ToDec(a) && ItemKey(base, b)[|p|..] == ToDec(b);
    ToDecInjective(a, b);
  }

  // "t[+]", "t[$]" and "t[#]" at the end of a dotted key.
  lemma ExpandBracket(text: string, es: seq<Edit>, base: string, c: char)
    requires ListBase(base) && (c == '+' || c == '$' || c == '#')
    requires TotalOf(text, es, TotalKeyOf(base)) <= UINT_MAX
    ensures
      var total := TotalOf(text, es, TotalKeyOf(base));
      Expand(text, es, base + ['[', c, ']']) == Expanded(
        if c == '#' then TotalKeyOf(base) else ItemKey(base, if c == '+' then Next(total) else total))
  {
    hide TotalOf, ToDec, ExpandFrom, TotalKeyOf, ItemKey, LastDot, LastTag, Bracket, InList, ParentKey;
    var key := base + ['[', c, ']'];
    var b, ts := |base|, LastDot(base) + 1;
    assert key[..b] == base && key[b] == '[' && key[b + 1] == c && key[b + 2] == ']';
    ExpandStart(text, es, key, base);
    TagIn(key, base);
    var total := TotalOf(text, es, TotalKeyOf(base));
    UintLength(if c == '+' then Next(total) else total);
    BracketPiece(text, es, key, b, ts, base);
    ItemShape(base, IndexOf(text, es, TotalKeyOf(base), c));
    TotalShort(base);
    BracketEnds(text, es, key, b, ts, base);
  }

  lemma ExpandStart(text: string, es: seq<Edit>, key: string, base: string)
    requires |base| <= |key| && key[..|base|] == base && DottedKey(base)
    ensures Expand(text, es, key) == ExpandFrom(text, es, key, |base|, LastDot(base) + 1, base)
  {
    hide ExpandFrom;
    assert key[..0] == "";
    ExpandUpTo(text, es, key, |base|, 0);
  }

  lemma TagIn(key: string, base: string)
    requires |base| <= |key| && key[..|base|] == base && base != "" && base[|base| - 1] != '.'
    ensures key[LastDot(base) + 1..|base|] == LastTag(base) && LastDot(base) + 1 < |base|
    ensures |LastTag(base)| <= |base|
  {
    hide LastDot;
    assert base[LastDot(base) + 1..] == key[LastDot(base) + 1..|base|];
  }

  lemma BracketPiece(text: string, es: seq<Edit>, key: string, b: nat, ts: nat, base: string)
    requires ListBase(base)
    requires b == |base| && |key| == b + 3 && ts < b && ts == LastDot(base) + 1
    requires key[b] == '[' && key[b + 2] == ']' && key[ts..b] == LastTag(base)
    requires var c := key[b + 1]; c == '+' || c == '$' || c == '#'
    requires |ToDec(IndexOf(text, es, TotalKeyOf(base), key[b + 1]))| <= 10
    ensures Bracket(text, es, key, b, ts, base) == Piece(
      if key[b + 1] == '#' then TotalKeyOf(base)
      else ItemKey(base, IndexOf(text, es, TotalKeyOf(base), key[b + 1])), b + 3)
  {
    hide TotalOf, ToDec, IndexOf, PastDigits, LastDot, DottedKey;
    TotalShape(base);
    var n := IndexOf(text, es, TotalKeyOf(base), key[b + 1]);
    assert base + "s" + "." + key[ts..b] + ToDec(n) == ItemKey(base, n);
  }

  lemma BracketEnds(text: string, es: seq<Edit>, key: string, b: nat, ts: nat, base: string)
    requires ts < b && |key| == b + 3 && key[b] == '['
    requires var r := Bracket(text, es, key, b, ts, base); r.Piece? && r.next == b + 3 && |r.out| < KEY_MAX
    ensures ExpandFrom(text, es, key, b, ts, base) == Expanded(Bracket(text, es, key, b, ts, base).out)
  {
    hide Bracket;
  }

  // The list's children stay as they are when its missing parents are added.
  lemma ParentsElsewhere(text: string, es: seq<Edit>, k: string, q: string)
    requires ValidEdits(text, es) && Rooted(k) && !Found(text, es, k) && Rooted(q) && |q| > LastDot(k)
    ensures Lookup(text, AppendParents(text, es, k, 0), q) == Lookup(text, es, q)
  {
    hide Lookup, LastDot, ValidEdits, AppendParents;
    assert !Around(k, q);
    ParentsBeside(text, es, k, 0, q);
  }

  lemma FirstPlus(base: string)
    requires !Has(base, '[')
    ensures TotalKey(base + PLUS) == Some(base + TOTAL)
  {
    hide NextPat;
    var key := base + PLUS;
    var plus := NextPat(key, 0, |key|, PLUS);
    FirstPlusAt(base, 0);
    assert key[..plus] == base;
  }

  lemma {:induction false} FirstPlusAt(base: string, i: nat)
    requires !Has(base, '[') && i <= |base|
    ensures NextPat(base + PLUS, i, |base| + 3, PLUS) == |base|
    decreases |base| - i
  {
    var key := base + PLUS;
    if i < |base| {
      assert key[i] == base[i];
      NotAt(key, i, |key|, PLUS, 0);
      FirstPlusAt(base, i + 1);
    } else {
      assert key[|base|..|base| + 3] == PLUS;
    }
  }

  // Appending "t[+]" records missing parents, the new total and the new item.
  lemma PushOutcome(text: string, es: seq<Edit>, base: string, v: string)
    requires ListBase(base) && ValidEdits(text, es)
    requires TotalOf(text, es, TotalKeyOf(base)) < UINT_MAX
    requires !Found(text, es, ItemKey(base, TotalOf(text, es, TotalKeyOf(base)) + 1))
    ensures
      var t, n := TotalKeyOf(base), TotalOf(text, es, TotalKeyOf(base)) + 1;
      var es1 := AppendParents(text, es, ItemKey(base, n), 0);
      && DoAppend(text, es, base + PLUS, v)
           == Outcome([Edit(EditAppend, ItemKey(base, n), v)] + CountUp(text, es1, t), Ok)
      && TotalOf(text, es1, t) == n - 1
  {
    hide Expand, ToDec, LastDot, ItemKey, TotalKeyOf, Lookup, AppendParents, ListBase, CountUp, ValidEdits,
         TotalKey, ParentKey, DoAppend, Next;
    NextFits(TotalOf(text, es, TotalKeyOf(base)));
    var t, n := TotalKeyOf(base), TotalOf(text, es, TotalKeyOf(base)) + 1;
    var k := ItemKey(base, n);
    assert base + PLUS == base + ['[', '+', ']'] && base + TOTAL == base + ['[', '#', ']'];
    ExpandBracket(text, es, base, '+');
    TotalShape(base);
    ItemShape(base, n);
    ParentsElsewhere(text, es, k, t);
    ExpandBracket(text, AppendParents(text, es, k, 0), base, '#');
    NoBracketIn(base);
    FirstPlus(base);
    AppendCounted(text, es, base + PLUS, v, k, base + TOTAL, t);
  }

  lemma NextFits(n: nat)
    requires n < UINT_MAX
    ensures Next(n) == n + 1
  {
  }

  lemma AppendCounted(text: string, es: seq<Edit>, key: string, v: string, k: string, tkey: string, t: string)
    requires Expand(text, es, key) == Expanded(k) && !Found(text, es, k) && TotalKey(key) == Some(tkey)
    requires Expand(text, AppendParents(text, es, k, 0), tkey) == Expanded(t)
    ensures DoAppend(text, es, key, v)
      == Outcome([Edit(EditAppend, k, v)] + CountUp(text, AppendParents(text, es, k, 0), t), Ok)
  {
    hide ExpandFrom, Lookup, AppendParents, TotalKey, CountUp;
  }

  // What appending "t[+]" does to the lookup of the list's children.
  lemma PushLookups(text: string, es: seq<Edit>, base: string, v: string, q: string)
    requires ListBase(base) && ValidEdits(text, es) && InList(base, q)
    requires TotalOf(text, es, TotalKeyOf(base)) < UINT_MAX
    requires !Found(text, es, ItemKey(base, TotalOf(text, es, TotalKeyOf(base)) + 1))
    ensures
      var o, n := DoAppend(text, es, base + PLUS, v), TotalOf(text, es, TotalKeyOf(base)) + 1;
      && o.status == Ok && ValidEdits(text, o.edits)
      && Lookup(text, o.edits, q) ==
           if q == ItemKey(base, n) then Some(EditValue(v))
           else if q == TotalKeyOf(base) then Some(EditValue(ToDec(n)))
           else Lookup(text, es, q)
  {
    hide ExpandFrom, ToDec, LastDot, ItemKey, TotalKeyOf, Lookup, AppendParents, ListBase, DoAppend, ValidEdits,
         TotalOf,
         SelfOrChild, ParentKey;
    var n := TotalOf(text, es, TotalKeyOf(base)) + 1;
    var k := ItemKey(base, n);
    PushOutcome(text, es, base, v);
    ItemShape(base, n);
    NoBracketIn(base);
    AppendValid(text, es, base + PLUS, v);
    var es1 := AppendParents(text, es, k, 0);
    var o := DoAppend(text, es, base + PLUS, v).edits;
    assert o[0] == Edit(EditAppend, k, v);
    assert o[1].key == TotalKeyOf(base) && o[1].op != EditDelete && o[1].value == ToDec(n);
    ParentsElsewhere(text, es, k, q);
    TwoSteps(text, o, es1, q);
  }

  lemma NoBracketIn(base: string)
    requires ListBase(base)
    ensures !Has(base, '[') && base != ""
  {
  }

  lemma TwoSteps(text: string, o: seq<Edit>, es: seq<Edit>, q: string)
    requires |o| == |es| + 2 && o[2..] == es && ValidEdits(text, o) && Rooted(q)
    ensures Lookup(text, o, q) == Overlaid(o[0], q, Overlaid(o[1], q, Lookup(text, es, q)))
  {
    hide FindOver, Overlaid;
    LookupStep(text, o, q);
    LookupStep(text, o[1..], q);
    assert o[1..][1..] == es;
  }

  // One child of an element is not inside another.
  lemma SiblingApart(base: string, q: string, d: string)
    requires InList(base, q) && InList(base, d)
    ensures SelfOrChild(q, d) <==> q == d
  {
  }

  lemma DotOfPart(k: string, i: nat)
    requires LastDot(k) < i <= |k|
    ensures LastDot(k[..i]) == LastDot(k)
  {
    hide LastDot;
    var p := k[..i];
    assert forall j :: 0 <= j < i ==> p[j] == k[j];
    assert LastDot(k) >= 0 ==> p[LastDot(k)] == '.';
  }

  // The digits that a tag ends in, which come before the number of an item.
  function TagDigits(base: string): (ds: string)
    ensures AllDigits(ds)
  {
    base[DigitsStart(base)..]
  }

  // The tag is not made of digits only.
  predicate MixedTag(base: string) {
    DigitsStart(base) > LastDot(base) + 1
  }

  // What deleting item n makes of the total.
  function CountedDown(base: string, n: nat): string {
    Decremented(TagDigits(base) + ToDec(n))
  }

  // The digits of item n's key fit totalbuf.
  predicate NumberFits(base: string, n: nat) {
    |TagDigits(base)| + |ToDec(n)| <= UINT_MAX_LEN
  }

  lemma CountDownItem(text: string, es: seq<Edit>, base: string, n: nat)
    requires ListBase(base) && MixedTag(base) && Found(text, es, TotalKeyOf(base))
    ensures
      var t, left := TotalKeyOf(base), CountedDown(base, n);
      var counted := if left == "" then Edit(EditDelete, t, "") else Edit(EditSet, t, left);
      CountDown(text, es, ItemKey(base, n)) == [counted] + es
    ensures DigitsFit(ItemKey(base, n)) <==> NumberFits(base, n)
  {
    hide ToDec, LastDot, ItemKey, TotalKeyOf, Lookup, TotalBeside, Decremented, DigitsStart;
    ItemTail(base, n);
    ItemTailTotal(base, n);
  }

  lemma DeleteLast(text: string, es: seq<Edit>, key: string, k: string)
    requires Expand(text, es, key) == Expanded(k) && EndsWith(key, LAST) && !EndsWith(key, TOTAL)
    requires Found(text, es, k)
    ensures
      var deleted := [Edit(EditDelete, k, "")] + es;
      DoDelete(text, es, key) ==
        if !DigitsFit(k) then Outcome(deleted, Overrun)
        else if |TotalBeside(k)| > KEY_MAX then Outcome(deleted, Fail(ENOMEM))
        else Outcome(CountDown(text, deleted, k), Ok)
  {
    hide TotalBeside, CountDown, ExpandFrom, Lookup, DigitsFit;
  }

  lemma LastIsNoTotal(base: string)
    ensures EndsWith(base + LAST, LAST) && !EndsWith(base + LAST, TOTAL)
  {
    var key := base + LAST;
    assert key[|key| - 3..] == LAST && LAST[1] == '$' && TOTAL[1] == '#';
  }

  // Deleting "t[$]" of a list that has items records the deletion and the new
  // total, or overruns the buffer for it.
  lemma PopOutcome(text: string, es: seq<Edit>, base: string)
    requires ListBase(base) && MixedTag(base) && ValidEdits(text, es)
    requires 0 < TotalOf(text, es, TotalKeyOf(base)) <= UINT_MAX
    requires Found(text, es, ItemKey(base, TotalOf(text, es, TotalKeyOf(base)))) && Found(text, es, TotalKeyOf(base))
    ensures
      var t, n := TotalKeyOf(base), TotalOf(text, es, TotalKeyOf(base));
      var left, deleted := CountedDown(base, n), [Edit(EditDelete, ItemKey(base, n), "")] + es;
      var counted := if left == "" then Edit(EditDelete, t, "") else Edit(EditSet, t, left);
      DoDelete(text, es, base + LAST) ==
        if NumberFits(base, n) then Outcome([counted] + deleted, Ok) else Outcome(deleted, Overrun)
  {
    hide Expand, ToDec, LastDot, ItemKey, TotalKeyOf, Lookup, ListBase, TotalBeside, CountDown, SelfOrChild, TotalOf,
         ValidEdits, DoDelete, EndsWith, ParentKey, DigitsFit, NumberFits, CountedDown, MixedTag;
    var t, n := TotalKeyOf(base), TotalOf(text, es, TotalKeyOf(base));
    var k := ItemKey(base, n);
    assert base + LAST == base + ['[', '$', ']'];
    ExpandBracket(text, es, base, '$');
    LastIsNoTotal(base);
    NonEmpty(base);
    ItemTailTotal(base, n);
    TotalShort(base);
    DeleteLast(text, es, base + LAST, k);
    TotalShape(base);
    ItemShape(base, n);
    TotalIsNoItem(base, n);
    SiblingApart(base, t, k);
    PushLookup(text, es, Edit(EditDelete, k, ""), t);
    CountDownItem(text, [Edit(EditDelete, k, "")] + es, base, n);
  }

  lemma NonEmpty(base: string)
    requires ListBase(base)
    ensures base != ""
  {
  }

  // What deleting "t[$]" does to the lookup of the list's children.
  lemma PopLookups(text: string, es: seq<Edit>, base: string, q: string)
    requires ListBase(base) && MixedTag(base) && ValidEdits(text, es) && InList(base, q)
    requires 0 < TotalOf(text, es, TotalKeyOf(base)) <= UINT_MAX
    requires Found(text, es, ItemKey(base, TotalOf(text, es, TotalKeyOf(base)))) && Found(text, es, TotalKeyOf(base))
    requires NumberFits(base, TotalOf(text, es, TotalKeyOf(base)))
    ensures
      var o, n := DoDelete(text, es, base + LAST), TotalOf(text, es, TotalKeyOf(base));
      var left := CountedDown(base, n);
      && o.status == Ok && ValidEdits(text, o.edits)
      && Lookup(text, o.edits, q) ==
           if q == ItemKey(base, n) then None
           else if q == TotalKeyOf(base) then if left == "" then None else Some(EditValue(left))
           else Lookup(text, es, q)
  {
    hide ExpandFrom, ToDec, LastDot, ItemKey, TotalKeyOf, Lookup, ListBase, DoDelete, SelfOrChild, TotalOf, ValidEdits,
         NumberFits, CountedDown, MixedTag;
    var t, n := TotalKeyOf(base), TotalOf(text, es, TotalKeyOf(base));
    TotalShape(base);
    ItemShape(base, n);
    TotalIsNoItem(base, n);
    NoBracketIn(base);
    PopOutcome(text, es, base);
    DeleteValid(text, es, base + LAST);
    SiblingApart(base, q, ItemKey(base, n));
    SiblingApart(base, q, t);
    TwoSteps(text, DoDelete(text, es, base + LAST).edits, es, q);
  }

  lemma TotalShort(base: string)
    requires ListBase(base)
    ensures |TotalKeyOf(base)| < KEY_MAX
  {
  }

  // The list has these items, and its total says so.
  ghost predicate Consistent(text: string, es: seq<Edit>, base: string, items: seq<Hit>) {
    && ValidEdits(text, es)
    && |items| <= UINT_MAX
    && TotalOf(text, es, TotalKeyOf(base)) == |items|
    && (Found(text, es, TotalKeyOf(base)) <==> items != [])
    && (forall n :: 0 <= n <= UINT_MAX ==>
          Lookup(text, es, ItemKey(base, n)) == if 1 <= n <= |items| then Some(items[n - 1]) else None)
  }

  datatype ListOp = Push(value: string) | Pop

  // A stack.
  function After(items: seq<Hit>, op: ListOp): seq<Hit> {
    match op
    case Push(v) => items + [EditValue(v)]
    case Pop => if items == [] then [] else items[..|items| - 1]
  }

  function AfterAll(items: seq<Hit>, ops: seq<ListOp>): (r: seq<Hit>)
    ensures |r| <= |items| + |ops|
  {
    if ops == [] then items else After(AfterAll(items, ops[..|ops| - 1]), ops[|ops| - 1])
  }

  // The editor's call for an operation of the list.
  function CallOf(base: string, op: ListOp): Call {
    match op
    case Push(v) => CallAppend(base + PLUS, v)
    case Pop => CallDelete(base + LAST)
  }

  function CallsOf(base: string, ops: seq<ListOp>): seq<Call> {
    seq(|ops|, i requires 0 <= i < |ops| => CallOf(base, ops[i]))
  }

  // What mxml_get gives for the list's total.
  ghost predicate Counts(text: string, es: seq<Edit>, base: string, n: nat) {
    Lookup(text, es, TotalKeyOf(base)) == if n == 0 then None else Some(EditValue(ToDec(n)))
  }

  lemma CountsTotal(text: string, es: seq<Edit>, base: string, n: nat)
    requires n <= UINT_MAX && Counts(text, es, base, n)
    ensures TotalOf(text, es, TotalKeyOf(base)) == n && (Found(text, es, TotalKeyOf(base)) <==> n > 0)
  {
    hide ToDec, TotalKeyOf, Lookup;
    ParseToDec(n);
  }

  lemma PushHolds(text: string, es: seq<Edit>, base: string, items: seq<Hit>, v: string)
    requires ListBase(base) && Consistent(text, es, base, items) && |items| < UINT_MAX
    ensures var o := DoAppend(text, es, base + PLUS, v);
      && o.status == Ok && Consistent(text, o.edits, base, After(items, Push(v)))
      && Counts(text, o.edits, base, |items| + 1)
  {
    hide ExpandFrom, ToDec, LastDot, ItemKey, TotalKeyOf, Lookup, ParentKey, ListBase, DoAppend, ValidEdits, InList,
         TotalOf;
    var t, n := TotalKeyOf(base), |items| + 1;
    var es' := DoAppend(text, es, base + PLUS, v).edits;
    assert Lookup(text, es, ItemKey(base, n)) == None;
    TotalShape(base);
    PushLookups(text, es, base, v, t);
    TotalIsNoItem(base, n);
    CountsTotal(text, es', base, n);
    forall j | 0 <= j <= UINT_MAX
      ensures Lookup(text, es', ItemKey(base, j)) == if 1 <= j <= n then Some(After(items, Push(v))[j - 1]) else None
    {
      PushedItem(text, es, base, items, v, j);
    }
  }

  lemma TotalIsNoItem(base: string, n: nat)
    requires ListBase(base)
    ensures TotalKeyOf(base) != ItemKey(base, n)
  {
    hide LastDot, ItemKey, TotalKeyOf, ListBase, InList;
    TotalShape(base);
    ItemEnd(base, n);
  }

  lemma PushedItem(text: string, es: seq<Edit>, base: string, items: seq<Hit>, v: string, j: nat)
    requires ListBase(base) && Consistent(text, es, base, items) && |items| < UINT_MAX && j <= UINT_MAX
    ensures Lookup(text, DoAppend(text, es, base + PLUS, v).edits, ItemKey(base, j))
      == if 1 <= j <= |items| + 1 then Some(After(items, Push(v))[j - 1]) else None
  {
    hide ExpandFrom, ToDec, LastDot, ItemKey, TotalKeyOf, Lookup, TotalOf, ParentKey, ListBase, DoAppend, ValidEdits,
         InList;
    var n := |items| + 1;
    assert Lookup(text, es, ItemKey(base, n)) == None;
    ItemShape(base, j);
    PushLookups(text, es, base, v, ItemKey(base, j));
    TotalIsNoItem(base, j);
    ItemsDiffer(base, j, n);
  }

  // The total that is left says what it should.
  predicate LeftRight(left: string, n: nat) {
    (left == "" <==> n == 1) && (left != "" ==> ParseUint(left) == Some(n - 1))
  }

  // Deleting "t[$]" always takes the top item off, but leaves the list consistent
  // only when the total that is left is right.
  lemma PopMixed(text: string, es: seq<Edit>, base: string, items: seq<Hit>)
    requires ListBase(base) && MixedTag(base) && Consistent(text, es, base, items) && items != []
    requires NumberFits(base, |items|)
    ensures
      var o, left := DoDelete(text, es, base + LAST), CountedDown(base, |items|);
      && o.status == Ok
      && Lookup(text, o.edits, TotalKeyOf(base)) == (if left == "" then None else Some(EditValue(left)))
      && (Consistent(text, o.edits, base, items[..|items| - 1]) <==> LeftRight(left, |items|))
  {
    hide ToDec, ItemKey, TotalKeyOf, Lookup, ListBase, MixedTag, DoDelete, NumberFits, CountedDown, InList, ValidEdits,
         TotalOf, LeftRight, Consistent;
    var t, n := TotalKeyOf(base), |items|;
    var es' := DoDelete(text, es, base + LAST).edits;
    TopThere(text, es, base, items);
    TotalShape(base);
    PopLookups(text, es, base, t);
    TotalIsNoItem(base, n);
    forall j | 0 <= j <= UINT_MAX
      ensures Lookup(text, es', ItemKey(base, j)) == if 1 <= j <= n - 1 then Some(items[..n - 1][j - 1]) else None
    {
      PoppedItem(text, es, base, items, j);
    }
    ConsistentIff(text, es', base, items[..n - 1], CountedDown(base, n));
  }

  lemma TopThere(text: string, es: seq<Edit>, base: string, items: seq<Hit>)
    requires Consistent(text, es, base, items) && items != []
    ensures ValidEdits(text, es) && TotalOf(text, es, TotalKeyOf(base)) == |items| <= UINT_MAX
    ensures Found(text, es, ItemKey(base, |items|)) && Found(text, es, TotalKeyOf(base))
  {
    hide ToDec, ItemKey, TotalKeyOf, Lookup, ValidEdits, TotalOf;
    assert Lookup(text, es, ItemKey(base, |items|)) == Some(items[|items| - 1]);
  }

  lemma ConsistentIff(text: string, es: seq<Edit>, base: string, items: seq<Hit>, left: string)
    requires ValidEdits(text, es) && |items| < UINT_MAX
    requires Lookup(text, es, TotalKeyOf(base)) == if left == "" then None else Some(EditValue(left))
    requires forall j :: 0 <= j <= UINT_MAX ==>
      Lookup(text, es, ItemKey(base, j)) == if 1 <= j <= |items| then Some(items[j - 1]) else None
    ensures Consistent(text, es, base, items) <==> LeftRight(left, |items| + 1)
  {
    hide ToDec, ItemKey, TotalKeyOf, Lookup, ValidEdits, ParseUint;
  }

  lemma PoppedItem(text: string, es: seq<Edit>, base: string, items: seq<Hit>, j: nat)
    requires ListBase(base) && MixedTag(base) && Consistent(text, es, base, items) && items != [] && j <= UINT_MAX
    requires NumberFits(base, |items|)
    ensures Lookup(text, DoDelete(text, es, base + LAST).edits, ItemKey(base, j))
      == if 1 <= j <= |items| - 1 then Some(items[..|items| - 1][j - 1]) else None
  {
    hide ToDec, ItemKey, TotalKeyOf, Lookup, ListBase, MixedTag, DoDelete, NumberFits, CountedDown, InList,
         ValidEdits, TotalOf;
    var n := |items|;
    assert Lookup(text, es, ItemKey(base, n)) == Some(items[n - 1]);
    ItemShape(base, j);
    PopLookups(text, es, base, ItemKey(base, j));
    TotalIsNoItem(base, j);
    ItemsDiffer(base, j, n);
  }

  lemma PopHolds(text: string, es: seq<Edit>, base: string, items: seq<Hit>)
    requires ListKey(base) && Consistent(text, es, base, items)
    ensures var o := DoDelete(text, es, base + LAST);
      && o.status == Ok && Consistent(text, o.edits, base, After(items, Pop))
      && Counts(text, o.edits, base, |After(items, Pop)|)
  {
    hide Consistent, DoDelete, ListBase, Lookup, ToDec, TotalKeyOf, CountedDown, NumberFits, MixedTag, LeftRight;
    if items == [] {
      PopEmpty(text, es, base);
    } else {
      ItemsFit(text, es, base, items);
      NoTagDigits(base, |items|);
      PopMixed(text, es, base, items);
    }
  }

  lemma ItemsFit(text: string, es: seq<Edit>, base: string, items: seq<Hit>)
    requires Consistent(text, es, base, items)
    ensures |items| <= UINT_MAX
  {
  }

  lemma PopEmpty(text: string, es: seq<Edit>, base: string)
    requires ListBase(base) && Consistent(text, es, base, [])
    ensures DoDelete(text, es, base + LAST) == Outcome(es, Ok) && Counts(text, es, base, 0)
  {
    hide ToDec, ItemKey, TotalKeyOf, Lookup, ListBase, ValidEdits, DoDelete, TotalOf;
    assert Lookup(text, es, ItemKey(base, 0)) == None;
    PopNone(text, es, base);
  }

  // With no digits in the tag the number is the item's.
  lemma NoTagDigits(base: string, n: nat)
    requires ListKey(base) && 1 <= n <= UINT_MAX
    ensures MixedTag(base) && NumberFits(base, n)
    ensures CountedDown(base, n) == (if n == 1 then "" else ToDec(n - 1)) && LeftRight(CountedDown(base, n), n)
  {
    hide ToDec, LastDot, ParseUint, Decremented;
    NoDigits(base);
    assert TagDigits(base) + ToDec(n) == ToDec(n);
    TagIn(base, base);
    UintLength(n);
    DecrementToDec(n);
    ParseToDec(n - 1);
  }

  lemma NoDigits(s: string)
    requires s != "" && !IsDigit(s[|s| - 1])
    ensures DigitsStart(s) == |s|
  {
  }

  // There is no item 0 to delete.
  lemma PopNone(text: string, es: seq<Edit>, base: string)
    requires ListBase(base) && TotalOf(text, es, TotalKeyOf(base)) == 0 && !Found(text, es, ItemKey(base, 0))
    ensures DoDelete(text, es, base + LAST) == Outcome(es, Ok)
  {
    hide ExpandFrom, ToDec, LastDot, ItemKey, TotalKeyOf, FindOver, ListBase, TotalOf;
    assert base + LAST == base + ['[', '$', ']'];
    ExpandBracket(text, es, base, '$');
  }

  // "t[$]" reads the item on top, and there is none of an empty list.
  lemma TopIsLast(text: string, es: seq<Edit>, base: string, items: seq<Hit>)
    requires ListBase(base) && Consistent(text, es, base, items)
    ensures items == [] ==> GetText(text, es, base + LAST) == None
    ensures items != [] ==>
      var top := items[|items| - 1];
      && Lookup(text, es, ItemKey(base, |items|)) == Some(top)
      && GetText(text, es, base + LAST) == Some(Decode(Content(text, top)))
  {
    hide ExpandFrom, ToDec, LastDot, ItemKey, TotalKeyOf, FindOver, ListBase, TotalOf, Decode, ValidEdits;
    assert base + LAST == base + ['[', '$', ']'];
    ExpandBracket(text, es, base, '$');
    assert !EndsWith(base + LAST, TOTAL);
    assert Lookup(text, es, ItemKey(base, |items|)) == if items == [] then None else Some(items[|items| - 1]);
  }

  // "t[#]" reads the number of items after an operation has counted them.
  lemma TotalReads(text: string, es: seq<Edit>, base: string, n: nat)
    requires ListBase(base) && n <= UINT_MAX && Counts(text, es, base, n)
    ensures GetText(text, es, base + TOTAL) == Some(ToDec(n))
  {
    hide ExpandFrom, ToDec, LastDot, ItemKey, TotalKeyOf, FindOver, ListBase, Decode;
    assert base + TOTAL == base + ['[', '#', ']'];
    ParseToDec(n);
    ExpandBracket(text, es, base, '#');
    if n == 0 {
      ZeroDec();
    } else {
      DecodeKeepsPlain(ToDec(n));
    }
  }

  // What one operation leaves.
  lemma OneOperation(text: string, es: seq<Edit>, base: string, items: seq<Hit>, op: ListOp)
    requires ListKey(base) && Consistent(text, es, base, items) && |items| < UINT_MAX
    ensures
      var es', held := Answer(text, es, CallOf(base, op)).edits, After(items, op);
      Consistent(text, es', base, held) && Counts(text, es', base, |held|)
  {
    hide Consistent, ListBase, DoAppend, DoDelete, Counts;
    match op {
      case Push(v) => PushHolds(text, es, base, items, v);
      case Pop => PopHolds(text, es, base, items);
    }
  }

  // Over every run of list operations, after any run of the editor that leaves a
  // list with these items, the list is the stack that the operations make; and after
  // the first of them "t[#]" reads the number of its items.
  lemma {:induction false} ListIsStack(text: string, before: seq<Call>, base: string, items: seq<Hit>, ops: seq<ListOp>)
    requires ListKey(base) && Consistent(text, Run(text, before), base, items) && |items| + |ops| <= UINT_MAX
    ensures
      var es, held := Run(text, before + CallsOf(base, ops)), AfterAll(items, ops);
      && Consistent(text, es, base, held)
      && (ops != [] ==> Counts(text, es, base, |held|) && GetText(text, es, base + TOTAL) == Some(ToDec(|held|)))
    decreases |ops|
  {
    hide Consistent, ListBase, Answer, CallOf, Counts, GetText, ToDec, After;
    var calls := before + CallsOf(base, ops);
    if ops == [] {
      assert calls == before;
    } else {
      var init := ops[..|ops| - 1];
      ListIsStack(text, before, base, items, init);
      assert calls[..|calls| - 1] == before + CallsOf(base, init);
      var es, held := Run(text, before + CallsOf(base, init)), AfterAll(items, init);
      OneOperation(text, es, base, held, ops[|ops| - 1]);
      TotalReads(text, Run(text, calls), base, |AfterAll(items, ops)|);
    }
  }

  // Where there is no list yet, there is one of no items.
  lemma FreshList(text: string, es: seq<Edit>, base: string)
    requires ListBase(base) && ValidEdits(text, es) && !Found(text, es, base + "s")
    ensures Consistent(text, es, base, [])
  {
    hide ToDec, LastDot, ItemKey, TotalKeyOf, FindOver, ListBase, ValidEdits, ParentKey;
    TotalShape(base);
    if Found(text, es, TotalKeyOf(base)) {
      ParentFound(text, es, TotalKeyOf(base));
      assert false;
    }
    forall n | 0 <= n <= UINT_MAX
      ensures Lookup(text, es, ItemKey(base, n)) == None
    {
      ItemShape(base, n);
      if Found(text, es, ItemKey(base, n)) {
        ParentFound(text, es, ItemKey(base, n));
        assert false;
      }
    }
  }

  lemma TagSplit(base: string)
    requires base != "" && DigitsStart(base) > LastDot(base) + 1
    ensures
      var j, stem := DigitsStart(base), base[LastDot(base) + 1..DigitsStart(base)];
      LastTag(base) == stem + base[j..] && !IsDigit(stem[|stem| - 1])
  {
    hide LastDot, DigitsStart, AllDigits;
    Split(base, LastDot(base) + 1, DigitsStart(base));
  }

  lemma Split(s: string, d: nat, j: nat)
    requires d < j <= |s|
    ensures s[d..] == s[d..j] + s[j..] && s[d..j][j - d - 1] == s[j - 1]
  {
  }

  lemma ItemTail(base: string, n: nat)
    requires base != "" && DigitsStart(base) > LastDot(base) + 1
    ensures
      var k := ItemKey(base, n);
      DigitsStart(k) > |base| + 2 && k[DigitsStart(k)..] == base[DigitsStart(base)..] + ToDec(n)
  {
    hide LastDot, ToDec, DigitsStart, AllDigits, LastTag, ItemKey, Ext;
    var stem, ds := base[LastDot(base) + 1..DigitsStart(base)], base[DigitsStart(base)..];
    TagSplit(base);
    ItemParts(base, n);
    DigitsOfTail(ItemKey(base, n), base + "s.", stem, ds, ToDec(n));
  }

  lemma ItemParts(base: string, n: nat)
    requires base != ""
    ensures ItemKey(base, n) == base + "s." + (LastTag(base) + ToDec(n))
  {
    hide LastDot, ToDec, LastTag;
    assert base + "s" + "." == base + "s.";
  }

  lemma DigitsOfTail(k: string, front: string, stem: string, ds: string, dec: string)
    requires k == front + ((stem + ds) + dec) && stem != "" && !IsDigit(stem[|stem| - 1])
    requires AllDigits(ds) && AllDigits(dec)
    ensures DigitsStart(k) == |front| + |stem| && k[DigitsStart(k)..] == ds + dec
  {
    hide AllDigits, DigitsStart;
    RegroupFour(front, stem, ds, dec);
    BothDigits(ds, dec);
    DigitsAfter(front + stem, ds + dec);
  }

  lemma RegroupFour(a: string, b: string, c: string, d: string)
    requires b != ""
    ensures a + ((b + c) + d) == (a + b) + (c + d) && (a + b)[|a + b| - 1] == b[|b| - 1]
  {
    assert a + ((b + c) + d) == (a + b) + (c + d);
  }

  lemma BothDigits(a: string, b: string)
    requires AllDigits(a) && AllDigits(b)
    ensures AllDigits(a + b)
  {
  }

  lemma ItemTailTotal(base: string, n: nat)
    requires base != "" && MixedTag(base)
    ensures TotalBeside(ItemKey(base, n)) == TotalKeyOf(base)
  {
    hide LastDot, ToDec, DigitsStart, LastTag, ParentKey, AllDigits, ItemKey, TotalKeyOf, TotalBeside;
    ItemTail(base, n);
    ItemDot(base, n);
    ItemFront(base, n);
    var k := ItemKey(base, n);
    DotOfPart(k, DigitsStart(k) - 1);
    BesideAt(k, DigitsStart(k) - 1);
  }

  lemma BesideAt(k: string, i: nat)
    requires DigitsStart(k) == i + 1
    ensures TotalBeside(k) == k[..LastDot(k[..i]) + 1] + "total"
  {
    hide LastDot, DigitsStart;
  }

  lemma ItemFront(base: string, n: nat)
    requires base != ""
    ensures var k := ItemKey(base, n); |k| >= |base| + 2 && k[..|base| + 2] + "total" == TotalKeyOf(base)
  {
    hide LastDot, ToDec, LastTag;
    var k := ItemKey(base, n);
    assert k[..|base| + 2] == base + "s" + ".";
  }
}
