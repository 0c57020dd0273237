// Every run of the editor's operations leaves an edit list in which each edit
// was recorded with what it needs there.
module ApiReach {
  import opened Chars
  import opened KeyPath
  import opened Decimal
  import opened DocFind
  import opened MxmlInt
  import opened Find
  import opened Ekey
  import opened Api
  import opened Reachable

  datatype Call =
    | CallAppend(key: string, value: string)
    | CallUpdate(key: string, value: string)
    | CallDelete(key: string)
    | CallSet(key: string, newValue: Option<string>)

  function Answer(text: string, es: seq<Edit>, c: Call): Outcome {
    match c
    case CallAppend(key, value) => DoAppend(text, es, key, value)
    case CallUpdate(key, value) => DoUpdate(text, es, key, value)
    case CallDelete(key) => DoDelete(text, es, key)
    case CallSet(key, v) => DoSet(text, es, key, v)
  }

  // The edit list after calls, the latest of them last.
  function Run(text: string, calls: seq<Call>): seq<Edit> {
    if calls == [] then []
    else Answer(text, Run(text, calls[..|calls| - 1]), calls[|calls| - 1]).edits
  }

  lemma PushOk(text: string, es: seq<Edit>, e: Edit)
    requires ValidEdits(text, es) && EditOk(text, es, e)
    ensures ValidEdits(text, [e] + es)
  {
    assert ([e] + es)[1..] == es;
  }

  lemma PushLookup(text: string, es: seq<Edit>, e: Edit, key: string)
    requires ValidEdits(text, es) && EditOk(text, es, e) && Rooted(key)
    ensures Lookup(text, [e] + es, key) == Overlaid(e, key, Lookup(text, es, key))
  {
    PushOk(text, es, e);
    LookupStep(text, [e] + es, key);
    assert ([e] + es)[1..] == es;
  }

  // es1 has grown from es by elements with no text of their own.
  ghost predicate GrownEmpty(text: string, es: seq<Edit>, es1: seq<Edit>) {
    forall q :: Rooted(q) ==>
      Lookup(text, es1, q) == Lookup(text, es, q) ||
      (!Found(text, es, q) && Lookup(text, es1, q) == Some(EditValue("")))
  }

  // Every parent of k within its first n characters is there.
  ghost predicate ParentsFound(text: string, es: seq<Edit>, k: string, n: nat)
    requires n <= |k|
  {
    forall d :: 0 < d < n && k[d] == '.' ==> Found(text, es, k[..d])
  }

  lemma AddParent(text: string, es: seq<Edit>, k: string, d: nat)
    requires ValidEdits(text, es) && Rooted(k) && 0 < d < |k| && k[d] == '.'
    requires ParentsFound(text, es, k, d) && !Found(text, es, k[..d])
    ensures
      var e := Edit(EditAppend, k[..d], "");
      EditOk(text, es, e) && ValidEdits(text, [e] + es) && GrownEmpty(text, es, [e] + es)
  {
    hide Lookup;
    var e := Edit(EditAppend, k[..d], "");
    var p := LastDot(e.key);
    if p >= 0 {
      assert e.key[..p] == k[..p] && k[p] == '.' && p > 0;
    }
    PushOk(text, es, e);
    forall q | Rooted(q)
      ensures Lookup(text, [e] + es, q) == Overlaid(e, q, Lookup(text, es, q))
    {
      PushLookup(text, es, e, q);
    }
  }

  lemma {:induction false} ParentsAdded(text: string, es: seq<Edit>, k: string, from: nat)
    requires ValidEdits(text, es) && Rooted(k) && !Found(text, es, k) && from <= |k|
    requires ParentsFound(text, es, k, from)
    ensures
      var es1 := AppendParents(text, es, k, from);
      ValidEdits(text, es1) && ParentsFound(text, es1, k, |k|) && GrownEmpty(text, es, es1) && !Found(text, es1, k)
    decreases |k| - from
  {
    hide Lookup;
    var dot := NextCh(k, from, |k|, '.');
    if dot == |k| {
    } else {
      var e := Edit(EditAppend, k[..dot], "");
      var next := if Lookup(text, es, k[..dot]).Some? then es else [e] + es;
      if next != es {
        AddParent(text, es, k, dot);
        PushLookup(text, es, e, k);
        PushLookup(text, es, e, k[..dot]);
      }
      ParentsAdded(text, next, k, dot + 1);
    }
  }

  // q names an element around the one that k names.
  predicate Around(k: string, q: string) {
    q != k && SelfOrChild(k, q)
  }

  // Adding the missing parents of k changes no other lookup.
  lemma {:induction false} ParentsBeside(text: string, es: seq<Edit>, k: string, from: nat, q: string)
    requires ValidEdits(text, es) && Rooted(k) && !Found(text, es, k) && from <= |k|
    requires ParentsFound(text, es, k, from) && Rooted(q) && !Around(k, q)
    ensures Lookup(text, AppendParents(text, es, k, from), q) == Lookup(text, es, q)
    decreases |k| - from
  {
    hide Lookup;
    var dot := NextCh(k, from, |k|, '.');
    if dot == |k| {
    } else {
      var e := Edit(EditAppend, k[..dot], "");
      var next := if Lookup(text, es, k[..dot]).Some? then es else [e] + es;
      if next != es {
        AddParent(text, es, k, dot);
        PushLookup(text, es, e, k);
        PushLookup(text, es, e, k[..dot]);
        PushLookup(text, es, e, q);
      }
      ParentsBeside(text, next, k, dot + 1, q);
    }
  }

  // What has its parent there adds no parents.
  lemma AppendUnder(text: string, es: seq<Edit>, k: string)
    requires ValidEdits(text, es) && Rooted(k) && LastDot(k) >= 0 && Found(text, es, ParentKey(k))
    ensures AppendParents(text, es, k, 0) == es
  {
    hide LastDot, Found;
    RootedParent(k);
    forall d | 0 <= d < |k| && k[d] == '.'
      ensures Found(text, es, k[..d])
    {
      assert d == LastDot(k) || ParentKey(k)[..d] == k[..d];
      AncestorFound(text, es, ParentKey(k), k[..d]);
    }
    AllParents(text, es, k, 0);
  }

  lemma {:induction false} AllParents(text: string, es: seq<Edit>, k: string, from: nat)
    requires from <= |k| && forall d :: from <= d < |k| && k[d] == '.' ==> Found(text, es, k[..d])
    ensures AppendParents(text, es, k, from) == es
    decreases |k| - from
  {
    hide Lookup;
    var dot := NextCh(k, from, |k|, '.');
    if dot == |k| {
    } else {
      AllParents(text, es, k, dot + 1);
    }
  }

  // Elements with no text of their own change no total, and no expansion.
  lemma SameTotal(text: string, es: seq<Edit>, es1: seq<Edit>, q: string)
    requires GrownEmpty(text, es, es1) && Rooted(q)
    ensures TotalOf(text, es1, q) == TotalOf(text, es, q)
  {
    hide Lookup;
    NoNumber();
  }

  lemma NoNumber()
    ensures ParseUint("") == None
  {
  }

  lemma {:induction false} SameExpansion(text: string, es: seq<Edit>, es1: seq<Edit>, key: string,
                                         i: nat, tagstart: nat, out: string)
    requires GrownEmpty(text, es, es1) && tagstart <= i <= |key|
    requires if i == 0 then out == "" && key != "" else Rooted(out)
    ensures ExpandFrom(text, es1, key, i, tagstart, out) == ExpandFrom(text, es, key, i, tagstart, out)
    decreases |key| - i
  {
    hide TotalOf, GrownEmpty, PastDigits;
    if i < |key| && !(key[i] == '.' && i == tagstart) {
      if key[i] != '[' {
        if |out| < KEY_MAX {
          SameExpansion(text, es, es1, key, i + 1, if key[i] == '.' then i + 1 else tagstart, out + [key[i]]);
        }
      } else if i != tagstart {
        SameTotal(text, es, es1, out + "s.total");
        assert out + "s" + ".total" == out + "s.total";
        SameInside(text, es, es1, key, i, tagstart, out);
        InsideRooted(text, es, key, i, tagstart, out);
        match Bracket(text, es, key, i, tagstart, out) {
          case NoPiece(_) =>
          case Piece(o, n) => SameExpansion(text, es, es1, key, n, tagstart, o);
        }
      }
    }
  }

  lemma SameInside(text: string, es: seq<Edit>, es1: seq<Edit>, key: string, i: nat, tagstart: nat, out: string)
    requires tagstart < i < |key|
    requires TotalOf(text, es1, out + "s" + ".total") == TotalOf(text, es, out + "s" + ".total")
    ensures Bracket(text, es1, key, i, tagstart, out) == Bracket(text, es, key, i, tagstart, out)
  {
    hide TotalOf, PastDigits, ToDec;
  }

  // t is the total of the list that k goes on into an item of.
  ghost predicate Beside(k: string, t: string) {
    exists list, item, rest ::
      && Rooted(list) && t == list + ".total" && k == list + "." + item + rest
      && item != "" && IsDigit(item[|item| - 1])
  }

  lemma BesideFacts(k: string, t: string)
    requires Beside(k, t)
    ensures k != t && LastDot(t) > 0 && Rooted(t)
    ensures var d := LastDot(t); d < |k| && k[d] == '.' && k[..d] == ParentKey(t)
  {
    var list, item, rest :| Rooted(list) && t == list + ".total" && k == list + "." + item + rest
      && item != "" && IsDigit(item[|item| - 1]);
    TotalDot(list);
    ItemFacts(list, item, rest);
  }

  lemma TotalDot(list: string)
    requires Rooted(list)
    ensures var t := list + ".total";
      LastDot(t) == |list| && t[..|list|] == list && Rooted(t) && forall i :: |list| < i < |t| ==> !IsDigit(t[i])
  {
    var n, t := |list|, list + ".total";
    assert t[n] == '.' && forall i :: n < i < |t| ==> t[i] == "total"[i - n - 1];
  }

  lemma ItemFacts(list: string, item: string, rest: string)
    requires item != ""
    ensures var k := list + "." + item + rest;
      k[|list|] == '.' && k[..|list|] == list && k[|list| + |item|] == item[|item| - 1]
  {
    var k := list + "." + item + rest;
    assert k == list + ("." + item + rest);
    assert k == list + "." + (item + rest);
  }

  // What has been output stays.
  lemma {:induction false} ExpandExtends(text: string, es: seq<Edit>, key: string, i: nat, tagstart: nat, out: string)
    requires tagstart <= i <= |key|
    ensures var r := ExpandFrom(text, es, key, i, tagstart, out); r.Expanded? ==> out <= r.key
    decreases |key| - i
  {
    hide PastDigits, TotalOf, ToDec;
    if i < |key| && !(key[i] == '.' && i == tagstart) {
      if key[i] != '[' {
        if |out| < KEY_MAX {
          ExpandExtends(text, es, key, i + 1, if key[i] == '.' then i + 1 else tagstart, out + [key[i]]);
        }
      } else if i != tagstart {
        BracketExtends(text, es, key, i, tagstart, out);
        match Bracket(text, es, key, i, tagstart, out) {
          case NoPiece(_) =>
          case Piece(o, n) => ExpandExtends(text, es, key, n, tagstart, o);
        }
      }
    }
  }

  lemma BracketExtends(text: string, es: seq<Edit>, key: string, i: nat, tagstart: nat, out: string)
    requires tagstart < i < |key|
    ensures var r := Bracket(text, es, key, i, tagstart, out); r.Piece? ==> out <= r.out
  {
    hide PastDigits, TotalOf, ToDec;
  }

  lemma {:induction false} SameDigits(a: string, b: string, i: nat, n: nat)
    requires i <= n < |a| && n < |b| && a[..n] == b[..n] && !IsDigit(a[n]) && !IsDigit(b[n])
    ensures PastDigits(a, i) == PastDigits(b, i) <= n
    decreases n - i
  {
    if i == n {
    } else {
      assert a[i] == a[..n][i] == b[i];
      if IsDigit(a[i]) { SameDigits(a, b, i + 1, n); }
    }
  }

  // Before the "[+]" at b a key and its total's key expand alike.
  lemma SameBracketBefore(text: string, es: seq<Edit>, key: string, tkey: string, b: nat,
                          i: nat, tagstart: nat, out: string)
    requires tagstart < i < b && b + 3 <= |key| && b + 3 <= |tkey|
    requires key[..b] == tkey[..b] && key[b] == '[' == tkey[b]
    ensures
      var r, t := Bracket(text, es, key, i, tagstart, out), Bracket(text, es, tkey, i, tagstart, out);
      r.Piece? ==> t == r && r.next < b
  {
    hide PastDigits, TotalOf, ToDec;
    SameDigits(key, tkey, i + 1, b);
    assert forall j :: 0 <= j < b ==> key[j] == key[..b][j] == tkey[j];
    assert key[tagstart..i] == key[..b][tagstart..i] == tkey[tagstart..i];
    var n := PastDigits(key, i + 1);
    assert key[i + 1..n] == key[..b][i + 1..n] == tkey[i + 1..n];
  }

  // A key with "[+]" names an item of the list whose total it counts up.
  lemma {:induction false} ThroughPlus(text: string, es: seq<Edit>, key: string, b: nat,
                                       i: nat, tagstart: nat, out: string)
    requires tagstart <= i <= b && At(key, b, |key|, PLUS)
    requires if i == 0 then out == "" else Rooted(out)
    requires ExpandFrom(text, es, key, i, tagstart, out).Expanded?
    requires ExpandFrom(text, es, key[..b] + TOTAL, i, tagstart, out).Expanded?
    ensures Beside(ExpandFrom(text, es, key, i, tagstart, out).key,
                   ExpandFrom(text, es, key[..b] + TOTAL, i, tagstart, out).key)
    decreases b - i
  {
    hide Inside, Beside, At;
    AtChars(key, b, |key|, PLUS);
    assert PLUS[0] == '[' && PLUS[1] == '+' && PLUS[2] == ']';
    var tkey := key[..b] + TOTAL;
    assert tkey[..b] == key[..b] && tkey[b] == '[' && tkey[b + 1] == '#' && tkey[b + 2] == ']';
    if i == b {
      AtPlus(text, es, key, tkey, b, tagstart, out);
    } else {
      assert key[i] == key[..b][i] == tkey[i];
      if key[i] != '[' {
        ThroughPlus(text, es, key, b, i + 1, if key[i] == '.' then i + 1 else tagstart, out + [key[i]]);
      } else {
        SameBracketBefore(text, es, key, tkey, b, i, tagstart, out);
        InsideRooted(text, es, key, i, tagstart, out);
        var piece := Bracket(text, es, key, i, tagstart, out);
        ThroughPlus(text, es, key, b, piece.next, tagstart, piece.out);
      }
    }
  }

  lemma AtPlus(text: string, es: seq<Edit>, key: string, tkey: string, b: nat, tagstart: nat, out: string)
    requires tagstart < b && b + 3 <= |key| && b + 3 == |tkey| && Rooted(out)
    requires key[b] == '[' && key[b + 1] == '+' && key[b + 2] == ']'
    requires tkey[..b] == key[..b] && tkey[b] == '[' && tkey[b + 1] == '#' && tkey[b + 2] == ']'
    requires ExpandFrom(text, es, key, b, tagstart, out).Expanded?
    requires ExpandFrom(text, es, tkey, b, tagstart, out).Expanded?
    ensures Beside(ExpandFrom(text, es, key, b, tagstart, out).key, ExpandFrom(text, es, tkey, b, tagstart, out).key)
  {
    hide PastDigits, TotalOf, ToDec;
    var list, total := out + "s", out + "s" + ".total";
    var item := key[tagstart..b] + ToDec(IndexOf(text, es, total, '+'));
    assert Bracket(text, es, tkey, b, tagstart, out) == Piece(total, b + 3);
    assert Bracket(text, es, key, b, tagstart, out)
        == Piece(list + "." + key[tagstart..b] + ToDec(IndexOf(text, es, total, '+')), b + 3);
    var o := list + "." + item;
    assert o == list + "." + key[tagstart..b] + ToDec(IndexOf(text, es, total, '+'));
    ExpandExtends(text, es, key, b + 3, tagstart, o);
    var k := ExpandFrom(text, es, key, b, tagstart, out).key;
    assert k == o + k[|o|..];
    assert Beside(k, total);
  }

  lemma AppendKeepsFound(text: string, es: seq<Edit>, e: Edit, key: string)
    requires ValidEdits(text, es) && EditOk(text, es, e) && e.op != EditDelete && Rooted(key)
    ensures Found(text, es, key) ==> Found(text, [e] + es, key)
    ensures e.key != key ==> Lookup(text, [e] + es, key) == Lookup(text, es, key)
  {
    PushLookup(text, es, e, key);
  }

  lemma ParentOfFound(text: string, es: seq<Edit>, k: string)
    requires ParentsFound(text, es, k, |k|) && Rooted(k)
    ensures LastDot(k) >= 0 ==> Found(text, es, ParentKey(k))
  {
  }

  lemma CountUpValid(text: string, es: seq<Edit>, k: string, t: string)
    requires ValidEdits(text, es) && Rooted(k) && Beside(k, t)
    requires ParentsFound(text, es, k, |k|) && !Found(text, es, k)
    ensures ValidEdits(text, CountUp(text, es, t))
    ensures !Found(text, CountUp(text, es, t), k)
    ensures LastDot(k) >= 0 ==> Found(text, CountUp(text, es, t), ParentKey(k))
  {
    hide Lookup, TotalOf, ToDec;
    BesideFacts(k, t);
    var e := CountUp(text, es, t)[0];
    assert CountUp(text, es, t) == [e] + es;
    assert Found(text, es, ParentKey(t));
    assert EditOk(text, es, e);
    PushOk(text, es, e);
    AppendKeepsFound(text, es, e, k);
    if LastDot(k) >= 0 {
      ParentOfFound(text, es, k);
      RootedParent(k);
      AppendKeepsFound(text, es, e, ParentKey(k));
    }
  }

  lemma AppendValid(text: string, es: seq<Edit>, key: string, value: string)
    requires ValidEdits(text, es) && key != ""
    ensures ValidEdits(text, DoAppend(text, es, key, value).edits)
  {
    hide Lookup, TotalOf, ToDec, AppendParents, ExpandFrom, CountUp;
    var x := Expand(text, es, key);
    if x.Expanded? && !Found(text, es, x.key) {
      var k := x.key;
      ExpandFromRooted(text, es, key, 0, 0, "");
      ParentsAdded(text, es, k, 0);
      var es1 := AppendParents(text, es, k, 0);
      ParentOfFound(text, es1, k);
      match TotalKey(key) {
        case None => PushOk(text, es1, Edit(EditAppend, k, value));
        case Some(tkey) =>
          SameExpansion(text, es, es1, tkey, 0, 0, "");
          var y := Expand(text, es1, tkey);
          if y.Expanded? {
            ThroughPlus(text, es, key, NextPat(key, 0, |key|, PLUS), 0, 0, "");
            CountUpValid(text, es1, k, y.key);
            PushOk(text, CountUp(text, es1, y.key), Edit(EditAppend, k, value));
          }
      }
    }
  }

  lemma BesideDeleted(k: string)
    requires Rooted(k)
    ensures
      var t := TotalBeside(k);
      && Rooted(t)
      && (LastDot(t) >= 0 ==> Rooted(ParentKey(t)) && SelfOrChild(k, ParentKey(t)) && !SelfOrChild(ParentKey(t), k))
  {
    hide DigitsStart;
    var j := DigitsStart(k);
    var i := if j > 0 then j - 1 else 0;
    var p := LastDot(k[..i]);
    assert p >= 0 ==> k[..i][p] == k[p] == '.';
    var t := k[..p + 1] + "total";
    assert forall m :: p < m < |t| ==> t[m] == "total"[m - p - 1];
    assert p >= 0 ==> t[p] == k[p];
    assert LastDot(t) == p;
    assert p >= 0 ==> t[..p] == k[..p];
  }

  lemma CountDownValid(text: string, es: seq<Edit>, k: string)
    requires ValidEdits(text, es) && Rooted(k) && Found(text, es, k)
    ensures
      var deleted := [Edit(EditDelete, k, "")] + es;
      ValidEdits(text, deleted) && ValidEdits(text, CountDown(text, deleted, k))
  {
    hide Lookup, TotalBeside, DigitsStart, Decremented;
    var e := Edit(EditDelete, k, "");
    var deleted := [e] + es;
    PushOk(text, es, e);
    var t, total := TotalBeside(k), Decremented(k[DigitsStart(k)..]);
    BesideDeleted(k);
    if Found(text, deleted, t) {
      PushOk(text, deleted, if total == "" then Edit(EditDelete, t, "") else Edit(EditSet, t, total));
    } else if total != "" {
      if LastDot(t) >= 0 {
        AncestorFound(text, es, k, ParentKey(t));
        PushLookup(text, es, e, ParentKey(t));
      }
      PushOk(text, deleted, Edit(EditAppend, t, total));
    }
  }

  lemma DeleteValid(text: string, es: seq<Edit>, key: string)
    requires ValidEdits(text, es) && key != ""
    ensures ValidEdits(text, DoDelete(text, es, key).edits)
  {
    hide Lookup, TotalBeside, CountDown, ExpandFrom;
    var x := Expand(text, es, key);
    if x.Expanded? {
      ExpandFromRooted(text, es, key, 0, 0, "");
      if Found(text, es, x.key) {
        CountDownValid(text, es, x.key);
      }
    }
  }

  lemma UpdateValid(text: string, es: seq<Edit>, key: string, value: string)
    requires ValidEdits(text, es) && key != ""
    ensures ValidEdits(text, DoUpdate(text, es, key, value).edits)
  {
    hide Lookup, ExpandFrom;
    var x := Expand(text, es, key);
    if x.Expanded? {
      ExpandFromRooted(text, es, key, 0, 0, "");
      if Found(text, es, x.key) {
        PushOk(text, es, Edit(EditSet, x.key, value));
      }
    }
  }

  // Whatever the document and whatever is asked of the editor, every edit it
  // holds was recorded with what it needs there.
  lemma {:induction false} RunValid(text: string, calls: seq<Call>)
    requires forall c :: c in calls ==> c.key != ""
    ensures ValidEdits(text, Run(text, calls))
  {
    hide ValidEdits, DoAppend, DoDelete, DoUpdate;
    if calls == [] {
      NoEditsValid(text);
    } else {
      var before := Run(text, calls[..|calls| - 1]);
      var c := calls[|calls| - 1];
      RunValid(text, calls[..|calls| - 1]);
      match c {
        case CallAppend(key, value) => AppendValid(text, before, key, value);
        case CallUpdate(key, value) => UpdateValid(text, before, key, value);
        case CallDelete(key) => DeleteValid(text, before, key);
        case CallSet(key, v) =>
          DeleteValid(text, before, key);
          if v.Some? {
            AppendValid(text, before, key, v.value);
            UpdateValid(text, DoAppend(text, before, key, v.value).edits, key, v.value);
          }
      }
    }
  }

  lemma NoEditsValid(text: string)
    ensures ValidEdits(text, [])
  {
  }
}
