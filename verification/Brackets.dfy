// Keys with brackets: when two documents expand a key alike, and what mxml_get
// then gives for it before and after writing.
module Brackets {
  import opened Chars
  import opened KeyPath
  import opened Decimal
  import opened Codec
  import opened DocFind
  import opened MxmlInt
  import opened Find
  import opened Ekey
  import opened Api
  import opened Tree
  import opened TreeTokens
  import opened Reachable
  import opened ApiReach
  import opened Write
  import opened Agreement
  import opened RunAgreement
  import opened Totals
  import opened Flatten
  import opened Tokenizer

  // A document and its edits.
  datatype View = View(text: string, es: seq<Edit>)

  // The total that the bracket at i reads, if it reads one.
  function TotalRead(key: string, i: nat, out: string): set<string> {
    var c, t := CharAt(key, i + 1), out + "s" + ".total";
    if (c == '$' || c == '+') && |t| <= KEY_MAX then {t} else {}
  }

  // All that are read in expanding the key from i on.
  function TotalsFrom(a: View, key: string, i: nat, ts: nat, out: string): set<string>
    requires ts <= i <= |key|
    decreases |key| - i
  {
    if i == |key| || (key[i] == '.' && i == ts) then {}
    else if key[i] != '[' then
      if |out| >= KEY_MAX then {}
      else TotalsFrom(a, key, i + 1, if key[i] == '.' then i + 1 else ts, out + [key[i]])
    else if i == ts then {}
    else
      TotalRead(key, i, out) +
        match Bracket(a.text, a.es, key, i, ts, out)
        case NoPiece(_) => {}
        case Piece(o, n) => TotalsFrom(a, key, n, ts, o)
  }

  function TotalsRead(a: View, key: string): set<string> {
    TotalsFrom(a, key, 0, 0, "")
  }

  // Both give the same for every total of these.
  predicate SameTotals(a: View, b: View, ts: set<string>) {
    forall t :: t in ts ==> TotalOf(a.text, a.es, t) == TotalOf(b.text, b.es, t)
  }

  lemma SameBracket(a: View, b: View, key: string, i: nat, ts: nat, out: string)
    requires ts < i < |key| && SameTotals(a, b, TotalRead(key, i, out))
    ensures Bracket(a.text, a.es, key, i, ts, out) == Bracket(b.text, b.es, key, i, ts, out)
  {
    hide TotalOf, ToDec, PastDigits;
    assert TotalRead(key, i, out) != {} ==> out + "s" + ".total" in TotalRead(key, i, out);
  }

  // What follows a bracket's output in the expansion: nothing, or a dot.
  lemma AfterBracket(a: View, key: string, i: nat, ts: nat, out: string)
    requires ts < i <= |key| && (i < |key| ==> key[i] == '.')
    requires ExpandFrom(a.text, a.es, key, i, ts, out).Expanded?
    ensures var k := ExpandFrom(a.text, a.es, key, i, ts, out).key;
      out <= k && (|k| == |out| || k[|out|] == '.')
  {
    hide Bracket;
    ExpandExtends(a.text, a.es, key, i, ts, out);
    if i < |key| {
      ExpandExtends(a.text, a.es, key, i + 1, i + 1, out + [key[i]]);
    }
  }

  // Different numbers make different keys.
  lemma NumbersTell(p: string, m: nat, n: nat, k: string)
    requires p + ToDec(m) <= k && (|k| == |p + ToDec(m)| || k[|p + ToDec(m)|] == '.')
    requires p + ToDec(n) <= k && (|k| == |p + ToDec(n)| || k[|p + ToDec(n)|] == '.')
    ensures m == n
  {
    hide ToDec;
    var s, t := ToDec(m), ToDec(n);
    assert forall j :: |p| <= j < |p| + |s| ==> k[j] == (p + s)[j] && (p + s)[j] == s[j - |p|];
    assert forall j :: |p| <= j < |p| + |t| ==> k[j] == (p + t)[j] && (p + t)[j] == t[j - |p|];
    assert forall j :: |p| <= j < |p| + |s| ==> IsDigit(k[j]);
    assert forall j :: |p| <= j < |p| + |t| ==> IsDigit(k[j]);
    assert |s| == |t|;
    assert s == k[|p|..|p| + |s|] && t == k[|p|..|p| + |t|];
    assert s == t;
    ToDecInjective(m, n);
  }

  lemma NextInjective(m: nat, n: nat)
    requires m <= UINT_MAX && n <= UINT_MAX
    ensures Next(m) == Next(n) <==> m == n
  {
  }

  lemma TotalIsUint(text: string, es: seq<Edit>, t: string)
    ensures TotalOf(text, es, t) <= UINT_MAX
  {
  }

  // A bracket that reads a total, where it is not refused.
  lemma CountedPiece(a: View, key: string, i: nat, ts: nat, out: string)
    requires ts < i < |key| && (CharAt(key, i + 1) == '$' || CharAt(key, i + 1) == '+')
    requires Bracket(a.text, a.es, key, i, ts, out).Piece?
    ensures
      var n := IndexOf(a.text, a.es, out + "s" + ".total", CharAt(key, i + 1));
      var piece := Bracket(a.text, a.es, key, i, ts, out);
      && piece == Piece(out + "s" + "." + key[ts..i] + ToDec(n), i + 3)
      && (i + 3 == |key| || (i + 3 < |key| && key[i + 3] == '.'))
  {
    hide TotalOf, ToDec, PastDigits, IndexOf;
  }

  // Where the totals differ, so do the keys.
  lemma OtherTotalOtherKey(a: View, b: View, key: string, i: nat, ts: nat, out: string)
    requires ts < i < |key| && key[i] == '[' && !SameTotals(a, b, TotalRead(key, i, out))
    requires ExpandFrom(a.text, a.es, key, i, ts, out).Expanded?
    ensures ExpandFrom(a.text, a.es, key, i, ts, out) != ExpandFrom(b.text, b.es, key, i, ts, out)
  {
    hide Bracket, TotalOf, ToDec, IndexOf;
    var x, y := ExpandFrom(a.text, a.es, key, i, ts, out), ExpandFrom(b.text, b.es, key, i, ts, out);
    if x == y {
      var t, c := out + "s" + ".total", CharAt(key, i + 1);
      var m, n := IndexOf(a.text, a.es, t, c), IndexOf(b.text, b.es, t, c);
      CountedPiece(a, key, i, ts, out);
      CountedPiece(b, key, i, ts, out);
      var p := out + "s" + "." + key[ts..i];
      AfterBracket(a, key, i + 3, ts, p + ToDec(m));
      AfterBracket(b, key, i + 3, ts, p + ToDec(n));
      NumbersTell(p, m, n, x.key);
      SameIndex(a, b, t, c);
    }
  }

  lemma SameIndex(a: View, b: View, t: string, c: char)
    requires IndexOf(a.text, a.es, t, c) == IndexOf(b.text, b.es, t, c)
    ensures TotalOf(a.text, a.es, t) == TotalOf(b.text, b.es, t)
  {
    hide Next, Lookup;
    TotalIsUint(a.text, a.es, t);
    TotalIsUint(b.text, b.es, t);
    NextInjective(TotalOf(a.text, a.es, t), TotalOf(b.text, b.es, t));
  }

  lemma {:induction false} ExpandAlikeFrom(a: View, b: View, key: string, i: nat, ts: nat, out: string)
    requires ts <= i <= |key|
    ensures
      var x, y := ExpandFrom(a.text, a.es, key, i, ts, out), ExpandFrom(b.text, b.es, key, i, ts, out);
      var same := SameTotals(a, b, TotalsFrom(a, key, i, ts, out));
      (same ==> y == x) && (x.Expanded? && y == x ==> same)
    decreases |key| - i
  {
    hide Bracket, TotalRead, TotalOf;
    if i == |key| || (key[i] == '.' && i == ts) || (key[i] == '[' && i == ts) {
    } else if key[i] != '[' {
      if |out| < KEY_MAX {
        ExpandAlikeFrom(a, b, key, i + 1, if key[i] == '.' then i + 1 else ts, out + [key[i]]);
      }
    } else if !SameTotals(a, b, TotalRead(key, i, out)) {
      if ExpandFrom(a.text, a.es, key, i, ts, out).Expanded? {
        OtherTotalOtherKey(a, b, key, i, ts, out);
      }
    } else {
      SameBracket(a, b, key, i, ts, out);
      var piece := Bracket(a.text, a.es, key, i, ts, out);
      if piece.Piece? {
        ExpandAlikeFrom(a, b, key, piece.next, ts, piece.out);
      }
    }
  }

  // A key expands alike over two documents, or is refused alike, where both give the
  // same for every total that is read on the way; and for a key that expands, only then.
  lemma ExpandAlikeExactly(a: View, b: View, key: string)
    ensures
      var x, y := Expand(a.text, a.es, key), Expand(b.text, b.es, key);
      && (SameTotals(a, b, TotalsRead(a, key)) ==> y == x)
      && (x.Expanded? ==> (y == x <==> SameTotals(a, b, TotalsRead(a, key))))
  {
    hide SameTotals, ExpandFrom, TotalsFrom;
    ExpandAlikeFrom(a, b, key, 0, 0, "");
  }

  lemma {:induction false} TotalsClean(a: View, key: string, i: nat, ts: nat, out: string)
    requires ts <= i <= |key| && CleanKey(key)
    requires if i == 0 then out == "" else if i == ts then CleanOut(out) && out != "" else CleanPath(out)
    requires forall j :: ts <= j < i ==> key[j] != '.'
    requires ts > 0 ==> key[ts - 1] == '.'
    ensures forall t :: t in TotalsFrom(a, key, i, ts, out) ==> CleanPath(t)
    decreases |key| - i
  {
    hide Inside, CleanPath, CleanOut;
    if i < |key| && !(key[i] == '.' && i == ts) {
      if key[i] != '[' {
        if |out| < KEY_MAX {
          assert CleanAt(key, i);
          CleanFirst();
          CleanLonger(out);
          CleanStep(out, key[i], i == ts);
          CleanLonger(out + [key[i]]);
          TotalsClean(a, key, i + 1, if key[i] == '.' then i + 1 else ts, out + [key[i]]);
        }
      } else if i != ts {
        assert CleanAt(key, ts);
        CleanInside(a.text, a.es, key, i, ts, out);
        TotalClean(out);
        match Bracket(a.text, a.es, key, i, ts, out) {
          case NoPiece(_) =>
          case Piece(o, n) =>
            assert key[n - 1] == ']';
            TotalsClean(a, key, n, ts, o);
        }
      }
    }
  }

  lemma CleanFirst()
    ensures CleanOut("")
  {
  }

  lemma CleanLonger(out: string)
    ensures CleanPath(out) ==> CleanOut(out)
  {
  }

  lemma TotalClean(out: string)
    requires CleanPath(out)
    ensures CleanPath(out + "s" + ".total")
  {
    hide CleanPath;
    LettersClean();
    CleanJoin(out, "s");
    CleanJoin(out + "s", "total");
    assert out + "s" + ".total" == out + "s" + "." + "total";
  }

  // Every total that is read counts alike before and after writing.
  ghost predicate AllCountAlike(doc: Items, es: seq<Edit>, key: string) {
    forall t :: t in TotalsRead(View(Ser(doc), es), key) ==> CountsAlike(doc, es, t)
  }

  lemma TotalsAgreeExactly(doc: Items, es: seq<Edit>, key: string)
    requires SourceDoc(doc) && ValidEdits(Ser(doc), es) && DomainEdits(es) && CleanKey(key)
    ensures
      var a, b := View(Ser(doc), es), View(Written(Ser(doc), es), []);
      SameTotals(a, b, TotalsRead(a, key)) <==> AllCountAlike(doc, es, key)
  {
    hide SourceDoc, ValidEdits, DomainEdits, CleanKey, CleanPath, CountsAlike, TotalOf, TotalsFrom, Ser, Written;
    var a, b := View(Ser(doc), es), View(Written(Ser(doc), es), []);
    TotalsReadClean(a, key);
    forall t | t in TotalsRead(a, key)
      ensures TotalOf(b.text, b.es, t) == TotalOf(a.text, a.es, t) <==> CountsAlike(doc, es, t)
    {
      CleanHas(t);
      TotalAgreesExactly(doc, es, t);
    }
  }

  lemma TotalsReadClean(a: View, key: string)
    requires CleanKey(key)
    ensures forall t :: t in TotalsRead(a, key) ==> CleanPath(t)
  {
    hide TotalsFrom, CleanPath;
    TotalsClean(a, key, 0, 0, "");
  }

  // What a key that expands to k gives reads alike; for "t[#]" nothing reads as "0".
  ghost predicate GetsAlike(doc: Items, es: seq<Edit>, key: string, k: string) {
    || ReadsAlike(doc, es, k)
    || (EndsWith(key, TOTAL) && LiveRoot(es, RootOf(k)) && TextFound(Ser(doc), es, k) == Some("0"))
  }

  // Keys with brackets, for every reachable edit list: a key that expands names the
  // same in the written document if and only if the totals it reads count alike; and
  // then mxml_get gives the same there if and only if what it names reads alike.
  lemma GetAgreesBracketed(doc: Items, es: seq<Edit>, key: string)
    requires SourceDoc(doc) && ValidEdits(Ser(doc), es) && DomainEdits(es) && CleanKey(key)
    requires var x := Expand(Ser(doc), es, key); x.Expanded? ==> LeadsClosed(doc, es, x.key)
    ensures
      var w, x := Written(Ser(doc), es), Expand(Ser(doc), es, key);
      && (x.Expanded? ==> (Expand(w, [], key) == x <==> AllCountAlike(doc, es, key)))
      && (AllCountAlike(doc, es, key) ==>
            && Expand(w, [], key) == x
            && (GetText(Ser(doc), es, key) == GetText(w, [], key) <==>
                  (x.Expanded? ==> GetsAlike(doc, es, key, x.key))))
  {
    hide ExpandFrom, SameTotals, TotalsFrom, Written, SourceDoc, ValidEdits, DomainEdits, LeadsClosed, ReadsAlike,
         Lookup, Decode, CleanPath, AllCountAlike, LiveRoot, RootOf, CleanKey;
    var w, x := Written(Ser(doc), es), Expand(Ser(doc), es, key);
    ExpandAlikeExactly(View(Ser(doc), es), View(w, []), key);
    TotalsAgreeExactly(doc, es, key);
    if x.Expanded? && AllCountAlike(doc, es, key) {
      CleanExpansion(Ser(doc), es, key);
      CleanHas(x.key);
      KeyAgreesExactly(doc, es, x.key);
      FoundAgrees(doc, es, x.key);
    }
  }

  // And what a key reads in the written document, whatever it names there.
  lemma WrittenReadsBracketed(doc: Items, es: seq<Edit>, key: string)
    requires SourceDoc(doc) && ValidEdits(Ser(doc), es) && DomainEdits(es) && CleanKey(key)
    requires var y := Expand(Written(Ser(doc), es), [], key); y.Expanded? ==> LeadsClosed(doc, es, y.key)
    ensures
      var w := Written(Ser(doc), es);
      var y := Expand(w, [], key);
      GetText(w, [], key) ==
        if y.Refused? then None
        else if EndsWith(key, TOTAL) && WrittenText(doc, es, y.key).None? then Some("0")
        else WrittenText(doc, es, y.key)
  {
    hide ExpandFrom, Written, SourceDoc, ValidEdits, DomainEdits, LeadsClosed, WrittenText, Lookup, Decode, CleanPath,
         CleanKey;
    var w := Written(Ser(doc), es);
    CleanExpansion(w, [], key);
    if Expand(w, [], key).Expanded? {
      CleanHas(Expand(w, [], key).key);
      WrittenReads(doc, es, Expand(w, [], key).key);
    }
  }

  // So for every source document, every run of the editor and every key free of
  // markup: mxml_write fails just when a tag does not fit, and else this holds of the
  // text it gives.
  lemma RunGetAgreesBracketed(doc: Items, calls: seq<Call>, key: string)
    requires SourceDoc(doc) && CleanKey(key) && forall c :: c in calls ==> CleanKey(c.key)
    requires
      var es := Run(Ser(doc), calls);
      var x := Expand(Ser(doc), es, key);
      x.Expanded? ==> LeadsClosed(doc, es, x.key)
    ensures
      var es := Run(Ser(doc), calls);
      var x := Expand(Ser(doc), es, key);
      match WriteAnswer(Ser(doc), es)
      case None => !TagsFit(es)
      case Some(w) =>
        && TagsFit(es)
        && (x.Expanded? ==> (Expand(w, [], key) == x <==> AllCountAlike(doc, es, key)))
        && (AllCountAlike(doc, es, key) ==>
              && Expand(w, [], key) == x
              && (GetText(Ser(doc), es, key) == GetText(w, [], key) <==>
                    (x.Expanded? ==> GetsAlike(doc, es, key, x.key))))
  {
    hide Run, Expand, Written, SourceDoc, CleanKey, ValidEdits, CleanEdits, LeadsClosed, GetsAlike, GetText,
         AllCountAlike, TagsFit, Source;
    var es := Run(Ser(doc), calls);
    RunClean(Ser(doc), calls);
    CleanEditsDomain(es);
    GetAgreesBracketed(doc, es, key);
    SourceOfTree(doc);
  }
}
