// The agreement of the two engines for every run of the editor.
module RunAgreement {
  import opened Chars
  import opened KeyPath
  import opened Decimal
  import opened Codec
  import opened DocFind
  import opened MxmlInt
  import opened Find
  import opened Ekey
  import opened Api
  import opened Tree
  import opened TreeText
  import opened TreeTokens
  import opened Reachable
  import opened ApiReach
  import opened Tokenizer
  import opened Flatten
  import opened Write
  import opened Tokens
  import opened EditNav
  import opened Agreement

  predicate CleanChar(c: char) {
    c !in "<>" && !IsSpace(c)
  }

  // What makes a comment, an instruction or a closing tag of a tag it begins.
  predicate Marks(c: char) {
    c == '/' || c == '!' || c == '?'
  }

  // A character of a key that a tag can have there: marks not at its beginning.
  predicate CleanAt(s: string, i: nat)
    requires i < |s|
  {
    CleanChar(s[i]) && (Marks(s[i]) ==> i > 0 && s[i - 1] != '.')
  }

  predicate AllClean(s: string) {
    forall i :: 0 <= i < |s| ==> CleanAt(s, i)
  }

  // What a caller is asked for: a key free of markup, not ending in a dot.
  predicate CleanKey(key: string) {
    key != "" && key[|key| - 1] != '.' && AllClean(key)
  }

  // An output so far: no markup, and no two dots together.
  predicate CleanOut(out: string) {
    && (out != "" ==> out[0] != '.')
    && AllClean(out)
    && (forall i :: 0 < i < |out| && out[i] == '.' ==> out[i - 1] != '.')
  }

  // A dotted key whose tags can all be written and found again.
  predicate CleanPath(k: string) {
    CleanOut(k) && k != "" && k[|k| - 1] != '.'
  }

  lemma CleanAppend(out: string, s: string)
    requires CleanOut(out) && CleanOut(s)
    requires out != "" && s != "" ==> out[|out| - 1] != '.' || s[0] != '.'
    ensures CleanOut(out + s)
  {
    var r := out + s;
    forall i | 0 <= i < |r|
      ensures CleanAt(r, i) && (r[i] == '.' && i > 0 ==> r[i - 1] != '.')
    {
      if i < |out| {
        assert CleanAt(out, i);
      } else {
        assert CleanAt(s, i - |out|);
      }
    }
  }

  lemma CleanStep(out: string, c: char, atTag: bool)
    requires CleanChar(c) && CleanOut(out) && (c == '.' || Marks(c) ==> !atTag)
    requires if atTag then true else CleanPath(out)
    ensures CleanOut(out + [c]) && (c != '.' ==> CleanPath(out + [c]))
  {
    var r := out + [c];
    forall i | 0 <= i < |r|
      ensures CleanAt(r, i)
    {
      if i < |out| { assert CleanAt(out, i); }
    }
  }

  lemma CleanDot(out: string)
    requires CleanPath(out)
    ensures CleanOut(out + ".")
  {
    CleanStep(out, '.', false);
  }

  lemma CleanDigits(n: nat)
    ensures CleanPath(ToDec(n))
  {
    var s := ToDec(n);
    assert forall i :: 0 <= i < |s| ==> IsDigit(s[i]);
  }

  lemma CleanTag(key: string, from: nat, to: nat)
    requires from < to <= |key| && AllClean(key) && !Marks(key[from])
    requires forall j :: from <= j < to ==> key[j] != '.'
    ensures CleanPath(key[from..to])
  {
    var s := key[from..to];
    forall i | 0 <= i < |s|
      ensures CleanAt(s, i) && s[i] != '.'
    {
      assert CleanAt(key, from + i);
    }
  }

  lemma CleanJoin(a: string, b: string)
    requires CleanPath(a) && CleanPath(b)
    ensures CleanPath(a + b) && CleanPath(a + "." + b)
  {
    CleanAppend(a, b);
    CleanDot(a);
    CleanAppend(a + ".", b);
  }

  lemma CleanInside(text: string, es: seq<Edit>, key: string, i: nat, tagstart: nat, out: string)
    requires tagstart < i < |key| && CleanPath(out) && AllClean(key) && !Marks(key[tagstart])
    requires forall j :: tagstart <= j < i ==> key[j] != '.'
    ensures
      var r := Inside(text, es, key, i, tagstart, out);
      r.Piece? ==> CleanPath(r.out) && forall j :: i < j < r.next && j < |key| ==> key[j] != '.'
  {
    hide TotalOf, ToDec, CleanPath;
    var tag, c, list := key[tagstart..i], CharAt(key, i + 1), out + "s";
    CleanTag(key, tagstart, i);
    assert CleanPath("s") && CleanPath("total") by { LettersClean(); }
    CleanJoin(out, "s");
    CleanJoin(list, tag);
    if '1' <= c <= '9' {
      var next := PastDigits(key, i + 1);
      CleanTag(key, i + 1, next);
      CleanJoin(list + "." + tag, key[i + 1..next]);
    } else if c == '#' || c == '$' || c == '+' {
      CleanJoin(list, "total");
      assert list + ".total" == list + "." + "total";
      CleanDigits(IndexOf(text, es, list + ".total", c));
      CleanJoin(list + "." + tag, ToDec(IndexOf(text, es, list + ".total", c)));
    }
  }

  lemma LettersClean()
    ensures CleanPath("s") && CleanPath("total")
  {
  }

  lemma {:induction false} ExpandClean(text: string, es: seq<Edit>, key: string, i: nat, tagstart: nat, out: string)
    requires tagstart <= i <= |key| && CleanKey(key)
    requires if i == 0 then out == "" else if i == tagstart then CleanOut(out) && out != "" else CleanPath(out)
    requires forall j :: tagstart <= j < i ==> key[j] != '.'
    requires tagstart > 0 ==> key[tagstart - 1] == '.'
    ensures var r := ExpandFrom(text, es, key, i, tagstart, out); r.Expanded? ==> CleanPath(r.key)
    decreases |key| - i
  {
    hide Inside;
    if i < |key| && !(key[i] == '.' && i == tagstart) {
      if key[i] != '[' {
        if |out| < KEY_MAX {
          assert CleanAt(key, i);
          CleanStep(out, key[i], i == tagstart);
          ExpandClean(text, es, key, i + 1, if key[i] == '.' then i + 1 else tagstart, out + [key[i]]);
        }
      } else if i != tagstart {
        assert CleanAt(key, tagstart);
        CleanInside(text, es, key, i, tagstart, out);
        match Bracket(text, es, key, i, tagstart, out) {
          case NoPiece(_) =>
          case Piece(o, n) =>
            assert key[n - 1] == ']';
            ExpandClean(text, es, key, n, tagstart, o);
        }
      }
    }
  }

  // A clean key expands to one whose tags can all be written and found again.
  lemma CleanExpansion(text: string, es: seq<Edit>, key: string)
    requires CleanKey(key)
    ensures Expand(text, es, key).Expanded? ==> CleanPath(Expand(text, es, key).key)
  {
    ExpandClean(text, es, key, 0, 0, "");
  }

  lemma CleanPrefix(k: string, d: nat)
    requires CleanPath(k) && d < |k| && k[d] == '.'
    ensures d > 0 && CleanPath(k[..d]) && CleanPath(k[..d + 1] + "total")
  {
    var p := k[..d];
    forall i | 0 <= i < |p|
      ensures CleanAt(p, i)
    {
      assert CleanAt(k, i);
    }
    LettersClean();
    CleanJoin(p, "total");
    assert k[..d + 1] + "total" == p + "." + "total";
  }

  predicate CleanEdits(es: seq<Edit>) {
    forall i :: 0 <= i < |es| ==> CleanPath(es[i].key)
  }

  lemma CleanPush(es: seq<Edit>, e: Edit)
    requires CleanEdits(es) && CleanPath(e.key)
    ensures CleanEdits([e] + es)
  {
  }

  lemma {:induction false} CleanParents(text: string, es: seq<Edit>, k: string, from: nat)
    requires CleanEdits(es) && CleanPath(k) && from <= |k|
    ensures CleanEdits(AppendParents(text, es, k, from))
    decreases |k| - from
  {
    hide Lookup, CleanPath, CleanEdits;
    var dot := NextCh(k, from, |k|, '.');
    if dot == |k| {
    } else {
      CleanPrefix(k, dot);
      CleanPush(es, Edit(EditAppend, k[..dot], ""));
      var next := if Lookup(text, es, k[..dot]).Some? then es else [Edit(EditAppend, k[..dot], "")] + es;
      CleanParents(text, next, k, dot + 1);
    }
  }

  lemma CleanBeside(k: string, t: string)
    requires CleanPath(k) && Beside(k, t)
    ensures CleanPath(t)
  {
    var list, item, rest :| Rooted(list) && t == list + ".total" && k == list + "." + item + rest
      && item != "" && IsDigit(item[|item| - 1]);
    ItemFacts(list, item, rest);
    CleanPrefix(k, |list|);
    assert k[..|list| + 1] == list + ".";
    assert t == k[..|list| + 1] + "total";
  }

  lemma AppendClean(text: string, es: seq<Edit>, key: string, value: string)
    requires ValidEdits(text, es) && CleanKey(key) && CleanEdits(es)
    ensures CleanEdits(DoAppend(text, es, key, value).edits)
  {
    hide Lookup, TotalOf, ToDec, AppendParents, ExpandFrom, CleanPath, CleanEdits;
    var x := Expand(text, es, key);
    CleanExpansion(text, es, key);
    if x.Expanded? && !Found(text, es, x.key) {
      var k := x.key;
      ExpandFromRooted(text, es, key, 0, 0, "");
      ParentsAdded(text, es, k, 0);
      CleanParents(text, es, k, 0);
      var es1 := AppendParents(text, es, k, 0);
      match TotalKey(key) {
        case None => CleanPush(es1, Edit(EditAppend, k, value));
        case Some(tkey) =>
          SameExpansion(text, es, es1, tkey, 0, 0, "");
          var y := Expand(text, es1, tkey);
          if y.Expanded? {
            ThroughPlus(text, es, key, NextPat(key, 0, |key|, PLUS), 0, 0, "");
            CleanBeside(k, y.key);
            CleanPush(es1, CountUp(text, es1, y.key)[0]);
            CleanPush(CountUp(text, es1, y.key), Edit(EditAppend, k, value));
          }
      }
    }
  }

  lemma CleanTotalBeside(k: string)
    requires CleanPath(k)
    ensures CleanPath(TotalBeside(k))
  {
    var j := DigitsStart(k);
    var i := if j > 0 then j - 1 else 0;
    var p := LastDot(k[..i]);
    if p >= 0 {
      assert k[p] == k[..i][p] == '.';
      CleanPrefix(k, p);
      assert k[..i][..p + 1] == k[..p + 1];
    } else {
      LettersClean();
      assert k[..0] + "total" == "total";
    }
  }

  lemma DeleteClean(text: string, es: seq<Edit>, key: string)
    requires CleanKey(key) && CleanEdits(es)
    ensures CleanEdits(DoDelete(text, es, key).edits)
  {
    hide Lookup, TotalBeside, ExpandFrom, CleanPath, CleanEdits, Decremented;
    var x := Expand(text, es, key);
    CleanExpansion(text, es, key);
    if x.Expanded? && Found(text, es, x.key) {
      var deleted := [Edit(EditDelete, x.key, "")] + es;
      CleanPush(es, Edit(EditDelete, x.key, ""));
      CleanTotalBeside(x.key);
      var t, total := TotalBeside(x.key), Decremented(x.key[DigitsStart(x.key)..]);
      CleanPush(deleted, Edit(EditDelete, t, ""));
      CleanPush(deleted, Edit(EditSet, t, total));
      CleanPush(deleted, Edit(EditAppend, t, total));
    }
  }

  lemma UpdateClean(text: string, es: seq<Edit>, key: string, value: string)
    requires CleanKey(key) && CleanEdits(es)
    ensures CleanEdits(DoUpdate(text, es, key, value).edits)
  {
    hide Lookup, ExpandFrom, CleanPath, CleanEdits;
    var x := Expand(text, es, key);
    CleanExpansion(text, es, key);
    if x.Expanded? {
      CleanPush(es, Edit(EditSet, x.key, value));
    }
  }

  lemma {:induction false} RunClean(text: string, calls: seq<Call>)
    requires forall c :: c in calls ==> CleanKey(c.key)
    ensures ValidEdits(text, Run(text, calls)) && CleanEdits(Run(text, calls))
  {
    hide ValidEdits, DoAppend, DoDelete, DoUpdate, CleanPath;
    RunValid(text, calls);
    if calls == [] {
    } else {
      var before := Run(text, calls[..|calls| - 1]);
      var c := calls[|calls| - 1];
      RunClean(text, calls[..|calls| - 1]);
      match c {
        case CallAppend(key, value) => AppendClean(text, before, key, value);
        case CallUpdate(key, value) => UpdateClean(text, before, key, value);
        case CallDelete(key) => DeleteClean(text, before, key);
        case CallSet(key, v) =>
          DeleteClean(text, before, key);
          if v.Some? {
            AppendClean(text, before, key, v.value);
            UpdateClean(text, DoAppend(text, before, key, v.value).edits, key, v.value);
          }
      }
    }
  }

  lemma CleanDomain(e: Edit)
    requires CleanPath(e.key)
    ensures DomainEdit(e)
  {
    hide CleanPath, LastTag, ValidTag;
    CleanHas(e.key);
    CleanLastTag(e.key);
  }

  lemma CleanHas(k: string)
    requires CleanPath(k)
    ensures Rooted(k) && !Has(k, '>')
  {
    forall i | 0 <= i < |k|
      ensures k[i] != '>'
    {
      assert CleanAt(k, i);
    }
  }

  lemma CleanLastTag(k: string)
    requires CleanPath(k)
    ensures ValidTag(LastTag(k))
  {
    hide LastDot, CleanPath, IsSpace;
    var d := LastDot(k);
    CleanEnd(k);
    forall i | d < i < |k|
      ensures k[i] !in "<>." && !IsSpace(k[i]) && (i == d + 1 ==> !Marks(k[i]))
    {
      TagChar(k, i);
    }
    ValidSuffix(k, d + 1);
  }

  lemma CleanEnd(k: string)
    requires CleanPath(k)
    ensures k != "" && k[|k| - 1] != '.'
  {
  }

  lemma ValidSuffix(k: string, j: nat)
    requires j < |k| && !Marks(k[j])
    requires forall i :: j <= i < |k| ==> k[i] !in "<>." && !IsSpace(k[i])
    ensures ValidTag(k[j..])
  {
    hide IsSpace;
  }

  lemma TagChar(k: string, i: nat)
    requires i < |k| && CleanPath(k) && k[i] != '.'
    ensures k[i] !in "<>." && !IsSpace(k[i]) && (Marks(k[i]) ==> i > 0 && k[i - 1] != '.')
  {
    assert CleanAt(k, i);
  }

  lemma CleanEditsDomain(es: seq<Edit>)
    requires CleanEdits(es)
    ensures DomainEdits(es)
  {
    forall i | 0 <= i < |es|
      ensures DomainEdit(es[i])
    {
      CleanDomain(es[i]);
    }
  }

  // For every source document, every run of the editor and every key: mxml_write
  // fails just when a tag does not fit, and else what the editor finds is what is
  // found in the text it gives, but under a document element that was appended.
  lemma RunFoundAgrees(doc: Items, calls: seq<Call>, key: string)
    requires SourceDoc(doc) && (forall c :: c in calls ==> CleanKey(c.key))
    requires Rooted(key) && !Has(key, '>')
    ensures
      var es := Run(Ser(doc), calls);
      match WriteAnswer(Ser(doc), es)
      case None => !TagsFit(es)
      case Some(w) =>
        TagsFit(es) && (Found(w, [], key) <==> Found(Ser(doc), es, key) && !LiveRoot(es, RootOf(key)))
  {
    hide Run, Lookup, Written, CleanKey, ValidEdits, SourceDoc, CleanEdits, TagsFit, Source;
    var es := Run(Ser(doc), calls);
    RunClean(Ser(doc), calls);
    CleanEditsDomain(es);
    FoundAgrees(doc, es, key);
    SourceOfTree(doc);
  }

  predicate PlainEdits(es: seq<Edit>) {
    forall i :: 0 <= i < |es| ==> Plain(es[i].value)
  }

  lemma DigitsPlain(s: string)
    requires AllDigits(s)
    ensures Plain(s)
  {
    forall i | 0 <= i < |s|
      ensures s[i] != '<' && s[i] != '&'
    {
      assert IsDigit(s[i]);
    }
  }

  lemma PlainPush(es: seq<Edit>, e: Edit)
    requires PlainEdits(es) && Plain(e.value)
    ensures PlainEdits([e] + es)
  {
  }

  lemma {:induction false} PlainParents(text: string, es: seq<Edit>, k: string, from: nat)
    requires PlainEdits(es) && from <= |k|
    ensures PlainEdits(AppendParents(text, es, k, from))
    decreases |k| - from
  {
    hide Lookup, PlainEdits;
    var dot := NextCh(k, from, |k|, '.');
    if dot == |k| {
    } else {
      PlainPush(es, Edit(EditAppend, k[..dot], ""));
      var next := if Lookup(text, es, k[..dot]).Some? then es else [Edit(EditAppend, k[..dot], "")] + es;
      PlainParents(text, next, k, dot + 1);
    }
  }

  lemma AppendPlain(text: string, es: seq<Edit>, key: string, value: string)
    requires PlainEdits(es) && Plain(value)
    ensures PlainEdits(DoAppend(text, es, key, value).edits)
  {
    hide Lookup, TotalOf, ToDec, AppendParents, Expand, PlainEdits;
    var x := Expand(text, es, key);
    if x.Expanded? {
      var k, es1 := x.key, AppendParents(text, es, x.key, 0);
      PlainParents(text, es, k, 0);
      PlainPush(es1, Edit(EditAppend, k, value));
      var tkey := TotalKey(key);
      if tkey.Some? && Expand(text, es1, tkey.value).Expanded? {
        var t := Expand(text, es1, tkey.value).key;
        var e := CountUp(text, es1, t)[0];
        DigitsPlain(ToDec(Next(TotalOf(text, es1, t))));
        assert CountUp(text, es1, t) == [e] + es1;
        PlainPush(es1, e);
        PlainPush([e] + es1, Edit(EditAppend, k, value));
      }
    }
  }

  lemma DeletePlain(text: string, es: seq<Edit>, key: string)
    requires PlainEdits(es)
    ensures PlainEdits(DoDelete(text, es, key).edits)
  {
    hide Lookup, Expand, TotalBeside, PlainEdits, DigitsStart;
    var x := Expand(text, es, key);
    if x.Expanded? {
      var k := x.key;
      var deleted, ds := [Edit(EditDelete, k, "")] + es, k[DigitsStart(k)..];
      PlainPush(es, Edit(EditDelete, k, ""));
      BorrowValue(ds);
      DigitsPlain(Decremented(ds));
      PlainPush(deleted, Edit(EditDelete, TotalBeside(k), ""));
      PlainPush(deleted, Edit(EditSet, TotalBeside(k), Decremented(ds)));
      PlainPush(deleted, Edit(EditAppend, TotalBeside(k), Decremented(ds)));
    }
  }

  // The values that calls bring are plain.
  predicate PlainCall(c: Call) {
    match c
    case CallAppend(_, v) => Plain(v)
    case CallUpdate(_, v) => Plain(v)
    case CallDelete(_) => true
    case CallSet(_, v) => v.Some? ==> Plain(v.value)
  }

  lemma UpdatePlain(text: string, es: seq<Edit>, key: string, value: string)
    requires PlainEdits(es) && Plain(value)
    ensures PlainEdits(DoUpdate(text, es, key, value).edits)
  {
    var x := Expand(text, es, key);
    if x.Expanded? {
      PlainPush(es, Edit(EditSet, x.key, value));
    }
  }

  lemma {:induction false} RunPlain(text: string, calls: seq<Call>)
    requires forall c :: c in calls ==> PlainCall(c)
    ensures PlainEdits(Run(text, calls))
  {
    hide PlainEdits, DoAppend, DoDelete, DoUpdate, Plain;
    if calls == [] {
      NonePlain();
    } else {
      var before := Run(text, calls[..|calls| - 1]);
      var c := calls[|calls| - 1];
      assert PlainCall(c);
      RunPlain(text, calls[..|calls| - 1]);
      match c {
        case CallAppend(key, value) => AppendPlain(text, before, key, value);
        case CallUpdate(key, value) => UpdatePlain(text, before, key, value);
        case CallDelete(key) => DeletePlain(text, before, key);
        case CallSet(key, v) =>
          DeletePlain(text, before, key);
          if v.Some? {
            AppendPlain(text, before, key, v.value);
            UpdatePlain(text, DoAppend(text, before, key, v.value).edits, key, v.value);
          }
      }
    }
  }

  lemma NonePlain()
    ensures PlainEdits([])
  {
  }

  lemma {:induction false} LookupPlain(text: string, es: seq<Edit>, key: string, implied: bool)
    requires PlainEdits(es)
    ensures
      var r := FindOver(text, es, key, implied);
      r.Some? && r.value.EditValue? ==> Plain(r.value.value)
  {
    hide FindNoEdit;
    if es == [] {
    } else {
      assert Plain(es[0].value);
      LookupPlain(text, es[1..], key, implied);
      LookupPlain(text, es[1..], key, true);
    }
  }

  // Where the lookup finds text of the source, the entities in it end where they
  // should, also in the text that deleted children leave to join it.
  ghost predicate LeadsClosed(doc: Items, es: seq<Edit>, key: string) {
    var hit := Lookup(Ser(doc), es, key);
    hit.Some? && hit.value.DocSpan? && Nav(doc, key).Some? ==>
      Closed(Lead(Nav(doc, key).value)) && Closed(JoinedLead(doc, es, key))
  }

  // What the lookup finds will read the same once it is written: nothing; a plain
  // value; or text of the source to which deleted children leave none to join. And
  // it is not under a document element that was appended.
  ghost predicate ReadsAlike(doc: Items, es: seq<Edit>, key: string) {
    match Lookup(Ser(doc), es, key)
    case None => true
    case Some(hit) =>
      && !LiveRoot(es, RootOf(key))
      && match hit
         case EditValue(v) => Plain(v)
         case DocSpan(_) =>
           && Nav(doc, key).Some?
           && Decode(Lead(Nav(doc, key).value)) == Decode(JoinedLead(doc, es, key))
  }

  // The text found at a dotted key, if any.
  function TextFound(text: string, es: seq<Edit>, key: string): Option<string> {
    match Lookup(text, es, key)
    case None => None
    case Some(hit) => Some(TextAt(text, hit))
  }

  // What is read at a dotted key is what would be read in the written document if
  // and only if that is so.
  lemma KeyAgreesExactly(doc: Items, es: seq<Edit>, key: string)
    requires SourceDoc(doc) && ValidEdits(Ser(doc), es) && DomainEdits(es)
    requires Rooted(key) && !Has(key, '>') && LeadsClosed(doc, es, key)
    ensures TextFound(Ser(doc), es, key) == TextFound(Written(Ser(doc), es), [], key) <==> ReadsAlike(doc, es, key)
  {
    hide Lookup, Written, ValidEdits, Nav, SourceDoc, DomainEdits, Decode, Closed, Plain, Lead, LiveRoot;
    FoundAgrees(doc, es, key);
    if Found(Ser(doc), es, key) && !LiveRoot(es, RootOf(key)) {
      if Lookup(Ser(doc), es, key).value.EditValue? {
        ValueAgrees(doc, es, key);
      } else {
        SourceTextAgrees(doc, es, key);
      }
    }
  }

  // What is read at a dotted key in the written document, said of the lookup and of
  // the source: the user's value, or the source's text with what deleted children
  // leave to join it.
  ghost function WrittenText(doc: Items, es: seq<Edit>, key: string): Option<string> {
    match Lookup(Ser(doc), es, key)
    case None => None
    case Some(hit) =>
      if LiveRoot(es, RootOf(key)) then None
      else
        match hit
        case EditValue(v) => Some(v)
        case DocSpan(_) => if Nav(doc, key).Some? then Some(Decode(JoinedLead(doc, es, key))) else None
  }

  lemma WrittenReads(doc: Items, es: seq<Edit>, key: string)
    requires SourceDoc(doc) && ValidEdits(Ser(doc), es) && DomainEdits(es)
    requires Rooted(key) && !Has(key, '>') && LeadsClosed(doc, es, key)
    ensures TextFound(Written(Ser(doc), es), [], key) == WrittenText(doc, es, key)
  {
    hide Lookup, Written, ValidEdits, Nav, SourceDoc, DomainEdits, Decode, Closed, Plain, Lead, LiveRoot;
    FoundAgrees(doc, es, key);
    if Found(Ser(doc), es, key) && !LiveRoot(es, RootOf(key)) {
      if Lookup(Ser(doc), es, key).value.EditValue? {
        ValueAgrees(doc, es, key);
      } else {
        SourceTextAgrees(doc, es, key);
      }
    }
  }

  // What is written of a user's value: up to the first tag, or the end, the content of
  // its element is read back as just that value by a reader that knows the three
  // entities and refuses any other '&', '<' and '>'.
  lemma WrittenStrictly(doc: Items, es: seq<Edit>, key: string)
    requires SourceDoc(doc) && ValidEdits(Ser(doc), es) && DomainEdits(es)
    requires Rooted(key) && !Has(key, '>') && Found(Ser(doc), es, key) && !LiveRoot(es, RootOf(key))
    requires Lookup(Ser(doc), es, key).value.EditValue?
    ensures
      var w := Written(Ser(doc), es);
      && Found(w, [], key)
      && var c := Content(w, Lookup(w, [], key).value);
         StrictRead(c[..NextCh(c, 0, |c|, '<')]) == Some(Lookup(Ser(doc), es, key).value.value)
  {
    hide Nav, EditTree, FindNoEdit, Written, SourceDoc, ValidEdits, DomainEdits, TextFirst, Lead, Encode, LiveRoot, Ser,
         StrictRead, RootOf;
    var v := Lookup(Ser(doc), es, key).value.value;
    SourceDocValid(doc);
    FoundAgrees(doc, es, key);
    EditsCorrespond(Ser(doc), doc, es, key);
    WrittenLookup(doc, es, key);
    var items := Nav(EditTree(es, doc), key).value;
    var c := Ser(items);
    SerLead(items);
    EncodeNoTag(v);
    LeadEnds(c, Encode(v));
    StrictExactly(Encode(v), v);
  }

  lemma LeadEnds(c: string, lead: string)
    requires |lead| <= |c| && c[..|lead|] == lead && (c[|lead|..] == "" || c[|lead|..][0] == '<')
    requires forall i :: 0 <= i < |lead| ==> lead[i] != '<'
    ensures c[..NextCh(c, 0, |c|, '<')] == lead
  {
    var n := NextCh(c, 0, |c|, '<');
    assert forall i :: 0 <= i < |lead| ==> c[i] == lead[i];
    assert |lead| < |c| ==> c[|lead|] == c[|lead|..][0];
    assert n == |lead|;
  }

  // For every source document, every run of the editor and every dotted key:
  // mxml_write fails just when a tag does not fit, and else mxml_get gives the same
  // for the text it gives if and only if what the lookup finds reads alike.
  lemma RunGetAgrees(doc: Items, calls: seq<Call>, key: string)
    requires SourceDoc(doc) && forall c :: c in calls ==> CleanKey(c.key)
    requires DottedKey(key) && !Has(key, '>') && LeadsClosed(doc, Run(Ser(doc), calls), key)
    ensures
      var es := Run(Ser(doc), calls);
      match WriteAnswer(Ser(doc), es)
      case None => !TagsFit(es)
      case Some(w) =>
        TagsFit(es) && (GetText(Ser(doc), es, key) == GetText(w, [], key) <==> ReadsAlike(doc, es, key))
  {
    hide Run, Lookup, Written, CleanKey, ValidEdits, SourceDoc, CleanEdits, TagsFit, Source, LeadsClosed, ReadsAlike,
         GetText;
    var es := Run(Ser(doc), calls);
    RunClean(Ser(doc), calls);
    CleanEditsDomain(es);
    KeyAgreesExactly(doc, es, key);
    DottedText(Ser(doc), es, key);
    DottedText(Written(Ser(doc), es), [], key);
    SourceOfTree(doc);
  }

  lemma DottedText(text: string, es: seq<Edit>, key: string)
    requires DottedKey(key)
    ensures GetText(text, es, key) == TextFound(text, es, key) && Rooted(key)
  {
    hide ExpandFrom, Lookup, Decode;
    ExpandItself(text, es, key);
  }

  // So it does for plain values, where only leaves have text or no child of the
  // element was deleted.
  lemma ReadsAlikePlainly(doc: Items, calls: seq<Call>, key: string)
    requires SourceDoc(doc) && !Has(key, '>') && forall c :: c in calls ==> PlainCall(c)
    requires var es := Run(Ser(doc), calls);
      && (Found(Ser(doc), es, key) ==> !LiveRoot(es, RootOf(key)))
      && (Nav(doc, key).Some? ==> TextFirst(Nav(doc, key).value) || DeletedOf(es, key) == {})
    ensures ReadsAlike(doc, Run(Ser(doc), calls), key)
  {
    hide Run, FindOver, PlainCall, ValidEdits, Nav, SourceDoc, CleanEdits, PlainEdits, Decode, Plain, LiveRoot,
         TextFirst, Lead;
    var es := Run(Ser(doc), calls);
    RunPlain(Ser(doc), calls);
    LookupPlain(Ser(doc), es, key, false);
    if Found(Ser(doc), es, key) && Lookup(Ser(doc), es, key).value.DocSpan? {
      SpanNamed(doc, es, key);
      var c := Nav(doc, key).value;
      LeadWithoutNone(c);
      LeadWithoutText(DeletedOf(es, key), c);
      assert JoinedLead(doc, es, key) == Lead(c);
    }
  }

  // A span of the source is found only where walking the tree gets to.
  lemma SpanNamed(doc: Items, es: seq<Edit>, key: string)
    requires SourceDoc(doc) && !Has(key, '>')
    requires Lookup(Ser(doc), es, key).Some? && Lookup(Ser(doc), es, key).value.DocSpan?
    ensures Nav(doc, key).Some?
  {
    hide SourceDoc, Nav, FindOver;
    SourceDocValid(doc);
    FindRefinesNav(Ser(doc), doc, key);
  }

  // Where every piece of text ends its entities, so does every lead.
  predicate ClosedTexts(items: Items) {
    match items
    case Nil => true
    case Txt(c, rest) => Closed(Bytes(c)) && ClosedTexts(rest)
    case El(_, kids, rest) => ClosedTexts(kids) && ClosedTexts(rest)
  }

  lemma ClosedTextsLead(doc: Items, es: seq<Edit>, key: string)
    requires ClosedTexts(doc)
    ensures LeadsClosed(doc, es, key)
  {
    hide Closed, Nav;
    ClosedNav(doc, key);
    if Nav(doc, key).Some? {
      var c := Nav(doc, key).value;
      LeadWithoutNone(c);
      ClosedLead({}, c);
      ClosedLead(DeletedOf(es, key), c);
    }
  }

  lemma {:induction false} ClosedNav(doc: Items, key: string)
    requires ClosedTexts(doc)
    ensures Nav(doc, key).Some? ==> ClosedTexts(Nav(doc, key).value)
    decreases |key|
  {
    hide Closed;
    var d := LastDot(key);
    if d < 0 {
      ClosedChild(doc, key);
    } else {
      ClosedNav(doc, key[..d]);
      if Nav(doc, key[..d]).Some? {
        ClosedChild(Nav(doc, key[..d]).value, key[d + 1..]);
      }
    }
  }

  lemma {:induction false} ClosedChild(items: Items, tag: string)
    requires ClosedTexts(items)
    ensures Child(items, tag).Some? ==> ClosedTexts(Child(items, tag).value)
  {
    hide Closed;
    match items {
      case Nil =>
      case Txt(_, rest) => ClosedChild(rest, tag);
      case El(_, _, rest) => ClosedChild(rest, tag);
    }
  }

  lemma {:induction false} ClosedLead(gone: set<string>, items: Items)
    requires ClosedTexts(items)
    ensures Closed(LeadWithout(gone, items))
  {
    hide Closed;
    match items {
      case Nil => NothingClosed();
      case Txt(c, rest) =>
        ClosedLead(gone, rest);
        ClosedConcat(Bytes(c), LeadWithout(gone, rest));
      case El(tag, _, rest) =>
        NothingClosed();
        ClosedLead(gone, rest);
    }
  }

  lemma NothingClosed()
    ensures Closed("")
  {
  }

  lemma ClosedConcat(a: string, b: string)
    requires Closed(a) && Closed(b)
    ensures Closed(a + b)
  {
    ClosedJoin(a, b, 0);
  }

  lemma {:induction false} ClosedJoin(a: string, b: string, i: nat)
    requires i <= |a| && ClosedFrom(a, i) && ClosedFrom(b, 0)
    ensures ClosedFrom(a + b, i)
    decreases |a| - i
  {
    var t := a + b;
    if i == |a| {
      ClosedMoved(a, b, 0);
    } else if a[i] == '&' {
      var j := NextCh(a, i + 1, |a|, ';');
      assert t[j] == ';' && forall k :: i + 1 <= k < j ==> t[k] == a[k];
      assert NextCh(t, i + 1, |t|, ';') == j;
      ClosedJoin(a, b, j + 1);
    } else if a[i] != '<' {
      ClosedJoin(a, b, i + 1);
    }
  }

  lemma {:induction false} ClosedMoved(a: string, b: string, i: nat)
    requires i <= |b| && ClosedFrom(b, i)
    ensures ClosedFrom(a + b, |a| + i)
    decreases |b| - i
  {
    var t := a + b;
    if i == |b| {
    } else if b[i] == '&' {
      var j := NextCh(b, i + 1, |b|, ';');
      assert t[|a| + j] == ';' && forall k :: |a| + i + 1 <= k < |a| + j ==> t[k] == b[k - |a|];
      assert NextCh(t, |a| + i + 1, |t|, ';') == |a| + j;
      ClosedMoved(a, b, j + 1);
    } else if b[i] != '<' {
      ClosedMoved(a, b, i + 1);
    }
  }

  lemma ExpandItself(text: string, es: seq<Edit>, key: string)
    requires DottedKey(key)
    ensures Expand(text, es, key) == Expanded(key) && !EndsWith(key, TOTAL)
  {
    hide ExpandFrom;
    assert key[..0] == "" && key[..|key|] == key;
    ExpandUpTo(text, es, key, |key|, 0);
    ExpandEnd(text, es, key);
    assert |key| >= 3 ==> key[|key| - 3..][0] == key[|key| - 3];
  }
}
