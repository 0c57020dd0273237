// A run after which a key with a bracket names another element in the written
// document: the editor still counts what the list's total says, but an element has
// been put into the total.
module TotalRun {
  import opened Chars
  import opened KeyPath
  import opened Decimal
  import opened Codec
  import opened DocFind
  import opened MxmlInt
  import opened Find
  import opened Ekey
  import opened Api
  import opened Tree
  import opened TreeText
  import opened TreeTokens
  import opened Tokens
  import opened Tokenizer
  import opened Reachable
  import opened ApiReach
  import opened Flatten
  import opened Write
  import opened EditNav
  import opened Agreement
  import opened RunAgreement
  import opened Totals
  import opened Brackets
  import opened Laws
  import opened Lists

  // "<r><ts><total>1</total><t1>v</t1></ts></r>"
  const COUNTED_LIST := El("total", Txt(Raw("1"), Nil), El("t1", Txt(Raw("v"), Nil), Nil))
  const COUNTED_DOC := Txt(Raw(""), El("r", El("ts", COUNTED_LIST, Nil), Nil))
  const IN_TOTAL := "r.ts.total.x"
  const COUNTED_EDITS := [Edit(EditAppend, IN_TOTAL, "")]

  lemma CountedSource()
    ensures SourceDoc(COUNTED_DOC)
  {
    hide ValidTag, Quiet;
    TagsValid();
    assert SourceItems(Txt(Raw("1"), Nil)) && SourceItems(Txt(Raw("v"), Nil));
    assert SourceItems(COUNTED_LIST);
    assert KeysFit("r.ts", COUNTED_LIST);
    assert SourceItems(El("ts", COUNTED_LIST, Nil));
    assert KeysFit("r", El("ts", COUNTED_LIST, Nil));
  }

  lemma TagsValid()
    ensures ValidTag("total") && ValidTag("t1") && ValidTag("ts") && ValidTag("r")
    ensures Quiet("") && Quiet("1") && Quiet("v")
  {
  }

  lemma CountedKeys()
    ensures Ext("", "r") == "r" && Ext("r", "ts") == "r.ts" && Ext("r.ts", "total") == "r.ts.total"
    ensures Ext("r.ts.total", "x") == IN_TOTAL && Ext("r.ts", "t0") == "r.ts.t0" && Ext("r.ts", "t1") == "r.ts.t1"
    ensures !Has("r", '.') && !Has("ts", '.') && !Has("total", '.') && !Has("x", '.')
    ensures !Has("t0", '.') && !Has("t1", '.')
  {
  }

  lemma CountedNav()
    ensures Nav(COUNTED_DOC, "r.ts.total") == Some(Txt(Raw("1"), Nil)) && Nav(COUNTED_DOC, IN_TOTAL) == None
    ensures Nav(COUNTED_DOC, "r.ts.t1") == Some(Txt(Raw("v"), Nil)) && Nav(COUNTED_DOC, "r.ts.t0") == None
  {
    hide Nav, Ext, Has;
    var doc := COUNTED_DOC;
    CountedKeys();
    NavExt(doc, "", "r");
    NavExt(doc, "r", "ts");
    NavExt(doc, "r.ts", "total");
    NavExt(doc, "r.ts.total", "x");
    NavExt(doc, "r.ts", "t0");
    NavExt(doc, "r.ts", "t1");
  }

  lemma InTotalShape()
    ensures DottedKey(IN_TOTAL) && CleanKey(IN_TOTAL) && Rooted(IN_TOTAL) && !Has(IN_TOTAL, '>')
    ensures ParentKey(IN_TOTAL) == "r.ts.total" && LastDot(IN_TOTAL) >= 0 && LastTag(IN_TOTAL) == "x"
    ensures RootOf(IN_TOTAL) == "r"
  {
    hide LastDot;
    CountedKeys();
    ExtInverse("r.ts.total", "x");
    assert NextCh(IN_TOTAL, 1, 12, '.') == 1;
  }

  // The element is appended, and nothing else.
  lemma CountedRun()
    ensures
      var text := Ser(COUNTED_DOC);
      && Run(text, [CallAppend(IN_TOTAL, "")]) == COUNTED_EDITS && ValidEdits(text, COUNTED_EDITS)
      && forall q :: Rooted(q) ==>
           Lookup(text, COUNTED_EDITS, q) == (if q == IN_TOTAL then Some(EditValue("")) else Lookup(text, [], q))
  {
    hide Nav, LastDot, Ser, FindNoEdit, Lookup, AppendParents, ExpandFrom, SourceDoc, ValidItems, DottedKey, CleanKey,
         RootOf, ParentKey, TotalKey, Has;
    var text, e := Ser(COUNTED_DOC), Edit(EditAppend, IN_TOTAL, "");
    InTotalShape();
    CountedFound();
    NoEditsValid(text);
    AppendUnder(text, [], IN_TOTAL);
    DottedPlain(text, [], IN_TOTAL);
    var c := CallAppend(IN_TOTAL, "");
    assert [c][..0] == [];
    assert Run(text, [c]) == Answer(text, [], c).edits == [e] + [];
    PushOk(text, [], e);
    forall q | Rooted(q)
      ensures Lookup(text, COUNTED_EDITS, q) == Overlaid(e, q, Lookup(text, [], q))
    {
      PushLookup(text, [], e, q);
      assert [e] + [] == COUNTED_EDITS;
    }
  }

  lemma CountedFound()
    ensures
      var text := Ser(COUNTED_DOC);
      && Found(text, [], "r.ts.total") && Content(text, Lookup(text, [], "r.ts.total").value) == "1"
      && Found(text, [], "r.ts.t1") && Content(text, Lookup(text, [], "r.ts.t1").value) == "v"
      && !Found(text, [], "r.ts.t0") && !Found(text, [], IN_TOTAL)
  {
    hide Nav, Ser, FindNoEdit, SourceDoc, ValidItems;
    var doc, text := COUNTED_DOC, Ser(COUNTED_DOC);
    CountedSource();
    CountedNav();
    InTotalShape();
    SourceDocValid(doc);
    assert Ser(Txt(Raw("1"), Nil)) == "1" && Ser(Txt(Raw("v"), Nil)) == "v" by { OneChar(); }
    FindRefinesNav(text, doc, IN_TOTAL);
    FindRefinesNav(text, doc, "r.ts.total");
    FindRefinesNav(text, doc, "r.ts.t1");
    FindRefinesNav(text, doc, "r.ts.t0");
  }

  lemma OneChar()
    ensures Ser(Txt(Raw("1"), Nil)) == "1" && Ser(Txt(Raw("v"), Nil)) == "v"
    ensures Decode("v") == "v"
  {
    assert DecodeFrom("v", 1) == "";
  }

  lemma CountedBase()
    ensures ListBase("r.t") && TotalKeyOf("r.t") == "r.ts.total"
    ensures ItemKey("r.t", 0) == "r.ts.t0" && ItemKey("r.t", 1) == "r.ts.t1"
    ensures "r.t" + ['[', '$', ']'] == "r.t[$]" && CountOf("1") == 1
  {
    hide LastDot;
    CountedKeys();
    assert Ext("r", "t") == "r.t" && !Has("t", '.');
    ExtInverse("r", "t");
    assert "r.t" + "s" == "r.ts";
    assert ToDec(0) == "0" && ToDec(1) == "1";
    ParseToDec(1);
  }

  lemma BracketClean()
    ensures CleanKey("r.t[$]")
  {
  }

  // What the editor still reads.
  lemma CountedReads()
    ensures
      var text := Ser(COUNTED_DOC);
      && TotalOf(text, COUNTED_EDITS, "r.ts.total") == 1
      && Expand(text, COUNTED_EDITS, "r.t[$]") == Expanded("r.ts.t1")
      && GetText(text, COUNTED_EDITS, "r.t[$]") == Some("v")
  {
    hide Lookup, Ser, ExpandFrom, ListBase, TotalKeyOf, ItemKey, Decode, CountOf;
    var text := Ser(COUNTED_DOC);
    CountedFound();
    CountedRun();
    CountedBase();
    OneChar();
    ExpandBracket(text, COUNTED_EDITS, "r.t", '$');
  }

  lemma CountedDomain()
    ensures DomainEdits(COUNTED_EDITS) && TagsFit(COUNTED_EDITS) && !LiveRoot(COUNTED_EDITS, "r")
    ensures DeletedOf(COUNTED_EDITS, "r.ts.t1") == {}
  {
    hide LastDot, Rooted, Has;
    InTotalShape();
    assert COUNTED_EDITS[1..] == [];
  }

  lemma CountedRoots()
    ensures RootOf("r.ts.total") == "r" && RootOf("r.ts.t0") == "r" && RootOf("r.ts.t1") == "r"
    ensures Rooted("r.ts.total") && Rooted("r.ts.t0") && Rooted("r.ts.t1")
    ensures !Has("r.ts.total", '>') && !Has("r.ts.t0", '>') && !Has("r.ts.t1", '>')
  {
    assert "r.ts.total"[1] == '.' && "r.ts.t0"[1] == '.' && "r.ts.t1"[1] == '.';
    assert NextCh("r.ts.total", 1, 10, '.') == 1 && NextCh("r.ts.t0", 1, 7, '.') == 1;
    assert NextCh("r.ts.t1", 1, 7, '.') == 1;
  }

  // What is read in the written document.
  lemma CountedWritten()
    ensures SourceDoc(COUNTED_DOC)
    ensures
      var text := Ser(COUNTED_DOC);
      var w := Written(text, COUNTED_EDITS);
      && !CountsAlike(COUNTED_DOC, COUNTED_EDITS, "r.ts.total") && TotalOf(w, [], "r.ts.total") == 0
      && GetText(w, [], "r.t[$]") == None
  {
    hide Lookup, Ser, ExpandFrom, ListBase, TotalKeyOf, ItemKey, Decode, CountOf, Written, SourceDoc, ValidEdits,
         DomainEdits, LiveRoot, RootOf, Rooted, Has, ParentKey;
    var text := Ser(COUNTED_DOC);
    var w := Written(text, COUNTED_EDITS);
    CountedSource();
    CountedFound();
    CountedRun();
    CountedBase();
    CountedDomain();
    CountedRoots();
    InTotalShape();
    assert ChildStays(text, COUNTED_EDITS, "r.ts.total");
    WrittenTotalIs(COUNTED_DOC, COUNTED_EDITS, "r.ts.total");
    ExpandBracket(w, [], "r.t", '$');
    FoundAgrees(COUNTED_DOC, COUNTED_EDITS, "r.ts.t0");
    assert !EndsWith("r.t[$]", TOTAL) by { LastIsNoTotal("r.t"); assert "r.t" + LAST == "r.t[$]"; }
  }

  lemma ItemReadsAlike()
    ensures ReadsAlike(COUNTED_DOC, COUNTED_EDITS, "r.ts.t1")
  {
    hide Lookup, Ser, Nav, Decode, SourceDoc, LiveRoot, RootOf, Rooted, Has, FindNoEdit;
    CountedSource();
    CountedFound();
    CountedRun();
    CountedDomain();
    CountedRoots();
    CountedNav();
    InTotalShape();
    OverNoEdits(Ser(COUNTED_DOC), "r.ts.t1");
    LeadWithoutNone(Txt(Raw("v"), Nil));
  }

  lemma OverNoEdits(text: string, key: string)
    ensures Lookup(text, [], key).Some? ==> Lookup(text, [], key).value.DocSpan?
  {
  }

  // Appending "r.ts.total.x" makes "r.t[$]" read "v" now, and nothing once written.
  lemma TotalWithChild()
    ensures SourceDoc(COUNTED_DOC) && CleanKey(IN_TOTAL) && CleanKey("r.t[$]")
    ensures
      var text := Ser(COUNTED_DOC);
      var es := Run(text, [CallAppend(IN_TOTAL, "")]);
      && Expand(text, es, "r.t[$]") == Expanded("r.ts.t1") && ReadsAlike(COUNTED_DOC, es, "r.ts.t1")
      && !CountsAlike(COUNTED_DOC, es, "r.ts.total")
      && GetText(text, es, "r.t[$]") == Some("v")
      && WriteAnswer(text, es).Some? && GetText(WriteAnswer(text, es).value, [], "r.t[$]") == None
  {
    hide Ser, Expand, ReadsAlike, CountsAlike, GetText, Run, TagsFit, Written, Source, CleanKey, SourceDoc, Lookup,
         DottedKey, Has, LastDot, RootOf, ParentKey, TotalOf, ValidEdits, DomainEdits, LiveRoot, DeletedOf, Rooted;
    BracketClean();
    InTotalShape();
    CountedRun();
    CountedReads();
    CountedWritten();
    CountedDomain();
    ItemReadsAlike();
    SourceOfTree(COUNTED_DOC);
  }
}
