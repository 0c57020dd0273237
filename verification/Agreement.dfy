// The two engines agree: looking a key up over the edit list gives what looking
// it up in the written document gives.
module Agreement {
  import opened Chars
  import opened KeyPath
  import opened DocFind
  import opened Codec
  import opened MxmlInt
  import opened Find
  import opened Tree
  import opened TreeText
  import opened TreeTokens
  import opened Tokens
  import opened EditNav
  import opened Reachable
  import opened Write

  // An edit in the parser's domain: a key it can match, and a tag it can read.
  predicate DomainEdit(e: Edit) {
    Rooted(e.key) && !Has(e.key, '>') && (e.op == EditAppend ==> ValidTag(LastTag(e.key)))
  }

  predicate DomainEdits(es: seq<Edit>) {
    forall i :: 0 <= i < |es| ==> DomainEdit(es[i])
  }

  // The document element r was appended and not deleted since. The writer, for
  // want of a parent's closing tag, does not know of it.
  predicate LiveRoot(es: seq<Edit>, r: string) {
    if es == [] then false
    else if es[0].op == EditDelete && es[0].key == r then false
    else if es[0].op == EditAppend && es[0].key == r then true
    else LiveRoot(es[1..], r)
  }

  lemma RootOfFacts(key: string)
    requires Rooted(key)
    ensures var r := RootOf(key); Rooted(r) && LastDot(r) < 0 && SelfOrChild(key, r) && RootOf(r) == r
  {
    var n := NextCh(key, 0, |key|, '.');
    var r := key[..n];
    assert forall i :: 0 <= i < n ==> r[i] == key[i];
    assert NextCh(r, 0, |r|, '.') == |r|;
  }

  // The children of the element with the given key that the edits delete.
  function DeletedOf(es: seq<Edit>, key: string): set<string> {
    if es == [] then {} else DeletedOf(es[1..], key) + DeletedTags(es[0], key)
  }

  // The source's content c0 and the edited content c lead with the same text,
  // whichever children are left out, but for the children the edits have deleted.
  ghost predicate LeadsAlike(c: Items, c0: Items, deleted: set<string>) {
    forall gone: set<string> :: LeadWithout(gone, c) == LeadWithout(gone + deleted, c0)
  }

  // How an answer of the lookup and content of the edited tree correspond.
  ghost predicate Matches(text: string, doc: Items, es: seq<Edit>, key: string, hit: Hit, c: Items) {
    match hit
    case EditValue(v) => TextFirst(c) && Lead(c) == Encode(v)
    case DocSpan(span) =>
      && Nav(doc, key).Some?
      && Holds(text, span, Nav(doc, key).value)
      && LeadsAlike(c, Nav(doc, key).value, DeletedOf(es, key))
  }

  // What is found over the edits, and what is in the edited tree.
  ghost predicate Corresponds(text: string, doc: Items, es: seq<Edit>, key: string) {
    var hit, c := Lookup(text, es, key), Nav(EditTree(es, doc), key);
    && (c.Some? <==> hit.Some? && !LiveRoot(es, RootOf(key)))
    && (c.Some? ==> Matches(text, doc, es, key, hit.value, c.value))
  }

  lemma NoEditsCorrespond(text: string, doc: Items, key: string)
    requires text == Ser(doc) && ValidItems(doc) && !Has(key, '>')
    ensures Corresponds(text, doc, [], key)
  {
    FindRefinesNav(text, doc, key);
    if Nav(doc, key).Some? {
      var c := Nav(doc, key).value;
      forall gone: set<string>
        ensures LeadWithout(gone, c) == LeadWithout(gone + {}, c)
      {
        assert gone + {} == gone;
      }
    }
  }

  // What the newest edit does to the leading text of an element it leaves there.
  lemma {:induction false} StepLead(doc: Items, es: seq<Edit>, key: string)
    requires es != [] && ValidItems(doc) && DomainEdits(es)
    ensures
      var e, found := es[0], Nav(EditTree(es[1..], doc), key);
      found.Some? && !Removes(e, key) ==>
        var c, c' := found.value, Edited(e, key, found.value);
        && (e.op == EditSet && e.key == key ==> TextFirst(c') && Lead(c') == Encode(e.value))
        && (!(e.op == EditSet && e.key == key) && TextFirst(c) ==> TextFirst(c') && Lead(c') == Lead(c))
        && (!(e.op == EditSet && e.key == key) ==> LeadsAlike(c', c, DeletedTags(e, key)))
  {
    hide EditItems, Nav, Lead, TextFirst, Edited, Encode, ValidItems, ParentKey, SelfOrChild, LeadWithout;
    var e, found := es[0], Nav(EditTree(es[1..], doc), key);
    assert DomainEdit(e);
    if found.Some? && !Removes(e, key) {
      EditedTextFirst(e, key, found.value);
      EditTreeValid(es[1..], doc);
      NavValid(EditTree(es[1..], doc), key);
      if !(e.op == EditSet && e.key == key) {
        forall gone: set<string>
          ensures LeadWithout(gone, Edited(e, key, found.value)) == LeadWithout(gone + DeletedTags(e, key), found.value)
        {
          EditedJoinsLead(e, key, found.value, gone);
        }
      }
    }
  }

  // What the newest edit leaves there corresponds as what it found there did.
  lemma {:induction false} StepAlike(text: string, doc: Items, es: seq<Edit>, key: string)
    requires es != [] && ValidItems(doc) && DomainEdits(es) && Corresponds(text, doc, es[1..], key)
    ensures
      var e, found := es[0], Nav(EditTree(es[1..], doc), key);
      found.Some? && !Removes(e, key) && !(e.op == EditSet && e.key == key) ==>
        Matches(text, doc, es, key, Lookup(text, es[1..], key).value, Edited(e, key, found.value))
  {
    hide EditItems, Nav, Lead, TextFirst, Edited, Encode, ValidItems, LeadsAlike, Lookup, EditTree, Holds;
    var e, found := es[0], Nav(EditTree(es[1..], doc), key);
    StepLead(doc, es, key);
    if found.Some? && !Removes(e, key) && !(e.op == EditSet && e.key == key) {
      var hit := Lookup(text, es[1..], key).value;
      if hit.DocSpan? {
        AlikeThen(Edited(e, key, found.value), found.value, Nav(doc, key).value,
                  DeletedTags(e, key), DeletedOf(es[1..], key));
      }
    }
  }

  lemma {:induction false} AlikeThen(c': Items, c: Items, c0: Items, d1: set<string>, d: set<string>)
    requires LeadsAlike(c', c, d1) && LeadsAlike(c, c0, d)
    ensures LeadsAlike(c', c0, d + d1)
  {
    hide LeadWithout;
    forall gone: set<string>
      ensures LeadWithout(gone, c') == LeadWithout(gone + (d + d1), c0)
    {
      assert (gone + d1) + d == gone + (d + d1);
      assert LeadWithout(gone + d1, c) == LeadWithout((gone + d1) + d, c0);
    }
  }

  lemma {:induction false} NavValid(doc: Items, key: string)
    requires ValidItems(doc)
    ensures Nav(doc, key).Some? ==> ValidItems(Nav(doc, key).value)
    decreases |key|
  {
    hide ValidItems, Child;
    var d := LastDot(key);
    if d < 0 {
      ChildValid(doc, key);
    } else {
      NavValid(doc, key[..d]);
      if Nav(doc, key[..d]).Some? {
        ChildValid(Nav(doc, key[..d]).value, key[d + 1..]);
      }
    }
  }

  lemma {:induction false} DeleteCorresponds(text: string, doc: Items, es: seq<Edit>, key: string)
    requires es != [] && es[0].op == EditDelete && Rooted(key) && Rooted(es[0].key)
    requires ValidEdits(text, es) && Corresponds(text, doc, es[1..], key)
    requires ValidItems(doc) && DomainEdits(es)
    ensures Corresponds(text, doc, es, key)
  {
    hide FindOver, Lookup, EditItems, Nav, ValidEdits, RootOf, Lead, TextFirst;
    var e := es[0];
    LookupStep(text, es, key);
    NavEdited(e, EditTree(es[1..], doc), key);
    RootOfFacts(key);
    StepLead(doc, es, key);
    StepAlike(text, doc, es, key);
  }

  lemma {:induction false} SetCorresponds(text: string, doc: Items, es: seq<Edit>, key: string)
    requires es != [] && es[0].op == EditSet && Rooted(key)
    requires ValidEdits(text, es) && Corresponds(text, doc, es[1..], key)
    requires ValidItems(doc) && DomainEdits(es)
    ensures Corresponds(text, doc, es, key)
  {
    hide FindOver, Lookup, EditItems, Nav, RootOf, Lead, TextFirst, Edited;
    var e := es[0];
    LookupStep(text, es, key);
    NavEdited(e, EditTree(es[1..], doc), key);
    StepLead(doc, es, key);
    StepAlike(text, doc, es, key);
  }

  lemma {:induction false} AppendCorresponds(text: string, doc: Items, es: seq<Edit>, key: string)
    requires es != [] && es[0].op == EditAppend && Rooted(key)
    requires ValidEdits(text, es) && Corresponds(text, doc, es[1..], key)
    requires ValidItems(doc) && DomainEdits(es)
    requires LastDot(es[0].key) >= 0 ==> Corresponds(text, doc, es[1..], ParentKey(es[0].key))
    ensures Corresponds(text, doc, es, key)
  {
    hide FindOver, Lookup, EditItems, Nav, RootOf, TextFirst, Edited, Encode;
    var e := es[0];
    var t := EditTree(es[1..], doc);
    LookupStep(text, es, key);
    NavEdited(e, t, key);
    RootOfFacts(key);
    StepLead(doc, es, key);
    StepAlike(text, doc, es, key);
    if e.key == key {
      if LastDot(key) >= 0 {
        RootedParent(key);
        RootOfParent(key);
      }
      NewLead(e.value);
    } else if e.key == RootOf(key) && Found(text, es[1..], key) {
      AncestorFound(text, es[1..], key, e.key);
      assert false;
    }
  }

  lemma NewLead(v: string)
    ensures TextFirst(Txt(User(v), Nil)) && Lead(Txt(User(v), Nil)) == Encode(v)
  {
  }

  lemma {:induction false} EditsCorrespond(text: string, doc: Items, es: seq<Edit>, key: string)
    requires text == Ser(doc) && ValidItems(doc)
    requires ValidEdits(text, es) && DomainEdits(es)
    requires Rooted(key) && !Has(key, '>')
    ensures Corresponds(text, doc, es, key)
    decreases |es|
  {
    hide Corresponds, Lookup, FindOver, EditItems;
    if es == [] {
      NoEditsCorrespond(text, doc, key);
    } else {
      var e := es[0];
      assert DomainEdit(e);
      EditsCorrespond(text, doc, es[1..], key);
      match e.op {
        case EditDelete => DeleteCorresponds(text, doc, es, key);
        case EditSet => SetCorresponds(text, doc, es, key);
        case EditAppend =>
          if LastDot(e.key) >= 0 {
            RootedParent(e.key);
            HasPart(e.key, 0, LastDot(e.key), '>');
            EditsCorrespond(text, doc, es[1..], ParentKey(e.key));
          }
          AppendCorresponds(text, doc, es, key);
      }
    }
  }

  lemma {:induction false} ConcatValid(a: Items, b: Items)
    requires ValidItems(a) && ValidItems(b)
    ensures ValidItems(Concat(a, b))
  {
    match a {
      case Nil =>
      case Txt(_, rest) => ConcatValid(rest, b);
      case El(_, _, rest) => ConcatValid(rest, b);
    }
  }

  lemma EncodedQuiet(v: string)
    ensures Quiet(Encode(v))
  {
    EncodeNoTag(v);
    NoTagQuiet(Encode(v), 0);
  }

  lemma {:induction false} NoTagQuiet(t: string, i: nat)
    requires i <= |t| && forall k :: 0 <= k < |t| ==> t[k] != '<'
    ensures QuietFrom(t, i)
    decreases |t| - i
  {
    if i == |t| {
    } else {
      NoTagQuiet(t, i + 1);
    }
  }

  lemma {:induction false} EditValid(e: Edit, key: string, items: Items)
    requires ValidItems(items) && DomainEdit(e)
    ensures ValidItems(EditItems(e, key, items))
    decreases items
  {
    hide Quiet, Encode, ValidTag, Ext, SelfOrChild;
    match items {
      case Nil =>
      case Txt(_, rest) => EditValid(e, key, rest);
      case El(tag, kids, rest) =>
        EditValid(e, Ext(key, tag), kids);
        EditValid(e, key, rest);
        ContentValid(e, Ext(key, tag), EditItems(e, Ext(key, tag), kids));
    }
  }

  lemma ContentValid(e: Edit, key: string, kids: Items)
    requires ValidItems(kids) && DomainEdit(e)
    ensures ValidItems(EditContent(e, key, kids))
  {
    hide Quiet, Encode;
    EncodedQuiet(e.value);
    if e.op == EditAppend {
      assert ValidItems(Txt(User(e.value), Nil));
      ConcatValid(kids, Appended(e));
    }
  }

  lemma {:induction false} EditTreeValid(es: seq<Edit>, doc: Items)
    requires ValidItems(doc) && DomainEdits(es)
    ensures ValidItems(EditTree(es, doc))
  {
    if es == [] {
    } else {
      assert DomainEdit(es[0]);
      EditTreeValid(es[1..], doc);
      EditValid(es[0], "", EditTree(es[1..], doc));
    }
  }

  lemma DomainNamed(es: seq<Edit>)
    requires DomainEdits(es)
    ensures NamedEdits(es)
  {
    forall i | 0 <= i < |es|
      ensures es[i].key != ""
    {
      assert DomainEdit(es[i]);
    }
  }

  // Looking a key up in the written document is walking the edited tree.
  lemma WrittenLookup(doc: Items, es: seq<Edit>, key: string)
    requires SourceDoc(doc) && DomainEdits(es) && !Has(key, '>')
    ensures Written(Ser(doc), es) == Ser(EditTree(es, doc))
    ensures Reads(Written(Ser(doc), es), FindNoEdit(Written(Ser(doc), es), key), Nav(EditTree(es, doc), key))
  {
    SourceDocValid(doc);
    DomainNamed(es);
    WrittenIsTree(doc, es);
    EditTreeValid(es, doc);
    FindRefinesNav(Ser(EditTree(es, doc)), EditTree(es, doc), key);
  }

  // The text mxml_get gives for a hit.
  function TextAt(text: string, hit: Hit): string
    requires hit.DocSpan? ==> hit.span.start <= hit.span.stop <= |text|
  {
    Decode(Content(text, hit))
  }

  // A key is found over the edit list exactly when it is found in the written
  // document, but for what lies under a document element that was appended.
  lemma FoundAgrees(doc: Items, es: seq<Edit>, key: string)
    requires SourceDoc(doc) && ValidEdits(Ser(doc), es) && DomainEdits(es)
    requires Rooted(key) && !Has(key, '>')
    ensures Found(Written(Ser(doc), es), [], key) <==>
      Found(Ser(doc), es, key) && !LiveRoot(es, RootOf(key))
  {
    hide Nav, EditTree, FindNoEdit, Written, SourceDoc, ValidEdits;
    SourceDocValid(doc);
    EditsCorrespond(Ser(doc), doc, es, key);
    WrittenLookup(doc, es, key);
  }

  // Right inside the element with the given key, at the top for "", an element is
  // found that is not under an appended document element.
  ghost predicate ChildStays(text: string, es: seq<Edit>, key: string) {
    exists q :: Rooted(q) && !Has(q, '>') && ParentKey(q) == key && Found(text, es, q) && !LiveRoot(es, RootOf(q))
  }

  lemma ParentContent(doc: Items, key: string, q: string)
    requires Rooted(q) && ParentKey(q) == key && ContentAt(doc, key).Some?
    ensures Nav(doc, q) == Child(ContentAt(doc, key).value, LastTag(q))
  {
    hide Child;
    assert LastDot(q) < 0 ==> LastTag(q) == q;
    assert LastDot(q) >= 0 ==> key != "";
  }

  // So the content of an element that is written has an element.
  lemma ChildStaysExactly(doc: Items, es: seq<Edit>, key: string)
    requires SourceDoc(doc) && ValidEdits(Ser(doc), es) && DomainEdits(es)
    requires key != "" ==> Rooted(key) && !Has(key, '>')
    requires ContentAt(EditTree(es, doc), key).Some?
    ensures HasElement(ContentAt(EditTree(es, doc), key).value) <==> ChildStays(Ser(doc), es, key)
  {
    hide SourceDoc, ValidItems, ValidEdits, DomainEdits, EditTree, Nav, Lookup, Matches, HasElement, RootOf, LastDot,
         ValidTag;
    var c := ContentAt(EditTree(es, doc), key).value;
    SourceDocValid(doc);
    EditTreeValid(es, doc);
    if key != "" {
      NavValid(EditTree(es, doc), key);
    }
    ElementChild(c);
    if HasElement(c) {
      var tag :| ValidTag(tag) && Child(c, tag).Some?;
      ChildFound(doc, es, key, tag);
    }
    if ChildStays(Ser(doc), es, key) {
      var q :| Rooted(q) && !Has(q, '>') && ParentKey(q) == key && Found(Ser(doc), es, q) && !LiveRoot(es, RootOf(q));
      EditsCorrespond(Ser(doc), doc, es, q);
      ParentContent(EditTree(es, doc), key, q);
      ChildHasElement(c, LastTag(q));
    }
  }

  lemma ChildFound(doc: Items, es: seq<Edit>, key: string, tag: string)
    requires ValidItems(doc) && ValidEdits(Ser(doc), es) && DomainEdits(es) && ValidTag(tag)
    requires key != "" ==> Rooted(key) && !Has(key, '>')
    requires var c := ContentAt(EditTree(es, doc), key); c.Some? && Child(c.value, tag).Some?
    ensures ChildStays(Ser(doc), es, key)
  {
    hide ValidItems, ValidEdits, DomainEdits, EditTree, Nav, Lookup, Matches, RootOf, LastDot, ContentAt, Ext, Has;
    var q := Ext(key, tag);
    NoDot(tag);
    ExtInverse(key, tag);
    ExtKey(key, tag);
    NavExt(EditTree(es, doc), key, tag);
    EditsCorrespond(Ser(doc), doc, es, q);
  }

  lemma NoDot(tag: string)
    requires ValidTag(tag)
    ensures !Has(tag, '.')
  {
  }

  lemma ExtKey(key: string, tag: string)
    requires ValidTag(tag) && (key != "" ==> Rooted(key) && !Has(key, '>'))
    ensures Rooted(Ext(key, tag)) && !Has(Ext(key, tag), '>')
  {
  }

  lemma {:induction false} ChildHasElement(items: Items, tag: string)
    requires Child(items, tag).Some?
    ensures HasElement(items)
  {
    match items {
      case Txt(_, rest) => ChildHasElement(rest, tag);
      case El(_, _, _) =>
    }
  }

  lemma RootStaysExactly(doc: Items, es: seq<Edit>)
    requires SourceDoc(doc) && ValidEdits(Ser(doc), es) && DomainEdits(es)
    ensures HasElement(EditTree(es, doc)) <==> ChildStays(Ser(doc), es, "")
  {
    hide SourceDoc, ValidEdits, DomainEdits, EditTree, ChildStays, HasElement;
    ChildStaysExactly(doc, es, "");
  }

  // The leading text of the source's element once the edits have deleted children.
  function JoinedLead(doc: Items, es: seq<Edit>, key: string): string
    requires Nav(doc, key).Some?
  {
    LeadWithout(DeletedOf(es, key), Nav(doc, key).value)
  }

  // Where both find a value given by the user, the written document has just that
  // value, and both read the same exactly when the value is plain.
  lemma ValueAgrees(doc: Items, es: seq<Edit>, key: string)
    requires SourceDoc(doc) && ValidEdits(Ser(doc), es) && DomainEdits(es)
    requires Rooted(key) && !Has(key, '>')
    requires Found(Written(Ser(doc), es), [], key) && Found(Ser(doc), es, key)
    requires Lookup(Ser(doc), es, key).value.EditValue?
    ensures
      var w := Written(Ser(doc), es);
      var lazy, written := Lookup(Ser(doc), es, key).value, Lookup(w, [], key).value;
      && TextAt(w, written) == lazy.value
      && (TextAt(Ser(doc), lazy) == TextAt(w, written) <==> Plain(lazy.value))
  {
    hide Nav, EditTree, FindNoEdit, Written, SourceDoc, ValidEdits, Decode, TextFirst, Lead, Closed, Encode;
    SourceDocValid(doc);
    EditsCorrespond(Ser(doc), doc, es, key);
    WrittenLookup(doc, es, key);
    var v := Lookup(Ser(doc), es, key).value.value;
    EncodedClosedWhole(v);
    DecodeLead(Nav(EditTree(es, doc), key).value);
    DecodeEncode(v);
    DecodeKeepsPlain(v);
  }

  // Where both find text of the source, they read the same exactly when the text
  // that deleted children leave to join the leading text adds nothing to it.
  lemma SourceTextAgrees(doc: Items, es: seq<Edit>, key: string)
    requires SourceDoc(doc) && ValidEdits(Ser(doc), es) && DomainEdits(es)
    requires Rooted(key) && !Has(key, '>')
    requires Found(Written(Ser(doc), es), [], key) && Found(Ser(doc), es, key)
    requires Lookup(Ser(doc), es, key).value.DocSpan?
    ensures Nav(doc, key).Some?
    ensures
      var w := Written(Ser(doc), es);
      var lazy, written := Lookup(Ser(doc), es, key).value, Lookup(w, [], key).value;
      var lead, joined := Lead(Nav(doc, key).value), JoinedLead(doc, es, key);
      && (Closed(lead) ==> TextAt(Ser(doc), lazy) == Decode(lead))
      && (Closed(joined) ==> TextAt(w, written) == Decode(joined))
  {
    hide Nav, EditTree, FindNoEdit, Written, SourceDoc, ValidEdits, Decode, Lead, Closed, LeadWithout;
    SourceDocValid(doc);
    EditsCorrespond(Ser(doc), doc, es, key);
    WrittenLookup(doc, es, key);
    var c0, c := Nav(doc, key).value, Nav(EditTree(es, doc), key).value;
    if Closed(Lead(c0)) {
      DecodeLead(c0);
    }
    assert {} + DeletedOf(es, key) == DeletedOf(es, key);
    assert LeadWithout({}, c) == LeadWithout({} + DeletedOf(es, key), c0);
    LeadWithoutNone(c);
    if Closed(Lead(c)) {
      DecodeLead(c);
    }
  }

  // So they do for every element with no text after its children, as when only
  // leaves have text; and for every element that has lost no child.
  lemma TextAgrees(doc: Items, es: seq<Edit>, key: string)
    requires SourceDoc(doc) && ValidEdits(Ser(doc), es) && DomainEdits(es)
    requires Rooted(key) && !Has(key, '>')
    requires Found(Written(Ser(doc), es), [], key) && Found(Ser(doc), es, key)
    requires Lookup(Ser(doc), es, key).value.DocSpan? && Nav(doc, key).Some?
    requires Closed(Lead(Nav(doc, key).value))
    requires TextFirst(Nav(doc, key).value) || DeletedOf(es, key) == {}
    ensures TextAt(Ser(doc), Lookup(Ser(doc), es, key).value)
         == TextAt(Written(Ser(doc), es), Lookup(Written(Ser(doc), es), [], key).value)
  {
    hide Nav, EditTree, FindNoEdit, Written, SourceDoc, ValidEdits, Decode, Lead, Closed, LeadWithout, Lookup;
    SourceTextAgrees(doc, es, key);
    LeadWithoutNone(Nav(doc, key).value);
    LeadWithoutText(DeletedOf(es, key), Nav(doc, key).value);
  }

  lemma EncodedClosedWhole(v: string)
    ensures Closed(Encode(v))
  {
    AtSelf(Encode(v), 0, |Encode(v)|);
    assert Encode(v)[0..|Encode(v)|] == Encode(v);
    EncodedClosed(v, Encode(v), 0);
  }

  // A document with text after a child, and the deletion of that child.
  const STRAY_KIDS := El("b", Nil, Txt(Raw("x"), Nil))
  const STRAY_DOC := Txt(Raw(""), El("a", STRAY_KIDS, Nil))
  const STRAY_EDITS := [Edit(EditDelete, "a.b", "")]

  // There the text does join, and the two readings differ.
  lemma StrayTextJoins()
    ensures SourceDoc(STRAY_DOC) && ValidEdits(Ser(STRAY_DOC), STRAY_EDITS) && DomainEdits(STRAY_EDITS)
    ensures
      var text, w := Ser(STRAY_DOC), Written(Ser(STRAY_DOC), STRAY_EDITS);
      && Found(text, STRAY_EDITS, "a") && Found(w, [], "a")
      && TextAt(text, Lookup(text, STRAY_EDITS, "a").value) == ""
      && TextAt(w, Lookup(w, [], "a").value) == "x"
  {
    hide Written, Ser, FindNoEdit, Lookup, ValidItems;
    StrayFound();
    FoundAgrees(STRAY_DOC, STRAY_EDITS, "a");
    StrayLead();
    SourceTextAgrees(STRAY_DOC, STRAY_EDITS, "a");
  }

  lemma StrayNav()
    ensures SourceDoc(STRAY_DOC)
    ensures Nav(STRAY_DOC, "a") == Some(STRAY_KIDS) && Nav(STRAY_DOC, "a.b") == Some(Nil)
  {
    assert LastDot("a.b") == 1 && "a.b"[..1] == "a" && "a.b"[2..] == "b";
    assert Child(STRAY_DOC, "a") == Some(STRAY_KIDS);
  }

  lemma StrayFound()
    ensures SourceDoc(STRAY_DOC) && ValidEdits(Ser(STRAY_DOC), STRAY_EDITS) && DomainEdits(STRAY_EDITS)
    ensures Lookup(Ser(STRAY_DOC), STRAY_EDITS, "a").Some?
    ensures Lookup(Ser(STRAY_DOC), STRAY_EDITS, "a").value.DocSpan?
    ensures !LiveRoot(STRAY_EDITS, RootOf("a"))
  {
    hide FindNoEdit, Ser, Nav, ValidItems;
    StrayNav();
    SourceDocValid(STRAY_DOC);
    FindRefinesNav(Ser(STRAY_DOC), STRAY_DOC, "a.b");
    FindRefinesNav(Ser(STRAY_DOC), STRAY_DOC, "a");
    assert STRAY_EDITS[1..] == [];
    var e := STRAY_EDITS[0];
    assert e.key == "a.b" && "a"[..1] == "a";
    assert Found(Ser(STRAY_DOC), [], e.key);
    assert EditOk(Ser(STRAY_DOC), [], e);
    assert ValidEdits(Ser(STRAY_DOC), STRAY_EDITS);
    assert !SelfOrChild("a", "a.b");
    assert FindOver(Ser(STRAY_DOC), STRAY_EDITS, "a", false) == FindOver(Ser(STRAY_DOC), [], "a", false);
  }

  lemma StrayLead()
    ensures Nav(STRAY_DOC, "a") == Some(STRAY_KIDS)
    ensures Closed(Lead(STRAY_KIDS)) && Decode(Lead(STRAY_KIDS)) == ""
    ensures
      var joined := JoinedLead(STRAY_DOC, STRAY_EDITS, "a");
      Closed(joined) && Decode(joined) == "x"
  {
    StrayNav();
    assert STRAY_EDITS[1..] == [];
    assert LastDot("a.b") == 1 && "a.b"[..1] == "a" && "a.b"[2..] == "b";
    assert DeletedOf(STRAY_EDITS, "a") == {"b"};
    assert LeadWithout({"b"}, Txt(Raw("x"), Nil)) == "x" + "";
    assert Decode("x") == "x" + DecodeFrom("x", 1);
  }
}
