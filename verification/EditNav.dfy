// How one edit changes what can be reached in a tree, and the text found there.
module EditNav {
  import opened Chars
  import opened KeyPath
  import opened Codec
  import opened MxmlInt
  import opened Tree
  import opened Tokens

  // The content of the element with the given key; the document for no key.
  function ContentAt(doc: Items, key: string): Option<Items> {
    if key == "" then Some(doc) else Nav(doc, key)
  }

  lemma NavExt(doc: Items, key: string, tag: string)
    requires !Has(tag, '.')
    ensures Nav(doc, Ext(key, tag)) ==
      match ContentAt(doc, key)
      case None => None
      case Some(kids) => Child(kids, tag)
  {
    ExtInverse(key, tag);
    var k := Ext(key, tag);
    if key == "" {
      assert LastDot(k) < 0;
    } else {
      assert k[|key|] == '.';
      assert LastDot(k) == |key|;
    }
  }

  // What one edit makes of the whole content of the element with the given key.
  function Edited(e: Edit, key: string, kids: Items): Items {
    EditContent(e, key, EditItems(e, key, kids))
  }

  // The edit removes the element with the given key.
  predicate Removes(e: Edit, key: string) {
    e.op == EditDelete && SelfOrChild(key, e.key)
  }

  lemma {:induction false} ChildConcat(a: Items, b: Items, tag: string)
    ensures Child(Concat(a, b), tag) == if Child(a, tag).Some? then Child(a, tag) else Child(b, tag)
  {
    match a {
      case Nil =>
      case Txt(_, rest) => ChildConcat(rest, b, tag);
      case El(_, _, rest) => ChildConcat(rest, b, tag);
    }
  }

  // First-matching children are edited, or removed, alike.
  lemma {:induction false} ChildOfEdited(e: Edit, key: string, items: Items, tag: string)
    ensures Child(EditItems(e, key, items), tag) ==
      match Child(items, tag)
      case None => None
      case Some(kids) => if Removes(e, Ext(key, tag)) then None else Some(Edited(e, Ext(key, tag), kids))
    decreases items
  {
    match items {
      case Nil =>
      case Txt(_, rest) => ChildOfEdited(e, key, rest, tag);
      case El(_, _, rest) => ChildOfEdited(e, key, rest, tag);
    }
  }

  lemma ChildOfContent(e: Edit, key: string, items: Items, tag: string)
    ensures Child(EditContent(e, key, items), tag) ==
      if Child(items, tag).None? && e.op == EditAppend && ParentKey(e.key) == key && LastTag(e.key) == tag
      then Some(Txt(User(e.value), Nil))
      else Child(items, tag)
  {
    ChildConcat(items, Appended(e), tag);
  }

  // The edit creates the element with the given key.
  predicate Creates(e: Edit, doc: Items, key: string) {
    && e.op == EditAppend && e.key == key && LastDot(key) > 0
    && Nav(doc, ParentKey(key)).Some? && Nav(doc, key).None?
  }

  lemma {:induction false} NavEdited(e: Edit, doc: Items, key: string)
    requires Rooted(key) && Rooted(e.key)
    ensures Nav(EditItems(e, "", doc), key) ==
      match Nav(doc, key)
      case Some(kids) => if Removes(e, key) then None else Some(Edited(e, key, kids))
      case None => if Creates(e, doc, key) then Some(Txt(User(e.value), Nil)) else None
    decreases |key|
  {
    hide Child, EditItems, SelfOrChild, LastDot;
    var d := LastDot(key);
    if d < 0 {
      ChildOfEdited(e, "", doc, key);
    } else {
      RootedParent(key);
      ParentExt(key);
      var p, tag := ParentKey(key), LastTag(key);
      NavEdited(e, doc, p);
      SelfOrChildParent(key, e.key);
      if Nav(doc, p).Some? {
        var kids := Nav(doc, p).value;
        ChildOfEdited(e, p, kids, tag);
        ChildOfContent(e, p, EditItems(e, p, kids), tag);
        SameKey(e.key, key);
      } else if Creates(e, doc, p) {
        NothingBelow(e.key, key);
        NoChildInText(User(e.value), tag);
      }
    }
  }

  lemma NoChildInText(c: Chunk, tag: string)
    ensures Child(Txt(c, Nil), tag) == None
  {
  }

  // Keys with the same parent and last tag are the same.
  lemma SameKey(a: string, b: string)
    requires LastDot(b) > 0 && Rooted(a)
    ensures ParentKey(a) == ParentKey(b) && LastTag(a) == LastTag(b) <==> a == b
  {
    if ParentKey(a) == ParentKey(b) && LastTag(a) == LastTag(b) {
      assert LastDot(a) != 0;
      assert LastDot(a) > 0;
      ParentExt(b);
      ParentExt(a);
    }
  }

  lemma NothingBelow(a: string, b: string)
    requires LastDot(b) > 0 && a == ParentKey(b)
    ensures a != b
  {
    assert |a| < |b|;
  }

  // The text before the first child element.
  function Lead(items: Items): string {
    match items
    case Nil => ""
    case Txt(c, rest) => Bytes(c) + Lead(rest)
    case El(_, _, _) => ""
  }

  predicate NoText(items: Items) {
    match items
    case Nil => true
    case Txt(_, _) => false
    case El(_, _, rest) => NoText(rest)
  }

  // No text after a child element; so it is when only leaves have text.
  predicate TextFirst(items: Items) {
    match items
    case Nil => true
    case Txt(_, rest) => TextFirst(rest)
    case El(_, _, rest) => NoText(rest)
  }

  predicate HasElement(items: Items) {
    match items
    case Nil => false
    case Txt(_, rest) => HasElement(rest)
    case El(_, _, _) => true
  }

  // Without elements it is all text, and comes first.
  lemma {:induction false} OnlyText(gone: set<string>, items: Items)
    requires !HasElement(items)
    ensures Ser(items) == Lead(items) == LeadWithout(gone, items) && TextFirst(items)
  {
    match items {
      case Nil =>
      case Txt(_, rest) => OnlyText(gone, rest);
    }
  }

  lemma {:induction false} ElementChild(items: Items)
    requires ValidItems(items)
    ensures HasElement(items) <==> exists tag :: ValidTag(tag) && Child(items, tag).Some?
  {
    hide ValidTag;
    match items {
      case Nil =>
      case Txt(_, rest) =>
        ElementChild(rest);
        assert forall tag :: Child(items, tag) == Child(rest, tag);
      case El(tag, _, _) => assert Child(items, tag).Some?;
    }
  }

  lemma {:induction false} NoTextLead(items: Items)
    requires NoText(items)
    ensures Lead(items) == "" && TextFirst(items)
  {
  }

  lemma {:induction false} EditNoText(e: Edit, key: string, items: Items)
    requires NoText(items) || (e.op == EditSet && e.key == key)
    ensures NoText(EditItems(e, key, items))
    decreases items
  {
    match items {
      case Nil =>
      case Txt(_, rest) => EditNoText(e, key, rest);
      case El(_, _, rest) => EditNoText(e, key, rest);
    }
  }

  lemma {:induction false} ConcatTextFirst(a: Items, b: Items)
    requires NoText(b) && b.El?
    ensures NoText(a) ==> NoText(Concat(a, b))
    ensures TextFirst(a) ==> TextFirst(Concat(a, b))
    ensures Lead(Concat(a, b)) == Lead(a)
  {
    match a {
      case Nil => NoTextLead(b);
      case Txt(_, rest) => ConcatTextFirst(rest, b);
      case El(_, _, rest) => ConcatTextFirst(rest, b);
    }
  }

  // The text before the first child element whose tag is not in gone.
  function LeadWithout(gone: set<string>, items: Items): string {
    match items
    case Nil => ""
    case Txt(c, rest) => Bytes(c) + LeadWithout(gone, rest)
    case El(tag, _, rest) => if tag in gone then LeadWithout(gone, rest) else ""
  }

  // The children of the element with the given key that the edit deletes.
  function DeletedTags(e: Edit, key: string): set<string> {
    if e.op == EditDelete && ParentKey(e.key) == key then {LastTag(e.key)} else {}
  }

  lemma {:induction false} LeadWithoutNone(items: Items)
    ensures LeadWithout({}, items) == Lead(items)
  {
    match items {
      case Nil =>
      case Txt(_, rest) => LeadWithoutNone(rest);
      case El(_, _, _) =>
    }
  }

  lemma {:induction false} LeadWithoutText(gone: set<string>, items: Items)
    ensures NoText(items) ==> LeadWithout(gone, items) == ""
    ensures TextFirst(items) ==> LeadWithout(gone, items) == Lead(items)
  {
    match items {
      case Nil =>
      case Txt(_, rest) => LeadWithoutText(gone, rest);
      case El(_, _, rest) => LeadWithoutText(gone, rest);
    }
  }

  // Deleting children lets the text after them join the leading text; no other
  // edit but a SET of the element itself changes its leading text.
  lemma {:induction false} EditJoinsLead(e: Edit, key: string, items: Items, gone: set<string>)
    requires Rooted(e.key) && ValidItems(items) && !(e.op == EditSet && e.key == key) && !Removes(e, key)
    ensures LeadWithout(gone, EditItems(e, key, items)) == LeadWithout(gone + DeletedTags(e, key), items)
    decreases items
  {
    hide ParentKey, LastTag, Ext, EditContent;
    match items {
      case Nil =>
      case Txt(_, rest) => EditJoinsLead(e, key, rest, gone);
      case El(tag, _, rest) =>
        EditJoinsLead(e, key, rest, gone);
        DeletesTag(e, key, tag);
    }
  }

  lemma DeletesTag(e: Edit, key: string, tag: string)
    requires Rooted(e.key) && (e.op == EditDelete ==> !SelfOrChild(key, e.key))
    requires ValidTag(tag)
    ensures Removes(e, Ext(key, tag)) <==> tag in DeletedTags(e, key)
  {
    ExtInverse(key, tag);
    if e.op == EditDelete {
      if SelfOrChild(Ext(key, tag), e.key) {
        ExtRemoved(e.key, key, tag);
      }
      if ParentKey(e.key) == key && LastTag(e.key) == tag {
        NamesChild(e.key, key, tag);
      }
    }
  }

  lemma NamesChild(d: string, key: string, tag: string)
    requires ParentKey(d) == key && LastTag(d) == tag && Rooted(d)
    ensures d == Ext(key, tag)
  {
    if LastDot(d) > 0 { ParentExt(d); }
  }

  lemma ExtRemoved(d: string, key: string, tag: string)
    requires SelfOrChild(Ext(key, tag), d) && !SelfOrChild(key, d) && !Has(tag, '.') && d != ""
    ensures d == Ext(key, tag)
  {
    var k := Ext(key, tag);
    if |d| < |k| && key != "" {
      ExtInverse(key, tag);
      assert k[|key|] == '.';
      SelfOrChildParent(k, d);
      assert false;
    }
  }

  lemma {:induction false} ConcatLead(gone: set<string>, a: Items, e: Edit)
    ensures LeadWithout(gone, Concat(a, Appended(e))) == LeadWithout(gone, a)
  {
    hide Encode, LastTag;
    match a {
      case Nil =>
        assert LeadWithout(gone, Nil) == "";
      case Txt(_, rest) => ConcatLead(gone, rest, e);
      case El(_, _, rest) => ConcatLead(gone, rest, e);
    }
  }

  lemma {:induction false} EditedJoinsLead(e: Edit, key: string, kids: Items, gone: set<string>)
    requires Rooted(e.key) && ValidItems(kids) && !(e.op == EditSet && e.key == key) && !Removes(e, key)
    ensures LeadWithout(gone, Edited(e, key, kids)) == LeadWithout(gone + DeletedTags(e, key), kids)
  {
    hide EditItems, ParentKey, LastTag, Concat, LeadWithout;
    EditJoinsLead(e, key, kids, gone);
    ConcatLead(gone, EditItems(e, key, kids), e);
  }

  lemma {:induction false} EditKeepsTextFirst(e: Edit, key: string, items: Items)
    requires TextFirst(items) && !(e.op == EditSet && e.key == key)
    ensures TextFirst(EditItems(e, key, items)) && Lead(EditItems(e, key, items)) == Lead(items)
    decreases items
  {
    match items {
      case Nil =>
      case Txt(_, rest) => EditKeepsTextFirst(e, key, rest);
      case El(_, _, rest) =>
        EditNoText(e, key, rest);
        NoTextLead(EditItems(e, key, rest));
    }
  }

  // Where text comes first, an edit changes it only by setting it.
  lemma {:induction false} EditedTextFirst(e: Edit, key: string, kids: Items)
    ensures e.op == EditSet && e.key == key ==>
      TextFirst(Edited(e, key, kids)) && Lead(Edited(e, key, kids)) == Encode(e.value)
    ensures !(e.op == EditSet && e.key == key) && TextFirst(kids) ==>
      TextFirst(Edited(e, key, kids)) && Lead(Edited(e, key, kids)) == Lead(kids)
  {
    hide EditItems, Encode, ParentKey, LastTag, Concat;
    if e.op == EditSet && e.key == key {
      EditNoText(e, key, kids);
      NoTextLead(EditItems(e, key, kids));
      assert Edited(e, key, kids) == Txt(User(e.value), EditItems(e, key, kids));
      assert Encode(e.value) + "" == Encode(e.value);
    } else if TextFirst(kids) {
      EditKeepsTextFirst(e, key, kids);
      ConcatTextFirst(EditItems(e, key, kids), Appended(e));
    }
  }

  // The serialization is the leading text, then a tag or nothing.
  lemma {:induction false} SerLead(items: Items)
    ensures |Lead(items)| <= |Ser(items)| && Ser(items)[..|Lead(items)|] == Lead(items)
    ensures var r := Ser(items)[|Lead(items)|..]; r == "" || r[0] == '<'
  {
    match items {
      case Nil =>
      case Txt(c, rest) =>
        SerLead(rest);
        var n := |Bytes(c)|;
        assert Ser(items)[..n + |Lead(rest)|] == Bytes(c) + Ser(rest)[..|Lead(rest)|];
        assert Ser(items)[n + |Lead(rest)|..] == Ser(rest)[|Lead(rest)|..];
      case El(tag, kids, rest) =>
        assert Ser(items)[0] == '<';
    }
  }

  // Content decodes as its leading text does.
  lemma DecodeLead(items: Items)
    requires Closed(Lead(items))
    ensures Decode(Ser(items)) == Decode(Lead(items))
  {
    SerLead(items);
    var n := |Lead(items)|;
    assert Ser(items) == Ser(items)[..n] + Ser(items)[n..];
    DecodeClosed(Lead(items), Ser(items)[n..], 0);
  }
}
