// The keys that mxml_keys lists are in the order in which mxml_write emits them: each
// one's content stands in the written text after that of the one before.
module KeyOrder {
  import opened Chars
  import opened KeyPath
  import opened Cursors
  import opened DocFind
  import opened MxmlInt
  import opened Find
  import opened Tree
  import opened TreeText
  import opened TreeTokens
  import opened Tokens
  import opened Tokenizer
  import opened Flatten
  import opened EditNav
  import opened Reachable
  import opened ApiReach
  import opened Write
  import opened Agreement
  import opened RunAgreement
  import opened Keys

  // The length of an element's text.
  function Length(tag: string, kids: Items): nat {
    |tag| + 2 + |Ser(kids)| + |tag| + 3
  }

  // Where the content of the first child <tag> begins, for content that begins at i.
  function ChildAt(items: Items, tag: string, i: nat): Option<nat> {
    match items
    case Nil => None
    case Txt(c, rest) => ChildAt(rest, tag, i + |Bytes(c)|)
    case El(t, kids, rest) => if t == tag then Some(i + |t| + 2) else ChildAt(rest, tag, i + Length(t, kids))
  }

  // Where the contents of all elements begin, in document order.
  function Places(items: Items, i: nat): seq<nat>
    decreases items
  {
    match items
    case Nil => []
    case Txt(c, rest) => Places(rest, i + |Bytes(c)|)
    case El(tag, kids, rest) =>
      var a := i + |tag| + 2;
      [a] + Places(kids, a) + Places(rest, i + Length(tag, kids))
  }

  lemma {:induction false} PlacesRise(items: Items, i: nat, key: string)
    ensures |Places(items, i)| == |KeysOf(key, items)|
    ensures forall a :: a in Places(items, i) ==> i < a <= i + |Ser(items)|
    ensures forall m, n :: 0 <= m < n < |Places(items, i)| ==> Places(items, i)[m] < Places(items, i)[n]
    decreases items
  {
    match items {
      case Nil =>
      case Txt(c, rest) => PlacesRise(rest, i + |Bytes(c)|, key);
      case El(tag, kids, rest) =>
        var a, b := i + |tag| + 2, i + Length(tag, kids);
        var ks, rs := Places(kids, a), Places(rest, b);
        PlacesRise(kids, a, Ext(key, tag));
        PlacesRise(rest, b, key);
        ElementLength(items);
        JoinRise(a, ks, rs, b);
    }
  }

  lemma ElementLength(items: Items)
    requires items.El?
    ensures |Ser(items)| == Length(items.tag, items.kids) + |Ser(items.rest)|
  {
  }

  lemma JoinRise(a: nat, ks: seq<nat>, rs: seq<nat>, b: nat)
    requires forall x :: x in ks ==> a < x <= b
    requires forall x :: x in rs ==> b < x
    requires a < b
    requires forall m, n :: 0 <= m < n < |ks| ==> ks[m] < ks[n]
    requires forall m, n :: 0 <= m < n < |rs| ==> rs[m] < rs[n]
    ensures var all := [a] + ks + rs; forall m, n :: 0 <= m < n < |all| ==> all[m] < all[n]
  {
    var all := [a] + ks + rs;
    forall m, n | 0 <= m < n < |all|
      ensures all[m] < all[n]
    {
      assert n <= |ks| ==> all[n] in ks;
      assert m > |ks| ==> all[m] == rs[m - 1 - |ks|];
      assert n > |ks| ==> all[n] == rs[n - 1 - |ks|] && all[n] in rs;
      assert 0 < m <= |ks| ==> all[m] == ks[m - 1] && all[m] in ks;
      assert 0 < n <= |ks| ==> all[n] == ks[n - 1];
    }
  }

  // The hunt for a child ends at the place of the first of that name.
  lemma {:induction false} ScanAt(text: string, i: nat, end: nat, items: Items, q: string)
    requires end <= |text| && At(text, i, end, Ser(items)) && i + |Ser(items)| == end
    requires ValidItems(items) && !Has(q, '>') && Child(items, q).Some?
    ensures ChildAt(items, q, i).Some?
    ensures
      var a := ChildAt(items, q, i).value;
      FindChild(text, i, end, q) == Some(Span(a, a + |Ser(Child(items, q).value)|))
    decreases items
  {
    hide At, PastContent, OpenTag, CloseTag, ScanChildren, ToClose, Ser;
    match items {
      case Txt(chunk, rest) =>
        AtText(text, i, end, items);
        ScanAt(text, i + |Bytes(chunk)|, end, rest, q);
      case El(tag, kids, rest) =>
        AtElement(text, i, end, items);
        if q == tag {
          FoundAt(text, i, end, items);
        } else {
          ElementLength(items);
          ScanNext(text, i, end, items, q);
          ScanAt(text, i + Length(tag, kids), end, rest, q);
        }
    }
  }

  lemma FoundAt(text: string, i: nat, end: nat, items: Items)
    requires end <= |text| && items.El? && At(text, i, end, Ser(items)) && ValidItems(items)
    ensures i <= end
    ensures
      var a := i + |items.tag| + 2;
      FindChild(text, i, end, items.tag) == Some(Span(a, a + |Ser(items.kids)|))
  {
    hide At, PastContent, NextCh, OpenTag, CloseTag, OpensNamed, PastName, ToClose, Ser, PastShared, AfterElement,
         QuietFrom;
    var tag, a := items.tag, i + |items.tag| + 2;
    assert ValidTag(tag) && ValidItems(items.kids);
    AtElement(text, i, end, items);
    AtOpenTag(text, i, end, tag);
    OpensNamedIs(text, i, end, tag, tag);
    ToCloseStopsAtOwnTag(text, a, end, items.kids, tag);
  }

  // The content of the element with the given key is all, and stands at i.
  ghost predicate StandsAt(text: string, key: string, all: Items, i: nat) {
    && At(text, i, |text|, Ser(all)) && i + |Ser(all)| <= |text|
    && if key == "" then i == 0 && |Ser(all)| == |text|
       else FindNoEdit(text, key) == Some(Span(i, i + |Ser(all)|))
  }

  // Elements of items, which stand at i, are found where all is, which stands at i0.
  ghost predicate FirstPlaces(all: Items, i0: nat, items: Items, i: nat) {
    forall tag :: Child(items, tag).Some? ==>
      Child(all, tag) == Child(items, tag) && ChildAt(all, tag, i0) == ChildAt(items, tag, i)
  }

  lemma ChildFoundAt(text: string, key: string, all: Items, i: nat, tag: string)
    requires StandsAt(text, key, all, i) && ValidItems(all) && Child(all, tag).Some? && ValidTag(tag)
    ensures ChildAt(all, tag, i).Some?
    ensures var a := ChildAt(all, tag, i).value;
      FindNoEdit(text, Ext(key, tag)) == Some(Span(a, a + |Ser(Child(all, tag).value)|))
  {
    hide Ser, ValidItems, Child, ChildAt, FindChild, LastDot, At;
    NoDot(tag);
    ExtInverse(key, tag);
    AtPart(text, i, Ser(all));
    ScanAt(text, i, i + |Ser(all)|, all, tag);
    ExtDot(key, tag);
  }

  lemma AtPart(text: string, i: nat, s: string)
    requires At(text, i, |text|, s)
    ensures i + |s| <= |text| && At(text, i, i + |s|, s)
  {
  }

  lemma ExtDot(key: string, tag: string)
    requires !Has(tag, '.')
    ensures var k := Ext(key, tag);
      if key == "" then LastDot(k) < 0 && k == tag
      else LastDot(k) == |key| && k[..|key|] == key && k[|key| + 1..] == tag
  {
    var k := Ext(key, tag);
    if key != "" {
      assert k[|key|] == '.';
    }
  }

  lemma {:induction false} PlacesFound(text: string, key: string, all: Items, i0: nat, items: Items, i: nat, n: nat)
    requires StandsAt(text, key, all, i0) && ValidItems(all) && ValidItems(items) && UniqueTags(items)
    requires At(text, i, |text|, Ser(items)) && FirstPlaces(all, i0, items, i)
    requires n < |KeysOf(key, items)|
    ensures |Places(items, i)| == |KeysOf(key, items)|
    ensures
      var r := FindNoEdit(text, KeysOf(key, items)[n]);
      r.Some? && r.value.start == Places(items, i)[n]
    decreases items
  {
    hide At, FindNoEdit, StandsAt, FirstPlaces, Ser, Ext, ValidTag, Length, Child, KeysOf, Places, ValidItems,
         UniqueTags;
    PlacesRise(items, i, key);
    PartsOf(key, items, i);
    match items {
      case Nil =>
      case Txt(c, rest) =>
        AtText(text, i, |text|, items);
        FirstText(all, i0, items, i);
        PlacesFound(text, key, all, i0, rest, i + |Bytes(c)|, n);
      case El(tag, kids, rest) =>
        ElementPlaces(text, key, all, i0, items, i);
        var k, a, b := Ext(key, tag), i + |tag| + 2, i + Length(tag, kids);
        PlacesRise(kids, a, k);
        ElementNth(key, items, i, n);
        if n == 0 {
        } else if n <= |KeysOf(k, kids)| {
          PlacesFound(text, k, kids, a, kids, a, n - 1);
        } else {
          PlacesFound(text, key, all, i0, rest, b, n - 1 - |KeysOf(k, kids)|);
        }
    }
  }

  lemma PartsOf(key: string, items: Items, i: nat)
    requires ValidItems(items) && UniqueTags(items)
    ensures items.Nil? ==> KeysOf(key, items) == []
    ensures items.Txt? ==>
      && ValidItems(items.rest) && UniqueTags(items.rest) && Quiet(Bytes(items.chunk))
      && KeysOf(key, items) == KeysOf(key, items.rest)
      && Places(items, i) == Places(items.rest, i + |Bytes(items.chunk)|)
    ensures items.El? ==>
      && ValidItems(items.kids) && UniqueTags(items.kids) && ValidItems(items.rest) && UniqueTags(items.rest)
  {
    hide Bytes, Quiet, ValidTag;
  }

  // The n-th of an element's keys and places.
  lemma ElementNth(key: string, items: Items, i: nat, n: nat)
    requires items.El? && n < |KeysOf(key, items)| == |Places(items, i)|
    requires |KeysOf(Ext(key, items.tag), items.kids)| == |Places(items.kids, i + |items.tag| + 2)|
    ensures
      var k, a, b := Ext(key, items.tag), i + |items.tag| + 2, i + Length(items.tag, items.kids);
      var ks := KeysOf(k, items.kids);
      if n == 0 then KeysOf(key, items)[n] == k && Places(items, i)[n] == a
      else if n <= |ks| then KeysOf(key, items)[n] == ks[n - 1] && Places(items, i)[n] == Places(items.kids, a)[n - 1]
      else
        && n - 1 - |ks| < |KeysOf(key, items.rest)| && n - 1 - |ks| < |Places(items.rest, b)|
        && KeysOf(key, items)[n] == KeysOf(key, items.rest)[n - 1 - |ks|]
        && Places(items, i)[n] == Places(items.rest, b)[n - 1 - |ks|]
  {
    hide Ext, Length;
  }

  lemma FirstText(all: Items, i0: nat, items: Items, i: nat)
    requires items.Txt? && FirstPlaces(all, i0, items, i)
    ensures FirstPlaces(all, i0, items.rest, i + |Bytes(items.chunk)|)
  {
    hide Bytes;
    forall tag | Child(items.rest, tag).Some?
      ensures Child(all, tag) == Child(items.rest, tag)
      ensures ChildAt(all, tag, i0) == ChildAt(items.rest, tag, i + |Bytes(items.chunk)|)
    {
      assert Child(items, tag) == Child(items.rest, tag);
    }
  }

  // The element at i, its content, and what follows it.
  lemma ElementPlaces(text: string, key: string, all: Items, i0: nat, items: Items, i: nat)
    requires items.El? && StandsAt(text, key, all, i0) && ValidItems(all) && ValidItems(items) && UniqueTags(items)
    requires At(text, i, |text|, Ser(items)) && FirstPlaces(all, i0, items, i)
    ensures
      var k, a, b := Ext(key, items.tag), i + |items.tag| + 2, i + Length(items.tag, items.kids);
      && FindNoEdit(text, k).Some? && FindNoEdit(text, k).value.start == a
      && At(text, a, |text|, Ser(items.kids)) && At(text, b, |text|, Ser(items.rest))
      && StandsAt(text, k, items.kids, a) && FirstPlaces(items.kids, a, items.kids, a)
      && FirstPlaces(all, i0, items.rest, b)
  {
    hide At, Ser, FindNoEdit, ValidItems, FirstPlaces, StandsAt, UniqueTags, Child, ChildAt, Ext, ValidTag;
    AtElement(text, i, |text|, items);
    ValidHead(items);
    HeadPlace(all, i0, items, i);
    ChildFoundAt(text, key, all, i0, items.tag);
    ExtNamed(key, items.tag);
    KidsStand(text, Ext(key, items.tag), items.kids, i + |items.tag| + 2);
    RestPlaces(all, i0, items, i);
  }

  lemma ExtNamed(key: string, tag: string)
    requires ValidTag(tag)
    ensures Ext(key, tag) != ""
  {
  }

  lemma HeadPlace(all: Items, i0: nat, items: Items, i: nat)
    requires items.El? && FirstPlaces(all, i0, items, i)
    ensures Child(all, items.tag) == Some(items.kids) && ChildAt(all, items.tag, i0) == Some(i + |items.tag| + 2)
  {
    assert Child(items, items.tag) == Some(items.kids);
  }

  lemma KidsStand(text: string, k: string, kids: Items, a: nat)
    requires At(text, a, |text|, Ser(kids)) && k != "" && FindNoEdit(text, k) == Some(Span(a, a + |Ser(kids)|))
    ensures StandsAt(text, k, kids, a) && FirstPlaces(kids, a, kids, a)
  {
    hide At, Ser, FindNoEdit, Child, ChildAt;
    AtPart(text, a, Ser(kids));
  }

  lemma RestPlaces(all: Items, i0: nat, items: Items, i: nat)
    requires items.El? && FirstPlaces(all, i0, items, i) && UniqueTags(items)
    ensures FirstPlaces(all, i0, items.rest, i + Length(items.tag, items.kids))
  {
    hide Length;
    forall t | Child(items.rest, t).Some?
      ensures Child(all, t) == Child(items.rest, t)
      ensures ChildAt(all, t, i0) == ChildAt(items.rest, t, i + Length(items.tag, items.kids))
    {
      assert t != items.tag && Child(items, t) == Child(items.rest, t);
    }
  }

  lemma ValidHead(items: Items)
    requires ValidItems(items) && items.El?
    ensures ValidTag(items.tag) && ValidItems(items.kids) && ValidItems(items.rest)
  {
  }

  // For every source document, every run of the editor, and any two of the keys listed:
  // in the text written, the content of the earlier begins before that of the later.
  lemma RunKeysInOrder(doc: Items, calls: seq<Call>, m: nat, n: nat)
    requires SourceDoc(doc) && UniqueTags(doc) && forall c :: c in calls ==> CleanKey(c.key)
    requires
      var keys := KeysAnswer(Ser(doc), Run(Ser(doc), calls));
      keys.Some? && m < n < |keys.value|
    ensures
      var es := Run(Ser(doc), calls);
      var keys, w := KeysAnswer(Ser(doc), es).value, WriteAnswer(Ser(doc), es);
      && w.Some?
      && var a, b := FindNoEdit(w.value, keys[m]), FindNoEdit(w.value, keys[n]);
         a.Some? && b.Some? && a.value.start < b.value.start
  {
    hide Run, Lookup, ValidEdits, SourceDoc, CleanEdits, CleanKey, TagsFit, Source, KeysOf, Distinct, UniqueTags,
         EditTree, FindNoEdit, Places, DomainEdits, ValidItems, Ser, OpenKeys, ApplyAll, Written;
    var es := Run(Ser(doc), calls);
    var tree := EditTree(es, doc);
    RunClean(Ser(doc), calls);
    CleanEditsDomain(es);
    KeysAreFound(doc, es, "a");
    SourceOfTree(doc);
    SourceDocValid(doc);
    DomainNamed(es);
    WrittenIsTree(doc, es);
    EditTreeValid(es, doc);
    EditTreeUnique(doc, es);
    TreePlaces(tree, m);
    TreePlaces(tree, n);
    PlacesRise(tree, 0, "");
  }

  lemma TreePlaces(tree: Items, n: nat)
    requires ValidItems(tree) && UniqueTags(tree) && n < |KeysOf("", tree)|
    ensures |Places(tree, 0)| == |KeysOf("", tree)|
    ensures
      var r := FindNoEdit(Ser(tree), KeysOf("", tree)[n]);
      r.Some? && r.value.start == Places(tree, 0)[n]
  {
    hide ValidItems, UniqueTags, KeysOf, Places, FindNoEdit;
    var text := Ser(tree);
    AtSelf(text, 0, |text|);
    assert text[0..|text|] == text;
    PlacesFound(text, "", tree, 0, tree, 0, n);
  }
}
