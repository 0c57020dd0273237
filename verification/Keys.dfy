// The ordered list of keys (mxml_keys.c).
module Keys {
  import opened Chars
  import opened KeyPath
  import opened DocFind
  import opened MxmlInt
  import opened Find
  import opened Tree
  import opened TreeTokens
  import opened Tokens
  import opened Tokenizer
  import opened Flatten
  import opened EditNav
  import opened Reachable
  import opened ApiReach
  import opened Write
  import opened Agreement
  import opened RunAgreement

  // The keys of the OPEN tokens, in order.
  function OpenKeys(ts: seq<Token>): seq<string> {
    if ts == [] then []
    else (if ts[0].kind == TokOpen then [ts[0].key] else []) + OpenKeys(ts[1..])
  }

  // The keys of the elements in the content of an element, in document order.
  function KeysOf(key: string, items: Items): seq<string>
    decreases items
  {
    match items
    case Nil => []
    case Txt(_, rest) => KeysOf(key, rest)
    case El(tag, kids, rest) => [Ext(key, tag)] + KeysOf(Ext(key, tag), kids) + KeysOf(key, rest)
  }

  // What mxml_keys gives; None when it fails.
  function KeysAnswer(text: string, es: seq<Edit>): Option<seq<string>> {
    if TagsFit(es) && SourceOf(text).ok then Some(OpenKeys(ApplyAll(es, SourceOf(text).toks))) else None
  }

  // mxml_keys
  method MxmlKeys(m: Mxml) returns (ok: bool, keys: seq<string>)
    requires forall e :: e in m.edits ==> e.key != ""
    ensures ok == (TagsFit(m.edits) && SourceOf(m.text).ok)
    ensures (if ok then Some(keys) else None) == KeysAnswer(m.text, m.edits)
  {
    hide ApplyAll, Source, TagsFit, FirstRefused, Answers;
    var ret, tokens := FlattenEdits(m, NoFailure());
    AlwaysZero(ApplyAll(m.edits, SourceOf(m.text).toks), 0);
    ok := ret != -1;
    keys := [];
    for i := 0 to |tokens|
      invariant keys == OpenKeys(tokens[..i])
    {
      OpenKeysConcat(tokens[..i], [tokens[i]]);
      assert tokens[..i + 1] == tokens[..i] + [tokens[i]];
      if tokens[i].kind == TokOpen {
        keys := keys + [tokens[i].key];
      }
    }
    assert tokens[..|tokens|] == tokens;
  }

  // keys_token has nothing to fail for.
  function NoFailure(): Callback {
    (_: seq<Token>) => 0
  }

  lemma {:induction false} AlwaysZero(ts: seq<Token>, i: nat)
    requires i <= |ts|
    ensures FirstRefused(NoFailure(), ts, i) == |ts| && Answers(NoFailure(), ts) == 0
    decreases |ts| - i
  {
    if i == |ts| {
      ZeroSum(ts);
    } else {
      AlwaysZero(ts, i + 1);
    }
  }

  lemma {:induction false} ZeroSum(ts: seq<Token>)
    ensures Answers(NoFailure(), ts) == 0
  {
    if ts == [] {
    } else {
      ZeroSum(ts[..|ts| - 1]);
    }
  }

  lemma {:induction false} OpenKeysConcat(a: seq<Token>, b: seq<Token>)
    ensures OpenKeys(a + b) == OpenKeys(a) + OpenKeys(b)
  {
    if a == [] {
      assert a + b == b;
    } else {
      assert (a + b)[0] == a[0] && (a + b)[1..] == a[1..] + b;
      OpenKeysConcat(a[1..], b);
    }
  }

  lemma {:induction false} OpenKeysOfTree(key: string, items: Items)
    ensures OpenKeys(TokensOf(key, items)) == KeysOf(key, items)
    decreases items
  {
    match items {
      case Nil =>
      case Txt(c, rest) =>
        OpenKeysConcat([ValueToken(key, c)], TokensOf(key, rest));
        OpenKeysOfTree(key, rest);
      case El(tag, kids, rest) =>
        var k := Ext(key, tag);
        var o, c := [OpenToken(k, tag)], [CloseToken(k, tag)];
        OpenKeysConcat(o + TokensOf(k, kids) + c, TokensOf(key, rest));
        OpenKeysConcat(o + TokensOf(k, kids), c);
        OpenKeysConcat(o, TokensOf(k, kids));
        OpenKeysOfTree(k, kids);
        OpenKeysOfTree(key, rest);
    }
  }

  // Sibling elements have different tags, at every level.
  predicate UniqueTags(items: Items) {
    match items
    case Nil => true
    case Txt(_, rest) => UniqueTags(rest)
    case El(tag, kids, rest) => Child(rest, tag).None? && UniqueTags(kids) && UniqueTags(rest)
  }

  // Elements of items are found where all is: the first with their tags there.
  ghost predicate FirstOfAll(all: Items, items: Items) {
    forall tag :: Child(items, tag).Some? ==> Child(all, tag) == Child(items, tag)
  }

  lemma {:induction false} KeysAreReached(doc: Items, key: string, all: Items, items: Items, q: string)
    requires ValidItems(items) && UniqueTags(items) && ContentAt(doc, key) == Some(all) && FirstOfAll(all, items)
    requires q in KeysOf(key, items)
    ensures Nav(doc, q).Some?
    decreases items
  {
    hide Nav, ContentAt;
    match items {
      case Txt(_, rest) =>
        assert forall tag :: Child(rest, tag) == Child(items, tag);
        KeysAreReached(doc, key, all, rest, q);
      case El(tag, kids, rest) =>
        var k := Ext(key, tag);
        NavExt(doc, key, tag);
        assert Child(items, tag) == Some(kids);
        NamedKey(key, tag);
        ContentAtKey(doc, k);
        if q in KeysOf(k, kids) {
          KeysAreReached(doc, k, kids, kids, q);
        } else if q in KeysOf(key, rest) {
          assert forall t :: Child(rest, t).Some? ==> Child(rest, t) == Child(items, t);
          KeysAreReached(doc, key, all, rest, q);
        }
    }
  }

  lemma NamedKey(key: string, tag: string)
    requires tag != ""
    ensures Ext(key, tag) != ""
  {
  }

  lemma ContentAtKey(doc: Items, key: string)
    requires key != ""
    ensures ContentAt(doc, key) == Nav(doc, key)
  {
  }

  lemma {:induction false} ChildKeys(key: string, items: Items, tag: string, q: string)
    requires Child(items, tag).Some?
    ensures Ext(key, tag) in KeysOf(key, items)
    ensures q in KeysOf(Ext(key, tag), Child(items, tag).value) ==> q in KeysOf(key, items)
  {
    match items {
      case Txt(_, rest) => ChildKeys(key, rest, tag, q);
      case El(t, _, rest) => if t != tag { ChildKeys(key, rest, tag, q); }
    }
  }

  lemma {:induction false} ReachedAreKeys(doc: Items, p: string, q: string)
    requires ValidItems(doc) && Rooted(p) && Nav(doc, p).Some?
    ensures p in KeysOf("", doc)
    ensures q in KeysOf(p, Nav(doc, p).value) ==> q in KeysOf("", doc)
    decreases |p|
  {
    var d := LastDot(p);
    if d < 0 {
      ChildKeys("", doc, p, q);
    } else {
      RootedParent(p);
      ParentExt(p);
      var pp, tag := ParentKey(p), LastTag(p);
      var kids := Nav(doc, pp).value;
      ChildKeys(pp, kids, tag, q);
      ReachedAreKeys(doc, pp, q);
      ReachedAreKeys(doc, pp, p);
    }
  }

  // The listed keys are those that can be reached.
  lemma ListedIsReached(doc: Items, q: string)
    requires ValidItems(doc) && UniqueTags(doc) && Rooted(q)
    ensures q in KeysOf("", doc) <==> Nav(doc, q).Some?
  {
    if q in KeysOf("", doc) {
      KeysAreReached(doc, "", doc, doc, q);
    }
    if Nav(doc, q).Some? {
      ReachedAreKeys(doc, q, q);
    }
  }

  predicate Distinct(s: seq<string>) {
    forall i, j :: 0 <= i < j < |s| ==> s[i] != s[j]
  }

  lemma DistinctConcat(a: seq<string>, b: seq<string>)
    requires Distinct(a) && Distinct(b) && forall x :: x in a ==> x !in b
    ensures Distinct(a + b)
  {
    var s := a + b;
    forall i, j | 0 <= i < j < |s|
      ensures s[i] != s[j]
    {
      if i < |a| <= j {
        assert s[i] == a[i] && a[i] in a && s[j] == b[j - |a|];
      }
    }
  }

  // A listed key lies in one of the children.
  lemma {:induction false} ListedUnder(key: string, items: Items, q: string) returns (tag: string)
    requires ValidItems(items) && q in KeysOf(key, items)
    ensures ValidTag(tag) && Child(items, tag).Some? && SelfOrChild(q, Ext(key, tag))
    decreases items
  {
    hide ValidTag;
    match items {
      case Txt(_, rest) => tag := ListedUnder(key, rest, q);
      case El(t, kids, rest) =>
        var k := Ext(key, t);
        if q == k {
          tag := t;
        } else if q in KeysOf(k, kids) {
          var below := ListedUnder(k, kids, q);
          DeeperKey(q, key, t, below);
          tag := t;
        } else {
          tag := ListedUnder(key, rest, q);
        }
    }
  }

  lemma DeeperKey(q: string, key: string, tag: string, below: string)
    requires ValidTag(tag) && SelfOrChild(q, Ext(Ext(key, tag), below))
    ensures SelfOrChild(q, Ext(key, tag)) && |q| > |Ext(key, tag)|
  {
    var k := Ext(key, tag);
    var kb := Ext(k, below);
    NamedKey(key, tag);
    assert kb == k + "." + below;
    assert kb[|k|] == '.' && kb[..|k|] == k;
    assert q[..|kb|] == kb;
    assert q[|k|] == kb[|k|] && q[..|k|] == kb[..|k|];
  }

  // A key lies in no two children.
  lemma OneChildOnly(q: string, key: string, a: string, b: string)
    requires !Has(a, '.') && !Has(b, '.') && SelfOrChild(q, Ext(key, a)) && SelfOrChild(q, Ext(key, b))
    ensures a == b
  {
    if |a| < |b| {
      ShorterTag(q, key, a, b);
    } else if |b| < |a| {
      ShorterTag(q, key, b, a);
    } else {
      var n := |Ext(key, a)| - |a|;
      assert Ext(key, a) == Ext(key, b);
      assert a == Ext(key, a)[n..] && b == Ext(key, b)[n..];
    }
  }

  lemma ShorterTag(q: string, key: string, a: string, b: string)
    requires |a| < |b| && SelfOrChild(q, Ext(key, a)) && SelfOrChild(q, Ext(key, b))
    ensures Has(b, '.')
  {
    var ka, kb := Ext(key, a), Ext(key, b);
    assert q[|ka|] == '.' && kb[|ka|] == q[|ka|];
    assert b[|a|] == kb[|ka|];
  }

  // No key is listed twice.
  lemma {:induction false} KeysDistinct(key: string, items: Items)
    requires ValidItems(items) && UniqueTags(items)
    ensures Distinct(KeysOf(key, items))
    decreases items
  {
    hide Distinct, ValidTag, Ext, SelfOrChild;
    match items {
      case Nil => NoneDistinct();
      case Txt(_, rest) => KeysDistinct(key, rest);
      case El(tag, kids, rest) =>
        var k := Ext(key, tag);
        KeysDistinct(k, kids);
        KeysDistinct(key, rest);
        forall q | q in KeysOf(k, kids)
          ensures q != k && q !in KeysOf(key, rest)
        {
          var below := ListedUnder(k, kids, q);
          DeeperKey(q, key, tag, below);
          NotInRest(key, items, q);
        }
        SelfListed(k);
        NotInRest(key, items, k);
        OneDistinct(k);
        DistinctConcat([k], KeysOf(k, kids));
        DistinctConcat([k] + KeysOf(k, kids), KeysOf(key, rest));
    }
  }

  lemma NoneDistinct()
    ensures Distinct([])
  {
  }

  lemma OneDistinct(k: string)
    ensures Distinct([k])
  {
  }

  lemma SelfListed(k: string)
    ensures SelfOrChild(k, k)
  {
  }

  lemma NotInRest(key: string, items: Items, q: string)
    requires items.El? && ValidItems(items) && UniqueTags(items) && SelfOrChild(q, Ext(key, items.tag))
    ensures q !in KeysOf(key, items.rest)
  {
    hide Ext, SelfOrChild;
    if q in KeysOf(key, items.rest) {
      var tag := ListedUnder(key, items.rest, q);
      OneChildOnly(q, key, tag, items.tag);
      assert false;
    }
  }

  lemma {:induction false} UniqueConcat(a: Items, e: Edit)
    requires UniqueTags(a) && Child(a, LastTag(e.key)).None?
    ensures UniqueTags(Concat(a, Appended(e)))
  {
    hide LastTag;
    match a {
      case Nil =>
        assert UniqueTags(Txt(User(e.value), Nil));
      case Txt(_, rest) => UniqueConcat(rest, e);
      case El(tag, _, rest) =>
        UniqueConcat(rest, e);
        ChildConcat(rest, Appended(e), tag);
    }
  }

  // An edit keeps siblings apart when what it appends is not there yet.
  lemma {:induction false} EditUnique(e: Edit, key: string, items: Items)
    requires UniqueTags(items) && ValidItems(items) && (e.op == EditAppend ==> e.key !in KeysOf(key, items))
    ensures UniqueTags(EditItems(e, key, items))
    decreases items
  {
    hide LastTag, ParentKey, Ext;
    match items {
      case Nil =>
      case Txt(_, rest) => EditUnique(e, key, rest);
      case El(tag, kids, rest) =>
        var k := Ext(key, tag);
        EditUnique(e, k, kids);
        EditUnique(e, key, rest);
        ChildOfEdited(e, key, rest, tag);
        NamedKey(key, tag);
        ContentUnique(e, k, kids);
    }
  }

  lemma ContentUnique(e: Edit, k: string, kids: Items)
    requires k != "" && UniqueTags(EditItems(e, k, kids))
    requires e.op == EditAppend ==> e.key !in KeysOf(k, kids)
    ensures UniqueTags(EditContent(e, k, EditItems(e, k, kids)))
  {
    if e.op == EditAppend && ParentKey(e.key) == k {
      ParentExt(e.key);
      ChildOfEdited(e, k, kids, LastTag(e.key));
      if Child(kids, LastTag(e.key)).Some? {
        ChildKeys(k, kids, LastTag(e.key), e.key);
      }
      UniqueConcat(EditItems(e, k, kids), e);
    }
  }

  lemma {:induction false} EditTreeUnique(doc: Items, es: seq<Edit>)
    requires SourceDoc(doc) && UniqueTags(doc) && ValidEdits(Ser(doc), es) && DomainEdits(es)
    ensures UniqueTags(EditTree(es, doc))
  {
    hide UniqueTags, SourceDoc, Lookup, Nav, EditItems;
    if es == [] {
    } else {
      var e := es[0];
      var tree := EditTree(es[1..], doc);
      assert DomainEdit(e);
      EditTreeUnique(doc, es[1..]);
      SourceDocValid(doc);
      EditTreeValid(es[1..], doc);
      if e.op == EditAppend {
        EditsCorrespond(Ser(doc), doc, es[1..], e.key);
        ListedIsReached(tree, e.key);
      }
      EditUnique(e, "", tree);
    }
  }

  // The listed keys, as mxml_keys returns them: in the order of the edited tree,
  // none twice, and just those that a lookup finds.
  lemma KeysAreFound(doc: Items, es: seq<Edit>, q: string)
    requires SourceDoc(doc) && UniqueTags(doc) && ValidEdits(Ser(doc), es) && DomainEdits(es)
    requires Rooted(q) && !Has(q, '>')
    ensures
      var keys := OpenKeys(ApplyAll(es, SourceOf(Ser(doc)).toks));
      && keys == KeysOf("", EditTree(es, doc))
      && Distinct(keys)
      && (q in keys <==> Found(Ser(doc), es, q) && !LiveRoot(es, RootOf(q)))
  {
    hide UniqueTags, SourceDoc, Lookup, Nav, EditItems, Distinct, ApplyAll, SourceOf, ValidEdits, KeysOf;
    SourceDocValid(doc);
    DomainNamed(es);
    SourceOfTree(doc);
    ApplyTokensOf(es, doc);
    OpenKeysOfTree("", EditTree(es, doc));
    EditTreeUnique(doc, es);
    EditTreeValid(es, doc);
    KeysDistinct("", EditTree(es, doc));
    ListedIsReached(EditTree(es, doc), q);
    EditsCorrespond(Ser(doc), doc, es, q);
  }

  // So for every run of the editor: mxml_keys fails just when a tag does not fit,
  // and else lists, in document order and once each, the keys that are found.
  lemma RunKeysAreFound(doc: Items, calls: seq<Call>, q: string)
    requires SourceDoc(doc) && UniqueTags(doc) && forall c :: c in calls ==> CleanKey(c.key)
    requires Rooted(q) && !Has(q, '>')
    ensures
      var es := Run(Ser(doc), calls);
      match KeysAnswer(Ser(doc), es)
      case None => !TagsFit(es)
      case Some(keys) =>
        && TagsFit(es) && keys == KeysOf("", EditTree(es, doc)) && Distinct(keys)
        && (q in keys <==> Found(Ser(doc), es, q) && !LiveRoot(es, RootOf(q)))
  {
    hide Run, Lookup, ValidEdits, SourceDoc, CleanEdits, CleanKey, TagsFit, Source, KeysOf, Distinct;
    var es := Run(Ser(doc), calls);
    RunClean(Ser(doc), calls);
    CleanEditsDomain(es);
    KeysAreFound(doc, es, q);
    SourceOfTree(doc);
  }
}
