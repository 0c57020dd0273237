// Token streams, the token stream of a tree, and the effect of one edit on
// each: the specification the token carrier machine is proved against.
module Tokens {
  import opened Chars
  import opened KeyPath
  import opened MxmlInt
  import opened Tree

  datatype TokenType = TokOpen | TokValue | TokClose | TokEof

  // A token of the element with the given key. A Raw value is written as it
  // stands; a User value (length -1 in the original) is encoded.
  datatype Token = Token(kind: TokenType, key: string, value: Chunk)

  const EofToken := Token(TokEof, "", Raw(""))

  function OpenToken(key: string, tag: string): Token {
    Token(TokOpen, key, Raw(OpenTag(tag)))
  }

  function ValueToken(key: string, chunk: Chunk): Token {
    Token(TokValue, key, chunk)
  }

  function CloseToken(key: string, tag: string): Token {
    Token(TokClose, key, Raw(CloseTag(tag)))
  }

  // The tokens of the content of an element, each carrying its full dotted key.
  function TokensOf(key: string, items: Items): seq<Token>
    decreases items
  {
    match items
    case Nil => []
    case Txt(c, rest) => [ValueToken(key, c)] + TokensOf(key, rest)
    case El(tag, kids, rest) =>
      var k := Ext(key, tag);
      [OpenToken(k, tag)] + TokensOf(k, kids) + [CloseToken(k, tag)] + TokensOf(key, rest)
  }

  // What one edit makes of one token on its way down.
  function EditToken(e: Edit, t: Token): seq<Token> {
    match e.op
    case EditDelete =>
      if SelfOrChild(t.key, e.key) then [] else [t]
    case EditSet =>
      if t.key != e.key then [t]
      else if t.kind == TokOpen then [t, ValueToken(e.key, User(e.value))]
      else if t.kind == TokValue then []
      else [t]
    case EditAppend =>
      if t.kind == TokClose && t.key == ParentKey(e.key) then
        var tag := LastTag(e.key);
        [OpenToken(e.key, tag), ValueToken(e.key, User(e.value)), CloseToken(e.key, tag), t]
      else [t]
  }

  function FlatMap(e: Edit, ts: seq<Token>): seq<Token> {
    if ts == [] then [] else EditToken(e, ts[0]) + FlatMap(e, ts[1..])
  }

  // All edits, the oldest first; the list is held newest first.
  function ApplyAll(es: seq<Edit>, ts: seq<Token>): seq<Token> {
    if es == [] then ts else FlatMap(es[0], ApplyAll(es[1..], ts))
  }

  // What one edit makes of the content of the element with the given key.
  function EditItems(e: Edit, key: string, items: Items): Items
    decreases items
  {
    match items
    case Nil => Nil
    case Txt(c, rest) =>
      if e.op == EditSet && e.key == key then EditItems(e, key, rest)
      else Txt(c, EditItems(e, key, rest))
    case El(tag, kids, rest) =>
      var k := Ext(key, tag);
      var after := EditItems(e, key, rest);
      if e.op == EditDelete && SelfOrChild(k, e.key) then after
      else El(tag, EditContent(e, k, EditItems(e, k, kids)), after)
  }

  // What one edit adds to the content of an element, its children being done.
  function EditContent(e: Edit, key: string, kids: Items): Items {
    match e.op
    case EditDelete => kids
    case EditSet => if e.key == key then Txt(User(e.value), kids) else kids
    case EditAppend =>
      if ParentKey(e.key) == key then
        Concat(kids, Appended(e))
      else kids
  }

  // The edited tree.
  function EditTree(es: seq<Edit>, doc: Items): Items {
    if es == [] then doc else EditItems(es[0], "", EditTree(es[1..], doc))
  }

  // The elements at the top have names, so that every element has a key. Elements
  // inside need none, as the one that an append of "a." adds.
  predicate TopNamed(items: Items) {
    match items
    case Nil => true
    case Txt(_, rest) => TopNamed(rest)
    case El(tag, _, rest) => tag != "" && TopNamed(rest)
  }

  // Balanced, every token carrying the full dotted key of its element.
  ghost predicate WellNested(ts: seq<Token>) {
    exists doc :: TopNamed(doc) && ts == TokensOf("", doc)
  }

  lemma {:induction false} FlatMapConcat(e: Edit, a: seq<Token>, b: seq<Token>)
    ensures FlatMap(e, a + b) == FlatMap(e, a) + FlatMap(e, b)
  {
    hide EditToken;
    if a == [] {
      assert a + b == b;
    } else {
      assert (a + b)[0] == a[0] && (a + b)[1..] == a[1..] + b;
      FlatMapConcat(e, a[1..], b);
    }
  }

  lemma FlatMapOne(e: Edit, t: Token)
    ensures FlatMap(e, [t]) == EditToken(e, t)
  {
  }

  lemma {:induction false} TokensConcat(key: string, a: Items, b: Items)
    ensures TokensOf(key, Concat(a, b)) == TokensOf(key, a) + TokensOf(key, b)
  {
    hide OpenToken, CloseToken, ValueToken, Ext;
    match a {
      case Nil =>
      case Txt(_, rest) => TokensConcat(key, rest, b);
      case El(_, _, rest) => TokensConcat(key, rest, b);
    }
  }

  // Below a deleted element every token is dropped.
  lemma {:induction false} DeletedTokens(e: Edit, key: string, items: Items)
    requires e.op == EditDelete && e.key != "" && SelfOrChild(key, e.key)
    ensures FlatMap(e, TokensOf(key, items)) == []
    decreases items
  {
    match items {
      case Nil =>
      case Txt(c, rest) =>
        DeletedTokens(e, key, rest);
        FlatMapConcat(e, [ValueToken(key, c)], TokensOf(key, rest));
      case El(tag, kids, rest) =>
        var k := Ext(key, tag);
        assert SelfOrChild(k, e.key);
        DeletedTokens(e, k, kids);
        DeletedTokens(e, key, rest);
        FlatMapElement(e, key, items);
    }
  }

  lemma FlatMapElement(e: Edit, key: string, items: Items)
    requires items.El?
    ensures
      var k := Ext(key, items.tag);
      FlatMap(e, TokensOf(key, items)) ==
        EditToken(e, OpenToken(k, items.tag)) + FlatMap(e, TokensOf(k, items.kids)) +
        EditToken(e, CloseToken(k, items.tag)) + FlatMap(e, TokensOf(key, items.rest))
  {
    var k := Ext(key, items.tag);
    var o, c := [OpenToken(k, items.tag)], [CloseToken(k, items.tag)];
    var ks, rs := TokensOf(k, items.kids), TokensOf(key, items.rest);
    FlatMapConcat(e, o + ks + c, rs);
    FlatMapConcat(e, o + ks, c);
    FlatMapConcat(e, o, ks);
    FlatMapOne(e, o[0]);
    FlatMapOne(e, c[0]);
  }

  // Mapping an edit over the tokens of a tree gives the tokens of the edited tree.
  lemma {:induction false} EditTokensOf(e: Edit, key: string, items: Items)
    requires e.key != "" && (key == "" ==> TopNamed(items))
    requires e.op == EditDelete ==> !SelfOrChild(key, e.key)
    ensures FlatMap(e, TokensOf(key, items)) == TokensOf(key, EditItems(e, key, items))
    decreases items
  {
    match items {
      case Nil =>
      case Txt(c, rest) =>
        EditTokensOf(e, key, rest);
        FlatMapConcat(e, [ValueToken(key, c)], TokensOf(key, rest));
        FlatMapOne(e, ValueToken(key, c));
      case El(tag, kids, rest) =>
        var k := Ext(key, tag);
        EditTokensOf(e, key, rest);
        FlatMapElement(e, key, items);
        if e.op == EditDelete && SelfOrChild(k, e.key) {
          DeletedTokens(e, k, kids);
        } else {
          EditTokensOf(e, k, kids);
          EditedElement(e, k, tag, EditItems(e, k, kids));
        }
    }
  }

  // The element an append adds.
  function Appended(e: Edit): Items {
    El(LastTag(e.key), Txt(User(e.value), Nil), Nil)
  }

  lemma AppendedTokens(e: Edit)
    requires ParentKey(e.key) != ""
    ensures TokensOf(ParentKey(e.key), Appended(e)) ==
      [OpenToken(e.key, LastTag(e.key)), ValueToken(e.key, User(e.value)), CloseToken(e.key, LastTag(e.key))]
  {
    ParentExt(e.key);
    assert TokensOf(e.key, Txt(User(e.value), Nil)) == [ValueToken(e.key, User(e.value))];
    assert TokensOf(ParentKey(e.key), Nil) == [];
  }

  lemma EditedElement(e: Edit, k: string, tag: string, kids: Items)
    requires k != "" && (e.op == EditDelete ==> !SelfOrChild(k, e.key))
    ensures
      EditToken(e, OpenToken(k, tag)) + TokensOf(k, kids) + EditToken(e, CloseToken(k, tag)) ==
      [OpenToken(k, tag)] + TokensOf(k, EditContent(e, k, kids)) + [CloseToken(k, tag)]
  {
    hide OpenTag, CloseTag, ParentKey, LastTag, SelfOrChild, TokensOf;
    match e.op {
      case EditDelete =>
      case EditSet => if e.key == k { SetElement(e, tag, kids); }
      case EditAppend => if ParentKey(e.key) == k { AppendElement(e, tag, kids); }
    }
  }

  lemma SetElement(e: Edit, tag: string, kids: Items)
    requires e.op == EditSet
    ensures
      EditToken(e, OpenToken(e.key, tag)) + TokensOf(e.key, kids) + EditToken(e, CloseToken(e.key, tag)) ==
      [OpenToken(e.key, tag)] + TokensOf(e.key, Txt(User(e.value), kids)) + [CloseToken(e.key, tag)]
  {
    hide OpenTag, CloseTag;
    var o, c, ks := [OpenToken(e.key, tag)], [CloseToken(e.key, tag)], TokensOf(e.key, kids);
    var v := [ValueToken(e.key, User(e.value))];
    assert EditToken(e, o[0]) == o + v && EditToken(e, c[0]) == c;
    assert o + v + ks + c == o + (v + ks) + c;
  }

  lemma AppendElement(e: Edit, tag: string, kids: Items)
    requires e.op == EditAppend && ParentKey(e.key) != ""
    ensures
      var k := ParentKey(e.key);
      EditToken(e, OpenToken(k, tag)) + TokensOf(k, kids) + EditToken(e, CloseToken(k, tag)) ==
      [OpenToken(k, tag)] + TokensOf(k, Concat(kids, Appended(e))) + [CloseToken(k, tag)]
  {
    hide OpenTag, CloseTag, ParentKey, LastTag, TokensOf;
    var k := ParentKey(e.key);
    var o, c, ks, n := [OpenToken(k, tag)], [CloseToken(k, tag)], TokensOf(k, kids), TokensOf(k, Appended(e));
    TokensConcat(k, kids, Appended(e));
    AppendedTokens(e);
    assert EditToken(e, o[0]) == o && EditToken(e, c[0]) == n + c;
    assert o + ks + (n + c) == o + (ks + n) + c;
  }

  // An edit adds nothing at the top.
  lemma {:induction false} EditTopNamed(e: Edit, key: string, items: Items)
    requires TopNamed(items)
    ensures TopNamed(EditItems(e, key, items))
    decreases items
  {
    match items {
      case Nil =>
      case Txt(_, rest) => EditTopNamed(e, key, rest);
      case El(_, _, rest) => EditTopNamed(e, key, rest);
    }
  }

  // Every edit has a key.
  predicate NamedEdits(es: seq<Edit>) {
    forall i :: 0 <= i < |es| ==> es[i].key != ""
  }

  // The flattened stream of a tree is the stream of the edited tree.
  lemma {:induction false} ApplyTokensOf(es: seq<Edit>, doc: Items)
    requires TopNamed(doc) && NamedEdits(es)
    ensures TopNamed(EditTree(es, doc))
    ensures ApplyAll(es, TokensOf("", doc)) == TokensOf("", EditTree(es, doc))
  {
    if es == [] {
    } else {
      ApplyTokensOf(es[1..], doc);
      EditTokensOf(es[0], "", EditTree(es[1..], doc));
      EditTopNamed(es[0], "", EditTree(es[1..], doc));
    }
  }

  // Every edit list, reachable or not, keeps a token stream well nested.
  lemma FlattenKeepsNesting(es: seq<Edit>, ts: seq<Token>)
    requires WellNested(ts) && NamedEdits(es)
    ensures WellNested(ApplyAll(es, ts))
  {
    var doc :| TopNamed(doc) && ts == TokensOf("", doc);
    ApplyTokensOf(es, doc);
  }
}
