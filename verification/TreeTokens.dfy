// Tokenizing the text of a tree gives the tokens of the tree.
module TreeTokens {
  import opened Chars
  import opened KeyPath
  import opened Cursors
  import opened MxmlInt
  import opened Tree
  import opened TreeText
  import opened Tokens
  import opened Tokenizer

  // Source text between tags: not empty, not mistaken for a tag, and one piece.
  predicate SourceText(items: Items)
    requires items.Txt?
  {
    && items.chunk.Raw? && items.chunk.s != "" && items.chunk.s[0] != '<'
    && Quiet(items.chunk.s) && !items.rest.Txt?
  }

  // Content as it stands in a source document: text of any kind between tags, no
  // comment or processing instruction directly after a tag.
  predicate SourceItems(items: Items) {
    match items
    case Nil => true
    case Txt(_, rest) => SourceText(items) && SourceItems(rest)
    case El(tag, kids, rest) => ValidTag(tag) && SourceItems(kids) && SourceItems(rest)
  }

  // Every key of the content fits the tokenizer's key buffer.
  predicate KeysFit(key: string, items: Items)
    decreases items
  {
    match items
    case Nil => true
    case Txt(_, rest) => KeysFit(key, rest)
    case El(tag, kids, rest) =>
      |key| + 1 + |tag| <= KEY_MAX && KeysFit(Ext(key, tag), kids) && KeysFit(key, rest)
  }

  // A prolog, which may be empty, and then elements or nothing.
  predicate PrologDoc(doc: Items) {
    && doc.Txt? && doc.chunk.Raw? && Quiet(doc.chunk.s) && !doc.rest.Txt?
    && SourceItems(doc.rest) && KeysFit("", doc.rest)
  }

  // A source document: a prolog, the document element, and what follows it.
  predicate SourceDoc(doc: Items) {
    PrologDoc(doc) && doc.rest.El?
  }

  lemma {:induction false} SourceItemsValid(items: Items)
    requires SourceItems(items)
    ensures ValidItems(items) && TopNamed(items)
  {
    match items {
      case Nil =>
      case Txt(_, rest) => SourceItemsValid(rest);
      case El(_, kids, rest) => SourceItemsValid(kids); SourceItemsValid(rest);
    }
  }

  lemma PrologDocValid(doc: Items)
    requires PrologDoc(doc)
    ensures ValidItems(doc) && TopNamed(doc)
  {
    SourceItemsValid(doc.rest);
  }

  lemma SourceDocValid(doc: Items)
    requires SourceDoc(doc)
    ensures ValidItems(doc) && TopNamed(doc)
  {
    hide ValidItems, TopNamed;
    PrologDocValid(doc);
  }

  // Where s goes on after the tokens ts.
  function Prepend(ts: seq<Token>, s: Stream): Stream {
    Stream(ts + s.toks, s.ok)
  }

  lemma TextToken(text: string, i: nat, items: Items, key: string)
    requires items.Txt? && items.chunk.Raw? && Quiet(items.chunk.s)
    requires At(text, i, |text|, Ser(items))
    requires var j := i + |items.chunk.s|; j <= |text| ==> PastContent(text, j, |text|) == j
    ensures i + |items.chunk.s| <= |text|
    ensures ScanText(text, i, key) == Scanned(ValueToken(key, items.chunk), i + |items.chunk.s|, key)
  {
    hide PastContent, At, Quiet, Ser, NextPat;
    AtText(text, i, |text|, items);
    TextStands(text, i, items);
    AtIs(text, i, |text|, items.chunk.s);
  }

  lemma TextStands(text: string, i: nat, items: Items)
    requires items.Txt? && items.chunk.Raw? && At(text, i, |text|, Ser(items))
    ensures At(text, i, |text|, items.chunk.s) && i + |items.chunk.s| <= |text|
  {
    hide At;
    AtSplit(text, i, |text|, items.chunk.s, Ser(items.rest));
    AtChars(text, i, |text|, items.chunk.s);
  }

  lemma NameEndIs(text: string, i: nat, end: nat, j: nat)
    requires i <= j < end <= |text| && text[j] == '>'
    requires forall k :: i <= k < j ==> text[k] != '>' && !IsSpace(text[k])
    ensures NameEnd(text, i, end) == j
    decreases j - i
  {
    if i < j { NameEndIs(text, i + 1, end, j); }
  }

  // The name of a tag whose name and '>' stand at i.
  lemma TagNameAt(text: string, i: nat, tag: string)
    requires At(text, i, |text|, tag + ">") && ValidTag(tag)
    ensures i + |tag| + 1 <= |text|
    ensures NameEnd(text, i, |text|) == i + |tag| && TagEnd(text, i) == i + |tag| + 1
    ensures text[i..i + |tag|] == tag
  {
    hide At;
    AtChars(text, i, |text|, tag + ">");
    assert (tag + ">")[|tag|] == '>';
    forall k | i <= k < i + |tag|
      ensures text[k] != '>' && !IsSpace(text[k])
    {
      assert (tag + ">")[k - i] == tag[k - i];
    }
    NameEndIs(text, i, |text|, i + |tag|);
    AtSplit(text, i, |text|, tag, ">");
    AtIs(text, i, |text|, tag);
  }

  lemma OpenTagToken(text: string, i: nat, tag: string, key: string)
    requires At(text, i, |text|, OpenTag(tag)) && ValidTag(tag)
    requires |key| + 1 + |tag| <= KEY_MAX
    ensures i + |tag| + 2 <= |text|
    ensures ScanToken(text, i, key, true) ==
      Scanned(OpenToken(Ext(key, tag), tag), i + |tag| + 2, Ext(key, tag))
  {
    hide At, TagEnd, NameEnd, OpenTag, ValidTag, PastContent, ScanText, ScanClose;
    OpenTagName(text, i, tag);
    TagNameAt(text, i + 1, tag);
  }

  lemma OpenTagName(text: string, i: nat, tag: string)
    requires At(text, i, |text|, OpenTag(tag)) && ValidTag(tag)
    ensures i + |tag| + 2 <= |text| && text[i] == '<' && text[i + 1] != '/'
    ensures At(text, i + 1, |text|, tag + ">") && text[i..i + |tag| + 2] == OpenTag(tag)
  {
    hide At;
    var t := OpenTag(tag);
    AtChars(text, i, |text|, t);
    assert t == "<" + (tag + ">") && t[0] == '<' && t[1] == tag[0];
    AtSplit(text, i, |text|, "<", tag + ">");
    AtIs(text, i, |text|, t);
  }

  lemma CloseTagName(text: string, i: nat, tag: string)
    requires At(text, i, |text|, CloseTag(tag))
    ensures i + |tag| + 3 <= |text| && text[i] == '<' && text[i + 1] == '/'
    ensures At(text, i + 2, |text|, tag + ">") && text[i..i + |tag| + 3] == CloseTag(tag)
  {
    hide At;
    var t := CloseTag(tag);
    assert t == CLOSING + (tag + ">") && t[1] == '/';
    AtChars(text, i, |text|, t);
    AtSplit(text, i, |text|, CLOSING, tag + ">");
    AtIs(text, i, |text|, t);
  }

  lemma CloseTagToken(text: string, i: nat, tag: string, key: string)
    requires At(text, i, |text|, CloseTag(tag)) && ValidTag(tag)
    ensures i + |tag| + 3 <= |text|
    ensures ScanToken(text, i, Ext(key, tag), true) ==
      Scanned(CloseToken(Ext(key, tag), tag), i + |tag| + 3, key)
  {
    hide At, TagEnd, NameEnd, ParentKey, CloseTag, PastContent, ScanText, ScanOpen, LastDot, Ext;
    CloseTagName(text, i, tag);
    TagNameAt(text, i + 2, tag);
    ExtInverse(key, tag);
  }

  lemma SourceStep(text: string, pos: nat, key: string, init: bool, t: Token, p: nat, k: string)
    requires pos <= |text| && ScanToken(text, pos, key, init) == Scanned(t, p, k)
    ensures p <= |text| && Source(text, pos, key, init) == Prepend([t], Source(text, p, k, true))
  {
  }

  lemma PrependTwice(a: seq<Token>, b: seq<Token>, s: Stream)
    ensures Prepend(a, Prepend(b, s)) == Prepend(a + b, s)
  {
    assert a + (b + s.toks) == (a + b) + s.toks;
  }

  // Content that does not begin with text begins at a tag, or ends at once.
  lemma BeginsAtTag(text: string, i: nat, items: Items)
    requires !items.Txt? && At(text, i, |text|, Ser(items)) && SourceItems(items)
    requires i <= |text| && (items.Nil? ==> PastContent(text, i, |text|) == i)
    ensures PastContent(text, i, |text|) == i
  {
    hide At, PastContent, OpenTag, CloseTag;
    if items.El? {
      AtElement(text, i, |text|, items);
      AtOpenTag(text, i, |text|, items.tag);
    }
  }

  // The tokens of content, wherever it stands before a tag or the end.
  lemma {:induction false} SourceOver(text: string, i: nat, items: Items, key: string)
    requires At(text, i, |text|, Ser(items)) && SourceItems(items) && KeysFit(key, items)
    requires var j := i + |Ser(items)|; j <= |text| ==> PastContent(text, j, |text|) == j
    ensures i + |Ser(items)| <= |text|
    ensures Source(text, i, key, true) == Prepend(TokensOf(key, items), Source(text, i + |Ser(items)|, key, true))
    decreases items, 1
  {
    hide At, PastContent, OpenTag, CloseTag, Source, Quiet;
    AtChars(text, i, |text|, Ser(items));
    match items {
      case Nil =>
      case Txt(chunk, rest) =>
        SourceItemsValid(items);
        AtText(text, i, |text|, items);
        var j := i + |chunk.s|;
        BeginsAtTag(text, j, rest);
        TextToken(text, i, items, key);
        assert Ser(items)[0] == chunk.s[0];
        SourceStep(text, i, key, true, ValueToken(key, chunk), j, key);
        SourceOver(text, j, rest, key);
        PrependTwice([ValueToken(key, chunk)], TokensOf(key, rest), Source(text, i + |Ser(items)|, key, true));
      case El(tag, kids, rest) =>
        SourceOverElement(text, i, items, key);
    }
  }

  lemma {:induction false} SourceOverElement(text: string, i: nat, items: Items, key: string)
    requires items.El?
    requires At(text, i, |text|, Ser(items)) && SourceItems(items) && KeysFit(key, items)
    requires var j := i + |Ser(items)|; j <= |text| ==> PastContent(text, j, |text|) == j
    ensures i + |Ser(items)| <= |text|
    ensures Source(text, i, key, true) == Prepend(TokensOf(key, items), Source(text, i + |Ser(items)|, key, true))
    decreases items, 0
  {
    hide At, PastContent, OpenTag, CloseTag, Source, Ser, ScanToken, ValidTag, Prepend, TokensOf, OpenToken, CloseToken;
    var tag, kids, rest, k := items.tag, items.kids, items.rest, Ext(key, items.tag);
    AtElement(text, i, |text|, items);
    var a := i + |tag| + 2;
    var b := a + |Ser(kids)|;
    var c := b + |tag| + 3;
    OpenTagToken(text, i, tag, key);
    SourceStep(text, i, key, true, OpenToken(k, tag), a, k);
    AtCloseTag(text, b, |text|, tag);
    SourceOver(text, a, kids, k);
    CloseTagToken(text, b, tag, key);
    SourceStep(text, b, k, true, CloseToken(k, tag), c, key);
    SourceOver(text, c, rest, key);
    ElementPrepended(key, items, Source(text, i + |Ser(items)|, key, true));
  }

  lemma ElementPrepended(key: string, items: Items, s: Stream)
    requires items.El?
    ensures
      var k, tag := Ext(key, items.tag), items.tag;
      var tail := Prepend([CloseToken(k, tag)], Prepend(TokensOf(key, items.rest), s));
      Prepend([OpenToken(k, tag)], Prepend(TokensOf(k, items.kids), tail))
        == Prepend(TokensOf(key, items), s)
  {
    hide Ext, Prepend, OpenToken, CloseToken;
    var k, tag := Ext(key, items.tag), items.tag;
    var a, b := TokensOf(k, items.kids), TokensOf(key, items.rest);
    PrependTwice([CloseToken(k, tag)], b, s);
    PrependTwice(a, [CloseToken(k, tag)] + b, s);
    PrependTwice([OpenToken(k, tag)], a + ([CloseToken(k, tag)] + b), s);
    assert [OpenToken(k, tag)] + (a + ([CloseToken(k, tag)] + b)) == TokensOf(key, items);
  }

  // Tokenizing a prolog and elements gives their tokens, but for an empty text,
  // which has none.
  lemma SourceOfProlog(doc: Items)
    requires PrologDoc(doc)
    ensures SourceOf(Ser(doc)) == Stream(if Ser(doc) == "" then [] else TokensOf("", doc), true)
  {
    hide At, PastContent, CloseTag, Source, Quiet, QuietFrom, ValidTag;
    var text := Ser(doc);
    var n := |doc.chunk.s|;
    SourceEnd(text);
    if text != "" {
      PrologDocValid(doc);
      AtSelf(text, 0, |text|);
      assert text[0..|text|] == text;
      AtText(text, 0, |text|, doc);
      PastEnd(text);
      BeginsAtTag(text, n, doc.rest);
      TextToken(text, 0, doc, "");
      SourceStep(text, 0, "", false, ValueToken("", doc.chunk), n, "");
      SourceOver(text, n, doc.rest, "");
      PrependTwice([ValueToken("", doc.chunk)], TokensOf("", doc.rest), Stream([], true));
    }
  }

  lemma PastEnd(text: string)
    ensures PastContent(text, |text|, |text|) == |text|
  {
  }

  // Tokenizing the text of a document gives the tokens of its tree.
  lemma SourceOfTree(doc: Items)
    requires SourceDoc(doc)
    ensures SourceOf(Ser(doc)) == Stream(TokensOf("", doc), true)
  {
    hide SourceItems, KeysFit, Quiet, Source;
    SourceOfProlog(doc);
    assert Ser(doc)[|doc.chunk.s|] == '<';
  }

  lemma SourceEnd(text: string)
    ensures Source(text, |text|, "", true) == Stream([], true)
    ensures text == "" ==> SourceOf(text) == Stream([], true)
  {
  }
}
