// The text scanners refine tree navigation.
module TreeText {
  import opened Chars
  import opened KeyPath
  import opened Cursors
  import opened DocFind
  import opened Codec
  import opened Tree

  // A pattern that occurs in t is found at the same place in any text around t.
  lemma {:induction false} NextPatWithin(text: string, i: nat, end: nat, t: string, k: nat, pat: string)
    requires end <= |text| && At(text, i, end, t) && k <= |t| && pat != ""
    requires NextPat(t, k, |t|, pat) < |t|
    ensures NextPat(text, i + k, end, pat) == i + NextPat(t, k, |t|, pat)
    decreases |t| - k
  {
    AtWithin(text, i, end, t, k, pat);
    if !At(t, k, |t|, pat) {
      NextPatWithin(text, i, end, t, k + 1, pat);
    }
  }

  // Quiet text is passed over, wherever it stands.
  lemma {:induction false} PastQuiet(text: string, i: nat, end: nat, t: string, k: nat)
    requires end <= |text| && At(text, i, end, t) && k <= |t| && QuietFrom(t, k)
    ensures PastContent(text, i + k, end) == PastContent(text, i + |t|, end)
    decreases |t| - k
  {
    hide At, NextPat;
    if k == |t| {
    } else {
      AtChars(text, i, end, t);
      if t[k] != '<' {
        PastQuiet(text, i, end, t, k + 1);
      } else if At(t, k, |t|, COMMENT) {
        AtWithin(text, i, end, t, k, COMMENT);
        NextPatWithin(text, i, end, t, k + 4, COMMENT_END);
        PastQuiet(text, i, end, t, NextPat(t, k + 4, |t|, COMMENT_END));
      } else {
        AtWithin(text, i, end, t, k, INSTRUCTION);
        InstructionIsNoComment(text, i + k, end);
        NextPatWithin(text, i, end, t, k + 2, INSTRUCTION_END);
        PastQuiet(text, i, end, t, NextPat(t, k + 2, |t|, INSTRUCTION_END));
      }
    }
  }

  lemma InstructionIsNoComment(text: string, i: nat, end: nat)
    requires end <= |text| && At(text, i, end, INSTRUCTION)
    ensures !At(text, i, end, COMMENT)
  {
    hide At;
    AtChars(text, i, end, INSTRUCTION);
    assert INSTRUCTION[1] == '?';
    NotAt(text, i, end, COMMENT, 1);
  }

  // Where the parser's moves end at an opening tag.
  lemma AtOpenTag(text: string, i: nat, end: nat, tag: string)
    requires end <= |text| && At(text, i, end, OpenTag(tag)) && ValidTag(tag)
    ensures i + |tag| + 2 <= end && text[i] == '<'
    ensures PastContent(text, i, end) == i && !At(text, i, end, CLOSING)
    ensures NextCh(text, i, end, '>') == i + |tag| + 1
    ensures PastContent(text, i + |tag| + 1, end) == PastContent(text, i + |tag| + 2, end)
  {
    hide At;
    var t := OpenTag(tag);
    assert t[0] == '<' && t[1] == tag[0] && t[|tag| + 1] == '>';
    AtChars(text, i, end, t);
    NotAt(text, i, end, COMMENT, 1);
    NotAt(text, i, end, INSTRUCTION, 1);
    NotAt(text, i, end, CLOSING, 1);
    assert |t| == |tag| + 2;
    forall k | i <= k < i + |tag| + 1
      ensures text[k] != '>'
    {
      assert text[i + (k - i)] == t[k - i];
    }
    assert text[i + (|tag| + 1)] == '>';
  }

  // Where the parser's moves end at a closing tag.
  lemma AtCloseTag(text: string, i: nat, end: nat, tag: string)
    requires end <= |text| && At(text, i, end, CloseTag(tag)) && ValidTag(tag)
    ensures i + |tag| + 3 <= end && text[i] == '<'
    ensures PastContent(text, i, end) == i && At(text, i, end, CLOSING)
    ensures NextCh(text, i, end, '>') == i + |tag| + 2
    ensures PastContent(text, i + |tag| + 2, end) == PastContent(text, i + |tag| + 3, end)
  {
    hide At;
    var t := CloseTag(tag);
    assert t == CLOSING + (tag + ">");
    AtSplit(text, i, end, CLOSING, tag + ">");
    AtChars(text, i, end, t);
    assert t[0] == '<' && t[1] == '/' && t[|tag| + 2] == '>';
    NotAt(text, i, end, COMMENT, 1);
    NotAt(text, i, end, INSTRUCTION, 1);
    assert |t| == |tag| + 3;
    forall k | i <= k < i + |tag| + 2
      ensures text[k] != '>'
    {
      assert text[i + (k - i)] == t[k - i];
    }
    assert text[i + (|tag| + 2)] == '>';
  }

  // The places of the parts of a serialized element.
  lemma AtElement(text: string, i: nat, end: nat, items: Items)
    requires end <= |text| && items.El? && At(text, i, end, Ser(items))
    ensures
      var a := i + |items.tag| + 2;
      var b := a + |Ser(items.kids)|;
      var c := b + |items.tag| + 3;
      && At(text, i, end, OpenTag(items.tag))
      && At(text, a, end, Ser(items.kids))
      && At(text, b, end, CloseTag(items.tag))
      && At(text, c, end, Ser(items.rest))
      && c + |Ser(items.rest)| == i + |Ser(items)| <= end
  {
    hide At;
    var o, k, c, r := OpenTag(items.tag), Ser(items.kids), CloseTag(items.tag), Ser(items.rest);
    assert Ser(items) == o + k + c + r;
    AtSplit(text, i, end, o + k + c, r);
    AtSplit(text, i, end, o + k, c);
    AtSplit(text, i, end, o, k);
    AtChars(text, i, end, Ser(items));
    assert |o| == |items.tag| + 2 && |c| == |items.tag| + 3;
  }

  lemma AtText(text: string, i: nat, end: nat, items: Items)
    requires end <= |text| && items.Txt? && At(text, i, end, Ser(items))
    requires Quiet(Bytes(items.chunk))
    ensures At(text, i + |Bytes(items.chunk)|, end, Ser(items.rest))
    ensures i + |Ser(items)| == i + |Bytes(items.chunk)| + |Ser(items.rest)| <= end
    ensures PastContent(text, i, end) == PastContent(text, i + |Bytes(items.chunk)|, end)
  {
    hide At;
    AtSplit(text, i, end, Bytes(items.chunk), Ser(items.rest));
    AtChars(text, i, end, Ser(items));
    PastQuiet(text, i, end, Bytes(items.chunk), 0);
  }

  lemma OverOpenTag(text: string, i: nat, end: nat, tag: string, depth: nat)
    requires end <= |text| && At(text, i, end, OpenTag(tag)) && ValidTag(tag)
    ensures i + |tag| + 2 <= end
    ensures ToCloseFrom(text, PastContent(text, i, end), end, depth)
         == ToCloseFrom(text, PastContent(text, i + |tag| + 2, end), end, depth + 1)
  {
    hide At, PastContent, NextCh, OpenTag;
    AtOpenTag(text, i, end, tag);
  }

  lemma OverCloseTag(text: string, i: nat, end: nat, tag: string, depth: nat)
    requires end <= |text| && At(text, i, end, CloseTag(tag)) && ValidTag(tag)
    ensures i + |tag| + 3 <= end
    ensures ToCloseFrom(text, PastContent(text, i, end), end, depth + 1)
         == ToCloseFrom(text, PastContent(text, i + |tag| + 3, end), end, depth)
  {
    hide At, PastContent, NextCh, CloseTag;
    AtCloseTag(text, i, end, tag);
  }

  // A forest of nested content, at any depth, leaves the search for the closing
  // tag where it was.
  lemma {:induction false} ToCloseOver(text: string, i: nat, end: nat, items: Items, depth: nat)
    requires end <= |text| && At(text, i, end, Ser(items)) && ValidItems(items)
    ensures i + |Ser(items)| <= end
    ensures ToCloseFrom(text, PastContent(text, i, end), end, depth)
         == ToCloseFrom(text, PastContent(text, i + |Ser(items)|, end), end, depth)
    decreases items
  {
    hide At, PastContent, NextCh, OpenTag, CloseTag, ToCloseFrom, ValidTag;
    AtChars(text, i, end, Ser(items));
    match items {
      case Nil =>
      case Txt(chunk, rest) =>
        AtText(text, i, end, items);
        ToCloseOver(text, i + |Bytes(chunk)|, end, rest, depth);
      case El(tag, kids, rest) =>
        AtElement(text, i, end, items);
        var a := i + |tag| + 2;
        var b := a + |Ser(kids)|;
        OverOpenTag(text, i, end, tag, depth);
        ToCloseOver(text, a, end, kids, depth + 1);
        OverCloseTag(text, b, end, tag, depth);
        ToCloseOver(text, b + |tag| + 3, end, rest, depth);
    }
  }

  // Started inside an element, the search stops exactly at its closing tag.
  lemma ToCloseStopsAtOwnTag(text: string, i: nat, end: nat, items: Items, tag: string)
    requires end <= |text| && ValidItems(items) && ValidTag(tag)
    requires At(text, i, end, Ser(items)) && At(text, i + |Ser(items)|, end, CloseTag(tag))
    ensures i <= end && ToClose(text, i, end) == i + |Ser(items)|
  {
    hide At, PastContent, NextCh;
    ToCloseOver(text, i, end, items, 0);
    AtCloseTag(text, i + |Ser(items)|, end, tag);
  }

  // The tag at i opens <q> exactly when q is its whole name, and not when one
  // name begins the other.
  lemma OpensNamedIs(text: string, i: nat, end: nat, tag: string, q: string)
    requires end <= |text| && At(text, i, end, OpenTag(tag)) && ValidTag(tag) && !Has(q, '>')
    ensures i < end && (OpensNamed(text, i, end, q) <==> q == tag)
    ensures q == tag ==> PastName(text, i, end, q) == i + |tag| + 1
    ensures PastShared(text, i, end, q) <= i + |tag| + 1
  {
    hide At, PastWhite;
    AtOpenTag(text, i, end, tag);
    var t := OpenTag(tag);
    assert t == "<" + (tag + ">");
    AtSplit(text, i, end, "<", tag + ">");
    AtSplit(text, i + 1, end, tag, ">");
    AtChars(text, i, end, t);
    if At(text, i + 1, end, q) {
      SharedName(text, i, end, tag, q);
    }
  }

  lemma SharedName(text: string, i: nat, end: nat, tag: string, q: string)
    requires end <= |text| && At(text, i, end, OpenTag(tag)) && ValidTag(tag) && !Has(q, '>')
    requires At(text, i + 1, end, q)
    ensures |q| <= |tag|
    ensures q != tag ==>
      !At(text, i + 1 + |q|, end, ">") && i + 1 + |q| < end && PastWhite(text, i + 1 + |q|, end) == i + 1 + |q|
  {
    hide At, PastWhite;
    var t := OpenTag(tag);
    AtChars(text, i, end, t);
    assert t[|tag| + 1] == '>';
    assert forall k :: 0 <= k < |tag| ==> t[k + 1] == tag[k];
    if |tag| < |q| {
      OverlapChar(text, i, end, t, q, |tag|);
      assert false;
    }
    forall k | 0 <= k < |q|
      ensures q[k] == t[k + 1]
    {
      OverlapChar(text, i, end, t, q, k);
    }
    if |q| == |tag| {
      assert q == tag;
    } else {
      assert t[|q| + 1] == tag[|q|];
      NotAt(text, i + 1 + |q|, end, ">", 0);
      PastNoWhite(text, i + 1 + |q|, end);
    }
  }

  lemma OverlapChar(text: string, i: nat, end: nat, t: string, q: string, k: nat)
    requires end <= |text| && At(text, i, end, t) && At(text, i + 1, end, q)
    requires k < |q| && k + 1 < |t|
    ensures q[k] == t[k + 1]
  {
    hide At;
    AtChars(text, i, end, t);
    AtChars(text, i + 1, end, q);
    assert text[i + (k + 1)] == t[k + 1];
  }

  lemma PastNoWhite(text: string, i: nat, end: nat)
    requires i < end <= |text| && !IsSpace(text[i])
    ensures PastWhite(text, i, end) == i
  {
  }

  // The span reads the serialization of these items.
  ghost predicate Holds(text: string, span: Span, items: Items) {
    && span.start <= span.stop <= |text|
    && text[span.start..span.stop] == Ser(items)
  }

  ghost predicate Reads(text: string, r: Option<Span>, found: Option<Items>) {
    match r
    case None => found.None?
    case Some(span) => found.Some? && Holds(text, span, found.value)
  }

  // A hunt through serialized content ends at the first child of that name.
  lemma {:induction false} ScanOver(text: string, i: nat, end: nat, items: Items, q: string)
    requires end <= |text| && At(text, i, end, Ser(items)) && i + |Ser(items)| == end
    requires ValidItems(items) && !Has(q, '>')
    ensures Reads(text, FindChild(text, i, end, q), Child(items, q))
    decreases items
  {
    hide At, PastContent, OpenTag, CloseTag, ScanChildren, ToClose, Holds;
    match items {
      case Nil =>
        ScanEmpty(text, i, end, q);
      case Txt(chunk, rest) =>
        AtText(text, i, end, items);
        ScanOver(text, i + |Bytes(chunk)|, end, rest, q);
      case El(tag, kids, rest) =>
        AtElement(text, i, end, items);
        if q == tag {
          ScanFound(text, i, end, items);
        } else {
          ScanNext(text, i, end, items, q);
          ScanOver(text, i + |Ser(items)| - |Ser(rest)|, end, rest, q);
        }
    }
  }

  lemma ScanEmpty(text: string, i: nat, end: nat, q: string)
    requires i == end <= |text|
    ensures FindChild(text, i, end, q) == None
  {
  }

  lemma ScanFound(text: string, i: nat, end: nat, items: Items)
    requires end <= |text| && items.El? && At(text, i, end, Ser(items)) && ValidItems(items)
    ensures i <= end && Reads(text, FindChild(text, i, end, items.tag), Some(items.kids))
  {
    hide At, PastContent, NextCh, OpenTag, CloseTag, OpensNamed, PastName, ToClose, Ser, PastShared, AfterElement,
         QuietFrom;
    var tag, a := items.tag, i + |items.tag| + 2;
    assert ValidTag(tag) && ValidItems(items.kids);
    AtElement(text, i, end, items);
    AtOpenTag(text, i, end, tag);
    OpensNamedIs(text, i, end, tag, tag);
    ToCloseStopsAtOwnTag(text, a, end, items.kids, tag);
    AtIs(text, a, end, Ser(items.kids));
  }

  lemma AtIs(text: string, i: nat, end: nat, s: string)
    requires end <= |text| && At(text, i, end, s)
    ensures i + |s| <= end && text[i..i + |s|] == s
  {
  }

  lemma NextChFrom(text: string, i: nat, p: nat, end: nat, c: char)
    requires i <= p <= end <= |text| && p <= NextCh(text, i, end, c)
    ensures NextCh(text, p, end, c) == NextCh(text, i, end, c)
  {
  }

  lemma AfterElementIs(text: string, i: nat, end: nat, items: Items, q: string)
    requires end <= |text| && items.El? && At(text, i, end, Ser(items)) && ValidItems(items)
    requires q != items.tag && !Has(q, '>')
    ensures |Ser(items.rest)| <= |Ser(items)| && i < i + |Ser(items)| <= end
    ensures AfterElement(text, i, end, q) == PastContent(text, i + |Ser(items)| - |Ser(items.rest)|, end)
  {
    hide At, PastContent, NextCh, OpenTag, CloseTag, OpensNamed, PastShared, ToCloseFrom, ValidTag;
    var tag := items.tag;
    var b := i + |tag| + 2 + |Ser(items.kids)|;
    AtElement(text, i, end, items);
    AtOpenTag(text, i, end, tag);
    OpensNamedIs(text, i, end, tag, q);
    NextChFrom(text, i, PastShared(text, i, end, q), end, '>');
    ToCloseStopsAtOwnTag(text, i + |tag| + 2, end, items.kids, tag);
    AtCloseTag(text, b, end, tag);
  }

  // Another element is passed over as a whole.
  lemma ScanNext(text: string, i: nat, end: nat, items: Items, q: string)
    requires end <= |text| && items.El? && At(text, i, end, Ser(items)) && ValidItems(items)
    requires q != items.tag && !Has(q, '>')
    ensures |Ser(items.rest)| <= |Ser(items)| && i + |Ser(items)| <= end
    ensures FindChild(text, i, end, q) == FindChild(text, i + |Ser(items)| - |Ser(items.rest)|, end, q)
  {
    hide At, PastContent, Ser, OpensNamed, AfterElement, ValidTag, OpenTag;
    AfterElementIs(text, i, end, items, q);
    AtElement(text, i, end, items);
    AtOpenTag(text, i, end, items.tag);
    OpensNamedIs(text, i, end, items.tag, q);
  }

  // find_key_noedit refines tree navigation, for every tree and every key.
  lemma {:induction false} FindRefinesNav(text: string, doc: Items, key: string)
    requires text == Ser(doc) && ValidItems(doc) && !Has(key, '>')
    ensures Reads(text, FindNoEdit(text, key), Nav(doc, key))
    ensures Nav(doc, key).Some? ==> ValidItems(Nav(doc, key).value)
    decreases |key|
  {
    hide FindChild, Ser, ValidItems, Child;
    var d := LastDot(key);
    if d < 0 {
      AtSelf(text, 0, |text|);
      ScanOver(text, 0, |text|, doc, key);
      ChildValid(doc, key);
    } else {
      HasPart(key, 0, d, '>');
      HasPart(key, d + 1, |key|, '>');
      FindRefinesNav(text, doc, key[..d]);
      var parent := Nav(doc, key[..d]);
      if parent.Some? {
        var span := FindNoEdit(text, key[..d]).value;
        AtSelf(text, span.start, span.stop);
        ScanOver(text, span.start, span.stop, parent.value, key[d + 1..]);
        ChildValid(parent.value, key[d + 1..]);
      }
    }
  }

  lemma AtSelf(text: string, i: nat, end: nat)
    requires i <= end <= |text|
    ensures At(text, i, end, text[i..end])
  {
  }

  lemma HasPart(s: string, i: nat, j: nat, c: char)
    requires i <= j <= |s|
    ensures Has(s[i..j], c) ==> Has(s, c)
  {
  }

  lemma {:induction false} ChildValid(items: Items, tag: string)
    requires ValidItems(items)
    ensures Child(items, tag).Some? ==> ValidItems(Child(items, tag).value)
  {
    match items {
      case Nil =>
      case Txt(_, rest) => ChildValid(rest, tag);
      case El(_, _, rest) => ChildValid(rest, tag);
    }
  }
}
