// Key lookup through the cache and over the edit list (mxml_find.c).
module Find {
  import opened Chars
  import opened KeyPath
  import opened Cursors
  import opened DocFind
  import opened MxmlInt
  import opened Cache

  // What a lookup points at: the value of an edit, or content of the source.
  datatype Hit = EditValue(value: string) | DocSpan(span: Span)

  // The newest edit that settles the question, else the source text. implied
  // says that a newer edit has appended something inside key.
  function FindOver(text: string, es: seq<Edit>, key: string, implied: bool): (r: Option<Hit>)
    ensures r.Some? && r.value.DocSpan? ==>
      r.value.span.start <= r.value.span.stop <= |text| && FindNoEdit(text, key) == Some(r.value.span)
  {
    if es == [] then
      match FindNoEdit(text, key)
      case Some(span) => Some(DocSpan(span))
      case None => if implied then Some(EditValue("")) else None
    else
      var e := es[0];
      match e.op
      case EditDelete =>
        if SelfOrChild(key, e.key) then None else FindOver(text, es[1..], key, implied)
      case EditAppend =>
        if e.key == key then Some(EditValue(e.value))
        else FindOver(text, es[1..], key, implied || SelfOrChild(e.key, key))
      case EditSet =>
        if e.key == key then Some(EditValue(e.value)) else FindOver(text, es[1..], key, implied)
  }

  // find_key as a function of the document and its edits.
  function Lookup(text: string, es: seq<Edit>, key: string): (r: Option<Hit>)
    ensures r.Some? && r.value.DocSpan? ==>
      r.value.span.start <= r.value.span.stop <= |text| && FindNoEdit(text, key) == Some(r.value.span)
  {
    FindOver(text, es, key, false)
  }

  // The characters a hit points at.
  function Content(text: string, h: Hit): string
    requires h.DocSpan? ==> h.span.start <= h.span.stop <= |text|
  {
    match h
    case EditValue(v) => v
    case DocSpan(span) => text[span.start..span.stop]
  }

  // Past "<tag>" but for its '>', or past as much of it as the tag at c shares.
  method EatTag(c: Cursor, tag: string) returns (matched: bool)
    requires c.Valid() && c.pos < c.end && c.text[c.pos] == '<'
    modifies c`pos
    ensures c.Valid()
    ensures matched == OpensNamed(c.text, old(c.pos), c.end, tag)
    ensures matched ==> c.pos == PastName(c.text, old(c.pos), c.end, tag)
    ensures !matched ==> c.pos == PastShared(c.text, old(c.pos), c.end, tag)
  {
    hide PastWhite, At;
    var _ := c.EatCh('<');
    assert c.pos == old(c.pos) + 1;
    var eaten := c.Eat(tag);
    if !eaten {
      return false;
    }
    assert c.pos == old(c.pos) + 1 + |tag|;
    if c.IsAt(">") {
      return true;
    }
    matched := c.EatWhite();
  }

  // The search below the cache in find_key_noedit: the content of the first
  // child <tag> of text[start..stop].
  method FindChildOf(text: string, start: nat, stop: nat, tag: string) returns (r: Option<Span>)
    requires start <= stop <= |text|
    ensures r == FindChild(text, start, stop, tag)
  {
    hide PastContent, NextCh, At, ToClose, PastName, PastShared, OpensNamed;
    var c := new Cursor(text, start, stop);
    c.SkipContent();
    while !c.AtEof() && !c.IsAt(CLOSING)
      invariant c.Valid() && (c.pos < stop ==> text[c.pos] == '<')
      invariant ScanChildren(text, c.pos, stop, tag) == FindChild(text, start, stop, tag)
      decreases stop - c.pos
    {
      var matched := EatTag(c, tag);
      if matched {
        c.SkipToCh('>');
        var _ := c.EatCh('>');
        var content := c.pos;
        c.SkipToClose();
        return Some(Span(content, c.pos));
      }
      c.SkipToCh('>');
      c.SkipToClose();
      c.SkipToCh('>');
      c.SkipContent();
    }
    r := None;
  }

  method FindKeyNoEdit(m: Mxml, reqkey: string) returns (r: Option<Span>)
    requires m.Valid() && Rooted(reqkey)
    modifies m`cacheNext, m.cache
    ensures m.Valid()
    ensures r == FindNoEdit(m.text, reqkey)
    ensures forall k :: |k| > |reqkey| && m.Resident(k) ==> old(m.Resident(k))
    decreases |reqkey|
  {
    r := CacheGet(m, reqkey);
    if r.Some? {
      return;
    }
    var dot := LastDot(reqkey);
    if dot >= 0 {
      RootedParent(reqkey);
      var parent := FindKeyNoEdit(m, reqkey[..dot]);
      if parent.None? {
        return None;
      }
      r := FindChildOf(m.text, parent.value.start, parent.value.stop, reqkey[dot + 1..]);
    } else {
      r := FindChildOf(m.text, 0, |m.text|, reqkey);
    }
    if r.Some? {
      CacheSet(m, reqkey, r.value);
    }
  }

  method FindKey(m: Mxml, reqkey: string) returns (r: Option<Hit>)
    requires m.Valid() && Rooted(reqkey)
    modifies m`cacheNext, m.cache
    ensures m.Valid()
    ensures r == Lookup(m.text, m.edits, reqkey)
  {
    var impliedByAppend := false;
    for i := 0 to |m.edits|
      invariant FindOver(m.text, m.edits[i..], reqkey, impliedByAppend) == Lookup(m.text, m.edits, reqkey)
    {
      var e := m.edits[i];
      assert m.edits[i..][0] == e && m.edits[i..][1..] == m.edits[i + 1..];
      match e.op {
        case EditDelete =>
          if SelfOrChild(reqkey, e.key) {
            return None;
          }
        case EditAppend =>
          if SelfOrChild(e.key, reqkey) {
            impliedByAppend := true;
          }
          if e.key == reqkey {
            return Some(EditValue(e.value));
          }
        case EditSet =>
          if e.key == reqkey {
            return Some(EditValue(e.value));
          }
      }
    }
    var found := FindKeyNoEdit(m, reqkey);
    match found {
      case Some(span) => r := Some(DocSpan(span));
      case None => r := if impliedByAppend then Some(EditValue("")) else None;
    }
  }
}
