// The token source at the top of the chain (xml_tokenize).
module Tokenizer {
  import opened Chars
  import opened KeyPath
  import opened Cursors
  import opened MxmlInt
  import opened Tree
  import opened Tokens

  // The end of the tag name at i: the next '>' or white space, or end.
  function NameEnd(text: string, i: nat, end: nat): (j: nat)
    requires i <= end <= |text|
    ensures i <= j <= end
    decreases end - i
  {
    if i == end || text[i] == '>' || IsSpace(text[i]) then i else NameEnd(text, i + 1, end)
  }

  // The end of the tag whose name begins at i: past the next '>', or end.
  function TagEnd(text: string, i: nat): (j: nat)
    requires i <= |text|
    ensures i <= j <= |text|
  {
    var g := NextCh(text, NameEnd(text, i, |text|), |text|, '>');
    if g < |text| then g + 1 else g
  }

  // One token from the source: the end, a key that does not fit, or a token,
  // where the next one starts, and the key there.
  datatype Scan = AtEnd | Overflow | Scanned(token: Token, pos: nat, key: string)

  function ScanText(text: string, pos: nat, key: string): (r: Scan)
    requires pos <= |text|
  {
    var j := PastContent(text, pos, |text|);
    Scanned(ValueToken(key, Raw(text[pos..j])), j, key)
  }

  function ScanOpen(text: string, pos: nat, key: string): (r: Scan)
    requires pos < |text|
  {
    var name := text[pos + 1..NameEnd(text, pos + 1, |text|)];
    var j := TagEnd(text, pos + 1);
    if |key| + 1 + |name| > KEY_MAX then Overflow
    else Scanned(Token(TokOpen, Ext(key, name), Raw(text[pos..j])), j, Ext(key, name))
  }

  function ScanClose(text: string, pos: nat, key: string): (r: Scan)
    requires pos + 2 <= |text|
  {
    var j := TagEnd(text, pos + 2);
    Scanned(Token(TokClose, key, Raw(text[pos..j])), j, ParentKey(key))
  }

  // init is unset until the leading text, if only an empty one, has been sent.
  function ScanToken(text: string, pos: nat, key: string, init: bool): (r: Scan)
    requires pos <= |text|
    ensures r.Scanned? ==> pos <= r.pos <= |text|
    ensures r.Scanned? && init ==> pos < r.pos
    ensures r.Scanned? ==> r.token.kind != TokEof
  {
    if pos == |text| then AtEnd
    else if text[pos] != '<' || !init then ScanText(text, pos, key)
    else if pos + 1 == |text| then AtEnd
    else if text[pos + 1] == '/' then ScanClose(text, pos, key)
    else ScanOpen(text, pos, key)
  }

  // All tokens still to come, and whether every key fits.
  datatype Stream = Stream(toks: seq<Token>, ok: bool)

  function Source(text: string, pos: nat, key: string, init: bool): (r: Stream)
    requires pos <= |text|
    decreases |text| - pos, !init
  {
    match ScanToken(text, pos, key, init)
    case AtEnd => Stream([], true)
    case Overflow => Stream([], false)
    case Scanned(t, p, k) =>
      var s := Source(text, p, k, true);
      Stream([t] + s.toks, s.ok)
  }

  // The token stream of a whole document.
  function SourceOf(text: string): Stream {
    Source(text, 0, "", false)
  }

  class XmlState {
    const cursor: Cursor
    var key: string
    var init: bool

    ghost predicate Valid()
      reads this, cursor
    {
      cursor.Valid() && cursor.end == |cursor.text|
    }

    constructor (text: string)
      ensures Valid() && fresh(cursor)
      ensures cursor.text == text && cursor.pos == 0 && key == "" && !init
    {
      cursor := new Cursor(text, 0, |text|);
      key, init := "", false;
    }

    // Past the tag name and the tag; the name.
    method EatTagName() returns (name: string)
      requires Valid()
      modifies cursor`pos
      ensures Valid()
      ensures name == cursor.text[old(cursor.pos)..NameEnd(cursor.text, old(cursor.pos), cursor.end)]
      ensures cursor.pos == TagEnd(cursor.text, old(cursor.pos))
    {
      var c := cursor;
      var tag := c.pos;
      while !c.AtEof() && c.text[c.pos] != '>' && !IsSpace(c.text[c.pos])
        invariant Valid() && tag <= c.pos
        invariant NameEnd(c.text, c.pos, c.end) == NameEnd(c.text, tag, c.end)
        decreases c.end - c.pos
      {
        c.pos := c.pos + 1;
      }
      name := c.text[tag..c.pos];
      c.SkipToCh('>');
      var _ := c.EatCh('>');
    }

    // The next token; None when the key would not fit.
    method Tokenize() returns (r: Option<Token>)
      requires Valid()
      modifies this, cursor`pos
      ensures Valid()
      ensures
        var s := ScanToken(cursor.text, old(cursor.pos), old(key), old(init));
        match s
        case AtEnd => r == Some(EofToken) && key == old(key) && init == old(init)
        case Overflow => r == None
        case Scanned(t, p, k) => r == Some(t) && cursor.pos == p && key == k && init
    {
      hide PastContent, TagEnd, NameEnd, ParentKey;
      var c := cursor;
      var value := c.pos;
      if c.AtEof() {
        return Some(EofToken);
      }
      if c.text[c.pos] != '<' || !init {
        c.SkipContent();
        init := true;
        return Some(ValueToken(key, Raw(c.text[value..c.pos])));
      }
      c.pos := c.pos + 1;
      if c.AtEof() {
        return Some(EofToken);
      }
      if c.text[c.pos] == '/' {
        c.pos := c.pos + 1;
        var _ := EatTagName();
        r := Some(Token(TokClose, key, Raw(c.text[value..c.pos])));
        key := ParentKey(key);
        return;
      }
      var tag := EatTagName();
      if |key| + 1 + |tag| > KEY_MAX {
        return None;
      }
      key := Ext(key, tag);
      r := Some(Token(TokOpen, key, Raw(c.text[value..c.pos])));
    }
  }
}
