// Documents as trees: the meaning of the text that the parser works on.
module Tree {
  import opened Chars
  import opened KeyPath
  import opened Cursors
  import opened Codec

  // A piece of text: bytes of the source, or a value given by the user.
  datatype Chunk = Raw(s: string) | User(s: string)

  // The content of an element: text and child elements, in order.
  datatype Items =
    | Nil
    | Txt(chunk: Chunk, rest: Items)
    | El(tag: string, kids: Items, rest: Items)

  function Bytes(c: Chunk): string {
    match c
    case Raw(s) => s
    case User(s) => Encode(s)
  }

  function OpenTag(tag: string): string {
    "<" + tag + ">"
  }

  function CloseTag(tag: string): string {
    "</" + tag + ">"
  }

  function Ser(items: Items): string {
    match items
    case Nil => ""
    case Txt(c, rest) => Bytes(c) + Ser(rest)
    case El(tag, kids, rest) => OpenTag(tag) + Ser(kids) + CloseTag(tag) + Ser(rest)
  }

  function Concat(a: Items, b: Items): Items {
    match a
    case Nil => b
    case Txt(c, rest) => Txt(c, Concat(rest, b))
    case El(tag, kids, rest) => El(tag, kids, Concat(rest, b))
  }

  // The content of the first child <tag>.
  function Child(items: Items, tag: string): Option<Items> {
    match items
    case Nil => None
    case Txt(_, rest) => Child(rest, tag)
    case El(t, kids, rest) => if t == tag then Some(kids) else Child(rest, tag)
  }

  // Tree navigation: the content of the element a key names.
  function Nav(doc: Items, key: string): Option<Items>
    decreases |key|
  {
    var d := LastDot(key);
    if d < 0 then Child(doc, key)
    else
      match Nav(doc, key[..d])
      case None => None
      case Some(kids) => Child(kids, key[d + 1..])
  }

  // A tag name the parser can tell from text, comments and other names.
  predicate ValidTag(tag: string) {
    && tag != "" && tag[0] != '/' && tag[0] != '!' && tag[0] != '?'
    && (forall i :: 0 <= i < |tag| ==> tag[i] !in "<>." && !IsSpace(tag[i]))
  }

  // Text that cursor_skip_content passes over: no '<' but in whole comments and
  // processing instructions.
  predicate QuietFrom(t: string, i: nat)
    requires i <= |t|
    decreases |t| - i
  {
    if i == |t| then true
    else if t[i] != '<' then QuietFrom(t, i + 1)
    else if At(t, i, |t|, COMMENT) then
      var j := NextPat(t, i + 4, |t|, COMMENT_END);
      j < |t| && QuietFrom(t, j)
    else if At(t, i, |t|, INSTRUCTION) then
      var j := NextPat(t, i + 2, |t|, INSTRUCTION_END);
      j < |t| && QuietFrom(t, j)
    else false
  }

  predicate Quiet(t: string) {
    QuietFrom(t, 0)
  }

  // Content whose serialization the lookup reads back as the same tree.
  predicate ValidItems(items: Items) {
    match items
    case Nil => true
    case Txt(c, rest) => Quiet(Bytes(c)) && ValidItems(rest)
    case El(tag, kids, rest) => ValidTag(tag) && ValidItems(kids) && ValidItems(rest)
  }
}
