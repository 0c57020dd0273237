// Lookup in the source text, as find_key_noedit performs it when its cache is
// left out: the reference the cached search is proved against.
module DocFind {
  import opened Chars
  import opened KeyPath
  import opened Cursors

  // The characters text[start..stop].
  datatype Span = Span(start: nat, stop: nat)

  // The tag at i opens an element <tag>.
  predicate OpensNamed(text: string, i: nat, end: nat, tag: string)
    requires i < end <= |text|
  {
    && At(text, i + 1, end, tag)
    && var b := i + 1 + |tag|;
       At(text, b, end, ">") || PastWhite(text, b, end) > b
  }

  // Past the name of the element <tag> opened at i, and white space after it.
  function PastName(text: string, i: nat, end: nat, tag: string): (j: nat)
    requires i < end <= |text| && OpensNamed(text, i, end, tag)
    ensures i < j <= end
  {
    var b := i + 1 + |tag|;
    if At(text, b, end, ">") then b else PastWhite(text, b, end)
  }

  // Past the '<' at i, and past tag when it begins the name there.
  function PastShared(text: string, i: nat, end: nat, tag: string): (j: nat)
    requires i < end <= |text|
    ensures i < j <= end
  {
    if At(text, i + 1, end, tag) then i + 1 + |tag| else i + 1
  }

  // Where the content begins of the element <tag> opened at i.
  function ContentStart(text: string, i: nat, end: nat, tag: string): (j: nat)
    requires i < end <= |text| && OpensNamed(text, i, end, tag)
    ensures i < j <= end
  {
    var g := NextCh(text, PastName(text, i, end, tag), end, '>');
    if g < end then g + 1 else g
  }

  // Where the next tag is, after the whole element opened at i.
  function AfterElement(text: string, i: nat, end: nat, tag: string): (j: nat)
    requires i < end <= |text|
    ensures i < j <= end && (j < end ==> text[j] == '<')
  {
    var close := ToClose(text, NextCh(text, PastShared(text, i, end, tag), end, '>'), end);
    PastContent(text, NextCh(text, close, end, '>'), end)
  }

  // Hunt from a tag at i for the first child <tag>, over whole elements, up to
  // the closing tag of the parent or the end; the content of that child.
  function ScanChildren(text: string, i: nat, end: nat, tag: string): (r: Option<Span>)
    requires i <= end <= |text|
    requires i < end ==> text[i] == '<'
    ensures r.Some? ==> i <= r.value.start <= r.value.stop <= end
    decreases end - i
  {
    if i == end || At(text, i, end, CLOSING) then None
    else if OpensNamed(text, i, end, tag) then
      var start := ContentStart(text, i, end, tag);
      Some(Span(start, ToClose(text, start, end)))
    else ScanChildren(text, AfterElement(text, i, end, tag), end, tag)
  }

  // The content of the first child <tag> in text[i..end].
  function FindChild(text: string, i: nat, end: nat, tag: string): (r: Option<Span>)
    requires i <= end <= |text|
    ensures r.Some? ==> i <= r.value.start <= r.value.stop <= end
  {
    ScanChildren(text, PastContent(text, i, end), end, tag)
  }

  // The content of the element a key names.
  function FindNoEdit(text: string, key: string): (r: Option<Span>)
    ensures r.Some? ==> r.value.start <= r.value.stop <= |text|
    decreases |key|
  {
    var d := LastDot(key);
    if d < 0 then FindChild(text, 0, |text|, key)
    else
      var parent := FindNoEdit(text, key[..d]);
      if parent.None? then None
      else FindChild(text, parent.value.start, parent.value.stop, key[d + 1..])
  }
}
