// The bounded text cursor (mxml_cursor.c) and where each of its moves ends.
module Cursors {
  import opened Chars

  const COMMENT := "<!--"
  const COMMENT_END := "-->"
  const INSTRUCTION := "<?"
  const INSTRUCTION_END := "?>"
  const CLOSING := "</"

  // Past text, comments and processing instructions: the next tag, or end.
  function PastContent(text: string, i: nat, end: nat): (j: nat)
    requires i <= end <= |text|
    ensures i <= j <= end
    ensures j < end ==> text[j] == '<'
    decreases end - i
  {
    if i == end then i
    else if text[i] != '<' then PastContent(text, i + 1, end)
    else if At(text, i, end, COMMENT) then
      PastContent(text, NextPat(text, i + 4, end, COMMENT_END), end)
    else if At(text, i, end, INSTRUCTION) then
      PastContent(text, NextPat(text, i + 2, end, INSTRUCTION_END), end)
    else i
  }

  // From a tag at i, with depth elements open already: the next "</" that closes
  // none of those nor anything opened on the way; or end.
  function ToCloseFrom(text: string, i: nat, end: nat, depth: nat): (j: nat)
    requires i <= end <= |text|
    requires i < end ==> text[i] == '<'
    ensures i <= j <= end
    decreases end - i
  {
    if i == end then end
    else
      var next := PastContent(text, NextCh(text, i, end, '>'), end);
      if !At(text, i, end, CLOSING) then ToCloseFrom(text, next, end, depth + 1)
      else if depth == 0 then i
      else ToCloseFrom(text, next, end, depth - 1)
  }

  // cursor_skip_to_close: the next "</" that closes nothing opened on the way.
  function ToClose(text: string, i: nat, end: nat): (j: nat)
    requires i <= end <= |text|
    ensures i <= j <= end
  {
    ToCloseFrom(text, PastContent(text, i, end), end, 0)
  }

  class Cursor {
    const text: string
    var pos: nat
    const end: nat

    ghost predicate Valid()
      reads this`pos
    {
      pos <= end <= |text|
    }

    constructor (text: string, pos: nat, end: nat)
      requires pos <= end <= |text|
      ensures this.text == text && this.pos == pos && this.end == end && Valid()
    {
      this.text, this.pos, this.end := text, pos, end;
    }

    predicate AtEof()
      reads this`pos
    {
      pos == end
    }

    predicate IsAt(s: string)
      requires Valid()
      reads this`pos
    {
      At(text, pos, end, s)
    }

    // cursor_eatn and cursor_eat
    method Eat(s: string) returns (b: bool)
      requires Valid()
      modifies this`pos
      ensures Valid() && b == At(text, old(pos), end, s)
      ensures pos == old(pos) + if b then |s| else 0
    {
      b := IsAt(s);
      if b { pos := pos + |s|; }
    }

    method EatCh(ch: char) returns (b: bool)
      requires Valid()
      modifies this`pos
      ensures Valid() && b == (old(pos) < end && text[old(pos)] == ch)
      ensures pos == old(pos) + if b then 1 else 0
    {
      b := !AtEof() && text[pos] == ch;
      if b { pos := pos + 1; }
    }

    method EatWhite() returns (b: bool)
      requires Valid()
      modifies this`pos
      ensures Valid() && pos == PastWhite(text, old(pos), end)
      ensures b == (pos > old(pos))
    {
      if AtEof() || !IsSpace(text[pos]) {
        return false;
      }
      pos := pos + 1;
      while !(AtEof() || !IsSpace(text[pos]))
        invariant Valid() && old(pos) < pos
        invariant PastWhite(text, pos, end) == PastWhite(text, old(pos), end)
        decreases end - pos
      {
        pos := pos + 1;
      }
      b := true;
    }

    method SkipTo(s: string)
      requires Valid() && s != ""
      modifies this`pos
      ensures Valid() && pos == NextPat(text, old(pos), end, s)
    {
      while pos + |s| <= end && !IsAt(s)
        invariant Valid() && old(pos) <= pos
        invariant NextPat(text, pos, end, s) == NextPat(text, old(pos), end, s)
        decreases end - pos
      {
        pos := pos + 1;
      }
      if !IsAt(s) { pos := end; }
    }

    method SkipToCh(ch: char)
      requires Valid()
      modifies this`pos
      ensures Valid() && pos == NextCh(text, old(pos), end, ch)
    {
      while !AtEof() && text[pos] != ch
        invariant Valid() && old(pos) <= pos
        invariant NextCh(text, pos, end, ch) == NextCh(text, old(pos), end, ch)
        decreases end - pos
      {
        pos := pos + 1;
      }
    }

    method SkipContent()
      requires Valid()
      modifies this`pos
      ensures Valid() && pos == PastContent(text, old(pos), end)
    {
      while !AtEof()
        invariant Valid() && old(pos) <= pos
        invariant PastContent(text, pos, end) == PastContent(text, old(pos), end)
        decreases end - pos
      {
        if text[pos] != '<' {
          pos := pos + 1;
          continue;
        }
        var comment := Eat(COMMENT);
        if comment {
          SkipTo(COMMENT_END);
          continue;
        }
        var instruction := Eat(INSTRUCTION);
        if instruction {
          SkipTo(INSTRUCTION_END);
        } else {
          break;
        }
      }
    }

    method SkipToClose()
      requires Valid()
      modifies this`pos
      ensures Valid() && pos == ToClose(text, old(pos), end)
    {
      hide PastContent, NextCh, At;
      var depth: nat := 0;
      SkipContent();
      while !AtEof()
        invariant Valid() && old(pos) <= pos && (pos < end ==> text[pos] == '<')
        invariant ToCloseFrom(text, pos, end, depth) == ToClose(text, old(pos), end)
        decreases end - pos
      {
        if IsAt(CLOSING) {
          if depth == 0 {
            return;
          }
          depth := depth - 1;
        } else {
          depth := depth + 1;
        }
        SkipToCh('>');
        SkipContent();
      }
    }
  }
}
