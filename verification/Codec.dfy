// The three predefined entities: how a value is written (write_token) and how
// content is read back (unencode_xml).
module Codec {
  import opened Chars
  import opened Cursors

  predicate Special(c: char) {
    c == '<' || c == '>' || c == '&'
  }

  function EncodeChar(c: char): string {
    if c == '<' then "&lt;" else if c == '>' then "&gt;" else if c == '&' then "&amp;" else [c]
  }

  function Encode(s: string): string {
    if s == "" then "" else EncodeChar(s[0]) + Encode(s[1..])
  }

  // What the character after an ampersand stands for.
  function Entity(c: char): string {
    if c == 'l' then "<" else if c == 'g' then ">" else if c == 'a' then "&" else ""
  }

  // The text in s[i..] up to the first tag: entities are told apart by their
  // first letter and end at the next semicolon.
  function DecodeFrom(s: string, i: nat): string
    requires i <= |s|
    decreases |s| - i
  {
    if i == |s| then ""
    else if s[i] == '&' && i + 1 < |s| then
      var j := NextCh(s, i + 1, |s|, ';');
      Entity(s[i + 1]) + DecodeFrom(s, if j < |s| then j + 1 else j)
    else if s[i] == '<' then ""
    else [s[i]] + DecodeFrom(s, i + 1)
  }

  function Decode(s: string): string {
    DecodeFrom(s, 0)
  }

  // Decoding leaves a value alone: no '<', and no '&' with something after it.
  predicate Plain(v: string) {
    forall i :: 0 <= i < |v| ==> v[i] != '<' && (v[i] == '&' ==> i + 1 == |v|)
  }

  // Every entity of the text ends before the text does, or the text stops at a
  // comment: what follows the text does not change how the text decodes.
  predicate ClosedFrom(t: string, i: nat)
    requires i <= |t|
    decreases |t| - i
  {
    if i == |t| then true
    else if t[i] == '&' then
      i + 1 < |t| && var j := NextCh(t, i + 1, |t|, ';'); j < |t| && ClosedFrom(t, j + 1)
    else if t[i] == '<' then true
    else ClosedFrom(t, i + 1)
  }

  predicate Closed(t: string) {
    ClosedFrom(t, 0)
  }

  // A reader of text that knows the three entities and nothing else of the kind, and
  // refuses every other '&', '<' and '>'.
  function StrictRead(t: string): Option<string> {
    if t == "" then Some("")
    else if "&lt;" <= t then Before('<', StrictRead(t[4..]))
    else if "&gt;" <= t then Before('>', StrictRead(t[4..]))
    else if "&amp;" <= t then Before('&', StrictRead(t[5..]))
    else if t[0] == '&' || t[0] == '<' || t[0] == '>' then None
    else Before(t[0], StrictRead(t[1..]))
  }

  function Before(c: char, rest: Option<string>): Option<string> {
    match rest
    case None => None
    case Some(s) => Some([c] + s)
  }

  // A value's encoding is the one text that is read so as the value.
  lemma {:induction false} StrictExactly(t: string, v: string)
    ensures StrictRead(t) == Some(v) <==> t == Encode(v)
    decreases |t| + |v|
  {
    hide EncodeChar;
    if t == "" {
      EncodeLength(v);
    } else if v == "" {
    } else {
      StrictStep(t, v);
    }
  }

  lemma EncodeLength(v: string)
    ensures Encode(v) == "" <==> v == ""
  {
  }

  lemma StrictStep(t: string, v: string)
    requires t != "" && v != ""
    ensures StrictRead(t) == Some(v) <==> t == Encode(v)
    decreases |t| + |v|, 0
  {
    var e := EncodeChar(v[0]);
    assert v == [v[0]] + v[1..];
    if e <= t {
      var rest := t[|e|..];
      assert t == e + rest;
      StrictExactly(rest, v[1..]);
      StrictHead(t, v[0]);
    } else {
      StrictOther(t, v);
    }
  }

  lemma StrictHead(t: string, c: char)
    requires EncodeChar(c) <= t
    ensures StrictRead(t) == Before(c, StrictRead(t[|EncodeChar(c)|..]))
  {
    var e := EncodeChar(c);
    assert t[0] == e[0] && (Special(c) ==> t[1] == e[1]);
    assert "&lt;" <= t ==> t[0] == "&lt;"[0] && t[1] == "&lt;"[1];
    assert "&gt;" <= t ==> t[0] == "&gt;"[0] && t[1] == "&gt;"[1];
    assert "&amp;" <= t ==> t[0] == "&amp;"[0];
  }

  lemma StrictOther(t: string, v: string)
    requires t != "" && v != "" && !(EncodeChar(v[0]) <= t)
    ensures StrictRead(t) != Some(v) && t != Encode(v)
  {
    assert t[0] == [t[0]][0];
  }

  lemma {:induction false} EncodeConcat(a: string, b: string)
    ensures Encode(a + b) == Encode(a) + Encode(b)
  {
    if a == "" {
      assert a + b == b;
    } else {
      assert (a + b)[0] == a[0] && (a + b)[1..] == a[1..] + b;
      EncodeConcat(a[1..], b);
    }
  }

  lemma {:induction false} EncodeNothing(s: string)
    requires forall i :: 0 <= i < |s| ==> !Special(s[i])
    ensures Encode(s) == s
  {
    if s == "" {
    } else {
      EncodeNothing(s[1..]);
      assert s == [s[0]] + s[1..];
    }
  }

  // One encoded character is read back as that character.
  lemma DecodeChar(text: string, i: nat, c: char)
    requires At(text, i, |text|, EncodeChar(c))
    ensures i + |EncodeChar(c)| <= |text|
    ensures DecodeFrom(text, i) == [c] + DecodeFrom(text, i + |EncodeChar(c)|)
  {
    hide At, DecodeFrom;
    var e := EncodeChar(c);
    AtChars(text, i, |text|, e);
    DecodeStep(text, i);
    if Special(c) {
      assert e[0] == '&' && e[|e| - 1] == ';';
      assert text[i + (|e| - 1)] == ';' && text[i + 1] == e[1];
      forall k | i + 1 <= k < i + |e| - 1
        ensures text[k] != ';'
      {
        assert text[i + (k - i)] == e[k - i];
      }
      assert NextCh(text, i + 1, |text|, ';') == i + |e| - 1;
    } else {
      assert e[0] == c;
    }
  }

  lemma DecodeStep(s: string, i: nat)
    requires i < |s|
    ensures DecodeFrom(s, i) ==
      if s[i] == '&' && i + 1 < |s| then
        var j := NextCh(s, i + 1, |s|, ';');
        Entity(s[i + 1]) + DecodeFrom(s, if j < |s| then j + 1 else j)
      else if s[i] == '<' then ""
      else [s[i]] + DecodeFrom(s, i + 1)
  {
    hide NextCh, Entity;
  }

  // Encoded text is read back as it was, wherever it stands.
  lemma {:induction false} DecodeEncodedAt(text: string, i: nat, s: string)
    requires At(text, i, |text|, Encode(s))
    ensures i + |Encode(s)| <= |text|
    ensures DecodeFrom(text, i) == s + DecodeFrom(text, i + |Encode(s)|)
    decreases |s|
  {
    hide At, DecodeFrom, EncodeChar;
    AtChars(text, i, |text|, Encode(s));
    if s == "" {
    } else {
      var e := EncodeChar(s[0]);
      AtSplit(text, i, |text|, e, Encode(s[1..]));
      DecodeChar(text, i, s[0]);
      DecodeEncodedAt(text, i + |e|, s[1..]);
      assert [s[0]] + (s[1..] + DecodeFrom(text, i + |Encode(s)|)) == s + DecodeFrom(text, i + |Encode(s)|);
    }
  }

  // Decoding the encoding of any string returns it.
  lemma DecodeEncode(s: string)
    ensures Decode(Encode(s)) == s
  {
    hide DecodeFrom;
    var text := Encode(s);
    assert text[0..|text|] == text;
    DecodeEncodedAt(text, 0, s);
    DecodeEnd(text);
  }

  lemma DecodeEnd(s: string)
    ensures DecodeFrom(s, |s|) == ""
  {
  }

  // What decoding makes of an ampersand anywhere: with its name up to the semicolon, or
  // the end, it is a sign told by the first letter, or nothing; and text before it, with
  // no '&' and no '<', stays. An ampersand at the very end stays too.
  lemma EntityDecoded(x: string, name: string, y: string)
    requires forall i :: 0 <= i < |x| ==> x[i] != '&' && x[i] != '<'
    requires name != "" && !Has(name, ';')
    ensures
      var sign := if name[0] == 'l' then "<" else if name[0] == 'g' then ">" else if name[0] == 'a' then "&" else "";
      && Decode(x + "&" + name + ";" + y) == x + sign + Decode(y)
      && Decode(x + "&" + name) == x + sign && Decode(x + "&") == x + "&"
  {
    hide DecodeFrom, Decode;
    EndedEntity(x, name, y);
    OpenEntity(x, name);
    LoneAmpersand(x);
  }

  // The sign that an entity's name stands for, if any.
  function SignOf(name: string): string
    requires name != ""
  {
    if name[0] == 'l' then "<" else if name[0] == 'g' then ">" else if name[0] == 'a' then "&" else ""
  }

  // An entity at k, up to n.
  lemma EntityAt(t: string, k: nat, name: string)
    requires k + 1 + |name| <= |t| && t[k] == '&' && t[k + 1..k + 1 + |name|] == name && name != "" && !Has(name, ';')
    requires k + 1 + |name| < |t| ==> t[k + 1 + |name|] == ';'
    ensures
      var n := k + 1 + |name|;
      DecodeFrom(t, k) == SignOf(name) + DecodeFrom(t, if n < |t| then n + 1 else n)
  {
    hide DecodeFrom, Has, NextCh;
    NextSemicolon(t, k + 1, name);
    DecodeStep(t, k);
    assert t[k + 1] == t[k + 1..k + 1 + |name|][0];
  }

  lemma EndedEntity(x: string, name: string, y: string)
    requires forall i :: 0 <= i < |x| ==> x[i] != '&' && x[i] != '<'
    requires name != "" && !Has(name, ';')
    ensures Decode(x + "&" + name + ";" + y) == x + SignOf(name) + Decode(y)
  {
    hide DecodeFrom, Has, SignOf;
    var t := x + ("&" + name + (";" + y));
    var n := |x| + 1 + |name|;
    assert x + "&" + name + ";" + y == t;
    AfterAmpersand(t, x, name, ";" + y);
    assert t[n + 1..] == t[n..][1..] == y;
    DecodePlainly(t, x, 0);
    EntityAt(t, |x|, name);
    DecodeLater(t, n + 1);
    assert x[0..] == x;
    assert x + (SignOf(name) + Decode(y)) == x + SignOf(name) + Decode(y);
  }

  lemma OpenEntity(x: string, name: string)
    requires forall i :: 0 <= i < |x| ==> x[i] != '&' && x[i] != '<'
    requires name != "" && !Has(name, ';')
    ensures Decode(x + "&" + name) == x + SignOf(name)
  {
    hide DecodeFrom, Has, SignOf;
    var t := x + ("&" + name + "");
    assert x + "&" + name == t;
    AfterAmpersand(t, x, name, "");
    DecodePlainly(t, x, 0);
    EntityAt(t, |x|, name);
    DecodeEnd(t);
    assert x[0..] == x;
    assert x + (SignOf(name) + "") == x + SignOf(name);
  }

  lemma LoneAmpersand(x: string)
    requires forall i :: 0 <= i < |x| ==> x[i] != '&' && x[i] != '<'
    ensures Decode(x + "&") == x + "&"
  {
    hide DecodeFrom;
    var t := x + "&";
    DecodePlainly(t, x, 0);
    DecodeStep(t, |x|);
    DecodeEnd(t);
    assert x[0..] == x;
  }

  lemma AfterAmpersand(t: string, x: string, name: string, rest: string)
    requires t == x + ("&" + name + rest) && name != ""
    ensures |x| + 1 + |name| <= |t| && x <= t && t[|x|] == '&' && t[|x| + 1] == name[0]
    ensures t[|x| + 1..|x| + 1 + |name|] == name && t[|x| + 1 + |name|..] == rest
    ensures rest != "" ==> t[|x| + 1 + |name|] == rest[0]
  {
    var u := "&" + name + rest;
    assert t[|x|..] == u && u[1..1 + |name|] == name && u[1 + |name|..] == rest;
    assert t[|x|] == u[0] && t[|x| + 1] == u[1];
  }

  lemma NextSemicolon(t: string, i: nat, name: string)
    requires i + |name| <= |t| && t[i..i + |name|] == name && !Has(name, ';')
    requires i + |name| < |t| ==> t[i + |name|] == ';'
    ensures NextCh(t, i, |t|, ';') == i + |name|
  {
    var part := t[i..i + |name|];
    assert forall k :: i <= k < i + |name| ==> t[k] == part[k - i];
  }

  lemma {:induction false} DecodePlainly(t: string, x: string, i: nat)
    requires x <= t && i <= |x| && forall j :: 0 <= j < |x| ==> x[j] != '&' && x[j] != '<'
    ensures DecodeFrom(t, i) == x[i..] + DecodeFrom(t, |x|)
    decreases |x| - i
  {
    hide DecodeFrom;
    if i == |x| {
      assert x[i..] == "";
    } else {
      DecodeStep(t, i);
      DecodePlainly(t, x, i + 1);
      assert x[i..] == [x[i]] + x[i + 1..];
    }
  }

  // Decoding looks only ahead.
  lemma DecodeLater(t: string, n: nat)
    requires n <= |t|
    ensures DecodeFrom(t, n) == Decode(t[n..])
  {
    DecodeShifted(t, n, 0);
  }

  lemma {:induction false} DecodeShifted(t: string, n: nat, i: nat)
    requires n + i <= |t|
    ensures DecodeFrom(t, n + i) == DecodeFrom(t[n..], i)
    decreases |t| - n - i
  {
    hide DecodeFrom, Entity;
    var y := t[n..];
    if n + i == |t| {
      DecodeEnd(t);
      DecodeEnd(y);
    } else {
      DecodeStep(t, n + i);
      DecodeStep(y, i);
      if y[i] == '&' && i + 1 < |y| {
        var j, k := NextCh(t, n + i + 1, |t|, ';'), NextCh(y, i + 1, |y|, ';');
        assert k < |y| ==> t[n + k] == ';';
        assert j < |t| ==> y[j - n] == ';';
        assert j == n + k;
        DecodeShifted(t, n, if k < |y| then k + 1 else k);
      } else if y[i] != '<' {
        DecodeShifted(t, n, i + 1);
      }
    }
  }

  lemma EntityShort(c: char)
    ensures |Entity(c)| <= 1
  {
  }

  lemma {:induction false} DecodeLength(s: string, i: nat)
    requires i <= |s|
    ensures |DecodeFrom(s, i)| <= |s| - i
    decreases |s| - i
  {
    hide NextCh, Entity;
    if i == |s| {
    } else {
      if s[i] == '&' && i + 1 < |s| {
        var j := NextCh(s, i + 1, |s|, ';');
        EntityShort(s[i + 1]);
        DecodeLength(s, if j < |s| then j + 1 else j);
      } else if s[i] != '<' {
        DecodeLength(s, i + 1);
      }
    }
  }

  lemma {:induction false} PlainFrom(v: string, i: nat)
    requires i <= |v|
    ensures DecodeFrom(v, i) == v[i..] <==> forall k :: i <= k < |v| ==> v[k] != '<' && (v[k] == '&' ==> k + 1 == |v|)
    decreases |v| - i
  {
    hide DecodeFrom, Entity, NextCh;
    if i == |v| {
      DecodeEnd(v);
      assert v[i..] == "";
    } else {
      DecodeStep(v, i);
      assert v[i..] == [v[i]] + v[i + 1..];
      if v[i] == '&' && i + 1 < |v| {
        var j := NextCh(v, i + 1, |v|, ';');
        EntityShort(v[i + 1]);
        DecodeLength(v, if j < |v| then j + 1 else j);
      } else if v[i] != '<' {
        PlainFrom(v, i + 1);
      }
    }
  }

  // Reading an edit's raw value through the decoder gives the value back exactly
  // when the value is plain.
  lemma DecodeKeepsPlain(v: string)
    ensures Decode(v) == v <==> Plain(v)
  {
    PlainFrom(v, 0);
    assert v[0..] == v;
  }

  // Closed text decodes on its own when a tag, or nothing, follows it.
  lemma {:induction false} DecodeClosed(t: string, r: string, i: nat)
    requires i <= |t| && ClosedFrom(t, i) && (r == "" || r[0] == '<')
    ensures DecodeFrom(t + r, i) == DecodeFrom(t, i)
    decreases |t| - i
  {
    hide DecodeFrom;
    var s := t + r;
    if i == |t| {
      DecodeEnd(t);
      if r == "" {
        assert s == t;
      } else {
        DecodeStep(s, i);
      }
    } else {
      DecodeStep(s, i);
      DecodeStep(t, i);
      if t[i] == '&' {
        var j := NextCh(t, i + 1, |t|, ';');
        assert s[j] == ';' && forall k :: i + 1 <= k < j ==> s[k] == t[k];
        assert NextCh(s, i + 1, |s|, ';') == j;
        DecodeClosed(t, r, j + 1);
      } else if t[i] != '<' {
        DecodeClosed(t, r, i + 1);
      }
    }
  }

  lemma {:induction false} EncodedClosed(s: string, text: string, i: nat)
    requires At(text, i, |text|, Encode(s)) && i + |Encode(s)| == |text|
    ensures ClosedFrom(text, i)
    decreases |s|
  {
    hide At, NextCh, EncodeChar, Special;
    AtChars(text, i, |text|, Encode(s));
    CharEncoded(if s == "" then ' ' else s[0]);
    if s == "" {
    } else {
      var e := EncodeChar(s[0]);
      AtSplit(text, i, |text|, e, Encode(s[1..]));
      AtChars(text, i, |text|, e);
      EncodedClosed(s[1..], text, i + |e|);
      if Special(s[0]) {
        EntityEnds(s[0], text, i);
      } else {
        assert e[0] == s[0];
      }
    }
  }

  lemma CharEncoded(c: char)
    ensures EncodeChar(c) != "" && (!Special(c) ==> EncodeChar(c) == [c] && c != '<' && c != '&')
  {
  }

  lemma EntityEnds(c: char, text: string, i: nat)
    requires Special(c) && At(text, i, |text|, EncodeChar(c))
    ensures var e := EncodeChar(c);
      |e| >= 4 && i + |e| <= |text| && text[i] == '&' && NextCh(text, i + 1, |text|, ';') == i + |e| - 1
  {
    hide At, NextCh;
    var e := EncodeChar(c);
    AtChars(text, i, |text|, e);
    assert e[0] == '&' && e[|e| - 1] == ';';
    assert text[i + (|e| - 1)] == ';';
    forall k | i + 1 <= k < i + |e| - 1
      ensures text[k] != ';'
    {
      assert text[i + (k - i)] == e[k - i];
    }
  }

  lemma {:induction false} EncodeNoTag(s: string)
    ensures forall i :: 0 <= i < |Encode(s)| ==> Encode(s)[i] != '<' && Encode(s)[i] != '>'
  {
    if s == "" {
    } else {
      EncodeNoTag(s[1..]);
    }
  }

  // The OUT macro of unencode_xml_into.
  method Put(out: array?<char>, n: nat, ch: char) returns (next: nat)
    requires out != null ==> n < out.Length
    modifies if out == null then {} else {out}
    ensures next == n + 1
    ensures out != null ==> out[..n + 1] == old(out[..n]) + [ch]
  {
    if out != null {
      out[n] := ch;
    }
    next := n + 1;
  }

  // What the letter after an ampersand stands for goes out, if it is anything.
  method PutEntity(out: array?<char>, n: nat, letter: char) returns (next: nat)
    requires out != null ==> n + |Entity(letter)| <= out.Length
    modifies if out == null then {} else {out}
    ensures next == n + |Entity(letter)|
    ensures out != null ==> out[..next] == old(out[..n]) + Entity(letter)
  {
    next := n;
    if letter == 'l' {
      next := Put(out, n, '<');
    } else if letter == 'g' {
      next := Put(out, n, '>');
    } else if letter == 'a' {
      next := Put(out, n, '&');
    }
  }

  // unencode_xml_into: decodes content into out, or only counts when there is
  // no out. Both passes agree.
  method UnencodeInto(content: string, out: array?<char>) returns (n: nat)
    requires out != null ==> |Decode(content)| <= out.Length
    modifies if out == null then {} else {out}
    ensures n == |Decode(content)|
    ensures out != null ==> out[..n] == Decode(content)
  {
    hide DecodeFrom, Entity, NextCh, Decode;
    n := 0;
    var c := new Cursor(content, 0, |content|);
    ghost var done := "";
    DecodeWhole(content);
    while !c.AtEof()
      invariant c.Valid()
      invariant done + DecodeFrom(content, c.pos) == Decode(content)
      invariant n == |done| && (out != null ==> out[..n] == done)
      decreases c.end - c.pos
    {
      DecodeStep(content, c.pos);
      var ch := content[c.pos];
      c.pos := c.pos + 1;
      if ch == '&' && !c.AtEof() {
        ghost var e := Entity(content[c.pos]);
        n := PutEntity(out, n, content[c.pos]);
        c.SkipToCh(';');
        if !c.AtEof() {
          c.pos := c.pos + 1;
        }
        Regroup(done, e, DecodeFrom(content, c.pos));
        done := done + e;
      } else if ch == '<' {
        break;
      } else {
        Regroup(done, [ch], DecodeFrom(content, c.pos));
        n := Put(out, n, ch);
        done := done + [ch];
      }
    }
    DecodeEnd(content);
  }

  lemma DecodeWhole(s: string)
    ensures "" + DecodeFrom(s, 0) == Decode(s)
  {
    assert "" + DecodeFrom(s, 0) == Decode(s);
  }

  lemma Regroup(a: string, b: string, c: string)
    ensures a + (b + c) == (a + b) + c
  {
    assert a + (b + c) == (a + b) + c;
  }

  // unencode_xml: a buffer of just the right size, ended by a NUL.
  method UnencodeXml(content: string) returns (ret: array<char>)
    ensures fresh(ret) && ret.Length == |Decode(content)| + 1
    ensures ret[..ret.Length - 1] == Decode(content) && ret[ret.Length - 1] == '\0'
  {
    var retsz := UnencodeInto(content, null);
    ret := new char[retsz + 1];
    var _ := UnencodeInto(content, ret);
    ret[retsz] := '\0';
  }
}
