// Key expansion (mxml_ekey.c): "a.b[4].c" is "a.bs.b4.c", and [#], [$] and [+]
// go by the total that is found for the list.
module Ekey {
  import opened Chars
  import opened KeyPath
  import opened Decimal
  import opened DocFind
  import opened MxmlInt
  import opened Find

  datatype Expansion = Expanded(key: string) | Refused(errno: Errno)

  // What "[...]" adds to the output, and where the key goes on.
  datatype Piece = Piece(out: string, next: nat) | NoPiece(errno: Errno)

  // A list's total: 0 when there is none that makes sense.
  function TotalOf(text: string, es: seq<Edit>, tkey: string): nat {
    match Lookup(text, es, tkey)
    case None => 0
    case Some(hit) => CountOf(Content(text, hit))
  }

  // Unsigned addition of 1.
  function Next(n: nat): nat {
    (n + 1) % (UINT_MAX + 1)
  }

  function CharAt(key: string, i: nat): char {
    if i < |key| then key[i] else '\0'
  }

  // The character at i is the last but a "]".
  predicate ClosesKey(key: string, i: nat) {
    CharAt(key, i + 1) == ']' && i + 2 == |key|
  }

  function Fits(out: string, next: nat): Piece {
    if |out| <= KEY_MAX then Piece(out, next) else NoPiece(ENOMEM)
  }

  // The number that [$] and [+] stand for.
  function IndexOf(text: string, es: seq<Edit>, tkey: string, c: char): nat {
    if c == '+' then Next(TotalOf(text, es, tkey)) else TotalOf(text, es, tkey)
  }

  // What stands in the bracket that opens at i, after the tag key[tagstart..i].
  function Inside(text: string, es: seq<Edit>, key: string, i: nat, tagstart: nat, out: string): (r: Piece)
    requires tagstart < i < |key|
    ensures r.Piece? ==> i < r.next
  {
    var tag, c := key[tagstart..i], CharAt(key, i + 1);
    var list := out + "s";
    if |list| > KEY_MAX then NoPiece(ENOMEM)
    else if '1' <= c <= '9' then
      var next := PastDigits(key, i + 1);
      Fits(list + "." + tag + key[i + 1..next], next)
    else if c == '*' then
      if ClosesKey(key, i + 1) then Piece(list, i + 2) else NoPiece(EINVAL)
    else if c == '#' || c == '$' || c == '+' then
      var total := list + ".total";
      if |total| > KEY_MAX then NoPiece(ENOMEM)
      else if c == '#' then
        if ClosesKey(key, i + 1) then Piece(total, i + 2) else NoPiece(EINVAL)
      else
        var item := list + "." + tag + ToDec(IndexOf(text, es, total, c));
        if |item| < KEY_MAX then Piece(item, i + 2) else NoPiece(ENOMEM)
    else NoPiece(EINVAL)
  }

  // A bracket ends in "]", and the key there or at a dot.
  function Bracket(text: string, es: seq<Edit>, key: string, i: nat, tagstart: nat, out: string): (r: Piece)
    requires tagstart < i < |key|
    ensures r.Piece? ==> i < r.next <= |key|
  {
    match Inside(text, es, key, i, tagstart, out)
    case NoPiece(errno) => NoPiece(errno)
    case Piece(o, n) =>
      if CharAt(key, n) != ']' || (n + 1 < |key| && key[n + 1] != '.') then NoPiece(EINVAL)
      else Piece(o, n + 1)
  }

  function ExpandFrom(text: string, es: seq<Edit>, key: string, i: nat, tagstart: nat, out: string): Expansion
    requires tagstart <= i <= |key|
    decreases |key| - i
  {
    if i == |key| then
      if |out| < KEY_MAX then Expanded(out) else Refused(ENOMEM)
    else if key[i] == '.' && i == tagstart then Refused(EINVAL)
    else if key[i] != '[' then
      if |out| >= KEY_MAX then Refused(ENOMEM)
      else ExpandFrom(text, es, key, i + 1, if key[i] == '.' then i + 1 else tagstart, out + [key[i]])
    else if i == tagstart then Refused(EINVAL)
    else
      match Bracket(text, es, key, i, tagstart, out)
      case NoPiece(errno) => Refused(errno)
      case Piece(o, n) => ExpandFrom(text, es, key, n, tagstart, o)
  }

  // expand_key as a function of the document and its edits.
  function Expand(text: string, es: seq<Edit>, key: string): Expansion {
    ExpandFrom(text, es, key, 0, 0, "")
  }

  // The total that [$] and [+] go by.
  method ReadTotal(m: Mxml, tkey: string) returns (total: nat)
    requires m.Valid() && Rooted(tkey)
    modifies m`cacheNext, m.cache
    ensures m.Valid() && total == TotalOf(m.text, m.edits, tkey)
  {
    var hit := FindKey(m, tkey);
    if hit.None? {
      return 0;
    }
    var n := ParseUintOf(Content(m.text, hit.value));
    total := if n.Some? then n.value else 0;
  }

  // OUTSTR: appends s to the buffer while there is room.
  method OutStr(out: string, s: string) returns (ok: bool, b: string)
    requires |out| <= KEY_MAX
    ensures ok == (|out| + |s| <= KEY_MAX)
    ensures ok ==> b == out + s
  {
    b := out;
    for w := 0 to |s|
      invariant b == out + s[..w] && |b| <= KEY_MAX
    {
      if |b| >= KEY_MAX {
        return false, b;
      }
      b := b + [s[w]];
    }
    assert s[..|s|] == s;
    ok := true;
  }

  // "[123]": the tag, and digits up to the bracket's end.
  method OutIndex(list: string, key: string, i: nat, tagstart: nat) returns (r: Piece)
    requires tagstart < i < |key| && |list| <= KEY_MAX
    ensures
      var next := PastDigits(key, i + 1);
      r == Fits(list + "." + key[tagstart..i] + key[i + 1..next], next)
  {
    var ok, b := OutStr(list, ".");
    if !ok {
      return NoPiece(ENOMEM);
    }
    ok, b := OutStr(b, key[tagstart..i]);
    if !ok {
      return NoPiece(ENOMEM);
    }
    var n := i + 1;
    ghost var next := PastDigits(key, i + 1);
    while n < |key| && IsDigit(key[n])
      invariant i + 1 <= n <= next && PastDigits(key, n) == next
      invariant b == list + "." + key[tagstart..i] + key[i + 1..n] && |b| <= KEY_MAX
    {
      if |b| >= KEY_MAX {
        return NoPiece(ENOMEM);
      }
      b := b + [key[n]];
      n := n + 1;
    }
    r := Piece(b, n);
  }

  // "[#]", "[$]" and "[+]": the list's total, or the item it counts to.
  method OutTotal(m: Mxml, list: string, key: string, i: nat, tagstart: nat) returns (r: Piece)
    requires m.Valid() && Rooted(list)
    requires tagstart < i < |key| && |list| <= KEY_MAX
    requires CharAt(key, i + 1) == '#' || CharAt(key, i + 1) == '$' || CharAt(key, i + 1) == '+'
    modifies m`cacheNext, m.cache
    ensures m.Valid()
    ensures r ==
      var tag, c, total := key[tagstart..i], CharAt(key, i + 1), list + ".total";
      if |total| > KEY_MAX then NoPiece(ENOMEM)
      else if c == '#' then
        if ClosesKey(key, i + 1) then Piece(total, i + 2) else NoPiece(EINVAL)
      else
        var item := list + "." + tag + ToDec(IndexOf(m.text, m.edits, total, c));
        if |item| < KEY_MAX then Piece(item, i + 2) else NoPiece(ENOMEM)
  {
    hide TotalOf, ToDec;
    var ok, b := OutStr(list, ".");
    if !ok {
      return NoPiece(ENOMEM);
    }
    var save := b;
    ok, b := OutStr(b, "total");
    if !ok {
      return NoPiece(ENOMEM);
    }
    assert b == list + ".total";
    if key[i + 1] == '#' {
      if !ClosesKey(key, i + 1) {
        return NoPiece(EINVAL);
      }
      return Piece(b, i + 2);
    }
    var total := ReadTotal(m, b);
    if key[i + 1] == '+' {
      total := Next(total);
    }
    b := save;
    ok, b := OutStr(b, key[tagstart..i]);
    if !ok || |b| + |ToDec(total)| >= KEY_MAX {
      return NoPiece(ENOMEM);
    }
    r := Piece(b + ToDec(total), i + 2);
  }

  method OutBracket(m: Mxml, out: string, key: string, i: nat, tagstart: nat) returns (r: Piece)
    requires m.Valid() && Rooted(out) && tagstart < i < |key|
    modifies m`cacheNext, m.cache
    ensures m.Valid() && r == Inside(m.text, m.edits, key, i, tagstart, out)
  {
    hide IndexOf, ToDec, PastDigits;
    if |out| >= KEY_MAX {
      return NoPiece(ENOMEM);
    }
    var list := out + "s";
    var c := CharAt(key, i + 1);
    if '1' <= c <= '9' {
      r := OutIndex(list, key, i, tagstart);
      return;
    }
    if c == '*' {
      return if ClosesKey(key, i + 1) then Piece(list, i + 2) else NoPiece(EINVAL);
    }
    if c == '#' || c == '$' || c == '+' {
      r := OutTotal(m, list, key, i, tagstart);
      return;
    }
    r := NoPiece(EINVAL);
  }

  // expand_key
  method ExpandKey(m: Mxml, key: string) returns (r: Expansion)
    requires m.Valid()
    modifies m`cacheNext, m.cache
    ensures m.Valid() && r == Expand(m.text, m.edits, key)
    ensures r.Expanded? ==> |r.key| < KEY_MAX && (key != "" ==> Rooted(r.key))
  {
    hide Inside;
    var i, tagstart: nat := 0, 0;
    var b := "";
    while i < |key|
      invariant m.Valid() && tagstart <= i <= |key|
      invariant if i == 0 then b == "" else Rooted(b)
      invariant ExpandFrom(m.text, m.edits, key, i, tagstart, b) == Expand(m.text, m.edits, key)
      decreases |key| - i
    {
      if key[i] == '.' && i == tagstart {
        return Refused(EINVAL);
      }
      if key[i] != '[' {
        if |b| >= KEY_MAX {
          return Refused(ENOMEM);
        }
        b := b + [key[i]];
        if key[i] == '.' {
          tagstart := i + 1;
        }
        i := i + 1;
        continue;
      }
      if i == tagstart {
        return Refused(EINVAL);
      }
      var piece := OutBracket(m, b, key, i, tagstart);
      if piece.NoPiece? {
        return Refused(piece.errno);
      }
      var n := piece.next;
      if CharAt(key, n) != ']' || (n + 1 < |key| && key[n + 1] != '.') {
        return Refused(EINVAL);
      }
      InsideRooted(m.text, m.edits, key, i, tagstart, b);
      b := piece.out;
      i := n + 1;
    }
    r := if |b| < KEY_MAX then Expanded(b) else Refused(ENOMEM);
  }

  lemma InsideRooted(text: string, es: seq<Edit>, key: string, i: nat, tagstart: nat, out: string)
    requires tagstart < i < |key| && Rooted(out)
    ensures var r := Inside(text, es, key, i, tagstart, out); r.Piece? ==> Rooted(r.out)
  {
  }

  // A key that is not empty expands to one a lookup can start from.
  lemma {:induction false} ExpandFromRooted(text: string, es: seq<Edit>, key: string,
                                            i: nat, tagstart: nat, out: string)
    requires tagstart <= i <= |key| && (if i == 0 then out == "" && key != "" else Rooted(out))
    ensures
      var r := ExpandFrom(text, es, key, i, tagstart, out);
      r.Expanded? ==> Rooted(r.key) && |r.key| < KEY_MAX
    decreases |key| - i
  {
    hide Inside;
    if i < |key| && !(key[i] == '.' && i == tagstart) {
      if key[i] != '[' {
        if |out| < KEY_MAX {
          ExpandFromRooted(text, es, key, i + 1, if key[i] == '.' then i + 1 else tagstart, out + [key[i]]);
        }
      } else if i != tagstart {
        InsideRooted(text, es, key, i, tagstart, out);
        match Bracket(text, es, key, i, tagstart, out) {
          case NoPiece(_) =>
          case Piece(o, n) => ExpandFromRooted(text, es, key, n, tagstart, o);
        }
      }
    }
  }

  // A key that is dotted already: it has no brackets and no empty tag inside.
  predicate DottedKey(key: string) {
    && Rooted(key) && |key| < KEY_MAX && !Has(key, '[')
    && forall i :: 0 < i < |key| && key[i] == '.' ==> key[i - 1] != '.'
  }

  // Dotted text is copied.
  lemma {:induction false} ExpandUpTo(text: string, es: seq<Edit>, key: string, n: nat, i: nat)
    requires i <= n <= |key| && DottedKey(key[..n])
    ensures ExpandFrom(text, es, key, i, LastDot(key[..i]) + 1, key[..i])
         == ExpandFrom(text, es, key, n, LastDot(key[..n]) + 1, key[..n])
    decreases n - i
  {
    if i == n {
    } else {
      assert key[..n][i] == key[i] && key[i] != '[';
      assert key[..i] + [key[i]] == key[..i + 1];
      assert key[..i + 1][..i] == key[..i];
      if key[i] == '.' && i > 0 {
        assert key[..n][i - 1] == key[i - 1] == key[..i][i - 1];
      }
      ExpandUpTo(text, es, key, n, i + 1);
    }
  }

  lemma ExpandEnd(text: string, es: seq<Edit>, key: string)
    requires |key| < KEY_MAX
    ensures ExpandFrom(text, es, key, |key|, LastDot(key) + 1, key) == Expanded(key)
  {
  }
}
