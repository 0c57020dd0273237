// Tags with white space after their names, and whatever follows it up to the '>', as
// attributes do: the lookup and the tokenizer take them as they take the bare tags.
module SpacedTags {
  import opened Chars
  import opened KeyPath
  import opened DocFind
  import opened MxmlInt
  import opened Tree
  import opened TreeText
  import opened Tokens
  import opened Tokenizer
  import opened TreeTokens

  // Nothing, or white space and anything but '>'.
  predicate Trailing(ws: string) {
    (ws != "" ==> IsSpace(ws[0])) && forall i :: 0 <= i < |ws| ==> ws[i] != '>'
  }

  // A name, what may follow it, and '>' at i.
  ghost predicate NameAt(text: string, i: nat, tag: string, ws: string) {
    At(text, i, |text|, tag + ws + ">") && ValidTag(tag) && Trailing(ws)
  }

  lemma NameChars(text: string, i: nat, tag: string, ws: string)
    requires NameAt(text, i, tag, ws)
    ensures
      var b := i + |tag|;
      var g := b + |ws|;
      && g < |text| && text[g] == '>'
      && (forall k :: i <= k < b ==> text[k] == tag[k - i] && text[k] != '>' && !IsSpace(text[k]))
      && (b < g ==> IsSpace(text[b])) && (forall k :: b <= k < g ==> text[k] != '>')
  {
    hide At, IsSpace;
    var t := tag + ws + ">";
    AtChars(text, i, |text|, t);
    GreaterIsNoSpace();
    var b := i + |tag|;
    var g := b + |ws|;
    assert t[|tag| + |ws|] == '>';
    assert text[i + (|tag| + |ws|)] == '>';
    forall k | i <= k < b
      ensures text[k] == tag[k - i]
    {
      assert text[i + (k - i)] == t[k - i];
    }
    forall k | b <= k < g
      ensures text[k] == ws[k - b]
    {
      assert text[i + (k - i)] == t[k - i];
    }
  }

  lemma GreaterIsNoSpace()
    ensures !IsSpace('>')
  {
  }

  lemma {:induction false} WhiteEnds(text: string, from: nat, g: nat)
    requires from <= g < |text| && !IsSpace(text[g])
    ensures from <= PastWhite(text, from, |text|) <= g
    ensures from < g && IsSpace(text[from]) ==> from < PastWhite(text, from, |text|)
    decreases g - from
  {
    if from == g || !IsSpace(text[from]) {
    } else {
      WhiteEnds(text, from + 1, g);
    }
  }

  // The lookup takes such a tag for the wanted one exactly when the names are equal, and
  // then the content begins after its '>'.
  lemma SpacedOpens(text: string, i: nat, tag: string, ws: string, q: string)
    requires i < |text| && NameAt(text, i + 1, tag, ws) && ValidTag(q)
    ensures OpensNamed(text, i, |text|, q) <==> q == tag
    ensures q == tag ==> ContentStart(text, i, |text|, q) == i + 1 + |tag| + |ws| + 1
  {
    hide PastWhite, IsSpace;
    NameChars(text, i + 1, tag, ws);
    GreaterIsNoSpace();
    var b := i + 1 + |tag|;
    var g := b + |ws|;
    WhiteEnds(text, b, g);
    if q == tag {
      assert text[i + 1..b] == tag;
      assert ws == "" ==> text[b..b + 1] == ">";
    } else if OpensNamed(text, i, |text|, q) {
      OtherName(text, i, tag, ws, q);
      assert false;
    }
  }

  // A different name does not end where the tag's does.
  lemma OtherName(text: string, i: nat, tag: string, ws: string, q: string)
    requires i < |text| && NameAt(text, i + 1, tag, ws) && ValidTag(q) && q != tag
    ensures !OpensNamed(text, i, |text|, q)
  {
    hide IsSpace, ValidTag, NameAt;
    NameChars(text, i + 1, tag, ws);
    SpaceOrEnd(text, i + 1, |tag|, |ws|);
    NoSuchChars(q);
    if At(text, i + 1, |text|, q) {
      AtChars(text, i + 1, |text|, q);
      OtherLength(text, i + 1, tag, q);
      assert |q| < |tag|;
      assert text[i + 1 + |q|..i + 1 + |q| + 1] == [text[i + 1 + |q|]];
    }
  }

  lemma NoSuchChars(q: string)
    requires ValidTag(q)
    ensures forall k :: 0 <= k < |q| ==> q[k] != '>' && !IsSpace(q[k])
  {
  }

  lemma OtherLength(text: string, i: nat, tag: string, q: string)
    requires i + |q| <= |text| && i + |tag| <= |text|
    requires forall k :: 0 <= k < |q| ==> text[i + k] == q[k]
    requires forall k :: i <= k < i + |tag| ==> text[k] == tag[k - i]
    ensures |q| == |tag| ==> q == tag
  {
    assert forall k :: 0 <= k < |tag| ==> tag[k] == text[i + k];
  }

  // The tokenizer gives the element its name alone, and goes on after the '>'; so it does
  // for closing tags.
  lemma SpacedTokens(text: string, i: nat, tag: string, ws: string, key: string)
    requires i < |text| && text[i] == '<' && |key| + 1 + |tag| <= KEY_MAX
    ensures NameAt(text, i + 1, tag, ws) ==>
      var j := i + 1 + |tag| + |ws| + 1;
      && j <= |text|
      && ScanToken(text, i, key, true) == Scanned(Token(TokOpen, Ext(key, tag), Raw(text[i..j])), j, Ext(key, tag))
    ensures i + 1 < |text| && text[i + 1] == '/' && NameAt(text, i + 2, tag, ws) ==>
      var j := i + 2 + |tag| + |ws| + 1;
      && j <= |text|
      && ScanToken(text, i, Ext(key, tag), true) == Scanned(Token(TokClose, Ext(key, tag), Raw(text[i..j])), j, key)
  {
    hide NameAt, NameEnd, NextCh, IsSpace, Ext, ParentKey, ScanText, ValidTag;
    if NameAt(text, i + 1, tag, ws) {
      SpacedEnd(text, i + 1, tag, ws);
    }
    if i + 1 < |text| && text[i + 1] == '/' && NameAt(text, i + 2, tag, ws) {
      SpacedEnd(text, i + 2, tag, ws);
      NamedParent(key, tag, text, i + 2, ws);
    }
  }

  lemma NamedParent(key: string, tag: string, text: string, i: nat, ws: string)
    requires NameAt(text, i, tag, ws)
    ensures ParentKey(Ext(key, tag)) == key
  {
    ExtInverse(key, tag);
  }

  lemma SpacedEnd(text: string, i: nat, tag: string, ws: string)
    requires NameAt(text, i, tag, ws)
    ensures i + |tag| + |ws| + 1 <= |text| && text[i] != '/' && text[i..i + |tag|] == tag
    ensures NameEnd(text, i, |text|) == i + |tag| && TagEnd(text, i) == i + |tag| + |ws| + 1
  {
    hide IsSpace;
    NameChars(text, i, tag, ws);
    SpaceOrEnd(text, i, |tag|, |ws|);
    NameEnds(text, i, i + |tag|);
    assert text[i] == tag[0];
  }

  lemma SpaceOrEnd(text: string, i: nat, n: nat, m: nat)
    requires i + n + m < |text| && text[i + n + m] == '>'
    requires m > 0 ==> IsSpace(text[i + n])
    ensures text[i + n] == '>' || IsSpace(text[i + n])
  {
  }

  lemma {:induction false} NameEnds(text: string, from: nat, b: nat)
    requires from <= b < |text| && (text[b] == '>' || IsSpace(text[b]))
    requires forall k :: from <= k < b ==> text[k] != '>' && !IsSpace(text[k])
    ensures NameEnd(text, from, |text|) == b
    decreases b - from
  {
    if from == b {
    } else {
      NameEnds(text, from + 1, b);
    }
  }
}
