// Dotted keys: "a.b.c" names the element <c> inside <b> inside <a>.
module KeyPath {
  import opened Chars

  // memrchr(key, '.', keylen): the position of the last dot, or -1.
  function LastDot(key: string): (d: int)
    ensures -1 <= d < |key|
    ensures d >= 0 ==> key[d] == '.'
    ensures forall i :: d < i < |key| ==> key[i] != '.'
  {
    if key == "" then -1
    else if key[|key| - 1] == '.' then |key| - 1
    else LastDot(key[..|key| - 1])
  }

  // The part of a key before its last dot; empty for a key without one.
  function ParentKey(key: string): string {
    var d := LastDot(key);
    if d >= 0 then key[..d] else ""
  }

  // The part of a key after its last dot.
  function LastTag(key: string): string {
    key[LastDot(key) + 1..]
  }

  // The key of the child <tag> of the element with the given key.
  function Ext(key: string, tag: string): string {
    if key == "" then tag else key + "." + tag
  }

  // A key a lookup can start from: it has a first tag.
  predicate Rooted(key: string) {
    key != "" && key[0] != '.'
  }

  // is_key_self_or_child: child names the element parent, or one inside it.
  predicate SelfOrChild(child: string, parent: string) {
    && parent <= child
    && (|child| == |parent| || child[|parent|] == '.')
  }

  // The name of the document element a key starts from.
  function RootOf(key: string): string {
    key[..NextCh(key, 0, |key|, '.')]
  }

  lemma ExtInverse(key: string, tag: string)
    requires !Has(tag, '.')
    ensures LastTag(Ext(key, tag)) == tag
    ensures ParentKey(Ext(key, tag)) == key
  {
    var k := Ext(key, tag);
    var d := LastDot(k);
    if key != "" {
      assert k[|key|] == '.';
      assert forall i :: |key| < i < |k| ==> k[i] == tag[i - |key| - 1];
      assert d == |key|;
    }
  }

  lemma ParentExt(key: string)
    requires LastDot(key) > 0
    ensures Ext(ParentKey(key), LastTag(key)) == key
    ensures !Has(LastTag(key), '.')
  {
    var d := LastDot(key);
    assert key == key[..d] + [key[d]] + key[d + 1..];
  }

  lemma ParentPart(key: string)
    ensures |ParentKey(key)| <= |key| && key[..|ParentKey(key)|] == ParentKey(key)
  {
  }

  lemma RootedParent(key: string)
    requires Rooted(key) && LastDot(key) >= 0
    ensures LastDot(key) > 0 && Rooted(ParentKey(key))
  {
  }

  // What lies inside an element lies inside everything around it.
  lemma SelfOrChildParent(key: string, d: string)
    requires LastDot(key) >= 0
    ensures SelfOrChild(ParentKey(key), d) ==> SelfOrChild(key, d)
    ensures SelfOrChild(key, d) && key != d ==> SelfOrChild(ParentKey(key), d)
  {
    var p := ParentKey(key);
    assert p == key[..LastDot(key)];
    if SelfOrChild(key, d) && key != d {
      assert key[|d|] == '.';
      assert |d| <= LastDot(key);
      assert d == key[..|d|] == p[..|d|];
    }
  }

  lemma RootOfParent(key: string)
    requires Rooted(key) && LastDot(key) >= 0
    ensures RootOf(ParentKey(key)) == RootOf(key)
  {
    var p := ParentKey(key);
    SkipPrefix(key, LastDot(key));
  }

  lemma {:induction false} SkipPrefix(key: string, d: nat)
    requires d < |key| && key[d] == '.'
    ensures key[..d][..NextCh(key[..d], 0, d, '.')] == key[..NextCh(key, 0, |key|, '.')]
  {
    var n, m := NextCh(key, 0, |key|, '.'), NextCh(key[..d], 0, d, '.');
    assert m < d ==> key[m] == key[..d][m] == '.';
    assert n < d ==> key[..d][n] == key[n] == '.';
  }
}
