// A list so long named that its total's key just fills the buffer: "t[+]" then still
// expands, and appending it returns success, but records neither item nor total.
module PlusRun {
  import opened Chars
  import opened KeyPath
  import opened Decimal
  import opened DocFind
  import opened MxmlInt
  import opened Find
  import opened Ekey
  import opened Api
  import opened Tree
  import opened TreeText
  import opened TreeTokens
  import opened EditNav
  import opened Reachable
  import opened ApiReach
  import opened RunAgreement
  import opened Laws
  import opened Lists

  // "a.bb...b.t", with room for the key of the list's item, and one character too few
  // for that of its total.
  const LONG_NAME: string := seq(245, _ => 'b')
  const LONG_LIST: string := "a." + LONG_NAME + ".t"

  lemma LongListShape()
    ensures DottedKey(LONG_LIST) && |LONG_LIST| == 249 && LastDot(LONG_LIST) == 247 && LONG_LIST[248] == 't'
    ensures LastTag(LONG_LIST) == "t" && !Has(LONG_LIST, '[') && !Has(LONG_LIST, '>')
  {
    hide LastDot;
    var k := LONG_LIST;
    assert k[0] == 'a' && k[1] == '.' && k[247] == '.' && k[248] == 't' && forall i :: 2 <= i < 247 ==> k[i] == 'b';
    assert LastDot(k) == 247;
    assert k[248..] == "t";
  }

  // What its brackets stand for where it has no total.
  lemma LongBrackets(text: string, es: seq<Edit>)
    requires !Found(text, es, LONG_LIST + "s" + ".total")
    ensures Expand(text, es, LONG_LIST + PLUS) == Expanded(LONG_LIST + "s" + ".t1")
    ensures Expand(text, es, LONG_LIST + WHOLE) == Expanded(LONG_LIST + "s")
  {
    hide ExpandFrom, Lookup, DottedKey, LastDot, Has;
    LongListShape();
    var base, pkey, wkey := LONG_LIST, LONG_LIST + PLUS, LONG_LIST + WHOLE;
    ExpandStart(text, es, pkey, base);
    ExpandStart(text, es, wkey, base);
    LongPlus(text, es, base, pkey);
    LongWhole(text, es, base, wkey);
    BracketEnds(text, es, pkey, 249, 248, base);
    BracketEnds(text, es, wkey, 249, 248, base);
  }

  lemma LongPlus(text: string, es: seq<Edit>, base: string, key: string)
    requires |base| == 249 && base[248] == 't' && key == base + PLUS && !Found(text, es, base + "s" + ".total")
    ensures Bracket(text, es, key, 249, 248, base) == Piece(base + "s" + ".t1", 252)
  {
    hide Lookup;
    assert key[248..249] == "t" && key[249] == '[' && key[250] == '+' && key[251] == ']';
    assert ToDec(1) == "1";
    assert TotalOf(text, es, base + "s" + ".total") == 0;
    assert base + "s" + "." + "t" + "1" == base + "s" + ".t1";
  }

  lemma LongWhole(text: string, es: seq<Edit>, base: string, key: string)
    requires |base| == 249 && key == base + WHOLE
    ensures Bracket(text, es, key, 249, 248, base) == Piece(base + "s", 252)
  {
    hide TotalOf, PastDigits, ToDec;
    assert key[249] == '[' && key[250] == '*' && key[251] == ']';
  }

  const LONG_ELEMENT: string := "a." + LONG_NAME

  // Nothing is inside "a" in "<a></a>".
  lemma LongMissing()
    ensures SourceDoc(SMALL_DOC) && ValidEdits(Ser(SMALL_DOC), []) && !Found(Ser(SMALL_DOC), [], LONG_ELEMENT)
  {
    hide FindNoEdit, LastDot, Ser, SourceDoc, Nav;
    TopKey();
    SourceDocValid(SMALL_DOC);
    assert !Has(LONG_ELEMENT, '>') by { assert forall i :: 2 <= i < |LONG_ELEMENT| ==> LONG_ELEMENT[i] == 'b'; }
    assert LONG_ELEMENT == Ext("a", LONG_NAME);
    assert Nav(SMALL_DOC, "a") == Some(Nil) by { NavRoot(); }
    NavExt(SMALL_DOC, "a", LONG_NAME);
    FindRefinesNav(Ser(SMALL_DOC), SMALL_DOC, LONG_ELEMENT);
  }

  lemma InsideMissing(q: string)
    requires Rooted(q) && SelfOrChild(q, LONG_ELEMENT)
    ensures !Found(Ser(SMALL_DOC), [], q)
  {
    hide Lookup, Ser, SourceDoc, SelfOrChild;
    LongMissing();
    if Found(Ser(SMALL_DOC), [], q) {
      AncestorFound(Ser(SMALL_DOC), [], q, LONG_ELEMENT);
      assert false;
    }
  }

  lemma LongKeys()
    ensures
      var t, k := LONG_LIST + "s" + ".total", LONG_LIST + "s" + ".t1";
      && Rooted(t) && Rooted(k) && SelfOrChild(t, LONG_ELEMENT) && SelfOrChild(k, LONG_ELEMENT)
      && |t| == KEY_MAX && CleanKey(LONG_LIST + PLUS)
  {
    var n, key := LONG_NAME, LONG_LIST + PLUS;
    assert forall i :: 0 <= i < |n| ==> n[i] == 'b';
    assert LONG_LIST + "s" + ".total" == LONG_ELEMENT + (".ts" + ".total");
    assert LONG_LIST + "s" + ".t1" == LONG_ELEMENT + (".ts" + ".t1");
    assert forall i :: 2 <= i < 247 ==> key[i] == 'b';
    assert key[248..] == "t[+]";
    assert forall i :: 248 <= i < |key| ==> key[i] == "t[+]"[i - 248];
  }

  // The item's key, and the answer when it is appended.
  lemma PlusDropped(value: string)
    ensures SourceDoc(SMALL_DOC) && CleanKey(LONG_LIST + PLUS)
    ensures
      var text, k := Ser(SMALL_DOC), LONG_LIST + "s" + ".t1";
      var o := DoAppend(text, [], LONG_LIST + PLUS, value);
      && o.edits == Run(text, [CallAppend(LONG_LIST + PLUS, value)]) && o.status == Ok
      && Expand(text, [], LONG_LIST + PLUS) == Expanded(k) && !Found(text, o.edits, k)
  {
    hide ExpandFrom, Lookup, Ser, SourceDoc, DoAppend, Rooted, SelfOrChild, CleanKey, DottedKey, LastDot, Has, NextPat,
         TotalKey;
    var text, key, k := Ser(SMALL_DOC), LONG_LIST + PLUS, LONG_LIST + "s" + ".t1";
    LongMissing();
    LongKeys();
    InsideMissing(LONG_LIST + "s" + ".total");
    InsideMissing(k);
    LongBrackets(text, []);
    LongTotal(text);
    AppendAny(text, [], key, value, k);
    var c := CallAppend(key, value);
    assert [c][..0] == [];
    assert Run(text, [c]) == Answer(text, [], c).edits;
  }

  lemma LongTotal(text: string)
    requires Expand(text, [], LONG_LIST + WHOLE) == Expanded(LONG_LIST + "s")
    ensures PlusTotal(text, [], LONG_LIST + PLUS) == Some(LONG_LIST + "s" + ".total")
  {
    hide ExpandFrom, NextPat, DottedKey, LastDot, Has;
    LongListShape();
    FirstPlusAt(LONG_LIST, 0);
    assert (LONG_LIST + PLUS)[..249] == LONG_LIST;
  }
}
