// The totals that key expansion goes by: what the editor counts for one, what is
// counted in the written document, and when the two are the same.
module Totals {
  import opened Chars
  import opened KeyPath
  import opened Decimal
  import opened Codec
  import opened DocFind
  import opened MxmlInt
  import opened Find
  import opened Ekey
  import opened Tree
  import opened TreeText
  import opened TreeTokens
  import opened Tokens
  import opened EditNav
  import opened Reachable
  import opened Write
  import opened Agreement
  import opened RunAgreement

  // What is counted in the written document for the total with the given key, said
  // of the lookup and of the source: nothing for a total with an element inside, or
  // one that is not written; else the user's value, or the source's text with what
  // deleted children leave to join it.
  ghost function WrittenTotal(doc: Items, es: seq<Edit>, t: string): nat {
    match Lookup(Ser(doc), es, t)
    case None => 0
    case Some(hit) =>
      if LiveRoot(es, RootOf(t)) || ChildStays(Ser(doc), es, t) then 0
      else
        match hit
        case EditValue(v) => CountOf(v)
        case DocSpan(_) => if Nav(doc, t).Some? then CountOf(JoinedLead(doc, es, t)) else 0
  }

  // What the editor counts is what is counted once it is written. The editor counts a
  // user's value whatever has been appended inside, and nothing for source text that
  // had an element inside, also when that has been deleted.
  ghost predicate CountsAlike(doc: Items, es: seq<Edit>, t: string) {
    match Lookup(Ser(doc), es, t)
    case None => true
    case Some(hit) =>
      if LiveRoot(es, RootOf(t)) || ChildStays(Ser(doc), es, t) then CountOf(Content(Ser(doc), hit)) == 0
      else hit.DocSpan? && Nav(doc, t).Some? && HasElement(Nav(doc, t).value) ==> CountOf(JoinedLead(doc, es, t)) == 0
  }

  lemma NoNumberWith(s: string, k: nat)
    requires k < |s| && !IsDigit(s[k]) && !IsSpace(s[k])
    ensures CountOf(s) == 0
  {
    hide ValueOf;
    ParseExactly(s);
  }

  lemma {:induction false} ElementInText(items: Items)
    requires HasElement(items)
    ensures exists k :: 0 <= k < |Ser(items)| && Ser(items)[k] == '<'
  {
    match items {
      case Txt(c, rest) =>
        ElementInText(rest);
        var k :| 0 <= k < |Ser(rest)| && Ser(rest)[k] == '<';
        assert Ser(items)[|Bytes(c)| + k] == '<';
      case El(tag, _, _) => assert Ser(items)[0] == '<';
    }
  }

  lemma ElementNoNumber(items: Items)
    requires HasElement(items)
    ensures CountOf(Ser(items)) == 0
  {
    hide Ser, HasElement, CountOf;
    ElementInText(items);
    var k :| 0 <= k < |Ser(items)| && Ser(items)[k] == '<';
    NoNumberWith(Ser(items), k);
  }

  lemma {:induction false} EncodedSpecial(s: string, i: nat)
    requires i < |s| && Special(s[i])
    ensures exists k :: 0 <= k < |Encode(s)| && Encode(s)[k] == '&'
  {
    hide Special;
    if Special(s[0]) {
      CharEscaped(s[0]);
      assert Encode(s)[0] == '&';
    } else {
      EncodedSpecial(s[1..], i - 1);
      var k :| 0 <= k < |Encode(s[1..])| && Encode(s[1..])[k] == '&';
      assert Encode(s)[|EncodeChar(s[0])| + k] == '&';
    }
  }

  lemma CharEscaped(c: char)
    requires Special(c)
    ensures EncodeChar(c) != "" && EncodeChar(c)[0] == '&'
  {
  }

  // Encoding makes no number of a value, and keeps the number that it is.
  lemma EncodedCount(v: string)
    ensures CountOf(Encode(v)) == CountOf(v)
  {
    hide Encode, CountOf;
    if i: nat :| i < |v| && Special(v[i]) {
      EncodedSpecial(v, i);
      var k :| 0 <= k < |Encode(v)| && Encode(v)[k] == '&';
      NoNumberWith(Encode(v), k);
      NoNumberWith(v, i);
    } else {
      EncodeNothing(v);
    }
  }

  lemma LeadCount(c: Items)
    requires !HasElement(c)
    ensures Ser(c) == Lead(c) == LeadWithout({}, c)
  {
    OnlyText({}, c);
  }

  // What is counted for content of the written document that corresponds to a hit.
  lemma ContentCount(doc: Items, es: seq<Edit>, t: string, hit: Hit, c: Items)
    requires Matches(Ser(doc), doc, es, t, hit, c) && !HasElement(c)
    ensures match hit
      case EditValue(v) => CountOf(Ser(c)) == CountOf(v)
      case DocSpan(_) => Nav(doc, t).Some? && Ser(c) == JoinedLead(doc, es, t)
  {
    hide CountOf, Encode, Ser, Lead, LeadWithout, Nav, HasElement, TextFirst;
    LeadCount(c);
    match hit {
      case EditValue(v) => EncodedCount(v);
      case DocSpan(_) =>
        assert LeadWithout({}, c) == LeadWithout({} + DeletedOf(es, t), Nav(doc, t).value);
        assert {} + DeletedOf(es, t) == DeletedOf(es, t);
    }
  }

  lemma WrittenTotalIs(doc: Items, es: seq<Edit>, t: string)
    requires SourceDoc(doc) && ValidEdits(Ser(doc), es) && DomainEdits(es)
    requires Rooted(t) && !Has(t, '>')
    ensures TotalOf(Written(Ser(doc), es), [], t) == WrittenTotal(doc, es, t)
  {
    hide SourceDoc, ValidEdits, DomainEdits, EditTree, Nav, FindNoEdit, Matches, HasElement, LiveRoot, ChildStays,
         CountOf, Written, Ser, DeletedOf, RootOf;
    SourceDocValid(doc);
    EditsCorrespond(Ser(doc), doc, es, t);
    WrittenLookup(doc, es, t);
    if Found(Ser(doc), es, t) && !LiveRoot(es, RootOf(t)) {
      var hit, c := Lookup(Ser(doc), es, t).value, Nav(EditTree(es, doc), t).value;
      ChildStaysExactly(doc, es, t);
      if HasElement(c) {
        ElementNoNumber(c);
      } else {
        ContentCount(doc, es, t, hit, c);
      }
    }
  }

  // What the editor counts for source text.
  lemma SourceCount(doc: Items, es: seq<Edit>, t: string)
    requires SourceDoc(doc) && !Has(t, '>')
    requires Lookup(Ser(doc), es, t).Some? && Lookup(Ser(doc), es, t).value.DocSpan?
    ensures Nav(doc, t).Some?
    ensures CountOf(Content(Ser(doc), Lookup(Ser(doc), es, t).value)) ==
      if HasElement(Nav(doc, t).value) then 0 else CountOf(JoinedLead(doc, es, t))
  {
    hide SourceDoc, Nav, FindOver, FindNoEdit, Ser, CountOf, HasElement, DeletedOf;
    SourceDocValid(doc);
    FindRefinesNav(Ser(doc), doc, t);
    var c := Nav(doc, t).value;
    if HasElement(c) {
      ElementNoNumber(c);
    } else {
      OnlyText(DeletedOf(es, t), c);
    }
  }

  // For every reachable edit list the two counts are the same if and only if that is so.
  lemma TotalAgreesExactly(doc: Items, es: seq<Edit>, t: string)
    requires SourceDoc(doc) && ValidEdits(Ser(doc), es) && DomainEdits(es)
    requires Rooted(t) && !Has(t, '>')
    ensures TotalOf(Written(Ser(doc), es), [], t) == TotalOf(Ser(doc), es, t) <==> CountsAlike(doc, es, t)
  {
    hide SourceDoc, ValidEdits, DomainEdits, Nav, FindOver, HasElement, LiveRoot, ChildStays, CountOf, Written, Ser,
         DeletedOf, RootOf;
    WrittenTotalIs(doc, es, t);
    TotalIs(Ser(doc), es, t);
    var r := Lookup(Ser(doc), es, t);
    if r.Some? && r.value.DocSpan? {
      SourceCount(doc, es, t);
    }
  }

  lemma TotalIs(text: string, es: seq<Edit>, t: string)
    ensures var r := Lookup(text, es, t);
      TotalOf(text, es, t) == if r.None? then 0 else CountOf(Content(text, r.value))
  {
  }
}
