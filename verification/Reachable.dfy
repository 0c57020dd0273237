// Edit lists that the editor can hold: every edit was recorded when what it
// needs was there. The lookup over such a list, one edit at a time.
module Reachable {
  import opened Chars
  import opened KeyPath
  import opened DocFind
  import opened MxmlInt
  import opened Find

  ghost predicate Found(text: string, es: seq<Edit>, key: string) {
    Lookup(text, es, key).Some?
  }

  // What the editor has seen to before it records e on top of es.
  ghost predicate EditOk(text: string, es: seq<Edit>, e: Edit) {
    && Rooted(e.key)
    && match e.op
       case EditDelete => Found(text, es, e.key)
       case EditSet => Found(text, es, e.key)
       case EditAppend =>
         !Found(text, es, e.key) && (LastDot(e.key) >= 0 ==> Found(text, es, ParentKey(e.key)))
  }

  ghost predicate ValidEdits(text: string, es: seq<Edit>) {
    es == [] || (ValidEdits(text, es[1..]) && EditOk(text, es[1..], es[0]))
  }

  // The lookup over one more edit, as if the notion of an implied parent did not
  // exist.
  function Overlaid(e: Edit, key: string, below: Option<Hit>): Option<Hit> {
    match e.op
    case EditDelete => if SelfOrChild(key, e.key) then None else below
    case EditSet => if e.key == key then Some(EditValue(e.value)) else below
    case EditAppend => if e.key == key then Some(EditValue(e.value)) else below
  }

  // The fallback is for what is not found otherwise.
  lemma {:induction false} ImpliedOnlyAdds(text: string, es: seq<Edit>, key: string)
    ensures FindOver(text, es, key, false).Some? ==>
      FindOver(text, es, key, true) == FindOver(text, es, key, false)
  {
    hide FindNoEdit;
    if es == [] {
    } else {
      ImpliedOnlyAdds(text, es[1..], key);
    }
  }

  lemma ImpliedIsSticky(text: string, es: seq<Edit>, key: string)
    requires es != []
    ensures FindOver(text, es, key, false) ==
      Overlaid(es[0], key, FindOver(text, es[1..], key, es[0].op == EditAppend && SelfOrChild(es[0].key, key)))
  {
  }

  // The implied parent never changes an answer.
  lemma {:induction false} LookupStep(text: string, es: seq<Edit>, key: string)
    requires ValidEdits(text, es) && es != [] && Rooted(key)
    ensures Lookup(text, es, key) == Overlaid(es[0], key, Lookup(text, es[1..], key))
    decreases |es|, |key|, 0
  {
    hide FindOver;
    var e := es[0];
    ImpliedIsSticky(text, es, key);
    if e.op == EditAppend && SelfOrChild(e.key, key) && e.key != key {
      assert LastDot(e.key) >= 0;
      SelfOrChildParent(e.key, key);
      RootedParent(e.key);
      AncestorFound(text, es[1..], ParentKey(e.key), key);
      ImpliedOnlyAdds(text, es[1..], key);
    }
  }

  // If a key is found, so is its parent.
  lemma {:induction false} ParentFound(text: string, es: seq<Edit>, key: string)
    requires ValidEdits(text, es) && Rooted(key) && LastDot(key) >= 0 && Found(text, es, key)
    ensures Rooted(ParentKey(key)) && Found(text, es, ParentKey(key))
    decreases |es|, |key|, 1
  {
    hide FindOver;
    RootedParent(key);
    var p := ParentKey(key);
    if es == [] {
      NoEditParent(text, key);
    } else {
      LookupStep(text, es, key);
      LookupStep(text, es, p);
      SelfOrChildParent(key, es[0].key);
      if Lookup(text, es[1..], key).Some? {
        ParentFound(text, es[1..], key);
      }
    }
  }

  lemma NoEditParent(text: string, key: string)
    requires LastDot(key) >= 0 && Found(text, [], key)
    ensures Found(text, [], ParentKey(key))
  {
  }

  // Parent closure: if a key is found, so is everything around it.
  lemma {:induction false} AncestorFound(text: string, es: seq<Edit>, key: string, anc: string)
    requires ValidEdits(text, es) && Rooted(key) && anc != "" && SelfOrChild(key, anc) && Found(text, es, key)
    ensures Found(text, es, anc)
    decreases |es|, |key|, 2
  {
    hide FindOver;
    if key != anc {
      assert key[|anc|] == '.';
      SelfOrChildParent(key, anc);
      ParentFound(text, es, key);
      AncestorFound(text, es, ParentKey(key), anc);
    }
  }
}
