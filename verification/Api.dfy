// The editor's operations (mxml.c).
module Api {
  import opened Chars
  import opened KeyPath
  import opened Decimal
  import opened Codec
  import opened DocFind
  import opened MxmlInt
  import opened Find
  import opened Ekey

  // What an operation returns; Overrun when it writes outside a buffer, after
  // which the original promises nothing.
  datatype Status = Ok | Fail(errno: Errno) | Overrun

  // The edit list after an operation, and what the operation returns.
  datatype Outcome = Outcome(edits: seq<Edit>, status: Status)

  const PLUS := "[+]"
  const TOTAL := "[#]"
  const LAST := "[$]"

  predicate EndsWith(s: string, end: string) {
    |s| >= |end| && s[|s| - |end|..] == end
  }

  // mxml_get: the text of the element that a key names, or none.
  function GetText(text: string, es: seq<Edit>, key: string): Option<string> {
    match Expand(text, es, key)
    case Refused(_) => None
    case Expanded(k) =>
      match Lookup(text, es, k)
      case None => if EndsWith(key, TOTAL) then Some("0") else None
      case Some(hit) => Some(Decode(Content(text, hit)))
  }

  // Append the parents of k, past from, that are missing.
  function AppendParents(text: string, es: seq<Edit>, k: string, from: nat): seq<Edit>
    requires from <= |k|
    decreases |k| - from
  {
    var dot := NextCh(k, from, |k|, '.');
    if dot == |k| then es
    else
      var next := if Lookup(text, es, k[..dot]).Some? then es else [Edit(EditAppend, k[..dot], "")] + es;
      AppendParents(text, next, k, dot + 1)
  }

  // Record a total one greater.
  function CountUp(text: string, es: seq<Edit>, tkey: string): seq<Edit> {
    var op := if Lookup(text, es, tkey).Some? then EditSet else EditAppend;
    [Edit(op, tkey, ToDec(Next(TotalOf(text, es, tkey))))] + es
  }

  // "a[+]..." up to its first "[+]", as "a[#]".
  function TotalKey(key: string): Option<string> {
    var plus := NextPat(key, 0, |key|, PLUS);
    if plus == |key| then None else Some(key[..plus] + TOTAL)
  }

  // mxml_append. A key that does not expand is answered with success.
  function DoAppend(text: string, es: seq<Edit>, key: string, value: string): Outcome {
    match Expand(text, es, key)
    case Refused(_) => Outcome(es, Ok)
    case Expanded(k) =>
      if Lookup(text, es, k).Some? then Outcome(es, Fail(EEXIST))
      else
        var parents := AppendParents(text, es, k, 0);
        match TotalKey(key)
        case None => Outcome([Edit(EditAppend, k, value)] + parents, Ok)
        case Some(tkey) =>
          match Expand(text, parents, tkey)
          case Refused(_) => Outcome(parents, Ok)
          case Expanded(t) => Outcome([Edit(EditAppend, k, value)] + CountUp(text, parents, t), Ok)
  }

  // "as.total" for "as.aN". For a tag of digits only the search for the dot
  // starts too far to the left.
  function TotalBeside(k: string): string {
    var j := DigitsStart(k);
    var i := if j > 0 then j - 1 else 0;
    k[..LastDot(k[..i]) + 1] + "total"
  }

  // The digits at the end of k fit totalbuf.
  predicate DigitsFit(k: string) {
    |k| - DigitsStart(k) <= UINT_MAX_LEN
  }

  // Record a total one smaller: removed, set or, when there was none, appended.
  function CountDown(text: string, es: seq<Edit>, k: string): seq<Edit> {
    var tkey, total := TotalBeside(k), Decremented(k[DigitsStart(k)..]);
    if Lookup(text, es, tkey).Some? then
      if total == "" then [Edit(EditDelete, tkey, "")] + es else [Edit(EditSet, tkey, total)] + es
    else if total == "" then es
    else [Edit(EditAppend, tkey, total)] + es
  }

  // mxml_delete
  function DoDelete(text: string, es: seq<Edit>, key: string): Outcome {
    match Expand(text, es, key)
    case Refused(_) => Outcome(es, Ok)
    case Expanded(k) =>
      if EndsWith(key, TOTAL) then Outcome(es, Fail(EPERM))
      else if Lookup(text, es, k).None? then Outcome(es, Ok)
      else
        var deleted := [Edit(EditDelete, k, "")] + es;
        if !EndsWith(key, LAST) then Outcome(deleted, Ok)
        else if !DigitsFit(k) then Outcome(deleted, Overrun)
        else if |TotalBeside(k)| > KEY_MAX then Outcome(deleted, Fail(ENOMEM))
        else Outcome(CountDown(text, deleted, k), Ok)
  }

  // mxml_update
  function DoUpdate(text: string, es: seq<Edit>, key: string, value: string): Outcome {
    match Expand(text, es, key)
    case Refused(_) => Outcome(es, Ok)
    case Expanded(k) =>
      if EndsWith(key, TOTAL) then Outcome(es, Fail(EPERM))
      else if Lookup(text, es, k).None? then Outcome(es, Fail(ENOENT))
      else Outcome([Edit(EditSet, k, value)] + es, Ok)
  }

  // mxml_set
  function DoSet(text: string, es: seq<Edit>, key: string, value: Option<string>): Outcome {
    match value
    case None => DoDelete(text, es, key)
    case Some(v) =>
      var o := DoAppend(text, es, key, v);
      if o.status == Fail(EEXIST) then DoUpdate(text, o.edits, key, v) else o
  }

  method FindExpandKey(m: Mxml, key: string) returns (e: Expansion, r: Option<Hit>)
    requires m.Valid() && key != ""
    modifies m`cacheNext, m.cache
    ensures m.Valid() && e == Expand(m.text, m.edits, key)
    ensures r == if e.Expanded? then Lookup(m.text, m.edits, e.key) else None
  {
    r := None;
    e := ExpandKey(m, key);
    if e.Expanded? {
      r := FindKey(m, e.key);
    }
  }

  method MxmlGet(m: Mxml, key: string) returns (r: Option<string>)
    requires m.Valid() && key != ""
    modifies m`cacheNext, m.cache
    ensures m.Valid() && r == GetText(m.text, m.edits, key)
  {
    hide Lookup, Expand, Decode;
    var e, hit := FindExpandKey(m, key);
    if hit.None? {
      return if e.Expanded? && EndsWith(key, TOTAL) then Some("0") else None;
    }
    var ret := UnencodeXml(Content(m.text, hit.value));
    r := Some(ret[..ret.Length - 1]);
  }

  method MxmlExists(m: Mxml, key: string) returns (b: bool)
    requires m.Valid() && key != ""
    modifies m`cacheNext, m.cache
    ensures m.Valid()
    ensures
      var e := Expand(m.text, m.edits, key);
      b == (e.Expanded? && Lookup(m.text, m.edits, e.key).Some?)
  {
    var _, hit := FindExpandKey(m, key);
    b := hit.Some?;
  }

  // edit_new: edits are pushed, and never integrated.
  method EditNew(m: Mxml, op: EditOp, ekey: string, value: string)
    requires m.Valid()
    modifies m`edits
    ensures m.Valid() && m.edits == [Edit(op, ekey, value)] + old(m.edits)
  {
    m.edits := [Edit(op, ekey, value)] + m.edits;
  }

  method AppendMissingParents(m: Mxml, ekey: string)
    requires m.Valid() && Rooted(ekey)
    modifies m`edits, m`cacheNext, m.cache
    ensures m.Valid() && m.edits == AppendParents(m.text, old(m.edits), ekey, 0)
  {
    hide Lookup;
    var sublen := 0;
    while true
      invariant m.Valid() && sublen <= |ekey|
      invariant AppendParents(m.text, m.edits, ekey, sublen) == AppendParents(m.text, old(m.edits), ekey, 0)
      decreases |ekey| - sublen
    {
      var dot := NextCh(ekey, sublen, |ekey|, '.');
      if dot == |ekey| {
        break;
      }
      var content := FindKey(m, ekey[..dot]);
      if content.None? {
        EditNew(m, EditAppend, ekey[..dot], "");
      }
      sublen := dot + 1;
    }
  }

  method MxmlAppend(m: Mxml, key: string, value: string) returns (s: Status)
    requires m.Valid() && key != ""
    modifies m`edits, m`cacheNext, m.cache
    ensures m.Valid()
    ensures Outcome(m.edits, s) == DoAppend(m.text, old(m.edits), key, value)
  {
    hide Lookup, Expand, AppendParents, TotalOf, NextPat;
    var e := ExpandKey(m, key);
    if e.Refused? {
      return Ok;
    }
    var content := FindKey(m, e.key);
    if content.Some? {
      return Fail(EEXIST);
    }
    AppendMissingParents(m, e.key);
    var tkey := TotalKey(key);
    if tkey.Some? {
      var t := ExpandKey(m, tkey.value);
      if t.Refused? {
        return Ok;
      }
      var tcontent := FindKey(m, t.key);
      var total := ReadTotal(m, t.key);
      EditNew(m, if tcontent.Some? then EditSet else EditAppend, t.key, ToDec(Next(total)));
    }
    EditNew(m, EditAppend, e.key, value);
    s := Ok;
  }

  // Back to after the last dot before stop.
  method TotalStart(ekey: string, stop: nat) returns (i: nat)
    requires stop <= |ekey|
    ensures i <= |ekey| && i == LastDot(ekey[..stop]) + 1
  {
    i := stop;
    while i > 0 && ekey[i - 1] != '.'
      invariant i <= stop && LastDot(ekey[..i]) == LastDot(ekey[..stop])
    {
      assert ekey[..i][..i - 1] == ekey[..i - 1];
      i := i - 1;
    }
    assert i > 0 ==> ekey[..i][i - 1] == '.';
  }

  // Deleting [$] updates the total.
  method CountDownTotal(m: Mxml, ekey: string) returns (s: Status)
    requires m.Valid() && Rooted(ekey) && |ekey| <= KEY_MAX
    modifies m`edits, m`cacheNext, m.cache
    ensures m.Valid()
    ensures Outcome(m.edits, s) ==
      if !DigitsFit(ekey) then Outcome(old(m.edits), Overrun)
      else if |TotalBeside(ekey)| > KEY_MAX then Outcome(old(m.edits), Fail(ENOMEM))
      else Outcome(CountDown(m.text, old(m.edits), ekey), Ok)
  {
    hide Lookup, DigitsStart, Decremented;
    var fits, total, stop := DecrementTail(ekey);
    if !fits {
      return Overrun;
    }
    var i := TotalStart(ekey, stop);
    if i + 5 > KEY_MAX {
      return Fail(ENOMEM);
    }
    var tkey := ekey[..i] + "total";
    var content := FindKey(m, tkey);
    if content.Some? {
      if total == "" {
        EditNew(m, EditDelete, tkey, "");
      } else {
        EditNew(m, EditSet, tkey, total);
      }
    } else if total != "" {
      EditNew(m, EditAppend, tkey, total);
    }
    s := Ok;
  }

  method MxmlDelete(m: Mxml, key: string) returns (s: Status)
    requires m.Valid() && key != ""
    modifies m`edits, m`cacheNext, m.cache
    ensures m.Valid()
    ensures Outcome(m.edits, s) == DoDelete(m.text, old(m.edits), key)
  {
    hide Lookup, Expand, CountDown, TotalBeside, DigitsFit;
    var e := ExpandKey(m, key);
    if e.Refused? {
      return Ok;
    }
    if EndsWith(key, TOTAL) {
      return Fail(EPERM);
    }
    var content := FindKey(m, e.key);
    if content.None? {
      return Ok;
    }
    EditNew(m, EditDelete, e.key, "");
    if EndsWith(key, LAST) {
      s := CountDownTotal(m, e.key);
      return;
    }
    s := Ok;
  }

  method MxmlUpdate(m: Mxml, key: string, value: string) returns (s: Status)
    requires m.Valid() && key != ""
    modifies m`edits, m`cacheNext, m.cache
    ensures m.Valid()
    ensures Outcome(m.edits, s) == DoUpdate(m.text, old(m.edits), key, value)
  {
    hide Lookup, Expand;
    var e := ExpandKey(m, key);
    if e.Refused? {
      return Ok;
    }
    if EndsWith(key, TOTAL) {
      return Fail(EPERM);
    }
    var content := FindKey(m, e.key);
    if content.None? {
      return Fail(ENOENT);
    }
    EditNew(m, EditSet, e.key, value);
    s := Ok;
  }

  method MxmlSet(m: Mxml, key: string, value: Option<string>) returns (s: Status)
    requires m.Valid() && key != ""
    modifies m`edits, m`cacheNext, m.cache
    ensures m.Valid()
    ensures Outcome(m.edits, s) == DoSet(m.text, old(m.edits), key, value)
  {
    hide DoAppend, DoUpdate, DoDelete;
    if value.None? {
      s := MxmlDelete(m, key);
      return;
    }
    s := MxmlAppend(m, key, value.value);
    if s == Fail(EEXIST) {
      s := MxmlUpdate(m, key, value.value);
    }
  }
}
