// Writing the edited document and tokenizing it again gives the flattened token
// stream again, up to joining text that stands together.
module Retokenize {
  import opened Chars
  import opened KeyPath
  import opened Cursors
  import opened Codec
  import opened MxmlInt
  import opened Tree
  import opened TreeText
  import opened Tokens
  import opened Tokenizer
  import opened TreeTokens
  import opened DocFind
  import opened Find
  import opened Decimal
  import opened Ekey
  import opened Api
  import opened Reachable
  import opened ApiReach
  import opened Flatten
  import opened Write
  import opened EditNav
  import opened Agreement
  import opened RunAgreement

  function AddValue(key: string, s: string, ts: seq<Token>): seq<Token> {
    if s == "" then ts
    else if ts != [] && ts[0].kind == TokValue then [ValueToken(key, Raw(s + Bytes(ts[0].value)))] + ts[1..]
    else [ValueToken(key, Raw(s))] + ts
  }

  // Tokens with adjacent values, as they are written, joined and empty ones dropped.
  function JoinValues(ts: seq<Token>): seq<Token> {
    if ts == [] then []
    else if ts[0].kind == TokValue then AddValue(ts[0].key, Bytes(ts[0].value), JoinValues(ts[1..]))
    else [ts[0]] + JoinValues(ts[1..])
  }

  function AddText(s: string, items: Items): Items {
    if s == "" then items
    else if items.Txt? then Txt(Raw(s + Bytes(items.chunk)), items.rest)
    else Txt(Raw(s), items)
  }

  // Content with adjacent text, as it is written, joined.
  function Joined(items: Items): Items {
    match items
    case Nil => Nil
    case Txt(c, rest) => AddText(Bytes(c), Joined(rest))
    case El(tag, kids, rest) => El(tag, Joined(kids), Joined(rest))
  }

  lemma {:induction false} SerJoined(items: Items)
    ensures Ser(Joined(items)) == Ser(items)
  {
    match items {
      case Nil =>
      case Txt(c, rest) => SerJoined(rest);
      case El(_, kids, rest) => SerJoined(kids); SerJoined(rest);
    }
  }

  lemma AddTextTwice(a: string, b: string, items: Items)
    ensures AddText(a, AddText(b, items)) == AddText(a + b, items)
  {
    assert b == "" ==> a + b == a;
    assert a == "" ==> a + b == b;
    assert items.Txt? ==> a + (b + Bytes(items.chunk)) == (a + b) + Bytes(items.chunk);
  }

  lemma {:induction false} JoinedAdd(s: string, items: Items)
    ensures Joined(AddText(s, items)) == AddText(s, Joined(items))
  {
    if items.Txt? {
      AddTextTwice(s, Bytes(items.chunk), Joined(items.rest));
    }
  }

  lemma {:induction false} JoinedTwice(items: Items)
    ensures Joined(Joined(items)) == Joined(items)
  {
    match items {
      case Nil =>
      case Txt(c, rest) =>
        JoinedTwice(rest);
        JoinedAdd(Bytes(c), Joined(rest));
      case El(_, kids, rest) => JoinedTwice(kids); JoinedTwice(rest);
    }
  }

  lemma {:induction false} JoinSplit(a: seq<Token>, b: seq<Token>)
    requires b != [] && b[0].kind != TokValue
    ensures JoinValues(a + b) == JoinValues(a) + JoinValues(b)
  {
    if a == [] {
      assert a + b == b;
    } else {
      assert (a + b)[0] == a[0] && (a + b)[1..] == a[1..] + b;
      JoinSplit(a[1..], b);
      assert JoinValues(b)[0] == b[0];
      if a[0].kind == TokValue {
        AddSplit(a[0].key, Bytes(a[0].value), JoinValues(a[1..]), JoinValues(b));
      }
    }
  }

  lemma AddSplit(key: string, s: string, a: seq<Token>, b: seq<Token>)
    requires b != [] && b[0].kind != TokValue
    ensures AddValue(key, s, a + b) == AddValue(key, s, a) + b
  {
    hide Bytes;
    if s == "" {
      return;
    }
    if a == [] {
      assert a + b == b;
      assert AddValue(key, s, a) == [ValueToken(key, Raw(s))];
      return;
    }
    assert (a + b)[0] == a[0] && (a + b)[1..] == a[1..] + b;
    Assoc([ValueToken(key, Raw(s))], a, b);
    Assoc([ValueToken(key, Raw(s + Bytes(a[0].value)))], a[1..], b);
  }

  lemma Assoc(x: seq<Token>, y: seq<Token>, z: seq<Token>)
    ensures x + (y + z) == (x + y) + z
  {
    assert x + (y + z) == (x + y) + z;
  }

  // Joining the tokens of content gives the tokens of the joined content.
  lemma {:induction false} JoinTokens(key: string, items: Items)
    ensures JoinValues(TokensOf(key, items)) == TokensOf(key, Joined(items))
    decreases items
  {
    match items {
      case Nil =>
      case Txt(c, rest) =>
        JoinTokens(key, rest);
        assert TokensOf(key, items)[1..] == TokensOf(key, rest);
        AddTokens(key, Bytes(c), Joined(rest));
      case El(tag, kids, rest) =>
        var k := Ext(key, tag);
        JoinTokens(k, kids);
        JoinTokens(key, rest);
        JoinElement(k, tag, TokensOf(k, kids), TokensOf(key, rest));
    }
  }

  lemma AddTokens(key: string, s: string, items: Items)
    ensures AddValue(key, s, TokensOf(key, items)) == TokensOf(key, AddText(s, items))
  {
    match items {
      case Nil =>
      case Txt(c, rest) => assert TokensOf(key, items)[1..] == TokensOf(key, rest);
      case El(tag, _, _) => assert TokensOf(key, items)[0] == OpenToken(Ext(key, tag), tag);
    }
  }

  lemma JoinElement(k: string, tag: string, kids: seq<Token>, rest: seq<Token>)
    ensures JoinValues([OpenToken(k, tag)] + kids + [CloseToken(k, tag)] + rest)
         == [OpenToken(k, tag)] + JoinValues(kids) + [CloseToken(k, tag)] + JoinValues(rest)
  {
    var o, c := [OpenToken(k, tag)], [CloseToken(k, tag)];
    var all := o + kids + c + rest;
    assert all[0] == o[0] && all[1..] == kids + (c + rest);
    JoinSplit(kids, c + rest);
    assert (c + rest)[0] == c[0] && (c + rest)[1..] == rest;
    var a, b := JoinValues(kids), JoinValues(rest);
    assert o + (a + (c + b)) == o + a + c + b;
  }

  // Text that is quiet within quiet text.
  lemma {:induction false} QuietWithin(text: string, i: nat, t: string, k: nat)
    requires At(text, i, |text|, t) && k <= |t| && QuietFrom(t, k) && i + |t| <= |text| && QuietFrom(text, i + |t|)
    ensures QuietFrom(text, i + k)
    decreases |t| - k
  {
    hide At, NextPat;
    if k == |t| {
    } else {
      AtChars(text, i, |text|, t);
      if t[k] != '<' {
        QuietWithin(text, i, t, k + 1);
      } else if At(t, k, |t|, COMMENT) {
        AtWithin(text, i, |text|, t, k, COMMENT);
        NextPatWithin(text, i, |text|, t, k + 4, COMMENT_END);
        QuietWithin(text, i, t, NextPat(t, k + 4, |t|, COMMENT_END));
      } else {
        AtWithin(text, i, |text|, t, k, INSTRUCTION);
        InstructionIsNoComment(text, i + k, |text|);
        NextPatWithin(text, i, |text|, t, k + 2, INSTRUCTION_END);
        QuietWithin(text, i, t, NextPat(t, k + 2, |t|, INSTRUCTION_END));
      }
    }
  }

  lemma QuietJoin(a: string, b: string)
    requires Quiet(a) && Quiet(b)
    ensures Quiet(a + b)
  {
    hide QuietFrom;
    var t := a + b;
    assert t[|a|..|a| + |b|] == b && t[0..|a|] == a;
    QuietEnd(t);
    QuietWithin(t, |a|, b, 0);
    QuietWithin(t, 0, a, 0);
  }

  lemma QuietEnd(t: string)
    ensures QuietFrom(t, |t|)
  {
  }

  // Content of source text and encoded values: none begins like a tag.
  predicate Writable(items: Items) {
    match items
    case Nil => true
    case Txt(c, rest) => Quiet(Bytes(c)) && (Bytes(c) != "" ==> Bytes(c)[0] != '<') && Writable(rest)
    case El(tag, kids, rest) => ValidTag(tag) && Writable(kids) && Writable(rest)
  }

  lemma {:induction false} SourceWritable(items: Items)
    requires SourceItems(items)
    ensures Writable(items)
  {
    match items {
      case Nil =>
      case Txt(_, rest) => SourceWritable(rest);
      case El(_, kids, rest) => SourceWritable(kids); SourceWritable(rest);
    }
  }

  lemma {:induction false} WritableJoined(items: Items)
    requires Writable(items)
    ensures SourceItems(Joined(items))
  {
    hide Quiet, ValidTag;
    match items {
      case Nil =>
      case Txt(c, rest) =>
        WritableJoined(rest);
        TextAdded(Bytes(c), Joined(rest));
      case El(_, kids, rest) => WritableJoined(kids); WritableJoined(rest);
    }
  }

  lemma TextAdded(s: string, items: Items)
    requires SourceItems(items) && Quiet(s) && (s != "" ==> s[0] != '<')
    ensures SourceItems(AddText(s, items))
  {
    hide Quiet, ValidTag;
    if items.Txt? {
      QuietJoin(s, items.chunk.s);
    }
  }

  lemma EncodedWritable(v: string)
    ensures Quiet(Encode(v)) && (Encode(v) != "" ==> Encode(v)[0] != '<')
  {
    EncodedQuiet(v);
    EncodeNoTag(v);
  }

  lemma {:induction false} WritableConcat(a: Items, b: Items)
    requires Writable(a) && Writable(b)
    ensures Writable(Concat(a, b))
  {
    hide Quiet, ValidTag;
    match a {
      case Nil =>
      case Txt(_, rest) => WritableConcat(rest, b);
      case El(_, _, rest) => WritableConcat(rest, b);
    }
  }

  lemma {:induction false} EditWritable(e: Edit, key: string, items: Items)
    requires Writable(items) && DomainEdit(e)
    ensures Writable(EditItems(e, key, items))
    decreases items
  {
    hide Quiet, ValidTag, DomainEdit;
    match items {
      case Nil =>
      case Txt(_, rest) => EditWritable(e, key, rest);
      case El(tag, kids, rest) =>
        EditWritable(e, Ext(key, tag), kids);
        EditWritable(e, key, rest);
        ContentWritable(e, Ext(key, tag), EditItems(e, Ext(key, tag), kids));
    }
  }

  lemma ContentWritable(e: Edit, key: string, kids: Items)
    requires Writable(kids) && DomainEdit(e)
    ensures Writable(EditContent(e, key, kids))
  {
    hide Quiet, ValidTag;
    EncodedWritable(e.value);
    if e.op == EditAppend {
      assert Writable(Txt(User(e.value), Nil)) && Writable(Appended(e));
      WritableConcat(kids, Appended(e));
    }
  }

  lemma {:induction false} JoinedFits(key: string, items: Items)
    requires KeysFit(key, items)
    ensures KeysFit(key, Joined(items))
    decreases items
  {
    match items {
      case Nil =>
      case Txt(_, rest) => JoinedFits(key, rest);
      case El(tag, kids, rest) => JoinedFits(Ext(key, tag), kids); JoinedFits(key, rest);
    }
  }

  lemma {:induction false} ConcatFits(key: string, a: Items, b: Items)
    requires KeysFit(key, a) && KeysFit(key, b)
    ensures KeysFit(key, Concat(a, b))
  {
    match a {
      case Nil =>
      case Txt(_, rest) => ConcatFits(key, rest, b);
      case El(_, _, rest) => ConcatFits(key, rest, b);
    }
  }

  lemma {:induction false} EditFits(e: Edit, key: string, items: Items)
    requires KeysFit(key, items) && (key == "" ==> TopNamed(items)) && |e.key| <= KEY_MAX
    ensures KeysFit(key, EditItems(e, key, items))
    decreases items
  {
    match items {
      case Nil =>
      case Txt(_, rest) => EditFits(e, key, rest);
      case El(tag, kids, rest) =>
        EditFits(e, Ext(key, tag), kids);
        EditFits(e, key, rest);
        ContentFits(e, Ext(key, tag), EditItems(e, Ext(key, tag), kids));
    }
  }

  lemma ContentFits(e: Edit, key: string, kids: Items)
    requires KeysFit(key, kids) && key != "" && |e.key| <= KEY_MAX
    ensures KeysFit(key, EditContent(e, key, kids))
  {
    hide LastDot;
    if e.op == EditAppend && ParentKey(e.key) == key {
      ParentExt(e.key);
      assert |e.key| == |key| + 1 + |LastTag(e.key)|;
      ConcatFits(key, kids, Appended(e));
    }
  }

  // Every key that is recorded has been expanded into a buffer of KEY_MAX.
  predicate ShortEdits(es: seq<Edit>) {
    forall i :: 0 <= i < |es| ==> |es[i].key| <= KEY_MAX
  }

  // Edits work on what follows the prolog.
  lemma {:induction false} EditBody(es: seq<Edit>, prolog: Chunk, body: Items)
    requires SourceItems(body) && KeysFit("", body) && DomainEdits(es) && ShortEdits(es)
    ensures EditTree(es, Txt(prolog, body)) == Txt(prolog, EditTree(es, body))
    ensures var b := EditTree(es, body); Writable(b) && TopNamed(b) && KeysFit("", b)
  {
    hide SourceItems, ValidTag, SelfOrChild, EditContent;
    if es == [] {
      SourceWritable(body);
      SourceItemsValid(body);
    } else {
      var e, b := es[0], EditTree(es[1..], body);
      assert DomainEdit(e) && |e.key| <= KEY_MAX;
      EditBody(es[1..], prolog, body);
      EditWritable(e, "", b);
      EditFits(e, "", b);
      EditTopNamed(e, "", b);
    }
  }

  // The edits leave the document element there.
  predicate RootKept(es: seq<Edit>, root: string) {
    forall i :: 0 <= i < |es| && es[i].op == EditDelete ==> es[i].key != root
  }

  lemma {:induction false} RootStays(es: seq<Edit>, body: Items)
    requires SourceItems(body) && body.El? && DomainEdits(es) && RootKept(es, body.tag)
    ensures var b := EditTree(es, body); b.El? && b.tag == body.tag
  {
    hide SourceItems, ValidTag, SelfOrChild, EditContent;
    if es == [] {
    } else {
      assert DomainEdit(es[0]);
      RootStays(es[1..], body);
      if es[0].op == EditDelete {
        RootTag(body, es[0].key);
      }
    }
  }

  lemma RootTag(body: Items, key: string)
    requires SourceItems(body) && body.El? && Rooted(key) && key != body.tag
    ensures !SelfOrChild(Ext("", body.tag), key)
  {
    assert forall i :: 0 <= i < |body.tag| ==> body.tag[i] != '.';
  }

  // Text that has come to stand after the prolog joins it.
  function WithProlog(prolog: string, body: Items): Items {
    if body.Txt? then Txt(Raw(prolog + Bytes(body.chunk)), body.rest) else Txt(Raw(prolog), body)
  }

  // The document that is written, text that stands together being one piece.
  function Rewritten(doc: Items, es: seq<Edit>): Items
    requires doc.Txt?
  {
    WithProlog(Bytes(doc.chunk), Joined(EditTree(es, doc.rest)))
  }

  lemma {:induction false} ElementJoined(items: Items)
    ensures HasElement(Joined(items)) <==> HasElement(items)
  {
    match items {
      case Nil =>
      case Txt(_, rest) => ElementJoined(rest);
      case El(_, _, _) =>
    }
  }

  lemma PrologJoined(prolog: Chunk, body: Items)
    requires prolog.Raw? && Quiet(prolog.s) && Writable(body) && KeysFit("", body)
    ensures
      var d := WithProlog(prolog.s, Joined(body));
      && PrologDoc(d) && (d.rest.El? <==> HasElement(body))
      && Ser(d) == Ser(Txt(prolog, body)) && Joined(d) == Joined(Txt(prolog, body))
  {
    hide Quiet, Joined, Ser, SourceItems, Writable, WithProlog;
    var j := Joined(body);
    SerJoined(body);
    JoinedTwice(body);
    WritableJoined(body);
    JoinedFits("", body);
    ElementJoined(body);
    PrologText(prolog, body);
    PrologSource(prolog, j);
    PrologAdded(prolog, body);
  }

  lemma PrologSource(prolog: Chunk, j: Items)
    requires prolog.Raw? && Quiet(prolog.s) && SourceItems(j) && KeysFit("", j)
    ensures var d := WithProlog(prolog.s, j); PrologDoc(d) && (d.rest.El? <==> HasElement(j))
  {
    hide Quiet;
    if j.Txt? {
      QuietJoin(prolog.s, Bytes(j.chunk));
    }
  }

  lemma PrologText(prolog: Chunk, body: Items)
    requires prolog.Raw? && Ser(Joined(body)) == Ser(body)
    ensures Ser(WithProlog(prolog.s, Joined(body))) == Ser(Txt(prolog, body))
  {
    hide Joined;
  }

  lemma PrologAdded(prolog: Chunk, body: Items)
    requires prolog.Raw? && Joined(Joined(body)) == Joined(body)
    ensures Joined(WithProlog(prolog.s, Joined(body))) == Joined(Txt(prolog, body))
  {
    var j := Joined(body);
    if j.Txt? {
      AddTextTwice(prolog.s, Bytes(j.chunk), Joined(j.rest));
    }
  }

  // What is written is a prolog and elements again, and so a source document, which
  // the editor can be given, if and only if an element is left.
  lemma WrittenIsSource(doc: Items, es: seq<Edit>)
    requires SourceDoc(doc) && DomainEdits(es) && ShortEdits(es)
    ensures
      var d := Rewritten(doc, es);
      && Written(Ser(doc), es) == Ser(d) && Joined(d) == Joined(EditTree(es, doc))
      && PrologDoc(d) && (SourceDoc(d) <==> HasElement(EditTree(es, doc)))
    ensures RootKept(es, doc.rest.tag) ==> SourceDoc(Rewritten(doc, es))
  {
    hide Written, KeysFit, SourceItems, DomainEdits, ShortEdits, RootKept, Quiet, Writable, Joined, WithProlog;
    EditBody(es, doc.chunk, doc.rest);
    DomainNamed(es);
    WrittenIsTree(doc, es);
    PrologJoined(doc.chunk, EditTree(es, doc.rest));
    if RootKept(es, doc.rest.tag) {
      RootStays(es, doc.rest);
    }
  }

  lemma NoTextNoTokens(doc: Items)
    requires PrologDoc(doc) && Ser(doc) == ""
    ensures TokensOf("", Joined(doc)) == []
  {
    assert doc.rest.Nil?;
  }

  // Write, then tokenize: for every source document and every edit list, the tokens
  // of the written text are the flattened tokens, values encoded, up to joining those
  // that stand together.
  lemma WriteThenTokenize(doc: Items, es: seq<Edit>)
    requires SourceDoc(doc) && DomainEdits(es) && ShortEdits(es)
    ensures
      var flat, again := ApplyAll(es, SourceOf(Ser(doc)).toks), SourceOf(Written(Ser(doc), es));
      again.ok && JoinValues(again.toks) == JoinValues(flat)
  {
    hide Source, Written, KeysFit, SourceItems, DomainEdits, ShortEdits, Quiet, TokensOf, Joined, Rewritten;
    SourceDocValid(doc);
    DomainNamed(es);
    WrittenIsSource(doc, es);
    SourceOfTree(doc);
    SourceOfProlog(Rewritten(doc, es));
    ApplyTokensOf(es, doc);
    JoinTokens("", EditTree(es, doc));
    JoinTokens("", Rewritten(doc, es));
    if Ser(Rewritten(doc, es)) == "" {
      NoTextNoTokens(Rewritten(doc, es));
    }
  }

  lemma {:induction false} ParentsShort(text: string, es: seq<Edit>, k: string, from: nat)
    requires ShortEdits(es) && |k| <= KEY_MAX && from <= |k|
    ensures ShortEdits(AppendParents(text, es, k, from))
    decreases |k| - from
  {
    hide Lookup;
    var dot := NextCh(k, from, |k|, '.');
    if dot == |k| {
    } else {
      var next := if Lookup(text, es, k[..dot]).Some? then es else [Edit(EditAppend, k[..dot], "")] + es;
      ParentsShort(text, next, k, dot + 1);
    }
  }

  lemma AppendShort(text: string, es: seq<Edit>, key: string, value: string)
    requires ShortEdits(es) && key != ""
    ensures ShortEdits(DoAppend(text, es, key, value).edits)
  {
    hide Lookup, ExpandFrom, AppendParents, TotalOf, ToDec, NextPat;
    ExpandFromRooted(text, es, key, 0, 0, "");
    var x, tkey := Expand(text, es, key), TotalKey(key);
    if x.Expanded? {
      ParentsShort(text, es, x.key, 0);
      if tkey.Some? {
        ExpandFromRooted(text, AppendParents(text, es, x.key, 0), tkey.value, 0, 0, "");
      }
    }
  }

  lemma DeleteShort(text: string, es: seq<Edit>, key: string)
    requires ShortEdits(es) && key != ""
    ensures ShortEdits(DoDelete(text, es, key).edits)
  {
    hide Lookup, ExpandFrom, TotalBeside, DigitsStart, Decremented;
    ExpandFromRooted(text, es, key, 0, 0, "");
  }

  lemma UpdateShort(text: string, es: seq<Edit>, key: string, value: string)
    requires ShortEdits(es) && key != ""
    ensures ShortEdits(DoUpdate(text, es, key, value).edits)
  {
    hide Lookup, ExpandFrom;
    ExpandFromRooted(text, es, key, 0, 0, "");
  }

  lemma {:induction false} RunShort(text: string, calls: seq<Call>)
    requires forall c :: c in calls ==> c.key != ""
    ensures ShortEdits(Run(text, calls))
  {
    hide ShortEdits, DoAppend, DoDelete, DoUpdate;
    if calls == [] {
      NoneShort();
    } else {
      var before := Run(text, calls[..|calls| - 1]);
      var c := calls[|calls| - 1];
      RunShort(text, calls[..|calls| - 1]);
      match c {
        case CallAppend(key, value) => AppendShort(text, before, key, value);
        case CallUpdate(key, value) => UpdateShort(text, before, key, value);
        case CallDelete(key) => DeleteShort(text, before, key);
        case CallSet(key, v) =>
          DeleteShort(text, before, key);
          if v.Some? {
            AppendShort(text, before, key, v.value);
            UpdateShort(text, DoAppend(text, before, key, v.value).edits, key, v.value);
          }
      }
    }
  }

  lemma NoneShort()
    ensures ShortEdits([])
  {
  }

  // For every source document and every run: mxml_write fails just when a tag does
  // not fit, and else the tokens of the text it gives are the flattened tokens. That
  // text is a source document again if and only if an element at the top is found
  // that was not appended there, as when the document element is never deleted.
  lemma RunRoundTrip(doc: Items, calls: seq<Call>)
    requires SourceDoc(doc) && forall c :: c in calls ==> CleanKey(c.key)
    ensures
      var es := Run(Ser(doc), calls);
      match WriteAnswer(Ser(doc), es)
      case None => !TagsFit(es)
      case Some(w) =>
        && TagsFit(es) && w == Ser(Rewritten(doc, es))
        && SourceOf(w).ok && JoinValues(SourceOf(w).toks) == JoinValues(ApplyAll(es, SourceOf(Ser(doc)).toks))
        && (SourceDoc(Rewritten(doc, es)) <==> ChildStays(Ser(doc), es, ""))
        && (RootKept(es, doc.rest.tag) ==> SourceDoc(Rewritten(doc, es)))
  {
    hide Run, Written, CleanKey, ValidEdits, SourceItems, KeysFit, CleanEdits, TagsFit, Source, Rewritten,
         JoinValues, ApplyAll, ChildStays, RootKept, SourceDoc;
    var es := Run(Ser(doc), calls);
    RunClean(Ser(doc), calls);
    CleanEditsDomain(es);
    KeysNamed(calls);
    RunShort(Ser(doc), calls);
    WrittenIsSource(doc, es);
    WriteThenTokenize(doc, es);
    RootStaysExactly(doc, es);
    SourceOfTree(doc);
  }

  lemma KeysNamed(calls: seq<Call>)
    requires forall c :: c in calls ==> CleanKey(c.key)
    ensures forall c :: c in calls ==> c.key != ""
  {
  }
}
