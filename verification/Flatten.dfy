// Flattening the edit list into the token stream (mxml_flatten.c): a carrier
// that floats up a chain of states when empty and down when full.
module Flatten {
  import opened Chars
  import opened KeyPath
  import opened MxmlInt
  import opened Tree
  import opened Tokens
  import opened Tokenizer
  import opened Carrier

  const TAGDATA_MAX := 128

  // The edit's new tags fit its tag buffer.
  predicate TagFits(e: Edit) {
    e.op == EditAppend ==> |CloseTag(LastTag(e.key))| < TAGDATA_MAX
  }

  predicate TagsFit(es: seq<Edit>) {
    forall i :: 0 <= i < |es| ==> TagFits(es[i])
  }

  function InitialState(e: Edit): EditState {
    match e.op
    case EditDelete => KindDelete(e.key)
    case EditSet => KindSet(false)
    case EditAppend =>
      KindAppend(e.key, |ParentKey(e.key)|, e.value, LastTag(e.key), AppendIdle, 0)
  }

  // The state and token buffer made for an edit.
  ghost predicate MadeFor(e: Edit, st: EditState, tok: Token) {
    st == InitialState(e) && (e.op == EditSet ==> tok == ValueToken(e.key, User(e.value)))
  }

  lemma MadeChain(es: seq<Edit>, S: seq<EditState>, T: seq<Token>)
    requires |S| == |T| == |es| + 2 && S[0] == KindWrite && S[|es| + 1] == KindXml
    requires forall i :: 1 <= i <= |es| ==> MadeFor(es[i - 1], S[i], T[i])
    ensures Chain(es, S, T)
    ensures forall i :: 1 <= i <= |es| ==> Pending(S, T, i) == []
  {
    forall i | 1 <= i <= |es|
      ensures StateFor(es[i - 1], S[i], T[i], i, |S|) && Pending(S, T, i) == []
    {
      assert MadeFor(es[i - 1], S[i], T[i]);
    }
  }

  // make_editstates: the states, and the token buffer that each of them owns.
  method MakeEditStates(es: seq<Edit>)
    returns (ok: bool, states: array<EditState>, toks: array<Token>)
    ensures fresh(states) && fresh(toks) && states.Length == toks.Length == |es| + 2
    ensures ok == TagsFit(es)
    ensures ok ==> Chain(es, states[..], toks[..])
    ensures ok ==> forall i :: 1 <= i <= |es| ==> Pending(states[..], toks[..], i) == []
  {
    hide InitialState, TagFits;
    var n := |es| + 2;
    states := new EditState[n](_ => KindWrite);
    toks := new Token[n](_ => EofToken);
    for i := 1 to |es| + 1
      invariant states[0] == KindWrite
      invariant forall j :: 0 <= j < i - 1 ==> TagFits(es[j])
      invariant forall j :: 1 <= j < i ==> MadeFor(es[j - 1], states[j], toks[j])
    {
      var e := es[i - 1];
      states[i] := InitialState(e);
      if e.op == EditSet {
        toks[i] := ValueToken(e.key, User(e.value));
      }
      var fits := TagFits(e);
      if !fits {
        return false, states, toks;
      }
    }
    states[|es| + 1] := KindXml;
    ok := true;
    MadeChain(es, states[..], toks[..]);
  }

  // process_set: the OPEN passes, our VALUE follows it, other VALUEs are dropped.
  method ProcessSet(ghost es: seq<Edit>, states: array<EditState>, toks: array<Token>, i: nat, carrier: Option<nat>)
    returns (next: Option<nat>)
    requires Ready(es, states, toks, i, carrier) && es[i - 1].op == EditSet
    modifies states, toks
    ensures HasPassed(es, i, old(states[..]), old(toks[..]), carrier, states, toks, next)
  {
    next := carrier;
    assert StateFor(es[i - 1], states[i], toks[i], i, states.Length);
    if carrier.Some? {
      var token := toks[carrier.value];
      if token.key == toks[i].key {
        if token.kind == TokOpen {
          states[i] := KindSet(true);
        } else if token.kind == TokValue {
          next := None;
        }
      }
    } else if states[i].justOpened {
      states[i] := KindSet(false);
      next := Some(i);
    }
  }

  // What processing an edit state is entitled to find.
  ghost predicate Ready(es: seq<Edit>, states: array<EditState>, toks: array<Token>, i: nat, carrier: Option<nat>)
    reads states, toks
  {
    && Chain(es, states[..], toks[..]) && 1 <= i <= |es|
    && (carrier.Some? ==> i < carrier.value < toks.Length && Pending(states[..], toks[..], i) == [])
  }

  ghost predicate HasPassed(es: seq<Edit>, i: nat, S: seq<EditState>, T: seq<Token>, c: Option<nat>,
                            states: array<EditState>, toks: array<Token>, next: Option<nat>)
    requires Chain(es, S, T) && 1 <= i <= |es|
    requires c.Some? ==> i < c.value < |S|
    reads states, toks
  {
    Passed(es, i, S, T, c, states[..], toks[..], next)
  }

  // Where only the state at index i changes, the carrier passes it if it is filled
  // as it should be.
  lemma PassedByAppend(es: seq<Edit>, i: nat, S: seq<EditState>, T: seq<Token>, c: Option<nat>,
                       st: EditState, tok: Token, next: Option<nat>)
    requires Chain(es, S, T) && 1 <= i <= |es| && StateFor(es[i - 1], st, tok, i, |S|)
    requires c.Some? ==> i < c.value < |S|
    requires
      var o := if c.Some? then EditToken(es[i - 1], T[c.value]) else Pending(S, T, i);
      var S', T' := S[i := st], T[i := tok];
      && o != [] && next.Some? && i <= next.value < |S|
      && T'[next.value] == o[0] && Pending(S', T', i) == o[1..]
    ensures Passed(es, i, S, T, c, S[i := st], T[i := tok], next)
  {
    hide StateFor, Pending, EditToken;
  }

  // process_append, for an empty carrier: send what comes next of our VALUE, our
  // CLOSE and the held CLOSE of the parent.
  method ContinueAppend(ghost es: seq<Edit>, states: array<EditState>, toks: array<Token>, i: nat)
    returns (next: Option<nat>)
    requires Ready(es, states, toks, i, None) && es[i - 1].op == EditAppend
    modifies states, toks
    ensures HasPassed(es, i, old(states[..]), old(toks[..]), None, states, toks, next)
  {
    hide ParentKey, LastTag, OpenTag, CloseTag, EditToken, Chain, Passed;
    ChainAt(es, states[..], toks[..], i);
    var app := states[i];
    if app.state == AppendIdle {
      IdlePasses(es, i, states[..], toks[..]);
      return None;
    }
    if app.state == SentClose {
      states[i] := app.(state := AppendIdle);
      next := Some(app.held);
    } else {
      if app.state == SentOpen {
        toks[i] := toks[i].(kind := TokValue, value := User(app.value));
        states[i] := app.(state := SentValue);
      } else {
        toks[i] := toks[i].(kind := TokClose, value := Raw(CloseTag(app.tag)));
        states[i] := app.(state := SentClose);
      }
      next := Some(i);
    }
    PassedByAppend(es, i, old(states[..]), old(toks[..]), None, states[i], toks[i], next);
    assert states[..] == old(states[..])[i := states[i]] && toks[..] == old(toks[..])[i := toks[i]];
  }

  lemma ChainAt(es: seq<Edit>, S: seq<EditState>, T: seq<Token>, i: nat)
    requires Chain(es, S, T) && 1 <= i <= |es|
    ensures i < |S| == |T| && StateFor(es[i - 1], S[i], T[i], i, |S|)
  {
  }

  lemma IdlePasses(es: seq<Edit>, i: nat, S: seq<EditState>, T: seq<Token>)
    requires Chain(es, S, T) && 1 <= i <= |es| && Pending(S, T, i) == []
    ensures Passed(es, i, S, T, None, S, T, None)
  {
  }

  // process_append: the parent's CLOSE is held back while our own three tokens
  // go down, one each time the empty carrier comes up.
  method ProcessAppend(ghost es: seq<Edit>, states: array<EditState>, toks: array<Token>, i: nat, carrier: Option<nat>)
    returns (next: Option<nat>)
    requires Ready(es, states, toks, i, carrier) && es[i - 1].op == EditAppend
    modifies states, toks
    ensures HasPassed(es, i, old(states[..]), old(toks[..]), carrier, states, toks, next)
  {
    if carrier.None? {
      next := ContinueAppend(es, states, toks, i);
      return;
    }
    next := HoldClose(es, states, toks, i, carrier);
  }

  method HoldClose(ghost es: seq<Edit>, states: array<EditState>, toks: array<Token>, i: nat, carrier: Option<nat>)
    returns (next: Option<nat>)
    requires Ready(es, states, toks, i, carrier) && es[i - 1].op == EditAppend && carrier.Some?
    modifies states, toks
    ensures HasPassed(es, i, old(states[..]), old(toks[..]), carrier, states, toks, next)
  {
    hide ParentKey, LastTag, OpenTag, CloseTag, Chain, Passed;
    ChainAt(es, states[..], toks[..], i);
    var app := states[i];
    var token := toks[carrier.value];
    ParentPart(app.key);
    if token.kind == TokClose && app.parentLen == |token.key| && app.key[..app.parentLen] == token.key {
      toks[i] := OpenToken(app.key, app.tag);
      states[i] := app.(state := SentOpen, held := carrier.value);
      PassedByAppend(es, i, old(states[..]), old(toks[..]), carrier, states[i], toks[i], Some(i));
      assert states[..] == old(states[..])[i := states[i]] && toks[..] == old(toks[..])[i := toks[i]];
      return Some(i);
    }
    PassedByAppend(es, i, states[..], toks[..], carrier, app, toks[i], carrier);
    assert states[..][i := app] == states[..] && toks[..][i := toks[i]] == toks[..];
    next := carrier;
  }

  // process_token, for the states that stand for edits.
  method ProcessEdit(ghost es: seq<Edit>, states: array<EditState>, toks: array<Token>, i: nat, carrier: Option<nat>)
    returns (next: Option<nat>)
    requires Ready(es, states, toks, i, carrier)
    modifies states, toks
    ensures HasPassed(es, i, old(states[..]), old(toks[..]), carrier, states, toks, next)
  {
    assert StateFor(es[i - 1], states[i], toks[i], i, states.Length);
    match states[i] {
      case KindDelete(key) =>
        if carrier.Some? && SelfOrChild(toks[carrier.value].key, key) {
          return None;
        }
        next := carrier;
      case KindSet(_) =>
        next := ProcessSet(es, states, toks, i, carrier);
      case KindAppend(_, _, _, _, _, _) =>
        next := ProcessAppend(es, states, toks, i, carrier);
    }
  }

  // What the source will still send: its tokens, and the end when it gets there.
  ghost function Left(text: string, pos: nat, key: string, init: bool): seq<Token>
    requires pos <= |text|
  {
    var s := Source(text, pos, key, init);
    if s.ok then s.toks + [EofToken] else s.toks
  }

  lemma LeftStep(text: string, pos: nat, key: string, init: bool)
    requires pos <= |text|
    ensures
      match ScanToken(text, pos, key, init)
      case AtEnd => Left(text, pos, key, init) == [EofToken] && Source(text, pos, key, init).ok
      case Overflow => Left(text, pos, key, init) == [] && !Source(text, pos, key, init).ok
      case Scanned(t, p, k) =>
        && Left(text, pos, key, init) == [t] + Left(text, p, k, true)
        && Source(text, pos, key, init).ok == Source(text, p, k, true).ok
  {
    match ScanToken(text, pos, key, init) {
      case Scanned(t, p, k) =>
        var s := Source(text, p, k, true);
        assert [t] + s.toks + [EofToken] == [t] + (s.toks + [EofToken]);
      case _ =>
    }
  }

  // The machine's invariant: all it has been given and will be given is all.
  ghost predicate Running(es: seq<Edit>, S: seq<EditState>, T: seq<Token>, level: nat, c: Option<nat>,
                          src: seq<Token>, out: seq<Token>, all: seq<Token>)
  {
    && Chain(es, S, T) && Placed(es, S, T, level, c)
    && Total(es, S, T, level, c, src, out) == all
  }

  ghost function Rank(es: seq<Edit>, S: seq<EditState>, T: seq<Token>, level: nat, c: Option<nat>,
                      src: seq<Token>): nat
  {
    if Chain(es, S, T) && Placed(es, S, T, level, c) then TotalWork(es, S, T, level, c, src) else 0
  }

  // A state of the chain is told by its place.
  lemma KindAt(es: seq<Edit>, S: seq<EditState>, T: seq<Token>, level: nat)
    requires Chain(es, S, T) && level < |S|
    ensures S[level].KindXml? <==> level == |es| + 1
    ensures S[level].KindWrite? <==> level == 0
  {
    if 1 <= level <= |es| {
      assert StateFor(es[level - 1], S[level], T[level], level, |S|);
    }
  }

  lemma {:induction false} StartsWithAll(es: seq<Edit>, S: seq<EditState>, T: seq<Token>, level: nat, src: seq<Token>)
    requires Chain(es, S, T) && level <= |es| + 1
    requires forall i :: 1 <= i <= |es| ==> Pending(S, T, i) == []
    ensures Placed(es, S, T, level, None)
    ensures Total(es, S, T, level, None, src, []) == ApplyAll(es, src)
    decreases |es| + 1 - level
  {
    hide Pending, StateFor, FlatMap;
    if level <= |es| {
      Rises(es, S, T, level, src, []);
      StartsWithAll(es, S, T, level + 1, src);
    } else {
      DownIsApply(es, |es|, src);
      assert es[..|es|] == es;
    }
  }

  lemma EofMeansOk(es: seq<Edit>, text: string, out: seq<Token>, t: Token, more: seq<Token>)
    requires t.kind == TokEof && out + ([t] + more) == ApplyAll(es, Left(text, 0, "", false))
    ensures SourceOf(text).ok
  {
    if !SourceOf(text).ok {
      var toks := SourceOf(text).toks;
      SourceNoEof(text, 0, "", false);
      var all := ApplyAll(es, toks);
      assert all[|out|] == t;
      ApplyNoEof(es, toks);
      assert false;
    }
  }

  // When the end reaches the writer, the writer has been given everything.
  lemma {:induction false} AllWritten(es: seq<Edit>, text: string, out: seq<Token>, t: Token, more: seq<Token>)
    requires forall e :: e in es ==> e.key != ""
    requires t.kind == TokEof && SourceOf(text).ok
    requires out + ([t] + more) == ApplyAll(es, SourceOf(text).toks + [EofToken])
    ensures out == ApplyAll(es, SourceOf(text).toks)
  {
    hide ApplyAll;
    var toks := SourceOf(text).toks;
    SourceNoEof(text, 0, "", false);
    ApplyNoEof(es, toks);
    ApplyEof(es, toks);
    var all := ApplyAll(es, toks) + [EofToken];
    assert all[|out|] == t;
    assert |out| == |ApplyAll(es, toks)|;
    assert all[..|out|] == out;
  }

  lemma {:induction false} SourceNoEof(text: string, pos: nat, key: string, init: bool)
    requires pos <= |text|
    ensures NoEof(Source(text, pos, key, init).toks)
    decreases |text| - pos, !init
  {
    match ScanToken(text, pos, key, init) {
      case Scanned(t, p, k) => SourceNoEof(text, p, k, true);
      case _ =>
    }
  }

  lemma {:induction false} StepRises(es: seq<Edit>, S: seq<EditState>, T: seq<Token>,
                                     src: seq<Token>, out: seq<Token>, all: seq<Token>)
    requires Running(es, S, T, 0, None, src, out, all)
    ensures Running(es, S, T, 1, None, src, out, all)
    ensures Rank(es, S, T, 1, None, src) == Rank(es, S, T, 0, None, src)
  {
    hide Chain, Total, TotalWork, Pending;
    Rises(es, S, T, 0, src, out);
  }

  lemma {:induction false} StepPasses(es: seq<Edit>, level: nat, S: seq<EditState>, T: seq<Token>, c: Option<nat>,
                                      S': seq<EditState>, T': seq<Token>, c': Option<nat>,
                                      src: seq<Token>, out: seq<Token>, all: seq<Token>)
    requires Running(es, S, T, level, c, src, out, all) && 1 <= level <= |es|
    requires c.Some? ==> level < c.value < |S|
    requires Passed(es, level, S, T, c, S', T', c')
    ensures Running(es, S', T', NextLevel(level, c'), c', src, out, all)
    ensures |S'| == |S| == |T'| && (c'.Some? ==> level <= c'.value < |S|)
    ensures
      var before, after := Rank(es, S, T, level, c, src), Rank(es, S', T', NextLevel(level, c'), c', src);
      after < before || (after == before && c.None? && c'.None?)
    ensures (forall e :: e in es ==> e.key != "") && c.Some? && T[c.value] == EofToken ==>
      c'.Some? && T'[c'.value] == EofToken
  {
    hide Total, TotalWork, Pending, StateFor;
    PassingKeeps(es, level, S, T, c, S', T', c', src, out);
  }

  lemma {:induction false} StepSource(es: seq<Edit>, S: seq<EditState>, T: seq<Token>, t: Token,
                                      src: seq<Token>, out: seq<Token>, all: seq<Token>)
    requires Running(es, S, T, |es| + 1, None, [t] + src, out, all) && |S| == |T| == |es| + 2
    ensures Running(es, S, T[|es| + 1 := t], |es|, Some(|es| + 1), src, out, all)
    ensures Rank(es, S, T[|es| + 1 := t], |es|, Some(|es| + 1), src) < Rank(es, S, T, |es| + 1, None, [t] + src)
  {
    hide Total, TotalWork, Pending, StateFor, Chain;
    SourceKeeps(es, S, T, t, src, out);
  }

  lemma {:induction false} StepWriter(es: seq<Edit>, S: seq<EditState>, T: seq<Token>, k: nat,
                                      src: seq<Token>, out: seq<Token>, all: seq<Token>)
    requires Running(es, S, T, 0, Some(k), src, out, all) && k < |T|
    ensures Running(es, S, T, 1, None, src, out + [T[k]], all)
    ensures Rank(es, S, T, 1, None, src) < Rank(es, S, T, 0, Some(k), src)
  {
    hide Total, TotalWork, Pending, StateFor, Chain;
    WriterKeeps(es, S, T, k, src, out);
  }

  // What the invariant says of the place of the carrier.
  lemma RunningAt(es: seq<Edit>, S: seq<EditState>, T: seq<Token>, level: nat, c: Option<nat>,
                  src: seq<Token>, out: seq<Token>, all: seq<Token>)
    requires Running(es, S, T, level, c, src, out, all)
    ensures Chain(es, S, T) && level <= |es| + 1
    ensures level < |S| && (S[level].KindXml? <==> level == |es| + 1) && (S[level].KindWrite? <==> level == 0)
    ensures level == |es| + 1 ==> c.None?
    ensures 1 <= level <= |es| && c.Some? ==> Pending(S, T, level) == []
  {
    KindAt(es, S, T, level);
  }

  lemma {:induction false} EndReached(es: seq<Edit>, S: seq<EditState>, T: seq<Token>, c: nat, text: string,
                                      src: seq<Token>, out: seq<Token>)
    requires forall e :: e in es ==> e.key != ""
    requires c < |T| && Running(es, S, T, 0, Some(c), src, out, ApplyAll(es, Left(text, 0, "", false)))
    requires T[c].kind == TokEof
    ensures SourceOf(text).ok && out == ApplyAll(es, SourceOf(text).toks)
  {
    hide Chain, Placed, Coming, ApplyAll;
    var more := Coming(es, S, T, 1, src);
    EofMeansOk(es, text, out, T[c], more);
    AllWritten(es, text, out, T[c], more);
  }

  // The source cannot go on: the writer has been given all it gets.
  lemma {:induction false} SourceFailed(es: seq<Edit>, S: seq<EditState>, T: seq<Token>,
                                        out: seq<Token>, all: seq<Token>)
    requires Running(es, S, T, |es| + 1, None, [], out, all)
    ensures out == all
  {
    hide Chain, Placed;
    DownEmpty(es, |es|);
  }

  // process_token, for the source: its next token goes into its own buffer.
  method ProcessXml(xml: XmlState, toks: array<Token>, top: nat) returns (sent: bool)
    requires xml.Valid() && top < toks.Length
    modifies xml, xml.cursor`pos, toks
    ensures xml.Valid() && (sent ==> toks[..] == old(toks[..])[top := toks[top]])
    ensures
      var text := xml.cursor.text;
      var left := old(Left(text, xml.cursor.pos, xml.key, xml.init));
      var fits := old(Source(text, xml.cursor.pos, xml.key, xml.init).ok);
      if !sent then left == [] && !fits
      else if toks[top] == EofToken then left == [toks[top]] + [] && fits
      else
        && left == [toks[top]] + Left(text, xml.cursor.pos, xml.key, xml.init)
        && fits == Source(text, xml.cursor.pos, xml.key, xml.init).ok
  {
    hide Left, Source, ScanToken;
    LeftStep(xml.cursor.text, xml.cursor.pos, xml.key, xml.init);
    var token := xml.Tokenize();
    sent := token.Some?;
    if sent {
      toks[top] := token.value;
    }
  }

  // A callback: what it answers for the last of the tokens it has been passed.
  type Callback = seq<Token> -> int

  predicate Refuses(fn: Callback, ts: seq<Token>, i: nat)
    requires i < |ts|
  {
    fn(ts[..i + 1]) == -1
  }

  // The first token, from the i-th on, that the callback answers -1 for.
  function FirstRefused(fn: Callback, ts: seq<Token>, i: nat): (r: nat)
    requires i <= |ts|
    ensures i <= r <= |ts|
    ensures r < |ts| ==> Refuses(fn, ts, r)
    ensures forall k :: i <= k < r ==> !Refuses(fn, ts, k)
    decreases |ts| - i
  {
    if i == |ts| || fn(ts[..i + 1]) == -1 then i else FirstRefused(fn, ts, i + 1)
  }

  // The sum of its answers.
  function Answers(fn: Callback, ts: seq<Token>): int {
    if ts == [] then 0 else Answers(fn, ts[..|ts| - 1]) + fn(ts)
  }

  ghost predicate Accepted(fn: Callback, ts: seq<Token>) {
    forall i :: 0 <= i < |ts| ==> !Refuses(fn, ts, i)
  }

  lemma {:induction false} RefusedAt(fn: Callback, all: seq<Token>, i: nat, n: nat)
    requires i <= n <= |all| && Accepted(fn, all[..n]) && (n < |all| ==> fn(all[..n + 1]) == -1)
    ensures FirstRefused(fn, all, i) == n
    decreases n - i
  {
    if i == n {
    } else {
      assert all[..n][..i + 1] == all[..i + 1] && !Refuses(fn, all[..n], i);
      RefusedAt(fn, all, i + 1, n);
    }
  }

  lemma AcceptedMore(fn: Callback, ts: seq<Token>, t: Token)
    requires Accepted(fn, ts) && fn(ts + [t]) != -1
    ensures Accepted(fn, ts + [t]) && Answers(fn, ts + [t]) == Answers(fn, ts) + fn(ts + [t])
  {
    var more := ts + [t];
    assert more[..|ts|] == ts && more[..|ts| + 1] == more;
    forall i | 0 <= i < |more|
      ensures !Refuses(fn, more, i)
    {
      assert i < |ts| ==> more[..i + 1] == ts[..i + 1] && !Refuses(fn, ts, i);
    }
  }

  // What reaches the writer is the next of the tokens it should get.
  lemma {:induction false} NextWritten(es: seq<Edit>, S: seq<EditState>, T: seq<Token>, c: nat, text: string,
                                       src: seq<Token>, out: seq<Token>)
    requires forall e :: e in es ==> e.key != ""
    requires c < |T| && Running(es, S, T, 0, Some(c), src, out, ApplyAll(es, Left(text, 0, "", false)))
    requires T[c].kind != TokEof
    ensures out + [T[c]] <= ApplyAll(es, SourceOf(text).toks)
  {
    hide Chain, Placed, Coming, ApplyAll, Source;
    var more := Coming(es, S, T, 1, src);
    assert out + ([T[c]] + more) == ApplyAll(es, Left(text, 0, "", false));
    ApplyEof(es, SourceOf(text).toks);
    PrefixBeforeEof(out, T[c], more, ApplyAll(es, SourceOf(text).toks));
  }

  lemma PrefixBeforeEof(out: seq<Token>, t: Token, more: seq<Token>, toks: seq<Token>)
    requires t.kind != TokEof
    requires out + ([t] + more) == toks || out + ([t] + more) == toks + [EofToken]
    ensures out + [t] <= toks
  {
    var all := out + ([t] + more);
    assert all[|out|] == t && all[..|out| + 1] == out + [t];
    assert |out| < |toks|;
    assert all[..|toks|] == toks;
  }

  // flatten_edits. The tokens passed to the callback are those of the flattened
  // source, up to the first that it answers -1 for; and the answer is the sum of
  // its answers, or -1. It ends for every document and every edit list.
  method FlattenEdits(m: Mxml, fn: Callback) returns (ret: int, out: seq<Token>)
    requires forall e :: e in m.edits ==> e.key != ""
    ensures !TagsFit(m.edits) ==> ret == -1 && out == []
    ensures TagsFit(m.edits) ==>
      var all := ApplyAll(m.edits, SourceOf(m.text).toks);
      var n := FirstRefused(fn, all, 0);
      if n < |all| then ret == -1 && out == all[..n + 1]
      else out == all && ret == if SourceOf(m.text).ok then Answers(fn, all) else -1
  {
    hide Chain, Placed, Total, TotalWork, Pending, StateFor, ApplyAll, Source, ScanToken, EditToken, Passed;
    hide Running, Rank, TagsFit, Accepted, Answers, FirstRefused;
    var es := m.edits;
    ret, out := 0, [];
    var made, states, toks := MakeEditStates(es);
    if !made {
      return -1, out;
    }
    var xml := new XmlState(m.text);
    var level: nat, carrier: Option<nat> := 0, None;
    ghost var src, ended := Left(m.text, 0, "", false), false;
    ghost var all := ApplyAll(es, src);
    StartsRunning(es, states[..], toks[..], src);
    NoneAccepted(fn);
    while true
      invariant xml.Valid() && xml.cursor.text == m.text && fresh(xml) && fresh(xml.cursor)
      invariant Running(es, states[..], toks[..], level, carrier, src, out, all)
      invariant states.Length == toks.Length == |es| + 2
      invariant carrier.Some? ==> level < carrier.value < toks.Length
      invariant ended ==> carrier.Some? && toks[carrier.value] == EofToken
      invariant !ended ==> src == Left(m.text, xml.cursor.pos, xml.key, xml.init)
      invariant !ended ==> Source(m.text, xml.cursor.pos, xml.key, xml.init).ok == SourceOf(m.text).ok
      invariant Accepted(fn, out) && ret == Answers(fn, out)
      decreases Rank(es, states[..], toks[..], level, carrier, src), |es| + 1 - level
    {
      ghost var S, T := states[..], toks[..];
      RunningAt(es, S, T, level, carrier, src, out, all);
      if level == 0 && carrier.Some? && toks[carrier.value].kind == TokEof {
        EndReached(es, S, T, carrier.value, m.text, src, out);
        break;
      }
      match states[level] {
        case KindXml =>
          var sent := ProcessXml(xml, toks, level);
          if !sent {
            SourceFailed(es, S, T, out, all);
            AllAccepted(fn, out);
            return -1, out;
          }
          carrier := Some(level);
          ended := toks[level] == EofToken;
          src := if ended then [] else Left(m.text, xml.cursor.pos, xml.key, xml.init);
          StepSource(es, S, T, toks[level], src, out, all);
        case KindWrite =>
          if carrier.Some? {
            ghost var passed, token := out, toks[carrier.value];
            NextWritten(es, S, T, carrier.value, m.text, src, out);
            StepWriter(es, S, T, carrier.value, src, out, all);
            out := out + [toks[carrier.value]];
            carrier := None;
            var n := fn(out);
            if n == -1 {
              RefusedNow(fn, ApplyAll(es, SourceOf(m.text).toks), passed, out);
              return -1, out;
            }
            AcceptedMore(fn, passed, token);
            ret := ret + n;
          } else {
            StepRises(es, S, T, src, out, all);
          }
        case _ =>
          ghost var c := carrier;
          carrier := ProcessEdit(es, states, toks, level, carrier);
          StepPasses(es, level, S, T, c, states[..], toks[..], carrier, src, out, all);
      }
      if carrier.None? {
        level := level + 1;
      } else {
        level := level - 1;
      }
    }
    AllAccepted(fn, out);
  }

  lemma NoneAccepted(fn: Callback)
    ensures Accepted(fn, []) && Answers(fn, []) == 0
  {
  }

  lemma AllAccepted(fn: Callback, all: seq<Token>)
    requires Accepted(fn, all)
    ensures FirstRefused(fn, all, 0) == |all|
  {
    assert all[..|all|] == all;
    RefusedAt(fn, all, 0, |all|);
  }

  lemma RefusedNow(fn: Callback, all: seq<Token>, passed: seq<Token>, out: seq<Token>)
    requires |out| == |passed| + 1 && out[..|passed|] == passed && out <= all
    requires Accepted(fn, passed) && fn(out) == -1
    ensures FirstRefused(fn, all, 0) == |passed| && out == all[..|passed| + 1]
  {
    assert all[..|passed|] == passed && all[..|passed| + 1] == out;
    RefusedAt(fn, all, 0, |passed|);
  }

  lemma {:induction false} StartsRunning(es: seq<Edit>, S: seq<EditState>, T: seq<Token>, src: seq<Token>)
    requires Chain(es, S, T)
    requires forall i :: 1 <= i <= |es| ==> Pending(S, T, i) == []
    ensures Running(es, S, T, 0, None, src, [], ApplyAll(es, src))
  {
    hide Chain, Total, Pending;
    StartsWithAll(es, S, T, 0, src);
  }
}
