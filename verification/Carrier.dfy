// The token carrier machine: what its states hold back, what is still to come
// out of it, and how much work is left. A reference to a token is the index of the
// state that owns the token's buffer.
module Carrier {
  import opened Chars
  import opened KeyPath
  import opened MxmlInt
  import opened Tree
  import opened Tokens

  datatype AppendState = AppendIdle | SentOpen | SentValue | SentClose

  datatype EditState =
    | KindWrite
    | KindDelete(key: string)
    | KindSet(justOpened: bool)
    | KindAppend(key: string, parentLen: nat, value: string, tag: string, state: AppendState, held: nat)
    | KindXml

  // The state at index i, with its own token, stands for the edit e. Whatever
  // it holds belongs to a state above it.
  ghost predicate StateFor(e: Edit, st: EditState, tok: Token, i: nat, n: nat) {
    match e.op
    case EditDelete => st == KindDelete(e.key)
    case EditSet => st.KindSet? && tok == ValueToken(e.key, User(e.value))
    case EditAppend =>
      && st.KindAppend?
      && st.key == e.key && st.value == e.value
      && st.parentLen == |ParentKey(e.key)| && st.tag == LastTag(e.key)
      && (st.state != AppendIdle ==> i < st.held < n && tok.key == e.key)
  }

  // The token a reference refers to.
  ghost function Buffer(T: seq<Token>, p: nat): Token {
    if p < |T| then T[p] else EofToken
  }

  // The tokens the state at index i will yet send of its own accord.
  ghost function Pending(S: seq<EditState>, T: seq<Token>, i: nat): seq<Token>
    requires i < |S| && |T| == |S|
  {
    match S[i]
    case KindSet(justOpened) => if justOpened then [T[i]] else []
    case KindAppend(key, _, value, tag, state, held) =>
      (match state
       case AppendIdle => []
       case SentOpen => [ValueToken(key, User(value)), CloseToken(key, tag), Buffer(T, held)]
       case SentValue => [CloseToken(key, tag), Buffer(T, held)]
       case SentClose => [Buffer(T, held)])
    case _ => []
  }

  // States and token buffers for the edits es, newest first: the writer at the
  // bottom, the source at the top.
  ghost predicate Chain(es: seq<Edit>, S: seq<EditState>, T: seq<Token>) {
    && |S| == |T| == |es| + 2
    && S[0] == KindWrite && S[|es| + 1] == KindXml
    && forall i :: 1 <= i <= |es| ==> StateFor(es[i - 1], S[i], T[i], i, |S|)
  }

  // The carrier passes an edit state: it is filled by what the edit makes of the
  // token in it or, when empty, by what the state has pending; the rest waits.
  ghost predicate Passed(es: seq<Edit>, i: nat,
                         S: seq<EditState>, T: seq<Token>, c: Option<nat>,
                         S': seq<EditState>, T': seq<Token>, c': Option<nat>)
    requires Chain(es, S, T) && 1 <= i <= |es|
    requires c.Some? ==> i < c.value < |S|
  {
    && Chain(es, S', T')
    && (forall j :: 0 <= j < |S| && j != i ==> S'[j] == S[j] && T'[j] == T[j])
    && var o := if c.Some? then EditToken(es[i - 1], T[c.value]) else Pending(S, T, i);
       if o == [] then c' == None && Pending(S', T', i) == []
       else && c'.Some? && i <= c'.value < |S|
            && T'[c'.value] == o[0] && Pending(S', T', i) == o[1..]
  }

  // What is to come down out of the states from i upwards.
  ghost function Coming(es: seq<Edit>, S: seq<EditState>, T: seq<Token>, i: nat, src: seq<Token>): seq<Token>
    requires Chain(es, S, T) && 1 <= i <= |es| + 1
    decreases |S| - i
  {
    if i == |es| + 1 then src
    else Pending(S, T, i) + FlatMap(es[i - 1], Coming(es, S, T, i + 1, src))
  }

  // What the writer makes of tokens that pass the lowest n edit states.
  ghost function Down(es: seq<Edit>, n: nat, ts: seq<Token>): seq<Token>
    requires n <= |es|
  {
    if n == 0 then ts else Down(es, n - 1, FlatMap(es[n - 1], ts))
  }

  // The work that a token, or tokens, will cause at and below the state n.
  ghost function Weight(es: seq<Edit>, n: nat, t: Token): nat
    requires n <= |es|
    decreases n, 0, 0
  {
    if n == 0 then 1 else 1 + Weights(es, n - 1, EditToken(es[n - 1], t))
  }

  ghost function Weights(es: seq<Edit>, n: nat, ts: seq<Token>): nat
    requires n <= |es|
    decreases n, 1, |ts|
  {
    if ts == [] then 0 else Weight(es, n, ts[0]) + 1 + Weights(es, n, ts[1..])
  }

  // The work pending in the states from i upwards.
  ghost function Work(es: seq<Edit>, S: seq<EditState>, T: seq<Token>, i: nat, src: seq<Token>): nat
    requires Chain(es, S, T) && 1 <= i <= |es| + 1
    decreases |S| - i
  {
    if i == |es| + 1 then Weights(es, i - 1, src)
    else Weights(es, i - 1, Pending(S, T, i)) + Work(es, S, T, i + 1, src)
  }

  // Where the carrier may be: a full one is on its way down from the owner of its
  // token, and no state below it holds anything back.
  ghost predicate Placed(es: seq<Edit>, S: seq<EditState>, T: seq<Token>, level: nat, c: Option<nat>)
    requires Chain(es, S, T)
  {
    && level <= |es| + 1
    && (c.Some? ==> level < c.value < |S|)
    && forall i :: 1 <= i <= |es| && (i < level || (c.Some? && i == level)) ==> Pending(S, T, i) == []
  }

  // All that the writer has been given and will be given.
  ghost function Total(es: seq<Edit>, S: seq<EditState>, T: seq<Token>, level: nat, c: Option<nat>,
                       src: seq<Token>, out: seq<Token>): seq<Token>
    requires Chain(es, S, T) && Placed(es, S, T, level, c)
  {
    match c
    case None =>
      var i := if level == 0 then 1 else level;
      out + Down(es, i - 1, Coming(es, S, T, i, src))
    case Some(k) => out + Down(es, level, [T[k]] + Coming(es, S, T, level + 1, src))
  }

  ghost function TotalWork(es: seq<Edit>, S: seq<EditState>, T: seq<Token>, level: nat, c: Option<nat>,
                           src: seq<Token>): nat
    requires Chain(es, S, T) && Placed(es, S, T, level, c)
  {
    match c
    case None => Work(es, S, T, if level == 0 then 1 else level, src)
    case Some(k) => Weight(es, level, T[k]) + Work(es, S, T, level + 1, src)
  }

  lemma PendingFrame(es: seq<Edit>, S: seq<EditState>, T: seq<Token>,
                     S': seq<EditState>, T': seq<Token>, i: nat)
    requires Chain(es, S, T) && |S'| == |T'| == |S| && 1 <= i <= |es|
    requires forall j :: i <= j < |S| ==> S'[j] == S[j] && T'[j] == T[j]
    ensures Pending(S', T', i) == Pending(S, T, i)
  {
    assert StateFor(es[i - 1], S[i], T[i], i, |S|);
  }

  lemma {:induction false} ComingFrame(es: seq<Edit>, S: seq<EditState>, T: seq<Token>,
                                       S': seq<EditState>, T': seq<Token>, i: nat, src: seq<Token>)
    requires Chain(es, S, T) && Chain(es, S', T') && 1 <= i <= |es| + 1
    requires forall j :: i <= j < |S| ==> S'[j] == S[j] && T'[j] == T[j]
    ensures Coming(es, S', T', i, src) == Coming(es, S, T, i, src)
    ensures Work(es, S', T', i, src) == Work(es, S, T, i, src)
    decreases |S| - i
  {
    hide Pending, StateFor, FlatMap, Weights;
    if i <= |es| {
      ComingFrame(es, S, T, S', T', i + 1, src);
      PendingFrame(es, S, T, S', T', i);
    }
  }

  lemma {:induction false} DownEmpty(es: seq<Edit>, n: nat)
    requires n <= |es|
    ensures Down(es, n, []) == []
  {
    if n == 0 {
    } else {
      DownEmpty(es, n - 1);
    }
  }

  // An empty carrier rises past a state that holds nothing back.
  lemma Rises(es: seq<Edit>, S: seq<EditState>, T: seq<Token>, level: nat, src: seq<Token>, out: seq<Token>)
    requires Chain(es, S, T) && Placed(es, S, T, level, None)
    requires level == 0 || (level <= |es| && Pending(S, T, level) == [])
    ensures Placed(es, S, T, level + 1, None)
    ensures Total(es, S, T, level + 1, None, src, out) == Total(es, S, T, level, None, src, out)
    ensures TotalWork(es, S, T, level + 1, None, src) == TotalWork(es, S, T, level, None, src)
  {
    hide Pending, StateFor, FlatMap;
    if level > 0 {
      var s := FlatMap(es[level - 1], Coming(es, S, T, level + 1, src));
      assert Coming(es, S, T, level, src) == [] + s == s;
      assert Down(es, level, Coming(es, S, T, level + 1, src)) == Down(es, level - 1, s);
    }
  }

  lemma QuietStays(S: seq<EditState>, T: seq<Token>, S': seq<EditState>, T': seq<Token>, i: nat)
    requires i < |S| == |T| == |S'| == |T'| && S'[i] == S[i] && Pending(S, T, i) == []
    ensures Pending(S', T', i) == []
  {
  }

  // The tokens that leave the state the carrier is at.
  ghost function Leaving(es: seq<Edit>, S: seq<EditState>, T: seq<Token>, level: nat, c: Option<nat>): seq<Token>
    requires Chain(es, S, T) && 1 <= level <= |es| && (c.Some? ==> c.value < |S|)
  {
    if c.Some? then EditToken(es[level - 1], T[c.value]) else Pending(S, T, level)
  }

  lemma LeavingTotal(es: seq<Edit>, S: seq<EditState>, T: seq<Token>, level: nat, c: Option<nat>,
                     src: seq<Token>, out: seq<Token>)
    requires Chain(es, S, T) && Placed(es, S, T, level, c) && 1 <= level <= |es|
    ensures
      var o := Leaving(es, S, T, level, c);
      && Total(es, S, T, level, c, src, out) ==
           out + Down(es, level - 1, o + FlatMap(es[level - 1], Coming(es, S, T, level + 1, src)))
      && TotalWork(es, S, T, level, c, src) ==
           (if c.Some? then 1 else 0) + Weights(es, level - 1, o) + Work(es, S, T, level + 1, src)
  {
    hide Pending, StateFor, FlatMap, Weights, EditToken;
    if c.Some? {
      var t := T[c.value];
      FlatMapConcat(es[level - 1], [t], Coming(es, S, T, level + 1, src));
      FlatMapOne(es[level - 1], t);
    }
  }

  // The carrier's next level.
  function NextLevel(level: nat, c: Option<nat>): int {
    if c.None? then level + 1 else level - 1
  }

  // Passing an edit state loses and adds nothing, and work gets done unless an
  // empty carrier rises past a state that holds nothing back.
  lemma PassingKeeps(es: seq<Edit>, level: nat,
                     S: seq<EditState>, T: seq<Token>, c: Option<nat>,
                     S': seq<EditState>, T': seq<Token>, c': Option<nat>,
                     src: seq<Token>, out: seq<Token>)
    requires Chain(es, S, T) && Placed(es, S, T, level, c) && 1 <= level <= |es|
    requires Passed(es, level, S, T, c, S', T', c')
    ensures Placed(es, S', T', NextLevel(level, c'), c')
    ensures Total(es, S', T', NextLevel(level, c'), c', src, out) == Total(es, S, T, level, c, src, out)
    ensures
      var before, after := TotalWork(es, S, T, level, c, src), TotalWork(es, S', T', NextLevel(level, c'), c', src);
      after < before || (after == before && c.None? && c'.None?)
  {
    hide Pending, StateFor, FlatMap, Weights, EditToken, Down, Coming, Work;
    forall i | 1 <= i < level
      ensures Pending(S', T', i) == []
    {
      QuietStays(S, T, S', T', i);
    }
    ComingFrame(es, S, T, S', T', level + 1, src);
    LeavingTotal(es, S, T, level, c, src, out);
    var o := Leaving(es, S, T, level, c);
    var rest := FlatMap(es[level - 1], Coming(es, S, T, level + 1, src));
    if o == [] {
      PassedEmpty(es, level, S', T', src, out);
    } else {
      PassedFull(es, level, S', T', c'.value, o, src, out);
    }
  }

  lemma PassedEmpty(es: seq<Edit>, level: nat, S: seq<EditState>, T: seq<Token>, src: seq<Token>, out: seq<Token>)
    requires Chain(es, S, T) && 1 <= level <= |es|
    requires Placed(es, S, T, level + 1, None)
    ensures Total(es, S, T, level + 1, None, src, out) ==
      out + Down(es, level - 1, [] + FlatMap(es[level - 1], Coming(es, S, T, level + 1, src)))
    ensures TotalWork(es, S, T, level + 1, None, src) == Weights(es, level - 1, []) + Work(es, S, T, level + 1, src)
  {
    hide Pending, StateFor, FlatMap, EditToken, Coming, Work;
    var s := FlatMap(es[level - 1], Coming(es, S, T, level + 1, src));
    assert [] + s == s;
  }

  lemma PassedFull(es: seq<Edit>, level: nat, S: seq<EditState>, T: seq<Token>, k: nat, o: seq<Token>,
                   src: seq<Token>, out: seq<Token>)
    requires Chain(es, S, T) && 1 <= level <= |es| && k < |T|
    requires Placed(es, S, T, level - 1, Some(k))
    requires o != [] && T[k] == o[0] && Pending(S, T, level) == o[1..]
    ensures Total(es, S, T, level - 1, Some(k), src, out) ==
      out + Down(es, level - 1, o + FlatMap(es[level - 1], Coming(es, S, T, level + 1, src)))
    ensures TotalWork(es, S, T, level - 1, Some(k), src) + 1 ==
      Weights(es, level - 1, o) + Work(es, S, T, level + 1, src)
  {
    hide Pending, StateFor, FlatMap, EditToken, Down, Weight;
    var s := FlatMap(es[level - 1], Coming(es, S, T, level + 1, src));
    assert [o[0]] + (o[1..] + s) == o + s;
  }

  // The source fills an empty carrier at the top.
  lemma SourceKeeps(es: seq<Edit>, S: seq<EditState>, T: seq<Token>, t: Token, src: seq<Token>, out: seq<Token>)
    requires Chain(es, S, T) && Placed(es, S, T, |es| + 1, None)
    ensures
      var T' := T[|es| + 1 := t];
      && Chain(es, S, T') && Placed(es, S, T', |es|, Some(|es| + 1))
      && Total(es, S, T', |es|, Some(|es| + 1), src, out) == Total(es, S, T, |es| + 1, None, [t] + src, out)
      && TotalWork(es, S, T', |es|, Some(|es| + 1), src) < TotalWork(es, S, T, |es| + 1, None, [t] + src)
  {
    hide Pending, FlatMap, EditToken, Down, Weight;
    var T' := T[|es| + 1 := t];
    forall i | 1 <= i <= |es|
      ensures Pending(S, T', i) == []
    {
      QuietStays(S, T, S, T', i);
    }
    assert ([t] + src)[1..] == src;
  }

  // The writer takes the token out of a full carrier at the bottom.
  lemma WriterKeeps(es: seq<Edit>, S: seq<EditState>, T: seq<Token>, k: nat, src: seq<Token>, out: seq<Token>)
    requires Chain(es, S, T) && Placed(es, S, T, 0, Some(k))
    ensures Placed(es, S, T, 1, None)
    ensures Total(es, S, T, 1, None, src, out + [T[k]]) == Total(es, S, T, 0, Some(k), src, out)
    ensures TotalWork(es, S, T, 1, None, src) < TotalWork(es, S, T, 0, Some(k), src)
  {
    hide Pending, FlatMap, EditToken, Coming, Work;
    var s := Coming(es, S, T, 1, src);
    assert out + [T[k]] + s == out + ([T[k]] + s);
  }

  // The whole chain is the fold of the edits, oldest first.
  lemma {:induction false} DownIsApply(es: seq<Edit>, n: nat, ts: seq<Token>)
    requires n <= |es|
    ensures Down(es, n, ts) == ApplyAll(es[..n], ts)
  {
    hide FlatMap;
    if n == 0 {
    } else {
      DownIsApply(es, n - 1, FlatMap(es[n - 1], ts));
      ApplyLast(es[..n], ts);
      assert es[..n][..n - 1] == es[..n - 1];
    }
  }

  lemma {:induction false} ApplyLast(es: seq<Edit>, ts: seq<Token>)
    requires es != []
    ensures ApplyAll(es, ts) == ApplyAll(es[..|es| - 1], FlatMap(es[|es| - 1], ts))
  {
    hide FlatMap;
    var n := |es| - 1;
    if n == 0 {
    } else {
      ApplyLast(es[1..], ts);
      assert es[1..][..n - 1] == es[..n][1..];
    }
  }

  // No edit makes an end of file of another token.
  predicate NoEof(ts: seq<Token>) {
    forall i :: 0 <= i < |ts| ==> ts[i].kind != TokEof
  }

  lemma {:induction false} FlatMapNoEof(e: Edit, ts: seq<Token>)
    requires NoEof(ts)
    ensures NoEof(FlatMap(e, ts))
  {
    hide EditToken;
    if ts == [] {
    } else {
      FlatMapNoEof(e, ts[1..]);
      assert ts[0].kind != TokEof;
      EditNoEof(e, ts[0]);
    }
  }

  lemma EditNoEof(e: Edit, t: Token)
    requires t.kind != TokEof
    ensures NoEof(EditToken(e, t))
  {
    hide ParentKey, LastTag, SelfOrChild, OpenTag, CloseTag;
  }

  lemma {:induction false} ApplyNoEof(es: seq<Edit>, ts: seq<Token>)
    requires NoEof(ts)
    ensures NoEof(ApplyAll(es, ts))
  {
    if es == [] {
    } else {
      ApplyNoEof(es[1..], ts);
      FlatMapNoEof(es[0], ApplyAll(es[1..], ts));
    }
  }

  lemma {:induction false} ApplyEof(es: seq<Edit>, ts: seq<Token>)
    requires forall e :: e in es ==> e.key != ""
    ensures ApplyAll(es, ts + [EofToken]) == ApplyAll(es, ts) + [EofToken]
  {
    if es == [] {
    } else {
      ApplyEof(es[1..], ts);
      FlatMapConcat(es[0], ApplyAll(es[1..], ts), [EofToken]);
      FlatMapOne(es[0], EofToken);
    }
  }
}
