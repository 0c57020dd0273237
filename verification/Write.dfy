// Writing the edited document (mxml_write.c).
module Write {
  import opened Chars
  import opened Codec
  import opened Cursors
  import opened MxmlInt
  import opened KeyPath
  import opened Tree
  import opened Tokens
  import opened Tokenizer
  import opened TreeTokens
  import opened Flatten

  // The text that tokens stand for, user values encoded.
  function TextOf(ts: seq<Token>): string {
    if ts == [] then "" else Bytes(ts[0].value) + TextOf(ts[1..])
  }

  // The document with its edits.
  function Written(text: string, es: seq<Edit>): string {
    TextOf(ApplyAll(es, SourceOf(text).toks))
  }

  // What mxml_write gives; None when it fails, the callback apart.
  function WriteAnswer(text: string, es: seq<Edit>): Option<string> {
    if TagsFit(es) && SourceOf(text).ok then Some(Written(text, es)) else None
  }

  lemma {:induction false} TextOfConcat(a: seq<Token>, b: seq<Token>)
    ensures TextOf(a + b) == TextOf(a) + TextOf(b)
  {
    if a == [] {
      assert a + b == b;
    } else {
      assert (a + b)[0] == a[0] && (a + b)[1..] == a[1..] + b;
      TextOfConcat(a[1..], b);
    }
  }

  // The tokens of a tree are written as the text of the tree.
  lemma {:induction false} TextOfTree(key: string, items: Items)
    ensures TextOf(TokensOf(key, items)) == Ser(items)
    decreases items
  {
    hide OpenTag, CloseTag, Ext, Encode;
    match items {
      case Nil =>
      case Txt(c, rest) =>
        TextOfConcat([ValueToken(key, c)], TokensOf(key, rest));
        TextOfTree(key, rest);
      case El(tag, kids, rest) =>
        var k := Ext(key, tag);
        var o, c := [OpenToken(k, tag)], [CloseToken(k, tag)];
        TextOfConcat(o + TokensOf(k, kids) + c, TokensOf(key, rest));
        TextOfConcat(o + TokensOf(k, kids), c);
        TextOfConcat(o, TokensOf(k, kids));
        TextOfTree(k, kids);
        TextOfTree(key, rest);
    }
  }

  // The written document is the text of the edited tree.
  lemma WrittenIsTree(doc: Items, es: seq<Edit>)
    requires SourceDoc(doc) && NamedEdits(es)
    ensures Written(Ser(doc), es) == Ser(EditTree(es, doc))
  {
    SourceDocValid(doc);
    SourceOfTree(doc);
    ApplyTokensOf(es, doc);
    TextOfTree("", EditTree(es, doc));
  }

  // The scan arrives at the last character of the text, and that is a '<'.
  predicate Lone(text: string, pos: nat, key: string, init: bool)
    requires pos <= |text|
    decreases |text| - pos, !init
  {
    match ScanToken(text, pos, key, init)
    case Scanned(_, p, k) => Lone(text, p, k, true)
    case AtEnd => pos < |text|
    case Overflow => false
  }

  // Whatever the text, the tokens tile it, but for such a '<'.
  lemma {:induction false} SourceTiles(text: string, pos: nat, key: string, init: bool)
    requires pos <= |text| && Source(text, pos, key, init).ok
    ensures text[pos..] == TextOf(Source(text, pos, key, init).toks) + if Lone(text, pos, key, init) then "<" else ""
    decreases |text| - pos, !init
  {
    hide ScanToken;
    ScannedPiece(text, pos, key, init);
    match ScanToken(text, pos, key, init) {
      case Scanned(t, p, k) =>
        SourceTiles(text, p, k, true);
        assert text[pos..] == text[pos..p] + text[p..];
        TextOfConcat([t], Source(text, p, k, true).toks);
        assert TextOf([t]) == text[pos..p];
      case _ =>
    }
  }

  lemma ScannedPiece(text: string, pos: nat, key: string, init: bool)
    requires pos <= |text|
    ensures
      match ScanToken(text, pos, key, init)
      case Scanned(t, p, _) => t.value == Raw(text[pos..p])
      case AtEnd => text[pos..] == if pos < |text| then "<" else ""
      case Overflow => true
  {
    hide NameEnd, TagEnd, ParentKey;
  }

  // With no edits a document is written as it was, byte for byte, if and only if
  // the scan does not end at a '<' that is the last character.
  lemma WriteReproduces(text: string)
    requires SourceOf(text).ok
    ensures Written(text, []) == text <==> !Lone(text, 0, "", false)
  {
    hide Lone, Source;
    SourceTiles(text, 0, "", false);
    assert text[0..] == text;
  }

  // A '<' at the end may be that character, or stand within a tag.
  lemma LastTagKept()
    ensures !Lone("x<b <", 0, "", false) && Lone("a<", 0, "", false)
    ensures Written("x<b <", []) == "x<b <"
  {
    var text := "x<b <";
    assert text[0] == 'x' && text[1] == '<' && text[2] == 'b' && text[3] == ' ' && text[4] == '<';
    assert !At(text, 1, 5, COMMENT) by { NotAt(text, 1, 5, COMMENT, 1); }
    assert !At(text, 1, 5, INSTRUCTION) by { NotAt(text, 1, 5, INSTRUCTION, 1); }
    assert PastContent(text, 1, 5) == 1;
    assert PastContent(text, 0, 5) == 1;
    assert NameEnd(text, 3, 5) == 3;
    assert NameEnd(text, 2, 5) == 3;
    assert NextCh(text, 3, 5, '>') == 5;
    var t0 := ScanToken(text, 0, "", false);
    assert t0.Scanned? && t0.pos == 1 && t0.key == "";
    var t1 := ScanToken(text, 1, "", true);
    assert t1.Scanned? && t1.pos == 5;
    WriteReproduces(text);
  }

  lemma LoneTagIsLost()
    ensures SourceOf("a<").ok && Written("a<", []) == "a"
  {
    assert "a<"[..1] == "a";
  }

  // The output callback: what it answers for a piece of text, given the text before.
  type Writer = (string, string) -> int

  function OnePiece(s: string): seq<string> {
    if s == "" then [] else [s]
  }

  // The pieces a user value is handed on in, from first on, next having been looked
  // up to: what needs no encoding, and entities.
  function UserPieces(s: string, first: nat, next: nat): seq<string>
    requires first <= next <= |s|
    decreases |s| - next
  {
    if next == |s| then OnePiece(s[first..])
    else if Special(s[next]) then
      OnePiece(s[first..next]) + [EncodeChar(s[next])] + UserPieces(s, next + 1, next + 1)
    else UserPieces(s, first, next + 1)
  }

  function Pieces(c: Chunk): seq<string> {
    match c
    case Raw(s) => OnePiece(s)
    case User(s) => UserPieces(s, 0, 0)
  }

  // What comes of handing pieces on: whether the writer answered -1 for one, the sum
  // of its answers before, and all it has been handed.
  datatype Offer = Offer(refused: bool, sum: int, text: string)

  function Offered(w: Writer, sent: string, ps: seq<string>): Offer
    decreases |ps|
  {
    if ps == [] then Offer(false, 0, sent)
    else if w(sent, ps[0]) == -1 then Offer(true, 0, sent + ps[0])
    else Plus(w(sent, ps[0]), Offered(w, sent + ps[0], ps[1..]))
  }

  function Plus(n: int, o: Offer): Offer {
    o.(sum := n + o.sum)
  }

  // What write_token returns.
  function Returned(o: Offer): int {
    if o.refused then -1 else o.sum
  }

  lemma OfferPiece(w: Writer, ret: int, text: string, p: string, rest: seq<string>)
    requires p != ""
    ensures
      var o := Plus(ret, Offered(w, text, OnePiece(p) + rest));
      if w(text, p) == -1 then o.refused && o.text == text + p
      else o == Plus(ret + w(text, p), Offered(w, text + p, rest))
  {
    var ps := OnePiece(p) + rest;
    assert ps[0] == p && ps[1..] == rest;
  }

  // OUT in write_token: nothing is handed on for nothing.
  method Out(w: Writer, ret: int, text: string, p: string, ghost rest: seq<string>)
    returns (refused: bool, sum: int, more: string)
    ensures
      var o := Plus(ret, Offered(w, text, OnePiece(p) + rest));
      if refused then o.refused && more == o.text else o == Plus(sum, Offered(w, more, rest))
  {
    hide Offered;
    if p == "" {
      assert OnePiece(p) + rest == rest;
      return false, ret, text;
    }
    OfferPiece(w, ret, text, p, rest);
    var n := w(text, p);
    refused, sum, more := n == -1, ret + n, text + p;
  }

  // write_token: a raw value as it stands, a user value piece by piece.
  method WriteToken(token: Token, w: Writer, sent: string) returns (ret: int, text: string)
    ensures var o := Offered(w, sent, Pieces(token.value)); ret == Returned(o) && text == o.text
  {
    hide Offered;
    ret, text := 0, sent;
    var refused;
    ghost var all := Offered(w, sent, Pieces(token.value));
    if token.value.Raw? {
      assert OnePiece(token.value.s) + [] == OnePiece(token.value.s);
      refused, ret, text := Out(w, ret, text, token.value.s, []);
      NothingOffered(w, text);
      return if refused then -1 else ret, text;
    }
    var s := token.value.s;
    var first, next := 0, 0;
    while next < |s|
      invariant first <= next <= |s|
      invariant all == Plus(ret, Offered(w, text, UserPieces(s, first, next)))
    {
      if Special(s[next]) {
        ghost var rest := UserPieces(s, next + 1, next + 1);
        SplitPieces(s, first, next);
        refused, ret, text := Out(w, ret, text, s[first..next], OnePiece(EncodeChar(s[next])) + rest);
        if refused {
          return -1, text;
        }
        var entity := if s[next] == '<' then "&lt;" else if s[next] == '>' then "&gt;" else "&amp;";
        refused, ret, text := Out(w, ret, text, entity, rest);
        if refused {
          return -1, text;
        }
        next := next + 1;
        first := next;
      } else {
        next := next + 1;
      }
    }
    assert OnePiece(s[first..]) + [] == UserPieces(s, first, |s|);
    refused, ret, text := Out(w, ret, text, s[first..], []);
    NothingOffered(w, text);
    ret := if refused then -1 else ret;
  }

  lemma NothingOffered(w: Writer, text: string)
    ensures Offered(w, text, []) == Offer(false, 0, text)
  {
  }

  lemma SplitPieces(s: string, first: nat, next: nat)
    requires first <= next < |s| && Special(s[next])
    ensures UserPieces(s, first, next)
      == OnePiece(s[first..next]) + (OnePiece(EncodeChar(s[next])) + UserPieces(s, next + 1, next + 1))
  {
    assert OnePiece(EncodeChar(s[next])) == [EncodeChar(s[next])];
  }

  function Joining(ps: seq<string>): string {
    if ps == [] then "" else ps[0] + Joining(ps[1..])
  }

  lemma {:induction false} JoiningConcat(a: seq<string>, b: seq<string>)
    ensures Joining(a + b) == Joining(a) + Joining(b)
  {
    if a == [] {
      assert a + b == b;
    } else {
      assert (a + b)[0] == a[0] && (a + b)[1..] == a[1..] + b;
      JoiningConcat(a[1..], b);
    }
  }

  // The pieces of a value are what it is written as.
  lemma {:induction false} UserJoining(s: string, first: nat, next: nat)
    requires first <= next <= |s| && forall i :: first <= i < next ==> !Special(s[i])
    ensures Encode(s[..first]) + Joining(UserPieces(s, first, next)) == Encode(s)
    decreases |s| - next
  {
    hide UserPieces, Joining, Encode, EncodeChar, Special;
    if next == |s| {
      EncodeTail(s, first);
      TailPiece(s, first);
    } else if Special(s[next]) {
      UserJoining(s, next + 1, next + 1);
      EncodePiece(s, first, next);
      SplitJoining(s, first, next);
      var e, a, b, c := Encode(s[..first]), s[first..next], EncodeChar(s[next]), UserPieces(s, next + 1, next + 1);
      assert e + ((a + b) + Joining(c)) == (e + a + b) + Joining(c);
    } else {
      NoPieceYet(s, first, next);
      UserJoining(s, first, next + 1);
    }
  }

  lemma TailPiece(s: string, first: nat)
    requires first <= |s|
    ensures Joining(UserPieces(s, first, |s|)) == s[first..]
  {
    PieceJoining(s[first..]);
  }

  lemma NoPieceYet(s: string, first: nat, next: nat)
    requires first <= next < |s| && !Special(s[next])
    ensures UserPieces(s, first, next) == UserPieces(s, first, next + 1)
  {
  }

  lemma SplitJoining(s: string, first: nat, next: nat)
    requires first <= next < |s| && Special(s[next])
    ensures Joining(UserPieces(s, first, next))
      == (s[first..next] + EncodeChar(s[next])) + Joining(UserPieces(s, next + 1, next + 1))
  {
    hide UserPieces, Joining, EncodeChar, OnePiece;
    var a, b, c := s[first..next], EncodeChar(s[next]), UserPieces(s, next + 1, next + 1);
    SplitPieces(s, first, next);
    JoiningConcat(OnePiece(a), OnePiece(b) + c);
    JoiningConcat(OnePiece(b), c);
    PieceJoining(a);
    PieceJoining(b);
    assert a + (b + Joining(c)) == (a + b) + Joining(c);
  }

  lemma PieceJoining(s: string)
    ensures Joining(OnePiece(s)) == s
  {
    if s != "" {
      assert [s][1..] == [] && s + "" == s;
    }
  }

  lemma ValueJoining(c: Chunk)
    ensures Joining(Pieces(c)) == Bytes(c)
  {
    match c {
      case Raw(s) => PieceJoining(s);
      case User(s) =>
        UserJoining(s, 0, 0);
        assert s[..0] == "" && Encode("") == "";
    }
  }

  // What is not refused is all written.
  lemma {:induction false} OfferedAll(w: Writer, sent: string, ps: seq<string>)
    ensures var o := Offered(w, sent, ps); !o.refused ==> o.text == sent + Joining(ps)
    ensures (forall a, s :: w(a, s) >= 0) ==> !Offered(w, sent, ps).refused && Offered(w, sent, ps).sum >= 0
    decreases |ps|
  {
    if ps == [] {
    } else {
      OfferedAll(w, sent + ps[0], ps[1..]);
      assert (sent + ps[0]) + Joining(ps[1..]) == sent + (ps[0] + Joining(ps[1..]));
    }
  }

  lemma EncodePiece(s: string, first: nat, next: nat)
    requires first <= next < |s| && forall i :: first <= i < next ==> !Special(s[i])
    ensures Encode(s[..next + 1]) == Encode(s[..first]) + s[first..next] + EncodeChar(s[next])
  {
    EncodeTail(s[..next], first);
    assert s[..next][..first] == s[..first] && s[..next][first..] == s[first..next];
    assert s[..next + 1] == s[..next] + [s[next]];
    EncodeConcat(s[..next], [s[next]]);
    assert [s[next]][1..] == "";
    assert Encode([s[next]]) == EncodeChar(s[next]);
  }

  lemma EncodeTail(s: string, first: nat)
    requires first <= |s| && forall i :: first <= i < |s| ==> !Special(s[i])
    ensures Encode(s) == Encode(s[..first]) + s[first..]
  {
    hide Encode, Special;
    var tail := s[first..];
    assert forall k :: 0 <= k < |tail| ==> tail[k] == s[first + k];
    assert s == s[..first] + tail;
    EncodeConcat(s[..first], tail);
    EncodeNothing(tail);
  }

  // write_token as the callback of flatten_edits.
  function TokenAnswer(w: Writer, ts: seq<Token>): int {
    if ts == [] then 0 else Returned(LastOffered(w, ts))
  }

  function LastOffered(w: Writer, ts: seq<Token>): Offer
    requires ts != []
  {
    Offered(w, TextOf(ts[..|ts| - 1]), Pieces(ts[|ts| - 1].value))
  }

  function WriteTokens(w: Writer): Callback {
    (ts: seq<Token>) => TokenAnswer(w, ts)
  }

  // All that the writer is handed, piece by piece.
  function AllPieces(ts: seq<Token>): seq<string> {
    if ts == [] then [] else AllPieces(ts[..|ts| - 1]) + Pieces(ts[|ts| - 1].value)
  }

  lemma {:induction false} OfferedBoth(w: Writer, sent: string, a: seq<string>, b: seq<string>)
    requires !Offered(w, sent, a).refused
    ensures var o := Offered(w, sent, a); Offered(w, sent, a + b) == Plus(o.sum, Offered(w, o.text, b))
    decreases |a|
  {
    if a == [] {
      assert a + b == b;
    } else {
      assert (a + b)[0] == a[0] && (a + b)[1..] == a[1..] + b;
      OfferedBoth(w, sent + a[0], a[1..], b);
    }
  }

  lemma {:induction false} PiecesJoin(ts: seq<Token>)
    ensures Joining(AllPieces(ts)) == TextOf(ts)
  {
    hide Pieces, Bytes;
    if ts == [] {
    } else {
      var init, t := ts[..|ts| - 1], ts[|ts| - 1];
      PiecesJoin(init);
      JoiningConcat(AllPieces(init), Pieces(t.value));
      ValueJoining(t.value);
      TextOfConcat(init, [t]);
      assert ts == init + [t] && TextOf([t]) == Bytes(t.value);
    }
  }

  // Token by token the answers add up to what they are piece by piece.
  lemma {:induction false} AllAnswered(w: Writer, ts: seq<Token>)
    requires forall a, s :: w(a, s) >= 0
    ensures Answers(WriteTokens(w), ts) == Offered(w, "", AllPieces(ts)).sum
  {
    hide Offered, Pieces, Bytes;
    if ts == [] {
      NothingOffered(w, "");
    } else {
      var init, t := ts[..|ts| - 1], ts[|ts| - 1];
      AllAnswered(w, init);
      OfferedAll(w, "", AllPieces(init));
      PiecesJoin(init);
      assert "" + TextOf(init) == TextOf(init);
      OfferedBoth(w, "", AllPieces(init), Pieces(t.value));
      OfferedAll(w, TextOf(init), Pieces(t.value));
      assert TokenAnswer(w, ts) == Offered(w, TextOf(init), Pieces(t.value)).sum;
    }
  }

  // What comes of a writer that counts.
  lemma CountsUp(w: Writer, all: seq<Token>)
    requires forall a, s :: w(a, s) >= 0
    ensures FirstRefused(WriteTokens(w), all, 0) == |all|
    ensures Answers(WriteTokens(w), all) == Offered(w, "", AllPieces(all)).sum >= 0
    ensures (forall a, s :: w(a, s) == |s|) ==> Answers(WriteTokens(w), all) == |TextOf(all)|
  {
    hide Offered, Pieces, Bytes, Answers, FirstRefused;
    NeverRefuses(w, all, 0);
    AllAnswered(w, all);
    if (forall a, s :: w(a, s) == |s|) {
      AllCounted(w, "", AllPieces(all));
      PiecesJoin(all);
    }
  }

  // A writer that answers with the length of what it is handed.
  lemma {:induction false} AllCounted(w: Writer, sent: string, ps: seq<string>)
    requires forall a, s :: w(a, s) == |s|
    ensures var o := Offered(w, sent, ps); !o.refused && o.sum == |Joining(ps)|
    decreases |ps|
  {
    if ps == [] {
    } else {
      AllCounted(w, sent + ps[0], ps[1..]);
    }
  }

  // The writer is handed one piece after another up to the first that it answers -1
  // for, if there is one, and nothing more.
  lemma {:induction false} OfferedStops(w: Writer, sent: string, ps: seq<string>) returns (n: nat)
    ensures n <= |ps| && forall k :: 0 <= k < n ==> w(sent + Joining(ps[..k]), ps[k]) != -1
    ensures
      var o := Offered(w, sent, ps);
      && o.refused == (n < |ps|)
      && (o.refused ==> w(sent + Joining(ps[..n]), ps[n]) == -1 && o.text == sent + Joining(ps[..n + 1]))
      && (!o.refused ==> o.text == sent + Joining(ps))
    decreases |ps|
  {
    hide Joining;
    OfferedAll(w, sent, ps);
    JoinedFirst(sent, ps);
    if ps == [] {
      n := 0;
    } else if w(sent, ps[0]) == -1 {
      n := 0;
      assert ps[..1][1..] == [] && ps[..0] == [];
      JoinedFirst(sent, ps[..0]);
      JoinedFirst(sent, ps[..1]);
      JoinedFirst(sent + ps[0], ps[..1][1..]);
    } else {
      var m := OfferedStops(w, sent + ps[0], ps[1..]);
      n := m + 1;
      forall k | 0 <= k < n
        ensures w(sent + Joining(ps[..k]), ps[k]) != -1
      {
        if k > 0 {
          JoinedTo(sent, ps, k);
          assert ps[k] == ps[1..][k - 1];
        } else {
          JoinedFirst(sent, ps[..0]);
        }
      }
      if n < |ps| {
        assert ps[n] == ps[1..][m];
        JoinedTo(sent, ps, n);
        JoinedTo(sent, ps, n + 1);
      }
    }
  }

  lemma JoinedTo(sent: string, ps: seq<string>, k: nat)
    requires 0 < k <= |ps|
    ensures sent + Joining(ps[..k]) == (sent + ps[0]) + Joining(ps[1..][..k - 1])
  {
    hide Joining;
    assert ps[..k][0] == ps[0] && ps[..k][1..] == ps[1..][..k - 1];
    JoinedFirst(sent, ps[..k]);
  }

  lemma JoinedFirst(sent: string, ps: seq<string>)
    ensures ps == [] ==> sent + Joining(ps) == sent
    ensures ps != [] ==> sent + Joining(ps) == (sent + ps[0]) + Joining(ps[1..])
  {
  }

  // The writer is never handed nothing.
  lemma {:induction false} NoneEmpty(s: string, first: nat, next: nat)
    requires first <= next <= |s|
    ensures forall p :: p in UserPieces(s, first, next) ==> p != ""
    decreases |s| - next
  {
    if next == |s| {
    } else if Special(s[next]) {
      NoneEmpty(s, next + 1, next + 1);
    } else {
      NoneEmpty(s, first, next + 1);
    }
  }

  lemma PiecesFilled(c: Chunk)
    ensures forall p :: p in Pieces(c) ==> p != ""
  {
    if c.User? { NoneEmpty(c.s, 0, 0); }
  }

  // mxml_write, and all that the writer has been handed. It fails when a tag or a
  // key does not fit, and as soon as the writer has answered -1 for a token.
  method MxmlWrite(m: Mxml, w: Writer) returns (ret: int, text: string)
    requires forall e :: e in m.edits ==> e.key != ""
    ensures !TagsFit(m.edits) ==> ret == -1 && text == ""
    ensures TagsFit(m.edits) ==>
      var all := ApplyAll(m.edits, SourceOf(m.text).toks);
      var n := FirstRefused(WriteTokens(w), all, 0);
      if n < |all| then ret == -1 && text == LastOffered(w, all[..n + 1]).text
      else
        && text == Written(m.text, m.edits)
        && ret == if SourceOf(m.text).ok then Answers(WriteTokens(w), all) else -1
    ensures (forall a, s :: w(a, s) >= 0) ==>
      && WriteAnswer(m.text, m.edits) == (if ret >= 0 then Some(text) else None)
      && (ret >= 0 ==> ret == Offered(w, "", AllPieces(ApplyAll(m.edits, SourceOf(m.text).toks))).sum)
    ensures (forall a, s :: w(a, s) == |s|) && ret != -1 ==> ret == |text|
  {
    hide ApplyAll, TagsFit, Bytes, Source, Offered, FirstRefused, Answers, AllPieces, Returned;
    var tokens;
    ret, tokens := FlattenEdits(m, WriteTokens(w));
    text := "";
    ghost var all := ApplyAll(m.edits, SourceOf(m.text).toks);
    ghost var n := FirstRefused(WriteTokens(w), all, 0);
    for i := 0 to |tokens|
      invariant i <= n ==> text == TextOf(tokens[..i])
      invariant 0 < i == n + 1 ==> text == LastOffered(w, tokens[..i]).text
    {
      var _, more := WriteToken(tokens[i], w, text);
      assert tokens[..i + 1][..i] == tokens[..i] && tokens[..i + 1][i] == tokens[i];
      assert tokens[..i + 1] == all[..i + 1];
      assert i < n ==> !Refuses(WriteTokens(w), all, i);
      AnswerWrites(w, tokens[..i + 1]);
      text := more;
    }
    assert tokens[..|tokens|] == tokens;
    if (forall a, s :: w(a, s) >= 0) {
      CountsUp(w, all);
    }
  }

  // A token that is not refused is written out.
  lemma AnswerWrites(w: Writer, ts: seq<Token>)
    requires ts != []
    ensures TokenAnswer(w, ts) != -1 ==> LastOffered(w, ts).text == TextOf(ts)
  {
    hide Offered, Bytes;
    var init, t := ts[..|ts| - 1], ts[|ts| - 1];
    OfferedAll(w, TextOf(init), Pieces(t.value));
    ValueJoining(t.value);
    TextOfConcat(init, [t]);
    assert ts == init + [t];
    assert TextOf([t]) == Bytes(t.value);
  }

  // A writer that always answers with a count refuses nothing.
  lemma {:induction false} NeverRefuses(w: Writer, all: seq<Token>, i: nat)
    requires i <= |all| && forall a, s :: w(a, s) >= 0
    ensures FirstRefused(WriteTokens(w), all, i) == |all| && Answers(WriteTokens(w), all) >= 0
    decreases |all| - i
  {
    hide Offered;
    if i == |all| {
      SumsUp(w, all);
    } else {
      CountsToken(w, all[..i + 1]);
      NeverRefuses(w, all, i + 1);
    }
  }

  lemma CountsToken(w: Writer, ts: seq<Token>)
    requires forall a, s :: w(a, s) >= 0
    ensures WriteTokens(w)(ts) >= 0
  {
    hide Offered;
    if ts != [] {
      OfferedAll(w, TextOf(ts[..|ts| - 1]), Pieces(ts[|ts| - 1].value));
    }
  }

  lemma {:induction false} SumsUp(w: Writer, all: seq<Token>)
    requires forall a, s :: w(a, s) >= 0
    ensures Answers(WriteTokens(w), all) >= 0
  {
    if all == [] {
    } else {
      SumsUp(w, all[..|all| - 1]);
      CountsToken(w, all);
    }
  }
}
