/** The formats that other programs and other versions rely on, in small examples, and the limits as numbers. */
module Formats {
  import opened Options
  import opened JsonStrings
  import opened OrderedObject
  import opened JsonTree
  import opened JsonText
  import opened Wire
  import PeerLog
  import PeerProtocol
  import AofLog

  /** The append-only file: a line for the key, marked with what is done to it, and one for the value. */
  lemma AofText(k: string, t: string, d: string, doc: string)
    ensures AofLog.Encode([AofLog.SetRec(k, t), AofLog.DelRec(d), AofLog.SnapRec(doc)]) ==
            "+" + k + "\n" + t + "\n" + ("-" + d + "\n") + ("*\n" + doc + "\n")
  {
    var a, b, c := AofLog.SetRec(k, t), AofLog.DelRec(d), AofLog.SnapRec(doc);
    AofLog.EncodeOne(a);
    AofLog.EncodeOne(b);
    AofLog.EncodeOne(c);
    AofLog.EncodeConcat([a], [b]);
    AofLog.EncodeConcat([a, b], [c]);
    assert [a] + [b] == [a, b] && [a, b] + [c] == [a, b, c];
  }

  /** The peer log: a letter for what the line does, and the op as JSON. */
  lemma PeerText(c: PeerLog.Codec, op: PeerLog.SyncOp)
    ensures PeerLog.Encode(c, [PeerLog.E(op), PeerLog.A]) == "E " + c.enc(op) + "\nA\n"
  {
    PeerLog.EncodeOne(c, PeerLog.E(op));
    PeerLog.EncodeOne(c, PeerLog.A);
    PeerLog.EncodeConcat(c, [PeerLog.E(op)], [PeerLog.A]);
    assert [PeerLog.E(op)] + [PeerLog.A] == [PeerLog.E(op), PeerLog.A];
  }

  /** Which requests a peer's queue holds, and what they become. */
  lemma QueuedShapes()
    ensures PeerProtocol.ToOp(PeerLog.SyncOp("PUT", "/db/a", "1", "application/json")) ==
            Some(PeerProtocol.OpSet("a", "1"))
    ensures PeerProtocol.ToOp(PeerLog.SyncOp("DELETE", "/db/a", "", "")) == Some(PeerProtocol.OpDel("a"))
    ensures PeerProtocol.ToOp(PeerLog.SyncOp("POST", "/clone/a/b", "", "")) == Some(PeerProtocol.OpClone("a", "b"))
    ensures PeerProtocol.ToOp(PeerLog.SyncOp("POST", "/vacuum", "", "")) == Some(PeerProtocol.OpVacuum)
    ensures PeerProtocol.ToOp(PeerLog.SyncOp("GET", "/db/a", "", "")) == None
    ensures PeerProtocol.ToOp(PeerLog.SyncOp("PUT", "/other/a", "1", "")) == None
  {
    PeerProtocol.QueuedOpsReadBack("a", "1", "a", "b");
    assert "/db/" + "a" == "/db/a" && "/clone/" + "a" + "/" + "b" == "/clone/a/b";
    assert "/other/a"[1] == 'o';
  }

  /** Seven bits a byte, the low ones first. */
  lemma UvarintBytes()
    ensures PutUvarint(0) == "\U{00}" && PutUvarint(127) == "\U{7F}"
    ensures PutUvarint(128) == "\U{80}\U{01}" && PutUvarint(300) == "\U{AC}\U{02}"
  {
    assert PutUvarint(1) == "\U{01}" && PutUvarint(2) == "\U{02}";
  }

  /** Ops on the wire: a letter, and a length before each text. */
  lemma OpBytes()
    ensures PeerProtocol.EncodeOp(PeerProtocol.OpSet("ab", "1")) == "s\U{02}ab\U{01}1"
    ensures PeerProtocol.EncodeOp(PeerProtocol.OpDel("ab")) == "d\U{02}ab"
    ensures PeerProtocol.EncodeOp(PeerProtocol.OpClone("ab", "c")) == "c\U{02}ab\U{01}c"
    ensures PeerProtocol.EncodeOp(PeerProtocol.OpVacuum) == "v"
    ensures PeerProtocol.EncodeBatch([PeerProtocol.OpDel("ab"), PeerProtocol.OpVacuum]) == "\U{02}d\U{02}abv"
  {
    assert PutUvarint(1) == "\U{01}" && PutUvarint(2) == "\U{02}";
    var ops := [PeerProtocol.OpDel("ab"), PeerProtocol.OpVacuum];
    assert ops[1..] == [PeerProtocol.OpVacuum] && ops[1..][1..] == [];
    assert PeerProtocol.EncodeOps(ops[1..]) == "v";
  }

  /** A batch result: how many ops are done, the rejected ones, and why it stopped. */
  lemma ResultBytes()
    ensures PeerProtocol.EncodeResult(PeerProtocol.BatchResult(2, map[1 := "no"], ""), [1]) ==
            "\U{02}\U{01}\U{01}\U{02}no\U{00}"
  {
    assert PutUvarint(0) == "\U{00}" && PutUvarint(1) == "\U{01}" && PutUvarint(2) == "\U{02}";
    assert [1][1..] == [];
  }

  /** A batch has at most 256 ops, and a text at most 64 MiB. */
  lemma Limits(b: string, rest: string)
    ensures Count(PutUvarint(256) + rest, PeerProtocol.MAX_BATCH_OPS) == Some((256, rest))
    ensures Count(PutUvarint(257) + rest, PeerProtocol.MAX_BATCH_OPS) == None
    ensures |b| <= 67108864 ==> Unframe(Frame(b) + rest, PeerProtocol.MAX_VALUE) == Some((b, rest))
    ensures 67108864 < |b| < 0x1_0000_0000_0000_0000 ==> Unframe(Frame(b) + rest, PeerProtocol.MAX_VALUE) == None
  {
    CountPut(256, rest, PeerProtocol.MAX_BATCH_OPS);
    LongCountRefused(257, rest, PeerProtocol.MAX_BATCH_OPS);
    if |b| <= 67108864 {
      UnframeFrame(b, rest, PeerProtocol.MAX_VALUE);
    } else if |b| < 0x1_0000_0000_0000_0000 {
      LongFrameRefused(b, rest, PeerProtocol.MAX_VALUE);
    }
  }

  /** A document's text has no space that is not in a string. */
  lemma DocumentText()
    ensures Render(Arr([Leaf("true"), Nil, Obj([])])) == "[true,null,{}]"
    ensures Render(Obj([Entry("a", "\"a\"", Leaf("1")), Entry("b", "\"b\"", Arr([]))])) == "{\"a\":1,\"b\":[]}"
  {
    var a, es := [Leaf("true"), Nil, Obj([])], [Entry("a", "\"a\"", Leaf("1")), Entry("b", "\"b\"", Arr([]))];
    assert a[1..] == [Nil, Obj([])] && a[1..][1..] == [Obj([])] && es[1..] == [es[1]];
    assert RenderElems([Obj([])]) == "{}";
    assert RenderElems([Nil, Obj([])]) == "null,{}";
    assert RenderFields([es[1]]) == "\"b\":[]";
  }

  /** Keys are quoted as they are if they can be, and else each character as encoding/json writes it. */
  lemma QuotedKeys(s: string)
    ensures Quote(s) ==
            if forall ch :: ch in s ==> ' ' <= ch <= '\U{7F}' && ch != '"' && ch != '\\'
            then "\"" + s + "\"" else "\"" + EscapeAll(s) + "\""
  {
  }

  lemma EscapedInOrder(ch: char, s: string)
    ensures EscapeAll("") == "" && EscapeAll([ch] + s) == EscapeChar(ch) + EscapeAll(s)
  {
    assert ([ch] + s)[1..] == s;
  }

  lemma ShortEscapes(ch: char)
    ensures EscapeChar('"') == "\\\"" && EscapeChar('\\') == "\\\\" && EscapeChar('\n') == "\\n"
    ensures EscapeChar('\r') == "\\r" && EscapeChar('\t') == "\\t"
    ensures EscapeChar('\U{08}') == "\\b" && EscapeChar('\U{0C}') == "\\f"
    ensures ' ' <= ch && ch !in "\"\\<>&\U{2028}\U{2029}" ==> EscapeChar(ch) == [ch]
  {
  }

  lemma UnicodeEscapes()
    ensures UnicodeEscape('\U{01}') == "\\u0001" && UnicodeEscape('<') == "\\u003c"
    ensures UnicodeEscape('\U{2029}') == "\\u2029"
  {
  }

  lemma LongEscapes(ch: char)
    requires ch in "<>&\U{2028}\U{2029}" || (ch < ' ' && ch !in "\n\r\t\U{08}\U{0C}")
    ensures ch as int < 0x10000 && EscapeChar(ch) == UnicodeEscape(ch)
  {
  }
}
