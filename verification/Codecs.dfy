/** A byte format for nodes and documents. It is not the one of the sources; it shows that
    the two requirements put on a format can be met. */
module Codecs {
  import opened Wrappers
  import opened Decimal
  import opened Padding
  import opened OdsSession
  import Subs = SubOrams

  // ---- texts and numbers ------------------------------------------------------

  /** Each byte behind a 1, a 0 at the end: no coded text begins another. */
  function Coded(text: Bytes): Bytes {
    if text == [] then [0] else [1, text[0]] + Coded(text[1..])
  }

  /** A coded text at the front, and what follows it. */
  function TakeText(s: Bytes): Option<(Bytes, Bytes)> {
    if s == [] then None
    else if s[0] == 0 then Some(([], s[1..]))
    else if |s| < 2 then None
    else
      match TakeText(s[2..])
      case None => None
      case Some((text, rest)) => Some(([s[1]] + text, rest))
  }

  lemma {:induction false} TakeCoded(text: Bytes, rest: Bytes)
    ensures TakeText(Coded(text) + rest) == Some((text, rest))
  {
    var s := Coded(text) + rest;
    if text == [] {
      assert s[1..] == rest;
    } else {
      TakeCoded(text[1..], rest);
      assert s[2..] == Coded(text[1..]) + rest;
      assert [text[0]] + text[1..] == text;
    }
  }

  function CodedInt(v: int): Bytes {
    [if v < 0 then 1 else 0] + Coded(ToString(if v < 0 then -v else v))
  }

  function TakeInt(s: Bytes): Option<(int, Bytes)> {
    if s == [] then None
    else
      match TakeText(s[1..])
      case None => None
      case Some((text, rest)) =>
        match Parse(text)
        case None => None
        case Some(n) =>
          var v: int := if s[0] == 1 then 0 - n as int else n;
          Some((v, rest))
  }

  lemma TakeCodedInt(v: int, rest: Bytes)
    ensures TakeInt(CodedInt(v) + rest) == Some((v, rest))
  {
    hide Coded, TakeText, ToString, Parse;
    var text := ToString(if v < 0 then -v else v);
    ParseToString(if v < 0 then -v else v);
    TakeCoded(text, rest);
    assert (CodedInt(v) + rest)[1..] == Coded(text) + rest;
  }

  // ---- nodes ------------------------------------------------------------------

  function Links(n: Node): Bytes {
    CodedInt(n.leftId) + (CodedInt(n.rightId) + (CodedInt(n.leftHeight) + (CodedInt(n.rightHeight) + [])))
  }

  function NodeBytes(n: Node): Bytes {
    CodedInt(n.id) + (Coded(n.key) + (Coded(n.data) + Links(n)))
  }

  function TakeLinks(s: Bytes): Option<(int, int, int, int)> {
    match TakeInt(s)
    case None => None
    case Some((leftId, s1)) =>
      match TakeInt(s1)
      case None => None
      case Some((rightId, s2)) =>
        match TakeInt(s2)
        case None => None
        case Some((leftHeight, s3)) =>
          match TakeInt(s3)
          case None => None
          case Some((rightHeight, _)) => Some((leftId, rightId, leftHeight, rightHeight))
  }

  function ReadNode(s: Bytes): Option<Node> {
    match TakeInt(s)
    case None => None
    case Some((id, s1)) =>
      match TakeText(s1)
      case None => None
      case Some((key, s2)) =>
        match TakeText(s2)
        case None => None
        case Some((data, s3)) =>
          match TakeLinks(s3)
          case None => None
          case Some((leftId, rightId, leftHeight, rightHeight)) =>
            Some(Node(id, key, data, leftId, rightId, leftHeight, rightHeight))
  }

  lemma TakeAllLinks(n: Node)
    ensures TakeLinks(Links(n)) == Some((n.leftId, n.rightId, n.leftHeight, n.rightHeight))
  {
    hide CodedInt, TakeInt;
    TakeCodedInt(n.rightHeight, []);
    TakeCodedInt(n.leftHeight, CodedInt(n.rightHeight) + []);
    TakeCodedInt(n.rightId, CodedInt(n.leftHeight) + (CodedInt(n.rightHeight) + []));
    TakeCodedInt(n.leftId, CodedInt(n.rightId) + (CodedInt(n.leftHeight) + (CodedInt(n.rightHeight) + [])));
  }

  lemma ReadNodeBytes(n: Node)
    ensures ReadNode(NodeBytes(n)) == Some(n)
  {
    hide Coded, TakeText, CodedInt, TakeInt, Links, TakeLinks;
    TakeAllLinks(n);
    TakeCoded(n.data, Links(n));
    TakeCoded(n.key, Coded(n.data) + Links(n));
    TakeCodedInt(n.id, Coded(n.key) + (Coded(n.data) + Links(n)));
  }

  const NODES: Codec := Codec(NodeBytes, ReadNode)

  /** The requirement on a node format can be met. */
  lemma NodesFaithful()
    ensures OdsSession.Faithful(NODES)
  {
    hide NodeBytes;
    forall n: Node ensures ReadNode(NodeBytes(n)) == Some(n) {
      ReadNodeBytes(n);
    }
  }

  // ---- documents --------------------------------------------------------------

  function CodedTexts(texts: seq<Bytes>): Bytes {
    if texts == [] then [0] else [1] + (Coded(texts[0]) + CodedTexts(texts[1..]))
  }

  function TakeTexts(s: Bytes): Option<seq<Bytes>>
    decreases |s|
  {
    if s == [] then None
    else if s[0] == 0 then Some([])
    else
      match TakeText(s[1..])
      case None => None
      case Some((text, rest)) =>
        if |rest| >= |s| then None
        else
          match TakeTexts(rest)
          case None => None
          case Some(texts) => Some([text] + texts)
  }

  lemma {:induction false} TakeCodedTexts(texts: seq<Bytes>)
    ensures TakeTexts(CodedTexts(texts)) == Some(texts)
  {
    hide Coded, TakeText;
    if texts != [] {
      var rest := CodedTexts(texts[1..]);
      TakeCoded(texts[0], rest);
      TakeCodedTexts(texts[1..]);
      assert CodedTexts(texts)[1..] == Coded(texts[0]) + rest;
      assert [texts[0]] + texts[1..] == texts;
    }
  }

  function DocumentBytes(d: Document): Bytes {
    CodedInt(d.id) + CodedTexts(d.keywords)
  }

  function ReadDocument(s: Bytes): Option<Document> {
    match TakeInt(s)
    case None => None
    case Some((id, rest)) =>
      match TakeTexts(rest)
      case None => None
      case Some(texts) => if id < 0 then None else Some(Document(id, texts))
  }

  const DOCUMENTS: Subs.DocCodec := Subs.DocCodec(DocumentBytes, ReadDocument)

  /** The requirement on a document format can be met. */
  lemma DocumentsFaithful()
    ensures Subs.Faithful(DOCUMENTS)
  {
    hide CodedInt, TakeInt, CodedTexts, TakeTexts;
    forall d: Document ensures ReadDocument(DocumentBytes(d)) == Some(d) {
      TakeCodedInt(d.id, CodedTexts(d.keywords));
      TakeCodedTexts(d.keywords);
    }
  }
}
