/** Base64 in its two alphabets (RFC 4648 sections 4 and 5), with and without line breaks. */
module Base64 {
  import opened Wrappers
  import opened Powers

  // ---- the alphabets --------------------------------------------------------

  const NEWLINE: bv8 := 10
  const EQUALS: bv8 := 61
  const DOT: bv8 := 46

  function Trailing(url: bool): bv8 {
    if url then DOT else EQUALS
  }

  /** "A..Za..z0..9+/", or "-_" at the end for URLs. */
  function CharOf(i: bv8, url: bool): bv8
    requires i < 64
  {
    if i < 26 then 65 + i
    else if i < 52 then 97 + (i - 26)
    else if i < 62 then 48 + (i - 52)
    else if i == 62 then (if url then 45 else 43)
    else (if url then 95 else 47)
  }

  function PosOfChar(c: bv8): Result<bv8> {
    if 65 <= c <= 90 then Success(c - 65)
    else if 97 <= c <= 122 then Success(c - 97 + (90 - 65) + 1)
    else if 48 <= c <= 57 then Success(c - 48 + (90 - 65) + (122 - 97) + 2)
    else if c == 43 || c == 45 then Success(62)
    else if c == 47 || c == 95 then Success(63)
    else Failure(BadBase64)
  }

  lemma PosOfCharOf(i: bv8, url: bool)
    requires i < 64
    ensures PosOfChar(CharOf(i, url)) == Success(i)
    ensures CharOf(i, url) !in {NEWLINE, EQUALS, DOT}
  {
  }

  // ---- three bytes and four sextets -----------------------------------------

  function First(a: bv8): (r: bv8)
    ensures r < 64
  {
    (a & 0xfc) >> 2
  }

  function Second(a: bv8, b: bv8): (r: bv8)
    ensures r < 64
  {
    ((a & 0x03) << 4) + ((b & 0xf0) >> 4)
  }

  function Third(b: bv8, c: bv8): (r: bv8)
    ensures r < 64
  {
    ((b & 0x0f) << 2) + ((c & 0xc0) >> 6)
  }

  function Fourth(c: bv8): (r: bv8)
    ensures r < 64
  {
    c & 0x3f
  }

  function FirstByte(p0: bv8, p1: bv8): bv8 {
    (p0 << 2) + ((p1 & 0x30) >> 4)
  }

  function SecondByte(p1: bv8, p2: bv8): bv8 {
    ((p1 & 0x0f) << 4) + ((p2 & 0x3c) >> 2)
  }

  function ThirdByte(p2: bv8, p3: bv8): bv8 {
    ((p2 & 0x03) << 6) + p3
  }

  lemma SextetsGiveBytes(a: bv8, b: bv8, c: bv8)
    ensures FirstByte(First(a), Second(a, b)) == a
    ensures SecondByte(Second(a, b), Third(b, c)) == b
    ensures ThirdByte(Third(b, c), Fourth(c)) == c
  {
  }

  // ---- encoding -------------------------------------------------------------

  /** One turn of the encoding loop, on what is left of the input. */
  function EncodeGroup(rest: Bytes, url: bool): (r: Bytes)
    requires rest != []
    ensures |r| == 4
  {
    if |rest| == 1 then
      [CharOf(First(rest[0]), url), CharOf(Second(rest[0], 0), url), Trailing(url), Trailing(url)]
    else if |rest| == 2 then
      [CharOf(First(rest[0]), url), CharOf(Second(rest[0], rest[1]), url), CharOf(Third(rest[1], 0), url),
          Trailing(url)]
    else
      [CharOf(First(rest[0]), url), CharOf(Second(rest[0], rest[1]), url),
       CharOf(Third(rest[1], rest[2]), url), CharOf(Fourth(rest[2]), url)]
  }

  function Tail(s: Bytes, n: nat): (r: Bytes)
    ensures |r| == if n <= |s| then |s| - n else 0
  {
    if n <= |s| then s[n..] else []
  }

  function EncodeSpec(bytes: Bytes, url: bool): Bytes
    decreases |bytes|
  {
    if bytes == [] then [] else EncodeGroup(bytes, url) + EncodeSpec(Tail(bytes, 3), url)
  }

  method Encode(bytes: Bytes, url: bool) returns (ret: Bytes)
    ensures ret == EncodeSpec(bytes, url) && IsText(ret, bytes, url)
  {
    hide EncodeGroup, IsText;
    EncodeIsText(bytes, url);
    ret := [];
    var pos := 0;
    while pos < |bytes|
      invariant ret + EncodeSpec(Tail(bytes, pos), url) == EncodeSpec(bytes, url)
      decreases |bytes| - pos
    {
      assert Tail(Tail(bytes, pos), 3) == Tail(bytes, pos + 3);
      var group := EncodeTurn(bytes, pos, url);
      ret := ret + group;
      pos := pos + 3;
    }
  }

  /** The body of the encoding loop. */
  method EncodeTurn(bytes: Bytes, pos: nat, url: bool) returns (ret: Bytes)
    requires pos < |bytes|
    ensures ret == EncodeGroup(Tail(bytes, pos), url)
  {
    hide CharOf, First, Second, Third, Fourth;
    ghost var rest := Tail(bytes, pos);
    assert rest[0] == bytes[pos];
    ret := [CharOf(First(bytes[pos]), url)];
    if pos + 1 < |bytes| {
      assert rest[1] == bytes[pos + 1];
      ret := ret + [CharOf(Second(bytes[pos], bytes[pos + 1]), url)];
      if pos + 2 < |bytes| {
        assert rest[2] == bytes[pos + 2];
        ret := ret + [CharOf(Third(bytes[pos + 1], bytes[pos + 2]), url)];
        ret := ret + [CharOf(Fourth(bytes[pos + 2]), url)];
      } else {
        ret := ret + [CharOf(Third(bytes[pos + 1], 0), url)];
        ret := ret + [Trailing(url)];
      }
    } else {
      ret := ret + [CharOf(Second(bytes[pos], 0), url)];
      ret := ret + [Trailing(url)];
      ret := ret + [Trailing(url)];
    }
  }

  // ---- what the encoding is, bit by bit ---------------------------------------

  /** RFC 4648, tables 1 and 2. */
  function Alphabet(url: bool): (r: string)
    ensures |r| == 64
  {
    "ABCDEFGHIJKLMNOPQRSTUVWXYZ" + "abcdefghijklmnopqrstuvwxyz" + "0123456789" + if url then "-_" else "+/"
  }

  /** Bit k of the input, the highest bit of the first byte being bit 0; zero behind the end. */
  function Bit(bytes: Bytes, k: nat): (r: bv8)
    ensures r <= 1
  {
    if k / 8 < |bytes| then (bytes[k / 8] >> (7 - k % 8)) & 1 else 0
  }

  /** Bits 6 i up to 6 i + 5 as a number. */
  function SixBits(bytes: Bytes, i: nat): (r: bv8)
    ensures r < 64
  {
    Six(Bit(bytes, 6 * i), Bit(bytes, 6 * i + 1), Bit(bytes, 6 * i + 2), Bit(bytes, 6 * i + 3),
        Bit(bytes, 6 * i + 4), Bit(bytes, 6 * i + 5))
  }

  function Six(a: bv8, b: bv8, c: bv8, d: bv8, e: bv8, f: bv8): (r: bv8)
    requires a <= 1 && b <= 1 && c <= 1 && d <= 1 && e <= 1 && f <= 1
    ensures r < 64
  {
    (a << 5) | (b << 4) | (c << 3) | (d << 2) | (e << 1) | f
  }

  /** How many characters the last group lacks. */
  function Missing(n: nat): (r: nat)
    ensures r <= 2
  {
    (3 - n % 3) % 3
  }

  /** The text: a character for every six bits, the last ones filled up with zeros, and then
      "=", or "." for URLs, up to a multiple of four. */
  ghost predicate IsText(r: Bytes, bytes: Bytes, url: bool) {
    && |r| == (|bytes| + 2) / 3 * 4
    && forall i :: 0 <= i < |r| ==>
        r[i] as char == if i < |r| - Missing(|bytes|) then Alphabet(url)[SixBits(bytes, i)]
                        else if url then '.' else '='
  }

  lemma UpperRun(n: nat)
    requires n < 26
    ensures "ABCDEFGHIJKLMNOPQRSTUVWXYZ"[n] as int == 65 + n
  {
  }

  lemma LowerRun(n: nat)
    requires n < 26
    ensures "abcdefghijklmnopqrstuvwxyz"[n] as int == 97 + n
  {
  }

  lemma DigitRun(n: nat)
    requires n < 10
    ensures "0123456789"[n] as int == 48 + n
  {
  }

  lemma AlphabetAt(n: nat, url: bool)
    requires n < 64
    ensures Alphabet(url)[n] as int ==
              if n < 26 then 65 + n else if n < 52 then 97 + (n - 26) else if n < 62 then 48 + (n - 52)
              else if n == 62 then (if url then 45 else 43) else (if url then 95 else 47)
  {
    if n < 26 {
      UpperRun(n);
    } else if n < 52 {
      LowerRun(n - 26);
    } else if n < 62 {
      DigitRun(n - 52);
    }
  }

  lemma CharOfAlphabet(i: bv8, url: bool)
    requires i < 64
    ensures CharOf(i, url) as char == Alphabet(url)[i]
  {
    hide Alphabet;
    AlphabetAt(i as nat, url);
    assert CharOf(i, url) as int ==
        if i < 26 then 65 + i as int else if i < 52 then 97 + (i as int - 26) else if i < 62 then 48 + (i as int - 52)
        else if i == 62 then (if url then 45 else 43) else (if url then 95 else 47);
  }

  /** Byte i, zero behind the end. */
  function ByteAt(bytes: Bytes, i: nat): bv8 {
    if i < |bytes| then bytes[i] else 0
  }

  lemma BitOfByte(bytes: Bytes, i: nat, j: nat)
    requires j < 8
    ensures Bit(bytes, 8 * i + j) == (ByteAt(bytes, i) >> (7 - j)) & 1
  {
    assert (8 * i + j) / 8 == i && (8 * i + j) % 8 == j;
  }

  lemma BitsOfByte(bytes: Bytes, i: nat)
    ensures var b := ByteAt(bytes, i);
            && Bit(bytes, 8 * i) == (b >> 7) & 1 && Bit(bytes, 8 * i + 1) == (b >> 6) & 1
            && Bit(bytes, 8 * i + 2) == (b >> 5) & 1 && Bit(bytes, 8 * i + 3) == (b >> 4) & 1
            && Bit(bytes, 8 * i + 4) == (b >> 3) & 1 && Bit(bytes, 8 * i + 5) == (b >> 2) & 1
            && Bit(bytes, 8 * i + 6) == (b >> 1) & 1 && Bit(bytes, 8 * i + 7) == b & 1
  {
    hide Bit, ByteAt;
    BitOfByte(bytes, i, 0);
    BitOfByte(bytes, i, 1);
    BitOfByte(bytes, i, 2);
    BitOfByte(bytes, i, 3);
    BitOfByte(bytes, i, 4);
    BitOfByte(bytes, i, 5);
    BitOfByte(bytes, i, 6);
    BitOfByte(bytes, i, 7);
  }

  lemma SextetsFromBits(a: bv8, b: bv8, c: bv8)
    ensures Six((a >> 7) & 1, (a >> 6) & 1, (a >> 5) & 1, (a >> 4) & 1, (a >> 3) & 1, (a >> 2) & 1) == First(a)
    ensures Six((a >> 1) & 1, a & 1, (b >> 7) & 1, (b >> 6) & 1, (b >> 5) & 1, (b >> 4) & 1) == Second(a, b)
    ensures Six((b >> 3) & 1, (b >> 2) & 1, (b >> 1) & 1, b & 1, (c >> 7) & 1, (c >> 6) & 1) == Third(b, c)
    ensures Six((c >> 5) & 1, (c >> 4) & 1, (c >> 3) & 1, (c >> 2) & 1, (c >> 1) & 1, c & 1) == Fourth(c)
  {
  }

  /** The first four groups of six bits are what the encoder computes from three bytes. */
  lemma FirstGroups(bytes: Bytes)
    ensures var a, b, c := ByteAt(bytes, 0), ByteAt(bytes, 1), ByteAt(bytes, 2);
            && SixBits(bytes, 0) == First(a) && SixBits(bytes, 1) == Second(a, b)
            && SixBits(bytes, 2) == Third(b, c) && SixBits(bytes, 3) == Fourth(c)
  {
    hide Bit, ByteAt, Six, First, Second, Third, Fourth;
    BitsOfByte(bytes, 0);
    BitsOfByte(bytes, 1);
    BitsOfByte(bytes, 2);
    SextetsFromBits(ByteAt(bytes, 0), ByteAt(bytes, 1), ByteAt(bytes, 2));
  }

  lemma BitBehind(bytes: Bytes, k: nat)
    requires |bytes| >= 3
    ensures Bit(bytes, 24 + k) == Bit(Tail(bytes, 3), k)
  {
    assert (24 + k) / 8 == 3 + k / 8 && (24 + k) % 8 == k % 8;
  }

  lemma SixBitsBehind(bytes: Bytes, i: nat)
    requires |bytes| >= 3
    ensures SixBits(bytes, i + 4) == SixBits(Tail(bytes, 3), i)
  {
    hide Bit, Six;
    BitBehind(bytes, 6 * i);
    BitBehind(bytes, 6 * i + 1);
    BitBehind(bytes, 6 * i + 2);
    BitBehind(bytes, 6 * i + 3);
    BitBehind(bytes, 6 * i + 4);
    BitBehind(bytes, 6 * i + 5);
  }

  lemma GroupText(bytes: Bytes, url: bool, i: nat)
    requires bytes != [] && i < 4
    ensures EncodeGroup(bytes, url)[i] as char ==
              if i <= |bytes| then Alphabet(url)[SixBits(bytes, i)] else if url then '.' else '='
  {
    hide CharOf, First, Second, Third, Fourth, SixBits, Alphabet;
    FirstGroups(bytes);
    CharOfAlphabet(SixBits(bytes, i), url);
  }

  lemma TextSize(n: nat)
    requires n >= 1
    ensures n <= 3 ==> (n + 2) / 3 * 4 == 4 && Missing(n) == 3 - n
    ensures n > 3 ==> (n + 2) / 3 * 4 == 4 + (n - 1) / 3 * 4 && Missing(n) == Missing(n - 3)
  {
  }

  /** That is what comes out. */
  lemma {:induction false} EncodeIsText(bytes: Bytes, url: bool)
    ensures IsText(EncodeSpec(bytes, url), bytes, url)
    decreases |bytes|
  {
    hide EncodeGroup, SixBits, Alphabet, Missing;
    if bytes != [] {
      var group, rest, r := EncodeGroup(bytes, url), Tail(bytes, 3), EncodeSpec(bytes, url);
      EncodeIsText(rest, url);
      TextSize(|bytes|);
      forall i | 0 <= i < |r|
        ensures r[i] as char == if i < |r| - Missing(|bytes|) then Alphabet(url)[SixBits(bytes, i)]
                                else if url then '.' else '='
      {
        if i < 4 {
          GroupText(bytes, url, i);
        } else {
          SixBitsBehind(bytes, i - 4);
        }
      }
    }
  }

  /** Every character of either alphabet is read as its position, and no other is read. */
  lemma PosOfCharIff(c: bv8, p: bv8)
    ensures PosOfChar(c) == Success(p) <==>
            p < 64 && (c as char == Alphabet(false)[p] || c as char == Alphabet(true)[p])
  {
    if p < 64 {
      CharOfAlphabet(p, false);
      CharOfAlphabet(p, true);
      SameCode(c, CharOf(p, false));
      SameCode(c, CharOf(p, true));
    }
    hide Alphabet;
  }

  lemma SameCode(a: bv8, b: bv8)
    ensures a as char == b as char <==> a == b
  {
    assert a as int == b as int <==> a == b;
  }

  // ---- decoding -------------------------------------------------------------

  /** Reading one past the end of a std::string yields its terminating zero. */
  function At(s: Bytes, i: nat): bv8
    requires i <= |s|
  {
    if i < |s| then s[i] else 0
  }

  predicate Padding(c: bv8) {
    c == EQUALS || c == DOT
  }

  /** One turn of the decoding loop: the bytes of the chunk at the front of `s`. */
  function DecodeChunk(s: Bytes): Result<Bytes>
    requires s != []
  {
    var p1 :- PosOfChar(At(s, 1));
    var p0 :- PosOfChar(s[0]);
    if 2 < |s| && !Padding(s[2]) then
      var p2 :- PosOfChar(s[2]);
      if 3 < |s| && !Padding(s[3]) then
        var p3 :- PosOfChar(s[3]);
        Success([FirstByte(p0, p1), SecondByte(p1, p2), ThirdByte(p2, p3)])
      else Success([FirstByte(p0, p1), SecondByte(p1, p2)])
    else Success([FirstByte(p0, p1)])
  }

  function DecodeSpec(s: Bytes): Result<Bytes>
    decreases |s|
  {
    if s == [] then Success([])
    else
      var chunk :- DecodeChunk(s);
      var rest :- DecodeSpec(Tail(s, 4));
      Success(chunk + rest)
  }

  function WithoutNewlines(s: Bytes): Bytes {
    if s == [] then []
    else if s[0] == NEWLINE then WithoutNewlines(s[1..])
    else [s[0]] + WithoutNewlines(s[1..])
  }

  function DecodeAny(s: Bytes, removeLinebreaks: bool): Result<Bytes> {
    DecodeSpec(if removeLinebreaks then WithoutNewlines(s) else s)
  }

  function Prepend(front: Bytes, rest: Result<Bytes>): Result<Bytes> {
    match rest
    case Success(bytes) => Success(front + bytes)
    case Failure(e) => Failure(e)
  }

  method Decode(encoded: Bytes, removeLinebreaks: bool) returns (r: Result<Bytes>)
    ensures r == DecodeAny(encoded, removeLinebreaks)
    decreases removeLinebreaks
  {
    hide DecodeChunk;
    if encoded == [] {
      return Success([]);
    }
    if removeLinebreaks {
      var copy := EraseNewlines(encoded);
      r := Decode(copy, false);
      return;
    }
    var ret: Bytes := [];
    var pos := 0;
    PrependNothing(DecodeSpec(encoded));
    assert Tail(encoded, 0) == encoded;
    while pos < |encoded|
      invariant Prepend(ret, DecodeSpec(Tail(encoded, pos))) == DecodeSpec(encoded)
      decreases |encoded| - pos
    {
      ghost var rest := Tail(encoded, pos);
      assert Tail(rest, 4) == Tail(encoded, pos + 4);
      var chunk :- DecodeTurn(encoded, pos);
      PrependTwice(ret, chunk, DecodeSpec(Tail(rest, 4)));
      ret := ret + chunk;
      pos := pos + 4;
    }
    assert ret + [] == ret;
    r := Success(ret);
  }

  /** The body of the decoding loop. */
  method DecodeTurn(encoded: Bytes, pos: nat) returns (r: Result<Bytes>)
    requires pos < |encoded|
    ensures r == DecodeChunk(Tail(encoded, pos))
  {
    hide FirstByte, SecondByte, ThirdByte, PosOfChar;
    ghost var rest := Tail(encoded, pos);
    assert At(encoded, pos + 1) == At(rest, 1);
    var pos1 :- PosOfChar(At(encoded, pos + 1));
    var pos0 :- PosOfChar(encoded[pos]);
    var ret := [FirstByte(pos0, pos1)];
    if pos + 2 < |encoded| && encoded[pos + 2] != EQUALS && encoded[pos + 2] != DOT {
      assert encoded[pos + 2] == rest[2];
      var pos2 :- PosOfChar(encoded[pos + 2]);
      ret := ret + [SecondByte(pos1, pos2)];
      if pos + 3 < |encoded| && encoded[pos + 3] != EQUALS && encoded[pos + 3] != DOT {
        assert encoded[pos + 3] == rest[3];
        var pos3 :- PosOfChar(encoded[pos + 3]);
        ret := ret + [ThirdByte(pos2, pos3)];
        assert ret == [FirstByte(pos0, pos1), SecondByte(pos1, pos2), ThirdByte(pos2, pos3)];
      } else {
        assert ret == [FirstByte(pos0, pos1), SecondByte(pos1, pos2)];
      }
    }
    r := Success(ret);
  }

  lemma PrependNothing(r: Result<Bytes>)
    ensures Prepend([], r) == r
  {
    if r.Success? {
      assert [] + r.value == r.value;
    }
  }

  lemma PrependTwice(a: Bytes, b: Bytes, r: Result<Bytes>)
    ensures Prepend(a, Prepend(b, r)) == Prepend(a + b, r)
  {
    if r.Success? {
      assert a + (b + r.value) == (a + b) + r.value;
    }
  }

  /** std::remove of '\n' followed by erase. */
  method EraseNewlines(s: Bytes) returns (copy: Bytes)
    ensures copy == WithoutNewlines(s)
  {
    copy := [];
    for i := 0 to |s|
      invariant copy + WithoutNewlines(s[i..]) == WithoutNewlines(s)
    {
      assert s[i..][1..] == s[i + 1..];
      if s[i] != NEWLINE {
        copy := copy + [s[i]];
      }
    }
  }

  // ---- the round trip -------------------------------------------------------

  lemma GroupRoundTrip(rest: Bytes, url: bool, after: Bytes)
    requires rest != []
    ensures DecodeChunk(EncodeGroup(rest, url) + after) == Success(rest[..|rest| - |Tail(rest, 3)|])
  {
    hide CharOf, PosOfChar, First, Second, Third, Fourth, FirstByte, SecondByte, ThirdByte;
    var b := if |rest| > 1 then rest[1] else 0;
    var c := if |rest| > 2 then rest[2] else 0;
    PosOfCharOf(First(rest[0]), url);
    PosOfCharOf(Second(rest[0], b), url);
    PosOfCharOf(Third(b, c), url);
    PosOfCharOf(Fourth(c), url);
    SextetsGiveBytes(rest[0], b, c);
    var s := EncodeGroup(rest, url) + after;
    assert s[0] == CharOf(First(rest[0]), url) && s[1] == CharOf(Second(rest[0], b), url);
    if |rest| == 1 {
      assert rest[..1] == [rest[0]];
    } else if |rest| == 2 {
      assert rest[..2] == [rest[0], rest[1]];
    } else {
      assert rest[..3] == [rest[0], rest[1], rest[2]];
    }
  }

  /** Decoding gives back what was encoded, in either alphabet. */
  lemma {:induction false} EncodeDecode(bytes: Bytes, url: bool)
    ensures DecodeSpec(EncodeSpec(bytes, url)) == Success(bytes)
    decreases |bytes|
  {
    if bytes != [] {
      hide EncodeGroup, DecodeChunk;
      var group, after := EncodeGroup(bytes, url), EncodeSpec(Tail(bytes, 3), url);
      GroupRoundTrip(bytes, url, after);
      EncodeDecode(Tail(bytes, 3), url);
      assert Tail(group + after, 4) == after;
      assert bytes == bytes[..|bytes| - |Tail(bytes, 3)|] + Tail(bytes, 3);
    }
  }

  // ---- what decodes ---------------------------------------------------------

  ghost predicate Readable(c: bv8) {
    exists p: bv8 :: p < 64 && (c as char == Alphabet(false)[p] || c as char == Alphabet(true)[p])
  }

  ghost predicate Ends(s: Bytes, i: nat) {
    i >= |s| || s[i] as char == '=' || s[i] as char == '.'
  }

  /** The four characters at p, fewer at the end: two that can be read, and one or two more
      unless "=", "." or the end comes first. */
  ghost predicate Decodes(s: Bytes, p: nat) {
    && p + 1 < |s| && Readable(s[p]) && Readable(s[p + 1])
    && (Ends(s, p + 2) || (Readable(s[p + 2]) && (Ends(s, p + 3) || Readable(s[p + 3]))))
  }

  lemma ReadableIff(c: bv8)
    ensures PosOfChar(c).Success? <==> Readable(c)
    ensures !Readable(0)
    ensures Padding(c) <==> c as char == '=' || c as char == '.'
  {
    forall p: bv8
      ensures PosOfChar(c) == Success(p) <==>
              p < 64 && (c as char == Alphabet(false)[p] || c as char == Alphabet(true)[p])
    {
      PosOfCharIff(c, p);
    }
    forall p: bv8
      ensures PosOfChar(0) == Success(p) <==>
              p < 64 && (0 as char == Alphabet(false)[p] || 0 as char == Alphabet(true)[p])
    {
      PosOfCharIff(0, p);
    }
    SameCode(c, EQUALS);
    SameCode(c, DOT);
    hide Alphabet;
  }

  lemma ChunkIff(s: Bytes)
    requires s != []
    ensures DecodeChunk(s).Success? <==> Decodes(s, 0)
  {
    ReadableIff(s[0]);
    ReadableIff(At(s, 1));
    if 2 < |s| {
      ReadableIff(s[2]);
    }
    if 3 < |s| {
      ReadableIff(s[3]);
    }
    hide Readable, PosOfChar, Padding, FirstByte, SecondByte, ThirdByte;
  }

  /** Every chunk of the text decodes. */
  ghost predicate AllDecode(s: Bytes) {
    forall q: nat :: 4 * q < |s| ==> Decodes(s, 4 * q)
  }

  lemma DecodesBehind(s: Bytes, q: nat)
    requires |s| >= 4
    ensures Decodes(s, 4 * (q + 1)) <==> Decodes(s[4..], 4 * q)
  {
    hide Readable;
  }

  lemma AllDecodeStep(s: Bytes)
    requires s != []
    ensures AllDecode(s) <==> Decodes(s, 0) && AllDecode(Tail(s, 4))
  {
    var rest := Tail(s, 4);
    if |s| >= 4 {
      forall q: nat ensures Decodes(s, 4 * (q + 1)) <==> Decodes(rest, 4 * q) {
        DecodesBehind(s, q);
      }
    }
    hide Decodes;
    if AllDecode(s) {
      assert Decodes(s, 4 * 0);
      forall q: nat | 4 * q < |rest| ensures Decodes(rest, 4 * q) {
        assert Decodes(s, 4 * (q + 1));
      }
    }
    if Decodes(s, 0) && AllDecode(rest) {
      forall q: nat | 4 * q < |s| ensures Decodes(s, 4 * q) {
        if q > 0 {
          assert Decodes(s, 4 * ((q - 1) + 1)) <==> Decodes(rest, 4 * (q - 1));
        }
      }
    }
  }

  /** A text decodes if and only if each of its chunks does. */
  lemma {:induction false} DecodeIff(s: Bytes)
    ensures DecodeSpec(s).Success? <==> AllDecode(s)
    decreases |s|
  {
    if s != [] {
      ChunkIff(s);
      AllDecodeStep(s);
      hide DecodeChunk, Decodes, AllDecode;
      DecodeIff(Tail(s, 4));
    }
  }

  // ---- line breaks ----------------------------------------------------------

  /** The text cut into lines of `distance`, a newline between two of them. */
  function Lines(s: Bytes, distance: nat): Bytes
    requires distance >= 1
    decreases |s|
  {
    if |s| <= distance then s else s[..distance] + [NEWLINE] + Lines(s[distance..], distance)
  }

  /** The string grows under the loop, by one newline for `distance` characters passed. */
  method InsertLinebreaks(s: Bytes, distance: nat) returns (str: Bytes)
    requires distance >= 1
    ensures str == Lines(s, distance)
  {
    if |s| == 0 {
      return [];
    }
    str := s;
    var pos := distance;
    while pos < |str|
      invariant distance <= pos <= |str| + distance
      invariant pos - distance <= |str|
      invariant str[..pos - distance] + Lines(str[pos - distance..], distance) == Lines(s, distance)
      decreases |str| - pos
    {
      ghost var start := pos - distance;
      ghost var done, rest := str[..start], str[start..];
      assert |rest| > distance;
      assert str[..pos] == done + rest[..distance];
      assert str[pos..] == rest[distance..];
      str := str[..pos] + [NEWLINE] + str[pos..];
      pos := pos + (distance + 1);
      assert str[..pos - distance] == done + rest[..distance] + [NEWLINE];
      assert str[pos - distance..] == rest[distance..];
      assert done + (rest[..distance] + [NEWLINE] + Lines(rest[distance..], distance))
          == (done + rest[..distance] + [NEWLINE]) + Lines(rest[distance..], distance);
    }
    ghost var start := pos - distance;
    assert str == str[..start] + str[start..];
  }

  ghost predicate NewlinesEvery(r: Bytes, width: nat)
    requires width >= 1
  {
    forall i :: 0 <= i < |r| ==> (r[i] == NEWLINE <==> i % width == width - 1)
  }

  lemma NewlineAfterLine(line: Bytes, rest: Bytes)
    requires NEWLINE !in line && NewlinesEvery(rest, |line| + 1)
    ensures NewlinesEvery(line + [NEWLINE] + rest, |line| + 1)
  {
    var r, width := line + [NEWLINE] + rest, |line| + 1;
    assert r[|line|] == NEWLINE;
    assert forall i :: 0 <= i < |line| ==> r[i] == line[i];
    forall i | 0 <= i < |r| ensures r[i] == NEWLINE <==> i % width == width - 1 {
      if i < width {
        DivUnique(i, width, 0, i);
      } else {
        ModShift(i - width, width);
        assert r[i] == rest[i - width];
      }
    }
  }

  /** Newlines sit at every (distance+1)-st position and nowhere else, and the text
      never ends in one: every line is exactly `distance` wide but a shorter, non-empty last. */
  lemma {:induction false} LinesShape(s: Bytes, distance: nat)
    requires distance >= 1
    requires NEWLINE !in s
    ensures NewlinesEvery(Lines(s, distance), distance + 1)
    ensures s != [] ==> Lines(s, distance) != [] && |Lines(s, distance)| % (distance + 1) != 0
    decreases |s|
  {
    if |s| <= distance {
      forall i | 0 <= i < |s| ensures s[i] == NEWLINE <==> i % (distance + 1) == distance {
        DivUnique(i, distance + 1, 0, i);
      }
      DivUnique(|s|, distance + 1, 0, |s|);
    } else {
      var rest := Lines(s[distance..], distance);
      LinesShape(s[distance..], distance);
      NewlineAfterLine(s[..distance], rest);
      ModShift(|rest|, distance + 1);
    }
  }

  lemma {:induction false} WithoutNewlinesAppend(a: Bytes, b: Bytes)
    ensures WithoutNewlines(a + b) == WithoutNewlines(a) + WithoutNewlines(b)
  {
    if a == [] {
      assert a + b == b;
    } else {
      WithoutNewlinesAppend(a[1..], b);
      assert (a + b)[0] == a[0] && (a + b)[1..] == a[1..] + b;
      if a[0] != NEWLINE {
        assert [a[0]] + (WithoutNewlines(a[1..]) + WithoutNewlines(b)) ==
            ([a[0]] + WithoutNewlines(a[1..])) + WithoutNewlines(b);
      }
    }
  }

  lemma {:induction false} WithoutNewlinesNone(s: Bytes)
    requires NEWLINE !in s
    ensures WithoutNewlines(s) == s
  {
    if s != [] {
      WithoutNewlinesNone(s[1..]);
    }
  }

  lemma {:induction false} LinesRemoved(s: Bytes, distance: nat)
    requires distance >= 1
    requires NEWLINE !in s
    ensures WithoutNewlines(Lines(s, distance)) == s
    decreases |s|
  {
    if |s| <= distance {
      WithoutNewlinesNone(s);
    } else {
      var front, rest := s[..distance], Lines(s[distance..], distance);
      LinesRemoved(s[distance..], distance);
      WithoutNewlinesAppend(front + [NEWLINE], rest);
      WithoutNewlinesAppend(front, [NEWLINE]);
      WithoutNewlinesNone(front);
      assert WithoutNewlines([NEWLINE]) == [];
      assert s == front + s[distance..];
    }
  }

  lemma {:induction false} EncodedHasNoNewline(bytes: Bytes, url: bool)
    ensures NEWLINE !in EncodeSpec(bytes, url)
    decreases |bytes|
  {
    if bytes != [] {
      EncodedHasNoNewline(Tail(bytes, 3), url);
      hide CharOf, First, Second, Third, Fourth;
      var b := if |bytes| > 1 then bytes[1] else 0;
      var c := if |bytes| > 2 then bytes[2] else 0;
      PosOfCharOf(First(bytes[0]), url);
      PosOfCharOf(Second(bytes[0], b), url);
      PosOfCharOf(Third(b, c), url);
      PosOfCharOf(Fourth(c), url);
    }
  }

  /** PEM (64 columns) and MIME (76 columns) text. */
  method EncodeWithLineBreaks(bytes: Bytes, lineLength: nat) returns (r: Bytes)
    requires lineLength >= 1
    ensures r == Lines(EncodeSpec(bytes, false), lineLength)
    ensures DecodeAny(r, true) == Success(bytes)
  {
    r := Encode(bytes, false);
    EncodedHasNoNewline(bytes, false);
    LinesRemoved(r, lineLength);
    EncodeDecode(bytes, false);
    r := InsertLinebreaks(r, lineLength);
  }

  method EncodePem(bytes: Bytes) returns (r: Bytes)
    ensures r == Lines(EncodeSpec(bytes, false), 64)
    ensures DecodeAny(r, true) == Success(bytes)
  {
    r := EncodeWithLineBreaks(bytes, 64);
  }

  method EncodeMime(bytes: Bytes) returns (r: Bytes)
    ensures r == Lines(EncodeSpec(bytes, false), 76)
    ensures DecodeAny(r, true) == Success(bytes)
  {
    r := EncodeWithLineBreaks(bytes, 76);
  }
}
