/** The string cipher: key expansion, block loop and padding in place on arrays,
    and the round trip through SM4, padding and Base64. */
module Sm4Ecb {
  import opened Wrappers
  import opened Powers
  import opened Sm4Tables
  import opened Sm4
  import Base64

  function Lows(words: seq<bv64>): (r: seq<bv32>)
    ensures |r| == |words|
    ensures forall i :: 0 <= i < |words| ==> r[i] == Low(words[i])
  {
    seq(|words|, i requires 0 <= i < |words| => Low(words[i]))
  }

  ghost function Window(words: seq<bv64>, i: nat): Quad
    requires i + 4 <= |words|
  {
    Quad(Low(words[i]), Low(words[i + 1]), Low(words[i + 2]), Low(words[i + 3]))
  }

  // ---- key expansion --------------------------------------------------------

  /** One turn of the expansion, on words with debris. */
  lemma ExpandTurn(k: seq<bv64>, i: nat)
    requires i < 32 && i + 5 <= |k|
    requires k[i + 4] == Xor64(k[i], CalcRoundKey(Mix64(k[i + 1], k[i + 2], k[i + 3], CK[i] as bv64)))
    ensures ExpandFrom(Window(k, i), i) == [Low(k[i + 4])] + ExpandFrom(Window(k, i + 1), i + 1)
  {
    hide Sbox, CalcRoundKey, TKey, Xor, Xor64, Low;
    LowXor();
    LowOfWord(CK[i]);
    CalcRoundKeyLow(Mix64(k[i + 1], k[i + 2], k[i + 3], CK[i] as bv64));
  }

  /** sm4_setkey */
  method SetKey(sk: array<bv64>, key: Bytes)
    requires sk.Length == 32 && |key| == 16
    modifies sk
    ensures Lows(sk[..]) == Expand(key)
  {
    hide Low, Lows, ExpandFrom, Expand, Window;
    var k := new bv64[36];
    StartExpansion(k, key);
    ghost var rks := [];
    NoLows(sk[..0]);
    for i := 0 to 32
      invariant Lows(sk[..i]) == rks
      invariant rks + ExpandFrom(Window(k[..], i), i) == Expand(key)
    {
      KeyTurn(k, sk, i);
      LowsAppend(sk[..i + 1], i);
      assert sk[..i + 1][..i] == sk[..i];
      ghost var after := ExpandFrom(Window(k[..], i + 1), i + 1);
      assert rks + ([Low(sk[i])] + after) == (rks + [Low(sk[i])]) + after;
      rks := rks + [Low(sk[i])];
    }
    ExpandEnd(Window(k[..], 32));
    assert sk[..32] == sk[..];
  }

  lemma NoLows(words: seq<bv64>)
    requires words == []
    ensures Lows(words) == []
  {
  }

  lemma LowsAppend(words: seq<bv64>, i: nat)
    requires |words| == i + 1
    ensures Lows(words) == Lows(words[..i]) + [Low(words[i])]
  {
    hide Low;
  }

  /** The body of the expansion loop. */
  method KeyTurn(k: array<bv64>, sk: array<bv64>, i: nat)
    requires k.Length == 36 && sk.Length == 32 && k != sk && i < 32
    modifies k, sk
    ensures sk[..i] == old(sk[..i])
    ensures old(ExpandFrom(Window(k[..], i), i)) == [Low(sk[i])] + ExpandFrom(Window(k[..], i + 1), i + 1)
  {
    hide Sbox, Low, CalcRoundKey, Mix64, Xor64, ExpandFrom;
    ghost var was := Window(k[..], i);
    k[i + 4] := Xor64(k[i], CalcRoundKey(Mix64(k[i + 1], k[i + 2], k[i + 3], CK[i] as bv64)));
    assert Window(k[..], i) == was;
    ExpandTurn(k[..], i);
    sk[i] := k[i + 4];
  }

  lemma ExpandEnd(q: Quad)
    ensures ExpandFrom(q, 32) == []
  {
  }

  method StartExpansion(k: array<bv64>, key: Bytes)
    requires k.Length == 36 && |key| == 16
    modifies k
    ensures ExpandFrom(Window(k[..], 0), 0) == Expand(key)
  {
    hide Sbox, Low, Xor64, Xor, Word, GetUlong, ExpandFrom;
    LowXor();
    GetUlongIsWord(key[0], key[1], key[2], key[3]);
    GetUlongIsWord(key[4], key[5], key[6], key[7]);
    GetUlongIsWord(key[8], key[9], key[10], key[11]);
    GetUlongIsWord(key[12], key[13], key[14], key[15]);
    LowOfWord(FK0);
    LowOfWord(FK1);
    LowOfWord(FK2);
    LowOfWord(FK3);
    k[0] := Xor64(GetUlong(key[0], key[1], key[2], key[3]), FK0 as bv64);
    k[1] := Xor64(GetUlong(key[4], key[5], key[6], key[7]), FK1 as bv64);
    k[2] := Xor64(GetUlong(key[8], key[9], key[10], key[11]), FK2 as bv64);
    k[3] := Xor64(GetUlong(key[12], key[13], key[14], key[15]), FK3 as bv64);
  }

  /** sm4_setkey_dec: the same keys, swapped end for end in place. */
  method SetKeyDec(sk: array<bv64>, key: Bytes)
    requires sk.Length == 32 && |key| == 16
    modifies sk
    ensures Lows(sk[..]) == Backwards(Expand(key))
  {
    hide Low, Lows, Backwards, Expand;
    SetKey(sk, key);
    ghost var was := sk[..];
    for i := 0 to 16
      invariant forall j :: 0 <= j < i ==> sk[j] == was[31 - j] && sk[31 - j] == was[j]
      invariant forall j :: i <= j < 32 - i ==> sk[j] == was[j]
    {
      sk[i], sk[31 - i] := sk[31 - i], sk[i];
    }
    LowsBackwards(sk[..], was);
  }

  lemma LowsBackwards(s: seq<bv64>, t: seq<bv64>)
    requires |s| == |t| && forall j :: 0 <= j < |s| ==> s[j] == t[|s| - 1 - j]
    ensures Lows(s) == Backwards(Lows(t))
  {
    hide Low, Backwards;
  }

  // ---- one block ------------------------------------------------------------

  lemma RoundTurn(words: seq<bv64>, i: nat, rk: bv64)
    requires i + 5 <= |words|
    requires words[i + 4] == F(words[i], words[i + 1], words[i + 2], words[i + 3], rk)
    ensures Window(words, i + 1) == Round(Window(words, i), Low(rk))
  {
    hide Sbox, F, T, Xor, Low, Mix;
    FLow(words[i], words[i + 1], words[i + 2], words[i + 3], rk);
  }

  lemma RoundsStep(q: Quad, rks: seq<bv32>, i: nat)
    requires i < |rks|
    ensures Rounds(q, rks[i..]) == Rounds(Round(q, rks[i]), rks[i + 1..])
  {
    assert rks[i..][1..] == rks[i + 1..];
  }

  /** sm4_one_round, on 16 bytes at an offset. */
  method OneRound(sk: array<bv64>, input: array<bv8>, output: array<bv8>, at: nat)
    requires sk.Length == 32 && at + 16 <= input.Length == output.Length && input != output
    modifies output
    ensures output[..at] == old(output[..at])
    ensures output[at..at + 16] == CryptBlock(Lows(sk[..]), input[at..at + 16])
    ensures output[at + 16..] == old(output[at + 16..])
  {
    hide Sbox, Low, F, Round, Rounds, GetUlong, Word, FromQuad;
    var ulbuf := new bv64[36](_ => 0);
    ghost var rks := Lows(sk[..]);
    LoadBlock(ulbuf, input, at);
    ghost var q := Window(ulbuf[..], 0);
    assert rks[0..] == rks;
    for i := 0 to 32
      invariant Rounds(Window(ulbuf[..], i), rks[i..]) == Rounds(q, rks)
      invariant output[..] == old(output[..])
    {
      RoundsStep(Window(ulbuf[..], i), rks, i);
      ulbuf[i + 4] := F(ulbuf[i], ulbuf[i + 1], ulbuf[i + 2], ulbuf[i + 3], sk[i]);
      RoundTurn(ulbuf[..], i, sk[i]);
    }
    RoundsEnd(Window(ulbuf[..], 32), rks[32..]);
    StoreBlock(ulbuf, output, at);
  }

  lemma RoundsEnd(q: Quad, rks: seq<bv32>)
    requires rks == []
    ensures Rounds(q, rks) == q
  {
  }

  method LoadBlock(ulbuf: array<bv64>, input: array<bv8>, at: nat)
    requires ulbuf.Length == 36 && at + 16 <= input.Length
    modifies ulbuf
    ensures Window(ulbuf[..], 0) == ToQuad(input[at..at + 16])
  {
    hide Low, GetUlong, Word;
    GetUlongIsWord(input[at], input[at + 1], input[at + 2], input[at + 3]);
    GetUlongIsWord(input[at + 4], input[at + 5], input[at + 6], input[at + 7]);
    GetUlongIsWord(input[at + 8], input[at + 9], input[at + 10], input[at + 11]);
    GetUlongIsWord(input[at + 12], input[at + 13], input[at + 14], input[at + 15]);
    ulbuf[0] := GetUlong(input[at], input[at + 1], input[at + 2], input[at + 3]);
    ulbuf[1] := GetUlong(input[at + 4], input[at + 5], input[at + 6], input[at + 7]);
    ulbuf[2] := GetUlong(input[at + 8], input[at + 9], input[at + 10], input[at + 11]);
    ulbuf[3] := GetUlong(input[at + 12], input[at + 13], input[at + 14], input[at + 15]);
  }

  /** PUT_ULONG_BE */
  method PutUlong(x: bv64, output: array<bv8>, at: nat)
    requires at + 4 <= output.Length
    modifies output
    ensures output[..] == old(output[..at]) + WordBytes(Low(x)) + old(output[at + 4..])
  {
    LowByte(x);
    hide Low, Byte, UlongByte;
    output[at] := UlongByte(x, 24);
    output[at + 1] := UlongByte(x, 16);
    output[at + 2] := UlongByte(x, 8);
    output[at + 3] := UlongByte(x, 0);
  }

  method StoreBlock(ulbuf: array<bv64>, output: array<bv8>, at: nat)
    requires ulbuf.Length == 36 && at + 16 <= output.Length
    modifies output
    ensures output[..at] == old(output[..at])
    ensures output[at..at + 16] == FromQuad(Reversed(Window(ulbuf[..], 32)))
    ensures output[at + 16..] == old(output[at + 16..])
  {
    hide Low, Byte, WordBytes;
    PutUlong(ulbuf[35], output, at);
    PutUlong(ulbuf[34], output, at + 4);
    PutUlong(ulbuf[33], output, at + 8);
    PutUlong(ulbuf[32], output, at + 12);
  }

  // ---- the block loop -------------------------------------------------------

  function Ecb(rks: seq<bv32>, data: Bytes): (r: Bytes)
    requires |data| % 16 == 0
    ensures |r| == |data|
    decreases |data|
  {
    if data == [] then [] else CryptBlock(rks, data[..16]) + Ecb(rks, data[16..])
  }

  lemma EcbSplit(rks: seq<bv32>, data: Bytes, at: nat)
    requires |data| % 16 == 0 && at % 16 == 0 && at < |data|
    ensures at + 16 <= |data| && |data[at..]| % 16 == 0 && |data[at + 16..]| % 16 == 0
    ensures Ecb(rks, data[at..]) == CryptBlock(rks, data[at..at + 16]) + Ecb(rks, data[at + 16..])
  {
    assert data[at..][..16] == data[at..at + 16];
    assert data[at..][16..] == data[at + 16..];
  }

  lemma EcbNothing(rks: seq<bv32>, data: Bytes)
    ensures Ecb(rks, data[|data|..]) == []
  {
  }

  /** sm4_crypt_ecb */
  method CryptEcb(sk: array<bv64>, length: int, input: array<bv8>, output: array<bv8>)
    requires sk.Length == 32 && input != output
    requires length == input.Length == output.Length && length % 16 == 0
    modifies output
    ensures output[..] == Ecb(Lows(sk[..]), input[..])
  {
    hide CryptBlock, Ecb, Lows;
    EcbNothing(Lows(sk[..]), input[..]);
    var remaining, at := length, 0;
    ghost var rks, data := Lows(sk[..]), input[..];
    assert data[0..] == data;
    while remaining > 0
      invariant at + remaining == length && at % 16 == 0 && 0 <= at <= length
      invariant output[..at] + Ecb(rks, data[at..]) == Ecb(rks, data)
    {
      EcbSplit(rks, data, at);
      ghost var done := output[..at];
      OneRound(sk, input, output, at);
      assert output[..at + 16] == done + output[at..at + 16];
      at := at + 16;
      remaining := remaining - 16;
    }
    assert output[..at] == output[..];
  }

  lemma {:induction false} EcbRoundTrip(rks: seq<bv32>, data: Bytes)
    requires |data| % 16 == 0
    ensures Ecb(Backwards(rks), Ecb(rks, data)) == data
    decreases |data|
  {
    hide CryptBlock, Backwards;
    if data != [] {
      var block, rest := CryptBlock(rks, data[..16]), Ecb(rks, data[16..]);
      assert (block + rest)[..16] == block && (block + rest)[16..] == rest;
      BlockRoundTrip(rks, data[..16]);
      EcbRoundTrip(rks, data[16..]);
    }
  }

  /** Block i of the output is the cipher of block i of the input. */
  lemma {:induction false} EcbBlock(rks: seq<bv32>, data: Bytes, i: nat)
    requires |data| % 16 == 0 && 16 * i + 16 <= |data|
    ensures Ecb(rks, data)[16 * i..16 * i + 16] == CryptBlock(rks, data[16 * i..16 * i + 16])
    decreases i
  {
    hide CryptBlock;
    if i > 0 {
      EcbBlock(rks, data[16..], i - 1);
      assert data[16..][16 * (i - 1)..16 * (i - 1) + 16] == data[16 * i..16 * i + 16];
      assert Ecb(rks, data)[16..] == Ecb(rks, data[16..]);
      assert Ecb(rks, data)[16 * i..16 * i + 16] == Ecb(rks, data)[16..][16 * (i - 1)..16 * (i - 1) + 16];
    }
  }

  // ---- padding --------------------------------------------------------------

  const UNIT: nat := 16

  function PadCount(n: nat): (r: nat)
    ensures 1 <= r <= UNIT && (n + r) % UNIT == 0
  {
    UNIT - n % UNIT
  }

  function Zeros(n: nat): (r: Bytes)
    ensures |r| == n
  {
    seq(n, _ => 0)
  }

  /** Zero fill, the count in the last byte; a whole block when nothing is missing. */
  function Padded(data: Bytes): (r: Bytes)
    ensures |r| == |data| + PadCount(|data|)
    ensures |r| % 16 == 0
  {
    var p := PadCount(|data|);
    data + Zeros(p - 1) + [p as bv8]
  }

  function GetBlocks(unit: nat, len: nat): nat
    requires unit >= 1
  {
    var blocks := len / unit;
    if len > blocks * unit then blocks + 1 else blocks
  }

  method Pad(data: Bytes) returns (res: array<bv8>)
    ensures fresh(res) && res[..] == Padded(data)
  {
    var blocks := GetBlocks(UNIT, |data|);
    var multipleLen := blocks * UNIT;
    var padding;
    if multipleLen == |data| {
      padding := UNIT;
    } else {
      padding := multipleLen - |data|;
    }
    assert padding == PadCount(|data|);
    var paddedLen := |data| + padding;
    res := new bv8[paddedLen](_ => 0);
    res[paddedLen - 1] := padding as bv8;
    for i := 0 to |data|
      invariant forall j :: 0 <= j < i ==> res[j] == data[j]
      invariant forall j :: i <= j < paddedLen - 1 ==> res[j] == 0
      invariant res[paddedLen - 1] == padding as bv8
    {
      res[i] := data[i];
    }
  }

  /** An empty buffer has no last byte to read; the source does not check for it. */
  function Unpadded(data: Bytes): Result<Bytes> {
    if data == [] then Failure(BadLength)
    else
      var padCount := data[|data| - 1] as nat;
      if !(padCount > 0 && padCount <= UNIT) then Failure(BadPadding)
      else if padCount > |data| then Failure(BadLength)
      else Success(data[..|data| - padCount])
  }

  lemma PadRoundTrip(data: Bytes)
    ensures Unpadded(Padded(data)) == Success(data)
  {
    var p := PadCount(|data|);
    SmallCount(p);
    assert Padded(data)[..|data|] == data;
  }

  /** Exactly the buffers that end in a count from 1 to 16, not above their length, are
      accepted, and as many bytes are cut off. */
  lemma UnpaddedIff(data: Bytes)
    ensures Unpadded(data).Success? <==> data != [] && 1 <= data[|data| - 1] <= 16 && data[|data| - 1] as nat <= |data|
    ensures Unpadded(data).Success? ==> Unpadded(data).value == data[..|data| - data[|data| - 1] as nat]
  {
  }

  lemma SmallCount(p: nat)
    requires 1 <= p <= 16
    ensures (p as bv8) as nat == p
  {
  }

  // ---- strings --------------------------------------------------------------

  /** The 16 bytes the cipher reads at `raw_key.c_str()`; c_str() ends in a zero, so
      15 bytes of key are still readable. */
  function KeyBytes(rawKey: Bytes): (r: Bytes)
    requires |rawKey| >= 15
    ensures |r| == 16
  {
    (rawKey + [0])[..16]
  }

  function EncryptSpec(ptext: Bytes, rawKey: Bytes): Bytes
    requires |rawKey| >= 15
  {
    Base64.EncodeSpec(Ecb(Expand(KeyBytes(rawKey)), Padded(ptext)), false)
  }

  function DecryptSpec(ctext: Bytes, rawKey: Bytes): Result<Bytes>
    requires |rawKey| >= 15
  {
    var ciphertext :- Base64.DecodeAny(ctext, false);
    if |ciphertext| % 16 != 0 then Failure(BadLength)
    else Unpadded(Ecb(Backwards(Expand(KeyBytes(rawKey))), ciphertext))
  }

  /** Byte j of the padded plaintext: the data, zeros, and in the last place how many
      bytes were added. */
  function PaddedByte(ptext: Bytes, j: nat): bv8 {
    var size := (|ptext| / 16 + 1) * 16;
    if j < |ptext| then ptext[j] else if j == size - 1 then (size - |ptext|) as bv8 else 0
  }

  function PaddedBlock(ptext: Bytes, i: nat): (r: Bytes)
    ensures |r| == 16
  {
    seq(16, j requires j >= 0 => PaddedByte(ptext, 16 * i + j))
  }

  lemma PaddedIs(ptext: Bytes, i: nat)
    requires i <= |ptext| / 16
    ensures |Padded(ptext)| == (|ptext| / 16 + 1) * 16
    ensures Padded(ptext)[16 * i..16 * i + 16] == PaddedBlock(ptext, i)
  {
    var p, block := Padded(ptext), PaddedBlock(ptext, i);
    PaddedSize(|ptext|);
    assert |p| == (|ptext| / 16 + 1) * 16;
    forall j | 0 <= j < 16 ensures p[16 * i..16 * i + 16][j] == block[j] {
      PaddedAt(ptext, 16 * i + j);
    }
  }

  lemma PaddedSize(n: nat)
    ensures n + PadCount(n) == (n / 16 + 1) * 16
  {
  }

  lemma PaddedAt(ptext: Bytes, j: nat)
    requires j < |Padded(ptext)|
    ensures Padded(ptext)[j] == PaddedByte(ptext, j)
  {
    PaddedSize(|ptext|);
    hide PadCount;
  }

  /** The text that encryption gives is base64 of the padded plaintext enciphered block by
      block under the first 16 bytes of the key. */
  lemma EncryptIs(ptext: Bytes, rawKey: Bytes, i: nat)
    requires |rawKey| >= 15 && i <= |ptext| / 16
    ensures var c := Base64.DecodeSpec(EncryptSpec(ptext, rawKey));
            && c.Success? && |c.value| == (|ptext| / 16 + 1) * 16
            && Base64.IsText(EncryptSpec(ptext, rawKey), c.value, false)
            && c.value[16 * i..16 * i + 16] == CryptBlock(Expand((rawKey + [0])[..16]), PaddedBlock(ptext, i))
  {
    hide Ecb, Expand, Padded, PaddedBlock, CryptBlock, Base64.IsText, Base64.EncodeSpec, Base64.DecodeSpec;
    PaddedIs(ptext, i);
    var rks := Expand(KeyBytes(rawKey));
    EcbBlock(rks, Padded(ptext), i);
    Base64.EncodeDecode(Ecb(rks, Padded(ptext)), false);
    Base64.EncodeIsText(Ecb(rks, Padded(ptext)), false);
  }

  /** encrypt_SM4_EBC */
  method Encrypt(ptext: Bytes, rawKey: Bytes) returns (r: Bytes)
    requires |rawKey| >= 15
    ensures r == EncryptSpec(ptext, rawKey)
    ensures DecryptSpec(r, rawKey) == Success(ptext)
  {
    hide Ecb, Expand, Padded;
    var ptextBuf := Pad(ptext);
    var ctextBuf := new bv8[ptextBuf.Length];
    var sk := new bv64[32];
    SetKey(sk, KeyBytes(rawKey));
    CryptEcb(sk, ptextBuf.Length, ptextBuf, ctextBuf);
    r := Base64.Encode(ctextBuf[..], false);
    EncryptDecrypt(ptext, rawKey);
  }

  /** decrypt_SM4_EBC. A ciphertext that is not whole blocks would run the source past
      its buffers; the model reports it. */
  method Decrypt(ctext: Bytes, rawKey: Bytes) returns (r: Result<Bytes>)
    requires |rawKey| >= 15
    ensures r == DecryptSpec(ctext, rawKey)
  {
    hide Ecb, Expand;
    var ciphertext :- Base64.Decode(ctext, false);
    if |ciphertext| % 16 != 0 {
      return Failure(BadLength);
    }
    var input := new bv8[|ciphertext|](i requires 0 <= i < |ciphertext| => ciphertext[i]);
    assert input[..] == ciphertext;
    var ptextBuf := new bv8[|ciphertext|];
    var sk := new bv64[32];
    SetKeyDec(sk, KeyBytes(rawKey));
    CryptEcb(sk, |ciphertext|, input, ptextBuf);
    r := Unpadded(ptextBuf[..]);
  }

  /** Every byte string, the empty one included, comes back under every usable key. */
  lemma EncryptDecrypt(ptext: Bytes, rawKey: Bytes)
    requires |rawKey| >= 15
    ensures DecryptSpec(EncryptSpec(ptext, rawKey), rawKey) == Success(ptext)
  {
    hide Ecb, Expand, Padded;
    var rks := Expand(KeyBytes(rawKey));
    Base64.EncodeDecode(Ecb(rks, Padded(ptext)), false);
    EcbRoundTrip(rks, Padded(ptext));
    PadRoundTrip(ptext);
  }
}
