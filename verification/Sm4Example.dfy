/** The example of GB/T 32907-2016, annex A: one block under one key, turn by turn. */
module Sm4Example {
  import opened Wrappers
  import opened Sm4Tables
  import opened Sm4

  /** 0123456789abcdeffedcba9876543210, the key and the plaintext of the example. */
  const KEY: Bytes := [
    0x01, 0x23, 0x45, 0x67, 0x89, 0xab, 0xcd, 0xef, 0xfe, 0xdc, 0xba, 0x98, 0x76, 0x54, 0x32, 0x10]

  const CIPHERTEXT: Bytes := [
    0x68, 0x1e, 0xdf, 0x34, 0xd2, 0x06, 0x96, 0x5e, 0x86, 0xb3, 0xe9, 0x4f, 0x53, 0x6e, 0x42, 0x46]

  lemma TauOf(m: bv32, s0: bv8, s1: bv8, s2: bv8, s3: bv8)
    requires Byte(m, 24) == s0 && Byte(m, 16) == s1 && Byte(m, 8) == s2 && Byte(m, 0) == s3
    ensures Tau(m) == Word(Sbox(s0), Sbox(s1), Sbox(s2), Sbox(s3))
  {
  }

  lemma CkAt(i: bv8)
    requires i < 32
    ensures CK[i] == CkRule(i)
  {
    CkObeysRule();
    hide CkRule;
  }

  lemma ExpandTurn(rks: seq<bv32>, i: nat, a: bv32, b: bv32, c: bv32, d: bv32, ck: bv32, m: bv32, e: bv32)
    requires |rks| == 32 && i < 32 && ExpandFrom(Quad(a, b, c, d), i) == rks[i..] && CK[i] == ck
    requires Mix(b, c, d, ck) == m && Xor(a, TKey(m)) == e
    ensures rks[i] == e && ExpandFrom(Quad(b, c, d, e), i + 1) == rks[i + 1..]
  {
    hide Mix, Xor, TKey;
    var rest := ExpandFrom(Quad(b, c, d, e), i + 1);
    assert rks[i..] == [e] + rest;
    assert rks[i + 1..] == rks[i..][1..];
  }

  /** One turn of the key expansion: the words a, b, c, d give the round key e. */
  lemma KeyTurn(rks: seq<bv32>, i: bv8, a: bv32, b: bv32, c: bv32, d: bv32, ck: bv32,
                s0: bv8, s1: bv8, s2: bv8, s3: bv8, t: bv32, e: bv32)
    requires |rks| == 32 && i < 32 && ExpandFrom(Quad(a, b, c, d), i as nat) == rks[i..] && CkRule(i) == ck
    requires Mix(b, c, d, ck) == Word(s0, s1, s2, s3)
    requires Word(Sbox(s0), Sbox(s1), Sbox(s2), Sbox(s3)) == t && Xor(a, LKey(t)) == e
    ensures rks[i] == e && ExpandFrom(Quad(b, c, d, e), i as nat + 1) == rks[i as nat + 1..]
  {
    hide Sbox, Mix, Xor, LKey, Tau, Word, Byte, CkRule, ExpandFrom;
    BytesOfWord(s0, s1, s2, s3);
    TauOf(Word(s0, s1, s2, s3), s0, s1, s2, s3);
    CkAt(i);
    ExpandTurn(rks, i as nat, a, b, c, d, ck, Word(s0, s1, s2, s3), e);
  }

  /** One round: the words a, b, c, d give the word e. */
  lemma RoundTurn(rks: seq<bv32>, i: nat, a: bv32, b: bv32, c: bv32, d: bv32, rk: bv32,
                  s0: bv8, s1: bv8, s2: bv8, s3: bv8, t: bv32, e: bv32)
    requires i < |rks| && rks[i] == rk
    requires Mix(b, c, d, rk) == Word(s0, s1, s2, s3)
    requires Word(Sbox(s0), Sbox(s1), Sbox(s2), Sbox(s3)) == t && Xor(a, L(t)) == e
    ensures Rounds(Quad(a, b, c, d), rks[i..]) == Rounds(Quad(b, c, d, e), rks[i + 1..])
  {
    BytesOfWord(s0, s1, s2, s3);
    TauOf(Word(s0, s1, s2, s3), s0, s1, s2, s3);
    hide Sbox, Mix, Xor, L, Tau, Word, Byte;
    assert rks[i..][1..] == rks[i + 1..];
  }

  lemma Rows0()
    ensures SboxRow(0) == 0xd690e9fecce13db716b614c228fb2c05 && SboxRow(1) == 0x2b679a762abe04c3aa44132649860699
    ensures SboxRow(2) == 0x9c4250f491ef987a33540b43edcfac62 && SboxRow(3) == 0xe4b31ca9c908e89580df94fa758f3fa6
  {
  }

  lemma Rows4()
    ensures SboxRow(4) == 0x4707a7fcf37317ba83593c19e6854fa8 && SboxRow(5) == 0x686b81b27164da8bf8eb0f4b70569d35
    ensures SboxRow(6) == 0x1e240e5e6358d1a225227c3b01217887 && SboxRow(7) == 0xd40046579fd327524c3602e7a0c4c89e
  {
  }

  lemma Rows8()
    ensures SboxRow(8) == 0xeabf8ad240c738b5a3f7f2cef96115a1 && SboxRow(9) == 0xe0ae5da49b341a55ad933230f58cb1e3
    ensures SboxRow(10) == 0x1df6e22e8266ca60c02923ab0d534e6f && SboxRow(11) == 0xd5db3745defd8e2f03ff6a726d6c5b51
  {
  }

  lemma Rows12()
    ensures SboxRow(12) == 0x8d1baf92bbddbc7f11d95c411f105ad8 && SboxRow(13) == 0x0ac13188a5cd7bbd2d74d012b8e5b4b0
    ensures SboxRow(14) == 0x8969974a0c96777e65b9f109c56ec684 && SboxRow(15) == 0x18f07dec3adc4d2079ee5f3ed7cb3948
  {
  }

  /** The rows of the S-box, as the turns below look them up. */
  ghost predicate AllRows() {
    && SboxRow(0) == 0xd690e9fecce13db716b614c228fb2c05 && SboxRow(1) == 0x2b679a762abe04c3aa44132649860699
    && SboxRow(2) == 0x9c4250f491ef987a33540b43edcfac62 && SboxRow(3) == 0xe4b31ca9c908e89580df94fa758f3fa6
    && SboxRow(4) == 0x4707a7fcf37317ba83593c19e6854fa8 && SboxRow(5) == 0x686b81b27164da8bf8eb0f4b70569d35
    && SboxRow(6) == 0x1e240e5e6358d1a225227c3b01217887 && SboxRow(7) == 0xd40046579fd327524c3602e7a0c4c89e
    && SboxRow(8) == 0xeabf8ad240c738b5a3f7f2cef96115a1 && SboxRow(9) == 0xe0ae5da49b341a55ad933230f58cb1e3
    && SboxRow(10) == 0x1df6e22e8266ca60c02923ab0d534e6f && SboxRow(11) == 0xd5db3745defd8e2f03ff6a726d6c5b51
    && SboxRow(12) == 0x8d1baf92bbddbc7f11d95c411f105ad8 && SboxRow(13) == 0x0ac13188a5cd7bbd2d74d012b8e5b4b0
    && SboxRow(14) == 0x8969974a0c96777e65b9f109c56ec684 && SboxRow(15) == 0x18f07dec3adc4d2079ee5f3ed7cb3948
  }

  lemma Rows()
    ensures AllRows()
  {
    Rows0();
    Rows4();
    Rows8();
    Rows12();
    hide SboxRow;
  }

  lemma Keys0(rks: seq<bv32>)
    requires |rks| == 32 && ExpandFrom(Quad(0xa292ffa1, 0xdf01febf, 0x99a12b0f, 0xc42410cc), 0) == rks[0..]
    ensures ExpandFrom(Quad(0x367360f4, 0x776a0c61, 0xb6bb89b3, 0x24763151), 8) == rks[8..]
    ensures rks[0] == 0xf12186f9 && rks[1] == 0x41662b61 && rks[2] == 0x5a6ab19a && rks[3] == 0x7ba92077
    ensures rks[4] == 0x367360f4 && rks[5] == 0x776a0c61 && rks[6] == 0xb6bb89b3 && rks[7] == 0x24763151
  {
    hide ExpandFrom, SboxRow;
    Rows();
    KeyTurn(rks, 0, 0xa292ffa1, 0xdf01febf, 0x99a12b0f, 0xc42410cc, 0x00070e15,
            0x82, 0x83, 0xcb, 0x69, 0x8ad24122, 0xf12186f9);
    KeyTurn(rks, 1, 0xdf01febf, 0x99a12b0f, 0xc42410cc, 0xf12186f9, 0x1c232a31,
            0xb0, 0x87, 0x97, 0x0b, 0xd5b555c2, 0x41662b61);
    KeyTurn(rks, 2, 0x99a12b0f, 0xc42410cc, 0xf12186f9, 0x41662b61, 0x383f464d,
            0x4c, 0x5c, 0xfb, 0x19, 0xe6703e44, 0x5a6ab19a);
    KeyTurn(rks, 3, 0xc42410cc, 0xf12186f9, 0x41662b61, 0x5a6ab19a, 0x545b6269,
            0xbe, 0x76, 0x7e, 0x6b, 0x5b27c83b, 0x7ba92077);
    KeyTurn(rks, 4, 0xf12186f9, 0x41662b61, 0x5a6ab19a, 0x7ba92077, 0x70777e85,
            0x10, 0xd2, 0xc4, 0x09, 0x2b31bbb6, 0x367360f4);
    KeyTurn(rks, 5, 0x41662b61, 0x5a6ab19a, 0x7ba92077, 0x367360f4, 0x8c939aa1,
            0x9b, 0x23, 0x6b, 0xb8, 0x30f43b03, 0x776a0c61);
    KeyTurn(rks, 6, 0x5a6ab19a, 0x7ba92077, 0x367360f4, 0x776a0c61, 0xa8afb6bd,
            0x92, 0x1f, 0xfa, 0x5f, 0x5d995f35, 0xb6bb89b3);
    KeyTurn(rks, 7, 0x7ba92077, 0x367360f4, 0x776a0c61, 0xb6bb89b3, 0xc4cbd2d9,
            0x33, 0x69, 0x37, 0xff, 0xa9229548, 0x24763151);
  }

  lemma Keys8(rks: seq<bv32>)
    requires |rks| == 32 && ExpandFrom(Quad(0x367360f4, 0x776a0c61, 0xb6bb89b3, 0x24763151), 8) == rks[8..]
    ensures ExpandFrom(Quad(0x6988608c, 0x30d895b7, 0x44ba14af, 0x104495a1), 16) == rks[16..]
    ensures rks[8] == 0xa520307c && rks[9] == 0xb7584dbd && rks[10] == 0xc30753ed && rks[11] == 0x7ee55b57
    ensures rks[12] == 0x6988608c && rks[13] == 0x30d895b7 && rks[14] == 0x44ba14af && rks[15] == 0x104495a1
  {
    hide ExpandFrom, SboxRow;
    Rows();
    KeyTurn(rks, 8, 0x367360f4, 0x776a0c61, 0xb6bb89b3, 0x24763151, 0xe0e7eef5,
            0x05, 0x40, 0x5a, 0x76, 0xe1470f27, 0xa520307c);
    KeyTurn(rks, 9, 0x776a0c61, 0xb6bb89b3, 0x24763151, 0xa520307c, 0xfc030a11,
            0xcb, 0xee, 0x82, 0x8f, 0x41c68aa1, 0xb7584dbd);
    KeyTurn(rks, 10, 0xb6bb89b3, 0x24763151, 0xa520307c, 0xb7584dbd, 0x181f262d,
            0x2e, 0x11, 0x6a, 0xbd, 0xac677c6c, 0xc30753ed);
    KeyTurn(rks, 11, 0x24763151, 0xa520307c, 0xb7584dbd, 0xc30753ed, 0x343b4249,
            0xe5, 0x44, 0x6c, 0x65, 0x96f30158, 0x7ee55b57);
    KeyTurn(rks, 12, 0xa520307c, 0xb7584dbd, 0xc30753ed, 0x7ee55b57, 0x50575e65,
            0x5a, 0xed, 0x1b, 0x62, 0x0f6e260e, 0x6988608c);
    KeyTurn(rks, 13, 0xb7584dbd, 0xc30753ed, 0x7ee55b57, 0x6988608c, 0x6c737a81,
            0xb8, 0x19, 0x12, 0xb7, 0x03449a2f, 0x30d895b7);
    KeyTurn(rks, 14, 0xc30753ed, 0x7ee55b57, 0x6988608c, 0x30d895b7, 0x888f969d,
            0xaf, 0x3a, 0x38, 0xf1, 0x6f9480f0, 0x44ba14af);
    KeyTurn(rks, 15, 0x7ee55b57, 0x6988608c, 0x30d895b7, 0x44ba14af, 0xa4abb2b9,
            0xb9, 0x41, 0x53, 0x2d, 0xff07b2cf, 0x104495a1);
  }

  lemma Keys16(rks: seq<bv32>)
    requires |rks| == 32 && ExpandFrom(Quad(0x6988608c, 0x30d895b7, 0x44ba14af, 0x104495a1), 16) == rks[16..]
    ensures ExpandFrom(Quad(0xe89e641f, 0x98ca015a, 0xc7159060, 0x99e1fd2e), 24) == rks[24..]
    ensures rks[16] == 0xd120b428 && rks[17] == 0x73b55fa3 && rks[18] == 0xcc874966 && rks[19] == 0x92244439
    ensures rks[20] == 0xe89e641f && rks[21] == 0x98ca015a && rks[22] == 0xc7159060 && rks[23] == 0x99e1fd2e
  {
    hide ExpandFrom, SboxRow;
    Rows();
    KeyTurn(rks, 16, 0x6988608c, 0x30d895b7, 0x44ba14af, 0x104495a1, 0xc0c7ced5,
            0xa4, 0xe1, 0xda, 0x6c, 0x8269d001, 0xd120b428);
    KeyTurn(rks, 17, 0x30d895b7, 0x44ba14af, 0x104495a1, 0xd120b428, 0xdce3eaf1,
            0x59, 0x3d, 0xdf, 0xd7, 0xeb8fb0bd, 0x73b55fa3);
    KeyTurn(rks, 18, 0x44ba14af, 0x104495a1, 0xd120b428, 0x73b55fa3, 0xf8ff060d,
            0x4a, 0x2e, 0x78, 0x27, 0x3cac4c7a, 0xcc874966);
    KeyTurn(rks, 19, 0x104495a1, 0xd120b428, 0x73b55fa3, 0xcc874966, 0x141b2229,
            0x7a, 0x09, 0x80, 0xc4, 0x02b6eabb, 0x92244439);
    KeyTurn(rks, 20, 0xd120b428, 0x73b55fa3, 0xcc874966, 0x92244439, 0x30373e45,
            0x1d, 0x21, 0x6c, 0xb9, 0x864201ff, 0xe89e641f);
    KeyTurn(rks, 21, 0x73b55fa3, 0xcc874966, 0x92244439, 0xe89e641f, 0x4c535a61,
            0xfa, 0x6e, 0x33, 0x21, 0x5f78a942, 0x98ca015a);
    KeyTurn(rks, 22, 0xcc874966, 0x92244439, 0xe89e641f, 0x98ca015a, 0x686f767d,
            0x8a, 0x1f, 0x57, 0x01, 0xf2998b90, 0xc7159060);
    KeyTurn(rks, 23, 0x92244439, 0xe89e641f, 0x98ca015a, 0xc7159060, 0x848b9299,
            0x33, 0xca, 0x67, 0xbc, 0xa95ca26d, 0x99e1fd2e);
  }

  lemma Keys24(rks: seq<bv32>)
    requires |rks| == 32 && ExpandFrom(Quad(0xe89e641f, 0x98ca015a, 0xc7159060, 0x99e1fd2e), 24) == rks[24..]
    ensures ExpandFrom(Quad(0x428d3654, 0x62293496, 0x01cf72e5, 0x9124a012), 32) == rks[32..]
    ensures rks[24] == 0xb79bd80c && rks[25] == 0x1d2115b0 && rks[26] == 0x0e228aeb && rks[27] == 0xf1780c81
    ensures rks[28] == 0x428d3654 && rks[29] == 0x62293496 && rks[30] == 0x01cf72e5 && rks[31] == 0x9124a012
  {
    hide ExpandFrom, SboxRow;
    Rows();
    KeyTurn(rks, 24, 0xe89e641f, 0x98ca015a, 0xc7159060, 0x99e1fd2e, 0xa0a7aeb5,
            0x66, 0x99, 0xc2, 0xa1, 0xd193aff6, 0xb79bd80c);
    KeyTurn(rks, 25, 0x98ca015a, 0xc7159060, 0x99e1fd2e, 0xb79bd80c, 0xbcc3cad1,
            0x55, 0xac, 0x7f, 0x93, 0x640d9ea4, 0x1d2115b0);
    KeyTurn(rks, 26, 0xc7159060, 0x99e1fd2e, 0xb79bd80c, 0x1d2115b0, 0xd8dfe6ed,
            0xeb, 0x84, 0xd6, 0x7f, 0x09407b9e, 0x0e228aeb);
    KeyTurn(rks, 27, 0x99e1fd2e, 0xb79bd80c, 0x1d2115b0, 0x0e228aeb, 0xf4fb0209,
            0x50, 0x63, 0x45, 0x5e, 0x685e739d, 0xf1780c81);
    KeyTurn(rks, 28, 0xb79bd80c, 0x1d2115b0, 0x0e228aeb, 0xf1780c81, 0x10171e25,
            0xf2, 0x6c, 0x8d, 0xff, 0x7d016148, 0x428d3654);
    KeyTurn(rks, 29, 0x1d2115b0, 0x0e228aeb, 0xf1780c81, 0x428d3654, 0x2c333a41,
            0x91, 0xe4, 0x8a, 0x7f, 0xae0cf29e, 0x62293496);
    KeyTurn(rks, 30, 0x0e228aeb, 0xf1780c81, 0x428d3654, 0x62293496, 0x484f565d,
            0x99, 0x93, 0x58, 0x1e, 0x93a4f806, 0x01cf72e5);
    KeyTurn(rks, 31, 0xf1780c81, 0x428d3654, 0x62293496, 0x01cf72e5, 0x646b7279,
            0x45, 0x00, 0x02, 0x5e, 0x73d6e99d, 0x9124a012);
  }

  lemma Rounds0(rks: seq<bv32>)
    requires |rks| == 32
    requires rks[0] == 0xf12186f9 && rks[1] == 0x41662b61 && rks[2] == 0x5a6ab19a && rks[3] == 0x7ba92077
    requires rks[4] == 0x367360f4 && rks[5] == 0x776a0c61 && rks[6] == 0xb6bb89b3 && rks[7] == 0x24763151
    ensures Rounds(Quad(0x01234567, 0x89abcdef, 0xfedcba98, 0x76543210), rks[0..])
         == Rounds(Quad(0xf87c5bd5, 0x33220757, 0x77f4c297, 0x7a96f2eb), rks[8..])
  {
    hide Rounds, SboxRow;
    Rows();
    RoundTurn(rks, 0, 0x01234567, 0x89abcdef, 0xfedcba98, 0x76543210, 0xf12186f9,
              0xf0, 0x02, 0xc3, 0x9e, 0x18e992b1, 0x27fad345);
    RoundTurn(rks, 1, 0x89abcdef, 0xfedcba98, 0x76543210, 0x27fad345, 0x41662b61,
              0xee, 0x14, 0x70, 0xac, 0xc62ad40d, 0xa18b4cb2);
    RoundTurn(rks, 2, 0xfedcba98, 0x76543210, 0x27fad345, 0xa18b4cb2, 0x5a6ab19a,
              0xaa, 0x4f, 0x1c, 0x7d, 0x23a849c4, 0x11c1e22a);
    RoundTurn(rks, 3, 0x76543210, 0x27fad345, 0xa18b4cb2, 0x11c1e22a, 0x7ba92077,
              0xec, 0x19, 0x5d, 0xaa, 0xc5445623, 0xcc13e2ee);
    RoundTurn(rks, 4, 0x27fad345, 0xa18b4cb2, 0x11c1e22a, 0xcc13e2ee, 0x367360f4,
              0x4a, 0x2a, 0x2c, 0x82, 0x3c0bed8a, 0xf87c5bd5);
    RoundTurn(rks, 5, 0xa18b4cb2, 0x11c1e22a, 0xcc13e2ee, 0xf87c5bd5, 0x776a0c61,
              0x52, 0xc4, 0x57, 0x70, 0x81bb8bd4, 0x33220757);
    RoundTurn(rks, 6, 0x11c1e22a, 0xcc13e2ee, 0xf87c5bd5, 0x33220757, 0xb6bb89b3,
              0xb1, 0xf6, 0x37, 0xdf, 0xdb4d95b0, 0x77f4c297);
    RoundTurn(rks, 7, 0xcc13e2ee, 0xf87c5bd5, 0x33220757, 0x77f4c297, 0x24763151,
              0x98, 0xdc, 0xaf, 0x44, 0xadb86ff3, 0x7a96f2eb);
  }

  lemma Rounds8(rks: seq<bv32>)
    requires |rks| == 32
    requires rks[8] == 0xa520307c && rks[9] == 0xb7584dbd && rks[10] == 0xc30753ed && rks[11] == 0x7ee55b57
    requires rks[12] == 0x6988608c && rks[13] == 0x30d895b7 && rks[14] == 0x44ba14af && rks[15] == 0x104495a1
    ensures Rounds(Quad(0xf87c5bd5, 0x33220757, 0x77f4c297, 0x7a96f2eb), rks[8..])
         == Rounds(Quad(0x8b952b83, 0xd42b7c59, 0x2ffc5831, 0xf69e6888), rks[16..])
  {
    hide Rounds, SboxRow;
    Rows();
    RoundTurn(rks, 8, 0xf87c5bd5, 0x33220757, 0x77f4c297, 0x7a96f2eb, 0xa520307c,
              0x9b, 0x60, 0x07, 0x57, 0x301eb78b, 0x27dac07f);
    RoundTurn(rks, 9, 0x33220757, 0x77f4c297, 0x7a96f2eb, 0x27dac07f, 0xb7584dbd,
              0x9d, 0xe0, 0xbd, 0xbe, 0x8c896c5b, 0x42dd0f19);
    RoundTurn(rks, 10, 0x77f4c297, 0x7a96f2eb, 0x27dac07f, 0x42dd0f19, 0xc30753ed,
              0xdc, 0x96, 0x6e, 0x60, 0xb81a781e, 0xb8a5da02);
    RoundTurn(rks, 11, 0x7a96f2eb, 0x27dac07f, 0x42dd0f19, 0xb8a5da02, 0x7ee55b57,
              0xa3, 0x47, 0x4e, 0x33, 0x2eba4fa9, 0x907127fa);
    RoundTurn(rks, 12, 0x27dac07f, 0x42dd0f19, 0xb8a5da02, 0x907127fa, 0x6988608c,
              0x03, 0x81, 0x92, 0x6d, 0xfebf5d21, 0x8b952b83);
    RoundTurn(rks, 13, 0x42dd0f19, 0xb8a5da02, 0x907127fa, 0x8b952b83, 0x30d895b7,
              0x93, 0x99, 0x43, 0xcc, 0xa493fc1f, 0xd42b7c59);
    RoundTurn(rks, 14, 0xb8a5da02, 0x907127fa, 0x8b952b83, 0xd42b7c59, 0x44ba14af,
              0x8b, 0x75, 0x64, 0x8f, 0xced363a1, 0x2ffc5831);
    RoundTurn(rks, 15, 0x907127fa, 0x8b952b83, 0xd42b7c59, 0x2ffc5831, 0x104495a1,
              0x60, 0x06, 0x9a, 0x4a, 0x1e3d323c, 0xf69e6888);
  }

  lemma Rounds16(rks: seq<bv32>)
    requires |rks| == 32
    requires rks[16] == 0xd120b428 && rks[17] == 0x73b55fa3 && rks[18] == 0xcc874966 && rks[19] == 0x92244439
    requires rks[20] == 0xe89e641f && rks[21] == 0x98ca015a && rks[22] == 0xc7159060 && rks[23] == 0x99e1fd2e
    ensures Rounds(Quad(0x8b952b83, 0xd42b7c59, 0x2ffc5831, 0xf69e6888), rks[16..])
         == Rounds(Quad(0x6ae7725f, 0xf4cba1f9, 0x1dcdfa10, 0x2ff60603), rks[24..])
  {
    hide Rounds, SboxRow;
    Rows();
    RoundTurn(rks, 16, 0x8b952b83, 0xd42b7c59, 0x2ffc5831, 0xf69e6888, 0xd120b428,
              0xdc, 0x69, 0xf8, 0xc8, 0xb8227911, 0xaf2432c4);
    RoundTurn(rks, 17, 0xd42b7c59, 0x2ffc5831, 0xf69e6888, 0xaf2432c4, 0x73b55fa3,
              0x05, 0xf3, 0x5d, 0xde, 0xe1ec56b4, 0xed1ec85e);
    RoundTurn(rks, 18, 0x2ffc5831, 0xf69e6888, 0xaf2432c4, 0xed1ec85e, 0xcc874966,
              0x78, 0x23, 0xdb, 0x74, 0x4cf4129f, 0x55a3ba22);
    RoundTurn(rks, 19, 0xf69e6888, 0xaf2432c4, 0xed1ec85e, 0x55a3ba22, 0x92244439,
              0x85, 0xbd, 0x04, 0x81, 0xc76cccbf, 0x124b18aa);
    RoundTurn(rks, 20, 0xaf2432c4, 0xed1ec85e, 0x55a3ba22, 0x124b18aa, 0xe89e641f,
              0x42, 0x68, 0x0e, 0xc9, 0xa7252cd9, 0x6ae7725f);
    RoundTurn(rks, 21, 0xed1ec85e, 0x55a3ba22, 0x124b18aa, 0x6ae7725f, 0x98ca015a,
              0xb5, 0xc5, 0xd1, 0x8d, 0xfdddc161, 0xf4cba1f9);
    RoundTurn(rks, 22, 0x55a3ba22, 0x124b18aa, 0x6ae7725f, 0xf4cba1f9, 0xc7159060,
              0x4b, 0x72, 0x5b, 0x6c, 0x19464b01, 0x1dcdfa10);
    RoundTurn(rks, 23, 0x124b18aa, 0x6ae7725f, 0xf4cba1f9, 0x1dcdfa10, 0x99e1fd2e,
              0x1a, 0x00, 0xd4, 0x98, 0x13d6a5ad, 0x2ff60603);
  }

  lemma Rounds24(rks: seq<bv32>)
    requires |rks| == 32
    requires rks[24] == 0xb79bd80c && rks[25] == 0x1d2115b0 && rks[26] == 0x0e228aeb && rks[27] == 0xf1780c81
    requires rks[28] == 0x428d3654 && rks[29] == 0x62293496 && rks[30] == 0x01cf72e5 && rks[31] == 0x9124a012
    ensures Rounds(Quad(0x6ae7725f, 0xf4cba1f9, 0x1dcdfa10, 0x2ff60603), rks[24..])
         == Rounds(Quad(0x536e4246, 0x86b3e94f, 0xd206965e, 0x681edf34), rks[32..])
  {
    hide Rounds, SboxRow;
    Rows();
    RoundTurn(rks, 24, 0x6ae7725f, 0xf4cba1f9, 0x1dcdfa10, 0x2ff60603, 0xb79bd80c,
              0x71, 0x6b, 0x85, 0xe6, 0x003bc777, 0xeff24fdc);
    RoundTurn(rks, 25, 0xf4cba1f9, 0x1dcdfa10, 0x2ff60603, 0xeff24fdc, 0x1d2115b0,
              0xc0, 0xe8, 0xa6, 0x7f, 0x8d65ca9e, 0x6fe46b75);
    RoundTurn(rks, 26, 0x1dcdfa10, 0x2ff60603, 0xeff24fdc, 0x6fe46b75, 0x0e228aeb,
              0xa1, 0xc2, 0xa8, 0x41, 0xf6afc007, 0x893450ad);
    RoundTurn(rks, 27, 0x2ff60603, 0xeff24fdc, 0x6fe46b75, 0x893450ad, 0xf1780c81,
              0xf8, 0x5a, 0x78, 0x85, 0x790f4cc7, 0x7b938f4c);
    RoundTurn(rks, 28, 0xeff24fdc, 0x6fe46b75, 0x893450ad, 0x7b938f4c, 0x428d3654,
              0xdf, 0xce, 0x82, 0xc0, 0xb05a8a8d, 0x536e4246);
    RoundTurn(rks, 29, 0x6fe46b75, 0x893450ad, 0x7b938f4c, 0x536e4246, 0x62293496,
              0xc3, 0xe0, 0xa9, 0x31, 0x928929b3, 0x86b3e94f);
    RoundTurn(rks, 30, 0x893450ad, 0x7b938f4c, 0x536e4246, 0x86b3e94f, 0x01cf72e5,
              0xaf, 0x81, 0x56, 0xa0, 0x6fbfda1d, 0xd206965e);
    RoundTurn(rks, 31, 0x7b938f4c, 0x536e4246, 0x86b3e94f, 0xd206965e, 0x9124a012,
              0x96, 0xff, 0x9d, 0x45, 0x1a488c73, 0x681edf34);
  }

  lemma Start()
    ensures ToQuad(KEY) == Quad(0x01234567, 0x89abcdef, 0xfedcba98, 0x76543210)
    ensures Expand(KEY) == ExpandFrom(Quad(0xa292ffa1, 0xdf01febf, 0x99a12b0f, 0xc42410cc), 0)
  {
    hide ExpandFrom;
    var mk := ToQuad(KEY);
    assert mk == Quad(0x01234567, 0x89abcdef, 0xfedcba98, 0x76543210);
  }

  lemma Finish(rks: seq<bv32>)
    requires rks == []
    ensures FromQuad(Reversed(Rounds(Quad(0x536e4246, 0x86b3e94f, 0xd206965e, 0x681edf34), rks))) == CIPHERTEXT
  {
  }

  /** The standard's own example. It fixes the S-box, both linear transforms, the system
      parameters and the order of bytes and words at once. */
  lemma StandardExample()
    ensures CryptBlock(Expand(KEY), KEY) == CIPHERTEXT
  {
    hide ExpandFrom, Rounds, Expand, ToQuad, FromQuad;
    var rks := Expand(KEY);
    Start();
    assert rks[0..] == rks;
    Keys0(rks); Keys8(rks);
    Keys16(rks); Keys24(rks);
    Rounds0(rks); Rounds8(rks);
    Rounds16(rks); Rounds24(rks);
    Finish(rks[32..]);
  }
}
