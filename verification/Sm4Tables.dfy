/** The constants of SM4, section 7 of GB/T 32907-2016. */
module Sm4Tables {

  /** One row of the S-box table, its sixteen bytes from left to right. */
  function SboxRow(row: bv8): bv128 {
    if row == 0 then 0xd690e9fecce13db716b614c228fb2c05
    else if row == 1 then 0x2b679a762abe04c3aa44132649860699
    else if row == 2 then 0x9c4250f491ef987a33540b43edcfac62
    else if row == 3 then 0xe4b31ca9c908e89580df94fa758f3fa6
    else if row == 4 then 0x4707a7fcf37317ba83593c19e6854fa8
    else if row == 5 then 0x686b81b27164da8bf8eb0f4b70569d35
    else if row == 6 then 0x1e240e5e6358d1a225227c3b01217887
    else if row == 7 then 0xd40046579fd327524c3602e7a0c4c89e
    else if row == 8 then 0xeabf8ad240c738b5a3f7f2cef96115a1
    else if row == 9 then 0xe0ae5da49b341a55ad933230f58cb1e3
    else if row == 10 then 0x1df6e22e8266ca60c02923ab0d534e6f
    else if row == 11 then 0xd5db3745defd8e2f03ff6a726d6c5b51
    else if row == 12 then 0x8d1baf92bbddbc7f11d95c411f105ad8
    else if row == 13 then 0x0ac13188a5cd7bbd2d74d012b8e5b4b0
    else if row == 14 then 0x8969974a0c96777e65b9f109c56ec684
    else 0x18f07dec3adc4d2079ee5f3ed7cb3948
  }

  /** The entry in row b / 16 and column b % 16. */
  function Sbox(b: bv8): bv8 {
    ((SboxRow(b >> 4) >> (8 * (15 - (b & 0x0F)))) & 0xFF) as bv8
  }

  const FK0: bv32 := 0xa3b1bac6
  const FK1: bv32 := 0x56aa3350
  const FK2: bv32 := 0x677d9197
  const FK3: bv32 := 0xb27022dc

  const CK: seq<bv32> := [
    0x00070e15, 0x1c232a31, 0x383f464d, 0x545b6269,
    0x70777e85, 0x8c939aa1, 0xa8afb6bd, 0xc4cbd2d9,
    0xe0e7eef5, 0xfc030a11, 0x181f262d, 0x343b4249,
    0x50575e65, 0x6c737a81, 0x888f969d, 0xa4abb2b9,
    0xc0c7ced5, 0xdce3eaf1, 0xf8ff060d, 0x141b2229,
    0x30373e45, 0x4c535a61, 0x686f767d, 0x848b9299,
    0xa0a7aeb5, 0xbcc3cad1, 0xd8dfe6ed, 0xf4fb0209,
    0x10171e25, 0x2c333a41, 0x484f565d, 0x646b7279]

  /** The standard's rule: byte j of CK_i is (4 i + j) * 7 modulo 256. */
  function CkRule(i: bv8): bv32 {
    (((4 * i) * 7) as bv32 << 24) | (((4 * i + 1) * 7) as bv32 << 16)
      | (((4 * i + 2) * 7) as bv32 << 8) | (((4 * i + 3) * 7) as bv32)
  }

  lemma CkObeysRule()
    ensures |CK| == 32
    ensures forall i: bv8 :: i < 32 ==> CK[i as int] == CkRule(i)
  {
  }
}
