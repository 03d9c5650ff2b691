/** StringManip::crc32: the table-driven CRC against division one bit at a time. */
module Crc {

  /** The generator of section 3.2.9 of IEEE 802.3, without its leading term. */
  const POLYNOMIAL: bv32 := 0x04C1_1DB7

  // ----- the definition: most significant bit first, one bit at a time -----

  predicate Top(x: bv32) { x & 0x8000_0000 != 0 }

  function Reduced(x: bv32, reduce: bool): bv32 { if reduce then x ^ POLYNOMIAL else x }

  /** Shift in one message bit; subtract the generator when the bit leaving differs from it. */
  function PushBit(crc: bv32, bit: bool): bv32 {
    Reduced(Shl(crc), Top(crc) != bit)
  }

  function Xor(x: bv32, y: bv32): bv32 { x ^ y }

  function Shl(x: bv32): bv32 { x << 1 }

  function PushBits(crc: bv32, bits: seq<bool>): bv32
    decreases |bits|
  {
    if bits == [] then crc else PushBits(PushBit(crc, bits[0]), bits[1..])
  }

  /** The bits of a byte, most significant first. */
  function ByteBits(b: bv8): seq<bool> {
    [b & 0x80 != 0, b & 0x40 != 0, b & 0x20 != 0, b & 0x10 != 0,
     b & 0x08 != 0, b & 0x04 != 0, b & 0x02 != 0, b & 0x01 != 0]
  }

  function MessageBits(data: seq<bv8>): seq<bool> {
    if data == [] then [] else ByteBits(data[0]) + MessageBits(data[1..])
  }

  // ----- the table -----

  function Row0(i: bv32): bv32 {
    match i
    case 0 => 0x0000_0000
    case 1 => 0x04C1_1DB7
    case 2 => 0x0982_3B6E
    case 3 => 0x0D43_26D9
    case 4 => 0x1304_76DC
    case 5 => 0x17C5_6B6B
    case 6 => 0x1A86_4DB2
    case 7 => 0x1E47_5005
    case 8 => 0x2608_EDB8
    case 9 => 0x22C9_F00F
    case 10 => 0x2F8A_D6D6
    case 11 => 0x2B4B_CB61
    case 12 => 0x350C_9B64
    case 13 => 0x31CD_86D3
    case 14 => 0x3C8E_A00A
    case _ => 0x384F_BDBD
  }

  function Row1(i: bv32): bv32 {
    match i
    case 0 => 0x4C11_DB70
    case 1 => 0x48D0_C6C7
    case 2 => 0x4593_E01E
    case 3 => 0x4152_FDA9
    case 4 => 0x5F15_ADAC
    case 5 => 0x5BD4_B01B
    case 6 => 0x5697_96C2
    case 7 => 0x5256_8B75
    case 8 => 0x6A19_36C8
    case 9 => 0x6ED8_2B7F
    case 10 => 0x639B_0DA6
    case 11 => 0x675A_1011
    case 12 => 0x791D_4014
    case 13 => 0x7DDC_5DA3
    case 14 => 0x709F_7B7A
    case _ => 0x745E_66CD
  }

  function Row2(i: bv32): bv32 {
    match i
    case 0 => 0x9823_B6E0
    case 1 => 0x9CE2_AB57
    case 2 => 0x91A1_8D8E
    case 3 => 0x9560_9039
    case 4 => 0x8B27_C03C
    case 5 => 0x8FE6_DD8B
    case 6 => 0x82A5_FB52
    case 7 => 0x8664_E6E5
    case 8 => 0xBE2B_5B58
    case 9 => 0xBAEA_46EF
    case 10 => 0xB7A9_6036
    case 11 => 0xB368_7D81
    case 12 => 0xAD2F_2D84
    case 13 => 0xA9EE_3033
    case 14 => 0xA4AD_16EA
    case _ => 0xA06C_0B5D
  }

  function Row3(i: bv32): bv32 {
    match i
    case 0 => 0xD432_6D90
    case 1 => 0xD0F3_7027
    case 2 => 0xDDB0_56FE
    case 3 => 0xD971_4B49
    case 4 => 0xC736_1B4C
    case 5 => 0xC3F7_06FB
    case 6 => 0xCEB4_2022
    case 7 => 0xCA75_3D95
    case 8 => 0xF23A_8028
    case 9 => 0xF6FB_9D9F
    case 10 => 0xFBB8_BB46
    case 11 => 0xFF79_A6F1
    case 12 => 0xE13E_F6F4
    case 13 => 0xE5FF_EB43
    case 14 => 0xE8BC_CD9A
    case _ => 0xEC7D_D02D
  }

  function Row4(i: bv32): bv32 {
    match i
    case 0 => 0x3486_7077
    case 1 => 0x3047_6DC0
    case 2 => 0x3D04_4B19
    case 3 => 0x39C5_56AE
    case 4 => 0x2782_06AB
    case 5 => 0x2343_1B1C
    case 6 => 0x2E00_3DC5
    case 7 => 0x2AC1_2072
    case 8 => 0x128E_9DCF
    case 9 => 0x164F_8078
    case 10 => 0x1B0C_A6A1
    case 11 => 0x1FCD_BB16
    case 12 => 0x018A_EB13
    case 13 => 0x054B_F6A4
    case 14 => 0x0808_D07D
    case _ => 0x0CC9_CDCA
  }

  function Row5(i: bv32): bv32 {
    match i
    case 0 => 0x7897_AB07
    case 1 => 0x7C56_B6B0
    case 2 => 0x7115_9069
    case 3 => 0x75D4_8DDE
    case 4 => 0x6B93_DDDB
    case 5 => 0x6F52_C06C
    case 6 => 0x6211_E6B5
    case 7 => 0x66D0_FB02
    case 8 => 0x5E9F_46BF
    case 9 => 0x5A5E_5B08
    case 10 => 0x571D_7DD1
    case 11 => 0x53DC_6066
    case 12 => 0x4D9B_3063
    case 13 => 0x495A_2DD4
    case 14 => 0x4419_0B0D
    case _ => 0x40D8_16BA
  }

  function Row6(i: bv32): bv32 {
    match i
    case 0 => 0xACA5_C697
    case 1 => 0xA864_DB20
    case 2 => 0xA527_FDF9
    case 3 => 0xA1E6_E04E
    case 4 => 0xBFA1_B04B
    case 5 => 0xBB60_ADFC
    case 6 => 0xB623_8B25
    case 7 => 0xB2E2_9692
    case 8 => 0x8AAD_2B2F
    case 9 => 0x8E6C_3698
    case 10 => 0x832F_1041
    case 11 => 0x87EE_0DF6
    case 12 => 0x99A9_5DF3
    case 13 => 0x9D68_4044
    case 14 => 0x902B_669D
    case _ => 0x94EA_7B2A
  }

  function Row7(i: bv32): bv32 {
    match i
    case 0 => 0xE0B4_1DE7
    case 1 => 0xE475_0050
    case 2 => 0xE936_2689
    case 3 => 0xEDF7_3B3E
    case 4 => 0xF3B0_6B3B
    case 5 => 0xF771_768C
    case 6 => 0xFA32_5055
    case 7 => 0xFEF3_4DE2
    case 8 => 0xC6BC_F05F
    case 9 => 0xC27D_EDE8
    case 10 => 0xCF3E_CB31
    case 11 => 0xCBFF_D686
    case 12 => 0xD5B8_8683
    case 13 => 0xD179_9B34
    case 14 => 0xDC3A_BDED
    case _ => 0xD8FB_A05A
  }

  function Row8(i: bv32): bv32 {
    match i
    case 0 => 0x690C_E0EE
    case 1 => 0x6DCD_FD59
    case 2 => 0x608E_DB80
    case 3 => 0x644F_C637
    case 4 => 0x7A08_9632
    case 5 => 0x7EC9_8B85
    case 6 => 0x738A_AD5C
    case 7 => 0x774B_B0EB
    case 8 => 0x4F04_0D56
    case 9 => 0x4BC5_10E1
    case 10 => 0x4686_3638
    case 11 => 0x4247_2B8F
    case 12 => 0x5C00_7B8A
    case 13 => 0x58C1_663D
    case 14 => 0x5582_40E4
    case _ => 0x5143_5D53
  }

  function Row9(i: bv32): bv32 {
    match i
    case 0 => 0x251D_3B9E
    case 1 => 0x21DC_2629
    case 2 => 0x2C9F_00F0
    case 3 => 0x285E_1D47
    case 4 => 0x3619_4D42
    case 5 => 0x32D8_50F5
    case 6 => 0x3F9B_762C
    case 7 => 0x3B5A_6B9B
    case 8 => 0x0315_D626
    case 9 => 0x07D4_CB91
    case 10 => 0x0A97_ED48
    case 11 => 0x0E56_F0FF
    case 12 => 0x1011_A0FA
    case 13 => 0x14D0_BD4D
    case 14 => 0x1993_9B94
    case _ => 0x1D52_8623
  }

  function RowA(i: bv32): bv32 {
    match i
    case 0 => 0xF12F_560E
    case 1 => 0xF5EE_4BB9
    case 2 => 0xF8AD_6D60
    case 3 => 0xFC6C_70D7
    case 4 => 0xE22B_20D2
    case 5 => 0xE6EA_3D65
    case 6 => 0xEBA9_1BBC
    case 7 => 0xEF68_060B
    case 8 => 0xD727_BBB6
    case 9 => 0xD3E6_A601
    case 10 => 0xDEA5_80D8
    case 11 => 0xDA64_9D6F
    case 12 => 0xC423_CD6A
    case 13 => 0xC0E2_D0DD
    case 14 => 0xCDA1_F604
    case _ => 0xC960_EBB3
  }

  function RowB(i: bv32): bv32 {
    match i
    case 0 => 0xBD3E_8D7E
    case 1 => 0xB9FF_90C9
    case 2 => 0xB4BC_B610
    case 3 => 0xB07D_ABA7
    case 4 => 0xAE3A_FBA2
    case 5 => 0xAAFB_E615
    case 6 => 0xA7B8_C0CC
    case 7 => 0xA379_DD7B
    case 8 => 0x9B36_60C6
    case 9 => 0x9FF7_7D71
    case 10 => 0x92B4_5BA8
    case 11 => 0x9675_461F
    case 12 => 0x8832_161A
    case 13 => 0x8CF3_0BAD
    case 14 => 0x81B0_2D74
    case _ => 0x8571_30C3
  }

  function RowC(i: bv32): bv32 {
    match i
    case 0 => 0x5D8A_9099
    case 1 => 0x594B_8D2E
    case 2 => 0x5408_ABF7
    case 3 => 0x50C9_B640
    case 4 => 0x4E8E_E645
    case 5 => 0x4A4F_FBF2
    case 6 => 0x470C_DD2B
    case 7 => 0x43CD_C09C
    case 8 => 0x7B82_7D21
    case 9 => 0x7F43_6096
    case 10 => 0x7200_464F
    case 11 => 0x76C1_5BF8
    case 12 => 0x6886_0BFD
    case 13 => 0x6C47_164A
    case 14 => 0x6104_3093
    case _ => 0x65C5_2D24
  }

  function RowD(i: bv32): bv32 {
    match i
    case 0 => 0x119B_4BE9
    case 1 => 0x155A_565E
    case 2 => 0x1819_7087
    case 3 => 0x1CD8_6D30
    case 4 => 0x029F_3D35
    case 5 => 0x065E_2082
    case 6 => 0x0B1D_065B
    case 7 => 0x0FDC_1BEC
    case 8 => 0x3793_A651
    case 9 => 0x3352_BBE6
    case 10 => 0x3E11_9D3F
    case 11 => 0x3AD0_8088
    case 12 => 0x2497_D08D
    case 13 => 0x2056_CD3A
    case 14 => 0x2D15_EBE3
    case _ => 0x29D4_F654
  }

  function RowE(i: bv32): bv32 {
    match i
    case 0 => 0xC5A9_2679
    case 1 => 0xC168_3BCE
    case 2 => 0xCC2B_1D17
    case 3 => 0xC8EA_00A0
    case 4 => 0xD6AD_50A5
    case 5 => 0xD26C_4D12
    case 6 => 0xDF2F_6BCB
    case 7 => 0xDBEE_767C
    case 8 => 0xE3A1_CBC1
    case 9 => 0xE760_D676
    case 10 => 0xEA23_F0AF
    case 11 => 0xEEE2_ED18
    case 12 => 0xF0A5_BD1D
    case 13 => 0xF464_A0AA
    case 14 => 0xF927_8673
    case _ => 0xFDE6_9BC4
  }

  function RowF(i: bv32): bv32 {
    match i
    case 0 => 0x89B8_FD09
    case 1 => 0x8D79_E0BE
    case 2 => 0x803A_C667
    case 3 => 0x84FB_DBD0
    case 4 => 0x9ABC_8BD5
    case 5 => 0x9E7D_9662
    case 6 => 0x933E_B0BB
    case 7 => 0x97FF_AD0C
    case 8 => 0xAFB0_10B1
    case 9 => 0xAB71_0D06
    case 10 => 0xA632_2BDF
    case 11 => 0xA2F3_3668
    case 12 => 0xBCB4_666D
    case 13 => 0xB875_7BDA
    case 14 => 0xB536_5D03
    case _ => 0xB1F7_40B4
  }

  /** CRC_QUICK_TABLE[i], sixteen entries a row. */
  function QuickTable(i: bv32): bv32
    requires i < 256
  {
    match i >> 4
    case 0 => Row0(i & 15)
    case 1 => Row1(i & 15)
    case 2 => Row2(i & 15)
    case 3 => Row3(i & 15)
    case 4 => Row4(i & 15)
    case 5 => Row5(i & 15)
    case 6 => Row6(i & 15)
    case 7 => Row7(i & 15)
    case 8 => Row8(i & 15)
    case 9 => Row9(i & 15)
    case 10 => RowA(i & 15)
    case 11 => RowB(i & 15)
    case 12 => RowC(i & 15)
    case 13 => RowD(i & 15)
    case 14 => RowE(i & 15)
    case _ => RowF(i & 15)
  }

  /** Eight shifts with no message. */
  function Shift8(x: bv32): bv32 {
    var a := PushBit(PushBit(PushBit(PushBit(x, false), false), false), false);
    PushBit(PushBit(PushBit(PushBit(a, false), false), false), false)
  }

  lemma Row0IsDivision(i: bv32)
    requires i < 16
    ensures Row0(i) == Shift8((0 + i) << 24)
  {
  }

  lemma Row1IsDivision(i: bv32)
    requires i < 16
    ensures Row1(i) == Shift8((16 + i) << 24)
  {
  }

  lemma Row2IsDivision(i: bv32)
    requires i < 16
    ensures Row2(i) == Shift8((32 + i) << 24)
  {
  }

  lemma Row3IsDivision(i: bv32)
    requires i < 16
    ensures Row3(i) == Shift8((48 + i) << 24)
  {
  }

  lemma Row4IsDivision(i: bv32)
    requires i < 16
    ensures Row4(i) == Shift8((64 + i) << 24)
  {
  }

  lemma Row5IsDivision(i: bv32)
    requires i < 16
    ensures Row5(i) == Shift8((80 + i) << 24)
  {
  }

  lemma Row6IsDivision(i: bv32)
    requires i < 16
    ensures Row6(i) == Shift8((96 + i) << 24)
  {
  }

  lemma Row7IsDivision(i: bv32)
    requires i < 16
    ensures Row7(i) == Shift8((112 + i) << 24)
  {
  }

  lemma Row8IsDivision(i: bv32)
    requires i < 16
    ensures Row8(i) == Shift8((128 + i) << 24)
  {
  }

  lemma Row9IsDivision(i: bv32)
    requires i < 16
    ensures Row9(i) == Shift8((144 + i) << 24)
  {
  }

  lemma RowAIsDivision(i: bv32)
    requires i < 16
    ensures RowA(i) == Shift8((160 + i) << 24)
  {
  }

  lemma RowBIsDivision(i: bv32)
    requires i < 16
    ensures RowB(i) == Shift8((176 + i) << 24)
  {
  }

  lemma RowCIsDivision(i: bv32)
    requires i < 16
    ensures RowC(i) == Shift8((192 + i) << 24)
  {
  }

  lemma RowDIsDivision(i: bv32)
    requires i < 16
    ensures RowD(i) == Shift8((208 + i) << 24)
  {
  }

  lemma RowEIsDivision(i: bv32)
    requires i < 16
    ensures RowE(i) == Shift8((224 + i) << 24)
  {
  }

  lemma RowFIsDivision(i: bv32)
    requires i < 16
    ensures RowF(i) == Shift8((240 + i) << 24)
  {
  }

  /** Every entry of the table is its index divided bit by bit. */
  lemma TableIsDivision(i: bv32)
    requires i < 256
    ensures QuickTable(i) == Shift8(i << 24)
  {
    var lo := i & 15;
    match i >> 4
    case 0 => Row0IsDivision(lo);
    case 1 => Row1IsDivision(lo);
    case 2 => Row2IsDivision(lo);
    case 3 => Row3IsDivision(lo);
    case 4 => Row4IsDivision(lo);
    case 5 => Row5IsDivision(lo);
    case 6 => Row6IsDivision(lo);
    case 7 => Row7IsDivision(lo);
    case 8 => Row8IsDivision(lo);
    case 9 => Row9IsDivision(lo);
    case 10 => RowAIsDivision(lo);
    case 11 => RowBIsDivision(lo);
    case 12 => RowCIsDivision(lo);
    case 13 => RowDIsDivision(lo);
    case 14 => RowEIsDivision(lo);
    case _ => RowFIsDivision(lo);
  }

  // ----- message bits pushed now or exclusive-ored in beforehand -----

  function Zeros(k: nat): seq<bool> { if k == 0 then [] else [false] + Zeros(k - 1) }

  /** The k top bits of m, and m without them. */
  function TopBits(m: bv32, k: nat): seq<bool>
    decreases k
  {
    if k == 0 then [] else [Top(m)] + TopBits(Shl(m), k - 1)
  }

  function Shifted(m: bv32, k: nat): bv32
    decreases k
  {
    if k == 0 then m else Shifted(Shl(m), k - 1)
  }

  lemma TopXor(x: bv32, m: bv32)
    ensures Top(Xor(x, m)) <==> Top(x) != Top(m)
  {
  }

  lemma XorBeforeShift(x: bv32, m: bv32)
    ensures Shl(Xor(x, m)) == Xor(Shl(x), Shl(m))
  {
  }

  lemma XorBeforeReduction(x: bv32, m: bv32, p: bv32)
    ensures Xor(x, m) ^ p == Xor(x ^ p, m)
  {
  }

  /** PushBit with the two tests given: what leaves the register and the message bit. */
  lemma PushIs(x: bv32, bit: bool, reduce: bool)
    requires reduce == (Top(x) != bit)
    ensures PushBit(x, bit) == Reduced(Shl(x), reduce)
  {
  }

  lemma PushOne(x: bv32, m: bv32)
    requires Top(m)
    ensures PushBit(Xor(x, m), false) == Xor(PushBit(x, true), Shl(m))
  {
    TopXor(x, m);
    XorBeforeShift(x, m);
    XorBeforeReduction(Shl(x), Shl(m), POLYNOMIAL);
    if Top(x) {
      PushIs(Xor(x, m), false, false);
      PushIs(x, true, false);
    } else {
      PushIs(Xor(x, m), false, true);
      PushIs(x, true, true);
    }
  }

  lemma PushZero(x: bv32, m: bv32)
    requires !Top(m)
    ensures PushBit(Xor(x, m), false) == Xor(PushBit(x, false), Shl(m))
  {
    TopXor(x, m);
    XorBeforeShift(x, m);
    XorBeforeReduction(Shl(x), Shl(m), POLYNOMIAL);
    if Top(x) {
      PushIs(Xor(x, m), false, true);
      PushIs(x, false, true);
    } else {
      PushIs(Xor(x, m), false, false);
      PushIs(x, false, false);
    }
  }

  /** A message whose next bit is the top of m may be pushed, or exclusive-ored in beforehand. */
  lemma PushMoves(x: bv32, m: bv32)
    ensures PushBit(Xor(x, m), false) == Xor(PushBit(x, Top(m)), Shl(m))
  {
    if Top(m) {
      PushOne(x, m);
    } else {
      PushZero(x, m);
    }
  }

  /** Exclusive-oring m into the register and shifting k times is pushing the k top bits of m as
      message, with the rest of m shifted up. */
  lemma {:induction false} MessageMoves(x: bv32, m: bv32, k: nat)
    ensures PushBits(Xor(x, m), Zeros(k)) == Xor(PushBits(x, TopBits(m, k)), Shifted(m, k))
    decreases k
  {
    if k > 0 {
      PushMoves(x, m);
      MessageMoves(PushBit(x, Top(m)), Shl(m), k - 1);
      assert Zeros(k)[1..] == Zeros(k - 1);
      assert TopBits(m, k)[1..] == TopBits(Shl(m), k - 1);
    }
  }

  // ----- one byte -----

  function Shl8(m: bv32): bv32 { Shl(Shl(Shl(Shl(Shl(Shl(Shl(Shl(m)))))))) }

  lemma {:induction false} TopBitAt(m: bv32, k: nat, i: nat)
    requires i < k
    ensures |TopBits(m, k)| == k && TopBits(m, k)[i] == Top(Shifted(m, i))
    decreases k
  {
    if i > 0 {
      TopBitAt(Shl(m), k - 1, i - 1);
    } else if k > 1 {
      TopBitAt(Shl(m), k - 1, 0);
    }
  }

  lemma EightShifts(m: bv32)
    ensures Shifted(m, 1) == Shl(m) && Shifted(m, 2) == Shl(Shl(m))
    ensures Shifted(m, 3) == Shl(Shl(Shl(m))) && Shifted(m, 4) == Shl(Shl(Shl(Shl(m))))
    ensures Shifted(m, 5) == Shl(Shl(Shl(Shl(Shl(m))))) && Shifted(m, 6) == Shl(Shl(Shl(Shl(Shl(Shl(m))))))
    ensures Shifted(m, 7) == Shl(Shl(Shl(Shl(Shl(Shl(Shl(m))))))) && Shifted(m, 8) == Shl8(m)
  {
  }

  lemma ByteShifts(b: bv8)
    ensures var m := (b as bv32) << 24;
      && Top(m) == (b & 0x80 != 0)
      && Top(Shl(m)) == (b & 0x40 != 0)
      && Top(Shl(Shl(m))) == (b & 0x20 != 0)
      && Top(Shl(Shl(Shl(m)))) == (b & 0x10 != 0)
      && Top(Shl(Shl(Shl(Shl(m))))) == (b & 0x08 != 0)
      && Top(Shl(Shl(Shl(Shl(Shl(m)))))) == (b & 0x04 != 0)
      && Top(Shl(Shl(Shl(Shl(Shl(Shl(m))))))) == (b & 0x02 != 0)
      && Top(Shl(Shl(Shl(Shl(Shl(Shl(Shl(m)))))))) == (b & 0x01 != 0)
      && Shl8(m) == 0
  {
  }

  lemma LowShifts(m: bv32)
    requires m < 0x0100_0000
    ensures !Top(m) && !Top(Shl(m)) && !Top(Shl(Shl(m))) && !Top(Shl(Shl(Shl(m))))
    ensures !Top(Shl(Shl(Shl(Shl(m))))) && !Top(Shl(Shl(Shl(Shl(Shl(m))))))
    ensures !Top(Shl(Shl(Shl(Shl(Shl(Shl(m))))))) && !Top(Shl(Shl(Shl(Shl(Shl(Shl(Shl(m))))))))
    ensures Shl8(m) == m << 8
  {
  }

  lemma {:induction false} ZeroAt(k: nat, i: nat)
    requires i < k
    ensures |Zeros(k)| == k && !Zeros(k)[i]
  {
    if i > 0 {
      ZeroAt(k - 1, i - 1);
    } else if k > 1 {
      ZeroAt(k - 1, 0);
    }
  }

  lemma SameBits(m: bv32, k: nat, bits: seq<bool>)
    requires |bits| == k && forall i :: 0 <= i < k ==> bits[i] == Top(Shifted(m, i))
    ensures TopBits(m, k) == bits
  {
    if k > 0 {
      TopBitAt(m, k, 0);
    }
    forall i | 0 <= i < k
      ensures TopBits(m, k)[i] == bits[i]
    {
      TopBitAt(m, k, i);
    }
  }

  lemma ByteTopBits(b: bv8)
    ensures TopBits((b as bv32) << 24, 8) == ByteBits(b) && Shifted((b as bv32) << 24, 8) == 0
  {
    var m := (b as bv32) << 24;
    ByteShifts(b);
    EightShifts(m);
    SameBits(m, 8, ByteBits(b));
  }

  lemma LowTopBits(m: bv32)
    requires m < 0x0100_0000
    ensures TopBits(m, 8) == Zeros(8) && Shifted(m, 8) == m << 8
  {
    LowShifts(m);
    EightShifts(m);
    ZeroAt(8, 0);
    forall i | 0 <= i < 8
      ensures Zeros(8)[i] == Top(Shifted(m, i))
    {
      ZeroAt(8, i);
    }
    SameBits(m, 8, Zeros(8));
  }

  lemma ZerosStep(x: bv32, k: nat)
    requires k > 0
    ensures PushBits(x, Zeros(k)) == PushBits(PushBit(x, false), Zeros(k - 1))
  {
  }

  lemma EightZeros(x: bv32)
    ensures PushBits(x, Zeros(8)) == Shift8(x)
  {
    var x1 := PushBit(x, false);
    var x2 := PushBit(x1, false);
    var x3 := PushBit(x2, false);
    var x4 := PushBit(x3, false);
    var x5 := PushBit(x4, false);
    var x6 := PushBit(x5, false);
    var x7 := PushBit(x6, false);
    ZerosStep(x, 8);
    ZerosStep(x1, 7);
    ZerosStep(x2, 6);
    ZerosStep(x3, 5);
    ZerosStep(x4, 4);
    ZerosStep(x5, 3);
    ZerosStep(x6, 2);
    ZerosStep(x7, 1);
  }

  /** Pushing a byte as message is exclusive-oring it on top and shifting eight times. */
  lemma ByteMessage(crc: bv32, b: bv8)
    ensures PushBits(crc, ByteBits(b)) == PushBits(Xor(crc, (b as bv32) << 24), Zeros(8))
  {
    MessageMoves(crc, (b as bv32) << 24, 8);
    ByteTopBits(b);
    XorZero(PushBits(crc, ByteBits(b)));
  }

  lemma XorZero(x: bv32)
    ensures Xor(x, 0) == x
  {
  }

  /** The low 24 bits never reach the generator in eight shifts. */
  lemma LowBitsPass(top: bv32, low: bv32)
    requires low < 0x0100_0000
    ensures PushBits(Xor(top, low), Zeros(8)) == Xor(PushBits(top, Zeros(8)), low << 8)
  {
    MessageMoves(top, low, 8);
    LowTopBits(low);
  }

  function Up8(x: bv32): bv32 { x << 8 }

  function Index(crc: bv32, b: bv8): bv32 { (crc >> 24) ^ (b as bv32) }

  function Low(crc: bv32): bv32 { crc & 0x00FF_FFFF }

  function OnTop(i: bv32): bv32 { i << 24 }

  /** One turn of the loop. */
  function PushByte(crc: bv32, b: bv8): (r: bv32) {
    IndexIsByte(crc, b);
    Xor(Up8(crc), QuickTable(Index(crc, b)))
  }

  lemma IndexIsByte(crc: bv32, b: bv8)
    ensures Index(crc, b) < 256
  {
  }

  lemma RestIsLow(crc: bv32)
    ensures Low(crc) < 0x0100_0000 && Low(crc) << 8 == Up8(crc)
  {
  }

  lemma RegisterSplits(crc: bv32)
    ensures crc == OnTop(crc >> 24) ^ Low(crc)
  {
  }

  lemma TopXors(x: bv32, y: bv32, low: bv32)
    ensures (OnTop(x) ^ low) ^ (y << 24) == OnTop(x ^ y) ^ low
  {
  }

  lemma ByteAndRest(crc: bv32, b: bv8)
    ensures Xor(crc, (b as bv32) << 24) == Xor(OnTop(Index(crc, b)), Low(crc))
  {
    RegisterSplits(crc);
    TopXors(crc >> 24, b as bv32, Low(crc));
  }

  lemma XorCommutes(x: bv32, y: bv32)
    ensures Xor(x, y) == Xor(y, x)
  {
  }

  lemma IndexDivision(i: bv32)
    requires i < 256
    ensures QuickTable(i) == PushBits(OnTop(i), Zeros(8))
  {
    TableIsDivision(i);
    EightZeros(i << 24);
  }

  /** One turn of the table loop is eight message bits divided one at a time. */
  lemma ByteIsEightBits(crc: bv32, b: bv8)
    ensures PushByte(crc, b) == PushBits(crc, ByteBits(b))
  {
    ByteAndRest(crc, b);
    RestIsLow(crc);
    IndexIsByte(crc, b);
    ByteMessage(crc, b);
    LowBitsPass(OnTop(Index(crc, b)), Low(crc));
    IndexDivision(Index(crc, b));
    XorCommutes(QuickTable(Index(crc, b)), Up8(crc));
  }

  // ----- whole messages -----

  function Pushed(crc: bv32, data: seq<bv8>): bv32
    decreases |data|
  {
    if data == [] then crc else Pushed(PushByte(crc, data[0]), data[1..])
  }

  lemma {:induction false} BitsConcat(crc: bv32, a: seq<bool>, b: seq<bool>)
    ensures PushBits(crc, a + b) == PushBits(PushBits(crc, a), b)
    decreases |a|
  {
    if a == [] {
      assert a + b == b;
    } else {
      assert (a + b)[1..] == a[1..] + b;
      BitsConcat(PushBit(crc, a[0]), a[1..], b);
    }
  }

  /** The table-driven CRC of any bytes from any seed is the bitwise division of their bits. */
  lemma {:induction false} TableCrcIsBitwise(crc: bv32, data: seq<bv8>)
    ensures Pushed(crc, data) == PushBits(crc, MessageBits(data))
    decreases |data|
  {
    if data != [] {
      ByteIsEightBits(crc, data[0]);
      BitsConcat(crc, ByteBits(data[0]), MessageBits(data[1..]));
      TableCrcIsBitwise(PushByte(crc, data[0]), data[1..]);
    }
  }

  lemma {:induction false} PushedConcat(crc: bv32, a: seq<bv8>, b: seq<bv8>)
    ensures Pushed(crc, a + b) == Pushed(Pushed(crc, a), b)
    decreases |a|
  {
    if a == [] {
      assert a + b == b;
    } else {
      assert (a + b)[1..] == a[1..] + b;
      PushedConcat(PushByte(crc, a[0]), a[1..], b);
    }
  }

  /** crc32: the remainder, one bit at a time, of the message's bits; feeding the message in
      parts gives the same. */
  method Crc32(seed: bv32, data: seq<bv8>) returns (crc: bv32)
    ensures crc == PushBits(seed, MessageBits(data))
  {
    crc := seed;
    var i := 0;
    while i < |data|
      invariant 0 <= i <= |data|
      invariant Pushed(seed, data) == Pushed(crc, data[i..])
    {
      crc := PushByte(crc, data[i]);
      i := i + 1;
    }
    TableCrcIsBitwise(seed, data);
  }

  /** crc32(crc32(seed, a), b) is crc32(seed, a + b). */
  method Crc32InParts(seed: bv32, a: seq<bv8>, b: seq<bv8>) returns (parts: bv32, whole: bv32)
    ensures parts == whole
  {
    var first := Crc32(seed, a);
    parts := Crc32(first, b);
    whole := Crc32(seed, a + b);
    TableCrcIsBitwise(seed, a);
    TableCrcIsBitwise(first, b);
    TableCrcIsBitwise(seed, a + b);
    PushedConcat(seed, a, b);
  }
}
