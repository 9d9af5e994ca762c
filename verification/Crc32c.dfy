/** CRC-32C (Castagnoli) by table, against the bit-at-a-time division it stands for. */
module Crc32c {

  function Xor(a: bv32, b: bv32): bv32 { a ^ b }

  /** One bit of the reflected division. */
  function Step(c: bv32): bv32 { if c & 1 == 1 then (c >> 1) ^ 0x82F6_3B78 else c >> 1 }

  function Step8(c: bv32): bv32 { Step(Step(Step(Step(Step(Step(Step(Step(c)))))))) }

  /** One byte, bit by bit. */
  function ByteStep(c: bv32, b: bv8): bv32 { Step8(Xor(c, b as bv32)) }

  /** A byte string, bit by bit: what section 12.1 of RFC 3720 asks for. */
  function Crc(c: bv32, data: seq<bv8>): bv32 {
    if data == [] then c else ByteStep(Crc(c, data[..|data| - 1]), data[|data| - 1])
  }

  // ---- the table, sixteen entries to a row ----

  const ROW0: seq<bv32> := [
    0x0000_0000, 0xf26b_8303, 0xe13b_70f7, 0x1350_f3f4, 0xc79a_971f, 0x35f1_141c, 0x26a1_e7e8, 0xd4ca_64eb,
    0x8ad9_58cf, 0x78b2_dbcc, 0x6be2_2838, 0x9989_ab3b, 0x4d43_cfd0, 0xbf28_4cd3, 0xac78_bf27, 0x5e13_3c24]
  const ROW1: seq<bv32> := [
    0x105e_c76f, 0xe235_446c, 0xf165_b798, 0x030e_349b, 0xd7c4_5070, 0x25af_d373, 0x36ff_2087, 0xc494_a384,
    0x9a87_9fa0, 0x68ec_1ca3, 0x7bbc_ef57, 0x89d7_6c54, 0x5d1d_08bf, 0xaf76_8bbc, 0xbc26_7848, 0x4e4d_fb4b]
  const ROW2: seq<bv32> := [
    0x20bd_8ede, 0xd2d6_0ddd, 0xc186_fe29, 0x33ed_7d2a, 0xe727_19c1, 0x154c_9ac2, 0x061c_6936, 0xf477_ea35,
    0xaa64_d611, 0x580f_5512, 0x4b5f_a6e6, 0xb934_25e5, 0x6dfe_410e, 0x9f95_c20d, 0x8cc5_31f9, 0x7eae_b2fa]
  const ROW3: seq<bv32> := [
    0x30e3_49b1, 0xc288_cab2, 0xd1d8_3946, 0x23b3_ba45, 0xf779_deae, 0x0512_5dad, 0x1642_ae59, 0xe429_2d5a,
    0xba3a_117e, 0x4851_927d, 0x5b01_6189, 0xa96a_e28a, 0x7da0_8661, 0x8fcb_0562, 0x9c9b_f696, 0x6ef0_7595]
  const ROW4: seq<bv32> := [
    0x417b_1dbc, 0xb310_9ebf, 0xa040_6d4b, 0x522b_ee48, 0x86e1_8aa3, 0x748a_09a0, 0x67da_fa54, 0x95b1_7957,
    0xcba2_4573, 0x39c9_c670, 0x2a99_3584, 0xd8f2_b687, 0x0c38_d26c, 0xfe53_516f, 0xed03_a29b, 0x1f68_2198]
  const ROW5: seq<bv32> := [
    0x5125_dad3, 0xa34e_59d0, 0xb01e_aa24, 0x4275_2927, 0x96bf_4dcc, 0x64d4_cecf, 0x7784_3d3b, 0x85ef_be38,
    0xdbfc_821c, 0x2997_011f, 0x3ac7_f2eb, 0xc8ac_71e8, 0x1c66_1503, 0xee0d_9600, 0xfd5d_65f4, 0x0f36_e6f7]
  const ROW6: seq<bv32> := [
    0x61c6_9362, 0x93ad_1061, 0x80fd_e395, 0x7296_6096, 0xa65c_047d, 0x5437_877e, 0x4767_748a, 0xb50c_f789,
    0xeb1f_cbad, 0x1974_48ae, 0x0a24_bb5a, 0xf84f_3859, 0x2c85_5cb2, 0xdeee_dfb1, 0xcdbe_2c45, 0x3fd5_af46]
  const ROW7: seq<bv32> := [
    0x7198_540d, 0x83f3_d70e, 0x90a3_24fa, 0x62c8_a7f9, 0xb602_c312, 0x4469_4011, 0x5739_b3e5, 0xa552_30e6,
    0xfb41_0cc2, 0x092a_8fc1, 0x1a7a_7c35, 0xe811_ff36, 0x3cdb_9bdd, 0xceb0_18de, 0xdde0_eb2a, 0x2f8b_6829]
  const ROW8: seq<bv32> := [
    0x82f6_3b78, 0x709d_b87b, 0x63cd_4b8f, 0x91a6_c88c, 0x456c_ac67, 0xb707_2f64, 0xa457_dc90, 0x563c_5f93,
    0x082f_63b7, 0xfa44_e0b4, 0xe914_1340, 0x1b7f_9043, 0xcfb5_f4a8, 0x3dde_77ab, 0x2e8e_845f, 0xdce5_075c]
  const ROW9: seq<bv32> := [
    0x92a8_fc17, 0x60c3_7f14, 0x7393_8ce0, 0x81f8_0fe3, 0x5532_6b08, 0xa759_e80b, 0xb409_1bff, 0x4662_98fc,
    0x1871_a4d8, 0xea1a_27db, 0xf94a_d42f, 0x0b21_572c, 0xdfeb_33c7, 0x2d80_b0c4, 0x3ed0_4330, 0xccbb_c033]
  const ROW10: seq<bv32> := [
    0xa24b_b5a6, 0x5020_36a5, 0x4370_c551, 0xb11b_4652, 0x65d1_22b9, 0x97ba_a1ba, 0x84ea_524e, 0x7681_d14d,
    0x2892_ed69, 0xdaf9_6e6a, 0xc9a9_9d9e, 0x3bc2_1e9d, 0xef08_7a76, 0x1d63_f975, 0x0e33_0a81, 0xfc58_8982]
  const ROW11: seq<bv32> := [
    0xb215_72c9, 0x407e_f1ca, 0x532e_023e, 0xa145_813d, 0x758f_e5d6, 0x87e4_66d5, 0x94b4_9521, 0x66df_1622,
    0x38cc_2a06, 0xcaa7_a905, 0xd9f7_5af1, 0x2b9c_d9f2, 0xff56_bd19, 0x0d3d_3e1a, 0x1e6d_cdee, 0xec06_4eed]
  const ROW12: seq<bv32> := [
    0xc38d_26c4, 0x31e6_a5c7, 0x22b6_5633, 0xd0dd_d530, 0x0417_b1db, 0xf67c_32d8, 0xe52c_c12c, 0x1747_422f,
    0x4954_7e0b, 0xbb3f_fd08, 0xa86f_0efc, 0x5a04_8dff, 0x8ece_e914, 0x7ca5_6a17, 0x6ff5_99e3, 0x9d9e_1ae0]
  const ROW13: seq<bv32> := [
    0xd3d3_e1ab, 0x21b8_62a8, 0x32e8_915c, 0xc083_125f, 0x1449_76b4, 0xe622_f5b7, 0xf572_0643, 0x0719_8540,
    0x590a_b964, 0xab61_3a67, 0xb831_c993, 0x4a5a_4a90, 0x9e90_2e7b, 0x6cfb_ad78, 0x7fab_5e8c, 0x8dc0_dd8f]
  const ROW14: seq<bv32> := [
    0xe330_a81a, 0x115b_2b19, 0x020b_d8ed, 0xf060_5bee, 0x24aa_3f05, 0xd6c1_bc06, 0xc591_4ff2, 0x37fa_ccf1,
    0x69e9_f0d5, 0x9b82_73d6, 0x88d2_8022, 0x7ab9_0321, 0xae73_67ca, 0x5c18_e4c9, 0x4f48_173d, 0xbd23_943e]
  const ROW15: seq<bv32> := [
    0xf36e_6f75, 0x0105_ec76, 0x1255_1f82, 0xe03e_9c81, 0x34f4_f86a, 0xc69f_7b69, 0xd5cf_889d, 0x27a4_0b9e,
    0x79b7_37ba, 0x8bdc_b4b9, 0x988c_474d, 0x6ae7_c44e, 0xbe2d_a0a5, 0x4c46_23a6, 0x5f16_d052, 0xad7d_5351]

  function Row(k: nat): seq<bv32>
    requires k < 16
  {
    match k
    case 0 => ROW0
    case 1 => ROW1
    case 2 => ROW2
    case 3 => ROW3
    case 4 => ROW4
    case 5 => ROW5
    case 6 => ROW6
    case 7 => ROW7
    case 8 => ROW8
    case 9 => ROW9
    case 10 => ROW10
    case 11 => ROW11
    case 12 => ROW12
    case 13 => ROW13
    case 14 => ROW14
    case _ => ROW15
  }

  /** The halves of a byte, and the byte and the rest of a word. */
  function LowBits(j: bv32): bv32 { j & 15 }

  function HighBits(j: bv32): bv32 { (j >> 4) << 4 }

  function Low(z: bv32): bv32 { z & 0xFF }

  function High(z: bv32): bv32 { z & 0xFFFF_FF00 }

  function Shift(c: bv32): bv32 { c >> 8 }

  function RowOf(j: bv32): nat
    requires j < 256
  {
    (j >> 4) as nat
  }

  function EntryOf(j: bv32): nat { (j & 15) as nat }

  /** A row is the first one with the high half of its bytes added. */
  predicate RowOk(r: seq<bv32>, h: bv32) {
    && |r| == 16
    && r[0] == Xor(ROW0[0], h) && r[1] == Xor(ROW0[1], h) && r[2] == Xor(ROW0[2], h) && r[3] == Xor(ROW0[3], h)
    && r[4] == Xor(ROW0[4], h) && r[5] == Xor(ROW0[5], h) && r[6] == Xor(ROW0[6], h) && r[7] == Xor(ROW0[7], h)
    && r[8] == Xor(ROW0[8], h) && r[9] == Xor(ROW0[9], h) && r[10] == Xor(ROW0[10], h) && r[11] == Xor(ROW0[11], h)
    && r[12] == Xor(ROW0[12], h) && r[13] == Xor(ROW0[13], h) && r[14] == Xor(ROW0[14], h) && r[15] == Xor(ROW0[15], h)
  }

  lemma Row1Ok() ensures RowOk(ROW1, Step8(HighBits(0x10))) { }
  lemma Row2Ok() ensures RowOk(ROW2, Step8(HighBits(0x20))) { }
  lemma Row3Ok() ensures RowOk(ROW3, Step8(HighBits(0x30))) { }
  lemma Row4Ok() ensures RowOk(ROW4, Step8(HighBits(0x40))) { }
  lemma Row5Ok() ensures RowOk(ROW5, Step8(HighBits(0x50))) { }
  lemma Row6Ok() ensures RowOk(ROW6, Step8(HighBits(0x60))) { }
  lemma Row7Ok() ensures RowOk(ROW7, Step8(HighBits(0x70))) { }
  lemma Row8Ok() ensures RowOk(ROW8, Step8(HighBits(0x80))) { }
  lemma Row9Ok() ensures RowOk(ROW9, Step8(HighBits(0x90))) { }
  lemma Row10Ok() ensures RowOk(ROW10, Step8(HighBits(0xa0))) { }
  lemma Row11Ok() ensures RowOk(ROW11, Step8(HighBits(0xb0))) { }
  lemma Row12Ok() ensures RowOk(ROW12, Step8(HighBits(0xc0))) { }
  lemma Row13Ok() ensures RowOk(ROW13, Step8(HighBits(0xd0))) { }
  lemma Row14Ok() ensures RowOk(ROW14, Step8(HighBits(0xe0))) { }
  lemma Row15Ok() ensures RowOk(ROW15, Step8(HighBits(0xf0))) { }

  /** The first row, entry by entry. */
  lemma LowRow(j: bv32)
    requires j < 8
    ensures ROW0[j as nat] == Step8(j)
  {
    if j < 4 {
      if j == 0 {} else if j == 1 {} else if j == 2 {} else { assert j == 3; }
    } else {
      if j == 4 {} else if j == 5 {} else if j == 6 {} else { assert j == 7; }
    }
  }

  lemma HighRow(j: bv32)
    requires 8 <= j < 16
    ensures ROW0[j as nat] == Step8(j)
  {
    if j < 12 {
      if j == 8 {} else if j == 9 {} else if j == 10 {} else { assert j == 11; }
    } else {
      if j == 12 {} else if j == 13 {} else if j == 14 {} else { assert j == 15; }
    }
  }

  /** crc_table[j] */
  function Lookup(j: bv32): bv32
    requires j < 256
  {
    RowLength(RowOf(j));
    Row(RowOf(j))[EntryOf(j)]
  }

  lemma RowLength(k: nat)
    requires k < 16
    ensures |Row(k)| == 16
  {
  }

  lemma RowEntry(r: seq<bv32>, h: bv32, i: nat)
    requires RowOk(r, h) && i < 16
    ensures r[i] == Xor(ROW0[i], h)
  {
    hide Xor;
  }

  lemma LowerRows(j: bv32)
    requires 16 <= j < 128
    ensures RowOk(Row(RowOf(j)), Step8(HighBits(j)))
  {
    hide RowOk, Step8;
    if j < 0x20 {
      RowIs(j, 1);
      Row1Ok();
    } else if j < 0x30 {
      RowIs(j, 2);
      Row2Ok();
    } else if j < 0x40 {
      RowIs(j, 3);
      Row3Ok();
    } else if j < 0x50 {
      RowIs(j, 4);
      Row4Ok();
    } else if j < 0x60 {
      RowIs(j, 5);
      Row5Ok();
    } else if j < 0x70 {
      RowIs(j, 6);
      Row6Ok();
    } else {
      RowIs(j, 7);
      Row7Ok();
    }
  }

  lemma UpperRows(j: bv32)
    requires 128 <= j < 256
    ensures RowOk(Row(RowOf(j)), Step8(HighBits(j)))
  {
    hide RowOk, Step8;
    if j < 0x90 {
      RowIs(j, 8);
      Row8Ok();
    } else if j < 0xa0 {
      RowIs(j, 9);
      Row9Ok();
    } else if j < 0xb0 {
      RowIs(j, 10);
      Row10Ok();
    } else if j < 0xc0 {
      RowIs(j, 11);
      Row11Ok();
    } else if j < 0xd0 {
      RowIs(j, 12);
      Row12Ok();
    } else if j < 0xe0 {
      RowIs(j, 13);
      Row13Ok();
    } else if j < 0xf0 {
      RowIs(j, 14);
      Row14Ok();
    } else {
      RowIs(j, 15);
      Row15Ok();
    }
  }

  lemma RowIs(j: bv32, k: bv32)
    requires 0 < k < 16 && k << 4 <= j && j - (k << 4) < 16
    ensures RowOf(j) == k as nat && HighBits(j) == HighBits(k << 4)
  {
    assert j >> 4 == k;
  }

  /** The first row. */
  lemma FirstRow(j: bv32)
    requires j < 16
    ensures ROW0[j as nat] == Step8(j)
  {
    hide Step8;
    if j < 8 {
      LowRow(j);
    } else {
      HighRow(j);
    }
  }

  /** Every table entry is the division of its byte. */
  lemma LookupIs(j: bv32)
    requires j < 256
    ensures Lookup(j) == Step8(j)
  {
    hide Step8, RowOk, Row, Xor, LowBits, HighBits, RowOf, EntryOf;
    FirstRow(LowBits(j)) by { FewLowBits(j); }
    Entries(j);
    if j < 16 {
      NoHighBits(j);
      assert Row(0) == ROW0 by { FirstIs(); }
    } else {
      if j < 128 {
        LowerRows(j);
      } else {
        UpperRows(j);
      }
      RowEntry(Row(RowOf(j)), Step8(HighBits(j)), EntryOf(j));
      Step8Xor(LowBits(j), HighBits(j));
      Halves(j);
    }
  }

  lemma FirstIs()
    ensures Row(0) == ROW0
  {
  }

  lemma FewLowBits(j: bv32)
    ensures LowBits(j) < 16
  {
  }

  lemma Entries(j: bv32)
    requires j < 256
    ensures EntryOf(j) == LowBits(j) as nat && EntryOf(j) < 16 && RowOf(j) < 16
  {
  }

  lemma NoHighBits(j: bv32)
    requires j < 16
    ensures RowOf(j) == 0 && LowBits(j) == j
  {
  }

  lemma Halves(j: bv32)
    ensures Xor(LowBits(j), HighBits(j)) == j
  {
  }

  // ---- the table step ----

  lemma Xor0(x: bv32, y: bv32)
    requires x & 1 == 0 && y & 1 == 0
    ensures Step(Xor(x, y)) == Xor(Step(x), Step(y))
  {
  }

  lemma Xor1(x: bv32, y: bv32)
    requires x & 1 == 1 && y & 1 == 0
    ensures Step(Xor(x, y)) == Xor(Step(x), Step(y)) && Step(Xor(y, x)) == Xor(Step(y), Step(x))
  {
  }

  lemma Xor2(x: bv32, y: bv32)
    requires x & 1 == 1 && y & 1 == 1
    ensures Step(Xor(x, y)) == Xor(Step(x), Step(y))
  {
  }

  lemma LowBit(x: bv32)
    ensures x & 1 == 0 || x & 1 == 1
  {
  }

  lemma StepXor(x: bv32, y: bv32)
    ensures Step(Xor(x, y)) == Xor(Step(x), Step(y))
  {
    hide Step, Xor;
    LowBit(x);
    LowBit(y);
    if x & 1 == 0 {
      if y & 1 == 0 {
        Xor0(x, y);
      } else {
        Xor1(y, x);
      }
    } else if y & 1 == 0 {
      Xor1(x, y);
    } else {
      Xor2(x, y);
    }
  }

  /** The division is linear. */
  lemma Step8Xor(x: bv32, y: bv32)
    ensures Step8(Xor(x, y)) == Xor(Step8(x), Step8(y))
  {
    hide Step, Xor;
    var x1, y1 := Step(x), Step(y);
    var x2, y2 := Step(x1), Step(y1);
    var x3, y3 := Step(x2), Step(y2);
    var x4, y4 := Step(x3), Step(y3);
    var x5, y5 := Step(x4), Step(y4);
    var x6, y6 := Step(x5), Step(y5);
    var x7, y7 := Step(x6), Step(y6);
    StepXor(x, y);
    StepXor(x1, y1);
    StepXor(x2, y2);
    StepXor(x3, y3);
    StepXor(x4, y4);
    StepXor(x5, y5);
    StepXor(x6, y6);
    StepXor(x7, y7);
  }

  /** Eight steps over a zero byte only shift. */
  lemma Step8High(x: bv32)
    requires Low(x) == 0
    ensures Step8(x) == Shift(x)
  {
  }

  lemma SplitByte(c: bv32, b: bv8)
    ensures var z := Xor(c, b as bv32); Xor(Low(z), High(z)) == z && Shift(High(z)) == Shift(c) && Low(z) < 256
  {
  }

  lemma AllBits(x: bv32)
    ensures x & 0xFFFF_FFFF == x
  {
  }

  /** The step of crc_update. */
  function TableStep(c: bv32, b: bv8): bv32 {
    SplitByte(c, b);
    Xor(Lookup(Low(Xor(c, b as bv32))), Shift(c)) & 0xFFFF_FFFF
  }

  /** Looking the low byte up and shifting is dividing by eight bits. */
  lemma TableStepIs(c: bv32, b: bv8)
    ensures TableStep(c, b) == ByteStep(c, b)
  {
    hide Step8, Lookup, Xor, Low, High, Shift;
    var z := Xor(c, b as bv32);
    SplitByte(c, b);
    LookupIs(Low(z));
    HighOnly(z);
    Step8Xor(Low(z), High(z));
    AllBits(Xor(Lookup(Low(z)), Shift(c)));
  }

  lemma HighOnly(z: bv32)
    ensures Step8(High(z)) == Shift(High(z))
  {
    hide Step8, Shift, Low;
    NoLow(z);
    hide High;
    Step8High(High(z));
  }

  lemma NoLow(z: bv32)
    ensures Low(High(z)) == 0
  {
  }

  /** crc_update */
  method CrcUpdate(crc0: bv32, data: seq<bv8>, length: nat) returns (crc: bv32)
    requires length <= |data|
    ensures crc == Crc(crc0, data[..length])
  {
    hide ByteStep, TableStep;
    crc := crc0;
    var i := 0;
    while i < length
      invariant i <= length && crc == Crc(crc0, data[..i])
    {
      TableStepIs(crc, data[i]);
      assert data[..i + 1][..i] == data[..i];
      crc := TableStep(crc, data[i]);
      i := i + 1;
    }
  }

  /** A message may be fed in pieces. */
  lemma {:induction false} CrcSplits(c: bv32, a: seq<bv8>, b: seq<bv8>)
    ensures Crc(c, a + b) == Crc(Crc(c, a), b)
    decreases |b|
  {
    hide ByteStep;
    if b == [] {
      assert a + b == a;
    } else {
      CrcSplits(c, a, b[..|b| - 1]);
      assert (a + b)[..|a + b| - 1] == a + b[..|b| - 1];
    }
  }

  function CrcInit(): bv32 { 0xFFFF_FFFF }

  function CrcFinalize(crc: bv32): bv32 { crc ^ 0xFFFF_FFFF }

  /** Complementing twice is nothing: a finished CRC can be taken up again. */
  lemma Resume(a: seq<bv8>, b: seq<bv8>)
    ensures Crc(CrcFinalize(CrcFinalize(Crc(CrcInit(), a))), b) == Crc(CrcInit(), a + b)
  {
    CrcSplits(CrcInit(), a, b);
    var x := Crc(CrcInit(), a);
    assert CrcFinalize(CrcFinalize(x)) == x;
  }

  /** One byte more. */
  lemma Next(c: bv32, s: seq<bv8>, b: bv8)
    ensures Crc(c, s + [b]) == ByteStep(Crc(c, s), b)
  {
    hide ByteStep;
    assert (s + [b])[..|s|] == s;
  }

  lemma Digit1() ensures ByteStep(0xffff_ffff, 0x31) == 0x6f0a_661c { }
  lemma Digit2() ensures ByteStep(0x6f0a_661c, 0x32) == 0x8caa_3b9f { }
  lemma Digit3() ensures ByteStep(0x8caa_3b9f, 0x33) == 0xef84_d04d { }
  lemma Digit4() ensures ByteStep(0xef84_d04d, 0x34) == 0x09c5_0b11 { }
  lemma Digit5() ensures ByteStep(0x09c5_0b11, 0x35) == 0xe72e_dcca { }
  lemma Digit6() ensures ByteStep(0xe72e_dcca, 0x36) == 0xbeca_8e79 { }
  lemma Digit7() ensures ByteStep(0xbeca_8e79, 0x37) == 0xedbd_6815 { }
  lemma Digit8() ensures ByteStep(0xedbd_6815, 0x38) == 0x9f78_7f65 { }
  lemma Digit9() ensures ByteStep(0x9f78_7f65, 0x39) == 0x1cf9_6d7c { }

  lemma ThreeMore(c: bv32, s: seq<bv8>, x: bv8, y: bv8, z: bv8)
    ensures Crc(c, s + [x, y, z]) == ByteStep(ByteStep(ByteStep(Crc(c, s), x), y), z)
  {
    hide ByteStep, Crc;
    Next(c, s, x);
    Next(c, s + [x], y);
    Next(c, s + [x] + [y], z);
    assert s + [x] + [y] + [z] == s + [x, y, z];
  }

  /** The check value of CRC-32C: the nine digits give E3069283. */
  lemma NineDigits()
    ensures CrcFinalize(Crc(CrcInit(), [0x31, 0x32, 0x33, 0x34, 0x35, 0x36, 0x37, 0x38, 0x39])) == 0xe306_9283
  {
    var c := CrcInit();
    hide Crc, ByteStep;
    var a: seq<bv8> := [0x31, 0x32, 0x33];
    ThreeMore(c, [], 0x31, 0x32, 0x33);
    NoBytes(c);
    assert [] + a == a;
    ThreeMore(c, a, 0x34, 0x35, 0x36);
    ThreeMore(c, a + [0x34, 0x35, 0x36], 0x37, 0x38, 0x39);
    Digit1();
    Digit2();
    Digit3();
    Digit4();
    Digit5();
    Digit6();
    Digit7();
    Digit8();
    Digit9();
    assert a + [0x34, 0x35, 0x36] + [0x37, 0x38, 0x39] == [0x31, 0x32, 0x33, 0x34, 0x35, 0x36, 0x37, 0x38, 0x39];
  }

  lemma NoBytes(c: bv32)
    ensures Crc(c, []) == c
  {
  }
}
