/** A known answer: the message "abc", the first test of section 7.3 of RFC 3174. */
module Sha1Vector {
  import opened Ints
  import opened Blocks
  import opened Sha1Block
  import opened Sha1

  const ABC: seq<byte> := [0x61, 0x62, 0x63]

  /** The words of the schedule, five in a row. */
  const WORDS: seq<seq<bv32>> := [
    [0x61626380, 0x00000000, 0x00000000, 0x00000000, 0x00000000],
    [0x00000000, 0x00000000, 0x00000000, 0x00000000, 0x00000000],
    [0x00000000, 0x00000000, 0x00000000, 0x00000000, 0x00000000],
    [0x00000018, 0xc2c4c700, 0x00000000, 0x00000030, 0x85898e01],
    [0x00000000, 0x00000060, 0x0b131c03, 0x00000030, 0x85898ec1],
    [0x16263806, 0x00000000, 0x00000180, 0x2c4c700c, 0x000000f0],
    [0x93afb507, 0x5898e048, 0x8e9a9202, 0x00000600, 0xb131c0f0],
    [0x16263bc6, 0x4ebed41e, 0x626380a1, 0x16263806, 0x000018c0],
    [0xd2e138c4, 0x00000f00, 0x3afb5079, 0x898e04e5, 0xe2ba3c2b],
    [0x000060c0, 0x053a37cd, 0x74458547, 0xda9415ed, 0x26380a16],
    [0x626383a1, 0x4ebf54de, 0x3835b44b, 0x0000f600, 0x1e84c7a3],
    [0x98e04d98, 0x651d16a0, 0x62658ca1, 0x458544d6, 0x44584cb7],
    [0x7ba06619, 0x6380aea2, 0x0ae55269, 0x627b49a1, 0x7cd45c9d],
    [0x000f0000, 0xfb50753a, 0xec6765e8, 0xba3c2be2, 0x0060c000],
    [0x3a37cd05, 0x458546f4, 0xb8599dd6, 0x380a1a26, 0x01e02203],
    [0xe7cc3456, 0xe6e60b69, 0x00f60a00, 0x5795ef4f, 0x822e0879]
  ]

  /** The values that register `a` takes, after those that the start values stand for. */
  const TRACE: seq<seq<bv32>> := [
    [0x0f4b87c3, 0x40c951d8, 0x62eb73fa, 0xefcdab89, 0x67452301],
    [0x0116fc33, 0x8990536d, 0xa1390f08, 0xcdd8e11b, 0xcfd499de],
    [0x3fc7ca40, 0x993e30c1, 0x9e8c07d4, 0x4b6ae328, 0x8351f929],
    [0xfbda9e89, 0x63188fe4, 0x4607b664, 0x9128f695, 0x196bee77],
    [0x20bdd62f, 0x4e925823, 0x82aa6728, 0xdc64901d, 0xfd9e1d7d],
    [0x1a37b0ca, 0x33a23bfc, 0x21283486, 0xd541f12d, 0xc7567dc6],
    [0x48413ba4, 0xbe35fbd5, 0x4aa84d97, 0x8370b52e, 0xc5fbaf5d],
    [0x1267b407, 0x3b845d33, 0x046faa0a, 0x2c0ebc11, 0x21796ad4],
    [0xdcbbb0cb, 0x0f511fd8, 0xdc63973f, 0x4c986405, 0x32de1cba],
    [0xfc87dedf, 0x970a0d5c, 0x7f193dc5, 0xee1b1aaf, 0x40f28e09],
    [0x1c51e1f2, 0xa01b846c, 0xbead02ca, 0xbaf39337, 0x120731c5],
    [0x641db2ce, 0x3847ad66, 0xe490436d, 0x27e9f1d8, 0x7b71f76d],
    [0x5e6456af, 0xc846093f, 0xd262ff50, 0x09d785fd, 0x3f52de5a],
    [0xd756c147, 0x548c9cb2, 0xb66c020b, 0x6b61c9e1, 0x19dfa7ac],
    [0x101655f9, 0x0c3df2b4, 0x78dd4d2b, 0x497093c0, 0x3f2588c2],
    [0xc199f8c7, 0x39859de7, 0xedb42de4, 0x11793f6f, 0x5ee76897],
    [0x63f7dab7, 0xa079b7d9, 0x860d21cc, 0x5738d5e1, 0x42541b35]
  ]

  /** The row `y` of the schedule, from the four rows before it. */
  predicate FiveWords(r0: seq<bv32>, r1: seq<bv32>, r2: seq<bv32>, r3: seq<bv32>, y: seq<bv32>)
    requires |r0| == |r1| == |r2| == |r3| == |y| == 5
  {
    && y[0] == Expand(r3[2], r2[2], r1[1], r0[4])
    && y[1] == Expand(r3[3], r2[3], r1[2], r1[0])
    && y[2] == Expand(r3[4], r2[4], r1[3], r1[1])
    && y[3] == Expand(y[0], r3[0], r1[4], r1[2])
    && y[4] == Expand(y[1], r3[1], r2[0], r1[3])
  }

  predicate WordsFit(k: nat)
    requires 4 <= k < 16
  {
    FiveWords(WORDS[k - 4], WORDS[k - 3], WORDS[k - 2], WORDS[k - 1], WORDS[k])
  }

  function NextValue(t: nat, a0: bv32, a1: bv32, a2: bv32, a3: bv32, a4: bv32, w: bv32): bv32 {
    Temp(Rol(a4, 5), F(t, a3, Rol(a2, 30), Rol(a1, 30)), Rol(a0, 30), w, K(t))
  }

  /** Five rounds from round `t` on take the values `x` to `y`. */
  predicate FiveRounds(t: nat, x: seq<bv32>, y: seq<bv32>, w: seq<bv32>)
    requires |x| == |y| == |w| == 5
  {
    && y[0] == NextValue(t, x[0], x[1], x[2], x[3], x[4], w[0])
    && y[1] == NextValue(t + 1, x[1], x[2], x[3], x[4], y[0], w[1])
    && y[2] == NextValue(t + 2, x[2], x[3], x[4], y[0], y[1], w[2])
    && y[3] == NextValue(t + 3, x[3], x[4], y[0], y[1], y[2], w[3])
    && y[4] == NextValue(t + 4, x[4], y[0], y[1], y[2], y[3], w[4])
  }

  lemma Five(t: nat, x: seq<bv32>, y: seq<bv32>, w: seq<bv32>)
    requires |x| == |y| == |w| == 5
    requires y[0] == NextValue(t, x[0], x[1], x[2], x[3], x[4], w[0])
    requires y[1] == NextValue(t + 1, x[1], x[2], x[3], x[4], y[0], w[1])
    requires y[2] == NextValue(t + 2, x[2], x[3], x[4], y[0], y[1], w[2])
    requires y[3] == NextValue(t + 3, x[3], x[4], y[0], y[1], y[2], w[3])
    requires y[4] == NextValue(t + 4, x[4], y[0], y[1], y[2], y[3], w[4])
    ensures FiveRounds(t, x, y, w)
  {
    hide NextValue;
  }

  predicate RowFits(k: nat)
    requires k < 16
  {
    FiveRounds(5 * k, TRACE[k], TRACE[k + 1], WORDS[k])
  }

  lemma Words4()
    ensures WordsFit(4) && WordsFit(5)
  {
  }

  lemma Words6()
    ensures WordsFit(6) && WordsFit(7)
  {
  }

  lemma Words8()
    ensures WordsFit(8) && WordsFit(9)
  {
  }

  lemma Words10()
    ensures WordsFit(10) && WordsFit(11)
  {
  }

  lemma Words12()
    ensures WordsFit(12) && WordsFit(13)
  {
  }

  lemma Words14()
    ensures WordsFit(14) && WordsFit(15)
  {
  }

  lemma Row0()
    ensures RowFits(0)
  {
    hide FiveRounds;
    Five(0, TRACE[0], TRACE[1], WORDS[0]);
  }

  lemma Row1()
    ensures RowFits(1)
  {
    hide FiveRounds;
    Five(5, TRACE[1], TRACE[2], WORDS[1]);
  }

  lemma Row2()
    ensures RowFits(2)
  {
    hide FiveRounds;
    Five(10, TRACE[2], TRACE[3], WORDS[2]);
  }

  lemma Row3()
    ensures RowFits(3)
  {
    hide FiveRounds;
    Five(15, TRACE[3], TRACE[4], WORDS[3]);
  }

  lemma Row4()
    ensures RowFits(4)
  {
    hide FiveRounds;
    Five(20, TRACE[4], TRACE[5], WORDS[4]);
  }

  lemma Row5()
    ensures RowFits(5)
  {
    hide FiveRounds;
    Five(25, TRACE[5], TRACE[6], WORDS[5]);
  }

  lemma Row6()
    ensures RowFits(6)
  {
    hide FiveRounds;
    Five(30, TRACE[6], TRACE[7], WORDS[6]);
  }

  lemma Row7()
    ensures RowFits(7)
  {
    hide FiveRounds;
    Five(35, TRACE[7], TRACE[8], WORDS[7]);
  }

  lemma Row8()
    ensures RowFits(8)
  {
    hide FiveRounds;
    Five(40, TRACE[8], TRACE[9], WORDS[8]);
  }

  lemma Row9()
    ensures RowFits(9)
  {
    hide FiveRounds;
    Five(45, TRACE[9], TRACE[10], WORDS[9]);
  }

  lemma Row10()
    ensures RowFits(10)
  {
    hide FiveRounds;
    Five(50, TRACE[10], TRACE[11], WORDS[10]);
  }

  lemma Row11()
    ensures RowFits(11)
  {
    hide FiveRounds;
    Five(55, TRACE[11], TRACE[12], WORDS[11]);
  }

  lemma Row12()
    ensures RowFits(12)
  {
    hide FiveRounds;
    Five(60, TRACE[12], TRACE[13], WORDS[12]);
  }

  lemma Row13()
    ensures RowFits(13)
  {
    hide FiveRounds;
    Five(65, TRACE[13], TRACE[14], WORDS[13]);
  }

  lemma Row14()
    ensures RowFits(14)
  {
    hide FiveRounds;
    Five(70, TRACE[14], TRACE[15], WORDS[14]);
  }

  lemma Row15()
    ensures RowFits(15)
  {
    hide FiveRounds;
    Five(75, TRACE[15], TRACE[16], WORDS[15]);
  }

  lemma RowsFit(k: nat)
    requires k < 16
    ensures RowFits(k)
  {
    hide RowFits;
    if k < 4 {
      Row0();
      Row1();
      Row2();
      Row3();
    } else if k < 8 {
      Row4();
      Row5();
      Row6();
      Row7();
    } else if k < 12 {
      Row8();
      Row9();
      Row10();
      Row11();
    } else {
      Row12();
      Row13();
      Row14();
      Row15();
    }
  }

  lemma AllWordsFit(k: nat)
    requires 4 <= k < 16
    ensures WordsFit(k)
  {
    hide WordsFit;
    if k < 8 {
      Words4();
      Words6();
    } else if k < 12 {
      Words8();
      Words10();
    } else {
      Words12();
      Words14();
    }
  }

  // ----- the schedule -----

  /** The one block of the padded message. */
  function Block(): (b: seq<byte>)
    ensures |b| == 64
  {
    ABC + [0x80] + Zeros(52) + [0, 0, 0, 0, 0, 0, 0, 24]
  }

  lemma PaddedAbc()
    ensures Padded(ABC) == Block()
  {
  }

  /** Row `k` of the schedule of `block`. */
  predicate ScheduleRow(block: seq<byte>, k: nat, row: seq<bv32>)
    requires |block| == 64 && |row| == 5
  {
    && W(block, 5 * k) == row[0] && W(block, 5 * k + 1) == row[1] && W(block, 5 * k + 2) == row[2]
    && W(block, 5 * k + 3) == row[3] && W(block, 5 * k + 4) == row[4]
  }

  /** The word that is loaded for round `i`. */
  function LoadedWord(i: nat): bv32 {
    if i == 0 then 0x61626380 else if i == 15 then 24 else 0
  }

  function BlockByte(i: nat): byte {
    if i < 3 then 0x61 + i else if i == 3 then 0x80 else if i == 63 then 24 else 0
  }

  lemma BlockBytes()
    ensures forall i :: 0 <= i < 64 ==> Block()[i] == BlockByte(i)
  {
  }

  lemma BlockWord(i: nat)
    requires i < 16
    ensures W(Block(), i) == LoadedWord(i)
  {
    hide Block, BlockByte, JoinedOctets;
    BlockBytes();
    JoinedBytes(i);
  }

  lemma JoinedBytes(i: nat)
    requires i < 16
    ensures JoinedOctets(BlockByte(4 * i), BlockByte(4 * i + 1), BlockByte(4 * i + 2), BlockByte(4 * i + 3))
            == LoadedWord(i)
  {
  }

  lemma FirstRow(k: nat)
    requires k < 3
    ensures ScheduleRow(Block(), k, WORDS[k])
  {
    hide Block, W;
    BlockWord(5 * k);
    BlockWord(5 * k + 1);
    BlockWord(5 * k + 2);
    BlockWord(5 * k + 3);
    BlockWord(5 * k + 4);
    LoadedRows();
  }

  lemma LoadedRows()
    ensures WORDS[0] == [0x61626380, 0, 0, 0, 0] && WORDS[1] == WORDS[2] == [0, 0, 0, 0, 0] && WORDS[3][0] == 24
  {
  }

  /** The row that holds the last loaded word, and the first four others. */
  lemma FourthRow()
    ensures ScheduleRow(Block(), 3, WORDS[3])
  {
    hide Block, W, Expand;
    BlockWord(15);
    LoadedRows();
    NextFour();
    FirstRow(0);
    FirstRow(1);
    FirstRow(2);
    NextWord(Block(), 16);
    NextWord(Block(), 17);
    NextWord(Block(), 18);
    NextWord(Block(), 19);
  }

  lemma NextFour()
    ensures WORDS[3][1] == Expand(WORDS[2][3], WORDS[1][3], WORDS[0][2], WORDS[0][0])
    ensures WORDS[3][2] == Expand(WORDS[2][4], WORDS[1][4], WORDS[0][3], WORDS[0][1])
    ensures WORDS[3][3] == Expand(WORDS[3][0], WORDS[2][0], WORDS[0][4], WORDS[0][2])
    ensures WORDS[3][4] == Expand(WORDS[3][1], WORDS[2][1], WORDS[1][0], WORDS[0][3])
  {
  }

  lemma NextRow(block: seq<byte>, k: nat, r0: seq<bv32>, r1: seq<bv32>, r2: seq<bv32>, r3: seq<bv32>, y: seq<bv32>)
    requires |block| == 64 && 4 <= k && |r0| == |r1| == |r2| == |r3| == |y| == 5 && FiveWords(r0, r1, r2, r3, y)
    requires ScheduleRow(block, k - 4, r0) && ScheduleRow(block, k - 3, r1)
    requires ScheduleRow(block, k - 2, r2) && ScheduleRow(block, k - 1, r3)
    ensures ScheduleRow(block, k, y)
  {
    hide Expand, W;
    NextWord(block, 5 * k);
    NextWord(block, 5 * k + 1);
    NextWord(block, 5 * k + 2);
    NextWord(block, 5 * k + 3);
    NextWord(block, 5 * k + 4);
  }

  lemma {:induction false} WordsAre(k: nat)
    requires k < 16
    ensures ScheduleRow(Block(), k, WORDS[k])
  {
    hide ScheduleRow, Block, FiveWords;
    if k < 3 {
      FirstRow(k);
    } else if k == 3 {
      FourthRow();
    } else {
      WordsAre(k - 4);
      WordsAre(k - 3);
      WordsAre(k - 2);
      WordsAre(k - 1);
      AllWordsFit(k);
      NextRow(Block(), k, WORDS[k - 4], WORDS[k - 3], WORDS[k - 2], WORDS[k - 1], WORDS[k]);
    }
  }

  // ----- the rounds -----

  /** The registers after a row of values. */
  function AtRow(x: seq<bv32>): Registers
    requires |x| == 5
  {
    Registers(x[4], x[3], Rol(x[2], 30), Rol(x[1], 30), Rol(x[0], 30))
  }

  lemma NextValues(h: Registers, block: seq<byte>, k: nat, x: seq<bv32>, y: seq<bv32>, w: seq<bv32>)
    requires |block| == 64 && |x| == |y| == |w| == 5
    requires Rounds(h, block, 5 * k) == AtRow(x) && ScheduleRow(block, k, w) && FiveRounds(5 * k, x, y, w)
    ensures Rounds(h, block, 5 * (k + 1)) == AtRow(y)
  {
    hide Rounds, W, Rol, F, K, Temp;
    NextRound(h, block, 5 * k);
    NextRound(h, block, 5 * k + 1);
    NextRound(h, block, 5 * k + 2);
    NextRound(h, block, 5 * k + 3);
    NextRound(h, block, 5 * k + 4);
  }

  lemma StartRow()
    ensures AtRow(TRACE[0]) == INITIAL
  {
  }

  lemma {:induction false} RowsAre(k: nat)
    requires k <= 16
    ensures Rounds(INITIAL, Block(), 5 * k) == AtRow(TRACE[k])
  {
    hide Rounds, Block, AtRow, FiveRounds, ScheduleRow;
    if k == 0 {
      StartRow();
      NextRound(INITIAL, Block(), 0);
    } else {
      RowsAre(k - 1);
      WordsAre(k - 1);
      RowsFit(k - 1);
      NextValues(INITIAL, Block(), k - 1, TRACE[k - 1], TRACE[k], WORDS[k - 1]);
    }
  }

  // ----- the digest -----

  const LAST := Registers(0xa9993e36, 0x4706816a, 0xba3e2571, 0x7850c26c, 0x9cd0d89d)

  lemma LastRow()
    ensures AddRegisters(INITIAL, AtRow(TRACE[16])) == LAST
  {
  }

  lemma LastOctets()
    ensures OctetsOfRegisters(LAST)
            == [0xa9, 0x99, 0x3e, 0x36, 0x47, 0x06, 0x81, 0x6a, 0xba, 0x3e, 0x25, 0x71, 0x78, 0x50, 0xc2, 0x6c,
                0x9c, 0xd0, 0xd8, 0x9d]
  {
  }

  lemma OneBlock(block: seq<byte>)
    requires |block| == 64
    ensures ChainAll(Compress, INITIAL, block) == Compress(INITIAL, block)
  {
    hide Compress;
    assert block[0..64] == block;
    assert Chain(Compress, INITIAL, block, 0) == INITIAL;
  }

  /** The digest of "abc" is the one that RFC 3174 gives. */
  lemma DigestOfAbc()
    ensures Digest(ABC)
            == [0xa9, 0x99, 0x3e, 0x36, 0x47, 0x06, 0x81, 0x6a, 0xba, 0x3e, 0x25, 0x71, 0x78, 0x50, 0xc2, 0x6c,
                0x9c, 0xd0, 0xd8, 0x9d]
  {
    hide Padded, Block, Rounds, ChainAll, AtRow, AddRegisters, OctetsOfRegisters;
    PaddedAbc();
    OneBlock(Block());
    RowsAre(16);
    LastRow();
    LastOctets();
  }
}
