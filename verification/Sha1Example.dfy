// The digest of "abc", the first example of section 7.3 of RFC 3174, step by step
// through the definitions: a check of every constant and of every byte order.

module Sha1Example {
  import opened Sha1Spec
  import opened Sha1Rounds
  import opened Sha1Message
  import opened Arithmetic
  import opened Blocks

  const ABC: seq<Octet> := [0x61, 0x62, 0x63]

  // The one block of the padded message.
  const BLOCK: seq<Word> := [0x61626380] + seq(14, _ => 0) + [0x00000018]

  lemma Schedule0To15()
    ensures |BLOCK| == 16 && W(BLOCK, 0) == 0x61626380 && W(BLOCK, 15) == 0x00000018
    ensures forall t | 0 < t < 15 :: W(BLOCK, t) == 0
  {
  }

  lemma Schedule16To31()
    ensures |BLOCK| == 16
    ensures W(BLOCK, 16) == 0xc2c4c700 && W(BLOCK, 17) == 0x00000000
    ensures W(BLOCK, 18) == 0x00000030 && W(BLOCK, 19) == 0x85898e01
    ensures W(BLOCK, 20) == 0x00000000 && W(BLOCK, 21) == 0x00000060
    ensures W(BLOCK, 22) == 0x0b131c03 && W(BLOCK, 23) == 0x00000030
    ensures W(BLOCK, 24) == 0x85898ec1 && W(BLOCK, 25) == 0x16263806
    ensures W(BLOCK, 26) == 0x00000000 && W(BLOCK, 27) == 0x00000180
    ensures W(BLOCK, 28) == 0x2c4c700c && W(BLOCK, 29) == 0x000000f0
    ensures W(BLOCK, 30) == 0x93afb507 && W(BLOCK, 31) == 0x5898e048
  {
    Schedule0To15();
    hide W;
    NextWord(16, 0x00000000, 0x00000000, 0x00000000, 0x61626380, 0xc2c4c700);
    NextWord(17, 0x00000000, 0x00000000, 0x00000000, 0x00000000, 0x00000000);
    NextWord(18, 0x00000018, 0x00000000, 0x00000000, 0x00000000, 0x00000030);
    NextWord(19, 0xc2c4c700, 0x00000000, 0x00000000, 0x00000000, 0x85898e01);
    NextWord(20, 0x00000000, 0x00000000, 0x00000000, 0x00000000, 0x00000000);
    NextWord(21, 0x00000030, 0x00000000, 0x00000000, 0x00000000, 0x00000060);
    NextWord(22, 0x85898e01, 0x00000000, 0x00000000, 0x00000000, 0x0b131c03);
    NextWord(23, 0x00000000, 0x00000018, 0x00000000, 0x00000000, 0x00000030);
    NextWord(24, 0x00000060, 0xc2c4c700, 0x00000000, 0x00000000, 0x85898ec1);
    NextWord(25, 0x0b131c03, 0x00000000, 0x00000000, 0x00000000, 0x16263806);
    NextWord(26, 0x00000030, 0x00000030, 0x00000000, 0x00000000, 0x00000000);
    NextWord(27, 0x85898ec1, 0x85898e01, 0x00000000, 0x00000000, 0x00000180);
    NextWord(28, 0x16263806, 0x00000000, 0x00000000, 0x00000000, 0x2c4c700c);
    NextWord(29, 0x00000000, 0x00000060, 0x00000018, 0x00000000, 0x000000f0);
    NextWord(30, 0x00000180, 0x0b131c03, 0xc2c4c700, 0x00000000, 0x93afb507);
    NextWord(31, 0x2c4c700c, 0x00000030, 0x00000000, 0x00000018, 0x5898e048);
  }

  lemma Schedule32To47()
    ensures |BLOCK| == 16
    ensures W(BLOCK, 32) == 0x8e9a9202 && W(BLOCK, 33) == 0x00000600
    ensures W(BLOCK, 34) == 0xb131c0f0 && W(BLOCK, 35) == 0x16263bc6
    ensures W(BLOCK, 36) == 0x4ebed41e && W(BLOCK, 37) == 0x626380a1
    ensures W(BLOCK, 38) == 0x16263806 && W(BLOCK, 39) == 0x000018c0
    ensures W(BLOCK, 40) == 0xd2e138c4 && W(BLOCK, 41) == 0x00000f00
    ensures W(BLOCK, 42) == 0x3afb5079 && W(BLOCK, 43) == 0x898e04e5
    ensures W(BLOCK, 44) == 0xe2ba3c2b && W(BLOCK, 45) == 0x000060c0
    ensures W(BLOCK, 46) == 0x053a37cd && W(BLOCK, 47) == 0x74458547
  {
    Schedule16To31();
    hide W;
    NextWord(32, 0x000000f0, 0x85898ec1, 0x00000030, 0xc2c4c700, 0x8e9a9202);
    NextWord(33, 0x93afb507, 0x16263806, 0x85898e01, 0x00000000, 0x00000600);
    NextWord(34, 0x5898e048, 0x00000000, 0x00000000, 0x00000030, 0xb131c0f0);
    NextWord(35, 0x8e9a9202, 0x00000180, 0x00000060, 0x85898e01, 0x16263bc6);
    NextWord(36, 0x00000600, 0x2c4c700c, 0x0b131c03, 0x00000000, 0x4ebed41e);
    NextWord(37, 0xb131c0f0, 0x000000f0, 0x00000030, 0x00000060, 0x626380a1);
    NextWord(38, 0x16263bc6, 0x93afb507, 0x85898ec1, 0x0b131c03, 0x16263806);
    NextWord(39, 0x4ebed41e, 0x5898e048, 0x16263806, 0x00000030, 0x000018c0);
    NextWord(40, 0x626380a1, 0x8e9a9202, 0x00000000, 0x85898ec1, 0xd2e138c4);
    NextWord(41, 0x16263806, 0x00000600, 0x00000180, 0x16263806, 0x00000f00);
    NextWord(42, 0x000018c0, 0xb131c0f0, 0x2c4c700c, 0x00000000, 0x3afb5079);
    NextWord(43, 0xd2e138c4, 0x16263bc6, 0x000000f0, 0x00000180, 0x898e04e5);
    NextWord(44, 0x00000f00, 0x4ebed41e, 0x93afb507, 0x2c4c700c, 0xe2ba3c2b);
    NextWord(45, 0x3afb5079, 0x626380a1, 0x5898e048, 0x000000f0, 0x000060c0);
    NextWord(46, 0x898e04e5, 0x16263806, 0x8e9a9202, 0x93afb507, 0x053a37cd);
    NextWord(47, 0xe2ba3c2b, 0x000018c0, 0x00000600, 0x5898e048, 0x74458547);
  }

  lemma Schedule48To63()
    ensures |BLOCK| == 16
    ensures W(BLOCK, 48) == 0xda9415ed && W(BLOCK, 49) == 0x26380a16
    ensures W(BLOCK, 50) == 0x626383a1 && W(BLOCK, 51) == 0x4ebf54de
    ensures W(BLOCK, 52) == 0x3835b44b && W(BLOCK, 53) == 0x0000f600
    ensures W(BLOCK, 54) == 0x1e84c7a3 && W(BLOCK, 55) == 0x98e04d98
    ensures W(BLOCK, 56) == 0x651d16a0 && W(BLOCK, 57) == 0x62658ca1
    ensures W(BLOCK, 58) == 0x458544d6 && W(BLOCK, 59) == 0x44584cb7
    ensures W(BLOCK, 60) == 0x7ba06619 && W(BLOCK, 61) == 0x6380aea2
    ensures W(BLOCK, 62) == 0x0ae55269 && W(BLOCK, 63) == 0x627b49a1
  {
    Schedule32To47();
    hide W;
    NextWord(48, 0x000060c0, 0xd2e138c4, 0xb131c0f0, 0x8e9a9202, 0xda9415ed);
    NextWord(49, 0x053a37cd, 0x00000f00, 0x16263bc6, 0x00000600, 0x26380a16);
    NextWord(50, 0x74458547, 0x3afb5079, 0x4ebed41e, 0xb131c0f0, 0x626383a1);
    NextWord(51, 0xda9415ed, 0x898e04e5, 0x626380a1, 0x16263bc6, 0x4ebf54de);
    NextWord(52, 0x26380a16, 0xe2ba3c2b, 0x16263806, 0x4ebed41e, 0x3835b44b);
    NextWord(53, 0x626383a1, 0x000060c0, 0x000018c0, 0x626380a1, 0x0000f600);
    NextWord(54, 0x4ebf54de, 0x053a37cd, 0xd2e138c4, 0x16263806, 0x1e84c7a3);
    NextWord(55, 0x3835b44b, 0x74458547, 0x00000f00, 0x000018c0, 0x98e04d98);
    NextWord(56, 0x0000f600, 0xda9415ed, 0x3afb5079, 0xd2e138c4, 0x651d16a0);
    NextWord(57, 0x1e84c7a3, 0x26380a16, 0x898e04e5, 0x00000f00, 0x62658ca1);
    NextWord(58, 0x98e04d98, 0x626383a1, 0xe2ba3c2b, 0x3afb5079, 0x458544d6);
    NextWord(59, 0x651d16a0, 0x4ebf54de, 0x000060c0, 0x898e04e5, 0x44584cb7);
    NextWord(60, 0x62658ca1, 0x3835b44b, 0x053a37cd, 0xe2ba3c2b, 0x7ba06619);
    NextWord(61, 0x458544d6, 0x0000f600, 0x74458547, 0x000060c0, 0x6380aea2);
    NextWord(62, 0x44584cb7, 0x1e84c7a3, 0xda9415ed, 0x053a37cd, 0x0ae55269);
    NextWord(63, 0x7ba06619, 0x98e04d98, 0x26380a16, 0x74458547, 0x627b49a1);
  }

  lemma Schedule64To79()
    ensures |BLOCK| == 16
    ensures W(BLOCK, 64) == 0x7cd45c9d && W(BLOCK, 65) == 0x000f0000
    ensures W(BLOCK, 66) == 0xfb50753a && W(BLOCK, 67) == 0xec6765e8
    ensures W(BLOCK, 68) == 0xba3c2be2 && W(BLOCK, 69) == 0x0060c000
    ensures W(BLOCK, 70) == 0x3a37cd05 && W(BLOCK, 71) == 0x458546f4
    ensures W(BLOCK, 72) == 0xb8599dd6 && W(BLOCK, 73) == 0x380a1a26
    ensures W(BLOCK, 74) == 0x01e02203 && W(BLOCK, 75) == 0xe7cc3456
    ensures W(BLOCK, 76) == 0xe6e60b69 && W(BLOCK, 77) == 0x00f60a00
    ensures W(BLOCK, 78) == 0x5795ef4f && W(BLOCK, 79) == 0x822e0879
  {
    Schedule48To63();
    hide W;
    NextWord(64, 0x6380aea2, 0x651d16a0, 0x626383a1, 0xda9415ed, 0x7cd45c9d);
    NextWord(65, 0x0ae55269, 0x62658ca1, 0x4ebf54de, 0x26380a16, 0x000f0000);
    NextWord(66, 0x627b49a1, 0x458544d6, 0x3835b44b, 0x626383a1, 0xfb50753a);
    NextWord(67, 0x7cd45c9d, 0x44584cb7, 0x0000f600, 0x4ebf54de, 0xec6765e8);
    NextWord(68, 0x000f0000, 0x7ba06619, 0x1e84c7a3, 0x3835b44b, 0xba3c2be2);
    NextWord(69, 0xfb50753a, 0x6380aea2, 0x98e04d98, 0x0000f600, 0x0060c000);
    NextWord(70, 0xec6765e8, 0x0ae55269, 0x651d16a0, 0x1e84c7a3, 0x3a37cd05);
    NextWord(71, 0xba3c2be2, 0x627b49a1, 0x62658ca1, 0x98e04d98, 0x458546f4);
    NextWord(72, 0x0060c000, 0x7cd45c9d, 0x458544d6, 0x651d16a0, 0xb8599dd6);
    NextWord(73, 0x3a37cd05, 0x000f0000, 0x44584cb7, 0x62658ca1, 0x380a1a26);
    NextWord(74, 0x458546f4, 0xfb50753a, 0x7ba06619, 0x458544d6, 0x01e02203);
    NextWord(75, 0xb8599dd6, 0xec6765e8, 0x6380aea2, 0x44584cb7, 0xe7cc3456);
    NextWord(76, 0x380a1a26, 0xba3c2be2, 0x0ae55269, 0x7ba06619, 0xe6e60b69);
    NextWord(77, 0x01e02203, 0x0060c000, 0x627b49a1, 0x6380aea2, 0x00f60a00);
    NextWord(78, 0xe7cc3456, 0x3a37cd05, 0x7cd45c9d, 0x0ae55269, 0x5795ef4f);
    NextWord(79, 0xe6e60b69, 0x458546f4, 0x000f0000, 0x627b49a1, 0x822e0879);
  }

  lemma NextWord(t: nat, w3: Word, w8: Word, w14: Word, w16: Word, w: Word)
    requires |BLOCK| == 16 && 16 <= t
    requires W(BLOCK, t - 3) == w3 && W(BLOCK, t - 8) == w8 && W(BLOCK, t - 14) == w14 && W(BLOCK, t - 16) == w16
    requires Rol(Xor4(w3, w8, w14, w16), 1) == w
    ensures W(BLOCK, t) == w
  {
    hide Rol, Xor4;
    ScheduleUnfolds(BLOCK, t);
  }

  // One step of section 6.1: the new register A, and B turned by 30 bits.
  lemma NextStep(t: nat, w: Word, r: Regs, a: Word, c: Word) returns (next: Regs)
    requires |BLOCK| == 16 && W(BLOCK, t) == w && Run(BLOCK, t, INIT) == r
    requires Temp(r.a, F(t, r.b, r.c, r.d), r.e, w, K(t)) == a && Rol(r.b, 30) == c
    ensures Run(BLOCK, t + 1, INIT) == next == Regs(a, r.a, c, r.c, r.d)
  {
    hide W, Temp, F, K, Rol;
    RunUnfolds(BLOCK, t, INIT);
    next := Regs(a, r.a, c, r.c, r.d);
  }

  lemma Steps0To9()
    ensures |BLOCK| == 16
    ensures Run(BLOCK, 10, INIT) == Regs(0x8351f929, 0x4b6ae328, 0x27a301f5, 0x664f8c30, 0x0ff1f290)
  {
    Schedule0To15();
    hide W;
    var r := Regs(0x67452301, 0xefcdab89, 0x98badcfe, 0x10325476, 0xc3d2e1f0);
    r := NextStep(0, 0x61626380, r, 0x0116fc33, 0x7bf36ae2);
    r := NextStep(1, 0x00000000, r, 0x8990536d, 0x59d148c0);
    r := NextStep(2, 0x00000000, r, 0xa1390f08, 0xc045bf0c);
    r := NextStep(3, 0x00000000, r, 0xcdd8e11b, 0x626414db);
    r := NextStep(4, 0x00000000, r, 0xcfd499de, 0x284e43c2);
    r := NextStep(5, 0x00000000, r, 0x3fc7ca40, 0xf3763846);
    r := NextStep(6, 0x00000000, r, 0x993e30c1, 0xb3f52677);
    r := NextStep(7, 0x00000000, r, 0x9e8c07d4, 0x0ff1f290);
    r := NextStep(8, 0x00000000, r, 0x4b6ae328, 0x664f8c30);
    r := NextStep(9, 0x00000000, r, 0x8351f929, 0x27a301f5);
  }

  lemma Steps10To19()
    ensures |BLOCK| == 16
    ensures Run(BLOCK, 20, INIT) == Regs(0xfd9e1d7d, 0xdc64901d, 0x20aa99ca, 0xd3a49608, 0xc82f758b)
  {
    Schedule0To15();
    Schedule16To31();
    Steps0To9();
    hide W, Run;
    var r := Regs(0x8351f929, 0x4b6ae328, 0x27a301f5, 0x664f8c30, 0x0ff1f290);
    r := NextStep(10, 0x00000000, r, 0xfbda9e89, 0x12dab8ca);
    r := NextStep(11, 0x00000000, r, 0x63188fe4, 0x60d47e4a);
    r := NextStep(12, 0x00000000, r, 0x4607b664, 0x7ef6a7a2);
    r := NextStep(13, 0x00000000, r, 0x9128f695, 0x18c623f9);
    r := NextStep(14, 0x00000000, r, 0x196bee77, 0x1181ed99);
    r := NextStep(15, 0x00000018, r, 0x20bdd62f, 0x644a3da5);
    r := NextStep(16, 0xc2c4c700, r, 0x4e925823, 0xc65afb9d);
    r := NextStep(17, 0x00000000, r, 0x82aa6728, 0xc82f758b);
    r := NextStep(18, 0x00000030, r, 0xdc64901d, 0xd3a49608);
    r := NextStep(19, 0x85898e01, r, 0xfd9e1d7d, 0x20aa99ca);
  }

  lemma Steps20To29()
    ensures |BLOCK| == 16
    ensures Run(BLOCK, 30, INIT) == Regs(0xc5fbaf5d, 0x8370b52e, 0xd2aa1365, 0x6f8d7ef5, 0x12104ee9)
  {
    Schedule16To31();
    Steps10To19();
    hide W, Run;
    var r := Regs(0xfd9e1d7d, 0xdc64901d, 0x20aa99ca, 0xd3a49608, 0xc82f758b);
    r := NextStep(20, 0x00000000, r, 0x1a37b0ca, 0x77192407);
    r := NextStep(21, 0x00000060, r, 0x33a23bfc, 0x7f67875f);
    r := NextStep(22, 0x0b131c03, r, 0x21283486, 0x868dec32);
    r := NextStep(23, 0x00000030, r, 0xd541f12d, 0x0ce88eff);
    r := NextStep(24, 0x85898ec1, r, 0xc7567dc6, 0x884a0d21);
    r := NextStep(25, 0x16263806, r, 0x48413ba4, 0x75507c4b);
    r := NextStep(26, 0x00000000, r, 0xbe35fbd5, 0xb1d59f71);
    r := NextStep(27, 0x00000180, r, 0x4aa84d97, 0x12104ee9);
    r := NextStep(28, 0x2c4c700c, r, 0x8370b52e, 0x6f8d7ef5);
    r := NextStep(29, 0x000000f0, r, 0xc5fbaf5d, 0xd2aa1365);
  }

  lemma Steps30To39()
    ensures |BLOCK| == 16
    ensures Run(BLOCK, 40, INIT) == Regs(0x32de1cba, 0x4c986405, 0xf718e5cf, 0x03d447f6, 0xf72eec32)
  {
    Schedule16To31();
    Schedule32To47();
    Steps20To29();
    hide W, Run;
    var r := Regs(0xc5fbaf5d, 0x8370b52e, 0xd2aa1365, 0x6f8d7ef5, 0x12104ee9);
    r := NextStep(30, 0x93afb507, r, 0x1267b407, 0xa0dc2d4b);
    r := NextStep(31, 0x5898e048, r, 0x3b845d33, 0x717eebd7);
    r := NextStep(32, 0x8e9a9202, r, 0x046faa0a, 0xc499ed01);
    r := NextStep(33, 0x00000600, r, 0x2c0ebc11, 0xcee1174c);
    r := NextStep(34, 0xb131c0f0, r, 0x21796ad4, 0x811bea82);
    r := NextStep(35, 0x16263bc6, r, 0xdcbbb0cb, 0x4b03af04);
    r := NextStep(36, 0x4ebed41e, r, 0x0f511fd8, 0x085e5ab5);
    r := NextStep(37, 0x626380a1, r, 0xdc63973f, 0xf72eec32);
    r := NextStep(38, 0x16263806, r, 0x4c986405, 0x03d447f6);
    r := NextStep(39, 0x000018c0, r, 0x32de1cba, 0xf718e5cf);
  }

  lemma Steps40To49()
    ensures |BLOCK| == 16
    ensures Run(BLOCK, 50, INIT) == Regs(0x120731c5, 0xbaf39337, 0xafab40b2, 0x2806e11b, 0x8714787c)
  {
    Schedule32To47();
    Schedule48To63();
    Steps30To39();
    hide W, Run;
    var r := Regs(0x32de1cba, 0x4c986405, 0xf718e5cf, 0x03d447f6, 0xf72eec32);
    r := NextStep(40, 0xd2e138c4, r, 0xfc87dedf, 0x53261901);
    r := NextStep(41, 0x00000f00, r, 0x970a0d5c, 0x8cb7872e);
    r := NextStep(42, 0x3afb5079, r, 0x7f193dc5, 0xff21f7b7);
    r := NextStep(43, 0x898e04e5, r, 0xee1b1aaf, 0x25c28357);
    r := NextStep(44, 0xe2ba3c2b, r, 0x40f28e09, 0x5fc64f71);
    r := NextStep(45, 0x000060c0, r, 0x1c51e1f2, 0xfb86c6ab);
    r := NextStep(46, 0x053a37cd, r, 0xa01b846c, 0x503ca382);
    r := NextStep(47, 0x74458547, r, 0xbead02ca, 0x8714787c);
    r := NextStep(48, 0xda9415ed, r, 0xbaf39337, 0x2806e11b);
    r := NextStep(49, 0x26380a16, r, 0x120731c5, 0xafab40b2);
  }

  lemma Steps50To59()
    ensures |BLOCK| == 16
    ensures Run(BLOCK, 60, INIT) == Regs(0x3f52de5a, 0x09d785fd, 0x3498bfd4, 0xf211824f, 0xd79915ab)
  {
    Schedule48To63();
    Steps40To49();
    hide W, Run;
    var r := Regs(0x120731c5, 0xbaf39337, 0xafab40b2, 0x2806e11b, 0x8714787c);
    r := NextStep(50, 0x626383a1, r, 0x641db2ce, 0xeebce4cd);
    r := NextStep(51, 0x4ebf54de, r, 0x3847ad66, 0x4481cc71);
    r := NextStep(52, 0x3835b44b, r, 0xe490436d, 0x99076cb3);
    r := NextStep(53, 0x0000f600, r, 0x27e9f1d8, 0x8e11eb59);
    r := NextStep(54, 0x1e84c7a3, r, 0x7b71f76d, 0x792410db);
    r := NextStep(55, 0x98e04d98, r, 0x5e6456af, 0x09fa7c76);
    r := NextStep(56, 0x651d16a0, r, 0xc846093f, 0x5edc7ddb);
    r := NextStep(57, 0x62658ca1, r, 0xd262ff50, 0xd79915ab);
    r := NextStep(58, 0x458544d6, r, 0x09d785fd, 0xf211824f);
    r := NextStep(59, 0x44584cb7, r, 0x3f52de5a, 0x3498bfd4);
  }

  lemma Steps60To69()
    ensures |BLOCK| == 16
    ensures Run(BLOCK, 70, INIT) == Regs(0x3f2588c2, 0x497093c0, 0xde37534a, 0x030f7cad, 0x4405957e)
  {
    Schedule48To63();
    Schedule64To79();
    Steps50To59();
    hide W, Run;
    var r := Regs(0x3f52de5a, 0x09d785fd, 0x3498bfd4, 0xf211824f, 0xd79915ab);
    r := NextStep(60, 0x7ba06619, r, 0xd756c147, 0x4275e17f);
    r := NextStep(61, 0x6380aea2, r, 0x548c9cb2, 0x8fd4b796);
    r := NextStep(62, 0x0ae55269, r, 0xb66c020b, 0xf5d5b051);
    r := NextStep(63, 0x627b49a1, r, 0x6b61c9e1, 0x9523272c);
    r := NextStep(64, 0x7cd45c9d, r, 0x19dfa7ac, 0xed9b0082);
    r := NextStep(65, 0x000f0000, r, 0x101655f9, 0x5ad87278);
    r := NextStep(66, 0xfb50753a, r, 0x0c3df2b4, 0x0677e9eb);
    r := NextStep(67, 0xec6765e8, r, 0x78dd4d2b, 0x4405957e);
    r := NextStep(68, 0xba3c2be2, r, 0x497093c0, 0x030f7cad);
    r := NextStep(69, 0x0060c000, r, 0x3f2588c2, 0xde37534a);
  }

  lemma Steps70To79()
    ensures |BLOCK| == 16
    ensures Run(BLOCK, 80, INIT) == Regs(0x42541b35, 0x5738d5e1, 0x21834873, 0x681e6df6, 0xd8fdf6ad)
  {
    Schedule64To79();
    Steps60To69();
    hide W, Run;
    var r := Regs(0x3f2588c2, 0x497093c0, 0xde37534a, 0x030f7cad, 0x4405957e);
    r := NextStep(70, 0x3a37cd05, r, 0xc199f8c7, 0x125c24f0);
    r := NextStep(71, 0x458546f4, r, 0x39859de7, 0x8fc96230);
    r := NextStep(72, 0xb8599dd6, r, 0xedb42de4, 0xf0667e31);
    r := NextStep(73, 0x380a1a26, r, 0x11793f6f, 0xce616779);
    r := NextStep(74, 0x01e02203, r, 0x5ee76897, 0x3b6d0b79);
    r := NextStep(75, 0xe7cc3456, r, 0x63f7dab7, 0xc45e4fdb);
    r := NextStep(76, 0xe6e60b69, r, 0xa079b7d9, 0xd7b9da25);
    r := NextStep(77, 0x00f60a00, r, 0x860d21cc, 0xd8fdf6ad);
    r := NextStep(78, 0x5795ef4f, r, 0x5738d5e1, 0x681e6df6);
    r := NextStep(79, 0x822e0879, r, 0x42541b35, 0x21834873);
  }

  lemma FirstWordOnly(bytes: seq<Octet>)
    requires |bytes| == 64 && bytes[..4] == ABC + [0x80] && forall k | 4 <= k < 64 :: bytes[k] == 0
    ensures Words(bytes) == [0x61626380] + seq(15, _ => 0)
  {
    assert WordOf(0x61, 0x62, 0x63, 0x80) == 0x61626380;
    ZeroWord();
    assert bytes[..4] == [0x61, 0x62, 0x63, 0x80];
    assert bytes[0] == bytes[..4][0] && bytes[1] == bytes[..4][1] && bytes[2] == bytes[..4][2];
    assert bytes[3] == bytes[..4][3];
    hide WordOf;
    var words := Words(bytes);
    forall i | 1 <= i < 16
      ensures words[i] == 0
    {
    }
  }

  lemma LengthOfAbc()
    ensures LengthWord(BitCount(3)) == 24 && LengthWord(BitCount(3) / TWO32) == 0
  {
    assert BitCount(3) == 24 && 24 / TWO32 == 0;
    LengthWordCuts(24);
    LengthWordCuts(0);
    hide BitCount, LengthWord;
  }

  lemma PaddedAbc()
    ensures |ABC + Padding(3)| == 64 && Words(ABC + Padding(3)) == BLOCK
  {
    assert ZeroCount(3) == 52;
    LengthOfAbc();
    hide WordOf, LengthField, Words, LengthWord, BitCount;
    var front := ABC + [0x80] + ZeroOctets(52);
    assert ABC + Padding(3) == front + LengthField(3);
    WordsWithLength(front, 3);
    var bytes := front + ZeroOctets(8);
    assert bytes[..4] == ABC + [0x80];
    FirstWordOnly(bytes);
    var words: seq<Word> := [0x61626380] + seq(15, _ => 0);
    assert words[15 := 24][14 := 0] == BLOCK;
  }

  lemma DigestOfAbc()
    ensures Digest(ABC) ==
      [0xa9, 0x99, 0x3e, 0x36, 0x47, 0x06, 0x81, 0x6a, 0xba, 0x3e,
       0x25, 0x71, 0x78, 0x50, 0xc2, 0x6c, 0x9c, 0xd0, 0xd8, 0x9d]
  {
    PaddedAbc();
    Steps70To79();
    hide W, Run, Words, Padding;
    FoldSnoc(INIT, [], ABC + Padding(3));
    assert [] + (ABC + Padding(3)) == ABC + Padding(3);
    assert Compress(INIT, BLOCK) == Regs(0xa9993e36, 0x4706816a, 0xba3e2571, 0x7850c26c, 0x9cd0d89d);
    assert BytesOf(0xa9993e36) == [0xa9, 0x99, 0x3e, 0x36];
  }
}
