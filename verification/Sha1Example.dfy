/** The example of FIPS 180-4 for SHA-1: the message "abc". The intermediate values are those of the example, so
    the constants, the rotations and the order of bytes are pinned down by an answer known beforehand. */
module Sha1Example {
  import opened Sha1
  import opened Sha1Stream

  const BLOCK: seq<Word> := [0x61626380, 0, 0, 0, 0, 0, 0, 0, 0, 0, 0, 0, 0, 0, 0, 0x18]

  const TWO60: nat := 0x1000_0000_0000_0000

  /** The constants of the rounds are the square roots of 2, 3, 5 and 10, with 30 binary places; the initial hash value
      is made of the nibbles in order and in reverse. */
  lemma Constants()
    ensures K(0) as nat * K(0) as nat <= 2 * TWO60 < (K(0) as nat + 1) * (K(0) as nat + 1)
    ensures K(20) as nat * K(20) as nat <= 3 * TWO60 < (K(20) as nat + 1) * (K(20) as nat + 1)
    ensures K(40) as nat * K(40) as nat <= 5 * TWO60 < (K(40) as nat + 1) * (K(40) as nat + 1)
    ensures K(60) as nat * K(60) as nat <= 10 * TWO60 < (K(60) as nat + 1) * (K(60) as nat + 1)
    ensures H0.a == LittleEndian(0x01, 0x23, 0x45, 0x67) && H0.b == LittleEndian(0x89, 0xAB, 0xCD, 0xEF)
    ensures H0.c == LittleEndian(0xFE, 0xDC, 0xBA, 0x98) && H0.d == LittleEndian(0x76, 0x54, 0x32, 0x10)
    ensures H0.e == LittleEndian(0xF0, 0xE1, 0xD2, 0xC3)
  {
    assert K(0) as nat == 0x5A827999 && K(20) as nat == 0x6ED9EBA1 && K(40) as nat == 0x8F1BBCDC && K(60) as nat == 0xCA62C1D6;
    hide K;
  }

  lemma Next(t: nat, w: Word)
    requires 16 <= t && Rol(W(BLOCK, t - 3) ^ W(BLOCK, t - 8) ^ W(BLOCK, t - 14) ^ W(BLOCK, t - 16), 1) == w
    ensures W(BLOCK, t) == w
  {
    LaterWords(BLOCK, t);
    hide W;
  }

  lemma Schedule0()
    ensures W(BLOCK, 0) == 0x61626380
    ensures W(BLOCK, 1) == 0x00000000
    ensures W(BLOCK, 2) == 0x00000000
    ensures W(BLOCK, 3) == 0x00000000
    ensures W(BLOCK, 4) == 0x00000000
    ensures W(BLOCK, 5) == 0x00000000
    ensures W(BLOCK, 6) == 0x00000000
    ensures W(BLOCK, 7) == 0x00000000
    ensures W(BLOCK, 8) == 0x00000000
    ensures W(BLOCK, 9) == 0x00000000
    ensures W(BLOCK, 10) == 0x00000000
    ensures W(BLOCK, 11) == 0x00000000
    ensures W(BLOCK, 12) == 0x00000000
    ensures W(BLOCK, 13) == 0x00000000
    ensures W(BLOCK, 14) == 0x00000000
    ensures W(BLOCK, 15) == 0x00000018
  {
    FirstWords(BLOCK, 0);
    FirstWords(BLOCK, 1);
    FirstWords(BLOCK, 2);
    FirstWords(BLOCK, 3);
    FirstWords(BLOCK, 4);
    FirstWords(BLOCK, 5);
    FirstWords(BLOCK, 6);
    FirstWords(BLOCK, 7);
    FirstWords(BLOCK, 8);
    FirstWords(BLOCK, 9);
    FirstWords(BLOCK, 10);
    FirstWords(BLOCK, 11);
    FirstWords(BLOCK, 12);
    FirstWords(BLOCK, 13);
    FirstWords(BLOCK, 14);
    FirstWords(BLOCK, 15);
    hide W;
  }

  lemma Schedule16()
    ensures W(BLOCK, 16) == 0xC2C4C700
    ensures W(BLOCK, 17) == 0x00000000
    ensures W(BLOCK, 18) == 0x00000030
    ensures W(BLOCK, 19) == 0x85898E01
    ensures W(BLOCK, 20) == 0x00000000
    ensures W(BLOCK, 21) == 0x00000060
    ensures W(BLOCK, 22) == 0x0B131C03
    ensures W(BLOCK, 23) == 0x00000030
    ensures W(BLOCK, 24) == 0x85898EC1
    ensures W(BLOCK, 25) == 0x16263806
    ensures W(BLOCK, 26) == 0x00000000
    ensures W(BLOCK, 27) == 0x00000180
    ensures W(BLOCK, 28) == 0x2C4C700C
    ensures W(BLOCK, 29) == 0x000000F0
    ensures W(BLOCK, 30) == 0x93AFB507
    ensures W(BLOCK, 31) == 0x5898E048
  {
    Schedule0();
    hide W;
    Next(16, 0xC2C4C700);
    Next(17, 0x00000000);
    Next(18, 0x00000030);
    Next(19, 0x85898E01);
    Next(20, 0x00000000);
    Next(21, 0x00000060);
    Next(22, 0x0B131C03);
    Next(23, 0x00000030);
    Next(24, 0x85898EC1);
    Next(25, 0x16263806);
    Next(26, 0x00000000);
    Next(27, 0x00000180);
    Next(28, 0x2C4C700C);
    Next(29, 0x000000F0);
    Next(30, 0x93AFB507);
    Next(31, 0x5898E048);
  }

  lemma Schedule32()
    ensures W(BLOCK, 32) == 0x8E9A9202
    ensures W(BLOCK, 33) == 0x00000600
    ensures W(BLOCK, 34) == 0xB131C0F0
    ensures W(BLOCK, 35) == 0x16263BC6
    ensures W(BLOCK, 36) == 0x4EBED41E
    ensures W(BLOCK, 37) == 0x626380A1
    ensures W(BLOCK, 38) == 0x16263806
    ensures W(BLOCK, 39) == 0x000018C0
    ensures W(BLOCK, 40) == 0xD2E138C4
    ensures W(BLOCK, 41) == 0x00000F00
    ensures W(BLOCK, 42) == 0x3AFB5079
    ensures W(BLOCK, 43) == 0x898E04E5
    ensures W(BLOCK, 44) == 0xE2BA3C2B
    ensures W(BLOCK, 45) == 0x000060C0
    ensures W(BLOCK, 46) == 0x053A37CD
    ensures W(BLOCK, 47) == 0x74458547
  {
    Schedule16();
    hide W;
    Next(32, 0x8E9A9202);
    Next(33, 0x00000600);
    Next(34, 0xB131C0F0);
    Next(35, 0x16263BC6);
    Next(36, 0x4EBED41E);
    Next(37, 0x626380A1);
    Next(38, 0x16263806);
    Next(39, 0x000018C0);
    Next(40, 0xD2E138C4);
    Next(41, 0x00000F00);
    Next(42, 0x3AFB5079);
    Next(43, 0x898E04E5);
    Next(44, 0xE2BA3C2B);
    Next(45, 0x000060C0);
    Next(46, 0x053A37CD);
    Next(47, 0x74458547);
  }

  lemma Schedule48()
    ensures W(BLOCK, 48) == 0xDA9415ED
    ensures W(BLOCK, 49) == 0x26380A16
    ensures W(BLOCK, 50) == 0x626383A1
    ensures W(BLOCK, 51) == 0x4EBF54DE
    ensures W(BLOCK, 52) == 0x3835B44B
    ensures W(BLOCK, 53) == 0x0000F600
    ensures W(BLOCK, 54) == 0x1E84C7A3
    ensures W(BLOCK, 55) == 0x98E04D98
    ensures W(BLOCK, 56) == 0x651D16A0
    ensures W(BLOCK, 57) == 0x62658CA1
    ensures W(BLOCK, 58) == 0x458544D6
    ensures W(BLOCK, 59) == 0x44584CB7
    ensures W(BLOCK, 60) == 0x7BA06619
    ensures W(BLOCK, 61) == 0x6380AEA2
    ensures W(BLOCK, 62) == 0x0AE55269
    ensures W(BLOCK, 63) == 0x627B49A1
  {
    Schedule32();
    hide W;
    Next(48, 0xDA9415ED);
    Next(49, 0x26380A16);
    Next(50, 0x626383A1);
    Next(51, 0x4EBF54DE);
    Next(52, 0x3835B44B);
    Next(53, 0x0000F600);
    Next(54, 0x1E84C7A3);
    Next(55, 0x98E04D98);
    Next(56, 0x651D16A0);
    Next(57, 0x62658CA1);
    Next(58, 0x458544D6);
    Next(59, 0x44584CB7);
    Next(60, 0x7BA06619);
    Next(61, 0x6380AEA2);
    Next(62, 0x0AE55269);
    Next(63, 0x627B49A1);
  }

  lemma Schedule64()
    ensures W(BLOCK, 64) == 0x7CD45C9D
    ensures W(BLOCK, 65) == 0x000F0000
    ensures W(BLOCK, 66) == 0xFB50753A
    ensures W(BLOCK, 67) == 0xEC6765E8
    ensures W(BLOCK, 68) == 0xBA3C2BE2
    ensures W(BLOCK, 69) == 0x0060C000
    ensures W(BLOCK, 70) == 0x3A37CD05
    ensures W(BLOCK, 71) == 0x458546F4
    ensures W(BLOCK, 72) == 0xB8599DD6
    ensures W(BLOCK, 73) == 0x380A1A26
    ensures W(BLOCK, 74) == 0x01E02203
    ensures W(BLOCK, 75) == 0xE7CC3456
    ensures W(BLOCK, 76) == 0xE6E60B69
    ensures W(BLOCK, 77) == 0x00F60A00
    ensures W(BLOCK, 78) == 0x5795EF4F
    ensures W(BLOCK, 79) == 0x822E0879
  {
    Schedule48();
    hide W;
    Next(64, 0x7CD45C9D);
    Next(65, 0x000F0000);
    Next(66, 0xFB50753A);
    Next(67, 0xEC6765E8);
    Next(68, 0xBA3C2BE2);
    Next(69, 0x0060C000);
    Next(70, 0x3A37CD05);
    Next(71, 0x458546F4);
    Next(72, 0xB8599DD6);
    Next(73, 0x380A1A26);
    Next(74, 0x01E02203);
    Next(75, 0xE7CC3456);
    Next(76, 0xE6E60B69);
    Next(77, 0x00F60A00);
    Next(78, 0x5795EF4F);
    Next(79, 0x822E0879);
  }

  lemma NextRound(t: nat, r: Registers)
    requires Round(Rounds(H0, BLOCK, t), t, W(BLOCK, t)) == r
    ensures Rounds(H0, BLOCK, t + 1) == r
  {
    hide W, Round;
  }

  lemma Rounds5()
    ensures Rounds(H0, BLOCK, 5) == Registers(0xCFD499DE, 0xCDD8E11B, 0x284E43C2, 0x626414DB, 0xC045BF0C)
  {
    Schedule0();
    assert Rounds(H0, BLOCK, 0) == H0;
    hide W, Rounds;

    NextRound(0, Registers(0x0116FC33, 0x67452301, 0x7BF36AE2, 0x98BADCFE, 0x10325476));
    NextRound(1, Registers(0x8990536D, 0x0116FC33, 0x59D148C0, 0x7BF36AE2, 0x98BADCFE));
    NextRound(2, Registers(0xA1390F08, 0x8990536D, 0xC045BF0C, 0x59D148C0, 0x7BF36AE2));
    NextRound(3, Registers(0xCDD8E11B, 0xA1390F08, 0x626414DB, 0xC045BF0C, 0x59D148C0));
    NextRound(4, Registers(0xCFD499DE, 0xCDD8E11B, 0x284E43C2, 0x626414DB, 0xC045BF0C));
  }

  lemma Rounds10()
    ensures Rounds(H0, BLOCK, 10) == Registers(0x8351F929, 0x4B6AE328, 0x27A301F5, 0x664F8C30, 0x0FF1F290)
  {
    Rounds5();
    Schedule0();
    hide W, Rounds;

    NextRound(5, Registers(0x3FC7CA40, 0xCFD499DE, 0xF3763846, 0x284E43C2, 0x626414DB));
    NextRound(6, Registers(0x993E30C1, 0x3FC7CA40, 0xB3F52677, 0xF3763846, 0x284E43C2));
    NextRound(7, Registers(0x9E8C07D4, 0x993E30C1, 0x0FF1F290, 0xB3F52677, 0xF3763846));
    NextRound(8, Registers(0x4B6AE328, 0x9E8C07D4, 0x664F8C30, 0x0FF1F290, 0xB3F52677));
    NextRound(9, Registers(0x8351F929, 0x4B6AE328, 0x27A301F5, 0x664F8C30, 0x0FF1F290));
  }

  lemma Rounds15()
    ensures Rounds(H0, BLOCK, 15) == Registers(0x196BEE77, 0x9128F695, 0x1181ED99, 0x18C623F9, 0x7EF6A7A2)
  {
    Rounds10();
    Schedule0();
    hide W, Rounds;

    NextRound(10, Registers(0xFBDA9E89, 0x8351F929, 0x12DAB8CA, 0x27A301F5, 0x664F8C30));
    NextRound(11, Registers(0x63188FE4, 0xFBDA9E89, 0x60D47E4A, 0x12DAB8CA, 0x27A301F5));
    NextRound(12, Registers(0x4607B664, 0x63188FE4, 0x7EF6A7A2, 0x60D47E4A, 0x12DAB8CA));
    NextRound(13, Registers(0x9128F695, 0x4607B664, 0x18C623F9, 0x7EF6A7A2, 0x60D47E4A));
    NextRound(14, Registers(0x196BEE77, 0x9128F695, 0x1181ED99, 0x18C623F9, 0x7EF6A7A2));
  }

  lemma Rounds20()
    ensures Rounds(H0, BLOCK, 20) == Registers(0xFD9E1D7D, 0xDC64901D, 0x20AA99CA, 0xD3A49608, 0xC82F758B)
  {
    Rounds15();
    Schedule0();
    Schedule16();
    hide W, Rounds;

    NextRound(15, Registers(0x20BDD62F, 0x196BEE77, 0x644A3DA5, 0x1181ED99, 0x18C623F9));
    NextRound(16, Registers(0x4E925823, 0x20BDD62F, 0xC65AFB9D, 0x644A3DA5, 0x1181ED99));
    NextRound(17, Registers(0x82AA6728, 0x4E925823, 0xC82F758B, 0xC65AFB9D, 0x644A3DA5));
    NextRound(18, Registers(0xDC64901D, 0x82AA6728, 0xD3A49608, 0xC82F758B, 0xC65AFB9D));
    NextRound(19, Registers(0xFD9E1D7D, 0xDC64901D, 0x20AA99CA, 0xD3A49608, 0xC82F758B));
  }

  lemma Rounds25()
    ensures Rounds(H0, BLOCK, 25) == Registers(0xC7567DC6, 0xD541F12D, 0x884A0D21, 0x0CE88EFF, 0x868DEC32)
  {
    Rounds20();
    Schedule16();
    hide W, Rounds;

    NextRound(20, Registers(0x1A37B0CA, 0xFD9E1D7D, 0x77192407, 0x20AA99CA, 0xD3A49608));
    NextRound(21, Registers(0x33A23BFC, 0x1A37B0CA, 0x7F67875F, 0x77192407, 0x20AA99CA));
    NextRound(22, Registers(0x21283486, 0x33A23BFC, 0x868DEC32, 0x7F67875F, 0x77192407));
    NextRound(23, Registers(0xD541F12D, 0x21283486, 0x0CE88EFF, 0x868DEC32, 0x7F67875F));
    NextRound(24, Registers(0xC7567DC6, 0xD541F12D, 0x884A0D21, 0x0CE88EFF, 0x868DEC32));
  }

  lemma Rounds30()
    ensures Rounds(H0, BLOCK, 30) == Registers(0xC5FBAF5D, 0x8370B52E, 0xD2AA1365, 0x6F8D7EF5, 0x12104EE9)
  {
    Rounds25();
    Schedule16();
    hide W, Rounds;

    NextRound(25, Registers(0x48413BA4, 0xC7567DC6, 0x75507C4B, 0x884A0D21, 0x0CE88EFF));
    NextRound(26, Registers(0xBE35FBD5, 0x48413BA4, 0xB1D59F71, 0x75507C4B, 0x884A0D21));
    NextRound(27, Registers(0x4AA84D97, 0xBE35FBD5, 0x12104EE9, 0xB1D59F71, 0x75507C4B));
    NextRound(28, Registers(0x8370B52E, 0x4AA84D97, 0x6F8D7EF5, 0x12104EE9, 0xB1D59F71));
    NextRound(29, Registers(0xC5FBAF5D, 0x8370B52E, 0xD2AA1365, 0x6F8D7EF5, 0x12104EE9));
  }

  lemma Rounds35()
    ensures Rounds(H0, BLOCK, 35) == Registers(0x21796AD4, 0x2C0EBC11, 0x811BEA82, 0xCEE1174C, 0xC499ED01)
  {
    Rounds30();
    Schedule16();
    Schedule32();
    hide W, Rounds;

    NextRound(30, Registers(0x1267B407, 0xC5FBAF5D, 0xA0DC2D4B, 0xD2AA1365, 0x6F8D7EF5));
    NextRound(31, Registers(0x3B845D33, 0x1267B407, 0x717EEBD7, 0xA0DC2D4B, 0xD2AA1365));
    NextRound(32, Registers(0x046FAA0A, 0x3B845D33, 0xC499ED01, 0x717EEBD7, 0xA0DC2D4B));
    NextRound(33, Registers(0x2C0EBC11, 0x046FAA0A, 0xCEE1174C, 0xC499ED01, 0x717EEBD7));
    NextRound(34, Registers(0x21796AD4, 0x2C0EBC11, 0x811BEA82, 0xCEE1174C, 0xC499ED01));
  }

  lemma Rounds40()
    ensures Rounds(H0, BLOCK, 40) == Registers(0x32DE1CBA, 0x4C986405, 0xF718E5CF, 0x03D447F6, 0xF72EEC32)
  {
    Rounds35();
    Schedule32();
    hide W, Rounds;

    NextRound(35, Registers(0xDCBBB0CB, 0x21796AD4, 0x4B03AF04, 0x811BEA82, 0xCEE1174C));
    NextRound(36, Registers(0x0F511FD8, 0xDCBBB0CB, 0x085E5AB5, 0x4B03AF04, 0x811BEA82));
    NextRound(37, Registers(0xDC63973F, 0x0F511FD8, 0xF72EEC32, 0x085E5AB5, 0x4B03AF04));
    NextRound(38, Registers(0x4C986405, 0xDC63973F, 0x03D447F6, 0xF72EEC32, 0x085E5AB5));
    NextRound(39, Registers(0x32DE1CBA, 0x4C986405, 0xF718E5CF, 0x03D447F6, 0xF72EEC32));
  }

  lemma Rounds45()
    ensures Rounds(H0, BLOCK, 45) == Registers(0x40F28E09, 0xEE1B1AAF, 0x5FC64F71, 0x25C28357, 0xFF21F7B7)
  {
    Rounds40();
    Schedule32();
    hide W, Rounds;

    NextRound(40, Registers(0xFC87DEDF, 0x32DE1CBA, 0x53261901, 0xF718E5CF, 0x03D447F6));
    NextRound(41, Registers(0x970A0D5C, 0xFC87DEDF, 0x8CB7872E, 0x53261901, 0xF718E5CF));
    NextRound(42, Registers(0x7F193DC5, 0x970A0D5C, 0xFF21F7B7, 0x8CB7872E, 0x53261901));
    NextRound(43, Registers(0xEE1B1AAF, 0x7F193DC5, 0x25C28357, 0xFF21F7B7, 0x8CB7872E));
    NextRound(44, Registers(0x40F28E09, 0xEE1B1AAF, 0x5FC64F71, 0x25C28357, 0xFF21F7B7));
  }

  lemma Rounds50()
    ensures Rounds(H0, BLOCK, 50) == Registers(0x120731C5, 0xBAF39337, 0xAFAB40B2, 0x2806E11B, 0x8714787C)
  {
    Rounds45();
    Schedule32();
    Schedule48();
    hide W, Rounds;

    NextRound(45, Registers(0x1C51E1F2, 0x40F28E09, 0xFB86C6AB, 0x5FC64F71, 0x25C28357));
    NextRound(46, Registers(0xA01B846C, 0x1C51E1F2, 0x503CA382, 0xFB86C6AB, 0x5FC64F71));
    NextRound(47, Registers(0xBEAD02CA, 0xA01B846C, 0x8714787C, 0x503CA382, 0xFB86C6AB));
    NextRound(48, Registers(0xBAF39337, 0xBEAD02CA, 0x2806E11B, 0x8714787C, 0x503CA382));
    NextRound(49, Registers(0x120731C5, 0xBAF39337, 0xAFAB40B2, 0x2806E11B, 0x8714787C));
  }

  lemma Rounds55()
    ensures Rounds(H0, BLOCK, 55) == Registers(0x7B71F76D, 0x27E9F1D8, 0x792410DB, 0x8E11EB59, 0x99076CB3)
  {
    Rounds50();
    Schedule48();
    hide W, Rounds;

    NextRound(50, Registers(0x641DB2CE, 0x120731C5, 0xEEBCE4CD, 0xAFAB40B2, 0x2806E11B));
    NextRound(51, Registers(0x3847AD66, 0x641DB2CE, 0x4481CC71, 0xEEBCE4CD, 0xAFAB40B2));
    NextRound(52, Registers(0xE490436D, 0x3847AD66, 0x99076CB3, 0x4481CC71, 0xEEBCE4CD));
    NextRound(53, Registers(0x27E9F1D8, 0xE490436D, 0x8E11EB59, 0x99076CB3, 0x4481CC71));
    NextRound(54, Registers(0x7B71F76D, 0x27E9F1D8, 0x792410DB, 0x8E11EB59, 0x99076CB3));
  }

  lemma Rounds60()
    ensures Rounds(H0, BLOCK, 60) == Registers(0x3F52DE5A, 0x09D785FD, 0x3498BFD4, 0xF211824F, 0xD79915AB)
  {
    Rounds55();
    Schedule48();
    hide W, Rounds;

    NextRound(55, Registers(0x5E6456AF, 0x7B71F76D, 0x09FA7C76, 0x792410DB, 0x8E11EB59));
    NextRound(56, Registers(0xC846093F, 0x5E6456AF, 0x5EDC7DDB, 0x09FA7C76, 0x792410DB));
    NextRound(57, Registers(0xD262FF50, 0xC846093F, 0xD79915AB, 0x5EDC7DDB, 0x09FA7C76));
    NextRound(58, Registers(0x09D785FD, 0xD262FF50, 0xF211824F, 0xD79915AB, 0x5EDC7DDB));
    NextRound(59, Registers(0x3F52DE5A, 0x09D785FD, 0x3498BFD4, 0xF211824F, 0xD79915AB));
  }

  lemma Rounds65()
    ensures Rounds(H0, BLOCK, 65) == Registers(0x19DFA7AC, 0x6B61C9E1, 0xED9B0082, 0x9523272C, 0xF5D5B051)
  {
    Rounds60();
    Schedule48();
    Schedule64();
    hide W, Rounds;

    NextRound(60, Registers(0xD756C147, 0x3F52DE5A, 0x4275E17F, 0x3498BFD4, 0xF211824F));
    NextRound(61, Registers(0x548C9CB2, 0xD756C147, 0x8FD4B796, 0x4275E17F, 0x3498BFD4));
    NextRound(62, Registers(0xB66C020B, 0x548C9CB2, 0xF5D5B051, 0x8FD4B796, 0x4275E17F));
    NextRound(63, Registers(0x6B61C9E1, 0xB66C020B, 0x9523272C, 0xF5D5B051, 0x8FD4B796));
    NextRound(64, Registers(0x19DFA7AC, 0x6B61C9E1, 0xED9B0082, 0x9523272C, 0xF5D5B051));
  }

  lemma Rounds70()
    ensures Rounds(H0, BLOCK, 70) == Registers(0x3F2588C2, 0x497093C0, 0xDE37534A, 0x030F7CAD, 0x4405957E)
  {
    Rounds65();
    Schedule64();
    hide W, Rounds;

    NextRound(65, Registers(0x101655F9, 0x19DFA7AC, 0x5AD87278, 0xED9B0082, 0x9523272C));
    NextRound(66, Registers(0x0C3DF2B4, 0x101655F9, 0x0677E9EB, 0x5AD87278, 0xED9B0082));
    NextRound(67, Registers(0x78DD4D2B, 0x0C3DF2B4, 0x4405957E, 0x0677E9EB, 0x5AD87278));
    NextRound(68, Registers(0x497093C0, 0x78DD4D2B, 0x030F7CAD, 0x4405957E, 0x0677E9EB));
    NextRound(69, Registers(0x3F2588C2, 0x497093C0, 0xDE37534A, 0x030F7CAD, 0x4405957E));
  }

  lemma Rounds75()
    ensures Rounds(H0, BLOCK, 75) == Registers(0x5EE76897, 0x11793F6F, 0x3B6D0B79, 0xCE616779, 0xF0667E31)
  {
    Rounds70();
    Schedule64();
    hide W, Rounds;

    NextRound(70, Registers(0xC199F8C7, 0x3F2588C2, 0x125C24F0, 0xDE37534A, 0x030F7CAD));
    NextRound(71, Registers(0x39859DE7, 0xC199F8C7, 0x8FC96230, 0x125C24F0, 0xDE37534A));
    NextRound(72, Registers(0xEDB42DE4, 0x39859DE7, 0xF0667E31, 0x8FC96230, 0x125C24F0));
    NextRound(73, Registers(0x11793F6F, 0xEDB42DE4, 0xCE616779, 0xF0667E31, 0x8FC96230));
    NextRound(74, Registers(0x5EE76897, 0x11793F6F, 0x3B6D0B79, 0xCE616779, 0xF0667E31));
  }

  lemma Rounds80()
    ensures Rounds(H0, BLOCK, 80) == Registers(0x42541B35, 0x5738D5E1, 0x21834873, 0x681E6DF6, 0xD8FDF6AD)
  {
    Rounds75();
    Schedule64();
    hide W, Rounds;

    NextRound(75, Registers(0x63F7DAB7, 0x5EE76897, 0xC45E4FDB, 0x3B6D0B79, 0xCE616779));
    NextRound(76, Registers(0xA079B7D9, 0x63F7DAB7, 0xD7B9DA25, 0xC45E4FDB, 0x3B6D0B79));
    NextRound(77, Registers(0x860D21CC, 0xA079B7D9, 0xD8FDF6AD, 0xD7B9DA25, 0xC45E4FDB));
    NextRound(78, Registers(0x5738D5E1, 0x860D21CC, 0x681E6DF6, 0xD8FDF6AD, 0xD7B9DA25));
    NextRound(79, Registers(0x42541B35, 0x5738D5E1, 0x21834873, 0x681E6DF6, 0xD8FDF6AD));
  }

  lemma Compressed()
    ensures Compress(H0, BLOCK) == Registers(0xA9993E36, 0x4706816A, 0xBA3E2571, 0x7850C26C, 0x9CD0D89D)
  {
    Rounds80();
    hide Rounds;
  }

  const ABC: seq<Byte> := [0x61, 0x62, 0x63]

  /** The padding: a one bit, zeros, and the length of 24 bits. */
  lemma PaddingIs()
    ensures var p := Padding(3, BitsHi(3), BitsLo(3));
      |p| == 61 && p[0] == 0x80 && p[60] == 24 && forall i :: 1 <= i < 60 ==> p[i] == 0
  {
    assert BitsHi(3) == 0 && BitsLo(3) == 24 && PadLength(3) == 53;
    LengthBytes();
    var zeros := seq(52, _ => 0);
    hide BytesOf;
    assert Padding(3, 0, 24) == [0x80] + zeros + BytesOf(0) + BytesOf(24);
  }

  lemma LengthBytes()
    ensures BytesOf(0) == [0, 0, 0, 0] && BytesOf(24) == [0, 0, 0, 24]
  {
  }

  /** The one block of the padded message. */
  lemma Padded(s: seq<Byte>)
    requires s == ABC + Padding(3, BitsHi(3), BitsLo(3))
    ensures |s| == 64 && Words(s) == BLOCK
  {
    PaddingIs();
    hide Padding, BitsHi, BitsLo, BigEndian;
    assert s[0] == 0x61 && s[1] == 0x62 && s[2] == 0x63 && s[3] == 0x80 && s[63] == 24;
    assert forall i :: 4 <= i < 63 ==> s[i] == 0;
    forall i | 0 <= i < 16 ensures Words(s)[i] == BLOCK[i] {
      WordsOfBlock(s[4 * i], s[4 * i + 1], s[4 * i + 2], s[4 * i + 3], i);
    }
  }

  lemma WordsOfBlock(b0: Byte, b1: Byte, b2: Byte, b3: Byte, i: nat)
    requires i < 16
    requires if i == 0 then b0 == 0x61 && b1 == 0x62 && b2 == 0x63 && b3 == 0x80
             else b0 == 0 && b1 == 0 && b2 == 0 && b3 == if i == 15 then 24 else 0
    ensures BigEndian(b0, b1, b2, b3) == BLOCK[i]
  {
  }

  const ANSWER: seq<Byte> := [0xA9, 0x99, 0x3E, 0x36, 0x47, 0x06, 0x81, 0x6A, 0xBA, 0x3E, 0x25, 0x71, 0x78, 0x50, 0xC2, 0x6C, 0x9C, 0xD0, 0xD8, 0x9D]

  lemma FourBytes(w: Word, b0: Byte, b1: Byte, b2: Byte, b3: Byte)
    requires ByteAt(w, 24) == b0 && ByteAt(w, 16) == b1 && ByteAt(w, 8) == b2 && ByteAt(w, 0) == b3
    ensures WordBytes(w) == [b0, b1, b2, b3]
  {
    hide ByteAt;
  }

  lemma AnswerDigest()
    ensures Digest(Registers(0xA9993E36, 0x4706816A, 0xBA3E2571, 0x7850C26C, 0x9CD0D89D)) == ANSWER
  {
    FourBytes(0xA9993E36, 0xA9, 0x99, 0x3E, 0x36);
    FourBytes(0x4706816A, 0x47, 0x06, 0x81, 0x6A);
    FourBytes(0xBA3E2571, 0xBA, 0x3E, 0x25, 0x71);
    FourBytes(0x7850C26C, 0x78, 0x50, 0xC2, 0x6C);
    FourBytes(0x9CD0D89D, 0x9C, 0xD0, 0xD8, 0x9D);
    hide WordBytes, ByteAt;
  }

  /** SHA-1 of "abc". */
  lemma HashOfAbc()
    ensures Sha1Of(ABC) == ANSWER
  {
    var s := ABC + Padding(3, BitsHi(3), BitsLo(3));
    Padded(s);
    Compressed();
    AnswerDigest();
    hide Padding, BitsHi, BitsLo, Words, Compress, Digest, ANSWER, BLOCK;
    OneBlockHash(s);
  }

  lemma OneBlockHash(s: seq<Byte>)
    requires |s| == 64
    ensures Blocks(H0, s) == Compress(H0, Words(s))
  {
    assert s[..64] == s && |s[64..]| == 0;
    hide Compress, Words;
  }

  /** The code, fed in two pieces. */
  method AbcExample() returns (hash: seq<Byte>)
    ensures hash == ANSWER
  {
    var context := new Context();
    var fits := context.Update([0x61]);
    fits := context.Update([0x62, 0x63]);
    assert context.message == ABC;
    HashOfAbc();
    hash := context.Final();
  }
}
