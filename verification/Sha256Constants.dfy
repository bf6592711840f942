/**
 Where the constants of SHA-256 come from: sections 4.2.2 and 5.3.3 of FIPS 180-4 take them from the roots of the
 first primes.
 */
module Sha256Constants {
  import opened Sha256

  predicate IsPrime(n: nat) {
    n >= 2 && forall d :: 2 <= d < n ==> n % d != 0
  }

  const PRIMES: seq<nat> :=
      [2, 3, 5, 7, 11, 13, 17, 19]
    + [23, 29, 31, 37, 41, 43, 47, 53]
    + [59, 61, 67, 71, 73, 79, 83, 89]
    + [97, 101, 103, 107, 109, 113, 127, 131]
    + [137, 139, 149, 151, 157, 163, 167, 173]
    + [179, 181, 191, 193, 197, 199, 211, 223]
    + [227, 229, 233, 239, 241, 251, 257, 263]
    + [269, 271, 277, 281, 283, 293, 307, 311]

  // -------------------------------------------------------------- the first 64 primes

  /** Divisible by none of the primes up to 17, or one of them. */
  predicate PassesTrial(n: nat) {
    && n >= 2
    && (n % 2 != 0 || n == 2) && (n % 3 != 0 || n == 3) && (n % 5 != 0 || n == 5) && (n % 7 != 0 || n == 7)
    && (n % 11 != 0 || n == 11) && (n % 13 != 0 || n == 13) && (n % 17 != 0 || n == 17)
  }

  /** Below 19 * 19 trial division by these decides. */
  lemma TrialDecides(n: nat)
    requires n < 361
    ensures IsPrime(n) <==> PassesTrial(n)
  {
    if PassesTrial(n) {
      forall d | 2 <= d < n
        ensures n % d != 0
      {
        PassingHasNoDivisor(n, d);
      }
    }
  }

  lemma PassingHasNoDivisor(n: nat, d: nat)
    requires PassesTrial(n) && n < 361 && 2 <= d < n
    ensures n % d != 0
  {
    hide PassesTrial;
    if n % d == 0 {
      var e := Cofactor(n, d);
      CofactorBounds(n, d, e);
      if d < 19 {
        SmallFactor(n, d, e);
      } else {
        SmallFactor(n, e, d);
      }
    }
  }

  lemma Cofactor(n: nat, d: nat) returns (e: nat)
    requires d > 0 && n % d == 0
    ensures n == d * e == e * d
  {
    e := n / d;
  }

  lemma CofactorBounds(n: nat, d: nat, e: nat)
    requires n == d * e && 2 <= d < n < 361
    ensures e >= 2 && (d >= 19 ==> e < 19)
  {
    assert e <= 1 ==> d * e <= d;
    assert d >= 19 && e >= 19 ==> d * e >= 19 * e;
  }

  /** A proper divisor below 19 brings one of the primes up to 17 with it. */
  lemma SmallFactor(n: nat, d: nat, e: nat)
    requires 2 <= d < 19 && n == d * e && e >= 2
    ensures !PassesTrial(n)
  {
    assert d % 2 == 0 || d % 3 == 0 || d % 5 == 0 || d % 7 == 0 || d % 11 == 0 || d % 13 == 0 || d % 17 == 0;
    assert n > d;
    forall p: nat | p >= 2 && d % p == 0
      ensures n % p == 0
    {
      DivisorOfFactor(n, d, e, p);
    }
  }

  lemma DivisorOfFactor(n: nat, d: nat, e: nat, p: nat)
    requires p >= 2 && n == d * e && d % p == 0
    ensures n % p == 0
  {
    assert n == p * (d / p) * e == p * ((d / p) * e);
    ModUnique(n, p, (d / p) * e, 0);
  }

  /** The one passes trial division and nothing between the two does. */
  predicate NextPasses(p: nat, q: nat) {
    p < q < 361 && PassesTrial(p) && forall n :: p < n < q ==> !PassesTrial(n)
  }

  predicate Follows(t: nat) {
    t < 63 && NextPasses(PRIMES[t], PRIMES[t+1])
  }

  lemma Gaps0()
    ensures NextPasses(2, 3)
    ensures NextPasses(3, 5)
    ensures NextPasses(5, 7)
    ensures NextPasses(7, 11)
  {
    assert PassesTrial(2) && PassesTrial(3) && PassesTrial(5) && PassesTrial(7);
    assert !PassesTrial(4) && !PassesTrial(6) && !PassesTrial(8) && !PassesTrial(9) && !PassesTrial(10);
    hide PassesTrial;
  }

  lemma Follows0()
    ensures forall t :: 0 <= t < 4 ==> Follows(t)
  {
    hide NextPasses;
    Gaps0();
    assert PRIMES[0] == 2 && PRIMES[1] == 3 && Follows(0);
    assert PRIMES[1] == 3 && PRIMES[2] == 5 && Follows(1);
    assert PRIMES[2] == 5 && PRIMES[3] == 7 && Follows(2);
    assert PRIMES[3] == 7 && PRIMES[4] == 11 && Follows(3);
    hide Follows;
  }

  lemma Gaps4()
    ensures NextPasses(11, 13)
    ensures NextPasses(13, 17)
    ensures NextPasses(17, 19)
    ensures NextPasses(19, 23)
  {
    assert PassesTrial(11) && PassesTrial(13) && PassesTrial(17) && PassesTrial(19);
    assert !PassesTrial(12) && !PassesTrial(14) && !PassesTrial(15) && !PassesTrial(16) && !PassesTrial(18);
    assert !PassesTrial(20) && !PassesTrial(21) && !PassesTrial(22);
    hide PassesTrial;
  }

  lemma Follows4()
    ensures forall t :: 4 <= t < 8 ==> Follows(t)
  {
    hide NextPasses;
    Gaps4();
    assert PRIMES[4] == 11 && PRIMES[5] == 13 && Follows(4);
    assert PRIMES[5] == 13 && PRIMES[6] == 17 && Follows(5);
    assert PRIMES[6] == 17 && PRIMES[7] == 19 && Follows(6);
    assert PRIMES[7] == 19 && PRIMES[8] == 23 && Follows(7);
    hide Follows;
  }

  lemma Gaps8()
    ensures NextPasses(23, 29)
    ensures NextPasses(29, 31)
    ensures NextPasses(31, 37)
    ensures NextPasses(37, 41)
  {
    assert PassesTrial(23) && PassesTrial(29) && PassesTrial(31) && PassesTrial(37);
    assert !PassesTrial(24) && !PassesTrial(25) && !PassesTrial(26) && !PassesTrial(27) && !PassesTrial(28);
    assert !PassesTrial(30) && !PassesTrial(32) && !PassesTrial(33) && !PassesTrial(34) && !PassesTrial(35);
    assert !PassesTrial(36) && !PassesTrial(38) && !PassesTrial(39) && !PassesTrial(40);
    hide PassesTrial;
  }

  lemma Follows8()
    ensures forall t :: 8 <= t < 12 ==> Follows(t)
  {
    hide NextPasses;
    Gaps8();
    assert PRIMES[8] == 23 && PRIMES[9] == 29 && Follows(8);
    assert PRIMES[9] == 29 && PRIMES[10] == 31 && Follows(9);
    assert PRIMES[10] == 31 && PRIMES[11] == 37 && Follows(10);
    assert PRIMES[11] == 37 && PRIMES[12] == 41 && Follows(11);
    hide Follows;
  }

  lemma Gaps12()
    ensures NextPasses(41, 43)
    ensures NextPasses(43, 47)
    ensures NextPasses(47, 53)
    ensures NextPasses(53, 59)
  {
    assert PassesTrial(41) && PassesTrial(43) && PassesTrial(47) && PassesTrial(53);
    assert !PassesTrial(42) && !PassesTrial(44) && !PassesTrial(45) && !PassesTrial(46) && !PassesTrial(48);
    assert !PassesTrial(49) && !PassesTrial(50) && !PassesTrial(51) && !PassesTrial(52) && !PassesTrial(54);
    assert !PassesTrial(55) && !PassesTrial(56) && !PassesTrial(57) && !PassesTrial(58);
    hide PassesTrial;
  }

  lemma Follows12()
    ensures forall t :: 12 <= t < 16 ==> Follows(t)
  {
    hide NextPasses;
    Gaps12();
    assert PRIMES[12] == 41 && PRIMES[13] == 43 && Follows(12);
    assert PRIMES[13] == 43 && PRIMES[14] == 47 && Follows(13);
    assert PRIMES[14] == 47 && PRIMES[15] == 53 && Follows(14);
    assert PRIMES[15] == 53 && PRIMES[16] == 59 && Follows(15);
    hide Follows;
  }

  lemma Gaps16()
    ensures NextPasses(59, 61)
    ensures NextPasses(61, 67)
    ensures NextPasses(67, 71)
    ensures NextPasses(71, 73)
  {
    assert PassesTrial(59) && PassesTrial(61) && PassesTrial(67) && PassesTrial(71);
    assert !PassesTrial(60) && !PassesTrial(62) && !PassesTrial(63) && !PassesTrial(64) && !PassesTrial(65);
    assert !PassesTrial(66) && !PassesTrial(68) && !PassesTrial(69) && !PassesTrial(70) && !PassesTrial(72);
    hide PassesTrial;
  }

  lemma Follows16()
    ensures forall t :: 16 <= t < 20 ==> Follows(t)
  {
    hide NextPasses;
    Gaps16();
    assert PRIMES[16] == 59 && PRIMES[17] == 61 && Follows(16);
    assert PRIMES[17] == 61 && PRIMES[18] == 67 && Follows(17);
    assert PRIMES[18] == 67 && PRIMES[19] == 71 && Follows(18);
    assert PRIMES[19] == 71 && PRIMES[20] == 73 && Follows(19);
    hide Follows;
  }

  lemma Gaps20()
    ensures NextPasses(73, 79)
    ensures NextPasses(79, 83)
    ensures NextPasses(83, 89)
    ensures NextPasses(89, 97)
  {
    assert PassesTrial(73) && PassesTrial(79) && PassesTrial(83) && PassesTrial(89);
    assert !PassesTrial(74) && !PassesTrial(75) && !PassesTrial(76) && !PassesTrial(77) && !PassesTrial(78);
    assert !PassesTrial(80) && !PassesTrial(81) && !PassesTrial(82) && !PassesTrial(84) && !PassesTrial(85);
    assert !PassesTrial(86) && !PassesTrial(87) && !PassesTrial(88) && !PassesTrial(90) && !PassesTrial(91);
    assert !PassesTrial(92) && !PassesTrial(93) && !PassesTrial(94) && !PassesTrial(95) && !PassesTrial(96);
    hide PassesTrial;
  }

  lemma Follows20()
    ensures forall t :: 20 <= t < 24 ==> Follows(t)
  {
    hide NextPasses;
    Gaps20();
    assert PRIMES[20] == 73 && PRIMES[21] == 79 && Follows(20);
    assert PRIMES[21] == 79 && PRIMES[22] == 83 && Follows(21);
    assert PRIMES[22] == 83 && PRIMES[23] == 89 && Follows(22);
    assert PRIMES[23] == 89 && PRIMES[24] == 97 && Follows(23);
    hide Follows;
  }

  lemma Gaps24()
    ensures NextPasses(97, 101)
    ensures NextPasses(101, 103)
    ensures NextPasses(103, 107)
    ensures NextPasses(107, 109)
  {
    assert PassesTrial(97) && PassesTrial(101) && PassesTrial(103) && PassesTrial(107);
    assert !PassesTrial(98) && !PassesTrial(99) && !PassesTrial(100) && !PassesTrial(102) && !PassesTrial(104);
    assert !PassesTrial(105) && !PassesTrial(106) && !PassesTrial(108);
    hide PassesTrial;
  }

  lemma Follows24()
    ensures forall t :: 24 <= t < 28 ==> Follows(t)
  {
    hide NextPasses;
    Gaps24();
    assert PRIMES[24] == 97 && PRIMES[25] == 101 && Follows(24);
    assert PRIMES[25] == 101 && PRIMES[26] == 103 && Follows(25);
    assert PRIMES[26] == 103 && PRIMES[27] == 107 && Follows(26);
    assert PRIMES[27] == 107 && PRIMES[28] == 109 && Follows(27);
    hide Follows;
  }

  lemma Gaps28()
    ensures NextPasses(109, 113)
    ensures NextPasses(113, 127)
    ensures NextPasses(127, 131)
    ensures NextPasses(131, 137)
  {
    assert PassesTrial(109) && PassesTrial(113) && PassesTrial(127) && PassesTrial(131);
    assert !PassesTrial(110) && !PassesTrial(111) && !PassesTrial(112) && !PassesTrial(114) && !PassesTrial(115);
    assert !PassesTrial(116) && !PassesTrial(117) && !PassesTrial(118) && !PassesTrial(119) && !PassesTrial(120);
    assert !PassesTrial(121) && !PassesTrial(122) && !PassesTrial(123) && !PassesTrial(124) && !PassesTrial(125);
    assert !PassesTrial(126) && !PassesTrial(128) && !PassesTrial(129) && !PassesTrial(130) && !PassesTrial(132);
    assert !PassesTrial(133) && !PassesTrial(134) && !PassesTrial(135) && !PassesTrial(136);
    hide PassesTrial;
  }

  lemma Follows28()
    ensures forall t :: 28 <= t < 32 ==> Follows(t)
  {
    hide NextPasses;
    Gaps28();
    assert PRIMES[28] == 109 && PRIMES[29] == 113 && Follows(28);
    assert PRIMES[29] == 113 && PRIMES[30] == 127 && Follows(29);
    assert PRIMES[30] == 127 && PRIMES[31] == 131 && Follows(30);
    assert PRIMES[31] == 131 && PRIMES[32] == 137 && Follows(31);
    hide Follows;
  }

  lemma Gaps32()
    ensures NextPasses(137, 139)
    ensures NextPasses(139, 149)
    ensures NextPasses(149, 151)
    ensures NextPasses(151, 157)
  {
    assert PassesTrial(137) && PassesTrial(139) && PassesTrial(149) && PassesTrial(151);
    assert !PassesTrial(138) && !PassesTrial(140) && !PassesTrial(141) && !PassesTrial(142) && !PassesTrial(143);
    assert !PassesTrial(144) && !PassesTrial(145) && !PassesTrial(146) && !PassesTrial(147) && !PassesTrial(148);
    assert !PassesTrial(150) && !PassesTrial(152) && !PassesTrial(153) && !PassesTrial(154) && !PassesTrial(155);
    assert !PassesTrial(156);
    hide PassesTrial;
  }

  lemma Follows32()
    ensures forall t :: 32 <= t < 36 ==> Follows(t)
  {
    hide NextPasses;
    Gaps32();
    assert PRIMES[32] == 137 && PRIMES[33] == 139 && Follows(32);
    assert PRIMES[33] == 139 && PRIMES[34] == 149 && Follows(33);
    assert PRIMES[34] == 149 && PRIMES[35] == 151 && Follows(34);
    assert PRIMES[35] == 151 && PRIMES[36] == 157 && Follows(35);
    hide Follows;
  }

  lemma Gaps36()
    ensures NextPasses(157, 163)
    ensures NextPasses(163, 167)
    ensures NextPasses(167, 173)
    ensures NextPasses(173, 179)
  {
    assert PassesTrial(157) && PassesTrial(163) && PassesTrial(167) && PassesTrial(173);
    assert !PassesTrial(158) && !PassesTrial(159) && !PassesTrial(160) && !PassesTrial(161) && !PassesTrial(162);
    assert !PassesTrial(164) && !PassesTrial(165) && !PassesTrial(166) && !PassesTrial(168) && !PassesTrial(169);
    assert !PassesTrial(170) && !PassesTrial(171) && !PassesTrial(172) && !PassesTrial(174) && !PassesTrial(175);
    assert !PassesTrial(176) && !PassesTrial(177) && !PassesTrial(178);
    hide PassesTrial;
  }

  lemma Follows36()
    ensures forall t :: 36 <= t < 40 ==> Follows(t)
  {
    hide NextPasses;
    Gaps36();
    assert PRIMES[36] == 157 && PRIMES[37] == 163 && Follows(36);
    assert PRIMES[37] == 163 && PRIMES[38] == 167 && Follows(37);
    assert PRIMES[38] == 167 && PRIMES[39] == 173 && Follows(38);
    assert PRIMES[39] == 173 && PRIMES[40] == 179 && Follows(39);
    hide Follows;
  }

  lemma Gaps40()
    ensures NextPasses(179, 181)
    ensures NextPasses(181, 191)
    ensures NextPasses(191, 193)
    ensures NextPasses(193, 197)
  {
    assert PassesTrial(179) && PassesTrial(181) && PassesTrial(191) && PassesTrial(193);
    assert !PassesTrial(180) && !PassesTrial(182) && !PassesTrial(183) && !PassesTrial(184) && !PassesTrial(185);
    assert !PassesTrial(186) && !PassesTrial(187) && !PassesTrial(188) && !PassesTrial(189) && !PassesTrial(190);
    assert !PassesTrial(192) && !PassesTrial(194) && !PassesTrial(195) && !PassesTrial(196);
    hide PassesTrial;
  }

  lemma Follows40()
    ensures forall t :: 40 <= t < 44 ==> Follows(t)
  {
    hide NextPasses;
    Gaps40();
    assert PRIMES[40] == 179 && PRIMES[41] == 181 && Follows(40);
    assert PRIMES[41] == 181 && PRIMES[42] == 191 && Follows(41);
    assert PRIMES[42] == 191 && PRIMES[43] == 193 && Follows(42);
    assert PRIMES[43] == 193 && PRIMES[44] == 197 && Follows(43);
    hide Follows;
  }

  lemma Gaps44()
    ensures NextPasses(197, 199)
    ensures NextPasses(199, 211)
    ensures NextPasses(211, 223)
    ensures NextPasses(223, 227)
  {
    assert PassesTrial(197) && PassesTrial(199) && PassesTrial(211) && PassesTrial(223);
    assert !PassesTrial(198) && !PassesTrial(200) && !PassesTrial(201) && !PassesTrial(202) && !PassesTrial(203);
    assert !PassesTrial(204) && !PassesTrial(205) && !PassesTrial(206) && !PassesTrial(207) && !PassesTrial(208);
    assert !PassesTrial(209) && !PassesTrial(210) && !PassesTrial(212) && !PassesTrial(213) && !PassesTrial(214);
    assert !PassesTrial(215) && !PassesTrial(216) && !PassesTrial(217) && !PassesTrial(218) && !PassesTrial(219);
    assert !PassesTrial(220) && !PassesTrial(221) && !PassesTrial(222) && !PassesTrial(224) && !PassesTrial(225);
    assert !PassesTrial(226);
    hide PassesTrial;
  }

  lemma Follows44()
    ensures forall t :: 44 <= t < 48 ==> Follows(t)
  {
    hide NextPasses;
    Gaps44();
    assert PRIMES[44] == 197 && PRIMES[45] == 199 && Follows(44);
    assert PRIMES[45] == 199 && PRIMES[46] == 211 && Follows(45);
    assert PRIMES[46] == 211 && PRIMES[47] == 223 && Follows(46);
    assert PRIMES[47] == 223 && PRIMES[48] == 227 && Follows(47);
    hide Follows;
  }

  lemma Gaps48()
    ensures NextPasses(227, 229)
    ensures NextPasses(229, 233)
    ensures NextPasses(233, 239)
    ensures NextPasses(239, 241)
  {
    assert PassesTrial(227) && PassesTrial(229) && PassesTrial(233) && PassesTrial(239);
    assert !PassesTrial(228) && !PassesTrial(230) && !PassesTrial(231) && !PassesTrial(232) && !PassesTrial(234);
    assert !PassesTrial(235) && !PassesTrial(236) && !PassesTrial(237) && !PassesTrial(238) && !PassesTrial(240);
    hide PassesTrial;
  }

  lemma Follows48()
    ensures forall t :: 48 <= t < 52 ==> Follows(t)
  {
    hide NextPasses;
    Gaps48();
    assert PRIMES[48] == 227 && PRIMES[49] == 229 && Follows(48);
    assert PRIMES[49] == 229 && PRIMES[50] == 233 && Follows(49);
    assert PRIMES[50] == 233 && PRIMES[51] == 239 && Follows(50);
    assert PRIMES[51] == 239 && PRIMES[52] == 241 && Follows(51);
    hide Follows;
  }

  lemma Gaps52()
    ensures NextPasses(241, 251)
    ensures NextPasses(251, 257)
    ensures NextPasses(257, 263)
    ensures NextPasses(263, 269)
  {
    assert PassesTrial(241) && PassesTrial(251) && PassesTrial(257) && PassesTrial(263);
    assert !PassesTrial(242) && !PassesTrial(243) && !PassesTrial(244) && !PassesTrial(245) && !PassesTrial(246);
    assert !PassesTrial(247) && !PassesTrial(248) && !PassesTrial(249) && !PassesTrial(250) && !PassesTrial(252);
    assert !PassesTrial(253) && !PassesTrial(254) && !PassesTrial(255) && !PassesTrial(256) && !PassesTrial(258);
    assert !PassesTrial(259) && !PassesTrial(260) && !PassesTrial(261) && !PassesTrial(262) && !PassesTrial(264);
    assert !PassesTrial(265) && !PassesTrial(266) && !PassesTrial(267) && !PassesTrial(268);
    hide PassesTrial;
  }

  lemma Follows52()
    ensures forall t :: 52 <= t < 56 ==> Follows(t)
  {
    hide NextPasses;
    Gaps52();
    assert PRIMES[52] == 241 && PRIMES[53] == 251 && Follows(52);
    assert PRIMES[53] == 251 && PRIMES[54] == 257 && Follows(53);
    assert PRIMES[54] == 257 && PRIMES[55] == 263 && Follows(54);
    assert PRIMES[55] == 263 && PRIMES[56] == 269 && Follows(55);
    hide Follows;
  }

  lemma Gaps56()
    ensures NextPasses(269, 271)
    ensures NextPasses(271, 277)
    ensures NextPasses(277, 281)
    ensures NextPasses(281, 283)
  {
    assert PassesTrial(269) && PassesTrial(271) && PassesTrial(277) && PassesTrial(281);
    assert !PassesTrial(270) && !PassesTrial(272) && !PassesTrial(273) && !PassesTrial(274) && !PassesTrial(275);
    assert !PassesTrial(276) && !PassesTrial(278) && !PassesTrial(279) && !PassesTrial(280) && !PassesTrial(282);
    hide PassesTrial;
  }

  lemma Follows56()
    ensures forall t :: 56 <= t < 60 ==> Follows(t)
  {
    hide NextPasses;
    Gaps56();
    assert PRIMES[56] == 269 && PRIMES[57] == 271 && Follows(56);
    assert PRIMES[57] == 271 && PRIMES[58] == 277 && Follows(57);
    assert PRIMES[58] == 277 && PRIMES[59] == 281 && Follows(58);
    assert PRIMES[59] == 281 && PRIMES[60] == 283 && Follows(59);
    hide Follows;
  }

  lemma Gaps60()
    ensures NextPasses(283, 293)
    ensures NextPasses(293, 307)
    ensures NextPasses(307, 311)
  {
    assert PassesTrial(283) && PassesTrial(293) && PassesTrial(307);
    assert !PassesTrial(284) && !PassesTrial(285) && !PassesTrial(286) && !PassesTrial(287) && !PassesTrial(288);
    assert !PassesTrial(289) && !PassesTrial(290) && !PassesTrial(291) && !PassesTrial(292) && !PassesTrial(294);
    assert !PassesTrial(295) && !PassesTrial(296) && !PassesTrial(297) && !PassesTrial(298) && !PassesTrial(299);
    assert !PassesTrial(300) && !PassesTrial(301) && !PassesTrial(302) && !PassesTrial(303) && !PassesTrial(304);
    assert !PassesTrial(305) && !PassesTrial(306) && !PassesTrial(308) && !PassesTrial(309) && !PassesTrial(310);
    hide PassesTrial;
  }

  lemma Follows60()
    ensures forall t :: 60 <= t < 63 ==> Follows(t)
  {
    hide NextPasses;
    Gaps60();
    assert PRIMES[60] == 283 && PRIMES[61] == 293 && Follows(60);
    assert PRIMES[61] == 293 && PRIMES[62] == 307 && Follows(61);
    assert PRIMES[62] == 307 && PRIMES[63] == 311 && Follows(62);
    hide Follows;
  }

  /** The table holds the first 64 primes: the first is 2, each is prime, and none lies between two neighbours. */
  lemma PrimesAreFirst(t: nat)
    requires t < 63
    ensures PRIMES[0] == 2 && |PRIMES| == 64
    ensures PRIMES[t] < PRIMES[t+1] && IsPrime(PRIMES[t]) && forall n :: PRIMES[t] < n < PRIMES[t+1] ==> !IsPrime(n)
    ensures t == 62 ==> IsPrime(PRIMES[t+1])
  {
    assert Follows(t) by {
      hide Follows;
      Follows0();
      Follows4();
      Follows8();
      Follows12();
      Follows16();
      Follows20();
      Follows24();
      Follows28();
      Follows32();
      Follows36();
      Follows40();
      Follows44();
      Follows48();
      Follows52();
      Follows56();
      Follows60();
    }
    var p, q := PRIMES[t], PRIMES[t+1];
    hide PRIMES;
    TrialDecides(p);
    forall n | p < n < q
      ensures !IsPrime(n)
    {
      TrialDecides(n);
    }
    TrialDecides(q);
  }

  // ------------------------------------------------------------------ the constants

  /** The first 32 bits of the fractional part of the cube root of p: c is the root times 2^32, rounded down. */
  predicate CubeRootBits(p: nat, c: nat, word: Word) {
    && c * c * c <= p * 0x1_0000_0000_0000_0000_0000_0000 < (c + 1) * (c + 1) * (c + 1)
    && word as int == c % 0x1_0000_0000
  }

  /** The first 32 bits of the fractional part of the square root of p. */
  predicate SquareRootBits(p: nat, c: nat, word: Word) {
    && c * c <= p * 0x1_0000_0000_0000_0000 < (c + 1) * (c + 1)
    && word as int == c % 0x1_0000_0000
  }

  ghost predicate RoundConstant(t: nat) {
    t < 64 && exists c :: CubeRootBits(PRIMES[t], c, K[t])
  }

  lemma Constants0()
    ensures forall t :: 0 <= t < 4 ==> RoundConstant(t)
  {
    assert PRIMES[0] == 2 && K[0] == 0x428a2f98;
    assert CubeRootBits(2, 0x1_428a2f98, 0x428a2f98);
    assert RoundConstant(0);
    assert PRIMES[1] == 3 && K[1] == 0x71374491;
    assert CubeRootBits(3, 0x1_71374491, 0x71374491);
    assert RoundConstant(1);
    assert PRIMES[2] == 5 && K[2] == 0xb5c0fbcf;
    assert CubeRootBits(5, 0x1_b5c0fbcf, 0xb5c0fbcf);
    assert RoundConstant(2);
    assert PRIMES[3] == 7 && K[3] == 0xe9b5dba5;
    assert CubeRootBits(7, 0x1_e9b5dba5, 0xe9b5dba5);
    assert RoundConstant(3);
    hide RoundConstant;
  }

  lemma Constants4()
    ensures forall t :: 4 <= t < 8 ==> RoundConstant(t)
  {
    assert PRIMES[4] == 11 && K[4] == 0x3956c25b;
    assert CubeRootBits(11, 0x2_3956c25b, 0x3956c25b);
    assert RoundConstant(4);
    assert PRIMES[5] == 13 && K[5] == 0x59f111f1;
    assert CubeRootBits(13, 0x2_59f111f1, 0x59f111f1);
    assert RoundConstant(5);
    assert PRIMES[6] == 17 && K[6] == 0x923f82a4;
    assert CubeRootBits(17, 0x2_923f82a4, 0x923f82a4);
    assert RoundConstant(6);
    assert PRIMES[7] == 19 && K[7] == 0xab1c5ed5;
    assert CubeRootBits(19, 0x2_ab1c5ed5, 0xab1c5ed5);
    assert RoundConstant(7);
    hide RoundConstant;
  }

  lemma Constants8()
    ensures forall t :: 8 <= t < 12 ==> RoundConstant(t)
  {
    assert PRIMES[8] == 23 && K[8] == 0xd807aa98;
    assert CubeRootBits(23, 0x2_d807aa98, 0xd807aa98);
    assert RoundConstant(8);
    assert PRIMES[9] == 29 && K[9] == 0x12835b01;
    assert CubeRootBits(29, 0x3_12835b01, 0x12835b01);
    assert RoundConstant(9);
    assert PRIMES[10] == 31 && K[10] == 0x243185be;
    assert CubeRootBits(31, 0x3_243185be, 0x243185be);
    assert RoundConstant(10);
    assert PRIMES[11] == 37 && K[11] == 0x550c7dc3;
    assert CubeRootBits(37, 0x3_550c7dc3, 0x550c7dc3);
    assert RoundConstant(11);
    hide RoundConstant;
  }

  lemma Constants12()
    ensures forall t :: 12 <= t < 16 ==> RoundConstant(t)
  {
    assert PRIMES[12] == 41 && K[12] == 0x72be5d74;
    assert CubeRootBits(41, 0x3_72be5d74, 0x72be5d74);
    assert RoundConstant(12);
    assert PRIMES[13] == 43 && K[13] == 0x80deb1fe;
    assert CubeRootBits(43, 0x3_80deb1fe, 0x80deb1fe);
    assert RoundConstant(13);
    assert PRIMES[14] == 47 && K[14] == 0x9bdc06a7;
    assert CubeRootBits(47, 0x3_9bdc06a7, 0x9bdc06a7);
    assert RoundConstant(14);
    assert PRIMES[15] == 53 && K[15] == 0xc19bf174;
    assert CubeRootBits(53, 0x3_c19bf174, 0xc19bf174);
    assert RoundConstant(15);
    hide RoundConstant;
  }

  lemma Constants16()
    ensures forall t :: 16 <= t < 20 ==> RoundConstant(t)
  {
    assert PRIMES[16] == 59 && K[16] == 0xe49b69c1;
    assert CubeRootBits(59, 0x3_e49b69c1, 0xe49b69c1);
    assert RoundConstant(16);
    assert PRIMES[17] == 61 && K[17] == 0xefbe4786;
    assert CubeRootBits(61, 0x3_efbe4786, 0xefbe4786);
    assert RoundConstant(17);
    assert PRIMES[18] == 67 && K[18] == 0x0fc19dc6;
    assert CubeRootBits(67, 0x4_0fc19dc6, 0x0fc19dc6);
    assert RoundConstant(18);
    assert PRIMES[19] == 71 && K[19] == 0x240ca1cc;
    assert CubeRootBits(71, 0x4_240ca1cc, 0x240ca1cc);
    assert RoundConstant(19);
    hide RoundConstant;
  }

  lemma Constants20()
    ensures forall t :: 20 <= t < 24 ==> RoundConstant(t)
  {
    assert PRIMES[20] == 73 && K[20] == 0x2de92c6f;
    assert CubeRootBits(73, 0x4_2de92c6f, 0x2de92c6f);
    assert RoundConstant(20);
    assert PRIMES[21] == 79 && K[21] == 0x4a7484aa;
    assert CubeRootBits(79, 0x4_4a7484aa, 0x4a7484aa);
    assert RoundConstant(21);
    assert PRIMES[22] == 83 && K[22] == 0x5cb0a9dc;
    assert CubeRootBits(83, 0x4_5cb0a9dc, 0x5cb0a9dc);
    assert RoundConstant(22);
    assert PRIMES[23] == 89 && K[23] == 0x76f988da;
    assert CubeRootBits(89, 0x4_76f988da, 0x76f988da);
    assert RoundConstant(23);
    hide RoundConstant;
  }

  lemma Constants24()
    ensures forall t :: 24 <= t < 28 ==> RoundConstant(t)
  {
    assert PRIMES[24] == 97 && K[24] == 0x983e5152;
    assert CubeRootBits(97, 0x4_983e5152, 0x983e5152);
    assert RoundConstant(24);
    assert PRIMES[25] == 101 && K[25] == 0xa831c66d;
    assert CubeRootBits(101, 0x4_a831c66d, 0xa831c66d);
    assert RoundConstant(25);
    assert PRIMES[26] == 103 && K[26] == 0xb00327c8;
    assert CubeRootBits(103, 0x4_b00327c8, 0xb00327c8);
    assert RoundConstant(26);
    assert PRIMES[27] == 107 && K[27] == 0xbf597fc7;
    assert CubeRootBits(107, 0x4_bf597fc7, 0xbf597fc7);
    assert RoundConstant(27);
    hide RoundConstant;
  }

  lemma Constants28()
    ensures forall t :: 28 <= t < 32 ==> RoundConstant(t)
  {
    assert PRIMES[28] == 109 && K[28] == 0xc6e00bf3;
    assert CubeRootBits(109, 0x4_c6e00bf3, 0xc6e00bf3);
    assert RoundConstant(28);
    assert PRIMES[29] == 113 && K[29] == 0xd5a79147;
    assert CubeRootBits(113, 0x4_d5a79147, 0xd5a79147);
    assert RoundConstant(29);
    assert PRIMES[30] == 127 && K[30] == 0x06ca6351;
    assert CubeRootBits(127, 0x5_06ca6351, 0x06ca6351);
    assert RoundConstant(30);
    assert PRIMES[31] == 131 && K[31] == 0x14292967;
    assert CubeRootBits(131, 0x5_14292967, 0x14292967);
    assert RoundConstant(31);
    hide RoundConstant;
  }

  lemma Constants32()
    ensures forall t :: 32 <= t < 36 ==> RoundConstant(t)
  {
    assert PRIMES[32] == 137 && K[32] == 0x27b70a85;
    assert CubeRootBits(137, 0x5_27b70a85, 0x27b70a85);
    assert RoundConstant(32);
    assert PRIMES[33] == 139 && K[33] == 0x2e1b2138;
    assert CubeRootBits(139, 0x5_2e1b2138, 0x2e1b2138);
    assert RoundConstant(33);
    assert PRIMES[34] == 149 && K[34] == 0x4d2c6dfc;
    assert CubeRootBits(149, 0x5_4d2c6dfc, 0x4d2c6dfc);
    assert RoundConstant(34);
    assert PRIMES[35] == 151 && K[35] == 0x53380d13;
    assert CubeRootBits(151, 0x5_53380d13, 0x53380d13);
    assert RoundConstant(35);
    hide RoundConstant;
  }

  lemma Constants36()
    ensures forall t :: 36 <= t < 40 ==> RoundConstant(t)
  {
    assert PRIMES[36] == 157 && K[36] == 0x650a7354;
    assert CubeRootBits(157, 0x5_650a7354, 0x650a7354);
    assert RoundConstant(36);
    assert PRIMES[37] == 163 && K[37] == 0x766a0abb;
    assert CubeRootBits(163, 0x5_766a0abb, 0x766a0abb);
    assert RoundConstant(37);
    assert PRIMES[38] == 167 && K[38] == 0x81c2c92e;
    assert CubeRootBits(167, 0x5_81c2c92e, 0x81c2c92e);
    assert RoundConstant(38);
    assert PRIMES[39] == 173 && K[39] == 0x92722c85;
    assert CubeRootBits(173, 0x5_92722c85, 0x92722c85);
    assert RoundConstant(39);
    hide RoundConstant;
  }

  lemma Constants40()
    ensures forall t :: 40 <= t < 44 ==> RoundConstant(t)
  {
    assert PRIMES[40] == 179 && K[40] == 0xa2bfe8a1;
    assert CubeRootBits(179, 0x5_a2bfe8a1, 0xa2bfe8a1);
    assert RoundConstant(40);
    assert PRIMES[41] == 181 && K[41] == 0xa81a664b;
    assert CubeRootBits(181, 0x5_a81a664b, 0xa81a664b);
    assert RoundConstant(41);
    assert PRIMES[42] == 191 && K[42] == 0xc24b8b70;
    assert CubeRootBits(191, 0x5_c24b8b70, 0xc24b8b70);
    assert RoundConstant(42);
    assert PRIMES[43] == 193 && K[43] == 0xc76c51a3;
    assert CubeRootBits(193, 0x5_c76c51a3, 0xc76c51a3);
    assert RoundConstant(43);
    hide RoundConstant;
  }

  lemma Constants44()
    ensures forall t :: 44 <= t < 48 ==> RoundConstant(t)
  {
    assert PRIMES[44] == 197 && K[44] == 0xd192e819;
    assert CubeRootBits(197, 0x5_d192e819, 0xd192e819);
    assert RoundConstant(44);
    assert PRIMES[45] == 199 && K[45] == 0xd6990624;
    assert CubeRootBits(199, 0x5_d6990624, 0xd6990624);
    assert RoundConstant(45);
    assert PRIMES[46] == 211 && K[46] == 0xf40e3585;
    assert CubeRootBits(211, 0x5_f40e3585, 0xf40e3585);
    assert RoundConstant(46);
    assert PRIMES[47] == 223 && K[47] == 0x106aa070;
    assert CubeRootBits(223, 0x6_106aa070, 0x106aa070);
    assert RoundConstant(47);
    hide RoundConstant;
  }

  lemma Constants48()
    ensures forall t :: 48 <= t < 52 ==> RoundConstant(t)
  {
    assert PRIMES[48] == 227 && K[48] == 0x19a4c116;
    assert CubeRootBits(227, 0x6_19a4c116, 0x19a4c116);
    assert RoundConstant(48);
    assert PRIMES[49] == 229 && K[49] == 0x1e376c08;
    assert CubeRootBits(229, 0x6_1e376c08, 0x1e376c08);
    assert RoundConstant(49);
    assert PRIMES[50] == 233 && K[50] == 0x2748774c;
    assert CubeRootBits(233, 0x6_2748774c, 0x2748774c);
    assert RoundConstant(50);
    assert PRIMES[51] == 239 && K[51] == 0x34b0bcb5;
    assert CubeRootBits(239, 0x6_34b0bcb5, 0x34b0bcb5);
    assert RoundConstant(51);
    hide RoundConstant;
  }

  lemma Constants52()
    ensures forall t :: 52 <= t < 56 ==> RoundConstant(t)
  {
    assert PRIMES[52] == 241 && K[52] == 0x391c0cb3;
    assert CubeRootBits(241, 0x6_391c0cb3, 0x391c0cb3);
    assert RoundConstant(52);
    assert PRIMES[53] == 251 && K[53] == 0x4ed8aa4a;
    assert CubeRootBits(251, 0x6_4ed8aa4a, 0x4ed8aa4a);
    assert RoundConstant(53);
    assert PRIMES[54] == 257 && K[54] == 0x5b9cca4f;
    assert CubeRootBits(257, 0x6_5b9cca4f, 0x5b9cca4f);
    assert RoundConstant(54);
    assert PRIMES[55] == 263 && K[55] == 0x682e6ff3;
    assert CubeRootBits(263, 0x6_682e6ff3, 0x682e6ff3);
    assert RoundConstant(55);
    hide RoundConstant;
  }

  lemma Constants56()
    ensures forall t :: 56 <= t < 60 ==> RoundConstant(t)
  {
    assert PRIMES[56] == 269 && K[56] == 0x748f82ee;
    assert CubeRootBits(269, 0x6_748f82ee, 0x748f82ee);
    assert RoundConstant(56);
    assert PRIMES[57] == 271 && K[57] == 0x78a5636f;
    assert CubeRootBits(271, 0x6_78a5636f, 0x78a5636f);
    assert RoundConstant(57);
    assert PRIMES[58] == 277 && K[58] == 0x84c87814;
    assert CubeRootBits(277, 0x6_84c87814, 0x84c87814);
    assert RoundConstant(58);
    assert PRIMES[59] == 281 && K[59] == 0x8cc70208;
    assert CubeRootBits(281, 0x6_8cc70208, 0x8cc70208);
    assert RoundConstant(59);
    hide RoundConstant;
  }

  lemma Constants60()
    ensures forall t :: 60 <= t < 64 ==> RoundConstant(t)
  {
    assert PRIMES[60] == 283 && K[60] == 0x90befffa;
    assert CubeRootBits(283, 0x6_90befffa, 0x90befffa);
    assert RoundConstant(60);
    assert PRIMES[61] == 293 && K[61] == 0xa4506ceb;
    assert CubeRootBits(293, 0x6_a4506ceb, 0xa4506ceb);
    assert RoundConstant(61);
    assert PRIMES[62] == 307 && K[62] == 0xbef9a3f7;
    assert CubeRootBits(307, 0x6_bef9a3f7, 0xbef9a3f7);
    assert RoundConstant(62);
    assert PRIMES[63] == 311 && K[63] == 0xc67178f2;
    assert CubeRootBits(311, 0x6_c67178f2, 0xc67178f2);
    assert RoundConstant(63);
    hide RoundConstant;
  }

  /** Every round constant is taken from the cube root of its prime. */
  lemma RoundConstantsAreCubeRoots(t: nat)
    requires t < 64
    ensures |K| == 64 && exists c :: CubeRootBits(PRIMES[t], c, K[t])
  {
    assert RoundConstant(t) by {
      hide RoundConstant;
      Constants0();
      Constants4();
      Constants8();
      Constants12();
      Constants16();
      Constants20();
      Constants24();
      Constants28();
      Constants32();
      Constants36();
      Constants40();
      Constants44();
      Constants48();
      Constants52();
      Constants56();
      Constants60();
    }
  }

  /** The initial hash value is taken from the square roots of the first eight primes. */
  lemma InitialHashIsSquareRoots()
    ensures exists c :: SquareRootBits(2, c, H0.a)
    ensures exists c :: SquareRootBits(3, c, H0.b)
    ensures exists c :: SquareRootBits(5, c, H0.c)
    ensures exists c :: SquareRootBits(7, c, H0.d)
    ensures exists c :: SquareRootBits(11, c, H0.e)
    ensures exists c :: SquareRootBits(13, c, H0.f)
    ensures exists c :: SquareRootBits(17, c, H0.g)
    ensures exists c :: SquareRootBits(19, c, H0.h)
  {
    assert SquareRootBits(2, 0x1_6a09e667, H0.a);
    assert SquareRootBits(3, 0x1_bb67ae85, H0.b);
    assert SquareRootBits(5, 0x2_3c6ef372, H0.c);
    assert SquareRootBits(7, 0x2_a54ff53a, H0.d);
    assert SquareRootBits(11, 0x3_510e527f, H0.e);
    assert SquareRootBits(13, 0x3_9b05688c, H0.f);
    assert SquareRootBits(17, 0x4_1f83d9ab, H0.g);
    assert SquareRootBits(19, 0x4_5be0cd19, H0.h);
  }
}
