/**
 * The probability estimation state machine that the arithmetic encoder and decoder share:
 * Table D.3 of ITU-T T.81 plus a last row that never adapts.
 */
module ProbabilityTable {

  /** The size of the less probable symbol's sub-interval and the two successor states. */
  datatype AnyRow = Row(qe: int, nextLps: nat, nextMps: nat, switchMps: nat)

  /** What the coders rely on: a non-empty sub-interval below half of the scale, successors inside the table. */
  type Row = r: AnyRow | 1 <= r.qe <= 0x5b12 && r.nextLps < 114 && r.nextMps < 114 && r.switchMps < 2
    witness Row(1, 0, 0, 0)

  /** One statistics bin: a row number and the sense of the more probable symbol. */
  datatype Stat = Stat(index: nat, mps: nat)

  const FIXED_ROW := 113

  function V(qe: int, nextLps: nat, nextMps: nat, switchMps: nat): Row
    requires 1 <= qe <= 0x5b12 && nextLps < 114 && nextMps < 114 && switchMps < 2
  {
    Row(qe, nextLps, nextMps, switchMps)
  }

  const ROWS_0: seq<Row> := [
    V(0x5a1d, 1, 1, 1), V(0x2586, 14, 2, 0), V(0x1114, 16, 3, 0), V(0x080b, 18, 4, 0),
    V(0x03d8, 20, 5, 0), V(0x01da, 23, 6, 0), V(0x00e5, 25, 7, 0), V(0x006f, 28, 8, 0),
    V(0x0036, 30, 9, 0), V(0x001a, 33, 10, 0), V(0x000d, 35, 11, 0), V(0x0006, 9, 12, 0),
    V(0x0003, 10, 13, 0), V(0x0001, 12, 13, 0), V(0x5a7f, 15, 15, 1), V(0x3f25, 36, 16, 0),
    V(0x2cf2, 38, 17, 0), V(0x207c, 39, 18, 0), V(0x17b9, 40, 19, 0)
  ]

  const ROWS_19: seq<Row> := [
    V(0x1182, 42, 20, 0), V(0x0cef, 43, 21, 0), V(0x09a1, 45, 22, 0), V(0x072f, 46, 23, 0),
    V(0x055c, 48, 24, 0), V(0x0406, 49, 25, 0), V(0x0303, 51, 26, 0), V(0x0240, 52, 27, 0),
    V(0x01b1, 54, 28, 0), V(0x0144, 56, 29, 0), V(0x00f5, 57, 30, 0), V(0x00b7, 59, 31, 0),
    V(0x008a, 60, 32, 0), V(0x0068, 62, 33, 0), V(0x004e, 63, 34, 0), V(0x003b, 32, 35, 0),
    V(0x002c, 33, 9, 0), V(0x5ae1, 37, 37, 1), V(0x484c, 64, 38, 0)
  ]

  const ROWS_38: seq<Row> := [
    V(0x3a0d, 65, 39, 0), V(0x2ef1, 67, 40, 0), V(0x261f, 68, 41, 0), V(0x1f33, 69, 42, 0),
    V(0x19a8, 70, 43, 0), V(0x1518, 72, 44, 0), V(0x1177, 73, 45, 0), V(0x0e74, 74, 46, 0),
    V(0x0bfb, 75, 47, 0), V(0x09f8, 77, 48, 0), V(0x0861, 78, 49, 0), V(0x0706, 79, 50, 0),
    V(0x05cd, 48, 51, 0), V(0x04de, 50, 52, 0), V(0x040f, 50, 53, 0), V(0x0363, 51, 54, 0),
    V(0x02d4, 52, 55, 0), V(0x025c, 53, 56, 0), V(0x01f8, 54, 57, 0)
  ]

  const ROWS_57: seq<Row> := [
    V(0x01a4, 55, 58, 0), V(0x0160, 56, 59, 0), V(0x0125, 57, 60, 0), V(0x00f6, 58, 61, 0),
    V(0x00cb, 59, 62, 0), V(0x00ab, 61, 63, 0), V(0x008f, 61, 32, 0), V(0x5b12, 65, 65, 1),
    V(0x4d04, 80, 66, 0), V(0x412c, 81, 67, 0), V(0x37d8, 82, 68, 0), V(0x2fe8, 83, 69, 0),
    V(0x293c, 84, 70, 0), V(0x2379, 86, 71, 0), V(0x1edf, 87, 72, 0), V(0x1aa9, 87, 73, 0),
    V(0x174e, 72, 74, 0), V(0x1424, 72, 75, 0), V(0x119c, 74, 76, 0)
  ]

  const ROWS_76: seq<Row> := [
    V(0x0f6b, 74, 77, 0), V(0x0d51, 75, 78, 0), V(0x0bb6, 77, 79, 0), V(0x0a40, 77, 48, 0),
    V(0x5832, 80, 81, 1), V(0x4d1c, 88, 82, 0), V(0x438e, 89, 83, 0), V(0x3bdd, 90, 84, 0),
    V(0x34ee, 91, 85, 0), V(0x2eae, 92, 86, 0), V(0x299a, 93, 87, 0), V(0x2516, 86, 71, 0),
    V(0x5570, 88, 89, 1), V(0x4ca9, 95, 90, 0), V(0x44d9, 96, 91, 0), V(0x3e22, 97, 92, 0),
    V(0x3824, 99, 93, 0), V(0x32b4, 99, 94, 0), V(0x2e17, 93, 86, 0)
  ]

  const ROWS_95: seq<Row> := [
    V(0x56a8, 95, 96, 1), V(0x4f46, 101, 97, 0), V(0x47e5, 102, 98, 0), V(0x41cf, 103, 99, 0),
    V(0x3c3d, 104, 100, 0), V(0x375e, 99, 93, 0), V(0x5231, 105, 102, 0), V(0x4c0f, 106, 103, 0),
    V(0x4639, 107, 104, 0), V(0x415e, 103, 99, 0), V(0x5627, 105, 106, 1), V(0x50e7, 108, 107, 0),
    V(0x4b85, 109, 103, 0), V(0x5597, 110, 109, 0), V(0x504f, 111, 107, 0), V(0x5a10, 110, 111, 1),
    V(0x5522, 112, 109, 0), V(0x59eb, 112, 111, 1), V(0x5a1d, 113, 113, 0)
  ]

  /** jpeg_aritab[i] */
  function At(i: nat): Row
    requires i < 114
  {
    if i < 19 then ROWS_0[i]
    else if i < 38 then ROWS_19[i - 19]
    else if i < 57 then ROWS_38[i - 38]
    else if i < 76 then ROWS_57[i - 57]
    else if i < 95 then ROWS_76[i - 76]
    else ROWS_95[i - 95]
  }

  predicate GoodStat(s: Stat) {
    s.index < 114 && s.mps < 2
  }

  function RowOf(s: Stat): Row
    requires GoodStat(s)
  {
    At(s.index)
  }

  /** Estimate_after_LPS: the sense of the more probable symbol may flip. */
  function AfterLps(s: Stat): (t: Stat)
    requires GoodStat(s)
    ensures GoodStat(t)
  {
    var r := RowOf(s);
    Stat(r.nextLps, if r.switchMps == 1 then 1 - s.mps else s.mps)
  }

  /** Estimate_after_MPS. */
  function AfterMps(s: Stat): (t: Stat)
    requires GoodStat(s)
    ensures GoodStat(t)
  {
    Stat(RowOf(s).nextMps, s.mps)
  }

  // ---- What adaptation means

  /** The row that expects a symbol to be as rare as can be. */
  const LAST_ROW := 13

  /**
   * The more probable symbol makes the other one rarer, as far as that goes. The less probable symbol is not so rare
   * afterwards, and if it cannot become less rare the two change places. No row leads to the one that does not adapt.
   */
  predicate Learns(i: nat)
    requires i < FIXED_ROW
  {
    var r := At(i);
    && r.nextMps < FIXED_ROW && r.nextLps < FIXED_ROW
    && (if i == LAST_ROW then r.nextMps == i && r.qe == 1 else At(r.nextMps).qe < r.qe)
    && At(r.nextMps).qe <= At(r.nextLps).qe
    && (r.switchMps == 1 <==> At(r.nextLps).qe <= r.qe)
  }

  lemma Rows0()
    ensures Learns(0) && Learns(1) && Learns(2) && Learns(3) && Learns(4) && Learns(5) && Learns(6)
    ensures Learns(7) && Learns(8) && Learns(9) && Learns(10) && Learns(11) && Learns(12) && Learns(13)
    ensures Learns(14) && Learns(15) && Learns(16) && Learns(17) && Learns(18)
  {
    assert At(0) == ROWS_0[0] && At(1) == ROWS_0[1] && At(2) == ROWS_0[2] && At(3) == ROWS_0[3];
    assert At(4) == ROWS_0[4] && At(5) == ROWS_0[5] && At(6) == ROWS_0[6] && At(7) == ROWS_0[7];
    assert At(8) == ROWS_0[8] && At(9) == ROWS_0[9] && At(10) == ROWS_0[10] && At(11) == ROWS_0[11];
    assert At(12) == ROWS_0[12] && At(13) == ROWS_0[13] && At(14) == ROWS_0[14] && At(15) == ROWS_0[15];
    assert At(16) == ROWS_0[16] && At(17) == ROWS_0[17] && At(18) == ROWS_0[18];
  }

  lemma Rows0Learn(i: nat)
    requires 0 <= i < 19
    ensures Learns(i) == true
  {
    Rows0();
  }

  lemma Rows19()
    ensures Learns(19) && Learns(20) && Learns(21) && Learns(22) && Learns(23) && Learns(24) && Learns(25)
    ensures Learns(26) && Learns(27) && Learns(28) && Learns(29) && Learns(30) && Learns(31) && Learns(32)
    ensures Learns(33) && Learns(34) && Learns(35) && Learns(36) && Learns(37)
  {
    assert At(19) == ROWS_19[0] && At(20) == ROWS_19[1] && At(21) == ROWS_19[2] && At(22) == ROWS_19[3];
    assert At(23) == ROWS_19[4] && At(24) == ROWS_19[5] && At(25) == ROWS_19[6] && At(26) == ROWS_19[7];
    assert At(27) == ROWS_19[8] && At(28) == ROWS_19[9] && At(29) == ROWS_19[10] && At(30) == ROWS_19[11];
    assert At(31) == ROWS_19[12] && At(32) == ROWS_19[13] && At(33) == ROWS_19[14] && At(34) == ROWS_19[15];
    assert At(35) == ROWS_19[16] && At(36) == ROWS_19[17] && At(37) == ROWS_19[18];
  }

  lemma Rows19Learn(i: nat)
    requires 19 <= i < 38
    ensures Learns(i) == true
  {
    Rows19();
  }

  lemma Rows38()
    ensures Learns(38) && Learns(39) && Learns(40) && Learns(41) && Learns(42) && Learns(43) && Learns(44)
    ensures Learns(45) && Learns(46) && Learns(47) && Learns(48) && Learns(49) && Learns(50) && Learns(51)
    ensures Learns(52) && Learns(53) && Learns(54) && Learns(55) && Learns(56)
  {
    assert At(38) == ROWS_38[0] && At(39) == ROWS_38[1] && At(40) == ROWS_38[2] && At(41) == ROWS_38[3];
    assert At(42) == ROWS_38[4] && At(43) == ROWS_38[5] && At(44) == ROWS_38[6] && At(45) == ROWS_38[7];
    assert At(46) == ROWS_38[8] && At(47) == ROWS_38[9] && At(48) == ROWS_38[10] && At(49) == ROWS_38[11];
    assert At(50) == ROWS_38[12] && At(51) == ROWS_38[13] && At(52) == ROWS_38[14] && At(53) == ROWS_38[15];
    assert At(54) == ROWS_38[16] && At(55) == ROWS_38[17] && At(56) == ROWS_38[18];
  }

  lemma Rows38Learn(i: nat)
    requires 38 <= i < 57
    ensures Learns(i) == true
  {
    Rows38();
  }

  lemma Rows57()
    ensures Learns(57) && Learns(58) && Learns(59) && Learns(60) && Learns(61) && Learns(62) && Learns(63)
    ensures Learns(64) && Learns(65) && Learns(66) && Learns(67) && Learns(68) && Learns(69) && Learns(70)
    ensures Learns(71) && Learns(72) && Learns(73) && Learns(74) && Learns(75)
  {
    assert At(57) == ROWS_57[0] && At(58) == ROWS_57[1] && At(59) == ROWS_57[2] && At(60) == ROWS_57[3];
    assert At(61) == ROWS_57[4] && At(62) == ROWS_57[5] && At(63) == ROWS_57[6] && At(64) == ROWS_57[7];
    assert At(65) == ROWS_57[8] && At(66) == ROWS_57[9] && At(67) == ROWS_57[10] && At(68) == ROWS_57[11];
    assert At(69) == ROWS_57[12] && At(70) == ROWS_57[13] && At(71) == ROWS_57[14] && At(72) == ROWS_57[15];
    assert At(73) == ROWS_57[16] && At(74) == ROWS_57[17] && At(75) == ROWS_57[18];
  }

  lemma Rows57Learn(i: nat)
    requires 57 <= i < 76
    ensures Learns(i) == true
  {
    Rows57();
  }

  lemma Rows76()
    ensures Learns(76) && Learns(77) && Learns(78) && Learns(79) && Learns(80) && Learns(81) && Learns(82)
    ensures Learns(83) && Learns(84) && Learns(85) && Learns(86) && Learns(87) && Learns(88) && Learns(89)
    ensures Learns(90) && Learns(91) && Learns(92) && Learns(93) && Learns(94)
  {
    assert At(76) == ROWS_76[0] && At(77) == ROWS_76[1] && At(78) == ROWS_76[2] && At(79) == ROWS_76[3];
    assert At(80) == ROWS_76[4] && At(81) == ROWS_76[5] && At(82) == ROWS_76[6] && At(83) == ROWS_76[7];
    assert At(84) == ROWS_76[8] && At(85) == ROWS_76[9] && At(86) == ROWS_76[10] && At(87) == ROWS_76[11];
    assert At(88) == ROWS_76[12] && At(89) == ROWS_76[13] && At(90) == ROWS_76[14] && At(91) == ROWS_76[15];
    assert At(92) == ROWS_76[16] && At(93) == ROWS_76[17] && At(94) == ROWS_76[18];
  }

  lemma Rows76Learn(i: nat)
    requires 76 <= i < 95
    ensures Learns(i) == true
  {
    Rows76();
  }

  lemma Rows95()
    ensures Learns(95) && Learns(96) && Learns(97) && Learns(98)
  {
    assert At(95) == ROWS_95[0] && At(96) == ROWS_95[1] && At(97) == ROWS_95[2] && At(98) == ROWS_95[3];
  }

  lemma Rows95Learn(i: nat)
    requires 95 <= i < 99
    ensures Learns(i) == true
  {
    Rows95();
  }

  lemma Rows99()
    ensures Learns(99) && Learns(100) && Learns(101) && Learns(102) && Learns(103)
  {
    assert At(99) == ROWS_95[4] && At(100) == ROWS_95[5] && At(101) == ROWS_95[6] && At(102) == ROWS_95[7];
    assert At(103) == ROWS_95[8];
  }

  lemma Rows99Learn(i: nat)
    requires 99 <= i < 104
    ensures Learns(i) == true
  {
    Rows99();
    assert i == 99 || i == 100 || i == 101 || i == 102 || i == 103;
  }

  lemma Rows104()
    ensures Learns(104) && Learns(105) && Learns(106) && Learns(107) && Learns(108) && Learns(109) && Learns(110)
    ensures Learns(111) && Learns(112)
  {
    assert At(104) == ROWS_95[9] && At(105) == ROWS_95[10] && At(106) == ROWS_95[11] && At(107) == ROWS_95[12];
    assert At(108) == ROWS_95[13] && At(109) == ROWS_95[14] && At(110) == ROWS_95[15] && At(111) == ROWS_95[16];
    assert At(112) == ROWS_95[17];
  }

  lemma Rows104Learn(i: nat)
    requires 104 <= i < 113
    ensures Learns(i) == true
  {
    Rows104();
  }

  lemma RowLearns(i: nat)
    requires i < FIXED_ROW
    ensures Learns(i)
  {
    if i < 19 {
      Rows0Learn(i);
    } else if i < 38 {
      Rows19Learn(i);
    } else if i < 57 {
      Rows38Learn(i);
    } else if i < 76 {
      Rows57Learn(i);
    } else if i < 95 {
      Rows76Learn(i);
    } else if i < 99 {
      Rows95Learn(i);
    } else if i < 104 {
      Rows99Learn(i);
    } else {
      Rows104Learn(i);
    }
  }

  /** What the less probable symbol gets of an interval of 0x8000 to 0x10000. */
  function LpsPart(s: Stat): int
    requires GoodStat(s)
  {
    RowOf(s).qe
  }

  lemma FixedStays(s: Stat)
    requires GoodStat(s) && s.index == FIXED_ROW
    ensures AfterMps(s) == AfterLps(s) == s
  {
    assert At(FIXED_ROW) == ROWS_95[18];
  }

  /** What the two estimates do to a bin that adapts, in any state. */
  lemma EstimatesFollow(s: Stat)
    requires GoodStat(s) && s.index != FIXED_ROW
    ensures AfterMps(s).mps == s.mps && AfterMps(s).index != FIXED_ROW && AfterLps(s).index != FIXED_ROW
    ensures LpsPart(AfterMps(s)) < LpsPart(s) || (AfterMps(s) == s && LpsPart(s) == 1)
    ensures LpsPart(AfterMps(s)) <= LpsPart(AfterLps(s))
    ensures AfterLps(s).mps == s.mps <==> LpsPart(AfterLps(s)) > LpsPart(s)
  {
    RowLearns(s.index);
  }

  function ManyMps(s: Stat, n: nat): (t: Stat)
    requires GoodStat(s)
    ensures GoodStat(t)
  {
    if n == 0 then s else AfterMps(ManyMps(s, n - 1))
  }

  /** After n steps down from q0, or at the bottom. */
  predicate Down(q: int, q0: int, n: nat) {
    q == 1 || q + n <= q0
  }

  lemma MpsGoesDown(s: Stat, q0: int, n: nat, m: nat)
    requires GoodStat(s) && s.index != FIXED_ROW && Down(LpsPart(s), q0, n) && m == n + 1
    ensures AfterMps(s).index != FIXED_ROW && AfterMps(s).mps == s.mps && Down(LpsPart(AfterMps(s)), q0, m)
  {
    EstimatesFollow(s);
  }

  /** A bin that is right often enough expects nothing else any more. */
  lemma {:induction false} EnoughMps(s: Stat, n: nat)
    requires GoodStat(s) && s.index != FIXED_ROW
    ensures ManyMps(s, n).index != FIXED_ROW && ManyMps(s, n).mps == s.mps
    ensures Down(LpsPart(ManyMps(s, n)), LpsPart(s), n)
  {
    if n > 0 {
      EnoughMps(s, n - 1);
      MpsGoesDown(ManyMps(s, n - 1), LpsPart(s), n - 1, n);
    }
  }
}
