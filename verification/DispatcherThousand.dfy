/** The counts of the benchmark's own run, in which the idle task has a thousand turns. */
module DispatcherThousand {
  import opened DispatcherTally
  import opened DispatcherSeed

  /** How far the run has come: the balance, the idle task's seed and the two counts. */
  datatype Score = Score(bal: Balance, word: bv16, queues: int, holds: int)

  /** One turn of the idle task. */
  function Once(x: Score): (y: Score)
    requires Fair(x.bal)
    ensures Fair(y.bal)
  {
    Score(Next(x.bal, x.word & 1 == 1).0, NextWord(x.word), x.queues + Next(x.bal, x.word & 1 == 1).1,
          x.holds + Next(x.bal, x.word & 1 == 1).2)
  }

  function Nine(x: Score): (y: Score)
    requires Fair(x.bal)
    ensures Fair(y.bal)
  {
    Once(Once(Once(Once(Once(Once(Once(Once(Once(x)))))))))
  }

  /** Nine times n turns of the idle task lead from x to y. */
  predicate Leads(x: Score, n: nat, y: Score)
    decreases n
  {
    Fair(x.bal) && if n == 0 then x == y else Leads(Nine(x), n - 1, y)
  }

  /** What is still to be counted from a score, the score included. */
  function Total(x: Score, count: nat): (int, int)
    requires Fair(x.bal) && count > 0
  {
    var t := Tally(x.bal, Seed(x.word), count);
    (x.queues + t.0, x.holds + t.1)
  }

  lemma OnceTotal(x: Score, count: nat)
    requires Fair(x.bal) && count > 0
    ensures Total(x, count + 1) == Total(Once(x), count)
  {
    hide Seed, Next;
    SeedParity(x.word);
    SeedFollows(x.word);
  }

  lemma NineTotal(x: Score, count: nat)
    requires Fair(x.bal) && count > 0
    ensures Total(x, count + 9) == Total(Nine(x), count)
  {
    hide Total, Once, Fair;
    var x1 := Once(x);
    var x2 := Once(x1);
    var x3 := Once(x2);
    var x4 := Once(x3);
    var x5 := Once(x4);
    var x6 := Once(x5);
    var x7 := Once(x6);
    var x8 := Once(x7);
    OnceTotal(x, count + 8);
    OnceTotal(x1, count + 7);
    OnceTotal(x2, count + 6);
    OnceTotal(x3, count + 5);
    OnceTotal(x4, count + 4);
    OnceTotal(x5, count + 3);
    OnceTotal(x6, count + 2);
    OnceTotal(x7, count + 1);
    OnceTotal(x8, count);
  }

  lemma {:induction false} LeadsTotal(x: Score, n: nat, y: Score, count: nat)
    requires Leads(x, n, y) && count > 0
    ensures Fair(y.bal) && Total(x, 9 * n + count) == Total(y, count)
    decreases n
  {
    hide Total, Nine;
    if n > 0 {
      LeadsTotal(Nine(x), n - 1, y, count);
      NineTotal(x, 9 * (n - 1) + count);
    }
  }

  // ----- a thousand turns, 27 or less at a time

  const M0 := Score(Each(3, 3, true), 0x1, 8, 2)
  const M1 := Score(BothB(1, 1), 0xCFD6, 69, 26)
  const M2 := Score(BothB(3, 0), 0xA32C, 132, 51)
  const M3 := Score(Each(3, 3, false), 0xBF3F, 198, 78)
  const M4 := Score(BothA(0, 0), 0xCDB4, 256, 100)
  const M5 := Score(BothA(1, 0), 0xCF7A, 318, 125)
  const M6 := Score(BothA(2, 2), 0x96AB, 382, 152)
  const M7 := Score(Each(1, 3, true), 0xBE68, 444, 176)
  const M8 := Score(BothB(2, 1), 0xD75F, 511, 203)
  const M9 := Score(BothA(2, 0), 0x3D34, 580, 230)
  const M10 := Score(Each(2, 3, true), 0xE77C, 646, 257)
  const M11 := Score(BothA(0, 0), 0x973E, 716, 284)
  const M12 := Score(BothA(1, 3), 0x4E3D, 741, 295)
  const M13 := Score(Each(0, 3, false), 0x4330, 752, 299)
  const M14 := Score(BothB(1, 3), 0x1BC4, 811, 323)
  const M15 := Score(Each(1, 2, true), 0x27AF, 862, 343)
  const M16 := Score(Each(0, 2, false), 0x24CC, 930, 370)
  const M17 := Score(BothA(1, 0), 0x98BA, 998, 397)
  const M18 := Score(Each(0, 0, false), 0x93C3, 1066, 424)
  const M19 := Score(BothA(3, 3), 0x4CB5, 1105, 441)
  const M20 := Score(Each(1, 2, false), 0x4E1, 1172, 467)
  const M21 := Score(Each(3, 3, false), 0xD3F2, 1238, 494)
  const M22 := Score(Each(0, 1, false), 0xB8BD, 1308, 521)
  const M23 := Score(Each(0, 2, false), 0xA230, 1370, 546)
  const M24 := Score(Each(3, 2, false), 0x7CBE, 1436, 573)
  const M25 := Score(Each(1, 3, true), 0xEBED, 1504, 600)
  const M26 := Score(Each(3, 2, true), 0x8A82, 1566, 625)
  const M27 := Score(Each(3, 2, true), 0xEBA1, 1626, 649)
  const M28 := Score(Each(3, 0, true), 0xDCF9, 1682, 671)
  const M29 := Score(BothB(2, 0), 0x1650, 1750, 698)
  const M30 := Score(Each(1, 0, true), 0x9549, 1798, 717)
  const M31 := Score(Each(0, 0, false), 0xC233, 1866, 744)
  const M32 := Score(Each(3, 0, true), 0xEFE2, 1922, 767)
  const M33 := Score(Each(2, 2, true), 0x84BF, 1984, 792)
  const M34 := Score(Each(1, 2, false), 0xFC76, 2052, 819)
  const M35 := Score(Each(0, 2, true), 0xD6AC, 2120, 846)
  const M36 := Score(Each(3, 2, true), 0xECAC, 2186, 873)
  const M37 := Score(Each(0, 0, true), 0xCD63, 2256, 900)
  const M38 := Score(Each(2, 1, true), 0xC59C, 2322, 927)

  lemma Leg0()
    ensures Total(M0, 1000) == Total(M1, 973)
  {
    hide Total;
    LeadsTotal(M0, 3, M1, 973);
  }

  lemma Leg1()
    ensures Total(M0, 1000) == Total(M2, 946)
  {
    hide Total;
    Leg0();
    LeadsTotal(M1, 3, M2, 946);
  }

  lemma Leg2()
    ensures Total(M0, 1000) == Total(M3, 919)
  {
    hide Total;
    Leg1();
    LeadsTotal(M2, 3, M3, 919);
  }

  lemma Leg3()
    ensures Total(M0, 1000) == Total(M4, 892)
  {
    hide Total;
    Leg2();
    LeadsTotal(M3, 3, M4, 892);
  }

  lemma Leg4()
    ensures Total(M0, 1000) == Total(M5, 865)
  {
    hide Total;
    Leg3();
    LeadsTotal(M4, 3, M5, 865);
  }

  lemma Leg5()
    ensures Total(M0, 1000) == Total(M6, 838)
  {
    hide Total;
    Leg4();
    LeadsTotal(M5, 3, M6, 838);
  }

  lemma Leg6()
    ensures Total(M0, 1000) == Total(M7, 811)
  {
    hide Total;
    Leg5();
    LeadsTotal(M6, 3, M7, 811);
  }

  lemma Leg7()
    ensures Total(M0, 1000) == Total(M8, 784)
  {
    hide Total;
    Leg6();
    LeadsTotal(M7, 3, M8, 784);
  }

  lemma Leg8()
    ensures Total(M0, 1000) == Total(M9, 757)
  {
    hide Total;
    Leg7();
    LeadsTotal(M8, 3, M9, 757);
  }

  lemma Leg9()
    ensures Total(M0, 1000) == Total(M10, 730)
  {
    hide Total;
    Leg8();
    LeadsTotal(M9, 3, M10, 730);
  }

  lemma Leg10()
    ensures Total(M0, 1000) == Total(M11, 703)
  {
    hide Total;
    Leg9();
    LeadsTotal(M10, 3, M11, 703);
  }

  lemma Leg11()
    ensures Total(M0, 1000) == Total(M12, 685)
  {
    hide Total;
    Leg10();
    LeadsTotal(M11, 2, M12, 685);
  }

  lemma Leg12()
    ensures Total(M0, 1000) == Total(M13, 676)
  {
    hide Total;
    Leg11();
    LeadsTotal(M12, 1, M13, 676);
  }

  lemma Leg13()
    ensures Total(M0, 1000) == Total(M14, 649)
  {
    hide Total;
    Leg12();
    LeadsTotal(M13, 3, M14, 649);
  }

  lemma Leg14()
    ensures Total(M0, 1000) == Total(M15, 622)
  {
    hide Total;
    Leg13();
    LeadsTotal(M14, 3, M15, 622);
  }

  lemma Leg15()
    ensures Total(M0, 1000) == Total(M16, 595)
  {
    hide Total;
    Leg14();
    LeadsTotal(M15, 3, M16, 595);
  }

  lemma Leg16()
    ensures Total(M0, 1000) == Total(M17, 568)
  {
    hide Total;
    Leg15();
    LeadsTotal(M16, 3, M17, 568);
  }

  lemma Leg17()
    ensures Total(M0, 1000) == Total(M18, 541)
  {
    hide Total;
    Leg16();
    LeadsTotal(M17, 3, M18, 541);
  }

  lemma Leg18()
    ensures Total(M0, 1000) == Total(M19, 514)
  {
    hide Total;
    Leg17();
    LeadsTotal(M18, 3, M19, 514);
  }

  lemma Leg19()
    ensures Total(M0, 1000) == Total(M20, 487)
  {
    hide Total;
    Leg18();
    LeadsTotal(M19, 3, M20, 487);
  }

  lemma Leg20()
    ensures Total(M0, 1000) == Total(M21, 460)
  {
    hide Total;
    Leg19();
    LeadsTotal(M20, 3, M21, 460);
  }

  lemma Leg21()
    ensures Total(M0, 1000) == Total(M22, 433)
  {
    hide Total;
    Leg20();
    LeadsTotal(M21, 3, M22, 433);
  }

  lemma Leg22()
    ensures Total(M0, 1000) == Total(M23, 406)
  {
    hide Total;
    Leg21();
    LeadsTotal(M22, 3, M23, 406);
  }

  lemma Leg23()
    ensures Total(M0, 1000) == Total(M24, 379)
  {
    hide Total;
    Leg22();
    LeadsTotal(M23, 3, M24, 379);
  }

  lemma Leg24()
    ensures Total(M0, 1000) == Total(M25, 352)
  {
    hide Total;
    Leg23();
    LeadsTotal(M24, 3, M25, 352);
  }

  lemma Leg25()
    ensures Total(M0, 1000) == Total(M26, 325)
  {
    hide Total;
    Leg24();
    LeadsTotal(M25, 3, M26, 325);
  }

  lemma Leg26()
    ensures Total(M0, 1000) == Total(M27, 298)
  {
    hide Total;
    Leg25();
    LeadsTotal(M26, 3, M27, 298);
  }

  lemma Leg27()
    ensures Total(M0, 1000) == Total(M28, 271)
  {
    hide Total;
    Leg26();
    LeadsTotal(M27, 3, M28, 271);
  }

  lemma Leg28()
    ensures Total(M0, 1000) == Total(M29, 244)
  {
    hide Total;
    Leg27();
    LeadsTotal(M28, 3, M29, 244);
  }

  lemma Leg29()
    ensures Total(M0, 1000) == Total(M30, 217)
  {
    hide Total;
    Leg28();
    LeadsTotal(M29, 3, M30, 217);
  }

  lemma Leg30()
    ensures Total(M0, 1000) == Total(M31, 190)
  {
    hide Total;
    Leg29();
    LeadsTotal(M30, 3, M31, 190);
  }

  lemma Leg31()
    ensures Total(M0, 1000) == Total(M32, 163)
  {
    hide Total;
    Leg30();
    LeadsTotal(M31, 3, M32, 163);
  }

  lemma Leg32()
    ensures Total(M0, 1000) == Total(M33, 136)
  {
    hide Total;
    Leg31();
    LeadsTotal(M32, 3, M33, 136);
  }

  lemma Leg33()
    ensures Total(M0, 1000) == Total(M34, 109)
  {
    hide Total;
    Leg32();
    LeadsTotal(M33, 3, M34, 109);
  }

  lemma Leg34()
    ensures Total(M0, 1000) == Total(M35, 82)
  {
    hide Total;
    Leg33();
    LeadsTotal(M34, 3, M35, 82);
  }

  lemma Leg35()
    ensures Total(M0, 1000) == Total(M36, 55)
  {
    hide Total;
    Leg34();
    LeadsTotal(M35, 3, M36, 55);
  }

  lemma Leg36()
    ensures Total(M0, 1000) == Total(M37, 28)
  {
    hide Total;
    Leg35();
    LeadsTotal(M36, 3, M37, 28);
  }

  lemma Leg37()
    ensures Total(M0, 1000) == Total(M38, 1)
  {
    hide Total;
    Leg36();
    LeadsTotal(M37, 3, M38, 1);
  }

  /** With a thousand turns of the idle task 2322 packets are queued and 928 tasks held. */
  lemma ThousandTally()
    ensures 8 + Tally(Each(3, 3, true), 1, 1000).0 == 2322
    ensures 2 + Tally(Each(3, 3, true), 1, 1000).1 == 928
  {
    Leg37();
    hide Seed;
    SeedOne();
  }

  lemma SeedOne()
    ensures Seed(1) == 1
  {
    forall i: nat ensures Bit(Seed(1), i) == Bit(1, i) {
      SeedBits(1, i);
      if i > 0 {
        ZeroBit(i - 1);
        assert !WordBit(1, i);
      }
    }
    BitsDecide(Seed(1), 1);
  }
}
