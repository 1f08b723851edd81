/** Which coefficients are in range for the Huffman encoders: those of 8-bit samples always are. */
module HuffmanRange {
  import opened Numbers
  import opened Blocks
  import opened Scans
  import opened HuffmanBlocks
  import opened HuffmanRuns
  import opened HuffmanScan

  /** What the transform makes of 8-bit samples, or less. */
  predicate InRange(b: Block) {
    -0x400 <= b[0] < 0x400 && forall i :: 0 <= i < DCTSIZE2 ==> Abs(b[i]) <= 0x400 && (i > 0 ==> Abs(b[i]) < 0x400)
  }

  predicate AllInRange(mcus: seq<Mcu>) {
    forall k, i :: 0 <= k < |mcus| && 0 <= i < |mcus[k].blocks| ==> InRange(mcus[k].blocks[i])
  }

  predicate SmallLast(last: seq<int>) {
    forall c :: 0 <= c < |last| ==> -0x400 <= last[c] < 0x400
  }

  lemma {:induction false} SizeMono(u: nat, v: nat)
    requires u <= v
    ensures Size(u) <= Size(v)
  {
    if u > 0 {
      SizeMono(u / 2, v / 2);
    }
  }

  lemma Sizes()
    ensures Size(0x3FF) == 10 && Size(0x7FF) == 11
  {
    assert Size(0x7) == 3 && Size(0x3F) == 6 && Size(0x1FF) == 9;
  }

  lemma {:induction false} SizeIsAtLeast(m: nat, n: nat)
    requires Shl(1, n) <= m
    ensures Size(m) > n
    decreases n
  {
    ShlNat(1, n);
    if n > 0 {
      ShlShl(1, n - 1, 1);
      SizeIsAtLeast(m / 2, n - 1);
    }
  }

  /** What the encoders refuse: AC coefficients beyond 1023 and DC differences beyond 2047. */
  lemma Limits(m: nat)
    ensures Size(m) <= MAX_COEF_BITS <==> m <= 1023
    ensures Size(m) <= MAX_COEF_BITS + 1 <==> m <= 2047
  {
    Sizes();
    ShlTable(1);
    ShlShl(1, 10, 1);
    if m <= 2047 {
      SizeMono(m, if m <= 1023 then 1023 else 2047);
    } else {
      SizeIsAtLeast(m, 11);
    }
    if m > 1023 {
      SizeIsAtLeast(m, 10);
    }
  }

  lemma {:induction false} ShrKeepsRange(v: int, al: nat)
    requires -0x400 <= v < 0x400
    ensures -0x400 <= Shr(v, al) < 0x400
  {
  }

  lemma BandFits(bd: BandScan, b: Block, order: Order, al: nat)
    requires InRange(b) && 0 < bd.ss <= bd.se < |order|
    ensures FitBand(bd, Zigzag(b, order, al))
  {
    var zz := Zigzag(b, order, al);
    forall k | bd.ss <= k <= bd.se ensures Size(Abs(zz[k])) <= MAX_COEF_BITS {
      assert order[k] != order[0] && Abs(b[order[k]]) < 0x400;
      Sizes();
      SizeMono(Abs(zz[k]), 0x3FF);
    }
  }

  lemma BlockIsFit(p: Params, ci: nat, last: int, b: Block)
    requires Shaped(p) && ci < |p.comps| && InRange(b) && -0x400 <= last < 0x400
    ensures BlockFits(p, ci, last, b) && -0x400 <= DcValue(p.mode, b) < 0x400
  {
    Sizes();
    if p.mode.DcFirst? {
      ShrKeepsRange(b[0], p.mode.al);
    }
    SizeMono(Abs(DcValue(p.mode, b) - last), 0x7FF);
    if |p.order| > 1 {
      BandFits(WholeBand(p, ci), b, p.order, 0);
    }
  }

  lemma {:induction false} McuIsFit(p: Params, last: seq<int>, mcu: Mcu, i: nat)
    requires Shaped(p) && Suits(p, last, mcu) && SmallLast(last)
    requires forall j :: 0 <= j < |mcu.blocks| ==> InRange(mcu.blocks[j])
    ensures McuFits(p, last, mcu, i) && SmallLast(McuLast(p, last, mcu, i))
    decreases |mcu.blocks| - i
  {
    if i < |mcu.blocks| {
      var ci := p.membership[i];
      BlockIsFit(p, ci, last[ci], mcu.blocks[i]);
      McuIsFit(p, NextLast(p, ci, last, mcu.blocks[i]), mcu, i + 1);
    }
  }

  lemma {:induction false} DcIsFit(p: Params, mcus: seq<Mcu>)
    requires GoodMcus(p, mcus) && AllInRange(mcus)
    ensures DcFits(p, mcus) && SmallLast(LastOf(p, mcus))
    decreases |mcus|
  {
    if mcus != [] {
      var m := |mcus| - 1;
      DcIsFit(p, mcus[..m]);
      McuIsFit(p, LastOf(p, mcus[..m]), mcus[m], 0);
    }
  }

  lemma IntervalIsFit(p: Params, mcus: seq<Mcu>)
    requires GoodMcus(p, mcus) && AllInRange(mcus)
    ensures IntervalFits(p, mcus)
  {
    if IsAc(p.mode) {
      forall k | 0 <= k < |mcus| ensures FitBand(BandOf(p), BandsOf(p, mcus)[k]) {
        BandFits(BandOf(p), mcus[k].blocks[0], p.order, p.mode.al);
      }
    } else {
      DcIsFit(p, mcus);
    }
  }

  /** No scan of such blocks has coefficients that are too large. */
  lemma {:induction false} RangeFits(p: Params, mcus: seq<Mcu>)
    requires GoodMcus(p, mcus) && AllInRange(mcus)
    ensures ScanFits(p, mcus)
    decreases |mcus|
  {
    if mcus != [] {
      var k := |mcus| - InLast(p.restartInterval, |mcus|);
      RangeFits(p, mcus[..k]);
      IntervalIsFit(p, mcus[k..]);
    }
  }
}
