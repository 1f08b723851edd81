/** Which symbols occur in a Huffman-coded scan, and how often. */
module ScanSymbols {
  import opened Numbers
  import opened BitStrings
  import opened Blocks
  import opened Scans
  import opened HuffmanStream
  import opened HuffmanBlocks
  import opened HuffmanRuns
  import opened HuffmanScan
  import opened HuffmanGather
  import opened RestartLayout
  import M = HuffmanMerge

  // ---- AC bands

  /** All symbols belong to one table, and none is of a size that coefficients do not have. */
  ghost predicate OneTable(tbl: nat, ks: seq<Token>) {
    forall i :: 0 <= i < |ks| && ks[i].Sym? ==> ks[i].tbl == tbl && ks[i].s % 16 <= MAX_COEF_BITS
  }

  lemma {:induction false} BitsAreRaw(tbl: nat, bits: Bits)
    ensures OneTable(tbl, BitTokens(bits))
    decreases |bits|
  {
    if bits != [] {
      BitsAreRaw(tbl, bits[1..]);
    }
  }

  lemma {:induction false} AcInTable(tbl: nat, zz: seq<int>, last: nat, k: nat, r: nat)
    requires last < |zz| && SmallBand(zz, k, last)
    ensures OneTable(tbl, AcTokens(tbl, zz, last, k, r))
    decreases last + 1 - k, r
  {
    if k <= last {
      if zz[k] == 0 {
        AcInTable(tbl, zz, last, k + 1, r + 1);
      } else if r > 15 {
        AcInTable(tbl, zz, last, k, r - 16);
      } else {
        AcInTable(tbl, zz, last, k + 1, 0);
      }
    }
  }

  lemma {:induction false} RefineInTable(tbl: nat, zz: seq<int>, eob: nat, k: nat, r: nat, br: Bits)
    requires eob < |zz|
    ensures OneTable(tbl, RefineTokens(tbl, zz, eob, k, r, br))
    decreases eob + 1 - k, r
  {
    if k <= eob {
      BitsAreRaw(tbl, br);
      if zz[k] == 0 {
        RefineInTable(tbl, zz, eob, k + 1, r + 1, br);
      } else if r > 15 {
        RefineInTable(tbl, zz, eob, k, r - 16, []);
      } else if Abs(zz[k]) > 1 {
        RefineInTable(tbl, zz, eob, k + 1, r, br + [Abs(zz[k]) % 2]);
      } else {
        RefineInTable(tbl, zz, eob, k + 1, 0, []);
      }
    }
  }

  lemma ParcelInTable(bd: BandScan, zz: seq<int>, before: nat, n: nat)
    requires FitBand(bd, zz) && 0 < n <= MAX_EOBRUN
    ensures OneTable(bd.tbl, Parcel(bd, zz, before, n))
  {
    BitsAreRaw(bd.tbl, TailBits(bd, zz));
    if bd.refine {
      RefineInTable(bd.tbl, zz, BandEnd(bd, zz), bd.ss, 0, []);
    } else {
      AcInTable(bd.tbl, zz, BandEnd(bd, zz), bd.ss, 0);
    }
  }

  lemma {:induction false} RunsInTable(bd: BandScan, zzs: seq<seq<int>>, ns: seq<nat>, i: nat, before: nat)
    requires GoodRuns(bd, zzs, ns)
    ensures OneTable(bd.tbl, TokensFrom(bd, zzs, ns, i, before))
    decreases |zzs| - i
  {
    if i < |zzs| {
      ParcelInTable(bd, zzs[i], before, ns[i]);
      RunsInTable(bd, zzs, ns, i + 1, After(bd, zzs[i], before, ns[i]));
    }
  }

  /** A block that opens a scan has a symbol. */
  lemma ParcelHasSymbol(bd: BandScan, zz: seq<int>, n: nat)
    requires FitBand(bd, zz) && 0 < n <= MAX_EOBRUN
    ensures Parcel(bd, zz, 0, n) != [] && Parcel(bd, zz, 0, n)[0].Sym?
  {
    CodedIsSymbols(bd, zz);
    if !Silent(bd, zz) {
      if bd.refine {
        RefineFirstSymbol(bd.tbl, zz, BandEnd(bd, zz), bd.ss, 0, []);
      } else {
        AcFirstSymbol(bd.tbl, zz, BandEnd(bd, zz), bd.ss, 0);
      }
    }
  }

  lemma ScanInTable(bd: BandScan, zzs: seq<seq<int>>)
    requires AllFit(bd, zzs)
    ensures OneTable(bd.tbl, ScanTokens(bd, zzs))
    ensures zzs != [] ==> ScanTokens(bd, zzs) != [] && ScanTokens(bd, zzs)[0].Sym?
  {
    var ns := EobCounts(bd, zzs);
    RunsBegin(bd, zzs);
    assert Unfolded(RunPlace, 0);
    RunsInTable(bd, zzs, ns, 0, 0);
    if zzs != [] {
      ParcelHasSymbol(bd, zzs[0], ns[0]);
    }
  }

  // ---- Whole scans

  predicate WantsAc(p: Params) {
    IsAc(p.mode) || (p.mode.Sequential? && |p.order| > 1)
  }

  /** finish_pass_gather makes a table for each component's DC symbols, and one for its AC symbols. */
  predicate Wanted(p: Params, tbl: nat) {
    || (SendsDc(p.mode) && exists ci :: 0 <= ci < |p.comps| && p.comps[ci].dc == tbl)
    || (WantsAc(p) && exists ci :: 0 <= ci < |p.comps| && p.comps[ci].ac == tbl)
  }

  lemma WantedBy(p: Params, tbl: nat) returns (ci: nat)
    requires Wanted(p, tbl)
    ensures ci < |p.comps|
    ensures (SendsDc(p.mode) && p.comps[ci].dc == tbl) || (WantsAc(p) && p.comps[ci].ac == tbl)
  {
    if SendsDc(p.mode) && exists c :: 0 <= c < |p.comps| && p.comps[c].dc == tbl {
      ci :| 0 <= ci < |p.comps| && p.comps[ci].dc == tbl;
    } else {
      ci :| 0 <= ci < |p.comps| && p.comps[ci].ac == tbl;
    }
  }

  /** The first numDc tables are for DC symbols, the others for AC symbols. */
  predicate Separate(p: Params, numDc: nat) {
    forall ci :: 0 <= ci < |p.comps| ==> p.comps[ci].dc < numDc <= p.comps[ci].ac
  }

  /** Only such tables have symbols, and only sizes that coefficients and differences have. */
  ghost predicate Modest(p: Params, numDc: nat, ks: seq<Token>) {
    forall i :: 0 <= i < |ks| && ks[i].Sym? ==>
      && Wanted(p, ks[i].tbl)
      && (if ks[i].tbl < numDc then ks[i].s <= MAX_COEF_BITS + 1 else ks[i].s % 16 <= MAX_COEF_BITS)
  }

  lemma OneTableIsModest(p: Params, numDc: nat, tbl: nat, ks: seq<Token>)
    requires OneTable(tbl, ks) && numDc <= tbl && Wanted(p, tbl)
    ensures Modest(p, numDc, ks)
  {
  }

  /** Some symbol belongs to the table. */
  ghost predicate Occurs(tbl: nat, ks: seq<Token>) {
    exists i :: 0 <= i < |ks| && ks[i].Sym? && ks[i].tbl == tbl
  }

  lemma OccursInside(tbl: nat, a: seq<Token>, ks: seq<Token>, b: seq<Token>)
    requires Occurs(tbl, ks)
    ensures Occurs(tbl, a + ks) && Occurs(tbl, ks + b)
  {
    var i :| 0 <= i < |ks| && ks[i].Sym? && ks[i].tbl == tbl;
    assert (a + ks)[|a| + i] == ks[i] && (ks + b)[i] == ks[i];
  }

  lemma AcPartSymbols(p: Params, numDc: nat, ci: nat, b: Block)
    requires Separate(p, numDc) && ci < |p.comps| && p.mode.Sequential? && AcFits(p, ci, b)
    ensures Modest(p, numDc, AcPart(p, ci, b))
    ensures |p.order| > 1 ==> Occurs(p.comps[ci].ac, AcPart(p, ci, b))
  {
    if |p.order| > 1 {
      var bd, zz := WholeBand(p, ci), Zigzag(b, p.order, 0);
      ParcelInTable(bd, zz, 0, 1);
      ParcelHasSymbol(bd, zz, 1);
      OneTableIsModest(p, numDc, bd.tbl, Parcel(bd, zz, 0, 1));
    }
  }

  lemma DcPartSymbols(p: Params, numDc: nat, ci: nat, diff: int)
    requires Separate(p, numDc) && ci < |p.comps| && SendsDc(p.mode) && Size(Abs(diff)) <= MAX_COEF_BITS + 1
    ensures Modest(p, numDc, DcTokens(p.comps[ci].dc, diff))
    ensures Occurs(p.comps[ci].dc, DcTokens(p.comps[ci].dc, diff))
  {
    var dc := DcTokens(p.comps[ci].dc, diff);
    assert dc[0].Sym? && dc[0].tbl == p.comps[ci].dc;
  }

  lemma ModestConcat(p: Params, numDc: nat, a: seq<Token>, b: seq<Token>)
    requires Modest(p, numDc, a) && Modest(p, numDc, b)
    ensures Modest(p, numDc, a + b)
  {
  }

  lemma SequentialSymbols(p: Params, numDc: nat, ci: nat, last: int, b: Block)
    requires Separate(p, numDc) && ci < |p.comps| && p.mode.Sequential? && BlockFits(p, ci, last, b)
    ensures Modest(p, numDc, BlockTokens(p, ci, last, b)) && Occurs(p.comps[ci].dc, BlockTokens(p, ci, last, b))
    ensures |p.order| > 1 ==> Occurs(p.comps[ci].ac, BlockTokens(p, ci, last, b))
  {
    var dc, ac := DcTokens(p.comps[ci].dc, b[0] - last), AcPart(p, ci, b);
    DcPartSymbols(p, numDc, ci, b[0] - last);
    AcPartSymbols(p, numDc, ci, b);
    ModestConcat(p, numDc, dc, ac);
    OccursInside(p.comps[ci].dc, [], dc, ac);
    if |p.order| > 1 {
      OccursInside(p.comps[ci].ac, dc, ac, []);
    }
  }

  /** One block of a scan without runs. */
  lemma BlockSymbols(p: Params, numDc: nat, ci: nat, last: int, b: Block)
    requires Separate(p, numDc) && ci < |p.comps| && !IsAc(p.mode) && BlockFits(p, ci, last, b)
    ensures Modest(p, numDc, BlockTokens(p, ci, last, b))
    ensures SendsDc(p.mode) ==> Occurs(p.comps[ci].dc, BlockTokens(p, ci, last, b))
    ensures WantsAc(p) ==> Occurs(p.comps[ci].ac, BlockTokens(p, ci, last, b))
  {
    match p.mode
    case Sequential => SequentialSymbols(p, numDc, ci, last, b);
    case DcFirst(al) => DcPartSymbols(p, numDc, ci, Shr(b[0], al) - last);
    case _ =>
  }

  lemma {:induction false} McuModest(p: Params, numDc: nat, last: seq<int>, mcu: Mcu, i: nat)
    requires Separate(p, numDc) && Suits(p, last, mcu) && !IsAc(p.mode) && McuFits(p, last, mcu, i)
    ensures Modest(p, numDc, McuTokens(p, last, mcu, i))
    decreases |mcu.blocks| - i
  {
    if i < |mcu.blocks| {
      var ci := p.membership[i];
      BlockSymbols(p, numDc, ci, last[ci], mcu.blocks[i]);
      McuModest(p, numDc, NextLast(p, ci, last, mcu.blocks[i]), mcu, i + 1);
    }
  }

  /** A component that has a block in the MCU has symbols there. */
  lemma {:induction false} McuOccurs(p: Params, numDc: nat, last: seq<int>, mcu: Mcu, i: nat, j: nat)
    requires Separate(p, numDc) && Suits(p, last, mcu) && !IsAc(p.mode) && McuFits(p, last, mcu, i)
    requires i <= j < |mcu.blocks|
    ensures SendsDc(p.mode) ==> Occurs(p.comps[p.membership[j]].dc, McuTokens(p, last, mcu, i))
    ensures WantsAc(p) ==> Occurs(p.comps[p.membership[j]].ac, McuTokens(p, last, mcu, i))
    decreases |mcu.blocks| - i
  {
    var ci, c := p.membership[i], p.comps[p.membership[j]];
    var mine, rest := BlockTokens(p, ci, last[ci], mcu.blocks[i]),
                      McuTokens(p, NextLast(p, ci, last, mcu.blocks[i]), mcu, i + 1);
    if i == j {
      BlockSymbols(p, numDc, ci, last[ci], mcu.blocks[i]);
    } else {
      McuOccurs(p, numDc, NextLast(p, ci, last, mcu.blocks[i]), mcu, i + 1, j);
    }
    if SendsDc(p.mode) {
      if i == j {
        OccursInside(c.dc, [], mine, rest);
      } else {
        OccursInside(c.dc, mine, rest, []);
      }
    }
    if WantsAc(p) {
      if i == j {
        OccursInside(c.ac, [], mine, rest);
      } else {
        OccursInside(c.ac, mine, rest, []);
      }
    }
  }

  /** Every component of the scan has a block in an MCU. */
  predicate EachHasBlocks(p: Params) {
    forall ci :: 0 <= ci < |p.comps| ==> HasBlocks(p, ci)
  }

  predicate HasBlocks(p: Params, ci: nat) {
    exists i :: 0 <= i < |p.membership| && p.membership[i] == ci
  }

  /** The tables that are wanted are those that have symbols. */
  ghost predicate AllOccur(p: Params, ks: seq<Token>) {
    forall tbl :: Wanted(p, tbl) ==> Occurs(tbl, ks)
  }

  lemma McuAllOccur(p: Params, numDc: nat, last: seq<int>, mcu: Mcu)
    requires Separate(p, numDc) && EachHasBlocks(p) && Suits(p, last, mcu) && !IsAc(p.mode) && McuFits(p, last, mcu, 0)
    ensures AllOccur(p, McuTokens(p, last, mcu, 0))
  {
    forall tbl | Wanted(p, tbl) ensures Occurs(tbl, McuTokens(p, last, mcu, 0)) {
      var ci := WantedBy(p, tbl);
      assert HasBlocks(p, ci);
      var j :| 0 <= j < |p.membership| && p.membership[j] == ci;
      McuOccurs(p, numDc, last, mcu, 0, j);
    }
  }

  lemma AllOccurInside(p: Params, a: seq<Token>, ks: seq<Token>)
    requires AllOccur(p, ks)
    ensures AllOccur(p, a + ks)
  {
    forall tbl | Wanted(p, tbl) ensures Occurs(tbl, a + ks) {
      OccursInside(tbl, a, ks, []);
    }
  }

  /** One more MCU of a scan without runs. */
  lemma {:induction false} McuAddsSymbols(p: Params, numDc: nat, mcus: seq<Mcu>, mcu: Mcu, grown: seq<Mcu>)
    requires GoodMcus(p, grown) && Separate(p, numDc) && EachHasBlocks(p) && !IsAc(p.mode) && grown == mcus + [mcu]
    requires GoodMcus(p, mcus) && |mcu.blocks| == |p.membership| && ScanFits(p, grown)
    ensures ScanFits(p, mcus)
    ensures Modest(p, numDc, AllTokens(p, mcus)) ==> Modest(p, numDc, AllTokens(p, grown))
    ensures AllOccur(p, AllTokens(p, grown))
  {
    var here := mcus[|mcus| - Since(p.restartInterval, |mcus|)..];
    ScanGrows(p, mcus, mcu, here, grown);
    var ks, t := AllTokens(p, mcus), McuTokens(p, LastOf(p, here), mcu, 0);
    McuModest(p, numDc, LastOf(p, here), mcu, 0);
    McuAllOccur(p, numDc, LastOf(p, here), mcu);
    AllOccurInside(p, ks, t);
    if Modest(p, numDc, ks) {
      ModestConcat(p, numDc, ks, t);
    }
  }

  lemma {:induction false} DcScanSymbols(p: Params, numDc: nat, mcus: seq<Mcu>)
    requires GoodMcus(p, mcus) && Separate(p, numDc) && EachHasBlocks(p) && !IsAc(p.mode) && ScanFits(p, mcus)
    ensures Modest(p, numDc, AllTokens(p, mcus)) && (mcus != [] ==> AllOccur(p, AllTokens(p, mcus)))
    decreases |mcus|
  {
    if mcus != [] {
      var init, last := mcus[..|mcus| - 1], mcus[|mcus| - 1];
      assert mcus == init + [last];
      McuAddsSymbols(p, numDc, init, last, mcus);
      DcScanSymbols(p, numDc, init);
    }
  }

  lemma IntervalSymbols(p: Params, mcus: seq<Mcu>)
    requires GoodMcus(p, mcus) && IsAc(p.mode) && IntervalFits(p, mcus)
    ensures OneTable(p.comps[0].ac, IntervalTokens(p, mcus))
    ensures mcus != [] ==> Occurs(p.comps[0].ac, IntervalTokens(p, mcus))
  {
    ScanInTable(BandOf(p), BandsOf(p, mcus));
  }

  lemma {:induction false} AcScanSymbols(p: Params, mcus: seq<Mcu>)
    requires GoodMcus(p, mcus) && IsAc(p.mode) && ScanFits(p, mcus)
    ensures OneTable(p.comps[0].ac, AllTokens(p, mcus)) && (mcus != [] ==> Occurs(p.comps[0].ac, AllTokens(p, mcus)))
    decreases |mcus|
  {
    if mcus != [] {
      var k := |mcus| - InLast(p.restartInterval, |mcus|);
      AcScanSymbols(p, mcus[..k]);
      IntervalSymbols(p, mcus[k..]);
      OccursInside(p.comps[0].ac, AllTokens(p, mcus[..k]), IntervalTokens(p, mcus[k..]), []);
    }
  }

  lemma AcAllOccur(p: Params, numDc: nat, ks: seq<Token>)
    requires Shaped(p) && IsAc(p.mode) && Separate(p, numDc) && OneTable(p.comps[0].ac, ks)
    ensures Modest(p, numDc, ks) && (Occurs(p.comps[0].ac, ks) ==> AllOccur(p, ks))
  {
    assert Wanted(p, p.comps[0].ac);
    OneTableIsModest(p, numDc, p.comps[0].ac, ks);
    forall tbl | Wanted(p, tbl) ensures tbl == p.comps[0].ac {
      var ci := WantedBy(p, tbl);
    }
  }

  /** The symbols of a scan belong to the tables that are wanted, and each of these has some. */
  lemma {:induction false} ScanSymbolsAre(p: Params, numDc: nat, mcus: seq<Mcu>)
    requires GoodMcus(p, mcus) && Separate(p, numDc) && EachHasBlocks(p) && ScanFits(p, mcus)
    ensures Modest(p, numDc, AllTokens(p, mcus)) && (mcus != [] ==> AllOccur(p, AllTokens(p, mcus)))
  {
    if IsAc(p.mode) {
      AcScanSymbols(p, mcus);
      AcAllOccur(p, numDc, AllTokens(p, mcus));
    } else {
      DcScanSymbols(p, numDc, mcus);
    }
  }

  // ---- Their frequencies

  /** How many symbols of one table there are. */
  function Symbols(ks: seq<Token>, tbl: nat): nat {
    if ks == [] then 0
    else Symbols(ks[..|ks| - 1], tbl) + if ks[|ks| - 1].Sym? && ks[|ks| - 1].tbl == tbl then 1 else 0
  }

  ghost predicate Frequencies(f: seq<nat>, ks: seq<Token>, tbl: nat) {
    |f| == 256 && forall s: Byte :: f[s] == Count(ks, tbl, s)
  }

  lemma {:induction false} AllZero(f: seq<nat>)
    requires forall i :: 0 <= i < |f| ==> f[i] == 0
    ensures M.Sum(f) == 0
    decreases |f|
  {
    if f != [] {
      AllZero(f[..|f| - 1]);
    }
  }

  /** The frequencies add up to the number of symbols. */
  lemma {:induction false} SumIsSymbols(f: seq<nat>, ks: seq<Token>, tbl: nat)
    requires Frequencies(f, ks, tbl)
    ensures M.Sum(f) == Symbols(ks, tbl)
    decreases |ks|
  {
    if ks == [] {
      AllZero(f);
    } else {
      var init, k := ks[..|ks| - 1], ks[|ks| - 1];
      if k.Sym? && k.tbl == tbl {
        var g := f[k.s := f[k.s] - 1];
        M.SumUpdate(f, k.s, f[k.s] - 1);
        SumIsSymbols(g, init, tbl);
      } else {
        SumIsSymbols(f, init, tbl);
      }
    }
  }

  /** Eleven of sixteen AC symbols are possible. */
  lemma {:induction false} FewAcSymbols(f: seq<nat>, n: nat)
    requires n <= |f| && forall i :: 0 <= i < |f| && f[i] > 0 ==> i % 16 <= 10
    ensures M.Live(f[..n]) <= n / 16 * 11 + if n % 16 < 11 then n % 16 else 11
    decreases n
  {
    if n > 0 {
      FewAcSymbols(f, n - 1);
      assert f[..n][..n - 1] == f[..n - 1];
    }
  }

  /** Twelve DC symbols are possible. */
  lemma {:induction false} FewDcSymbols(f: seq<nat>, n: nat)
    requires n <= |f| && forall i :: 0 <= i < |f| && f[i] > 0 ==> i <= 11
    ensures M.Live(f[..n]) <= if n < 12 then n else 12
    decreases n
  {
    if n > 0 {
      FewDcSymbols(f, n - 1);
      assert f[..n][..n - 1] == f[..n - 1];
    }
  }

  lemma {:induction false} SomeCount(ks: seq<Token>, i: nat)
    requires i < |ks| && ks[i].Sym?
    ensures Count(ks, ks[i].tbl, ks[i].s) > 0
    decreases |ks|
  {
    if i < |ks| - 1 {
      SomeCount(ks[..|ks| - 1], i);
    }
  }

  lemma {:induction false} CountedOccurs(ks: seq<Token>, tbl: nat, s: Byte) returns (i: nat)
    requires Count(ks, tbl, s) > 0
    ensures i < |ks| && ks[i] == Sym(tbl, s)
    decreases |ks|
  {
    i := |ks| - 1;
    if ks[i] != Sym(tbl, s) {
      i := CountedOccurs(ks[..i], tbl, s);
    }
  }

  /** The statistics of a table are what the table generator takes: far from all symbols can occur. */
  lemma StatisticsAreUsable(p: Params, numDc: nat, ks: seq<Token>, counts: Counts, tbl: nat)
    requires Modest(p, numDc, ks) && CountsOf(counts, ks) && tbl < |counts| && Occurs(tbl, ks)
    ensures |counts[tbl]| == 257 && M.Sum(counts[tbl][..256]) == Symbols(ks, tbl)
    ensures 0 < M.Live(counts[tbl][..256]) <= if tbl < numDc then 12 else 176
    ensures tbl < numDc ==> forall s: Byte :: counts[tbl][s] > 0 ==> s <= 11
  {
    var f := counts[tbl][..256];
    assert Frequencies(f, ks, tbl);
    SumIsSymbols(f, ks, tbl);
    forall i | 0 <= i < |f| && f[i] > 0 ensures if tbl < numDc then i <= 11 else i % 16 <= 10 {
      var s: Byte := i;
      var j := CountedOccurs(ks, tbl, s);
    }
    if tbl < numDc {
      FewDcSymbols(f, 256);
    } else {
      FewAcSymbols(f, 256);
    }
    assert f[..256] == f;
    var i :| 0 <= i < |ks| && ks[i].Sym? && ks[i].tbl == tbl;
    SomeCount(ks, i);
    M.SumUpdate(f, ks[i].s, 0);
  }
}
