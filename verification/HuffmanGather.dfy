/** Statistics for sequential scans: a trial run that counts symbols and puts nothing out. */
module HuffmanGather {
  import opened Numbers
  import opened Blocks
  import opened Scans
  import opened HuffmanStream
  import opened HuffmanBlocks
  import opened HuffmanRuns
  import opened HuffmanRunEncoder
  import opened HuffmanScan
  import opened RestartLayout

  lemma {:induction false} SinceGoesOn(interval: nat, k: nat)
    requires Since(interval, k) > 0
    ensures k > 0 && Since(interval, k) == Since(interval, k - 1) + 1
  {
    if interval != 0 && k >= interval {
      SinceGoesOn(interval, k - interval);
    }
  }

  /** The last interval with one more MCU. */
  lemma {:induction false} GrowsFrom(p: Params, full: seq<Mcu>, here: seq<Mcu>, mcu: Mcu, more: seq<Mcu>)
    requires GoodMcus(p, full) && GoodMcus(p, here) && GoodMcus(p, full + here) && !IsAc(p.mode)
    requires |mcu.blocks| == |p.membership| && more == here + [mcu]
    requires here == [] || InLast(p.restartInterval, |full + here|) == |here|
    requires InLast(p.restartInterval, |full + more|) == |more|
    ensures GoodMcus(p, full + more)
    ensures ScanFits(p, full + more) <==> ScanFits(p, full + here) && McuFits(p, LastOf(p, here), mcu, 0)
    ensures AllTokens(p, full + more) == AllTokens(p, full + here) + McuTokens(p, LastOf(p, here), mcu, 0)
  {
    DcSnoc(p, here, mcu);
    ScanSnoc(p, full, here);
    ScanSnoc(p, full, more);
    Assoc(AllTokens(p, full), DcOrdered(p, here), McuTokens(p, LastOf(p, here), mcu, 0));
  }

  /** One more MCU behind those of its interval. */
  lemma {:induction false} ScanGrows(p: Params, mcus: seq<Mcu>, mcu: Mcu, here: seq<Mcu>, grown: seq<Mcu>)
    requires GoodMcus(p, mcus) && |mcu.blocks| == |p.membership| && !IsAc(p.mode) && grown == mcus + [mcu]
    requires here == mcus[|mcus| - Since(p.restartInterval, |mcus|)..]
    ensures GoodMcus(p, here) && GoodMcus(p, grown)
    ensures ScanFits(p, grown) <==> ScanFits(p, mcus) && McuFits(p, LastOf(p, here), mcu, 0)
    ensures AllTokens(p, grown) == AllTokens(p, mcus) + McuTokens(p, LastOf(p, here), mcu, 0)
  {
    var full := mcus[..|mcus| - |here|];
    assert mcus == full + here && grown == full + (here + [mcu]);
    if here != [] {
      SinceGoesOn(p.restartInterval, |mcus|);
    }
    GrowsFrom(p, full, here, mcu, here + [mcu]);
  }

  lemma {:induction false} SinceSteps(interval: nat, n: nat)
    requires 0 < interval && Since(interval, n) + 1 < interval
    ensures Since(interval, n + 1) == Since(interval, n) + 1
  {
    if n >= interval {
      SinceSteps(interval, n - interval);
    }
  }

  lemma {:induction false} HereGrows(interval: nat, n: nat)
    requires interval != 0 ==> Since(interval, n) + 1 < interval
    ensures Since(interval, n + 1) == Since(interval, n) + 1
  {
    if interval != 0 {
      SinceSteps(interval, n);
    }
  }

  /** What a trial run over these MCUs stands for. (folded) */
  ghost predicate Gathered(p: Params, mcus: seq<Mcu>, tokens: seq<Token>) {
    forall k: nat {:trigger Unfolded(HuffGathered, k)} :: Unfolded(HuffGathered, k) ==>
      GoodMcus(p, mcus) && ScanFits(p, mcus) && tokens == AllTokens(p, mcus)
  }

  /** The prediction in front of the next MCU. (folded) */
  ghost predicate LastHere(p: Params, mcus: seq<Mcu>, last: seq<int>) {
    forall k: nat {:trigger Unfolded(HuffGathered, k)} :: Unfolded(HuffGathered, k) ==>
      GoodMcus(p, mcus) && last == LastOf(p, mcus[|mcus| - Since(p.restartInterval, |mcus|)..])
  }

  lemma {:induction false} AnotherFits(p: Params, mcus: seq<Mcu>, tokens: seq<Token>, last: seq<int>, mcu: Mcu)
    requires Gathered(p, mcus, tokens) && LastHere(p, mcus, last) && |mcu.blocks| == |p.membership|
    requires p.mode.Sequential? && Suits(p, last, mcu)
    ensures GoodMcus(p, mcus + [mcu]) && (ScanFits(p, mcus + [mcu]) <==> McuFits(p, last, mcu, 0))
    ensures McuFits(p, last, mcu, 0) ==> Gathered(p, mcus + [mcu], tokens + McuTokens(p, last, mcu, 0))
  {
    assert Unfolded(HuffGathered, 0);
    ScanGrows(p, mcus, mcu, mcus[|mcus| - Since(p.restartInterval, |mcus|)..], mcus + [mcu]);
  }

  lemma SuffixSnoc<T>(s: seq<T>, k: nat, x: T)
    requires k <= |s|
    ensures (s + [x])[k..] == s[k..] + [x]
  {
  }

  lemma LastIs(p: Params, mcus: seq<Mcu>, here: seq<Mcu>, last: seq<int>)
    requires GoodMcus(p, mcus) && here == mcus[|mcus| - Since(p.restartInterval, |mcus|)..] && GoodMcus(p, here)
    requires last == LastOf(p, here)
    ensures LastHere(p, mcus, last)
  {
  }

  lemma {:induction false} LastOfMore(p: Params, here: seq<Mcu>, last: seq<int>, mcu: Mcu)
    requires GoodMcus(p, here) && last == LastOf(p, here) && |mcu.blocks| == |p.membership| && Suits(p, last, mcu)
    ensures GoodMcus(p, here + [mcu]) && McuLast(p, last, mcu, 0) == LastOf(p, here + [mcu])
  {
    DcSnoc(p, here, mcu);
  }

  lemma LastHereIs(p: Params, mcus: seq<Mcu>, last: seq<int>) returns (here: seq<Mcu>)
    requires LastHere(p, mcus, last)
    ensures here == mcus[|mcus| - Since(p.restartInterval, |mcus|)..]
    ensures GoodMcus(p, mcus) && GoodMcus(p, here) && last == LastOf(p, here)
  {
    assert Unfolded(HuffGathered, 0);
    here := mcus[|mcus| - Since(p.restartInterval, |mcus|)..];
  }

  lemma {:induction false} LastGoesOn(p: Params, mcus: seq<Mcu>, last: seq<int>, mcu: Mcu)
    requires LastHere(p, mcus, last) && |mcu.blocks| == |p.membership| && Suits(p, last, mcu)
    requires p.restartInterval != 0 ==> Since(p.restartInterval, |mcus|) + 1 < p.restartInterval
    ensures LastHere(p, mcus + [mcu], McuLast(p, last, mcu, 0))
  {
    var here := LastHereIs(p, mcus, last);
    HereGrows(p.restartInterval, |mcus|);
    SuffixSnoc(mcus, |mcus| - |here|, mcu);
    LastOfMore(p, here, last, mcu);
    LastIs(p, mcus + [mcu], here + [mcu], McuLast(p, last, mcu, 0));
  }

  lemma {:induction false} LastStarts(p: Params, mcus: seq<Mcu>)
    requires GoodMcus(p, mcus) && Since(p.restartInterval, |mcus|) == 0
    ensures LastHere(p, mcus, FreshLast(p))
  {
    assert mcus[|mcus|..] == [];
  }

  /** Whether the restart counter is r when n MCUs are done. */
  predicate CounterIs(interval: nat, n: nat, r: nat) {
    interval != 0 ==> r + InLast(interval, n) == interval
  }

  /** The counter says how many MCUs precede the next one in its interval. */
  lemma {:induction false} CounterSays(interval: nat, n: nat, r: nat)
    requires CounterIs(interval, n, r) && interval != 0
    ensures r == 0 ==> Since(interval, n) == 0
    ensures r > 0 ==> Since(interval, n) == InLast(interval, n) < interval
  {
    if n > 0 {
      if r == 0 {
        SinceWraps(interval, n);
      } else {
        SinceSteps(interval, n - 1);
      }
    }
  }

  lemma {:induction false} MisfitStep(p: Params, mcus: seq<Mcu>, mcu: Mcu, grown: seq<Mcu>)
    requires GoodMcus(p, mcus) && |mcu.blocks| == |p.membership| && !IsAc(p.mode) && grown == mcus + [mcu]
    requires !ScanFits(p, mcus)
    ensures GoodMcus(p, grown) && !ScanFits(p, grown)
  {
    ScanGrows(p, mcus, mcu, mcus[|mcus| - Since(p.restartInterval, |mcus|)..], grown);
  }

  /** A scan that begins with a misfit does not fit. */
  lemma {:induction false} MisfitStays(p: Params, mcus: seq<Mcu>, k: nat)
    requires GoodMcus(p, mcus) && k <= |mcus| && !IsAc(p.mode) && !ScanFits(p, mcus[..k])
    ensures !ScanFits(p, mcus)
    decreases |mcus| - k
  {
    if k < |mcus| {
      TakeSnoc(mcus, k);
      MisfitStep(p, mcus[..k], mcus[k], mcus[..k + 1]);
      MisfitStays(p, mcus, k + 1);
    } else {
      assert mcus[..k] == mcus;
    }
  }

  class McuCounter {
    const p: Params
    const numTables: nat
    var lastDc: seq<int>
    var restartsToGo: nat
    var counts: Counts

    ghost var done: seq<Mcu>
    ghost var tokens: seq<Token>           // what an output pass puts out

    ghost predicate Counting()
      reads this
    {
      GoodParams(p, numTables) && p.mode.Sequential? && |counts| == numTables && CountsOf(counts, tokens)
    }

    ghost predicate Valid()
      reads this
    {
      && Counting() && |lastDc| == |p.comps| && Gathered(p, done, tokens)
      && CounterIs(p.restartInterval, |done|, restartsToGo)
      && (p.restartInterval == 0 || restartsToGo > 0 ==> LastHere(p, done, lastDc))
    }

    constructor (params: Params, n: nat)
      requires GoodParams(params, n) && params.mode.Sequential?
      ensures Valid() && p == params && numTables == n && done == []
    {
      p, numTables, done, tokens := params, n, [], [];
      lastDc, restartsToGo := FreshLast(params), params.restartInterval;
      counts := seq(n, _ => seq(257, _ => 0));
      new;
      LastStarts(p, []);
    }

    /** dc_counts[s]++, ac_counts[s]++ */
    method CountSymbol(tbl: nat, s: Byte)
      requires Counting() && tbl < numTables
      modifies this`counts, this`tokens
      ensures Counting() && tokens == old(tokens) + [Sym(tbl, s)]
    {
      var counts' := counts[tbl := counts[tbl][s := counts[tbl][s] + 1]];
      CountsSnoc(counts, tokens, Sym(tbl, s), counts');
      counts, tokens := counts', tokens + [Sym(tbl, s)];
    }

    /** Bits that an output pass puts out behind a symbol are not counted. */
    ghost method PassOver(k: Token)
      requires Counting() && k.Raw?
      modifies this`tokens
      ensures Counting() && tokens == old(tokens) + [k]
    {
      CountsSnoc(counts, tokens, k, counts);
      tokens := tokens + [k];
    }

    // ---- htest_one_block

    method TestDc(tbl: nat, diff: int) returns (ok: bool)
      requires Counting() && tbl < numTables
      modifies this`counts, this`tokens
      ensures ok <==> Size(Abs(diff)) <= MAX_COEF_BITS + 1
      ensures ok ==> Counting() && tokens == old(tokens) + DcTokens(tbl, diff)
    {
      var nbits := NumBits(Abs(diff));
      ok := nbits <= MAX_COEF_BITS + 1;
      if ok {
        ghost var t0 := tokens;
        CountSymbol(tbl, nbits);
        if diff != 0 {
          PassOver(Raw(Extra(diff)));
          Assoc(t0, [Sym(tbl, nbits)], [Raw(Extra(diff))]);
        } else {
          assert [Sym(tbl, nbits)] + [] == [Sym(tbl, nbits)];
        }
      }
    }

    /** In front of coefficient k, with r zeros not accounted for; t0 was there before the band. */
    ghost predicate AtCoef(bd: BandScan, zz: seq<int>, k: nat, r: nat, t0: seq<Token>)
      reads this
    {
      && Counting() && bd.tbl < numTables && !bd.refine && GoodBand(bd, zz)
      && bd.ss <= k <= bd.se + 1 && SmallBand(zz, bd.ss, k - 1)
      && (FitBand(bd, zz) ==> tokens + AcTokens(bd.tbl, zz, BandEnd(bd, zz), k, r) == t0 + Coded(bd, zz))
    }

    /** Sixteen zeros in front of a nonzero coefficient. */
    method TestZrl(ghost bd: BandScan, tbl: nat, ghost zz: seq<int>, ghost k: nat, ghost r: nat, ghost t0: seq<Token>)
      requires AtCoef(bd, zz, k, r, t0) && bd.tbl == tbl && k <= bd.se && zz[k] != 0 && r > 15
      modifies this`counts, this`tokens
      ensures AtCoef(bd, zz, k, r - 16, t0)
    {
      NonzeroIsNotAfterLast(zz, bd.ss, bd.se, k);
      if FitBand(bd, zz) {
        Assoc(tokens, [Sym(tbl, ZRL)], AcTokens(tbl, zz, BandEnd(bd, zz), k, r - 16));
      }
      CountSymbol(tbl, ZRL);
    }

    method TestCoef(bd: BandScan, zz: seq<int>, k: nat, r: nat, ghost t0: seq<Token>) returns (ok: bool)
      requires AtCoef(bd, zz, k, r, t0) && k <= bd.se && zz[k] != 0 && r <= 15
      modifies this`counts, this`tokens
      ensures if ok then AtCoef(bd, zz, k + 1, 0, t0) else !FitBand(bd, zz)
    {
      var nbits := NumBits(Abs(zz[k]));
      SizeBound(Abs(zz[k]));
      ok := nbits <= MAX_COEF_BITS;
      if ok {
        NonzeroIsNotAfterLast(zz, bd.ss, bd.se, k);
        TestValue(bd, zz, k, r, nbits, t0);
      }
    }

    method TestValue(bd: BandScan, zz: seq<int>, k: nat, r: nat, nbits: nat, ghost t0: seq<Token>)
      requires AtCoef(bd, zz, k, r, t0) && k <= bd.se && zz[k] != 0 && r <= 15 && k <= BandEnd(bd, zz)
      requires 0 < nbits == Size(Abs(zz[k])) <= MAX_COEF_BITS
      modifies this`counts, this`tokens
      ensures AtCoef(bd, zz, k + 1, 0, t0)
    {
      ghost var s, v := [Sym(bd.tbl, RunSize(r, zz[k]))], [Raw(Extra(zz[k]))];
      if FitBand(bd, zz) {
        CoefSplits(tokens, bd, zz, k, r, t0, s, v);
      }
      CountSymbol(bd.tbl, r * 16 + nbits);
      PassOver(Raw(Extra(zz[k])));
    }

    method TestStep(bd: BandScan, zz: seq<int>, k: nat, r0: nat, ghost t0: seq<Token>) returns (ok: bool, r: nat)
      requires AtCoef(bd, zz, k, r0, t0) && k <= bd.se
      modifies this`counts, this`tokens
      ensures if ok then AtCoef(bd, zz, k + 1, r, t0) && r == (if zz[k] == 0 then r0 + 1 else 0) else !FitBand(bd, zz)
    {
      ok, r := true, r0;
      if zz[k] == 0 {
        r := r + 1;
        LastIsNonzero(zz, bd.ss, bd.se);
      } else {
        while r > 15
          invariant AtCoef(bd, zz, k, r, t0)
        {
          TestZrl(bd, bd.tbl, zz, k, r, t0);
          r := r - 16;
        }
        ok := TestCoef(bd, zz, k, r, t0);
        r := 0;
      }
    }

    method TestEnd(bd: BandScan, zz: seq<int>, r: nat, ghost t0: seq<Token>)
      requires AtCoef(bd, zz, bd.se + 1, r, t0) && (r > 0 <==> zz[bd.se] == 0)
      modifies this`counts, this`tokens
      ensures FitBand(bd, zz) && Counting() && tokens == t0 + Parcel(bd, zz, 0, 1)
    {
      assert tokens + [] == tokens;
      LastIsNonzero(zz, bd.ss, bd.se);
      EobIsOne(bd, zz);
      if r > 0 {
        Assoc(t0, Coded(bd, zz), [Sym(bd.tbl, 0)]);
        CountSymbol(bd.tbl, 0);
      }
    }

    method TestAc(bd: BandScan, zz: seq<int>) returns (ok: bool)
      requires Counting() && bd.tbl < numTables && !bd.refine && GoodBand(bd, zz)
      modifies this`counts, this`tokens
      ensures ok <==> FitBand(bd, zz)
      ensures ok ==> Counting() && tokens == old(tokens) + Parcel(bd, zz, 0, 1)
    {
      ghost var t0 := tokens;
      var k, r := bd.ss, 0;
      ok := true;
      while k <= bd.se && ok
        invariant bd.ss <= k <= bd.se + 1
        invariant if ok then AtCoef(bd, zz, k, r, t0) && (r > 0 <==> k > bd.ss && zz[k - 1] == 0) else !FitBand(bd, zz)
        decreases bd.se + 1 - k, ok
      {
        ok, r := TestStep(bd, zz, k, r, t0);
        k := k + 1;
      }
      if ok {
        TestEnd(bd, zz, r, t0);
      }
    }

    /** htest_one_block */
    method TestBlock(ci: nat, last: int, b: Block) returns (ok: bool)
      requires Counting() && ci < |p.comps|
      modifies this`counts, this`tokens
      ensures ok <==> BlockFits(p, ci, last, b)
      ensures ok ==> Counting() && tokens == old(tokens) + BlockTokens(p, ci, last, b)
    {
      var diff := b[0] - last;
      ghost var t0 := tokens;
      ok := TestDc(p.comps[ci].dc, diff);
      if ok {
        ghost var dc := DcTokens(p.comps[ci].dc, diff);
        if |p.order| > 1 {
          ok := TestAc(WholeBand(p, ci), Zigzag(b, p.order, 0));
        }
        Assoc(t0, dc, AcPart(p, ci, b));
        assert t0 + dc + [] == t0 + dc;
      }
    }

    // ---- encode_mcu_gather

    /** Inside an MCU: what follows depends on the prediction. (folded) */
    ghost predicate InMcu(last0: seq<int>, mcu: Mcu, i: nat, t0: seq<Token>, seen: seq<Token>)
      reads this
    {
      && i <= |mcu.blocks| && Suits(p, last0, mcu) && Suits(p, lastDc, mcu)
      && forall k: nat {:trigger Unfolded(HuffMcu, k)} :: Unfolded(HuffMcu, k) ==>
        && Counting() && tokens == t0 + seen
        && seen + McuTokens(p, lastDc, mcu, i) == McuTokens(p, last0, mcu, 0)
        && McuLast(p, lastDc, mcu, i) == McuLast(p, last0, mcu, 0)
        && (McuFits(p, lastDc, mcu, i) <==> McuFits(p, last0, mcu, 0))
    }

    method TestNext(mcu: Mcu, i: nat, ghost last0: seq<int>, ghost t0: seq<Token>, ghost seen0: seq<Token>)
      returns (ok: bool, ghost seen: seq<Token>)
      requires InMcu(last0, mcu, i, t0, seen0) && i < |mcu.blocks|
      modifies this`lastDc, this`counts, this`tokens
      ensures Suits(p, last0, mcu)
      ensures if ok then InMcu(last0, mcu, i + 1, t0, seen) else !McuFits(p, last0, mcu, 0)
    {
      assert Unfolded(HuffMcu, 0);
      var ci := p.membership[i];
      ghost var mine, rest := BlockTokens(p, ci, lastDc[ci], mcu.blocks[i]),
                              McuTokens(p, NextLast(p, ci, lastDc, mcu.blocks[i]), mcu, i + 1);
      Assoc(seen0, mine, rest);
      Assoc(t0, seen0, mine);
      seen := seen0 + mine;
      ok := TestBlock(ci, lastDc[ci], mcu.blocks[i]);
      if ok {
        lastDc := lastDc[ci := mcu.blocks[i][0]];
      }
    }

    lemma McuBegins(mcu: Mcu, t0: seq<Token>)
      requires Counting() && Suits(p, lastDc, mcu) && tokens == t0
      ensures InMcu(lastDc, mcu, 0, t0, [])
    {
      assert t0 + [] == t0 && [] + McuTokens(p, lastDc, mcu, 0) == McuTokens(p, lastDc, mcu, 0);
    }

    lemma McuEnds(last0: seq<int>, mcu: Mcu, t0: seq<Token>, seen: seq<Token>)
      requires InMcu(last0, mcu, |mcu.blocks|, t0, seen)
      ensures Suits(p, last0, mcu) && McuFits(p, last0, mcu, 0) && lastDc == McuLast(p, last0, mcu, 0)
      ensures Counting() && tokens == t0 + McuTokens(p, last0, mcu, 0)
    {
      assert Unfolded(HuffMcu, 0);
      assert seen + [] == seen;
    }

    method TestBlocks(mcu: Mcu, ghost last0: seq<int>, ghost t0: seq<Token>) returns (ok: bool)
      requires Counting() && Suits(p, lastDc, mcu) && last0 == lastDc && t0 == tokens
      modifies this`lastDc, this`counts, this`tokens
      ensures Suits(p, last0, mcu) && (ok <==> McuFits(p, last0, mcu, 0))
      ensures ok ==> Counting() && tokens == t0 + McuTokens(p, last0, mcu, 0) && lastDc == McuLast(p, last0, mcu, 0)
    {
      ghost var seen := [];
      McuBegins(mcu, t0);
      var i := 0;
      ok := true;
      while i < |mcu.blocks| && ok
        invariant 0 <= i <= |mcu.blocks|
        invariant if ok then InMcu(last0, mcu, i, t0, seen) else !McuFits(p, last0, mcu, 0)
        decreases |mcu.blocks| - i, ok
      {
        ok, seen := TestNext(mcu, i, last0, t0, seen);
        i := i + 1;
      }
      if ok {
        McuEnds(last0, mcu, t0, seen);
      }
    }

    /** Predictions start afresh where an output pass puts a restart marker. */
    method RestartIfDue()
      requires Valid()
      modifies this`lastDc, this`restartsToGo
      ensures |lastDc| == |p.comps| && LastHere(p, done, lastDc)
      ensures p.restartInterval != 0 ==>
                restartsToGo > 0 && restartsToGo + Since(p.restartInterval, |done|) == p.restartInterval
    {
      if p.restartInterval != 0 {
        CounterSays(p.restartInterval, |done|, restartsToGo);
        if restartsToGo == 0 {
          lastDc, restartsToGo := FreshLast(p), p.restartInterval;
          assert Unfolded(HuffGathered, 0);
          LastStarts(p, done);
        }
      }
    }

    /** Another MCU has been counted. */
    ghost method Record(mcu: Mcu, last: seq<int>, t0: seq<Token>)
      requires Counting() && Gathered(p, done, t0) && LastHere(p, done, last)
      requires |mcu.blocks| == |p.membership| && Suits(p, last, mcu) && McuFits(p, last, mcu, 0)
      requires tokens == t0 + McuTokens(p, last, mcu, 0) && lastDc == McuLast(p, last, mcu, 0)
      requires p.restartInterval != 0 ==> restartsToGo + Since(p.restartInterval, |done|) + 1 == p.restartInterval
      modifies this`done
      ensures Valid() && done == old(done) + [mcu]
    {
      AnotherFits(p, done, t0, last, mcu);
      if p.restartInterval == 0 || restartsToGo > 0 {
        LastGoesOn(p, done, last, mcu);
      }
      done := done + [mcu];
    }

    /** The counts of all symbols so far. */
    lemma WhatIsCounted()
      requires Valid()
      ensures GoodMcus(p, done) && ScanFits(p, done)
      ensures |counts| == numTables && CountsOf(counts, AllTokens(p, done))
    {
      assert Unfolded(HuffGathered, 0);
    }

    /** encode_mcu_gather */
    method GatherMcu(mcu: Mcu) returns (ok: bool)
      requires Valid() && |mcu.blocks| == |p.membership|
      modifies this
      ensures GoodMcus(p, old(done) + [mcu]) && (ok <==> ScanFits(p, old(done) + [mcu]))
      ensures ok ==> Valid() && done == old(done) + [mcu]
      ensures ok ==> |counts| == numTables && CountsOf(counts, AllTokens(p, old(done) + [mcu]))
    {
      RestartIfDue();
      ghost var last, t0 := lastDc, tokens;
      AnotherFits(p, done, t0, last, mcu);
      if p.restartInterval != 0 {
        restartsToGo := restartsToGo - 1;
      }
      ok := TestBlocks(mcu, last, t0);
      if ok {
        Record(mcu, last, t0);
        WhatIsCounted();
      }
    }
  }
}
