/** The progressive Huffman encoder: scans of each kind, with restart intervals, for output or for statistics. */
module HuffmanScanEncoder {
  import opened Numbers
  import opened BitStrings
  import opened Blocks
  import opened Scans
  import opened IntervalCoder
  import opened Markers
  import opened BitWriter
  import opened HuffmanStream
  import opened HuffmanBlocks
  import opened HuffmanRuns
  import opened HuffmanRunEncoder
  import opened HuffmanScan
  import opened HuffmanBytes
  import opened RestartLayout

  // ---- DC values

  /** Section G.1.2.1: the DC difference. */
  method EmitDc(sink: HuffSink, tbl: nat, diff: int) returns (ok: bool)
    requires sink.Valid() && tbl < sink.numTables
    modifies sink`counts, sink`tokens, sink.w
    ensures ok ==> Size(Abs(diff)) <= MAX_COEF_BITS + 1 && sink.Valid()
                   && sink.tokens == old(sink.tokens) + DcTokens(tbl, diff)
    ensures !ok && Size(Abs(diff)) <= MAX_COEF_BITS + 1 ==> sink.Fails(DcTokens(tbl, diff))
  {
    var nbits := NumBits(Abs(diff));
    ok := nbits <= MAX_COEF_BITS + 1;
    if ok {
      ghost var s, v := [Sym(tbl, nbits)], if diff == 0 then [] else [Raw(Extra(diff))];
      ok := sink.EmitSymbol(tbl, nbits);
      if !ok {
        LacksInside(sink.ts, [], s, v);
      } else if nbits != 0 {
        ExtendsBack(diff);
        var done := sink.EmitBits(ExtraValue(diff), nbits);
        Assoc(old(sink.tokens), s, v);
      }
    }
  }

  lemma {:induction false} OneBitLow(v: int)
    ensures Low(v % 2, 1) == [v % 2]
  {
    assert Low(v % 2, 1) == Low(0, 0) + [v % 2];
  }

  /** One block of encode_mcu_DC_first or encode_mcu_DC_refine. */
  method EmitBlock(sink: HuffSink, p: Params, ci: nat, last: int, b: Block) returns (ok: bool)
    requires sink.Valid() && ci < |p.comps| && GoodParams(p, sink.numTables) && (p.mode.DcFirst? || p.mode.DcRefine?)
    modifies sink`counts, sink`tokens, sink.w
    ensures ok ==> BlockFits(p, ci, last, b) && sink.Valid()
                   && sink.tokens == old(sink.tokens) + BlockTokens(p, ci, last, b)
    ensures !ok && BlockFits(p, ci, last, b) ==> sink.Fails(BlockTokens(p, ci, last, b))
  {
    if p.mode.DcFirst? {
      ok := EmitDc(sink, p.comps[ci].dc, Shr(b[0], p.mode.al) - last);
    } else {
      OneBitLow(Shr(b[0], p.mode.al));
      ok := sink.EmitBits(Shr(b[0], p.mode.al) % 2, 1);
    }
  }

  // ---- Where the encoder is in a scan

  ghost predicate Halted(sink: HuffSink, p: Params, mcus: seq<Mcu>)
    requires GoodMcus(p, mcus)
  {
    ScanFits(p, mcus) ==> sink.Fails(AllTokens(p, mcus))
  }

  /** A scan with an MCU that lacks a code. */
  lemma {:induction false} DcLacksCode(p: Params, ts: Tables, mcus: seq<Mcu>, k: nat, here: seq<Mcu>, t: seq<Token>)
    requires GoodMcus(p, mcus) && k < |mcus| && ScanFits(p, mcus) && !IsAc(p.mode)
    requires here == mcus[k - Since(p.restartInterval, k)..k] && GoodMcus(p, here)
    requires t == McuTokens(p, LastOf(p, here), mcus[k], 0) && Lacks(ts, t)
    ensures Lacks(ts, AllTokens(p, mcus))
  {
    if AllCoded(ts, AllTokens(p, mcus)) {
      NextIsCodable(p, ts, mcus, k, here, true);
    }
  }

  /** Intervals of their full length. */
  ghost predicate FullOnes(p: Params, segs: seq<HuffSegment>) {
    forall i :: 0 <= i < |segs| ==> |segs[i].mcus| == p.restartInterval
  }

  /** What is in front of the open interval: bytes, or the symbols that have been counted. (folded) */
  ghost predicate InFront(p: Params, ts: Tables, gather: bool, start: seq<Byte>, base: seq<Byte>,
                          closed: seq<HuffSegment>, front: seq<Token>)
  {
    forall k: nat {:trigger Unfolded(HuffFront, k)} :: Unfolded(HuffFront, k) ==>
      if gather then GoodMcus(p, Mcus(closed)) && ScanFits(p, Mcus(closed)) && front == AllTokens(p, Mcus(closed))
      else front == [] && start == base + Flat(closed) && ClosedIntervals(p, ts, closed)
  }

  /** The counters agree with it. */
  ghost predicate Counted(p: Params, closed: seq<HuffSegment>, open: seq<Mcu>, restartsToGo: nat, number: nat) {
    && FullOnes(p, closed) && number == Number(|closed|)
    && (if p.restartInterval == 0 then closed == [] else restartsToGo + |open| == p.restartInterval)
  }

  /** The marker behind a segment. */
  method MarkSegment(w: BitWriter, ghost base: seq<Byte>, ghost closed: seq<HuffSegment>, ghost s: HuffSegment,
                     number: nat)
    requires w.output == base + Flat(closed) + Stuff(s.data) && number == Number(|closed|)
    modifies w`output
    ensures w.output == base + Flat(closed + [s])
  {
    FlatSnoc(base, closed, s);
    w.EmitMarker(M_RST0 + number);
  }

  class ScanEncoder {
    const sink: HuffSink
    const p: Params
    const run: RunEncoder?                 // EOBRUN and the correction bits of an AC scan
    var lastDc: seq<int>
    var restartsToGo: nat
    var nextRestartNum: nat

    ghost const base: seq<Byte>            // output before the scan
    ghost var front: seq<Token>            // symbols counted before the current interval
    ghost var mine: seq<Token>             // tokens of the current interval of a DC scan
    ghost var closed: seq<HuffSegment>     // finished restart intervals
    ghost var open: seq<Mcu>               // MCUs of the current one

    ghost predicate Static() {
      && GoodParams(p, sink.numTables) && !p.mode.Sequential? && (!sink.gather ==> sink.Shapes())
      && (if IsAc(p.mode) then run != null && run.sink == sink && run.bd == BandOf(p) else run == null)
    }

    /** These MCUs are the open interval of an AC scan. (folded) */
    ghost predicate RunIs(mcus: seq<Mcu>)
      reads this, run, sink, sink.w
    {
      forall k: nat {:trigger Unfolded(HuffOpen, k)} :: Unfolded(HuffOpen, k) ==>
        && Static() && IsAc(p.mode) && run.Valid() && run.partial == [] && run.front == front
        && GoodMcus(p, mcus) && AllFit(BandOf(p), BandsOf(p, mcus))
        && run.p == ProgressOf(BandOf(p), BandsOf(p, mcus))
    }

    /** These MCUs are the open interval of a DC scan. */
    ghost predicate DcIs(mcus: seq<Mcu>)
      reads this, sink, sink.w
    {
      && sink.Valid() && |lastDc| == |p.comps| && IntervalIs(p, mcus, lastDc, mine) && sink.tokens == front + mine
    }

    ghost predicate OpenIs(mcus: seq<Mcu>)
      reads this, run, sink, sink.w
    {
      if IsAc(p.mode) then RunIs(mcus) else DcIs(mcus)
    }

    ghost predicate InPlace()
      reads this, sink
    {
      && InFront(p, sink.ts, sink.gather, sink.start, base, closed, front)
      && Counted(p, closed, open, restartsToGo, nextRestartNum)
    }

    ghost predicate Invariant()
      reads this, run, sink, sink.w
    {
      Static() && OpenIs(open) && InPlace()
    }

    /** Between calls. (folded) */
    ghost predicate Valid()
      reads this, run, sink, sink.w
    {
      forall k: nat {:trigger Unfolded(HuffOutput, k)} :: Unfolded(HuffOutput, k) ==>
        Invariant() && SplitRight(p, closed, open)
    }

    ghost function All(): seq<Mcu>
      reads this
    {
      Mcus(closed) + open
    }

    lemma {:induction false} NothingInFront(start: seq<Byte>)
      requires Shaped(p)
      ensures InFront(p, sink.ts, sink.gather, start, start, [], [])
      ensures IsAc(p.mode) ==> BandsOf(p, []) == []
    {
      assert start + [] == start;
    }

    constructor (s: HuffSink, params: Params)
      requires s.Valid() && s.tokens == [] && GoodParams(params, s.numTables) && !params.mode.Sequential?
      ensures Valid() && sink == s && p == params && base == s.start && All() == [] && (run != null ==> fresh(run))
    {
      sink, p := s, params;
      lastDc, restartsToGo, nextRestartNum := FreshLast(params), params.restartInterval, 0;
      base, front, mine, closed, open := s.start, [], [], [], [];
      if IsAc(params.mode) {
        run := new RunEncoder(s, BandOf(params));
      } else {
        run := null;
      }
      new;
      assert Unfolded(SinkState, 0);
      IntervalOpens(p);
      NothingInFront(sink.start);
    }

    // ---- DC scans

    /** Inside an MCU: `done` is out, and what follows depends on the prediction. (folded) */
    ghost predicate InMcu(last0: seq<int>, mcu: Mcu, i: nat, t0: seq<Token>, done: seq<Token>)
      reads this, sink, sink.w
    {
      && i <= |mcu.blocks| && Suits(p, last0, mcu) && Suits(p, lastDc, mcu)
      && forall k: nat {:trigger Unfolded(HuffMcu, k)} :: Unfolded(HuffMcu, k) ==> McuInvariant(last0, mcu, i, t0, done)
    }

    ghost predicate McuInvariant(last0: seq<int>, mcu: Mcu, i: nat, t0: seq<Token>, done: seq<Token>)
      requires i <= |mcu.blocks| && Suits(p, last0, mcu) && Suits(p, lastDc, mcu)
      reads this, sink, sink.w
    {
      && sink.Valid() && sink.tokens == t0 + done
      && done + McuTokens(p, lastDc, mcu, i) == McuTokens(p, last0, mcu, 0)
      && McuLast(p, lastDc, mcu, i) == McuLast(p, last0, mcu, 0)
      && (McuFits(p, lastDc, mcu, i) <==> McuFits(p, last0, mcu, 0))
    }

    method EmitNext(mcu: Mcu, i: nat, ghost last0: seq<int>, ghost t0: seq<Token>, ghost done0: seq<Token>)
      returns (ok: bool, ghost done: seq<Token>)
      requires InMcu(last0, mcu, i, t0, done0) && i < |mcu.blocks| && Static() && !IsAc(p.mode)
      modifies this`lastDc, sink`counts, sink`tokens, sink.w
      ensures ok ==> InMcu(last0, mcu, i + 1, t0, done)
      ensures !ok && Suits(p, last0, mcu) && McuFits(p, last0, mcu, 0) ==> sink.Fails(McuTokens(p, last0, mcu, 0))
    {
      assert Unfolded(HuffMcu, 0);
      var ci := p.membership[i];
      ghost var mine, rest := BlockTokens(p, ci, lastDc[ci], mcu.blocks[i]),
                              McuTokens(p, NextLast(p, ci, lastDc, mcu.blocks[i]), mcu, i + 1);
      Assoc(done0, mine, rest);
      Assoc(t0, done0, mine);
      done := done0 + mine;
      ok := EmitBlock(sink, p, ci, lastDc[ci], mcu.blocks[i]);
      if ok {
        lastDc := NextLast(p, ci, lastDc, mcu.blocks[i]);
      } else if McuFits(p, last0, mcu, 0) {
        LacksInside(sink.ts, done0, mine, rest);
      }
    }

    lemma {:induction false} McuBegins(mcu: Mcu, t0: seq<Token>)
      requires sink.Valid() && Suits(p, lastDc, mcu) && sink.tokens == t0
      ensures InMcu(lastDc, mcu, 0, t0, [])
    {
      assert t0 + [] == t0 && [] + McuTokens(p, lastDc, mcu, 0) == McuTokens(p, lastDc, mcu, 0);
    }

    lemma {:induction false} McuEnds(last0: seq<int>, mcu: Mcu, t0: seq<Token>, done: seq<Token>)
      requires InMcu(last0, mcu, |mcu.blocks|, t0, done)
      ensures Suits(p, last0, mcu)
      ensures McuFits(p, last0, mcu, 0) && lastDc == McuLast(p, last0, mcu, 0)
      ensures sink.Valid() && sink.tokens == t0 + McuTokens(p, last0, mcu, 0)
    {
      assert Unfolded(HuffMcu, 0);
      assert done + [] == done;
    }

    /** The blocks of one MCU. */
    method EmitBlocks(mcu: Mcu, ghost last0: seq<int>, ghost t0: seq<Token>) returns (ok: bool)
      requires sink.Valid() && Static() && !IsAc(p.mode) && Suits(p, lastDc, mcu)
      requires last0 == lastDc && t0 == sink.tokens
      modifies this`lastDc, sink`counts, sink`tokens, sink.w
      ensures Suits(p, last0, mcu)
      ensures ok ==> McuFits(p, last0, mcu, 0) && lastDc == McuLast(p, last0, mcu, 0)
      ensures ok ==> sink.Valid() && sink.tokens == t0 + McuTokens(p, last0, mcu, 0)
      ensures !ok && McuFits(p, last0, mcu, 0) ==> sink.Fails(McuTokens(p, last0, mcu, 0))
    {
      ghost var done := [];
      McuBegins(mcu, t0);
      var i := 0;
      ok := true;
      while i < |mcu.blocks| && ok
        invariant 0 <= i <= |mcu.blocks|
        invariant ok ==> InMcu(last0, mcu, i, t0, done)
        invariant !ok && McuFits(p, last0, mcu, 0) ==> sink.Fails(McuTokens(p, last0, mcu, 0))
        decreases |mcu.blocks| - i, ok
      {
        ok, done := EmitNext(mcu, i, last0, t0, done);
        i := i + 1;
      }
      if ok {
        McuEnds(last0, mcu, t0, done);
      }
    }

    /** The MCU joins the open interval of a DC scan. */
    method EmitDcMcu(mcu: Mcu, ghost last: seq<int>, ghost t: seq<Token>) returns (ok: bool)
      requires Static() && !IsAc(p.mode) && OpenIs(open) && |mcu.blocks| == |p.membership|
      requires last == lastDc && Suits(p, last, mcu) && t == McuTokens(p, last, mcu, 0)
      modifies this`lastDc, this`mine, sink`counts, sink`tokens, sink.w
      ensures ok ==> OpenIs(open + [mcu])
      ensures !ok && McuFits(p, last, mcu, 0) ==> sink.Fails(t)
    {
      ghost var t0 := sink.tokens;
      ok := EmitBlocks(mcu, last, t0);
      if ok {
        IntervalGrows(p, open, last, mine, mcu);
        Assoc(front, mine, t);
        mine := mine + t;
      }
    }

    // ---- AC scans

    lemma {:induction false} RunGrows(mcus: seq<Mcu>, mcu: Mcu, zz: seq<int>)
      requires GoodMcus(p, mcus) && Static() && IsAc(p.mode) && |mcu.blocks| == |p.membership|
      requires AllFit(BandOf(p), BandsOf(p, mcus)) && zz == Zigzag(mcu.blocks[0], p.order, p.mode.al)
      requires FitBand(BandOf(p), zz)
      ensures GoodMcus(p, mcus + [mcu]) && AllFit(BandOf(p), BandsOf(p, mcus + [mcu]))
      ensures ProgressOf(BandOf(p), BandsOf(p, mcus + [mcu]))
              == HuffmanRuns.Step(BandOf(p), ProgressOf(BandOf(p), BandsOf(p, mcus)), zz)
    {
      BandsSnoc(p, mcus, mcu);
      ProgressSnoc(BandOf(p), BandsOf(p, mcus), zz);
    }

    /** The block of an AC scan joins the open interval. */
    method EmitAcMcu(mcu: Mcu, zz: seq<int>) returns (ok: bool)
      requires Static() && IsAc(p.mode) && OpenIs(open) && |mcu.blocks| == |p.membership|
      requires zz == Zigzag(mcu.blocks[0], p.order, p.mode.al)
      modifies run, sink`counts, sink`tokens, sink.w
      ensures GoodMcus(p, open) && AllFit(BandOf(p), BandsOf(p, open)) && GoodBand(BandOf(p), zz)
      ensures ok ==> OpenIs(open + [mcu])
      ensures !ok && FitBand(BandOf(p), zz) ==>
                sink.Fails(StepOut(BandOf(p), ProgressOf(BandOf(p), BandsOf(p, open)), zz))
    {
      assert Unfolded(HuffOpen, 0);
      if p.mode.AcRefine? {
        ok := run.EncodeRefine(zz);
      } else {
        ok := run.EncodeFirst(zz);
      }
      if ok {
        RunGrows(open, mcu, zz);
      }
    }

    // ---- The end of an interval

    /** The run that is pending at the end of the open interval has no code. */
    ghost predicate RunStuck()
      reads this
      requires GoodMcus(p, open)
    {
      && IsAc(p.mode) && AllFit(BandOf(p), BandsOf(p, open))
      && sink.Fails(RunOut(BandOf(p), ProgressOf(BandOf(p), BandsOf(p, open))))
    }

    /** What the run encoder's record amounts to when nothing is pending. */
    lemma RunIsOut()
      requires run != null && run.Valid() && run.partial == []
      ensures run.sink.Valid() && run.sink.tokens == run.front + Put(run.bd, run.p)
    {
      assert Unfolded(RunOutput, 0);
      assert run.front + Put(run.bd, run.p) + [] == run.front + Put(run.bd, run.p);
    }

    lemma {:induction false} RunEnds()
      requires Static() && IsAc(p.mode) && GoodMcus(p, open) && AllFit(BandOf(p), BandsOf(p, open))
      requires run.Valid() && run.partial == [] && run.front == front
      requires run.p == Flushed(ProgressOf(BandOf(p), BandsOf(p, open)))
      ensures sink.Valid() && sink.tokens == front + IntervalTokens(p, open)
    {
      assert Put(BandOf(p), run.p) == IntervalTokens(p, open);
      RunIsOut();
    }

    /** All tokens of the open interval are out: emit_eobrun, in an AC scan. */
    method EndInterval() returns (ok: bool)
      requires Static() && OpenIs(open)
      modifies run, sink`counts, sink`tokens, sink.w
      ensures GoodMcus(p, open) && IntervalFits(p, open)
      ensures ok ==> sink.Valid() && sink.tokens == front + IntervalTokens(p, open)
      ensures !ok ==> RunStuck()
    {
      assert Unfolded(HuffOpen, 0);
      ok := true;
      if IsAc(p.mode) {
        ok := run.EmitEobrun();
        if ok {
          RunEnds();
        }
      }
    }

    /** The padded segment, when the tokens are out. */
    method PutSegment() returns (ghost s: HuffSegment)
      requires Static() && !sink.gather && InPlace() && GoodMcus(p, open) && IntervalFits(p, open)
      requires sink.Valid() && sink.tokens == front + IntervalTokens(p, open)
      modifies sink.w
      ensures |sink.tables| == sink.numTables && IsInterval(p, sink.ts, s)
      ensures s.mcus == open && s.data == Filled(IntervalBits(p, sink.ts, open))
      ensures sink.w.output == base + Flat(closed) + Stuff(s.data)
    {
      assert Unfolded(HuffFront, 0);
      assert [] + IntervalTokens(p, open) == IntervalTokens(p, open);
      ghost var pad := sink.Flush();
      s := Segment(open, pad, sink.w.emitted);
      assert Unfolded(SinkState, 0);
      IntervalIsDone(p, sink.ts, s, sink.tokens);
      IntervalData(p, sink.ts, s);
    }

    lemma {:induction false} FrontGrows()
      requires sink.gather && GoodMcus(p, open) && IntervalFits(p, open) && open != []
      requires InPlace() && (p.restartInterval != 0 ==> |open| <= p.restartInterval)
      ensures GoodMcus(p, All()) && ScanFits(p, All()) && AllTokens(p, All()) == front + IntervalTokens(p, open)
    {
      assert Unfolded(HuffFront, 0);
      OpenIsLast(p, closed, open);
      ScanSnoc(p, Mcus(closed), open);
    }

    /** A full interval of symbols that are only counted. */
    ghost method CloseCounted() returns (s: HuffSegment)
      requires Static() && InPlace() && sink.gather && p.restartInterval == |open| > 0
      requires GoodMcus(p, open) && IntervalFits(p, open) && sink.tokens == front + IntervalTokens(p, open)
      modifies this`front
      ensures s.mcus == open && sink.tokens == front
      ensures InFront(p, sink.ts, sink.gather, sink.start, base, closed + [s], front)
    {
      assert Unfolded(HuffFront, 0);
      s := Segment(open, 0, []);
      FrontGrows();
      FlatSnoc([], closed, s);
      front := sink.tokens;
    }

    /** The padded segment and the marker. */
    method PutMarker() returns (ghost s: HuffSegment)
      requires Static() && InPlace() && !sink.gather && p.restartInterval == |open| > 0
      requires GoodMcus(p, open) && IntervalFits(p, open)
      requires sink.Valid() && sink.tokens == front + IntervalTokens(p, open)
      modifies sink.w
      ensures s.mcus == open && IsInterval(p, sink.ts, s) && sink.w.output == base + Flat(closed + [s])
      ensures |sink.tables| == sink.numTables
    {
      assert Unfolded(HuffFront, 0);
      s := PutSegment();
      MarkSegment(sink.w, base, closed, s, nextRestartNum);
    }

    /** A full interval that has been written is closed by its marker. */
    method CloseWritten() returns (ghost s: HuffSegment)
      requires Static() && InPlace() && !sink.gather && p.restartInterval == |open| > 0
      requires GoodMcus(p, open) && IntervalFits(p, open)
      requires sink.Valid() && sink.tokens == front + IntervalTokens(p, open)
      modifies sink`tokens, sink`start, sink.w
      ensures s.mcus == open && sink.Valid() && sink.tokens == front
      ensures InFront(p, sink.ts, sink.gather, sink.start, base, closed + [s], front)
    {
      assert Unfolded(HuffFront, 0);
      s := PutMarker();
      ClosedSnoc(p, sink.ts, closed, s);
      sink.Begin();
    }

    /** A full interval is closed: by its marker, unless symbols are only counted. */
    method CloseInterval()
      requires Static() && InPlace() && p.restartInterval == |open| > 0
      requires GoodMcus(p, open) && IntervalFits(p, open)
      requires sink.Valid() && sink.tokens == front + IntervalTokens(p, open)
      modifies this`front, this`closed, this`open, sink`tokens, sink`start, sink.w
      ensures sink.Valid() && sink.tokens == front && open == [] && |closed| == old(|closed|) + 1 && All() == old(All())
      ensures InFront(p, sink.ts, sink.gather, sink.start, base, closed, front) && FullOnes(p, closed)
    {
      ghost var s;
      if sink.gather {
        s := CloseCounted();
      } else {
        s := CloseWritten();
      }
      FlatSnoc([], closed, s);
      closed, open := closed + [s], [];
      assert Mcus(closed) + [] == Mcus(closed);
    }

    /** Nothing is pending and nothing predicted behind the marker. */
    method StartAfresh()
      requires Static() && sink.Valid() && sink.tokens == front && open == []
      modifies this`lastDc, this`mine, run
      ensures OpenIs(open)
    {
      lastDc, mine := FreshLast(p), [];
      IntervalOpens(p);
      assert front + [] == front;
      NothingInFront([]);
      if IsAc(p.mode) {
        run.Reset();
      }
    }

    /** The next interval begins. */
    method Reopen()
      requires Static() && InPlace() && p.restartInterval == |open| > 0
      requires GoodMcus(p, open) && IntervalFits(p, open)
      requires sink.Valid() && sink.tokens == front + IntervalTokens(p, open)
      modifies this`lastDc, this`restartsToGo, this`nextRestartNum, this`front, this`mine, this`closed, this`open,
          run, sink`tokens, sink`start, sink.w
      ensures Invariant() && restartsToGo == p.restartInterval && All() == old(All()) && open == []
    {
      CloseInterval();
      restartsToGo, nextRestartNum := p.restartInterval, Following(nextRestartNum);
      StartAfresh();
    }

    /** emit_restart_e */
    method EmitRestart() returns (ok: bool)
      requires Invariant() && p.restartInterval != 0 && restartsToGo == 0
      modifies this`lastDc, this`restartsToGo, this`nextRestartNum, this`front, this`mine, this`closed, this`open,
          run, sink`counts, sink`tokens, sink`start, sink.w
      ensures ok ==> Invariant() && restartsToGo == p.restartInterval && All() == old(All()) && open == []
      ensures GoodMcus(p, old(open)) && (!ok ==> open == old(open) && closed == old(closed) && RunStuck())
    {
      ok := EndInterval();
      if ok {
        Reopen();
      }
    }

    // ---- One MCU

    /** The interval has one more MCU. */
    method Join(ghost mcu: Mcu)
      requires Static() && InPlace() && OpenIs(open + [mcu]) && (p.restartInterval != 0 ==> restartsToGo > 0)
      modifies this`open, this`restartsToGo
      ensures Invariant() && All() == old(All()) + [mcu] && SplitRight(p, closed, open)
    {
      Assoc(Mcus(closed), open, [mcu]);
      open := open + [mcu];
      if p.restartInterval != 0 {
        restartsToGo := restartsToGo - 1;
      }
    }

    /** What is in front of the next MCU in its interval. */
    lemma {:induction false} OpenIsSince(mcus: seq<Mcu>, k: nat)
      requires Invariant() && k <= |mcus| && All() == mcus[..k] && (p.restartInterval != 0 ==> restartsToGo > 0)
      ensures Since(p.restartInterval, k) <= k && mcus[k - Since(p.restartInterval, k)..k] == open
      ensures GoodMcus(p, open) && (!IsAc(p.mode) ==> lastDc == LastOf(p, open))
    {
      assert Unfolded(HuffFront, 0);
      assert Unfolded(HuffOpen, 0);
      SinceStart(p.restartInterval, closed, open, mcus, k);
    }

    lemma {:induction false} DcHalts(mcus: seq<Mcu>, k: nat, here: seq<Mcu>, t: seq<Token>)
      requires GoodMcus(p, mcus) && k < |mcus| && Static() && here == mcus[k - Since(p.restartInterval, k)..k]
      requires !IsAc(p.mode) && GoodMcus(p, here) && t == McuTokens(p, LastOf(p, here), mcus[k], 0)
      requires McuFits(p, LastOf(p, here), mcus[k], 0) ==> sink.Fails(t)
      ensures Halted(sink, p, mcus)
    {
      if ScanFits(p, mcus) {
        NextIsCodable(p, [], mcus, k, here, false);
        DcLacksCode(p, sink.ts, mcus, k, here, t);
      }
    }

    lemma {:induction false} AcHalts(mcus: seq<Mcu>, k: nat, here: seq<Mcu>, zz: seq<int>)
      requires GoodMcus(p, mcus) && k < |mcus| && Static() && here == mcus[k - Since(p.restartInterval, k)..k]
      requires IsAc(p.mode) && GoodMcus(p, here) && AllFit(BandOf(p), BandsOf(p, here))
      requires zz == Zigzag(mcus[k].blocks[0], p.order, p.mode.al)
      requires FitBand(BandOf(p), zz) ==>
                 sink.Fails(StepOut(BandOf(p), ProgressOf(BandOf(p), BandsOf(p, here)), zz))
      ensures Halted(sink, p, mcus)
    {
      if ScanFits(p, mcus) {
        BlockFitsInScan(p, mcus, k, here, zz);
        BlockLacksCode(p, sink.ts, mcus, k, here, zz);
      }
    }

    /** The run that is pending at the end of a scan. */
    lemma {:induction false} RunHalts(mcus: seq<Mcu>)
      requires GoodMcus(p, mcus) && Static() && GoodMcus(p, open) && RunStuck() && mcus == All()
      requires FullOnes(p, closed) && open != []
      requires if p.restartInterval == 0 then closed == [] else |open| <= p.restartInterval
      ensures Halted(sink, p, mcus)
    {
      OpenIsLast(p, closed, open);
      assert mcus[|mcus| - |open|..] == open;
      if ScanFits(p, mcus) {
        RunLacksCode(p, sink.ts, mcus, open);
      }
    }

    lemma {:induction false} HaltsLater(mcus: seq<Mcu>, k: nat)
      requires GoodMcus(p, mcus) && k <= |mcus| && Static() && Since(p.restartInterval, k) == 0
      requires Halted(sink, p, mcus[..k])
      ensures Halted(sink, p, mcus)
    {
      if ScanFits(p, mcus) {
        var ts := if sink.gather then [] else sink.ts;
        FullPrefix(p, ts, mcus, k, !sink.gather && AllCoded(ts, AllTokens(p, mcus)));
        assert Unfolded(HuffPart, 0);
      }
    }

    /** The run that is pending at the end of a full interval. */
    lemma {:induction false} FullRunHalts(mcus: seq<Mcu>, k: nat)
      requires GoodMcus(p, mcus) && k <= |mcus| && Static() && GoodMcus(p, open) && RunStuck()
      requires FullOnes(p, closed) && All() == mcus[..k] && p.restartInterval == |open| > 0
      ensures Halted(sink, p, mcus)
    {
      OpenIsLast(p, closed, open);
      SinceWraps(p.restartInterval, k);
      RunHalts(mcus[..k]);
      HaltsLater(mcus, k);
    }

    /** The MCU after a restart marker that may be due. */
    method EncodeHere(mcus: seq<Mcu>, k: nat) returns (ok: bool)
      requires Invariant() && GoodMcus(p, mcus) && k < |mcus| && All() == mcus[..k]
      requires p.restartInterval != 0 ==> restartsToGo > 0
      modifies this`lastDc, this`restartsToGo, this`mine, this`open, run, sink`counts, sink`tokens, sink.w
      ensures ok ==> Invariant() && All() == mcus[..k + 1] && SplitRight(p, closed, open)
      ensures !ok ==> Halted(sink, p, mcus)
    {
      OpenIsSince(mcus, k);
      TakeSnoc(mcus, k);
      var mcu := mcus[k];
      ghost var here := open;
      if IsAc(p.mode) {
        var zz := Zigzag(mcu.blocks[0], p.order, p.mode.al);
        ok := EmitAcMcu(mcu, zz);
        if !ok {
          AcHalts(mcus, k, here, zz);
        }
      } else {
        ghost var t := McuTokens(p, lastDc, mcu, 0);
        ok := EmitDcMcu(mcu, lastDc, t);
        if !ok {
          DcHalts(mcus, k, here, t);
        }
      }
      if ok {
        Join(mcu);
      }
    }

    method RestartIfDue(ghost mcus: seq<Mcu>, ghost k: nat) returns (ok: bool)
      requires Invariant() && SplitRight(p, closed, open) && GoodMcus(p, mcus) && k <= |mcus| && All() == mcus[..k]
      modifies this`lastDc, this`restartsToGo, this`nextRestartNum, this`front, this`mine, this`closed, this`open,
          run, sink`counts, sink`tokens, sink`start, sink.w
      ensures ok ==> Invariant() && All() == mcus[..k] && (p.restartInterval != 0 ==> restartsToGo > 0)
      ensures !ok ==> Halted(sink, p, mcus)
    {
      ok := true;
      if p.restartInterval != 0 && restartsToGo == 0 {
        ok := EmitRestart();
        if !ok {
          FullRunHalts(mcus, k);
        }
      }
    }

    /** encode_mcu_DC_first, encode_mcu_AC_first, encode_mcu_DC_refine and encode_mcu_AC_refine */
    method EncodeMcu(mcus: seq<Mcu>, k: nat) returns (ok: bool)
      requires Valid() && GoodMcus(p, mcus) && k < |mcus| && All() == mcus[..k]
      modifies this, run, sink`counts, sink`tokens, sink`start, sink.w
      ensures ok ==> Valid() && All() == mcus[..k + 1]
      ensures !ok ==> Halted(sink, p, mcus)
    {
      assert Unfolded(HuffOutput, 0);
      ok := RestartIfDue(mcus, k);
      if ok {
        ok := EncodeHere(mcus, k);
      }
    }

    /** What the scan amounts to when its last interval ends. */
    lemma {:induction false} AllIsCounted()
      requires Static() && InPlace() && sink.gather && GoodMcus(p, open) && IntervalFits(p, open)
      requires sink.tokens == front + IntervalTokens(p, open) && SplitRight(p, closed, open)
      ensures GoodMcus(p, All()) && ScanFits(p, All()) && sink.tokens == AllTokens(p, All())
    {
      assert Unfolded(HuffFront, 0);
      if open == [] {
        assert Mcus(closed) + open == Mcus(closed);
        EmptyInterval(p);
        assert front + [] == front;
      } else {
        FrontGrows();
      }
    }

    lemma {:induction false} OutputEnds(ts: Tables, out: seq<Byte>, s: HuffSegment, segs: seq<HuffSegment>)
      requires GoodMcus(p, open) && GoodTables(ts) && ClosedIntervals(p, ts, closed) && SplitRight(p, closed, open)
      requires IsInterval(p, ts, s) && s.mcus == open && s.data == Filled(IntervalBits(p, ts, open))
      requires segs == closed + [s] && out == base + Flat(closed) + Stuff(s.data)
      ensures GoodMcus(p, All()) && out == base + ScanBytes(p, ts, All())
      ensures IsHuffScan(p, ts, segs, ScanBytes(p, ts, All())) && Mcus(segs) == All()
    {
      ScanIs(p, ts, closed, open);
      assert segs[..|closed|] == closed;
      Assoc(base, Flat(closed), Stuff(s.data));
    }

    /** The last interval, written. */
    method FinishOutput() returns (ghost segs: seq<HuffSegment>)
      requires Static() && InPlace() && !sink.gather && GoodMcus(p, open) && IntervalFits(p, open)
      requires sink.Valid() && sink.tokens == front + IntervalTokens(p, open) && SplitRight(p, closed, open)
      modifies sink.w
      ensures GoodTables(sink.ts) && GoodMcus(p, All()) && sink.w.output == base + ScanBytes(p, sink.ts, All())
      ensures IsHuffScan(p, sink.ts, segs, ScanBytes(p, sink.ts, All())) && Mcus(segs) == All()
    {
      assert Unfolded(HuffFront, 0);
      ghost var s := PutSegment();
      segs := closed + [s];
      OutputEnds(sink.ts, sink.w.output, s, segs);
    }

    lemma {:induction false} StuckIsOpen()
      requires Static() && GoodMcus(p, open) && RunStuck()
      ensures open != []
    {
    }

    lemma {:induction false} EndHalts(mcus: seq<Mcu>)
      requires Static() && InPlace() && SplitRight(p, closed, open) && GoodMcus(p, open) && RunStuck()
      requires mcus == All() && GoodMcus(p, mcus)
      ensures Halted(sink, p, mcus)
    {
      StuckIsOpen();
      RunHalts(mcus);
    }

    /** finish_pass_huff, and the part of finish_pass_gather that concerns the run that is pending. */
    method Finish() returns (ok: bool, ghost segs: seq<HuffSegment>)
      requires Valid() && GoodMcus(p, All())
      modifies run, sink`counts, sink`tokens, sink.w
      ensures !ok ==> Halted(sink, p, All())
      ensures ok && sink.gather ==> sink.Valid() && ScanFits(p, All()) && sink.tokens == AllTokens(p, All())
      ensures ok && !sink.gather ==> GoodTables(sink.ts) && sink.w.output == base + ScanBytes(p, sink.ts, All())
      ensures ok && !sink.gather ==> IsHuffScan(p, sink.ts, segs, ScanBytes(p, sink.ts, All())) && Mcus(segs) == All()
    {
      segs := [];
      assert Unfolded(HuffOutput, 0);
      ok := EndInterval();
      if !ok {
        EndHalts(All());
      } else if sink.gather {
        AllIsCounted();
      } else {
        segs := FinishOutput();
      }
    }
  }
}
