/** MCU encoding with the arithmetic coder: all five scan modes, restart intervals, end of scan. */
module ArithMcuEncoder {
  import opened Numbers
  import opened IntervalCoder
  import opened ArithEncoder
  import opened ArithBlockEncoder
  import opened Binarisation
  import opened Blocks
  import opened Scans
  import opened ArithScan
  import opened ScanLayout
  import opened RestartLayout
  import opened Markers

  lemma ZigzagRange(b: Block, order: Order, al: nat)
    ensures CoefRange(Zigzag(b, order, al))
    ensures forall k :: 0 <= k < |order| ==> Abs(Zigzag(b, order, al)[k]) <= 0x8000
  {
  }

  /** What an MCU is to be coded as, behind what is out already, and the DC state behind it. */
  datatype McuPlan = McuPlan(p: Params, mcu: Mcu, goal: seq<Decision>, end: Dc)

  /** In front of block i. (folded) */
  ghost predicate InMcu(h: seq<Decision>, dc: Dc, t: McuPlan, i: nat) {
    forall k: nat {:trigger Unfolded(McuWriting, k)} :: Unfolded(McuWriting, k) ==>
      && GoodParams(t.p) && GoodDc(t.p, dc) && |t.mcu.blocks| == |t.p.membership|
      && h + McuDecisions(t.p, dc, t.mcu, i) == t.goal && McuDc(t.p, dc, t.mcu, i) == t.end
  }

  lemma McuBegins(h: seq<Decision>, dc: Dc, t: McuPlan)
    requires GoodParams(t.p) && GoodDc(t.p, dc) && |t.mcu.blocks| == |t.p.membership|
    requires t.goal == h + McuDecisions(t.p, dc, t.mcu, 0) && t.end == McuDc(t.p, dc, t.mcu, 0)
    ensures InMcu(h, dc, t, 0)
  {
  }

  lemma McuHead(h: seq<Decision>, dc: Dc, t: McuPlan, i: nat)
    requires GoodParams(t.p) && GoodDc(t.p, dc) && i < |t.mcu.blocks| == |t.p.membership| && InMcu(h, dc, t, i)
    ensures InMcu(h + BlockDecisions(t.p, t.p.membership[i], dc, t.mcu.blocks[i]),
                  NextDc(t.p, t.p.membership[i], dc, t.mcu.blocks[i]), t, i + 1)
  {
    assert Unfolded(McuWriting, 0);
    Assoc(h, BlockDecisions(t.p, t.p.membership[i], dc, t.mcu.blocks[i]),
          McuDecisions(t.p, NextDc(t.p, t.p.membership[i], dc, t.mcu.blocks[i]), t.mcu, i + 1));
  }

  lemma McuEnds(h: seq<Decision>, dc: Dc, t: McuPlan)
    requires InMcu(h, dc, t, |t.mcu.blocks|)
    ensures h == t.goal && dc == t.end
  {
    assert Unfolded(McuWriting, 0);
    assert h + [] == h;
  }

  class McuEncoder {
    const e: ArithEncoder
    const p: Params
    var dc: Dc
    var restartsToGo: nat
    var nextRestartNum: nat

    ghost var base: seq<Byte>           // output before the scan
    ghost var closed: seq<ArithSegment>      // finished restart intervals
    ghost var open: seq<Mcu>            // MCUs of the current one

    ghost predicate Invariant()
      reads this, e
    {
      && e.Valid() && GoodParams(p) && GoodDc(p, dc) && IntervalIs(p, open, dc, e.history)
      && e.prefix == base + Flat(closed)
      && ClosedSegments(p, closed)
      && nextRestartNum == Number(|closed|)
      && (if p.restartInterval == 0 then closed == [] else restartsToGo + |open| == p.restartInterval)
    }

    ghost predicate Valid()
      reads this, e
    {
      forall k: nat {:trigger Unfolded(McuOutput, k)} :: Unfolded(McuOutput, k) ==> Invariant()
    }

    /** start_pass */
    constructor (coder: ArithEncoder, params: Params)
      requires GoodParams(params)
      modifies coder
      ensures Valid() && e == coder && p == params
      ensures base == old(coder.output) && closed == [] && open == []
    {
      e, p := coder, params;
      dc := FreshDc(params);
      restartsToGo, nextRestartNum := params.restartInterval, 0;
      base, closed, open := coder.output, [], [];
      new;
      coder.Reset();
      EmptyInterval(params);
      assert base + Flat(closed) == base;
    }

    /** The AC coefficients of a block that is sent in one scan. */
    method EncodeWholeBand(t: Tables, b: Block)
      requires e.Valid()
      modifies e
      ensures e.Valid() && e.prefix == old(e.prefix)
      ensures e.history == old(e.history) + WholeBand(p, t, b)
    {
      if |p.order| > 1 {
        ZigzagRange(b, p.order, 0);
        EncodeAcBand(e, t.ac, t.kx, Zigzag(b, p.order, 0), 1, |p.order| - 1);
      }
    }

    /** One block of the current MCU, by the routine of the scan's mode. */
    method EncodeBlock(ci: nat, b: Block)
      requires e.Valid() && GoodParams(p) && GoodDc(p, dc) && ci < |p.comps|
      modifies this`dc, e
      ensures e.Valid() && e.prefix == old(e.prefix)
      ensures e.history == old(e.history) + BlockDecisions(p, ci, old(dc), b)
      ensures dc == NextDc(p, ci, old(dc), b)
    {
      if p.mode.Sequential? {
        var t := p.comps[ci];
        EncodeDc(ci, b);
        Assoc(old(e.history), DcDiff(t.dc, old(dc.ctx)[ci], (b[0] as int) - old(dc.last)[ci]), WholeBand(p, t, b));
        EncodeWholeBand(t, b);
      } else if p.mode.DcFirst? {
        EncodeDc(ci, b);
      } else {
        EncodeOther(ci, b);
      }
    }

    /** A block of a scan that sends AC coefficients only, or one more bit of the DC coefficient. */
    method EncodeOther(ci: nat, b: Block)
      requires e.Valid() && GoodParams(p) && GoodDc(p, dc) && ci < |p.comps| && !SendsDc(p.mode)
      modifies e
      ensures e.Valid() && e.prefix == old(e.prefix)
      ensures e.history == old(e.history) + BlockDecisions(p, ci, dc, b)
    {
      var t := p.comps[ci];
      match p.mode
      case AcFirst(ss, se, al) =>
        ZigzagRange(b, p.order, al);
        EncodeAcBand(e, t.ac, t.kx, Zigzag(b, p.order, al), ss, se);
      case DcRefine(al) =>
        e.ArithEncode(Bin(FixedArea, 0), Shr(b[0], al) % 2);
      case AcRefine(ss, se, al) =>
        EncodeRefineBand(e, t.ac, Zigzag(b, p.order, al), ss, se);
    }

    /** The DC part: the difference from the last block of the component, and the new state. */
    method EncodeDc(ci: nat, b: Block)
      requires e.Valid() && GoodParams(p) && GoodDc(p, dc) && ci < |p.comps| && SendsDc(p.mode)
      modifies this`dc, e
      ensures e.Valid() && e.prefix == old(e.prefix)
      ensures e.history == old(e.history)
                           + DcDiff(p.comps[ci].dc, old(dc.ctx)[ci], (DcValue(p.mode, b) as int) - old(dc.last)[ci])
      ensures dc == NextDc(p, ci, old(dc), b)
    {
      var t, v := p.comps[ci], DcValue(p.mode, b);
      var next := EncodeDcDiff(e, t.dc, dc.ctx[ci], t.cond, (v as int) - dc.last[ci]);
      dc := Dc(dc.last[ci := v], dc.ctx[ci := next]);
    }

    /** One block of an MCU that is under way. */
    method EncodeNext(mcu: Mcu, i: nat, ghost t: McuPlan)
      requires e.Valid() && GoodParams(p) && GoodDc(p, dc) && i < |mcu.blocks| == |p.membership|
      requires t.p == p && t.mcu == mcu && InMcu(e.history, dc, t, i)
      modifies this`dc, e
      ensures e.Valid() && e.prefix == old(e.prefix) && GoodDc(p, dc) && InMcu(e.history, dc, t, i + 1)
    {
      McuHead(e.history, dc, t, i);
      EncodeBlock(p.membership[i], mcu.blocks[i]);
    }

    method EncodeBlocks(mcu: Mcu)
      requires e.Valid() && GoodParams(p) && GoodDc(p, dc) && |mcu.blocks| == |p.membership|
      modifies this`dc, e
      ensures e.Valid() && e.prefix == old(e.prefix)
      ensures e.history == old(e.history) + McuDecisions(p, old(dc), mcu, 0)
      ensures dc == McuDc(p, old(dc), mcu, 0)
    {
      var i := 0;
      ghost var t := McuPlan(p, mcu, e.history + McuDecisions(p, dc, mcu, 0), McuDc(p, dc, mcu, 0));
      McuBegins(e.history, dc, t);
      while i < |mcu.blocks|
        invariant 0 <= i <= |mcu.blocks| && GoodDc(p, dc)
        invariant e.Valid() && e.prefix == old(e.prefix) && InMcu(e.history, dc, t, i)
      {
        EncodeNext(mcu, i, t);
        i := i + 1;
      }
      McuEnds(e.history, dc, t);
    }

    /** All MCUs coded since the start of the scan. */
    ghost function All(): seq<Mcu>
      reads this
    {
      Mcus(closed) + open
    }

    /** finish_pass on the current interval; the result is its segment. */
    method FinishInterval() returns (ghost s: ArithSegment)
      requires Valid()
      modifies e
      ensures e.output == base + Flat(closed) + Stuff(s.data)
      ensures GoodSegment(p, s) && s.mcus == open
    {
      assert Unfolded(McuOutput, 0);
      e.FinishPass();
      s := Segment(open, e.now, e.emitted);
      IntervalIsDone(p, s, dc, e.history);
    }

    /** The current interval and its restart marker are written. */
    method CloseInterval()
      requires Valid() && p.restartInterval != 0 && restartsToGo == 0
      modifies this`closed, this`open, e
      ensures e.output == base + Flat(closed) && ClosedSegments(p, closed)
      ensures open == [] && |closed| == |old(closed)| + 1 && nextRestartNum == Number(|old(closed)|)
      ensures All() == old(All())
    {
      ghost var s := FinishInterval();
      assert Unfolded(McuOutput, 0);
      e.EmitByte(0xFF);
      e.EmitByte(M_RST0 + nextRestartNum);
      Close(s);
    }

    ghost method Close(s: ArithSegment)
      requires ClosedSegments(p, closed) && GoodSegment(p, s) && s.mcus == open && |open| == p.restartInterval
      requires e.output == base + Flat(closed) + Stuff(s.data) + [0xFF] + [RestartMarker(|closed|)]
      modifies this`closed, this`open
      ensures e.output == base + Flat(closed) && ClosedSegments(p, closed)
      ensures closed == old(closed) + [s] && open == [] && All() == old(All())
    {
      FlatSnoc(base, closed, s);
      ClosedSnoc(p, closed, s);
      closed := closed + [s];
      open := [];
    }

    /** The coder and the predictions start afresh behind a restart marker. */
    method StartInterval()
      requires e.output == base + Flat(closed) && ClosedSegments(p, closed) && open == [] && GoodParams(p)
      requires p.restartInterval != 0 && closed != [] && nextRestartNum == Number(|closed| - 1)
      modifies this`dc, this`restartsToGo, this`nextRestartNum, e
      ensures Invariant() && restartsToGo == p.restartInterval
    {
      e.Reset();
      EmptyInterval(p);
      dc, restartsToGo, nextRestartNum := FreshDc(p), p.restartInterval, Following(nextRestartNum);
    }

    /** emit_restart: closes the interval, writes RSTn and starts afresh. */
    method EmitRestart()
      requires Valid() && p.restartInterval != 0 && restartsToGo == 0 && GoodParams(p)
      modifies this, e
      ensures Invariant() && restartsToGo == p.restartInterval
      ensures base == old(base) && All() == old(All())
    {
      CloseInterval();
      StartInterval();
    }

    /** The blocks of one MCU, after the restart marker if one is due. */
    method CodeInInterval(mcu: Mcu)
      requires Invariant() && |mcu.blocks| == |p.membership| && (p.restartInterval != 0 ==> restartsToGo > 0)
      modifies this, e
      ensures Invariant() && base == old(base) && All() == old(All()) + [mcu]
    {
      ghost var dc0, decisions := dc, e.history;
      EncodeBlocks(mcu);
      IntervalGrows(p, open, dc0, decisions, mcu);
      Assoc(Mcus(closed), open, [mcu]);
      open := open + [mcu];
      if p.restartInterval != 0 {
        restartsToGo := restartsToGo - 1;
      }
    }

    /** encode_mcu */
    method EncodeMcu(mcu: Mcu)
      requires Valid() && |mcu.blocks| == |p.membership|
      modifies this, e
      ensures Valid() && base == old(base) && All() == old(All()) + [mcu]
    {
      assert Unfolded(McuOutput, 0);
      if p.restartInterval != 0 && restartsToGo == 0 {
        EmitRestart();
      }
      CodeInInterval(mcu);
    }

    /** finish_pass: every MCU of the scan is in the output. */
    method FinishScan() returns (ghost segs: seq<ArithSegment>)
      requires Valid()
      modifies e
      ensures base <= e.output && IsScan(p, segs, e.output[|base|..]) && Mcus(segs) == All()
    {
      assert Unfolded(McuOutput, 0);
      ghost var s := FinishInterval();
      segs := closed + [s];
      FlatSnoc(base, closed, s);
      assert segs[..|closed|] == closed;
      Assoc(base, Flat(closed), Stuff(s.data));
      assert e.output[|base|..] == Flat(closed) + Stuff(s.data);
    }
  }
}
