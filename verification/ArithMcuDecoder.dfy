/** MCU decoding with the arithmetic decoder: all five scan modes and restart intervals. */
module ArithMcuDecoder {
  import opened Numbers
  import opened IntervalCoder
  import opened ArithDecoder
  import opened ArithBlockDecoder
  import opened ArithMcuEncoder
  import opened Binarisation
  import opened Blocks
  import opened Scans
  import opened ArithScan
  import opened ScanLayout
  import opened RestartLayout
  import opened Markers

  lemma ZigzagBand(b: Block, order: Order, al: nat, se: nat)
    requires se < |order|
    ensures Band(Zigzag(b, order, al), se)
  {
    ZigzagRange(b, order, al);
  }

  /** The caller has cleared the blocks. */
  predicate Blank(mcu: Mcu) {
    forall j :: 0 <= j < |mcu.blocks| ==> mcu.blocks[j][0] == 0
  }

  /** How far the decoder has got in an encoder's scan: mi MCUs of segment si. */
  datatype Place = Lost | Inside(segs: seq<ArithSegment>, at: nat, marker: Byte, si: nat, mi: nat)

  class McuDecoder {
    const d: ArithDecoder
    const p: Params
    var lastDc: seq<int>
    var ctx: seq<nat>
    var restartsToGo: nat
    var nextRestartNum: nat

    ghost var place: Place

    predicate Shape()
      reads this
    {
      |lastDc| == |ctx| == |p.comps| && forall i :: 0 <= i < |ctx| ==> ctx[i] <= 16
    }

    predicate SameDc(dc: Dc)
      reads this
    {
      dc.last == lastDc && dc.ctx == ctx
    }

    /** start_pass. If the input holds an encoder's scan from here on, the decoder is at its start. */
    constructor (decoder: ArithDecoder, params: Params, ghost segs: seq<ArithSegment>, ghost marker: Byte)
      requires GoodParams(params) && decoder.pos <= |decoder.input|
      modifies decoder
      ensures Valid() && d == decoder && p == params
      ensures old(decoder.unreadMarker) == 0 && HoldsScan(decoder.input, old(decoder.pos), params, segs, marker) ==>
                Follows(Mcus(segs), 0)
    {
      d, p := decoder, params;
      lastDc, ctx := FreshDc(params).last, FreshDc(params).ctx;
      restartsToGo, nextRestartNum := params.restartInterval, 0;
      place := Lost;
      new;
      decoder.Reset();
      if HoldsScan(d.input, d.pos, params, segs, marker) {
        ScanStart(d.input, d.pos, params, segs, marker);
      }
      Follow(Inside(segs, d.pos, marker, 0, 0), 0);
    }

    /** The DC part: the sum of the last value and the decoded difference, and the new context. */
    method DecodeDc(ci: nat, ghost known: bool, ghost plan: Plan, ghost dc: Dc, ghost want: Block,
                    ghost tail: seq<Decision>)
      returns (s: Status)
      requires d.Valid() && Shape() && ci < |p.comps| && GoodDc(p, dc) && SendsDc(p.mode)
      requires known ==> SameDc(dc) && d.Faces(plan, DcPart(ci, dc, want) + tail)
      modifies this`lastDc, this`ctx, d
      ensures Shape() && (s != NoInput ==> d.Valid())
      ensures known && BlockFits(p, ci, dc, want) ==>
                s == Good && SameDc(NextDc(p, ci, dc, want)) && d.Faces(plan, tail)
      ensures known && !BlockFits(p, ci, dc, want) ==> s == BadCode
    {
      var t := p.comps[ci];
      ghost var diff := (DcValue(p.mode, want) as int) - dc.last[ci];
      var v, next;
      s, v, next := DecodeDcDiff(d, t.dc, ctx[ci], t.cond, diff, tail);
      if s == Good {
        lastDc, ctx := lastDc[ci := lastDc[ci] + v], ctx[ci := next];
      }
    }

    /** The decisions of a DC value. */
    ghost function DcPart(ci: nat, dc: Dc, want: Block): seq<Decision>
      requires GoodDc(p, dc) && ci < |p.comps|
    {
      DcDiff(p.comps[ci].dc, dc.ctx[ci], (DcValue(p.mode, want) as int) - dc.last[ci])
    }

    /** The AC coefficients of a block that is sent in one scan. */
    method DecodeWholeBand(t: Tables, b: Block, ghost known: bool, ghost plan: Plan, ghost want: Block,
                           ghost tail: seq<Decision>)
      returns (s: Status, out: Block)
      requires d.Valid()
      requires known ==> d.Faces(plan, WholeBand(p, t, want) + tail)
      modifies d
      ensures s != NoInput ==> d.Valid()
      ensures known ==>
                && s == Good && out == Deposit(b, p.order, Zigzag(want, p.order, 0), 0, 1, |p.order| - 1)
                && d.Faces(plan, tail)
    {
      s, out := Good, b;
      if |p.order| > 1 {
        ZigzagBand(want, p.order, 0, |p.order| - 1);
        s, out := DecodeAcBand(d, t.ac, t.kx, b, p.order, 0, 1, |p.order| - 1, Zigzag(want, p.order, 0), tail);
      } else {
        assert [] + tail == tail;
      }
    }

    /** What became of a block: what was sent, or a difference that is too large. */
    ghost predicate BlockDone(ci: nat, plan: Plan, dc: Dc, prior: Block, want: Block, tail: seq<Decision>, s: Status,
                              out: Block)
      requires GoodParams(p) && GoodDc(p, dc) && ci < |p.comps|
      reads this, d
    {
      if BlockFits(p, ci, dc, want) then
        && s == Good && out == Received(p.mode, p.order, prior, want)
        && SameDc(NextDc(p, ci, dc, want)) && d.Faces(plan, tail)
      else s == BadCode
    }

    lemma SequentialParts(ci: nat, dc: Dc, want: Block, tail: seq<Decision>)
      requires ci < |p.comps| && GoodParams(p) && GoodDc(p, dc) && p.mode == Sequential
      ensures BlockDecisions(p, ci, dc, want) + tail
              == DcPart(ci, dc, want) + (WholeBand(p, p.comps[ci], want) + tail)
      ensures NextDc(p, ci, dc, want).last[ci] == want[0] && ToCoef(want[0]) == want[0]
    {
      Assoc(DcPart(ci, dc, want), WholeBand(p, p.comps[ci], want), tail);
      ToCoefIsIdentity(want[0]);
    }

    /** A block of a sequential scan. */
    method DecodeSequential(ci: nat, prior: Block, ghost known: bool, ghost plan: Plan, ghost dc: Dc, ghost want: Block,
                            ghost tail: seq<Decision>)
      returns (s: Status, out: Block)
      requires d.Valid() && Shape() && ci < |p.comps| && GoodParams(p) && GoodDc(p, dc) && p.mode == Sequential
      requires known ==> SameDc(dc) && d.Faces(plan, BlockDecisions(p, ci, dc, want) + tail)
      modifies this`lastDc, this`ctx, d
      ensures Shape() && (s != NoInput ==> d.Valid())
      ensures known ==> BlockDone(ci, plan, dc, prior, want, tail, s, out)
    {
      var t := p.comps[ci];
      SequentialParts(ci, dc, want, tail);
      s := DecodeDc(ci, known, plan, dc, want, WholeBand(p, t, want) + tail);
      out := prior[0 := ToCoef(lastDc[ci])];
      if s == Good {
        s, out := DecodeWholeBand(t, out, known && BlockFits(p, ci, dc, want), plan, want, tail);
      }
    }

    /** A block of a scan that sends AC coefficients only, or one more bit of the DC coefficient. */
    method DecodeOther(ci: nat, prior: Block, ghost known: bool, ghost plan: Plan, ghost dc: Dc, ghost want: Block,
                       ghost tail: seq<Decision>)
      returns (s: Status, out: Block)
      requires d.Valid() && ci < |p.comps| && GoodParams(p) && GoodDc(p, dc) && !SendsDc(p.mode)
      requires known ==>
                 && Prepared(p.mode, p.order, prior, want)
                 && d.Faces(plan, BlockDecisions(p, ci, dc, want) + tail)
      modifies d
      ensures s != NoInput ==> d.Valid()
      ensures known ==> s == Good && out == Received(p.mode, p.order, prior, want) && d.Faces(plan, tail)
    {
      var t := p.comps[ci];
      match p.mode
      case AcFirst(ss, se, al) =>
        ZigzagBand(want, p.order, al, se);
        s, out := DecodeAcBand(d, t.ac, t.kx, prior, p.order, al, ss, se, Zigzag(want, p.order, al), tail);
      case DcRefine(al) =>
        var ok, bit := DecodeOne(d, FixedArea, 0, Shr(want[0], al) % 2, tail);
        s := if ok then Good else NoInput;
        out := if bit == 1 then prior[0 := SetBit(prior[0], al)] else prior;
      case AcRefine(ss, se, al) =>
        s, out := DecodeRefineBand(d, t.ac, prior, p.order, al, ss, se, Zigzag(want, p.order, al), tail);
    }

    /** One block of the current MCU, by the routine of the scan's mode. */
    method DecodeBlock(ci: nat, prior: Block, ghost known: bool, ghost plan: Plan, ghost dc: Dc, ghost want: Block,
                       ghost tail: seq<Decision>)
      returns (s: Status, out: Block)
      requires d.Valid() && Shape() && ci < |p.comps| && GoodParams(p) && GoodDc(p, dc)
      requires known ==>
                 && SameDc(dc) && Prepared(p.mode, p.order, prior, want)
                 && d.Faces(plan, BlockDecisions(p, ci, dc, want) + tail)
      modifies this`lastDc, this`ctx, d
      ensures Shape() && (s != NoInput ==> d.Valid())
      ensures known ==> BlockDone(ci, plan, dc, prior, want, tail, s, out)
    {
      if p.mode.Sequential? {
        s, out := DecodeSequential(ci, prior, known, plan, dc, want, tail);
      } else if p.mode.DcFirst? {
        s := DecodeDc(ci, known, plan, dc, want, tail);
        out := prior[0 := ToCoef(Shl(lastDc[ci], p.mode.al))];
      } else {
        s, out := DecodeOther(ci, prior, known, plan, dc, want, tail);
      }
    }

    /** What is known in front of block i of an MCU: where the decoder is, and the blocks before it. */
    ghost predicate InMcu(prior: Mcu, plan: Plan, dc: Dc, want: Mcu, tail: seq<Decision>, i: nat, now: Dc, out: Mcu)
      requires GoodParams(p) && GoodDc(p, dc) && |prior.blocks| == |want.blocks| == |p.membership|
      reads this, d
    {
      && i <= |out.blocks| == |prior.blocks| && GoodDc(p, now)
      && SameDc(now) && d.Faces(plan, McuDecisions(p, now, want, i) + tail)
      && McuDc(p, now, want, i) == McuDc(p, dc, want, 0)
      && (McuFits(p, now, want, i) <==> McuFits(p, dc, want, 0))
      && forall j :: 0 <= j < i ==> out.blocks[j] == Received(p.mode, p.order, prior.blocks[j], want.blocks[j])
    }

    ghost predicate GaveUp(prior: Mcu, dc: Dc, want: Mcu, s: Status, out: Mcu)
      requires GoodParams(p) && GoodDc(p, dc) && |prior.blocks| == |want.blocks| == |p.membership|
    {
      s == BadCode && !McuFits(p, dc, want, 0) && (Blank(prior) ==> out != McuReceived(p.mode, p.order, prior, want))
    }

    /** The next block of an MCU. */
    method DecodeNext(prior: Mcu, done: Mcu, i: nat, ghost known: bool, ghost plan: Plan, ghost dc: Dc, ghost want: Mcu,
                      ghost tail: seq<Decision>, ghost now0: Dc)
      returns (s: Status, out: Mcu, ghost now: Dc)
      requires d.Valid() && Shape() && GoodParams(p) && GoodDc(p, dc) && GoodDc(p, now0)
      requires i < |done.blocks| == |prior.blocks| == |want.blocks| == |p.membership|
               && done.blocks[i] == prior.blocks[i]
      requires known ==> McuPrepared(p, prior, want) && InMcu(prior, plan, dc, want, tail, i, now0, done)
      modifies this`lastDc, this`ctx, d
      ensures Shape() && (s != NoInput ==> d.Valid()) && |out.blocks| == |done.blocks| && GoodDc(p, now)
      ensures out.blocks[i + 1..] == done.blocks[i + 1..]
      ensures known && s == Good ==> InMcu(prior, plan, dc, want, tail, i + 1, now, out)
      ensures known && s != Good ==> GaveUp(prior, dc, want, s, out)
    {
      ghost var ci := p.membership[i];
      now := NextDc(p, ci, now0, want.blocks[i]);
      ghost var rest := McuDecisions(p, now, want, i + 1);
      Assoc(BlockDecisions(p, ci, now0, want.blocks[i]), rest, tail);
      var b;
      s, b := DecodeBlock(p.membership[i], prior.blocks[i], known, plan, now0, want.blocks[i], rest + tail);
      out := done;
      if s == Good {
        out := Mcu(done.blocks[i := b]);
      } else if known && Blank(prior) {
        MisfitShows(p, ci, now0, prior.blocks[i], want.blocks[i]);
      }
    }

    /** The blocks of one MCU. */
    method DecodeBlocks(prior: Mcu, ghost known: bool, ghost plan: Plan, ghost dc: Dc, ghost want: Mcu,
                        ghost tail: seq<Decision>)
      returns (s: Status, out: Mcu)
      requires d.Valid() && Shape() && GoodParams(p) && GoodDc(p, dc)
               && |prior.blocks| == |want.blocks| == |p.membership|
      requires known ==>
                 && SameDc(dc) && McuPrepared(p, prior, want)
                 && d.Faces(plan, McuDecisions(p, dc, want, 0) + tail)
      modifies this`lastDc, this`ctx, d
      ensures Shape() && |out.blocks| == |prior.blocks| && (s != NoInput ==> d.Valid())
      ensures known && McuFits(p, dc, want, 0) ==>
                && s == Good && out == McuReceived(p.mode, p.order, prior, want)
                && SameDc(McuDc(p, dc, want, 0)) && d.Faces(plan, tail)
      ensures known && !McuFits(p, dc, want, 0) ==>
                s == BadCode && (Blank(prior) ==> out != McuReceived(p.mode, p.order, prior, want))
    {
      s, out := Good, prior;
      var i := 0;
      ghost var now := dc;
      while i < |prior.blocks| && s == Good
        invariant 0 <= i <= |prior.blocks| == |out.blocks| && Shape() && (s != NoInput ==> d.Valid()) && GoodDc(p, now)
        invariant known && s == Good ==> InMcu(prior, plan, dc, want, tail, i, now, out)
        invariant known && s != Good ==> GaveUp(prior, dc, want, s, out)
        invariant s == Good ==> out.blocks[i..] == prior.blocks[i..]
        decreases |prior.blocks| - i, s == Good
      {
        assert out.blocks[i] == out.blocks[i..][0];
        s, out, now := DecodeNext(prior, out, i, known, plan, dc, want, tail, now);
        i := i + 1;
      }
      if known && s == Good {
        McuIsDone(prior, plan, dc, want, tail, now, out);
      }
    }

    lemma McuIsDone(prior: Mcu, plan: Plan, dc: Dc, want: Mcu, tail: seq<Decision>, now: Dc, out: Mcu)
      requires GoodParams(p) && GoodDc(p, dc) && |prior.blocks| == |want.blocks| == |p.membership|
      requires InMcu(prior, plan, dc, want, tail, |prior.blocks|, now, out)
      ensures McuFits(p, dc, want, 0) && out == McuReceived(p.mode, p.order, prior, want)
      ensures SameDc(McuDc(p, dc, want, 0)) && d.Faces(plan, tail)
    {
      assert [] + tail == tail;
      assert out.blocks == McuReceived(p.mode, p.order, prior, want).blocks;
    }

    // ---- Following the encoder through the scan

    ghost predicate GoodPlace()
      reads this, d
    {
      place.Inside? ==>
        && HoldsScan(d.input, place.at, p, place.segs, place.marker)
        && place.si < |place.segs| && place.mi <= |place.segs[place.si].mcus|
        && GoodSegment(p, place.segs[place.si])
        && (p.restartInterval != 0 ==>
             restartsToGo + place.mi == p.restartInterval && nextRestartNum == Number(place.si))
    }

    ghost predicate OnPlace()
      reads this, d
    {
      place.Inside? && GoodPlace() ==>
        var s := place.segs[place.si];
        && d.Valid()
        && d.plan == Known(IntervalDecisions(p, s.mcus), s.final, s.data,
                           SegmentStart(place.at, place.segs, place.si),
                               MarkerAfter(place.segs, place.marker, place.si))
        && d.ahead == IntervalFrom(p, IntervalDc(p, s.mcus[..place.mi]), s.mcus, place.mi)
        && SameDc(IntervalDc(p, s.mcus[..place.mi]))
    }

    ghost predicate Invariant()
      reads this, d
    {
      && Shape() && GoodParams(p) && d.pos <= |d.input| && nextRestartNum < 8
      && (d.ct == -1 || d.Valid())
      && GoodPlace() && OnPlace()
    }

    ghost predicate Valid()
      reads this, d
    {
      forall k: nat {:trigger Unfolded(McuInput, k)} :: Unfolded(McuInput, k) ==> Invariant()
    }

    /** Records that segment si of a scan starts here. */
    ghost method Enter(segs: seq<ArithSegment>, at: nat, marker: Byte, si: nat)
      requires Shape() && GoodParams(p) && d.AtStart() && si < |segs| && nextRestartNum < 8
      requires HoldsScan(d.input, at, p, segs, marker) && d.pos == SegmentStart(at, segs, si)
      requires SameDc(FreshDc(p))
      requires p.restartInterval != 0 ==> restartsToGo == p.restartInterval && nextRestartNum == Number(si)
      modifies this`place, d`plan, d`ahead
      ensures Invariant() && place == Inside(segs, at, marker, si, 0)
    {
      SegmentHeld(d.input, at, p, segs, marker, si);
      var s := segs[si];
      assert Unfolded(CodedSegment, 0);
      d.Attach(IntervalDecisions(p, s.mcus), s.final, s.data, MarkerAfter(segs, marker, si));
      IntervalStart(p, s.mcus);
      place := Inside(segs, at, marker, si, 0);
    }

    /** At the end of an interval the decoder has returned every decision of its segment. */
    lemma IntervalIsDone()
      requires Invariant() && p.restartInterval != 0 && restartsToGo == 0
      requires place.Inside? && place.si + 1 < |place.segs|
      ensures d.Valid() && d.plan.Known? && d.ahead == []
      ensures d.plan.start == SegmentStart(place.at, place.segs, place.si)
      ensures d.plan.segment == place.segs[place.si].data
      ensures d.plan.marker == M_RST0 + nextRestartNum
    {
      SegmentHeld(d.input, place.at, p, place.segs, place.marker, place.si);
    }

    /** At the end of a segment the expected restart marker is the very next thing. */
    lemma RestartComesNext()
      requires Invariant() && p.restartInterval != 0 && restartsToGo == 0
      requires place.Inside? && place.si + 1 < |place.segs|
      ensures MarkerIsNext(d.input, d.pos, d.unreadMarker, M_RST0 + nextRestartNum)
      ensures d.pos + (if d.unreadMarker == 0 then 2 else 0) == SegmentStart(place.at, place.segs, place.si + 1)
    {
      IntervalIsDone();
      NextStart(place.at, place.segs, place.si);
      d.AtSegmentEnd();
    }

    /** From here on the decoder follows segment si of the scan, if it starts here. */
    ghost method Follow(w: Place, si: nat)
      requires Shape() && GoodParams(p) && d.pos <= |d.input| && nextRestartNum < 8
      requires d.Valid() && d.history == [] && d.data == [] && SameDc(FreshDc(p))
      requires p.restartInterval != 0 ==> restartsToGo == p.restartInterval && nextRestartNum == Number(si)
      modifies this`place, d`plan, d`ahead
      ensures Invariant()
      ensures d.unreadMarker == 0 && w.Inside? && si < |w.segs| && HoldsScan(d.input, w.at, p, w.segs, w.marker)
              && d.pos == SegmentStart(w.at, w.segs, si) ==>
                place == w.(si := si, mi := 0)
    {
      place := Lost;
      if d.unreadMarker == 0 && w.Inside? && si < |w.segs| && HoldsScan(d.input, w.at, p, w.segs, w.marker)
         && d.pos == SegmentStart(w.at, w.segs, si) {
        Enter(w.segs, w.at, w.marker, si);
      }
    }

    /** Predictions, statistics and registers start afresh behind a restart marker. */
    method StartInterval(ghost w: Place)
      requires Shape() && GoodParams(p) && d.pos <= |d.input| && d.unreadMarker == 0 && nextRestartNum < 8
      requires w.Inside? ==> nextRestartNum == Number(w.si)
      modifies this, d
      ensures Invariant() && restartsToGo == p.restartInterval
      ensures w.Inside? && w.si + 1 < |w.segs| && HoldsScan(d.input, w.at, p, w.segs, w.marker)
              && old(d.pos) == SegmentStart(w.at, w.segs, w.si + 1) ==>
                place == w.(si := w.si + 1, mi := 0)
    {
      lastDc, ctx := FreshDc(p).last, FreshDc(p).ctx;
      d.Reset();
      restartsToGo := p.restartInterval;
      ghost var si := if w.Inside? then w.si else nextRestartNum;
      MarkersInTurn(si);
      nextRestartNum := Following(nextRestartNum);
      Follow(w, si + 1);
    }

    /** process_restart: the decoder moves on to the next segment. */
    method ProcessRestart() returns (ok: bool)
      requires Invariant() && p.restartInterval != 0 && restartsToGo == 0
      modifies this, d
      ensures ok ==> Invariant() && restartsToGo == p.restartInterval
      ensures var w := old(place);
              w.Inside? && w.si + 1 < |w.segs| ==> ok && place == w.(si := w.si + 1, mi := 0)
    {
      if place.Inside? && place.si + 1 < |place.segs| {
        RestartComesNext();
      }
      var r := d.TakeRestartMarker(nextRestartNum);
      ok := r == Found;
      if ok {
        StartInterval(place);
      }
    }

    /** The encoder's next MCU is in the current interval, and this is it. */
    ghost predicate NextIs(want: Mcu)
      reads this, d
    {
      && Invariant() && place.Inside? && place.mi < |place.segs[place.si].mcus|
      && want == place.segs[place.si].mcus[place.mi]
    }

    /** The decoder's DC state when it is where the encoder was. */
    ghost function DcHere(): (dc: Dc)
      reads this, d
      requires Invariant() && place.Inside?
      ensures GoodDc(p, dc) && SameDc(dc)
    {
      IntervalDc(p, place.segs[place.si].mcus[..place.mi])
    }

    /** What the encoder coded after its next MCU. */
    ghost function Later(want: Mcu): seq<Decision>
      reads this, d
      requires NextIs(want)
    {
      IntervalFrom(p, McuDc(p, DcHere(), want, 0), place.segs[place.si].mcus, place.mi + 1)
    }

    lemma NextIsExpected(want: Mcu)
      requires NextIs(want)
      ensures |want.blocks| == |p.membership|
      ensures d.Faces(d.plan, McuDecisions(p, DcHere(), want, 0) + Later(want))
      ensures McuDc(p, DcHere(), want, 0) == IntervalDc(p, place.segs[place.si].mcus[..place.mi + 1])
    {
      ghost var mcus, dc := place.segs[place.si].mcus, DcHere();
      NextOf(p, mcus, place.mi, dc, want, IntervalFrom(p, dc, mcus, place.mi));
    }

    lemma RunningCt()
      requires d.Valid()
      ensures d.ct != -1 && d.pos <= |d.input|
    {
      assert Unfolded(ArithInput, 0);
    }

    /** One more MCU of the interval has been decoded. */
    ghost method Advance(w: Place)
      requires Shape() && GoodParams(p) && nextRestartNum < 8 && d.Valid()
      requires w.Inside? && w.si < |w.segs| && w.mi < |w.segs[w.si].mcus|
      requires HoldsScan(d.input, w.at, p, w.segs, w.marker) && GoodSegment(p, w.segs[w.si])
      requires p.restartInterval != 0 ==> restartsToGo + w.mi + 1 == p.restartInterval && nextRestartNum == Number(w.si)
      requires var s := w.segs[w.si];
               && d.plan == Known(IntervalDecisions(p, s.mcus), s.final, s.data,
                                  SegmentStart(w.at, w.segs, w.si), MarkerAfter(w.segs, w.marker, w.si))
               && d.ahead == IntervalFrom(p, IntervalDc(p, s.mcus[..w.mi + 1]), s.mcus, w.mi + 1)
               && SameDc(IntervalDc(p, s.mcus[..w.mi + 1]))
      modifies this`place
      ensures Invariant() && place == w.(mi := w.mi + 1)
    {
      RunningCt();
      place := w.(mi := w.mi + 1);
    }

    /** The blocks of an MCU; after corrupt data the decoder leaves MCUs as they are. */
    method DecodeInInterval(prior: Mcu, ghost want: Mcu) returns (ok: bool, out: Mcu)
      requires Invariant() && |prior.blocks| == |want.blocks| == |p.membership|
      requires p.restartInterval != 0 ==> restartsToGo > 0
      modifies this, d
      ensures |out.blocks| == |prior.blocks| && (ok ==> Invariant())
      ensures old(NextIs(want)) && McuPrepared(p, prior, want) ==>
                var w, dc := old(place), old(DcHere());
                && ok
                && (McuFits(p, dc, want, 0) ==> out == McuReceived(p.mode, p.order, prior, want)
                                                && place == w.(mi := w.mi + 1))
                && (!McuFits(p, dc, want, 0) ==> d.ct == -1
                                                 && (Blank(prior) ==> out != McuReceived(p.mode, p.order, prior, want)))
    {
      ghost var known := NextIs(want) && McuPrepared(p, prior, want);
      ghost var tail, dc, w, plan := [], FreshDc(p), place, d.plan;
      if known {
        NextIsExpected(want);
        tail, dc := Later(want), DcHere();
        RunningCt();
      }
      place := Lost;
      if p.restartInterval != 0 {
        restartsToGo := restartsToGo - 1;
      }
      ok, out := true, prior;
      if d.ct != -1 {
        var s;
        s, out := DecodeBlocks(prior, known, plan, dc, want, tail);
        if s == NoInput {
          ok := false;
        } else if s == BadCode {
          StopDecoding();
        } else if known && McuFits(p, dc, want, 0) {
          Advance(w);
        } else {
          RunningCt();
        }
      }
    }

    /** e->ct = -1 */
    method StopDecoding()
      requires d.Valid() && Shape() && GoodParams(p) && nextRestartNum < 8 && place.Lost?
      modifies d`ct
      ensures Invariant() && d.ct == -1
    {
      assert Unfolded(ArithInput, 0);
      d.ct := -1;
    }

    // ---- The scan as one sequence of MCUs

    /** The decoder is at the k-th MCU of a scan that consists of the MCUs all. */
    ghost predicate At(all: seq<Mcu>, k: nat)
      reads this, d
    {
      Invariant() && Counts(all, k)
    }

    ghost predicate Counts(all: seq<Mcu>, k: nat)
      reads this, d
    {
      && place.Inside? && GoodPlace() && GoodParams(p)
      && Mcus(place.segs) == all && |Mcus(place.segs[..place.si])| + place.mi == k
    }

    ghost predicate Follows(all: seq<Mcu>, k: nat)
      reads this, d
    {
      forall n: nat {:trigger Unfolded(ScanPlace, n)} :: Unfolded(ScanPlace, n) ==> At(all, k)
    }

    /** If more MCUs follow, the next one is in this interval or the first of the next interval. */
    lemma MoreToCome(all: seq<Mcu>, k: nat)
      requires Counts(all, k) && k < |all|
      ensures if p.restartInterval != 0 && restartsToGo == 0 then
                place.si + 1 < |place.segs| && |Mcus(place.segs[..place.si + 1])| == k
              else
                place.mi < |place.segs[place.si].mcus|
    {
      var i, segs := place.si, place.segs;
      SegmentHeld(d.input, place.at, p, segs, place.marker, i);
      McusStep(segs, i);
      if i + 1 == |segs| {
        assert segs[..i + 1] == segs;
      }
    }

    /** The next MCU of the scan is the next one of the interval, with the DC state to match. */
    lemma NextInInterval(all: seq<Mcu>, k: nat)
      requires Counts(all, k) && k < |all| && GoodMcus(p, all)
      requires p.restartInterval != 0 ==> restartsToGo > 0
      ensures IsMcuOf(p, all, k, place.segs[place.si], place.mi)
    {
      MoreToCome(all, k);
      McuInScan(d.input, place.at, p, place.segs, place.marker, place.si, place.mi, all, k);
    }

    lemma NextHere(all: seq<Mcu>, k: nat)
      requires At(all, k) && k < |all| && GoodMcus(p, all)
      requires p.restartInterval != 0 ==> restartsToGo > 0
      ensures NextIs(all[k]) && DcHere() == DcBefore(p, all, k)
    {
      NextInInterval(all, k);
    }

    /** The restart marker between the k-th MCU and the one before it, if there is one. */
    method RestartIfDue(ghost all: seq<Mcu>, ghost k: nat) returns (ok: bool)
      requires Invariant()
      modifies this, d
      ensures ok ==> Invariant() && (p.restartInterval != 0 ==> restartsToGo > 0)
      ensures old(At(all, k)) && k < |all| ==> ok && At(all, k)
    {
      ok := true;
      if p.restartInterval != 0 && restartsToGo == 0 {
        if At(all, k) && k < |all| {
          MoreToCome(all, k);
        }
        ok := ProcessRestart();
      }
    }

    /** What becomes of the k-th MCU. */
    ghost predicate McuDone(prior: Mcu, all: seq<Mcu>, k: nat, ok: bool, out: Mcu)
      requires GoodParams(p) && k < |all| && GoodMcus(p, all) && |prior.blocks| == |p.membership|
      reads this, d
    {
      && ok
      && (Fits(p, all, k) ==> out == McuReceived(p.mode, p.order, prior, all[k]) && Follows(all, k + 1))
      && (!Fits(p, all, k) && Blank(prior) ==> out != McuReceived(p.mode, p.order, prior, all[k]))
    }

    /** The k-th MCU, behind the restart marker. */
    method DecodeHere(prior: Mcu, ghost all: seq<Mcu>, ghost k: nat, ghost known: bool) returns (ok: bool, out: Mcu)
      requires Invariant() && GoodParams(p) && |prior.blocks| == |p.membership| && k < |all| && GoodMcus(p, all)
      requires (p.restartInterval != 0 ==> restartsToGo > 0) && (known ==> At(all, k))
      modifies this, d
      ensures |out.blocks| == |prior.blocks| && (ok ==> Valid())
      ensures known && McuPrepared(p, prior, all[k]) ==> McuDone(prior, all, k, ok, out)
    {
      assert Unfolded(McuInput, 0) && Unfolded(ScanPlace, 0);
      if known {
        NextHere(all, k);
      }
      ok, out := DecodeInInterval(prior, all[k]);
    }

    /** decode_mcu: the k-th MCU of an encoder's scan, if the input holds one. */
    method DecodeMcu(prior: Mcu, ghost all: seq<Mcu>, ghost k: nat) returns (ok: bool, out: Mcu)
      requires Valid() && GoodParams(p) && |prior.blocks| == |p.membership| && k < |all| && GoodMcus(p, all)
      modifies this, d
      ensures |out.blocks| == |prior.blocks| && (ok ==> Valid())
      ensures old(Follows(all, k)) && McuPrepared(p, prior, all[k]) ==> McuDone(prior, all, k, ok, out)
    {
      assert Unfolded(McuInput, 0) && Unfolded(ScanPlace, 0);
      ghost var known := At(all, k);
      out := prior;
      ok := RestartIfDue(all, k);
      if ok {
        ok, out := DecodeHere(prior, all, k, known);
      }
    }
  }
}
