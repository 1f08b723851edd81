/** Decisions of whole MCUs and restart intervals: DC prediction, conditioning and component order. */
module ArithScan {
  import opened Numbers
  import opened IntervalCoder
  import opened Binarisation
  import opened Blocks
  import opened Scans
  import opened RestartLayout

  /** Table choice and conditioning of one component. */
  datatype Tables = Tables(dc: nat, ac: nat, cond: Conditioning, kx: nat)

  datatype Params = Params(mode: Mode, order: Order, comps: seq<Tables>, membership: seq<nat>, restartInterval: nat)

  ghost predicate GoodParams(p: Params) {
    && GoodMode(p.mode, p.order)
    && (forall i :: 0 <= i < |p.membership| ==> p.membership[i] < |p.comps|)
  }

  /** last_dc_val and dc_context. */
  datatype Dc = Dc(last: seq<Coef>, ctx: seq<nat>)

  predicate GoodDc(p: Params, dc: Dc) {
    && |dc.last| == |dc.ctx| == |p.comps|
    && forall i :: 0 <= i < |dc.ctx| ==> dc.ctx[i] <= 16
  }

  function FreshDc(p: Params): (dc: Dc)
    ensures GoodDc(p, dc)
  {
    Dc(seq(|p.comps|, _ => 0), seq(|p.comps|, _ => 0))
  }

  /** All AC coefficients of a block; there are none when the block size is one. */
  function WholeBand(p: Params, t: Tables, b: Block): seq<Decision> {
    if |p.order| == 1 then [] else AcBand(t.ac, t.kx, Zigzag(b, p.order, 0), 1, |p.order| - 1)
  }

  function BlockDecisions(p: Params, ci: nat, dc: Dc, b: Block): seq<Decision>
    requires GoodMode(p.mode, p.order) && GoodDc(p, dc) && ci < |p.comps|
  {
    var t := p.comps[ci];
    match p.mode
    case Sequential =>
      DcDiff(t.dc, dc.ctx[ci], (b[0] as int) - dc.last[ci]) + WholeBand(p, t, b)
    case DcFirst(al) => DcDiff(t.dc, dc.ctx[ci], (Shr(b[0], al) as int) - dc.last[ci])
    case AcFirst(ss, se, al) => AcBand(t.ac, t.kx, Zigzag(b, p.order, al), ss, se)
    case DcRefine(al) => [D(FixedArea, 0, Shr(b[0], al) % 2)]
    case AcRefine(ss, se, al) =>
      var zz := Zigzag(b, p.order, al);
      RefineBand(t.ac, zz, PreviousEnd(zz, ss, se), ss, se)
  }

  function NextDc(p: Params, ci: nat, dc: Dc, b: Block): (dc': Dc)
    requires GoodDc(p, dc) && ci < |p.comps|
    ensures GoodDc(p, dc')
  {
    if SendsDc(p.mode) then
      var v := DcValue(p.mode, b);
      Dc(dc.last[ci := v], dc.ctx[ci := NextContext(p.comps[ci].cond, (v as int) - dc.last[ci])])
    else dc
  }

  /** The decisions of the blocks i.. of an MCU. */
  function McuDecisions(p: Params, dc: Dc, mcu: Mcu, i: nat): seq<Decision>
    requires GoodParams(p) && GoodDc(p, dc) && |mcu.blocks| == |p.membership|
    decreases |mcu.blocks| - i
  {
    if i >= |mcu.blocks| then []
    else
      BlockDecisions(p, p.membership[i], dc, mcu.blocks[i])
      + McuDecisions(p, NextDc(p, p.membership[i], dc, mcu.blocks[i]), mcu, i + 1)
  }

  function McuDc(p: Params, dc: Dc, mcu: Mcu, i: nat): (dc': Dc)
    requires GoodParams(p) && GoodDc(p, dc) && |mcu.blocks| == |p.membership|
    ensures GoodDc(p, dc')
    decreases |mcu.blocks| - i
  {
    if i >= |mcu.blocks| then dc else McuDc(p, NextDc(p, p.membership[i], dc, mcu.blocks[i]), mcu, i + 1)
  }

  /** With a fresh prediction the difference is the DC value itself, in the context of a difference of zero. */
  lemma IntervalStartsAfresh(p: Params, ci: nat, b: Block)
    requires GoodMode(p.mode, p.order) && SendsDc(p.mode) && ci < |p.comps|
    ensures var t := p.comps[ci];
            DcDiff(t.dc, NextContext(t.cond, 0), DcValue(p.mode, b)) <= BlockDecisions(p, ci, FreshDc(p), b)
  {
  }

  ghost predicate GoodMcus(p: Params, mcus: seq<Mcu>) {
    forall i :: 0 <= i < |mcus| ==> |mcus[i].blocks| == |p.membership|
  }

  /** The state after the MCUs of one restart interval. */
  function IntervalDc(p: Params, mcus: seq<Mcu>): (dc: Dc)
    requires GoodParams(p) && GoodMcus(p, mcus)
    ensures GoodDc(p, dc)
  {
    if mcus == [] then FreshDc(p)
    else McuDc(p, IntervalDc(p, mcus[..|mcus| - 1]), mcus[|mcus| - 1], 0)
  }

  /** All decisions of one restart interval. */
  function IntervalDecisions(p: Params, mcus: seq<Mcu>): seq<Decision>
    requires GoodParams(p) && GoodMcus(p, mcus)
  {
    if mcus == [] then []
    else
      var init := mcus[..|mcus| - 1];
      IntervalDecisions(p, init) + McuDecisions(p, IntervalDc(p, init), mcus[|mcus| - 1], 0)
  }

  /** The decisions of an interval from its j-th MCU on. */
  function IntervalFrom(p: Params, dc: Dc, mcus: seq<Mcu>, j: nat): seq<Decision>
    requires GoodParams(p) && GoodMcus(p, mcus) && GoodDc(p, dc)
    decreases |mcus| - j
  {
    if j >= |mcus| then []
    else McuDecisions(p, dc, mcus[j], 0) + IntervalFrom(p, McuDc(p, dc, mcus[j], 0), mcus, j + 1)
  }

  // ---- When the decoder gives back what was sent

  /** The decoder gives up on DC differences beyond 2^15. */
  ghost predicate BlockFits(p: Params, ci: nat, dc: Dc, b: Block)
    requires GoodDc(p, dc) && ci < |p.comps|
  {
    SendsDc(p.mode) ==> Abs((DcValue(p.mode, b) as int) - dc.last[ci]) <= 0x8000
  }

  ghost predicate McuFits(p: Params, dc: Dc, mcu: Mcu, i: nat)
    requires GoodParams(p) && GoodDc(p, dc) && |mcu.blocks| == |p.membership|
    decreases |mcu.blocks| - i
  {
    i < |mcu.blocks| ==>
      && BlockFits(p, p.membership[i], dc, mcu.blocks[i])
      && McuFits(p, NextDc(p, p.membership[i], dc, mcu.blocks[i]), mcu, i + 1)
  }

  ghost predicate McuPrepared(p: Params, prior: Mcu, mcu: Mcu)
    requires GoodParams(p) && |prior.blocks| == |mcu.blocks| == |p.membership|
  {
    forall j :: 0 <= j < |mcu.blocks| ==> Prepared(p.mode, p.order, prior.blocks[j], mcu.blocks[j])
  }

  /** The DC state in front of the k-th MCU of a scan. */
  function DcBefore(p: Params, mcus: seq<Mcu>, k: nat): (dc: Dc)
    requires GoodParams(p) && GoodMcus(p, mcus) && k <= |mcus|
    ensures GoodDc(p, dc)
  {
    IntervalDc(p, mcus[k - Since(p.restartInterval, k)..k])
  }

  /** No DC difference of the k-th MCU is too large for the decoder. */
  ghost predicate Fits(p: Params, mcus: seq<Mcu>, k: nat)
    requires GoodParams(p) && GoodMcus(p, mcus) && k < |mcus|
  {
    McuFits(p, DcBefore(p, mcus, k), mcus[k], 0)
  }

  lemma TruncatedShows(c: Coef, al: nat)
    requires al <= 13 && Shr(c, al) != 0
    ensures ToCoef(Shl(Shr(c, al), al)) != 0
  {
    ShlShrCoef(c, al);
    ShlZero(al);
    ShlOrder(Shr(c, al), 0, al);
    ToCoefIsIdentity(Shl(Shr(c, al), al));
  }

  /** A block that does not fit carries a nonzero DC value, which a zeroed block does not show. */
  lemma {:induction false} MisfitShows(p: Params, ci: nat, dc: Dc, prior: Block, b: Block)
    requires GoodMode(p.mode, p.order) && GoodDc(p, dc) && ci < |p.comps|
    requires !BlockFits(p, ci, dc, b) && prior[0] == 0
    ensures Received(p.mode, p.order, prior, b) != prior
  {
    if p.mode.Sequential? {
      DepositAt(prior[0 := b[0]], p.order, Zigzag(b, p.order, 0), 0, 1, |p.order| - 1, 0);
    } else {
      TruncatedShows(b[0], p.mode.al);
      assert Received(p.mode, p.order, prior, b)[0] == ToCoef(Shl(Shr(b[0], p.mode.al), p.mode.al));
    }
  }
}
