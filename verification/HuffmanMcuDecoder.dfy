/** The Huffman decoder for scans of every kind, with restart intervals and with input that may not have arrived. */
module HuffmanMcuDecoder {
  import opened Numbers
  import opened BitStrings
  import opened Blocks
  import opened Scans
  import opened Markers
  import opened BitReader
  import opened HuffmanStream
  import opened HuffmanBlocks
  import opened HuffmanRuns
  import RD = HuffmanRunDecoder
  import opened HuffmanScan
  import opened HuffmanPlace
  import opened RestartLayout

  // ---- What a block receives, once or again

  /** Whatever an attempt has left in the block, the scan will make the same of it. */
  ghost predicate SameEnd(p: Params, prior: Block, b: Block, out: Block)
    requires GoodMode(p.mode, p.order)
  {
    Received(p.mode, p.order, out, b) == Received(p.mode, p.order, prior, b)
  }

  lemma DcPosition(b: Block, order: Order, zz: seq<int>, al: nat, se: nat)
    requires se < |order| && |zz| == |order|
    ensures Deposit(b, order, zz, al, 1, se)[0] == b[0]
  {
    DepositAt(b, order, zz, al, 1, se, 0);
  }

  /** A block that has its DC value and the AC coefficients before k. */
  lemma SequentialAgain(p: Params, prior: Block, b: Block, out: Block, g: RD.Target, k: nat)
    requires p.mode.Sequential? && |p.order| > 1 && RD.FilledTo(g, out, k)
    requires g.order == p.order && g.al == 0 && g.zz == Zigzag(b, p.order, 0) && g.prior == prior[0 := b[0]]
    requires g.bd.ss == 1 && g.bd.se == |p.order| - 1
    ensures SameEnd(p, prior, b, out)
  {
    DcPosition(g.prior, p.order, g.zz, 0, k - 1);
    assert out[0 := b[0]] == out;
    RD.FilledCanRetry(g, out, k);
  }

  /** What has been received stays as it is when it is received again. */
  lemma ReceivedTwice(p: Params, prior: Block, b: Block)
    requires GoodMode(p.mode, p.order) && !IsAc(p.mode)
    ensures SameEnd(p, prior, b, Received(p.mode, p.order, prior, b))
  {
    var out := Received(p.mode, p.order, prior, b);
    match p.mode
    case Sequential =>
      var zz := Zigzag(b, p.order, 0);
      DcPosition(prior[0 := b[0]], p.order, zz, 0, |p.order| - 1);
      assert out[0 := b[0]] == out;
      if |p.order| > 1 {
        DepositAgain(prior[0 := b[0]], p.order, zz, 0, 1, |p.order| - 1, |p.order| - 1);
      }
    case DcFirst(al) =>
    case DcRefine(al) => SetBitTwice(prior[0], al);
  }

  // ---- One block

  /** What every step keeps: input that has arrived, and nothing lost unless it suspends. */
  twostate predicate Stepped(src: HuffSource, ok: bool)
    reads src, src.r
  {
    src.r.Kept() && (if ok then src.Valid() else src.r.unreadMarker == 0) && (src.Complete() ==> ok)
  }

  /** Section F.2.2.1: the DC difference. */
  method DecodeDc(src: HuffSource, tbl: nat, ghost diff: int, ghost tail: seq<Token>, ghost script: Script)
    returns (ok: bool, v: int)
    requires src.Valid() && tbl < |src.tables| && Size(Abs(diff)) <= MAX_COEF_BITS + 1
    requires src.Faces(script, DcTokens(tbl, diff) + tail)
    modifies src.r
    ensures Stepped(src, ok) && (ok ==> v == diff && src.Faces(script, tail))
  {
    ghost var size, rest := Size(Abs(diff)), (if diff == 0 then [] else [Raw(Extra(diff))]) + tail;
    Assoc([Sym(tbl, size)], if diff == 0 then [] else [Raw(Extra(diff))], tail);
    assert [] + tail == tail;
    var s;
    ok, s := src.ReadSymbol(tbl, size, rest, script);
    v := s;
    if ok && s != 0 {
      ExtendsBack(diff);
      var x;
      ok, x := src.ReadBits(s, Extra(diff), tail, script);
      v := Extend(x, s);
    }
  }

  lemma FacesAc(src: HuffSource, script: Script, g: RD.Target, tail: seq<Token>)
    requires |g.zz| == |g.order| && FitBand(g.bd, g.zz) && !g.bd.refine
    requires src.Faces(script, Parcel(g.bd, g.zz, 0, 1) + tail)
    ensures RD.FacesFirst(src, script, g, 0, 1, tail)
  {
  }

  /** Section F.2.2.2: the AC coefficients of a block whose DC value is there. */
  method DecodeAc(src: HuffSource, p: Params, ci: nat, ghost prior: Block, b0: Block, ghost b: Block,
                  ghost tail: seq<Token>, ghost script: Script)
    returns (ok: bool, out: Block)
    requires src.Valid() && ci < |p.comps| && GoodParams(p, |src.tables|) && |p.order| > 1 && p.mode.Sequential?
    requires AcFits(p, ci, b) && src.Faces(script, AcPart(p, ci, b) + tail) && b0 == prior[0 := b[0]]
    modifies src.r
    ensures Stepped(src, ok)
    ensures ok ==> src.Faces(script, tail) && out == Received(Sequential, p.order, prior, b)
    ensures !ok ==> SameEnd(p, prior, b, out)
  {
    ghost var g := RD.Target(WholeBand(p, ci), p.order, 0, Zigzag(b, p.order, 0), b0);
    FacesAc(src, script, g, tail);
    var eobrun;
    ghost var at;
    ok, out, eobrun, at := RD.FillBlock(src, p.comps[ci].ac, b0, p.order, 0, 1, |p.order| - 1, false, 0,
                                        true, g, 1, tail, script);
    if !ok {
      SequentialAgain(p, prior, b, out, g, at);
    }
  }

  /** A block of decode_mcu. */
  method DecodeSequential(src: HuffSource, p: Params, ci: nat, last: int, prior: Block,
                          ghost b: Block, ghost tail: seq<Token>, ghost script: Script)
    returns (ok: bool, out: Block, dc: int)
    requires src.Valid() && ci < |p.comps| && GoodParams(p, |src.tables|) && p.mode.Sequential?
    requires BlockFits(p, ci, last, b) && src.Faces(script, BlockTokens(p, ci, last, b) + tail)
    modifies src.r
    ensures Stepped(src, ok)
    ensures ok ==> src.Faces(script, tail) && out == Received(p.mode, p.order, prior, b) && dc == b[0]
    ensures !ok ==> SameEnd(p, prior, b, out)
  {
    ghost var diff, ac := b[0] - last, AcPart(p, ci, b);
    Assoc(DcTokens(p.comps[ci].dc, diff), ac, tail);
    var v;
    ok, v := DecodeDc(src, p.comps[ci].dc, diff, ac + tail, script);
    dc, out := v + last, prior;
    if ok {
      ToCoefIsIdentity(b[0]);
      out := prior[0 := ToCoef(dc)];
      if |p.order| > 1 {
        ok, out := DecodeAc(src, p, ci, prior, out, b, tail, script);
      } else {
        assert [] + tail == tail;
      }
    }
  }

  /** What a block of this scan sends and what the receiver makes of it. */
  lemma DcFirstIs(p: Params, ci: nat, last: int, prior: Block, b: Block, diff: int)
    requires ci < |p.comps| && GoodMode(p.mode, p.order) && p.mode.DcFirst? && BlockFits(p, ci, last, b)
    requires diff == Shr(b[0], p.mode.al) - last
    ensures BlockTokens(p, ci, last, b) == DcTokens(p.comps[ci].dc, diff) && Size(Abs(diff)) <= MAX_COEF_BITS + 1
    ensures prior[0 := ToCoef(Shl(diff + last, p.mode.al))] == Received(p.mode, p.order, prior, b)
  {
    assert diff + last == Shr(b[0], p.mode.al);
  }

  /** A block of decode_mcu_DC_first. */
  method DecodeDcFirst(src: HuffSource, p: Params, ci: nat, last: int, prior: Block,
                       ghost b: Block, ghost tail: seq<Token>, ghost script: Script)
    returns (ok: bool, out: Block, dc: int)
    requires src.Valid() && ci < |p.comps| && GoodParams(p, |src.tables|) && p.mode.DcFirst?
    requires BlockFits(p, ci, last, b) && src.Faces(script, BlockTokens(p, ci, last, b) + tail)
    modifies src.r
    ensures Stepped(src, ok)
    ensures ok ==> src.Faces(script, tail) && out == Received(p.mode, p.order, prior, b) && dc == DcValue(p.mode, b)
    ensures !ok ==> out == prior
  {
    ghost var diff := Shr(b[0], p.mode.al) - last;
    DcFirstIs(p, ci, last, prior, b, diff);
    var v;
    ok, v := DecodeDc(src, p.comps[ci].dc, diff, tail, script);
    dc, out := v + last, prior;
    if ok {
      out := prior[0 := ToCoef(Shl(dc, p.mode.al))];
    }
  }

  lemma ValueOfBit(bit: Bit)
    ensures Value([bit]) == bit
  {
    assert [bit] == [] + [bit];
    ValueSnoc([], bit);
  }

  /** A block of decode_mcu_DC_refine. */
  method DecodeDcRefine(src: HuffSource, p: Params, prior: Block, ghost b: Block, ghost tail: seq<Token>,
                        ghost script: Script)
    returns (ok: bool, out: Block)
    requires src.Valid() && p.mode.DcRefine? && GoodMode(p.mode, p.order)
    requires src.Faces(script, DcBit(p.mode.al, b) + tail)
    modifies src.r
    ensures Stepped(src, ok)
    ensures ok ==> src.Faces(script, tail) && out == Received(p.mode, p.order, prior, b)
    ensures !ok ==> out == prior
  {
    ghost var bit := Shr(b[0], p.mode.al) % 2;
    ValueOfBit(bit);
    var v;
    ok, v := src.ReadBits(1, [bit], tail, script);
    out := prior;
    if ok && v == 1 {
      out := prior[0 := SetBit(prior[0], p.mode.al)];
    }
  }

  /** The next block of a scan without runs; with its DC value, if the scan sends that. */
  method DecodeBlock(src: HuffSource, p: Params, ci: nat, last: int, prior: Block,
                     ghost b: Block, ghost tail: seq<Token>, ghost script: Script)
    returns (ok: bool, out: Block, dc: int)
    requires src.Valid() && ci < |p.comps| && GoodParams(p, |src.tables|) && !IsAc(p.mode)
    requires BlockFits(p, ci, last, b) && src.Faces(script, BlockTokens(p, ci, last, b) + tail)
    modifies src.r
    ensures Stepped(src, ok)
    ensures ok ==> src.Faces(script, tail) && out == Received(p.mode, p.order, prior, b)
    ensures ok && SendsDc(p.mode) ==> dc == DcValue(p.mode, b)
    ensures !ok ==> SameEnd(p, prior, b, out)
  {
    dc := 0;
    if p.mode.Sequential? {
      ok, out, dc := DecodeSequential(src, p, ci, last, prior, b, tail, script);
    } else if p.mode.DcFirst? {
      ok, out, dc := DecodeDcFirst(src, p, ci, last, prior, b, tail, script);
    } else {
      ok, out := DecodeDcRefine(src, p, prior, b, tail, script);
    }
  }

  // ---- One MCU of a scan without runs

  /** Whatever an attempt has left, the scan will make the same of it. (folded) */
  ghost predicate SameMcu(p: Params, prior: Mcu, mcu: Mcu, out: Mcu) {
    forall k: nat {:trigger Unfolded(HuffBlocks, k)} :: Unfolded(HuffBlocks, k) ==>
      && GoodMode(p.mode, p.order) && |prior.blocks| == |mcu.blocks| == |out.blocks|
      && forall i :: 0 <= i < |mcu.blocks| ==> SameEnd(p, prior.blocks[i], mcu.blocks[i], out.blocks[i])
  }

  lemma SameMcuReceived(p: Params, prior: Mcu, mcu: Mcu, out: Mcu)
    requires SameMcu(p, prior, mcu, out)
    ensures GoodMode(p.mode, p.order) && |prior.blocks| == |mcu.blocks| == |out.blocks|
    ensures McuReceived(p.mode, p.order, out, mcu) == McuReceived(p.mode, p.order, prior, mcu)
  {
    assert Unfolded(HuffBlocks, 0);
    var a, b := McuReceived(p.mode, p.order, out, mcu).blocks, McuReceived(p.mode, p.order, prior, mcu).blocks;
    forall i | 0 <= i < |mcu.blocks| ensures a[i] == b[i] {
      assert SameEnd(p, prior.blocks[i], mcu.blocks[i], out.blocks[i]);
    }
    assert a == b;
  }

  /** Inside an MCU: the first i blocks have been received, the others are untouched, and their tokens are ahead. */
  ghost predicate BlocksTo(src: HuffSource, p: Params, mcu: Mcu, prior: Mcu, out: Mcu, i: nat, last0: seq<int>,
                           last: seq<int>, tail: seq<Token>, script: Script)
    reads src.r
  {
    forall k: nat {:trigger Unfolded(HuffBlocks, k)} :: Unfolded(HuffBlocks, k) ==>
      && GoodMode(p.mode, p.order)
      && i <= |mcu.blocks| == |prior.blocks| == |out.blocks| && Suits(p, last0, mcu) && Suits(p, last, mcu)
      && McuFits(p, last, mcu, i) && McuLast(p, last, mcu, i) == McuLast(p, last0, mcu, 0)
      && src.Faces(script, McuTokens(p, last, mcu, i) + tail)
      && forall j :: 0 <= j < |mcu.blocks| ==> out.blocks[j] == if j < i then
              Received(p.mode, p.order, prior.blocks[j], mcu.blocks[j]) else prior.blocks[j]
  }

  lemma CutShort(src: HuffSource, p: Params, mcu: Mcu, prior: Mcu, out: Mcu, i: nat, b: Block)
    requires GoodMode(p.mode, p.order) && !IsAc(p.mode) && i < |mcu.blocks| == |prior.blocks| == |out.blocks|
    requires forall j :: 0 <= j < |mcu.blocks| ==> out.blocks[j] == if j < i then
              Received(p.mode, p.order, prior.blocks[j], mcu.blocks[j]) else prior.blocks[j]
    requires SameEnd(p, prior.blocks[i], mcu.blocks[i], b)
    ensures SameMcu(p, prior, mcu, Mcu(out.blocks[i := b]))
  {
    forall j | 0 <= j < |mcu.blocks|
      ensures SameEnd(p, prior.blocks[j], mcu.blocks[j], out.blocks[i := b][j])
    {
      if j < i {
        ReceivedTwice(p, prior.blocks[j], mcu.blocks[j]);
      }
    }
  }

  method DecodeNextBlock(src: HuffSource, p: Params, last0: seq<int>, prior: Mcu, out0: Mcu, i: nat,
                         ghost start: seq<int>, ghost mcu: Mcu, ghost tail: seq<Token>, ghost script: Script)
    returns (ok: bool, out: Mcu, last: seq<int>)
    requires src.Valid() && GoodParams(p, |src.tables|) && !IsAc(p.mode) && |mcu.blocks| == |p.membership|
    requires i < |prior.blocks| == |out0.blocks| == |mcu.blocks| && |last0| == |p.comps|
    requires BlocksTo(src, p, mcu, prior, out0, i, start, last0, tail, script)
    modifies src.r
    ensures Stepped(src, ok) && |out.blocks| == |out0.blocks| && |last| == |last0|
    ensures ok ==> BlocksTo(src, p, mcu, prior, out, i + 1, start, last, tail, script)
    ensures !ok ==> SameMcu(p, prior, mcu, out)
  {
    assert Unfolded(HuffBlocks, 0);
    var ci := p.membership[i];
    ghost var want := mcu.blocks[i];
    ghost var rest := McuTokens(p, NextLast(p, ci, last0, want), mcu, i + 1);
    Assoc(BlockTokens(p, ci, last0[ci], want), rest, tail);
    var b, dc;
    ok, b, dc := DecodeBlock(src, p, ci, last0[ci], out0.blocks[i], want, rest + tail, script);
    out, last := Mcu(out0.blocks[i := b]), if SendsDc(p.mode) then last0[ci := dc] else last0;
    if !ok {
      CutShort(src, p, mcu, prior, out0, i, b);
    }
  }

  lemma NoBlocksYet(src: HuffSource, p: Params, mcu: Mcu, prior: Mcu, last: seq<int>, tail: seq<Token>, script: Script)
    requires GoodMode(p.mode, p.order) && |mcu.blocks| == |prior.blocks| && Suits(p, last, mcu)
             && McuFits(p, last, mcu, 0)
    requires src.Faces(script, McuTokens(p, last, mcu, 0) + tail)
    ensures BlocksTo(src, p, mcu, prior, prior, 0, last, last, tail, script)
  {
  }

  lemma AllBlocks(src: HuffSource, p: Params, mcu: Mcu, prior: Mcu, out: Mcu, last0: seq<int>, last: seq<int>,
                  tail: seq<Token>, script: Script)
    requires GoodMode(p.mode, p.order) && Suits(p, last0, mcu) && |prior.blocks| == |mcu.blocks|
    requires BlocksTo(src, p, mcu, prior, out, |mcu.blocks|, last0, last, tail, script)
    ensures src.Faces(script, tail) && out == McuReceived(p.mode, p.order, prior, mcu)
             && last == McuLast(p, last0, mcu, 0)
  {
    assert Unfolded(HuffBlocks, 0);
    assert [] + tail == tail;
    assert out.blocks == McuReceived(p.mode, p.order, prior, mcu).blocks;
  }

  /** The blocks of an MCU; the prediction behind them is a working copy. */
  method DecodeBlocks(src: HuffSource, p: Params, last0: seq<int>, prior: Mcu,
                      ghost mcu: Mcu, ghost tail: seq<Token>, ghost script: Script)
    returns (ok: bool, out: Mcu, last: seq<int>)
    requires src.Valid() && GoodParams(p, |src.tables|) && !IsAc(p.mode) && Suits(p, last0, mcu)
    requires |prior.blocks| == |mcu.blocks| && McuFits(p, last0, mcu, 0)
    requires src.Faces(script, McuTokens(p, last0, mcu, 0) + tail)
    modifies src.r
    ensures Stepped(src, ok)
    ensures ok ==> src.Faces(script, tail) && out == McuReceived(p.mode, p.order, prior, mcu)
                   && last == McuLast(p, last0, mcu, 0)
    ensures !ok ==> SameMcu(p, prior, mcu, out)
  {
    ok, out, last := true, prior, last0;
    NoBlocksYet(src, p, mcu, prior, last0, tail, script);
    var i := 0;
    while i < |prior.blocks| && ok
      invariant 0 <= i <= |prior.blocks| == |out.blocks| && |last| == |p.comps| && Stepped(src, ok)
      invariant ok ==> BlocksTo(src, p, mcu, prior, out, i, last0, last, tail, script)
      invariant !ok ==> SameMcu(p, prior, mcu, out)
      decreases |prior.blocks| - i, ok
    {
      ok, out, last := DecodeNextBlock(src, p, last, prior, out, i, last0, mcu, tail, script);
      i := i + 1;
    }
    if ok {
      AllBlocks(src, p, mcu, prior, out, last0, last, tail, script);
    }
  }

  /** An attempt at the MCU; a reader that runs out of input goes back to where it was. */
  method TryBlocks(src: HuffSource, p: Params, last0: seq<int>, prior: Mcu,
                   ghost mcu: Mcu, ghost tail: seq<Token>, ghost script: Script)
    returns (ok: bool, out: Mcu, last: seq<int>)
    requires src.Valid() && GoodParams(p, |src.tables|) && !IsAc(p.mode) && Suits(p, last0, mcu)
    requires |prior.blocks| == |mcu.blocks| && McuFits(p, last0, mcu, 0)
    requires src.Faces(script, McuTokens(p, last0, mcu, 0) + tail)
    modifies src.r
    ensures src.Valid() && src.r.Kept() && (src.Complete() ==> ok)
    ensures ok ==> src.Faces(script, tail) && out == McuReceived(p.mode, p.order, prior, mcu)
                   && last == McuLast(p, last0, mcu, 0)
    ensures !ok ==> src.r.Restored() && SameMcu(p, prior, mcu, out)
  {
    var pos, buf, bits := src.r.pos, src.r.getBuffer, src.r.bitsLeft;
    ghost var source, data, left := src.r.source, src.r.data, src.r.left;
    assert Unfolded(SourceState, 0);
    if src.r.unreadMarker == 0 {
      src.r.CanComeBack();
    }
    ok, out, last := DecodeBlocks(src, p, last0, prior, mcu, tail, script);
    if !ok {
      src.r.Restore(pos, buf, bits, source, data, left);
    }
  }

  // ---- One block of an AC scan

  /** A receiver that can go on with the block: a refinement builds on what earlier scans have left. */
  ghost predicate Receivable(p: Params, prior: Mcu, mcu: Mcu)
    requires Shaped(p) && |mcu.blocks| == |p.membership|
  {
    && |prior.blocks| == |mcu.blocks|
    && (p.mode.AcRefine? ==>
          RD.BandPending(BandOf(p), p.order, p.mode.al, Zigzag(mcu.blocks[0], p.order, p.mode.al), prior.blocks[0]))
  }

  lemma ZigzagFits(b: Block, order: Order, al: nat)
    requires al <= 13
    ensures RD.FitsCoef(Zigzag(b, order, al), al)
  {
    forall i | 0 <= i < |order| ensures -0x8000 <= Shl(Zigzag(b, order, al)[i], al) < 0x8000 {
      TruncatedFits(b[order[i]], al);
    }
  }

  function TargetOf(p: Params, prior: Mcu, mcu: Mcu): RD.Target
    requires Shaped(p) && IsAc(p.mode) && |mcu.blocks| == |p.membership| == |prior.blocks|
  {
    RD.Target(BandOf(p), p.order, p.mode.al, Zigzag(mcu.blocks[0], p.order, p.mode.al), prior.blocks[0])
  }

  /** An attempt at the block. */
  method TryRun(src: HuffSource, p: Params, eobrun0: nat, prior: Mcu,
                ghost mcu: Mcu, ghost n: nat, ghost tail: seq<Token>, ghost script: Script)
    returns (ok: bool, out: Mcu, eobrun: nat)
    requires src.Valid() && GoodParams(p, |src.tables|) && IsAc(p.mode) && |mcu.blocks| == |p.membership|
    requires Receivable(p, prior, mcu) && RD.BandFact(TargetOf(p, prior, mcu), eobrun0, n)
    requires src.Faces(script, Parcel(BandOf(p), TargetOf(p, prior, mcu).zz, eobrun0, n) + tail)
    modifies src.r
    ensures src.Valid() && src.r.Kept() && (src.Complete() ==> ok)
    ensures ok ==> src.Faces(script, tail) && out == McuReceived(p.mode, p.order, prior, mcu)
                   && eobrun == After(BandOf(p), TargetOf(p, prior, mcu).zz, eobrun0, n)
    ensures !ok ==> src.r.Restored() && SameMcu(p, prior, mcu, out) && Receivable(p, out, mcu) && eobrun == eobrun0
  {
    ghost var g := TargetOf(p, prior, mcu);
    RD.BandIsFaced(src, script, g, eobrun0, n, tail);
    var b;
    ok, b, eobrun := RD.DecodeBand(src, p.mode.AcRefine?, p.comps[0].ac, prior.blocks[0], p.order, p.mode.al,
                                   p.mode.ss, p.mode.se, eobrun0, true, g, n, tail, script);
    out := Mcu([b]);
    if ok {
      assert out.blocks == McuReceived(p.mode, p.order, prior, mcu).blocks;
    }
  }

  // ---- decode_mcu and its relatives

  class McuDecoder {
    const src: HuffSource
    const p: Params
    var lastDc: seq<int>
    var eobrun: nat
    var restartsToGo: nat
    var nextRestartNum: nat

    ghost const plan: Plan
    ghost var si: nat                  // the segment the decoder is in
    ghost var mi: nat                  // how many of its MCUs are done
    ghost var ahead: seq<Token>        // what the others amount to
    ghost var waiting: bool            // for the marker behind the segment

    ghost predicate Static() {
      && src.Shapes() && GoodParams(p, |src.tables|)
      && HoldsHuffScan(src.r.input, plan.at, p, src.ts, plan.segs, plan.marker)
    }

    ghost function ScriptHere(): Script
      reads this
      requires si < |plan.segs|
    {
      Script(Source.Known(plan.segs[si].data, SegmentStart(plan.at, plan.segs, si),
                          MarkerAfter(plan.segs, plan.marker, si)),
             Ones(plan.segs[si].final))
    }

    ghost function At(): IntervalPlace
      reads this
      requires si < |plan.segs|
    {
      IntervalPlace(plan.segs[si], mi, lastDc, eobrun, ahead)
    }

    ghost predicate Counters()
      reads this
    {
      && si < |plan.segs| && mi <= |plan.segs[si].mcus|
      && (p.restartInterval != 0 ==> restartsToGo + mi == p.restartInterval && nextRestartNum == Number(si))
    }

    /** In front of the marker behind segment si, whether or not its bytes have been read or have arrived. */
    ghost predicate AtMarker()
      reads this, src, src.r
      requires si < |plan.segs|
    {
      && si + 1 < |plan.segs| && mi == |plan.segs[si].mcus| == p.restartInterval && src.r.Valid()
      && nextRestartNum < 8 && MarkerIsNext(src.r.input, src.r.pos, src.r.unreadMarker, M_RST0 + nextRestartNum)
      && src.r.pos + (if src.r.unreadMarker == 0 then 2 else 0) == SegmentStart(plan.at, plan.segs, si + 1)
    }

    /** In front of the next MCU of the segment, or at its end. */
    ghost predicate InSegment()
      reads this, src, src.r
      requires si < |plan.segs|
    {
      InInterval(p, src.ts, At()) && src.Faces(ScriptHere(), ahead)
    }

    ghost predicate Invariant()
      reads this, src, src.r
    {
      Static() && src.Valid() && Counters() && if waiting then AtMarker() else InSegment()
    }

    /** (folded) */
    ghost predicate Valid()
      reads this, src, src.r
    {
      forall k: nat {:trigger Unfolded(HuffInput, k)} :: Unfolded(HuffInput, k) ==> Invariant()
    }

    /** How many MCUs of the scan are done. */
    ghost function Done(): nat
      reads this
    {
      if si < |plan.segs| then |Mcus(plan.segs[..si])| + mi else 0
    }

    /** start_pass, at the beginning of a scan. */
    constructor (s: HuffSource, params: Params, ghost segs: seq<HuffSegment>, ghost marker: Byte)
      requires s.Valid() && s.Shapes() && GoodParams(params, |s.tables|)
      requires s.r.unreadMarker == 0 && s.r.bitsLeft == 0 && !s.r.insufficientData && s.r.Valid()
      requires HoldsHuffScan(s.r.input, s.r.pos, params, s.ts, segs, marker)
      modifies s.r
      ensures Valid() && src == s && p == params && plan == Plan(old(s.r.pos), segs, marker) && Done() == 0 && !waiting
      ensures s.r.available == old(s.r.available)
    {
      src, p, plan := s, params, Plan(s.r.pos, segs, marker);
      lastDc, eobrun, restartsToGo, nextRestartNum := FreshLast(params), 0, params.restartInterval, 0;
      si, mi, waiting := 0, 0, false;
      new;
      FirstInterval(src.r.input, plan.at, p, src.ts, segs, marker);
      assert segs[..0] == [];
      Enter();
    }

    /** The segment si starts here. */
    ghost method Enter()
      requires Static() && src.r.Valid() && Counters() && mi == 0 && !waiting
      requires src.r.unreadMarker == 0 && src.r.bitsLeft == 0 && !src.r.insufficientData
      requires src.r.pos == SegmentStart(plan.at, plan.segs, si) && lastDc == FreshLast(p) && eobrun == 0
      modifies this`ahead, src.r`source, src.r`data, src.r`left
      ensures Invariant()
    {
      var s := plan.segs[si];
      IntervalHeld(src.r.input, plan.at, p, src.ts, plan.segs, plan.marker, si);
      var at := EntersInterval(p, src.ts, s);
      ahead := at.ahead;
      src.r.Attach(s.data, MarkerAfter(plan.segs, plan.marker, si));
    }

    // ---- process_restart

    lemma EndOfInterval()
      requires Invariant() && !waiting && p.restartInterval != 0 && restartsToGo == 0 && si + 1 < |plan.segs|
      ensures AtMarker()
    {
      IntervalHeld(src.r.input, plan.at, p, src.ts, plan.segs, plan.marker, si);
      EndsInterval(p, src.ts, At());
      assert Unfolded(SourceState, 0);
      assert [] + Ones(plan.segs[si].final) == Ones(plan.segs[si].final);
      src.r.AtSegmentEnd(ScriptHere().src, Ones(plan.segs[si].final));
      NextStart(plan.at, plan.segs, si);
    }

    /** Behind the marker. */
    method EnterNext()
      requires Static() && si + 1 < |plan.segs| && src.r.Valid() && nextRestartNum < 8
      requires p.restartInterval != 0 && nextRestartNum == Number(si)
      requires src.r.unreadMarker == 0 && src.r.bitsLeft == 0 && !src.r.insufficientData
      requires src.r.pos == SegmentStart(plan.at, plan.segs, si + 1)
      modifies this, src.r`source, src.r`data, src.r`left
      ensures Invariant() && si == old(si) + 1 && mi == 0 && !waiting
    {
      lastDc, eobrun, restartsToGo, nextRestartNum :=
        FreshLast(p), 0, p.restartInterval, Following(nextRestartNum);
      si, mi, waiting := si + 1, 0, false;
      Enter();
    }

    /** The expected marker is taken, or has not arrived and is waited for. */
    method ProcessRestart() returns (ok: bool)
      requires Invariant() && p.restartInterval != 0 && restartsToGo == 0 && si + 1 < |plan.segs|
      modifies this, src.r
      ensures Invariant() && src.r.available == old(src.r.available) && (src.Complete() ==> ok)
      ensures if ok then si == old(si) + 1 && mi == 0 && !waiting else si == old(si) && mi == old(mi)
    {
      if !waiting {
        EndOfInterval();
      }
      var r := src.r.Restart(nextRestartNum);
      ok := r == Found;
      if ok {
        EnterNext();
      } else {
        waiting := true;
      }
    }

    /** The next MCU of the scan is the next one of the segment. */
    lemma IsHere(mcu: Mcu, k: nat)
      requires si < |plan.segs| && mi < |plan.segs[si].mcus| && k == |Mcus(plan.segs[..si])| + mi
      requires k < |Mcus(plan.segs)| && mcu == Mcus(plan.segs)[k]
      ensures mcu == plan.segs[si].mcus[mi]
    {
      McuIndex(plan.segs, si, mi);
    }

    /** Whether the segment is at its end, k MCUs of the scan being done. */
    lemma IsDue(k: nat)
      requires Static() && Counters() && k == |Mcus(plan.segs[..si])| + mi < |Mcus(plan.segs)|
      ensures if p.restartInterval != 0 && restartsToGo == 0 then
                si + 1 < |plan.segs| && k == |Mcus(plan.segs[..si + 1])| && 0 < |plan.segs[si + 1].mcus|
              else mi < |plan.segs[si].mcus|
    {
      MoreFollows(src.r.input, plan, p, src.ts, si, mi, restartsToGo, k);
    }

    method RestartIfDue(ghost mcu: Mcu) returns (ok: bool)
      requires Invariant() && Done() < |Mcus(plan.segs)| && mcu == Mcus(plan.segs)[Done()]
      modifies this, src.r
      ensures Invariant() && Done() == old(Done()) && src.r.available == old(src.r.available) && (src.Complete() ==> ok)
      ensures ok ==> !waiting && (p.restartInterval != 0 ==> restartsToGo > 0)
      ensures ok ==> mi < |plan.segs[si].mcus| && mcu == plan.segs[si].mcus[mi]
    {
      ghost var k := Done();
      ok := true;
      IsDue(k);
      if p.restartInterval != 0 && restartsToGo == 0 {
        ok := ProcessRestart();
      }
      if ok {
        IsHere(mcu, k);
      }
    }

    // ---- One MCU

    /** The place behind the MCU. */
    ghost predicate Reached(next: IntervalPlace)
      reads this, src, src.r
      requires si < |plan.segs|
    {
      && next.s == plan.segs[si] && next.i == mi + 1 <= |next.s.mcus| && next.last == lastDc && next.eobrun == eobrun
      && InInterval(p, src.ts, next) && src.Faces(ScriptHere(), next.ahead)
    }

    /** An attempt at an MCU of a scan without runs. */
    method ReceiveDc(prior: Mcu, ghost mcu: Mcu) returns (ok: bool, out: Mcu, ghost next: IntervalPlace)
      requires Invariant() && !waiting && mi < |plan.segs[si].mcus| && mcu == plan.segs[si].mcus[mi] && !IsAc(p.mode)
      requires |prior.blocks| == |mcu.blocks|
      modifies this`lastDc, src.r
      ensures src.Valid() && src.r.available == old(src.r.available) && (src.Complete() ==> ok)
      ensures ok ==> Reached(next) && out == McuReceived(p.mode, p.order, prior, mcu)
      ensures !ok ==> Invariant() && SameMcu(p, prior, mcu, out)
    {
      next := DcGoesOn(p, src.ts, At(), mcu);
      var last;
      ok, out, last := TryBlocks(src, p, lastDc, prior, mcu, next.ahead, ScriptHere());
      if ok {
        lastDc := last;
      }
    }

    /** An attempt at a block of an AC scan. */
    method ReceiveRun(prior: Mcu, ghost mcu: Mcu) returns (ok: bool, out: Mcu, ghost next: IntervalPlace)
      requires Invariant() && !waiting && mi < |plan.segs[si].mcus| && mcu == plan.segs[si].mcus[mi] && IsAc(p.mode)
      requires |mcu.blocks| == |p.membership| && Receivable(p, prior, mcu)
      modifies this`eobrun, src.r
      ensures src.Valid() && src.r.available == old(src.r.available) && (src.Complete() ==> ok)
      ensures ok ==> Reached(next) && out == McuReceived(p.mode, p.order, prior, mcu)
      ensures !ok ==> Invariant() && SameMcu(p, prior, mcu, out) && Receivable(p, out, mcu)
    {
      ghost var n;
      ghost var zz := Zigzag(mcu.blocks[0], p.order, p.mode.al);
      ZigzagFits(mcu.blocks[0], p.order, p.mode.al);
      next, n := RunGoesOn(p, src.ts, At(), zz);
      var run;
      ok, out, run := TryRun(src, p, eobrun, prior, mcu, n, next.ahead, ScriptHere());
      if ok {
        eobrun := run;
      }
    }

    /** An attempt at the next MCU of the segment. */
    method Receive(prior: Mcu, ghost mcu: Mcu) returns (ok: bool, out: Mcu, ghost next: IntervalPlace)
      requires Invariant() && !waiting && mi < |plan.segs[si].mcus| && mcu == plan.segs[si].mcus[mi]
      requires |mcu.blocks| == |p.membership| && Receivable(p, prior, mcu)
      modifies this`lastDc, this`eobrun, src.r
      ensures src.Valid() && src.r.available == old(src.r.available) && (src.Complete() ==> ok)
      ensures ok ==> Reached(next) && out == McuReceived(p.mode, p.order, prior, mcu)
      ensures !ok ==> Invariant() && SameMcu(p, prior, mcu, out) && Receivable(p, out, mcu)
    {
      if src.r.insufficientData && !p.mode.DcRefine? {
        assert false;
        ok, out := true, prior;
      } else if IsAc(p.mode) {
        ok, out, next := ReceiveRun(prior, mcu);
      } else {
        ok, out, next := ReceiveDc(prior, mcu);
        if !ok {
          SameMcuReceived(p, prior, mcu, out);
        }
      }
    }

    method Advance(ghost next: IntervalPlace)
      requires Static() && src.Valid() && Counters() && !waiting && Reached(next)
      requires p.restartInterval != 0 ==> restartsToGo > 0
      modifies this`restartsToGo, this`mi, this`ahead
      ensures Invariant() && mi == old(mi) + 1
    {
      mi, ahead := mi + 1, next.ahead;
      if p.restartInterval != 0 {
        restartsToGo := restartsToGo - 1;
      }
    }

    /** An attempt at the next MCU, behind a restart marker that was due. */
    method TryHere(prior: Mcu, ghost mcu: Mcu) returns (ok: bool, out: Mcu)
      requires Invariant() && !waiting && mi < |plan.segs[si].mcus| && mcu == plan.segs[si].mcus[mi]
      requires |mcu.blocks| == |p.membership| && Receivable(p, prior, mcu)
               && (p.restartInterval != 0 ==> restartsToGo > 0)
      modifies this`lastDc, this`eobrun, this`restartsToGo, this`mi, this`ahead, src.r
      ensures Invariant() && !waiting && src.r.available == old(src.r.available) && (src.Complete() ==> ok)
      ensures mi == old(mi) + if ok then 1 else 0
      ensures if ok then out == McuReceived(p.mode, p.order, prior, mcu)
               else SameMcu(p, prior, mcu, out) && Receivable(p, out, mcu)
    {
      ghost var next;
      ok, out, next := Receive(prior, mcu);
      if ok {
        Advance(next);
      }
    }

    lemma NothingTried(prior: Mcu, mcu: Mcu)
      requires Shaped(p) && |mcu.blocks| == |p.membership| && Receivable(p, prior, mcu)
      ensures SameMcu(p, prior, mcu, prior)
    {
    }

    /** An attempt at the next MCU of the scan, a restart marker included. */
    method TryMcu(prior: Mcu, ghost mcu: Mcu) returns (ok: bool, out: Mcu)
      requires Valid() && Done() < |Mcus(plan.segs)| && mcu == Mcus(plan.segs)[Done()]
      requires Shaped(p) && |mcu.blocks| == |p.membership| && Receivable(p, prior, mcu)
      modifies this, src.r
      ensures Valid() && src.r.available == old(src.r.available) && (src.Complete() ==> ok)
      ensures Done() == old(Done()) + (if ok then 1 else 0) && (ok ==> !waiting)
      ensures if ok then out == McuReceived(p.mode, p.order, prior, mcu)
               else SameMcu(p, prior, mcu, out) && Receivable(p, out, mcu)
    {
      assert Unfolded(HuffInput, 0);
      ok := RestartIfDue(mcu);
      if ok {
        ok, out := TryHere(prior, mcu);
      } else {
        out := prior;
        NothingTried(prior, mcu);
      }
    }

    /** More input arrives for the next attempt. */
    method WaitForInput(n: nat)
      requires Valid() && src.r.available <= n <= |src.r.input|
      modifies src.r`available
      ensures Valid() && src.r.available == n
    {
      assert Unfolded(HuffInput, 0) && Unfolded(SourceState, 0);
      ghost var unread := if si < |plan.segs| then src.Unread(ScriptHere().src) else Lost;
      src.r.Arrive(n);
      assert si < |plan.segs| ==> src.Unread(ScriptHere().src) == unread;
    }

    /** A block from which the next attempt will reach the same end. */
    ghost predicate Again(prior: Mcu, mcu: Mcu, out: Mcu)
      requires Shaped(p) && |mcu.blocks| == |p.membership|
    {
      && |prior.blocks| == |mcu.blocks| && Receivable(p, out, mcu)
      && McuReceived(p.mode, p.order, out, mcu) == McuReceived(p.mode, p.order, prior, mcu)
    }

    method TryFirst(prior: Mcu, ghost mcu: Mcu) returns (ok: bool, out: Mcu)
      requires Valid() && Done() < |Mcus(plan.segs)| && mcu == Mcus(plan.segs)[Done()]
      requires Shaped(p) && |mcu.blocks| == |p.membership| && Receivable(p, prior, mcu)
      modifies this, src.r
      ensures Valid() && src.r.available == old(src.r.available) && (src.Complete() ==> ok)
      ensures Done() == old(Done()) + (if ok then 1 else 0) && (ok ==> !waiting)
      ensures if ok then out == McuReceived(p.mode, p.order, prior, mcu) else Again(prior, mcu, out)
    {
      ok, out := TryMcu(prior, mcu);
      if !ok {
        SameMcuReceived(p, prior, mcu, out);
      }
    }

    method TryAgain(ghost prior: Mcu, b: Mcu, ghost mcu: Mcu, n: nat) returns (ok: bool, out: Mcu)
      requires Valid() && Done() < |Mcus(plan.segs)| && mcu == Mcus(plan.segs)[Done()]
      requires Shaped(p) && |mcu.blocks| == |p.membership| && Again(prior, mcu, b)
      requires src.r.available <= n <= |src.r.input|
      modifies this, src.r
      ensures Valid() && src.r.available == n && (n == |src.r.input| ==> ok)
      ensures Done() == old(Done()) + (if ok then 1 else 0) && (ok ==> !waiting)
      ensures if ok then out == McuReceived(p.mode, p.order, prior, mcu) else Again(prior, mcu, out)
    {
      WaitForInput(n);
      ok, out := TryFirst(b, mcu);
    }

    /**
     * decode_mcu, decode_mcu_DC_first, decode_mcu_AC_first, decode_mcu_DC_refine and decode_mcu_AC_refine: the next
     * MCU of the scan, however often the decoder has to give up and wait for input.
     */
    method DecodeMcu(prior: Mcu, ghost mcu: Mcu, chunks0: seq<nat>) returns (out: Mcu, chunks: seq<nat>)
      requires Valid() && Done() < |Mcus(plan.segs)| && mcu == Mcus(plan.segs)[Done()]
      requires Shaped(p) && |mcu.blocks| == |p.membership| && Receivable(p, prior, mcu)
      requires src.r.available <= |src.r.input|
      modifies this, src.r
      ensures Valid() && Done() == old(Done()) + 1 && !waiting && src.r.available <= |src.r.input|
      ensures out == McuReceived(p.mode, p.order, prior, mcu)
    {
      var ok;
      chunks := chunks0;
      ok, out := TryFirst(prior, mcu);
      while !ok
        invariant Valid() && src.r.available <= |src.r.input| && Done() == old(Done()) + (if ok then 1 else 0)
        invariant ok ==> !waiting && out == McuReceived(p.mode, p.order, prior, mcu)
        invariant !ok ==> Again(prior, mcu, out)
        decreases !ok, |chunks|
      {
        ok, out := TryAgain(prior, out, mcu, Arrived(src.r.available, |src.r.input|, chunks));
        chunks := if chunks == [] then [] else chunks[1..];
      }
    }
  }
}
