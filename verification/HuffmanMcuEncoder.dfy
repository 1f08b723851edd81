/** The sequential Huffman encoder: blocks, MCUs, DC prediction, restart intervals and suspension of the output. */
module HuffmanMcuEncoder {
  import opened Numbers
  import opened BitStrings
  import opened Blocks
  import opened IntervalCoder
  import opened Markers
  import opened BitWriter
  import opened HuffmanStream
  import opened HuffmanBlocks
  import opened HuffmanRuns
  import opened HuffmanRunEncoder
  import opened HuffmanScan
  import opened HuffmanBytes
  import opened RestartLayout

  // ---- encode_one_block

  /** A sink that puts something out and has room for a byte at least. */
  ghost predicate Ready(sink: HuffSink)
    reads sink, sink.w
  {
    sink.Valid() && !sink.gather && sink.w.HasRoom()
  }

  /** Section F.1.2.1: the DC difference. */
  method EncodeDc(sink: HuffSink, tbl: nat, diff: int) returns (r: Outcome)
    requires Ready(sink) && tbl < sink.numTables
    modifies sink`tokens, sink.w
    ensures sink.w.SameBuffer() && (r.Full? ==> sink.w.suspends)
    ensures r.Done? ==> Size(Abs(diff)) <= MAX_COEF_BITS + 1 && Ready(sink)
                        && sink.tokens == old(sink.tokens) + DcTokens(tbl, diff)
    ensures !r.Done? && Size(Abs(diff)) <= MAX_COEF_BITS + 1 ==>
              sink.Stopped(r, old(sink.tokens) + DcTokens(tbl, diff))
  {
    ghost var t0 := sink.tokens;
    var nbits := NumBits(Abs(diff));
    r := Error;
    if nbits <= MAX_COEF_BITS + 1 {
      ghost var s, v := [Sym(tbl, nbits)], if diff == 0 then [] else [Raw(Extra(diff))];
      Assoc(t0, s, v);
      r := sink.TrySymbol(tbl, nbits);
      if !r.Done? {
        sink.StoppedLater(r, t0 + s, v);
      } else if nbits != 0 {
        ExtendsBack(diff);
        r := sink.TryRaw(ExtraValue(diff), nbits);
      } else {
        assert t0 + s + [] == t0 + s;
      }
    }
  }

  /** In front of coefficient k, with r zeros not accounted for; t0 was out before the band. */
  ghost predicate AcAt(sink: HuffSink, bd: BandScan, zz: seq<int>, k: nat, r: nat, t0: seq<Token>)
    reads sink, sink.w
  {
    && Ready(sink) && bd.tbl < sink.numTables && !bd.refine && GoodBand(bd, zz)
    && bd.ss <= k <= bd.se + 1 && SmallBand(zz, bd.ss, k - 1)
    && (FitBand(bd, zz) ==> sink.tokens + AcTokens(bd.tbl, zz, BandEnd(bd, zz), k, r) == t0 + Coded(bd, zz))
  }

  /** The band has been cut short. */
  ghost predicate AcStopped(sink: HuffSink, bd: BandScan, zz: seq<int>, e: Outcome, t0: seq<Token>)
    reads sink.w
  {
    && (e.Full? ==> sink.w.suspends)
    && (FitBand(bd, zz) ==> sink.Stopped(e, t0 + Parcel(bd, zz, 0, 1)))
  }

  lemma AcStops(sink: HuffSink, bd: BandScan, zz: seq<int>, e: Outcome, out: seq<Token>, after: seq<Token>,
                t0: seq<Token>)
    requires FitBand(bd, zz) && sink.Stopped(e, out) && out + after == t0 + Coded(bd, zz)
    ensures AcStopped(sink, bd, zz, e, t0)
  {
    var eob := if HasEob(bd, zz) then EobTokens(bd.tbl, 1) + BitTokens(TailBits(bd, zz)) else [];
    sink.StoppedLater(e, out, after);
    Assoc(t0, Coded(bd, zz), eob);
    sink.StoppedLater(e, t0 + Coded(bd, zz), eob);
  }

  method AcZrl(sink: HuffSink, bd: BandScan, zz: seq<int>, k: nat, r: nat, ghost t0: seq<Token>) returns (e: Outcome)
    requires AcAt(sink, bd, zz, k, r, t0) && k <= bd.se && zz[k] != 0 && r > 15
    modifies sink`tokens, sink.w
    ensures sink.w.SameBuffer()
    ensures if e.Done? then AcAt(sink, bd, zz, k, r - 16, t0) else AcStopped(sink, bd, zz, e, t0)
  {
    NonzeroIsNotAfterLast(zz, bd.ss, bd.se, k);
    ghost var was := sink.tokens;
    e := sink.TrySymbol(bd.tbl, ZRL);
    if FitBand(bd, zz) {
      var later := AcTokens(bd.tbl, zz, BandEnd(bd, zz), k, r - 16);
      Assoc(was, [Sym(bd.tbl, ZRL)], later);
      if !e.Done? {
        AcStops(sink, bd, zz, e, was + [Sym(bd.tbl, ZRL)], later, t0);
      }
    }
  }

  method AcZrls(sink: HuffSink, bd: BandScan, zz: seq<int>, k: nat, r0: nat, ghost t0: seq<Token>)
    returns (e: Outcome, r: nat)
    requires AcAt(sink, bd, zz, k, r0, t0) && k <= bd.se && zz[k] != 0
    modifies sink`tokens, sink.w
    ensures sink.w.SameBuffer()
    ensures if e.Done? then r <= 15 && AcAt(sink, bd, zz, k, r, t0) else AcStopped(sink, bd, zz, e, t0)
  {
    e, r := Done, r0;
    while r > 15 && e.Done?
      invariant sink.w.SameBuffer()
      invariant if e.Done? then AcAt(sink, bd, zz, k, r, t0) else AcStopped(sink, bd, zz, e, t0)
      decreases r, e.Done?
    {
      e := AcZrl(sink, bd, zz, k, r, t0);
      r := r - 16;
    }
  }

  method AcValue(sink: HuffSink, bd: BandScan, zz: seq<int>, k: nat, r: nat, ghost t0: seq<Token>)
    returns (e: Outcome)
    requires AcAt(sink, bd, zz, k, r, t0) && k <= bd.se && zz[k] != 0 && r <= 15
    modifies sink`tokens, sink.w
    ensures sink.w.SameBuffer()
    ensures if e.Done? then AcAt(sink, bd, zz, k + 1, 0, t0) else AcStopped(sink, bd, zz, e, t0)
  {
    NonzeroIsNotAfterLast(zz, bd.ss, bd.se, k);
    var nbits := NumBits(Abs(zz[k]));
    SizeBound(Abs(zz[k]));
    e := Error;
    if nbits <= MAX_COEF_BITS {
      e := AcCoef(sink, bd, zz, k, r, nbits, t0);
    }
  }

  lemma CoefStops(sink: HuffSink, bd: BandScan, zz: seq<int>, k: nat, r: nat, e: Outcome, was: seq<Token>,
                  t0: seq<Token>, s: seq<Token>, v: seq<Token>)
    requires FitBand(bd, zz) && !bd.refine && bd.ss <= k <= BandEnd(bd, zz) && zz[k] != 0 && r <= 15
    requires was + AcTokens(bd.tbl, zz, BandEnd(bd, zz), k, r) == t0 + Coded(bd, zz)
    requires s == [Sym(bd.tbl, RunSize(r, zz[k]))] && v == [Raw(Extra(zz[k]))]
    requires sink.Stopped(e, was + s) || sink.Stopped(e, was + s + v)
    ensures AcStopped(sink, bd, zz, e, t0)
  {
    var later := AcTokens(bd.tbl, zz, BandEnd(bd, zz), k + 1, 0);
    CoefSplits(was, bd, zz, k, r, t0, s, v);
    if sink.Stopped(e, was + s) {
      AcStops(sink, bd, zz, e, was + s, v + later, t0);
    } else {
      AcStops(sink, bd, zz, e, was + s + v, later, t0);
    }
  }

  lemma CoefGoesOn(sink: HuffSink, bd: BandScan, zz: seq<int>, k: nat, r: nat, was: seq<Token>, t0: seq<Token>,
                   s: seq<Token>, v: seq<Token>, k': nat)
    requires Ready(sink) && bd.tbl < sink.numTables && !bd.refine && GoodBand(bd, zz) && bd.ss <= k <= bd.se
    requires SmallBand(zz, bd.ss, k - 1) && Size(Abs(zz[k])) <= MAX_COEF_BITS && k' == k + 1
    requires k <= BandEnd(bd, zz) && zz[k] != 0 && r <= 15 && sink.tokens == was + s + v
    requires s == [Sym(bd.tbl, RunSize(r, zz[k]))] && v == [Raw(Extra(zz[k]))]
    requires FitBand(bd, zz) ==> was + AcTokens(bd.tbl, zz, BandEnd(bd, zz), k, r) == t0 + Coded(bd, zz)
    ensures AcAt(sink, bd, zz, k', 0, t0)
  {
    SmallGrows(zz, bd.ss, k, k' - 1);
    if FitBand(bd, zz) {
      CoefSplits(was, bd, zz, k, r, t0, s, v);
      assert sink.tokens + AcTokens(bd.tbl, zz, BandEnd(bd, zz), k', 0) == t0 + Coded(bd, zz);
    }
  }

  lemma SmallGrows(zz: seq<int>, ss: nat, k: nat, to: nat)
    requires 0 < ss <= k < |zz| && SmallBand(zz, ss, k - 1) && Size(Abs(zz[k])) <= MAX_COEF_BITS && to == k
    ensures SmallBand(zz, ss, to)
  {
  }

  /** A coefficient's symbol and its bits. */
  method PutCoef(sink: HuffSink, tbl: nat, sym: Byte, v: nat, n: nat) returns (e: Outcome)
    requires Ready(sink) && tbl < sink.numTables && 0 < n <= 16
    modifies sink`tokens, sink.w
    ensures sink.w.SameBuffer()
    ensures if e.Done? then Ready(sink) && sink.tokens == old(sink.tokens) + [Sym(tbl, sym)] + [Raw(Low(v, n))]
            else sink.Stopped(e, old(sink.tokens) + [Sym(tbl, sym)])
                 || sink.Stopped(e, old(sink.tokens) + [Sym(tbl, sym)] + [Raw(Low(v, n))])
    ensures e.Full? ==> sink.w.suspends
  {
    e := sink.TrySymbol(tbl, sym);
    if e.Done? {
      e := sink.TryRaw(v, n);
    }
  }

  method AcCoef(sink: HuffSink, bd: BandScan, zz: seq<int>, k: nat, r: nat, nbits: nat, ghost t0: seq<Token>)
    returns (e: Outcome)
    requires AcAt(sink, bd, zz, k, r, t0) && k <= bd.se && zz[k] != 0 && r <= 15 && k <= BandEnd(bd, zz)
    requires 0 < nbits == Size(Abs(zz[k])) <= MAX_COEF_BITS
    modifies sink`tokens, sink.w
    ensures sink.w.SameBuffer()
    ensures if e.Done? then AcAt(sink, bd, zz, k + 1, 0, t0) else AcStopped(sink, bd, zz, e, t0)
  {
    ghost var was := sink.tokens;
    ExtendsBack(zz[k]);
    ghost var s, v := [Sym(bd.tbl, RunSize(r, zz[k]))], [Raw(Extra(zz[k]))];
    e := PutCoef(sink, bd.tbl, RunSize(r, zz[k]), ExtraValue(zz[k]), nbits);
    if e.Done? {
      CoefGoesOn(sink, bd, zz, k, r, was, t0, s, v, k + 1);
    } else if FitBand(bd, zz) {
      CoefStops(sink, bd, zz, k, r, e, was, t0, s, v);
    }
  }

  /** Section F.1.2.2: one coefficient. */
  method AcStep(sink: HuffSink, bd: BandScan, zz: seq<int>, k: nat, r0: nat, ghost t0: seq<Token>)
    returns (e: Outcome, r: nat)
    requires AcAt(sink, bd, zz, k, r0, t0) && k <= bd.se
    modifies sink`tokens, sink.w
    ensures sink.w.SameBuffer()
    ensures if e.Done? then AcAt(sink, bd, zz, k + 1, r, t0) else AcStopped(sink, bd, zz, e, t0)
    ensures e.Done? ==> r == if zz[k] == 0 then r0 + 1 else 0
  {
    e, r := Done, r0;
    if zz[k] == 0 {
      r := r + 1;
      LastIsNonzero(zz, bd.ss, bd.se);
    } else {
      e, r := AcZrls(sink, bd, zz, k, r, t0);
      if e.Done? {
        e := AcValue(sink, bd, zz, k, r, t0);
        r := 0;
      }
    }
  }

  /** All AC coefficients of a block and its end of block. */
  method EncodeAc(sink: HuffSink, bd: BandScan, zz: seq<int>) returns (e: Outcome)
    requires Ready(sink) && bd.tbl < sink.numTables && !bd.refine && GoodBand(bd, zz)
    modifies sink`tokens, sink.w
    ensures sink.w.SameBuffer()
    ensures if e.Done? then FitBand(bd, zz) && Ready(sink) && sink.tokens == old(sink.tokens) + Parcel(bd, zz, 0, 1)
            else AcStopped(sink, bd, zz, e, old(sink.tokens))
  {
    ghost var t0 := sink.tokens;
    var k, r := bd.ss, 0;
    e := Done;
    while k <= bd.se && e.Done?
      invariant bd.ss <= k <= bd.se + 1 && sink.w.SameBuffer()
      invariant if e.Done? then AcAt(sink, bd, zz, k, r, t0) && (r > 0 <==> k > bd.ss && zz[k - 1] == 0)
                else AcStopped(sink, bd, zz, e, t0)
      decreases bd.se + 1 - k, e.Done?
    {
      e, r := AcStep(sink, bd, zz, k, r, t0);
      k := k + 1;
    }
    if e.Done? {
      e := EndBlock(sink, bd, zz, r, t0);
    }
  }

  method EndBlock(sink: HuffSink, bd: BandScan, zz: seq<int>, r: nat, ghost t0: seq<Token>) returns (e: Outcome)
    requires AcAt(sink, bd, zz, bd.se + 1, r, t0) && (r > 0 <==> zz[bd.se] == 0)
    modifies sink`tokens, sink.w
    ensures sink.w.SameBuffer() && FitBand(bd, zz)
    ensures if e.Done? then Ready(sink) && sink.tokens == t0 + Parcel(bd, zz, 0, 1)
            else AcStopped(sink, bd, zz, e, t0)
  {
    assert sink.tokens + [] == sink.tokens;
    LastIsNonzero(zz, bd.ss, bd.se);
    EobIsOne(bd, zz);
    e := Done;
    if r > 0 {
      Assoc(t0, Coded(bd, zz), [Sym(bd.tbl, 0)]);
      e := sink.TrySymbol(bd.tbl, 0);
    }
  }

  /** encode_one_block */
  method EncodeOneBlock(sink: HuffSink, p: Params, ci: nat, last: int, b: Block) returns (e: Outcome)
    requires Ready(sink) && ci < |p.comps| && GoodParams(p, sink.numTables) && p.mode.Sequential?
    modifies sink`tokens, sink.w
    ensures sink.w.SameBuffer() && (e.Full? ==> sink.w.suspends)
    ensures e.Done? ==> BlockFits(p, ci, last, b) && Ready(sink)
                        && sink.tokens == old(sink.tokens) + BlockTokens(p, ci, last, b)
    ensures !e.Done? && BlockFits(p, ci, last, b) ==>
              sink.Stopped(e, old(sink.tokens) + BlockTokens(p, ci, last, b))
  {
    var diff := b[0] - last;
    ghost var t0 := sink.tokens;
    ghost var dc, ac := if Size(Abs(diff)) < 256 then DcTokens(p.comps[ci].dc, diff) else [], AcPart(p, ci, b);
    Assoc(t0, dc, ac);
    e := EncodeDc(sink, p.comps[ci].dc, diff);
    if !e.Done? {
      if BlockFits(p, ci, last, b) {
        sink.StoppedLater(e, t0 + dc, ac);
      }
    } else if |p.order| > 1 {
      e := EncodeAc(sink, WholeBand(p, ci), Zigzag(b, p.order, 0));
    } else {
      assert t0 + dc + [] == t0 + dc;
    }
  }

  // ---- encode_mcu_huff

  /** Where the open interval stands in a scan that began behind `base`. */
  ghost predicate Placed(p: Params, ts: Tables, start: seq<Byte>, base: seq<Byte>, closed: seq<HuffSegment>,
                         open: seq<Mcu>, restartsToGo: nat, number: nat)
  {
    && start == base + Flat(closed) && ClosedIntervals(p, ts, closed) && number == Number(|closed|)
    && (if p.restartInterval == 0 then closed == [] else restartsToGo + |open| == p.restartInterval)
  }

  /** Bytes that are out for nothing: they are the first of `bytes`, and there was no room for more. */
  ghost predicate Overrun(w: BitWriter, base: seq<Byte>, bytes: seq<Byte>)
    reads w
  {
    w.suspends && w.free == 0 && w.output <= base + bytes
  }

  lemma OverrunOf(w: BitWriter, base: seq<Byte>, flat: seq<Byte>, bits: Bits)
    requires w.StuckIn(bits) && w.prefix == base + flat
    ensures Overrun(w, base, flat + Stuff(Whole(bits)))
  {
    Assoc(base, flat, Stuff(Whole(bits)));
  }

  /** The fields of the encoder that an MCU changes; a call that suspends leaves them alone. */
  datatype Standing = Standing(lastDc: seq<int>, restartsToGo: nat, nextRestartNum: nat,
      closed: seq<HuffSegment>, open: seq<Mcu>)

  class McuEncoder {
    const sink: HuffSink
    const p: Params
    var lastDc: seq<int>
    var restartsToGo: nat
    var nextRestartNum: nat

    ghost const base: seq<Byte>            // output before the scan
    ghost var closed: seq<HuffSegment>     // finished restart intervals
    ghost var open: seq<Mcu>               // MCUs of the current one

    ghost predicate Static() {
      GoodParams(p, sink.numTables) && p.mode.Sequential? && !sink.gather && sink.Shapes()
    }

    ghost predicate InPlace()
      reads this, sink
    {
      Placed(p, sink.ts, sink.start, base, closed, open, restartsToGo, nextRestartNum)
    }

    ghost predicate Invariant()
      reads this, sink, sink.w
    {
      && Static() && Ready(sink) && |lastDc| == |p.comps| && IntervalIs(p, open, lastDc, sink.tokens) && InPlace()
    }

    /** Between calls. (folded) */
    ghost predicate Valid()
      reads this, sink, sink.w
    {
      forall k: nat {:trigger Unfolded(HuffOutput, k)} :: Unfolded(HuffOutput, k) ==>
        Invariant() && SplitRight(p, closed, open)
    }

    ghost function All(): seq<Mcu>
      reads this
    {
      Mcus(closed) + open
    }

    constructor (s: HuffSink, params: Params)
      requires Ready(s) && s.tokens == [] && GoodParams(params, s.numTables) && params.mode.Sequential?
      ensures Valid() && sink == s && p == params && base == s.start && All() == []
    {
      sink, p := s, params;
      lastDc, restartsToGo, nextRestartNum := FreshLast(params), params.restartInterval, 0;
      base, closed, open := s.start, [], [];
      new;
      assert Unfolded(SinkState, 0);
      IntervalOpens(p);
      assert base + [] == base;
    }

    /** Inside an MCU: `done` is out, and what follows depends on the prediction. (folded) */
    ghost predicate InMcu(last0: seq<int>, mcu: Mcu, i: nat, t0: seq<Token>, done: seq<Token>)
      reads this, sink, sink.w
    {
      && i <= |mcu.blocks| && Suits(p, last0, mcu) && Suits(p, lastDc, mcu)
      && forall k: nat {:trigger Unfolded(HuffMcu, k)} :: Unfolded(HuffMcu, k) ==> McuInvariant(last0, mcu, i, t0, done)
    }

    ghost predicate McuInvariant(last0: seq<int>, mcu: Mcu, i: nat, t0: seq<Token>, done: seq<Token>)
      requires i <= |mcu.blocks| && Suits(p, last0, mcu) && Suits(p, lastDc, mcu)
      reads this, sink, sink.w
    {
      && Ready(sink) && sink.tokens == t0 + done
      && done + McuTokens(p, lastDc, mcu, i) == McuTokens(p, last0, mcu, 0)
      && McuLast(p, lastDc, mcu, i) == McuLast(p, last0, mcu, 0)
      && (McuFits(p, lastDc, mcu, i) <==> McuFits(p, last0, mcu, 0))
    }

    /** The MCU that began behind the tokens t0 has been cut short. */
    ghost predicate McuStopped(last0: seq<int>, mcu: Mcu, t0: seq<Token>, r: Outcome)
      reads sink.w
    {
      && (r.Full? ==> sink.w.suspends)
      && (Suits(p, last0, mcu) && McuFits(p, last0, mcu, 0) ==> sink.Stopped(r, t0 + McuTokens(p, last0, mcu, 0)))
    }

    method EncodeNext(mcu: Mcu, i: nat, ghost last0: seq<int>, ghost t0: seq<Token>, ghost done0: seq<Token>)
      returns (r: Outcome, ghost done: seq<Token>)
      requires InMcu(last0, mcu, i, t0, done0) && i < |mcu.blocks| && Static()
      modifies this`lastDc, sink`tokens, sink.w
      ensures sink.w.SameBuffer()
      ensures if r.Done? then InMcu(last0, mcu, i + 1, t0, done) else McuStopped(last0, mcu, t0, r)
    {
      assert Unfolded(HuffMcu, 0);
      var ci := p.membership[i];
      ghost var mine, rest := BlockTokens(p, ci, lastDc[ci], mcu.blocks[i]),
                              McuTokens(p, NextLast(p, ci, lastDc, mcu.blocks[i]), mcu, i + 1);
      Assoc(done0, mine, rest);
      Assoc(t0, done0, mine);
      done := done0 + mine;
      r := EncodeOneBlock(sink, p, ci, lastDc[ci], mcu.blocks[i]);
      if r.Done? {
        lastDc := lastDc[ci := mcu.blocks[i][0]];
      } else if McuFits(p, last0, mcu, 0) {
        Assoc(t0, done, rest);
        sink.StoppedLater(r, t0 + done, rest);
      }
    }

    lemma McuBegins(mcu: Mcu, t0: seq<Token>)
      requires Ready(sink) && Suits(p, lastDc, mcu) && sink.tokens == t0
      ensures InMcu(lastDc, mcu, 0, t0, [])
    {
      assert t0 + [] == t0 && [] + McuTokens(p, lastDc, mcu, 0) == McuTokens(p, lastDc, mcu, 0);
    }

    /** The blocks of one MCU. */
    method EncodeBlocks(mcu: Mcu, ghost last0: seq<int>, ghost t0: seq<Token>) returns (r: Outcome)
      requires Ready(sink) && Static() && Suits(p, lastDc, mcu) && last0 == lastDc && t0 == sink.tokens
      modifies this`lastDc, sink`tokens, sink.w
      ensures sink.w.SameBuffer() && Suits(p, last0, mcu)
      ensures r.Done? ==> McuFits(p, last0, mcu, 0) && lastDc == McuLast(p, last0, mcu, 0)
      ensures r.Done? ==> Ready(sink) && sink.tokens == t0 + McuTokens(p, last0, mcu, 0)
      ensures !r.Done? ==> McuStopped(last0, mcu, t0, r)
    {
      ghost var done := [];
      McuBegins(mcu, t0);
      var i := 0;
      r := Done;
      while i < |mcu.blocks| && r.Done?
        invariant 0 <= i <= |mcu.blocks| && sink.w.SameBuffer()
        invariant if r.Done? then InMcu(last0, mcu, i, t0, done) else McuStopped(last0, mcu, t0, r)
        decreases |mcu.blocks| - i, r.Done?
      {
        r, done := EncodeNext(mcu, i, last0, t0, done);
        i := i + 1;
      }
      if r.Done? {
        McuEnds(last0, mcu, t0, done);
      }
    }

    lemma McuEnds(last0: seq<int>, mcu: Mcu, t0: seq<Token>, done: seq<Token>)
      requires InMcu(last0, mcu, |mcu.blocks|, t0, done)
      ensures Suits(p, last0, mcu)
      ensures McuFits(p, last0, mcu, 0) && lastDc == McuLast(p, last0, mcu, 0)
      ensures Ready(sink) && sink.tokens == t0 + McuTokens(p, last0, mcu, 0)
    {
      assert Unfolded(HuffMcu, 0);
      assert done + [] == done;
    }

    // ---- emit_restart_s

    /** A full interval is closed by its marker. */
    ghost method Close(s: HuffSegment, out: seq<Byte>)
      requires IsInterval(p, sink.ts, s) && s.mcus == open && |open| == p.restartInterval
      requires ClosedIntervals(p, sink.ts, closed)
      requires out == base + Flat(closed) + Stuff(s.data) + [0xFF, RestartMarker(|closed|)]
      modifies this`closed, this`open
      ensures closed == old(closed) + [s] && open == [] && All() == old(All())
      ensures ClosedIntervals(p, sink.ts, closed) && out == base + Flat(closed)
    {
      FlatSnoc(base, closed, s);
      ClosedSnoc(p, sink.ts, closed, s);
      assert Mcus(closed) + open + [] == Mcus(closed) + open;
      closed, open := closed + [s], [];
    }

    /** The bytes of the open interval and its marker. */
    ghost function Closing(): seq<Byte>
      reads this
      requires GoodTables(sink.ts) && GoodMcus(p, open)
    {
      Flat(closed) + Stuff(Filled(IntervalBits(p, sink.ts, open))) + [0xFF, RestartMarker(|closed|)]
    }

    /** The bytes up to the end of the open interval. */
    ghost function UpToHere(): seq<Byte>
      reads this
      requires GoodTables(sink.ts) && GoodMcus(p, open)
    {
      Flat(closed) + Stuff(Filled(IntervalBits(p, sink.ts, open)))
    }

    /** The padded segment. */
    method PutSegment() returns (ok: bool, ghost s: HuffSegment)
      requires Invariant()
      modifies sink.w
      ensures sink.w.SameBuffer() && sink.Shapes() && |sink.tables| == sink.numTables && GoodMcus(p, open)
      ensures ok ==> IsInterval(p, sink.ts, s) && s.mcus == open && sink.w.HasRoom()
      ensures ok ==> sink.w.output == base + Flat(closed) + Stuff(s.data)
      ensures ok ==> s.data == sink.w.emitted && s.data == Filled(IntervalBits(p, sink.ts, open))
      ensures !ok ==> Overrun(sink.w, base, UpToHere())
    {
      assert Unfolded(HuffOpen, 0) && Unfolded(SinkState, 0);
      ghost var pad;
      ghost var flat, bits := Flat(closed), StreamBits(sink.ts, sink.tokens);
      ok, pad := sink.TryFlush();
      s := Segment(open, pad, sink.w.emitted);
      if ok {
        IntervalIsDone(p, sink.ts, s, sink.tokens);
        IntervalData(p, sink.ts, s);
      } else {
        OverrunOf(sink.w, base, flat, bits + Ones(7));
      }
    }

    /** The padded segment and the marker. */
    method PutMarker() returns (ok: bool, ghost s: HuffSegment)
      requires Invariant() && p.restartInterval != 0 && restartsToGo == 0
      modifies sink.w
      ensures sink.w.SameBuffer() && sink.Shapes() && |sink.tables| == sink.numTables && GoodMcus(p, open)
      ensures ok ==> IsInterval(p, sink.ts, s) && s.mcus == open && sink.w.HasRoom()
      ensures ok ==> sink.w.output == base + Flat(closed) + Stuff(s.data) + [0xFF, RestartMarker(|closed|)]
      ensures !ok ==> Overrun(sink.w, base, Closing())
    {
      ok, s := PutSegment();
      if ok {
        ghost var f, m := Flat(closed) + Stuff(s.data), [0xFF, RestartMarker(|closed|)];
        Assoc(base, Flat(closed), Stuff(s.data));
        Assoc(base, f, m);
        ok := sink.w.TryMarker(M_RST0 + nextRestartNum);
      } else {
        Assoc(base, UpToHere(), [0xFF, RestartMarker(|closed|)]);
      }
    }

    lemma StartsAfresh()
      requires Static() && Ready(sink) && sink.tokens == [] && open == []
      requires lastDc == FreshLast(p) && InPlace()
      ensures Invariant()
    {
      IntervalOpens(p);
    }

    /** The interval is closed by its marker. */
    method CloseInterval() returns (ok: bool)
      requires Invariant() && p.restartInterval != 0 && restartsToGo == 0
      modifies this`closed, this`open, sink`tokens, sink`start, sink.w
      ensures GoodMcus(p, old(open))
      ensures sink.w.suspends == old(sink.w.suspends)
      ensures sink.w.suspends ==> |sink.w.output| + sink.w.free == old(|sink.w.output| + sink.w.free)
      ensures ok ==> Ready(sink) && sink.tokens == [] && sink.start == base + Flat(closed)
                     && ClosedIntervals(p, sink.ts, closed)
      ensures ok ==> closed != [] && nextRestartNum == Number(|closed| - 1) && All() == old(All()) && open == []
      ensures !ok ==> Overrun(sink.w, base, old(Closing()))
    {
      ghost var s;
      ok, s := PutMarker();
      if ok {
        Close(s, sink.w.output);
        sink.Begin();
      }
    }

    /** emit_restart_s: predictions start afresh behind the marker. */
    method EmitRestart() returns (ok: bool)
      requires Invariant() && p.restartInterval != 0 && restartsToGo == 0
      modifies this`lastDc, this`restartsToGo, this`nextRestartNum, this`closed, this`open, sink`tokens, sink`start,
          sink.w
      ensures GoodMcus(p, old(open))
      ensures sink.w.suspends == old(sink.w.suspends)
      ensures sink.w.suspends ==> |sink.w.output| + sink.w.free == old(|sink.w.output| + sink.w.free)
      ensures ok ==> Invariant() && restartsToGo == p.restartInterval && All() == old(All()) && open == []
      ensures !ok ==> Overrun(sink.w, base, old(Closing()))
    {
      ok := CloseInterval();
      if ok {
        lastDc, restartsToGo, nextRestartNum := FreshLast(p), p.restartInterval, Following(nextRestartNum);
        StartsAfresh();
      }
    }

    // ---- encode_mcu_huff

    /** The interval with one more MCU. */
    method Join(ghost mcu: Mcu)
      requires InPlace() && (p.restartInterval != 0 ==> restartsToGo > 0)
      modifies this`open, this`restartsToGo
      ensures InPlace() && open == old(open) + [mcu] && All() == old(All()) + [mcu] && SplitRight(p, closed, open)
    {
      Assoc(Mcus(closed), open, [mcu]);
      open := open + [mcu];
      if p.restartInterval != 0 {
        restartsToGo := restartsToGo - 1;
      }
    }

    /** The MCU joins the current interval. */
    method EncodeHere(mcu: Mcu, ghost last: seq<int>, ghost t0: seq<Token>) returns (r: Outcome)
      requires Invariant() && |mcu.blocks| == |p.membership| && (p.restartInterval != 0 ==> restartsToGo > 0)
      requires last == lastDc && Suits(p, last, mcu) && t0 == sink.tokens
      modifies this`lastDc, this`open, this`restartsToGo, sink`tokens, sink.w
      ensures sink.w.SameBuffer()
      ensures r.Done? ==> Invariant() && All() == old(All()) + [mcu] && SplitRight(p, closed, open)
      ensures !r.Done? ==> McuStopped(last, mcu, t0, r)
    {
      r := EncodeBlocks(mcu, last, t0);
      if r.Done? {
        IntervalGrows(p, open, last, t0, mcu);
        Join(mcu);
      }
    }

    /** What is in front of the next MCU in its interval. */
    lemma OpenIsSince(mcus: seq<Mcu>, k: nat)
      requires Invariant() && k <= |mcus| && All() == mcus[..k] && (p.restartInterval != 0 ==> restartsToGo > 0)
      ensures Since(p.restartInterval, k) <= k && mcus[k - Since(p.restartInterval, k)..k] == open
      ensures GoodMcus(p, open) && lastDc == LastOf(p, open) && sink.tokens == IntervalTokens(p, open)
      ensures AllCoded(sink.ts, sink.tokens) && sink.w.prefix == base + Flat(closed)
    {
      assert Unfolded(HuffOpen, 0) && Unfolded(SinkState, 0);
      SinceStart(p.restartInterval, closed, open, mcus, k);
    }

    /** A symbol without a code, or a coefficient out of range, makes the scan one that cannot be coded. */
    lemma ErrorIsFinal(mcus: seq<Mcu>, k: nat, here: seq<Mcu>, last: seq<int>, t0: seq<Token>)
      requires GoodMcus(p, mcus) && k < |mcus| && Static() && here == mcus[k - Since(p.restartInterval, k)..k]
      requires GoodMcus(p, here) && last == LastOf(p, here) && AllCoded(sink.ts, t0) && Suits(p, last, mcus[k])
      requires McuStopped(last, mcus[k], t0, Error)
      ensures !Codable(p, sink.ts, mcus)
    {
      if Codable(p, sink.ts, mcus) {
        NextIsCodable(p, sink.ts, mcus, k, here, true);
        StreamConcat(sink.ts, t0, McuTokens(p, last, mcus[k], 0));
        assert false;
      }
    }

    /** Without room for the MCU: its bytes are more than there was room for. */
    lemma FullIsShort(mcus: seq<Mcu>, k: nat, segs: seq<HuffSegment>, here: seq<Mcu>, last: seq<int>, t0: seq<Token>)
      requires GoodMcus(p, mcus) && k < |mcus| && Static() && here == mcus[k - Since(p.restartInterval, k)..k]
      requires GoodMcus(p, here) && last == LastOf(p, here) && t0 == IntervalTokens(p, here) && Suits(p, last, mcus[k])
      requires McuStopped(last, mcus[k], t0, Full) && Codable(p, sink.ts, mcus)
      requires Mcus(segs) + here == mcus[..k] && sink.w.prefix == base + Flat(segs)
      requires ClosedIntervals(p, sink.ts, segs) && SplitRight(p, segs, here + [mcus[k]])
      ensures Overrun(sink.w, base, OutputOf(p, sink.ts, mcus[..k + 1]))
    {
      var open' := here + [mcus[k]];
      NextIsCodable(p, sink.ts, mcus, k, here, true);
      DcSnoc(p, here, mcus[k]);
      OutputIs(p, sink.ts, segs, open');
      Assoc(Mcus(segs), here, [mcus[k]]);
      TakeSnoc(mcus, k);
      OverrunOf(sink.w, base, Flat(segs), IntervalBits(p, sink.ts, open'));
    }

    /** An attempt at the k-th MCU. */
    method Attempt(mcus: seq<Mcu>, k: nat) returns (r: Outcome)
      requires Invariant() && SplitRight(p, closed, open) && GoodMcus(p, mcus) && k < |mcus| && All() == mcus[..k]
      modifies this`lastDc, this`restartsToGo, this`nextRestartNum, this`closed, this`open, sink`tokens, sink`start,
          sink.w
      ensures sink.w.suspends == old(sink.w.suspends)
      ensures sink.w.suspends ==> |sink.w.output| + sink.w.free == old(|sink.w.output| + sink.w.free)
      ensures r.Done? ==> Invariant() && SplitRight(p, closed, open) && All() == mcus[..k + 1]
      ensures r.Error? ==> !Codable(p, sink.ts, mcus)
      ensures r.Full? ==> sink.w.suspends
      ensures r.Full? && Codable(p, sink.ts, mcus) ==> Overrun(sink.w, base, OutputOf(p, sink.ts, mcus[..k + 1]))
    {
      r := Done;
      if p.restartInterval != 0 && restartsToGo == 0 {
        assert Unfolded(HuffOpen, 0);
        MarkerIsOutput(p, sink.ts, closed, open, mcus, k);
        var ok := EmitRestart();
        r := if ok then Done else Full;
      }
      if r.Done? {
        r := AttemptHere(mcus, k);
      }
    }

    method AttemptHere(mcus: seq<Mcu>, k: nat) returns (r: Outcome)
      requires Invariant() && GoodMcus(p, mcus) && k < |mcus| && All() == mcus[..k]
      requires p.restartInterval != 0 ==> restartsToGo > 0
      modifies this`lastDc, this`open, this`restartsToGo, sink`tokens, sink.w
      ensures sink.w.SameBuffer()
      ensures r.Done? ==> Invariant() && SplitRight(p, closed, open) && All() == mcus[..k + 1]
      ensures r.Error? ==> !Codable(p, sink.ts, mcus)
      ensures r.Full? ==> sink.w.suspends
      ensures r.Full? && Codable(p, sink.ts, mcus) ==> Overrun(sink.w, base, OutputOf(p, sink.ts, mcus[..k + 1]))
    {
      OpenIsSince(mcus, k);
      TakeSnoc(mcus, k);
      ghost var here, last, t0 := open, lastDc, sink.tokens;
      r := EncodeHere(mcus[k], last, t0);
      if r.Error? {
        ErrorIsFinal(mcus, k, here, last, t0);
      } else if r.Full? && Codable(p, sink.ts, mcus) {
        FullIsShort(mcus, k, closed, here, last, t0);
      }
    }

    /** Between calls everything that belongs to complete bytes of the scan so far is out, and nothing else. */
    lemma OutputSoFar()
      requires Valid()
      ensures GoodTables(sink.ts) && GoodMcus(p, All()) && sink.w.output == base + OutputOf(p, sink.ts, All())
    {
      assert Unfolded(HuffOutput, 0) && Unfolded(SinkState, 0) && Unfolded(BitOutput, 0) && Unfolded(HuffOpen, 0);
      OutputIs(p, sink.ts, closed, open);
      WholeOf(sink.w.emitted, sink.w.pending);
      Assoc(base, Flat(closed), Stuff(sink.w.emitted));
    }

    /** The state of a call that has begun with b. */
    ghost predicate CanGoBack(b: Buffer, rec: Record, was: Standing) {
      && Static() && sink.CanRestore(b, rec) && b.free > 0 && |was.lastDc| == |p.comps|
      && IntervalIs(p, was.open, was.lastDc, rec.tokens) && SplitRight(p, was.closed, was.open)
      && Placed(p, sink.ts, rec.start, base, was.closed, was.open, was.restartsToGo, was.nextRestartNum)
    }

    lemma ComesBack()
      requires Invariant() && SplitRight(p, closed, open)
      ensures sink.w.suspends ==>
                CanGoBack(Buffer(sink.w.putBuffer, sink.w.putBits, sink.w.output, sink.w.free), sink.Here(),
                          Standing(lastDc, restartsToGo, nextRestartNum, closed, open))
    {
      sink.CanComeBack();
    }

    /** The working copy is given up. */
    method GoBack(b: Buffer, last: seq<int>, toGo: nat, number: nat, ghost rec: Record, ghost was: Standing)
      requires CanGoBack(b, rec, was) && was.lastDc == last && was.restartsToGo == toGo && was.nextRestartNum == number
      requires sink.w.suspends
      modifies this`lastDc, this`restartsToGo, this`nextRestartNum, this`closed, this`open, sink`tokens, sink`start,
          sink.w
      ensures Valid() && All() == Mcus(was.closed) + was.open && sink.w.suspends
      ensures sink.w.output == b.output && sink.w.free == b.free
    {
      sink.Restore(b, rec);
      lastDc, restartsToGo, nextRestartNum := last, toGo, number;
      closed, open := was.closed, was.open;
    }

    /**
     * encode_mcu_huff: the MCU is written, restart marker included, or it is an error, or there is no room for it.
     * In the last case nothing has changed, and that is so exactly if its bytes would not leave a byte of room.
     */
    method EncodeMcu(mcus: seq<Mcu>, k: nat) returns (r: Outcome)
      requires Valid() && GoodMcus(p, mcus) && k < |mcus| && All() == mcus[..k]
      modifies this, sink`tokens, sink`start, sink.w
      ensures GoodTables(sink.ts) && sink.w.suspends == old(sink.w.suspends)
      ensures r.Done? ==> Valid() && All() == mcus[..k + 1]
      ensures r.Done? ==> sink.w.output == base + OutputOf(p, sink.ts, mcus[..k + 1])
      ensures r.Full? ==> Valid() && All() == mcus[..k] && sink.w.suspends
                          && sink.w.output == old(sink.w.output) && sink.w.free == old(sink.w.free)
      ensures r.Error? ==> !Codable(p, sink.ts, mcus)
      ensures Codable(p, sink.ts, mcus) && sink.w.suspends ==>
                (r.Full? <==> old(sink.w.free) <= Needed(p, sink.ts, mcus, k))
    {
      OutputSoFar();
      assert Unfolded(HuffOutput, 0);
      ComesBack();
      var saved := sink.w.Save();
      var last, toGo, number := lastDc, restartsToGo, nextRestartNum;
      ghost var rec, was := sink.Here(), Standing(lastDc, restartsToGo, nextRestartNum, closed, open);
      r := Attempt(mcus, k);
      if r.Full? {
        GoBack(saved, last, toGo, number, rec, was);
      } else if r.Done? {
        OutputSoFar();
      }
    }

    /** The application has emptied the buffer. */
    method MakeRoom(room: nat)
      requires Valid()
      modifies sink.w
      ensures Valid() && (sink.w.suspends <==> room > 0 && old(sink.w.suspends)) && sink.w.free == room
    {
      assert Unfolded(HuffOutput, 0);
      sink.Drain(room);
    }

    /** What has been written could be. */
    lemma AllIsCodable()
      requires Valid()
      ensures GoodTables(sink.ts) && GoodMcus(p, All()) && Codable(p, sink.ts, All())
    {
      assert Unfolded(HuffOutput, 0) && Unfolded(HuffOpen, 0) && Unfolded(SinkState, 0);
      ClosedCodable(p, sink.ts, closed);
      OpenCodable(p, sink.ts, closed, open);
    }

    /**
     * finish_pass_huff; the segments of the whole scan. A full buffer is an error here, and that is so exactly
     * if the last bytes would not leave a byte of room.
     */
    method Finish() returns (ok: bool, ghost segs: seq<HuffSegment>)
      requires Valid()
      modifies sink.w
      ensures GoodTables(sink.ts) && GoodMcus(p, All()) && Codable(p, sink.ts, All())
      ensures ok ==> sink.w.output == base + ScanBytes(p, sink.ts, All()) && Mcus(segs) == All()
                     && IsHuffScan(p, sink.ts, segs, ScanBytes(p, sink.ts, All()))
      ensures !ok <==> old(sink.w.suspends)
                       && old(|sink.w.output| + sink.w.free) <= |base| + |ScanBytes(p, sink.ts, All())|
    {
      OutputSoFar();
      AllIsCodable();
      assert Unfolded(HuffOutput, 0) && Unfolded(HuffOpen, 0) && Unfolded(SinkState, 0);
      ScanIs(p, sink.ts, closed, open);
      ghost var s;
      ok, s := PutSegment();
      segs := closed + [s];
      if ok {
        assert segs[..|closed|] == closed;
        Assoc(base, Flat(closed), Stuff(s.data));
      }
    }
  }
}
