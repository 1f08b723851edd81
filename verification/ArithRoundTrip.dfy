/** A whole scan through the arithmetic encoder and decoder. */
module ArithRoundTrip {
  import opened Numbers
  import opened ArithEncoder
  import opened ArithDecoder
  import opened ArithMcuEncoder
  import opened ArithMcuDecoder
  import opened Binarisation
  import opened Blocks
  import opened Scans
  import opened ArithScan
  import opened ScanLayout
  import opened RestartLayout

  /** The MCUs of a scan in order, then the end of the scan. */
  method EncodeScan(coder: ArithEncoder, p: Params, mcus: seq<Mcu>) returns (ghost segs: seq<ArithSegment>)
    requires GoodParams(p) && GoodMcus(p, mcus)
    modifies coder
    ensures old(coder.output) <= coder.output
    ensures IsScan(p, segs, coder.output[|old(coder.output)|..]) && Mcus(segs) == mcus
  {
    var e := new McuEncoder(coder, p);
    var k := 0;
    while k < |mcus|
      invariant 0 <= k <= |mcus|
      invariant e.Valid() && e.e == coder && e.p == p && e.base == old(coder.output)
      invariant e.All() == mcus[..k]
    {
      TakeSnoc(mcus, k);
      e.EncodeMcu(mcus[k]);
      k := k + 1;
    }
    assert mcus[..k] == mcus;
    segs := e.FinishScan();
  }

  /** A scan, what its receiver holds beforehand, and the rule for both. */
  ghost predicate Trip(p: Params, prior: seq<Mcu>, mcus: seq<Mcu>) {
    GoodParams(p) && GoodMcus(p, prior) && GoodMcus(p, mcus) && |prior| == |mcus|
  }

  /** The receiver's first k MCUs after the scan. */
  ghost function Delivered(p: Params, prior: seq<Mcu>, mcus: seq<Mcu>, k: nat): (out: seq<Mcu>)
    requires Trip(p, prior, mcus) && k <= |mcus|
    ensures |out| == k
  {
    if k == 0 then [] else Delivered(p, prior, mcus, k - 1) + [McuReceived(p.mode, p.order, prior[k - 1], mcus[k - 1])]
  }

  lemma {:induction false} DeliveredAt(p: Params, prior: seq<Mcu>, mcus: seq<Mcu>, k: nat, m: nat)
    requires Trip(p, prior, mcus) && m < k <= |mcus|
    ensures Delivered(p, prior, mcus, k)[m] == McuReceived(p.mode, p.order, prior[m], mcus[m])
    decreases k
  {
    if m < k - 1 {
      DeliveredAt(p, prior, mcus, k - 1, m);
    }
  }

  ghost predicate ScanPrepared(p: Params, prior: seq<Mcu>, mcus: seq<Mcu>)
    requires Trip(p, prior, mcus)
  {
    forall k :: 0 <= k < |mcus| ==> McuPrepared(p, prior[k], mcus[k])
  }

  /** No DC difference in the first k MCUs exceeds 2^15 in magnitude. */
  ghost predicate FitsUpTo(p: Params, mcus: seq<Mcu>, k: nat)
    requires GoodParams(p) && GoodMcus(p, mcus) && k <= |mcus|
  {
    k > 0 ==> FitsUpTo(p, mcus, k - 1) && Fits(p, mcus, k - 1)
  }

  ghost predicate AllBlank(prior: seq<Mcu>) {
    forall k :: 0 <= k < |prior| ==> Blank(prior[k])
  }

  lemma SnocIsInjective<T>(s: seq<T>, x: T, s': seq<T>, x': T)
    requires |s| == |s'|
    ensures s + [x] == s' + [x'] <==> s == s' && x == x'
  {
    assert (s + [x])[..|s|] == s && (s' + [x'])[..|s|] == s';
    assert (s + [x])[|s|] == x && (s' + [x'])[|s|] == x';
  }

  /** One more MCU: the decoder goes on delivering what was sent exactly as long as the differences fit. */
  method DecodeNext(d: McuDecoder, prior: seq<Mcu>, done: seq<Mcu>, ghost all: seq<Mcu>)
    returns (ok: bool, out: seq<Mcu>)
    requires d.Valid() && Trip(d.p, prior, all) && ScanPrepared(d.p, prior, all) && |done| < |all|
    requires FitsUpTo(d.p, all, |done|) ==> d.Follows(all, |done|)
    requires AllBlank(prior) || FitsUpTo(d.p, all, |done|) ==>
               (done == Delivered(d.p, prior, all, |done|) <==> FitsUpTo(d.p, all, |done|))
    modifies d, d.d
    ensures |out| == |done| + 1 && (ok ==> d.Valid())
    ensures FitsUpTo(d.p, all, |done| + 1) ==> ok && d.Follows(all, |done| + 1)
    ensures ok && (AllBlank(prior) || FitsUpTo(d.p, all, |done| + 1)) ==>
              (out == Delivered(d.p, prior, all, |done| + 1) <==> FitsUpTo(d.p, all, |done| + 1))
  {
    var mcu;
    var k := |done|;
    ok, mcu := d.DecodeMcu(prior[k], all, k);
    out := done + [mcu];
    SnocIsInjective(done, mcu, Delivered(d.p, prior, all, k), McuReceived(d.p.mode, d.p.order, prior[k], all[k]));
  }

  /**
   * The MCUs of a scan from the bytes an encoder wrote. They are what was sent if no DC difference is
   * too large; when the caller has cleared the blocks, only then.
   */
  method DecodeScan(decoder: ArithDecoder, p: Params, prior: seq<Mcu>, ghost segs: seq<ArithSegment>,
                    ghost marker: Byte)
    returns (ok: bool, out: seq<Mcu>)
    requires Trip(p, prior, Mcus(segs)) && ScanPrepared(p, prior, Mcus(segs))
    requires decoder.pos <= |decoder.input| && decoder.unreadMarker == 0
    requires HoldsScan(decoder.input, decoder.pos, p, segs, marker)
    modifies decoder
    ensures FitsUpTo(p, Mcus(segs), |prior|) ==> ok && out == Delivered(p, prior, Mcus(segs), |prior|)
    ensures AllBlank(prior) && ok && out == Delivered(p, prior, Mcus(segs), |prior|) ==>
              FitsUpTo(p, Mcus(segs), |prior|)
  {
    var d := new McuDecoder(decoder, p, segs, marker);
    ghost var all := Mcus(segs);
    ok, out := true, [];
    while |out| < |prior| && ok
      invariant d.d == decoder && d.p == p && |out| <= |prior|
      invariant ok ==> d.Valid()
      invariant FitsUpTo(p, all, |out|) ==> ok && d.Follows(all, |out|)
      invariant ok && (AllBlank(prior) || FitsUpTo(p, all, |out|)) ==>
                  (out == Delivered(p, prior, all, |out|) <==> FitsUpTo(p, all, |out|))
      invariant !ok ==> !FitsUpTo(p, all, |prior|)
      decreases |prior| - |out|, ok
    {
      ok, out := DecodeNext(d, prior, out, all);
      FitsDown(p, all, |out|, |prior|);
    }
  }

  lemma {:induction false} FitsDown(p: Params, mcus: seq<Mcu>, j: nat, k: nat)
    requires GoodParams(p) && GoodMcus(p, mcus) && j <= k <= |mcus|
    ensures FitsUpTo(p, mcus, k) ==> FitsUpTo(p, mcus, j)
  {
    if j < k {
      FitsDown(p, mcus, j, k - 1);
    }
  }

  lemma ScanIsHeld(before: seq<Byte>, stream: seq<Byte>, marker: Byte, after: seq<Byte>, p: Params,
                   segs: seq<ArithSegment>)
    requires before <= stream && IsScan(p, segs, stream[|before|..]) && 0 < marker < 0xFF
    ensures HoldsScan(stream + [0xFF, marker] + after, |before|, p, segs, marker)
  {
    var bytes := stream[|before|..];
    var rest := (stream + [0xFF, marker] + after)[|before|..];
    DropInside(stream, [0xFF, marker] + after, |before|);
    Assoc(stream, [0xFF, marker], after);
    Assoc(bytes, [0xFF, marker], after);
  }

  /** A scan is encoded behind some bytes, a marker and anything else follow it, and it is decoded again. */
  method ScanRoundTrip(p: Params, before: seq<Byte>, mcus: seq<Mcu>, marker: Byte, after: seq<Byte>, prior: seq<Mcu>)
    returns (ok: bool, out: seq<Mcu>)
    requires Trip(p, prior, mcus) && ScanPrepared(p, prior, mcus) && 0 < marker < 0xFF
    ensures FitsUpTo(p, mcus, |mcus|) ==> ok && out == Delivered(p, prior, mcus, |mcus|)
    ensures AllBlank(prior) ==> (ok && out == Delivered(p, prior, mcus, |mcus|) <==> FitsUpTo(p, mcus, |mcus|))
  {
    var coder := new ArithEncoder(before);
    ghost var segs := EncodeScan(coder, p, mcus);
    ScanIsHeld(before, coder.output, marker, after, p, segs);
    var decoder := new ArithDecoder(coder.output + [0xFF, marker] + after, |before|);
    ok, out := DecodeScan(decoder, p, prior, segs, marker);
  }

  // ---- Which scans fit

  ghost predicate SmallDc(p: Params, mcu: Mcu) {
    forall j :: 0 <= j < |mcu.blocks| ==> Abs(DcValue(p.mode, mcu.blocks[j])) <= 0x4000
  }

  ghost predicate AllSmall(p: Params, mcus: seq<Mcu>) {
    forall i :: 0 <= i < |mcus| ==> SmallDc(p, mcus[i])
  }

  predicate SmallLast(dc: Dc) {
    forall c :: 0 <= c < |dc.last| ==> Abs(dc.last[c]) <= 0x4000
  }

  /** Transmitted DC values of up to 2^14 in magnitude, more than 8-bit samples need, always fit. */
  lemma {:induction false} SmallDcFits(p: Params, mcus: seq<Mcu>, k: nat)
    requires GoodParams(p) && GoodMcus(p, mcus) && k <= |mcus|
    requires AllSmall(p, mcus)
    ensures FitsUpTo(p, mcus, k)
  {
    if k > 0 {
      SmallDcFits(p, mcus, k - 1);
      SmallSlice(p, mcus, k - 1 - Since(p.restartInterval, k - 1), k - 1);
      SmallMcuFits(p, DcBefore(p, mcus, k - 1), mcus[k - 1], 0);
    }
  }

  lemma SmallSlice(p: Params, mcus: seq<Mcu>, i: nat, j: nat)
    requires GoodParams(p) && GoodMcus(p, mcus) && i <= j <= |mcus| && AllSmall(p, mcus)
    ensures SmallLast(IntervalDc(p, mcus[i..j]))
  {
    assert forall k :: 0 <= k < j - i ==> mcus[i..j][k] == mcus[i + k];
    SmallInterval(p, mcus[i..j]);
  }

  lemma {:induction false} SmallMcuFits(p: Params, dc: Dc, mcu: Mcu, i: nat)
    requires GoodParams(p) && GoodDc(p, dc) && |mcu.blocks| == |p.membership| && SmallDc(p, mcu) && SmallLast(dc)
    ensures McuFits(p, dc, mcu, i) && SmallLast(McuDc(p, dc, mcu, i))
    decreases |mcu.blocks| - i
  {
    if i < |mcu.blocks| {
      SmallMcuFits(p, NextDc(p, p.membership[i], dc, mcu.blocks[i]), mcu, i + 1);
    }
  }

  lemma {:induction false} SmallInterval(p: Params, mcus: seq<Mcu>)
    requires GoodParams(p) && GoodMcus(p, mcus) && AllSmall(p, mcus)
    ensures SmallLast(IntervalDc(p, mcus))
  {
    if mcus != [] {
      var init := mcus[..|mcus| - 1];
      SmallInterval(p, init);
      SmallMcuFits(p, IntervalDc(p, init), mcus[|mcus| - 1], 0);
    }
  }

  /** One gray block with this DC value. */
  function Gray(v: Coef): Mcu {
    Mcu([ZeroBlock()[0 := v]])
  }

  function GrayParams(): Params {
    Params(Sequential, [0], [Tables(0, 0, Conditioning(0, 1), 0)], [0], 0)
  }

  lemma GrayDc(p: Params, dc: Dc, v: Coef)
    requires p == GrayParams() && GoodDc(p, dc)
    ensures McuDc(p, dc, Gray(v), 0).last == [v]
    ensures McuFits(p, dc, Gray(v), 0) <==> Abs((v as int) - dc.last[0]) <= 0x8000
  {
    var m := Gray(v);
    assert McuDc(p, dc, m, 0) == McuDc(p, NextDc(p, 0, dc, m.blocks[0]), m, 1) == NextDc(p, 0, dc, m.blocks[0]);
  }

  lemma FirstGray(p: Params, u: Coef)
    requires p == GrayParams()
    ensures IntervalDc(p, [Gray(u)]).last == [u]
  {
    IntervalSnoc(p, [], Gray(u));
    assert [] + [Gray(u)] == [Gray(u)];
    GrayDc(p, FreshDc(p), u);
  }

  /** Two gray blocks fit exactly if their DC values are at most 2^15 apart. */
  lemma TwoGrayBlocks(p: Params, u: Coef, v: Coef)
    requires p == GrayParams()
    ensures FitsUpTo(p, [Gray(u), Gray(v)], 2) <==> Abs((v as int) - u) <= 0x8000
  {
    var mcus: seq<Mcu> := [Gray(u), Gray(v)];
    assert mcus[0..0] == [] && mcus[0..1] == [Gray(u)];
    GrayDc(p, FreshDc(p), u);
    assert Fits(p, mcus, 0);
    FirstGray(p, u);
    GrayDc(p, IntervalDc(p, [Gray(u)]), v);
    assert FitsUpTo(p, mcus, 1);
  }

  /** From cleared blocks two gray blocks are delivered as they are. */
  lemma GrayIsDelivered(p: Params, prior: seq<Mcu>, u: Coef, v: Coef)
    requires p == GrayParams() && prior == [Gray(0), Gray(0)]
    ensures AllBlank(prior) && Trip(p, prior, [Gray(u), Gray(v)]) && ScanPrepared(p, prior, [Gray(u), Gray(v)])
    ensures Delivered(p, prior, [Gray(u), Gray(v)], 2) == [Gray(u), Gray(v)]
  {
    assert ZeroBlock()[0 := 0] == ZeroBlock();
    var mcus: seq<Mcu> := [Gray(u), Gray(v)];
    OneGray(p, u);
    OneGray(p, v);
    DeliveredAt(p, prior, mcus, 2, 0);
    DeliveredAt(p, prior, mcus, 2, 1);
  }

  lemma OneGray(p: Params, v: Coef)
    requires p == GrayParams()
    ensures McuReceived(p.mode, p.order, Gray(0), Gray(v)) == Gray(v)
  {
    var r := McuReceived(p.mode, p.order, Gray(0), Gray(v));
    assert r.blocks[0] == Received(Sequential, [0], Gray(0).blocks[0], Gray(v).blocks[0]) == Gray(v).blocks[0];
    assert r.blocks == Gray(v).blocks;
  }

  /** Two gray blocks come back exactly if their DC values are at most 2^15 apart. */
  method GrayRoundTrip(u: Coef, v: Coef, before: seq<Byte>, marker: Byte, after: seq<Byte>) returns (ok: bool,
                       out: seq<Mcu>)
    requires 0 < marker < 0xFF
    ensures ok && out == [Gray(u), Gray(v)] <==> Abs((v as int) - u) <= 0x8000
  {
    var p, mcus, prior := GrayParams(), [Gray(u), Gray(v)], [Gray(0), Gray(0)];
    GrayIsDelivered(p, prior, u, v);
    TwoGrayBlocks(p, u, v);
    ok, out := ScanRoundTrip(p, before, mcus, marker, after, prior);
  }

  /** The extreme DC values: the encoder codes them without complaint, and they do not come back. */
  method ExtremeDcIsLost(before: seq<Byte>, marker: Byte, after: seq<Byte>) returns (ok: bool, out: seq<Mcu>)
    requires 0 < marker < 0xFF
    ensures !(ok && out == [Gray(-0x8000), Gray(0x7FFF)])
  {
    ok, out := GrayRoundTrip(-0x8000, 0x7FFF, before, marker, after);
  }
}
