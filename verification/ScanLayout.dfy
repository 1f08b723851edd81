/** How the code segments of a scan and its restart markers lie in the byte stream. */
module ScanLayout {
  import opened Numbers
  import opened IntervalCoder
  import opened CodeSegments
  import opened ByteStuffing
  import opened Blocks
  import opened ArithScan
  import opened RestartLayout

  /** A restart interval and the exact coder behind it. */
  type ArithSegment = Segment<Coder>

  /** The segment is what the encoder makes of the MCUs. */
  ghost predicate GoodSegment(p: Params, s: ArithSegment) {
    GoodParams(p) && GoodMcus(p, s.mcus) && Encodes(s, IntervalDecisions(p, s.mcus))
  }

  ghost predicate Encodes(s: ArithSegment, decisions: seq<Decision>) {
    forall k: nat {:trigger Unfolded(CodedSegment, k)} :: Unfolded(CodedSegment, k) ==>
      Coded(decisions, s.final) && Normal(s.final.x) && IsSegment(s.data, s.final.x)
  }

  ghost predicate ClosedSegments(p: Params, segs: seq<ArithSegment>) {
    FullIntervals(p, segs) && forall i :: 0 <= i < |segs| ==> GoodSegment(p, segs[i])
  }

  ghost predicate FullIntervals(p: Params, segs: seq<ArithSegment>) {
    forall i :: 0 <= i < |segs| ==> |segs[i].mcus| == p.restartInterval
  }

  lemma ClosedSnoc(p: Params, segs: seq<ArithSegment>, s: ArithSegment)
    requires ClosedSegments(p, segs) && GoodSegment(p, s) && |s.mcus| == p.restartInterval
    ensures ClosedSegments(p, segs + [s])
  {
  }

  /** bytes are the coded scan of the MCUs in segs, up to but not including the marker behind it. */
  ghost predicate IsScan(p: Params, segs: seq<ArithSegment>, bytes: seq<Byte>) {
    && segs != []
    && var n := |segs| - 1;
       && ClosedSegments(p, segs[..n]) && GoodSegment(p, segs[n])
       && (if p.restartInterval == 0 then n == 0 else |segs[n].mcus| <= p.restartInterval)
       && bytes == Flat(segs[..n]) + Stuff(segs[n].data)
  }

  /** The input holds a coded scan at position `at`, followed by the marker m. */
  ghost predicate HoldsScan(input: seq<Byte>, at: nat, p: Params, segs: seq<ArithSegment>, m: Byte) {
    0 < m < 0xFF && at <= |input| && StartsWithScan(input[at..], p, segs, m)
  }

  /** (folded) */
  ghost predicate StartsWithScan(input: seq<Byte>, p: Params, segs: seq<ArithSegment>, m: Byte) {
    forall k: nat {:trigger Unfolded(ScanInput, k)} :: Unfolded(ScanInput, k) ==>
      exists bytes :: IsScan(p, segs, bytes) && bytes + [0xFF, m] <= input
  }

  lemma ClosedAt(p: Params, segs: seq<ArithSegment>, i: nat)
    requires ClosedSegments(p, segs) && i < |segs|
    ensures GoodSegment(p, segs[i]) && |segs[i].mcus| == p.restartInterval
  {
  }

  lemma SegmentIsGood(p: Params, segs: seq<ArithSegment>, bytes: seq<Byte>, i: nat)
    requires IsScan(p, segs, bytes) && i < |segs|
    ensures GoodSegment(p, segs[i])
    ensures p.restartInterval != 0 ==> |segs[i].mcus| <= p.restartInterval
    ensures i + 1 < |segs| ==> p.restartInterval != 0 && |segs[i].mcus| == p.restartInterval
  {
    var n := |segs| - 1;
    if i < n {
      ClosedAt(p, segs[..n], i);
      assert segs[..n][i] == segs[i];
    } else {
      assert i == n;
    }
  }

  lemma SegmentBytesHeld(input: seq<Byte>, at: nat, segs: seq<ArithSegment>, m: Byte, i: nat, bytes: seq<Byte>)
    requires at <= |input| && i < |segs| && bytes + [0xFF, m] <= input[at..]
    requires bytes == Flat(segs[..|segs| - 1]) + Stuff(segs[|segs| - 1].data) && 0 < m < 0xFF
    ensures SegmentStart(at, segs, i) <= |input|
    ensures HoldsSegment(input, SegmentStart(at, segs, i), segs[i].data, MarkerAfter(segs, m, i))
  {
    var mine := Stuff(segs[i].data) + [0xFF, MarkerAfter(segs, m, i)];
    SegmentBytes(segs, i, m, bytes + [0xFF, m]);
    PrefixDrop(Flat(segs[..i]), mine, input[at..]);
    assert input[at..][|Flat(segs[..i])|..] == input[SegmentStart(at, segs, i)..];
  }

  lemma SegmentHeld(input: seq<Byte>, at: nat, p: Params, segs: seq<ArithSegment>, m: Byte, i: nat)
    requires HoldsScan(input, at, p, segs, m) && i < |segs|
    ensures SegmentStart(at, segs, i) <= |input|
    ensures HoldsSegment(input, SegmentStart(at, segs, i), segs[i].data, MarkerAfter(segs, m, i))
    ensures GoodSegment(p, segs[i])
    ensures p.restartInterval != 0 ==> |segs[i].mcus| <= p.restartInterval
    ensures i + 1 < |segs| ==> p.restartInterval != 0 && |segs[i].mcus| == p.restartInterval
  {
    assert Unfolded(ScanInput, 0);
    var bytes :| IsScan(p, segs, bytes) && bytes + [0xFF, m] <= input[at..];
    SegmentIsGood(p, segs, bytes, i);
    SegmentBytesHeld(input, at, segs, m, i, bytes);
  }

  lemma ScanStart(input: seq<Byte>, at: nat, p: Params, segs: seq<ArithSegment>, m: Byte)
    requires HoldsScan(input, at, p, segs, m)
    ensures segs != [] && SegmentStart(at, segs, 0) == at && Mcus(segs[..0]) == []
  {
    assert Unfolded(ScanInput, 0);
    assert segs[..0] == [];
  }

  lemma IntervalsAreFull(input: seq<Byte>, at: nat, p: Params, segs: seq<ArithSegment>, m: Byte, i: nat)
    requires HoldsScan(input, at, p, segs, m) && i < |segs|
    ensures FullIntervals(p, segs[..i]) && (p.restartInterval == 0 ==> i == 0)
  {
    assert Unfolded(ScanInput, 0);
    var bytes :| IsScan(p, segs, bytes) && bytes + [0xFF, m] <= input[at..];
    assert segs[..|segs| - 1][..i] == segs[..i];
  }

  lemma IntervalSnoc(p: Params, mcus: seq<Mcu>, mcu: Mcu)
    requires GoodParams(p) && GoodMcus(p, mcus) && |mcu.blocks| == |p.membership|
    ensures GoodMcus(p, mcus + [mcu])
    ensures IntervalDc(p, mcus + [mcu]) == McuDc(p, IntervalDc(p, mcus), mcu, 0)
    ensures IntervalDecisions(p, mcus + [mcu]) == IntervalDecisions(p, mcus) + McuDecisions(p, IntervalDc(p, mcus),
              mcu, 0)
  {
    assert (mcus + [mcu])[..|mcus|] == mcus;
  }

  /** What the MCUs of an interval amount to. (folded) */
  ghost predicate IntervalIs(p: Params, mcus: seq<Mcu>, dc: Dc, decisions: seq<Decision>) {
    forall k: nat {:trigger Unfolded(ArithOpen, k)} :: Unfolded(ArithOpen, k) ==>
      GoodParams(p) && GoodMcus(p, mcus) && dc == IntervalDc(p, mcus) && decisions == IntervalDecisions(p, mcus)
  }

  lemma EmptyInterval(p: Params)
    requires GoodParams(p)
    ensures GoodDc(p, FreshDc(p)) && IntervalIs(p, [], FreshDc(p), [])
  {
  }

  lemma IntervalGrows(p: Params, mcus: seq<Mcu>, dc: Dc, decisions: seq<Decision>, mcu: Mcu)
    requires IntervalIs(p, mcus, dc, decisions) && GoodParams(p) && GoodDc(p, dc) && |mcu.blocks| == |p.membership|
    ensures GoodDc(p, McuDc(p, dc, mcu, 0))
    ensures IntervalIs(p, mcus + [mcu], McuDc(p, dc, mcu, 0), decisions + McuDecisions(p, dc, mcu, 0))
  {
    assert Unfolded(ArithOpen, 0);
    IntervalSnoc(p, mcus, mcu);
  }

  /** An interval whose decisions have been coded to the end. */
  lemma IntervalIsDone(p: Params, s: ArithSegment, dc: Dc, decisions: seq<Decision>)
    requires IntervalIs(p, s.mcus, dc, decisions) && Encodes(s, decisions)
    ensures GoodSegment(p, s)
  {
    assert Unfolded(ArithOpen, 0);
  }

  lemma NextInterval(p: Params, mcus: seq<Mcu>, j: nat)
    requires GoodParams(p) && GoodMcus(p, mcus) && j < |mcus|
    ensures IntervalDc(p, mcus[..j + 1]) == McuDc(p, IntervalDc(p, mcus[..j]), mcus[j], 0)
    ensures IntervalDecisions(p, mcus[..j + 1])
            == IntervalDecisions(p, mcus[..j]) + McuDecisions(p, IntervalDc(p, mcus[..j]), mcus[j], 0)
  {
    IntervalSnoc(p, mcus[..j], mcus[j]);
    TakeSnoc(mcus, j);
  }

  /** What comes next in an interval. */
  lemma NextOf(p: Params, mcus: seq<Mcu>, j: nat, dc: Dc, mcu: Mcu, ahead: seq<Decision>)
    requires GoodParams(p) && GoodMcus(p, mcus) && j < |mcus| && mcu == mcus[j] && dc == IntervalDc(p, mcus[..j])
    requires ahead == IntervalFrom(p, dc, mcus, j)
    ensures |mcu.blocks| == |p.membership|
    ensures ahead == McuDecisions(p, dc, mcu, 0) + IntervalFrom(p, McuDc(p, dc, mcu, 0), mcus, j + 1)
    ensures McuDc(p, dc, mcu, 0) == IntervalDc(p, mcus[..j + 1])
  {
    NextInterval(p, mcus, j);
  }

  /** The decisions of an interval are those before its j-th MCU and those from it on. */
  lemma {:induction false} IntervalSplit(p: Params, mcus: seq<Mcu>, j: nat)
    requires GoodParams(p) && GoodMcus(p, mcus) && j <= |mcus|
    ensures IntervalDecisions(p, mcus[..j]) + IntervalFrom(p, IntervalDc(p, mcus[..j]), mcus, j)
            == IntervalDecisions(p, mcus)
    decreases |mcus| - j
  {
    if j == |mcus| {
      assert mcus[..j] == mcus;
    } else {
      NextInterval(p, mcus, j);
      IntervalSplit(p, mcus, j + 1);
      var dc := IntervalDc(p, mcus[..j]);
      Assoc(IntervalDecisions(p, mcus[..j]), McuDecisions(p, dc, mcus[j], 0),
            IntervalFrom(p, McuDc(p, dc, mcus[j], 0), mcus, j + 1));
    }
  }

  lemma IntervalStart(p: Params, mcus: seq<Mcu>)
    requires GoodParams(p) && GoodMcus(p, mcus)
    ensures mcus[..0] == [] && IntervalDecisions(p, mcus) == IntervalFrom(p, FreshDc(p), mcus, 0)
  {
    IntervalSplit(p, mcus, 0);
    assert mcus[..0] == [];
    assert [] + IntervalFrom(p, FreshDc(p), mcus, 0) == IntervalFrom(p, FreshDc(p), mcus, 0);
  }

  /** The j-th MCU of segment i seen from the whole scan: its place in the scan and in its interval. */
  lemma McuPlace(p: Params, segs: seq<ArithSegment>, i: nat, j: nat, all: seq<Mcu>, k: nat)
    requires i < |segs| && j <= |segs[i].mcus| && all == Mcus(segs) && k == |Mcus(segs[..i])| + j
    requires FullIntervals(p, segs[..i]) && (p.restartInterval == 0 ==> i == 0)
    requires p.restartInterval != 0 ==> j < p.restartInterval
    ensures Since(p.restartInterval, k) == j && k <= |all| && all[k - j..k] == segs[i].mcus[..j]
  {
    McusPrefix(segs, i + 1);
    assert segs[..i + 1][..i] == segs[..i];
    assert all[k - j..k] == segs[i].mcus[..j];
    McuSince(p.restartInterval, segs[..i], j);
  }

  /** The k-th MCU of a scan is the j-th of its segment i, with the DC state to match. */
  ghost predicate IsMcuOf(p: Params, all: seq<Mcu>, k: nat, seg: ArithSegment, j: nat)
    requires GoodParams(p) && GoodMcus(p, all) && GoodMcus(p, seg.mcus)
  {
    && k < |all| && j < |seg.mcus| && all[k] == seg.mcus[j]
    && DcBefore(p, all, k) == IntervalDc(p, seg.mcus[..j])
  }

  lemma PlaceIsRight(p: Params, all: seq<Mcu>, k: nat, seg: ArithSegment, j: nat)
    requires GoodParams(p) && GoodMcus(p, all) && GoodMcus(p, seg.mcus) && j <= k < |all| && j < |seg.mcus|
    requires all[k] == seg.mcus[j] && Since(p.restartInterval, k) == j && all[k - j..k] == seg.mcus[..j]
    ensures IsMcuOf(p, all, k, seg, j)
  {
  }

  lemma McuInScan(input: seq<Byte>, at: nat, p: Params, segs: seq<ArithSegment>, m: Byte, i: nat, j: nat, all: seq<Mcu>,
                  k: nat)
    requires HoldsScan(input, at, p, segs, m) && i < |segs| && j < |segs[i].mcus|
    requires GoodParams(p) && GoodMcus(p, all) && GoodMcus(p, segs[i].mcus)
    requires p.restartInterval != 0 ==> j < p.restartInterval
    requires all == Mcus(segs) && k == |Mcus(segs[..i])| + j
    ensures IsMcuOf(p, all, k, segs[i], j)
  {
    IntervalsAreFull(input, at, p, segs, m, i);
    McuIndex(segs, i, j);
    McuPlace(p, segs, i, j, all, k);
    PlaceIsRight(p, all, k, segs[i], j);
  }
}
