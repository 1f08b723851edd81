/** Where a decoder is in a Huffman-coded scan: the segments in the input, and the places in an interval. */
module HuffmanPlace {
  import opened Numbers
  import opened BitStrings
  import opened Blocks
  import opened Scans
  import opened IntervalCoder
  import opened ByteStuffing
  import opened HuffmanStream
  import opened HuffmanRuns
  import opened HuffmanScan
  import opened RestartLayout

  // ---- In an interval

  /** In front of MCU i of an interval: the prediction, the ends of block pending, and the tokens ahead. */
  datatype IntervalPlace = IntervalPlace(s: HuffSegment, i: nat, last: seq<int>, eobrun: nat, ahead: seq<Token>)

  ghost predicate InRun(p: Params, at: IntervalPlace)
    requires GoodMcus(p, at.s.mcus) && IsAc(p.mode) && IntervalFits(p, at.s.mcus)
  {
    var bd, zzs := BandOf(p), BandsOf(p, at.s.mcus);
    && InRuns(bd, zzs, EobCounts(bd, zzs), at.i, at.eobrun)
    && at.ahead == FromHere(bd, zzs, EobCounts(bd, zzs), at.i, at.eobrun)
  }

  ghost predicate InDc(p: Params, at: IntervalPlace)
    requires GoodMcus(p, at.s.mcus) && at.i <= |at.s.mcus|
  {
    at.eobrun == 0 && at.last == LastOf(p, at.s.mcus[..at.i]) && at.ahead == DcFrom(p, at.last, at.s.mcus, at.i)
  }

  /** (folded) */
  ghost predicate InInterval(p: Params, ts: Tables, at: IntervalPlace) {
    forall k: nat {:trigger Unfolded(HuffPlace, k)} :: Unfolded(HuffPlace, k) ==>
      && GoodSegment(p, ts, at.s) && at.i <= |at.s.mcus| && |at.last| == |p.comps|
      && (if IsAc(p.mode) then InRun(p, at) else InDc(p, at))
  }

  lemma EntersInterval(p: Params, ts: Tables, s: HuffSegment) returns (at: IntervalPlace)
    requires IsInterval(p, ts, s)
    ensures at.s == s && at.i == 0 && at.last == FreshLast(p) && at.eobrun == 0 && InInterval(p, ts, at)
    ensures GoodTables(ts) && BitsOf(s.data) == StreamBits(ts, at.ahead) + Ones(s.final) && s.final < 8
            && AllCoded(ts, at.ahead)
  {
    assert Unfolded(HuffInterval, 0);
    at := IntervalPlace(s, 0, FreshLast(p), 0, IntervalTokens(p, s.mcus));
    if IsAc(p.mode) {
      RunsBegin(BandOf(p), BandsOf(p, s.mcus));
    } else {
      assert s.mcus[..0] == [];
      DcSplit(p, s.mcus, 0);
      assert [] + DcFrom(p, FreshLast(p), s.mcus, 0) == DcFrom(p, FreshLast(p), s.mcus, 0);
    }
  }

  /** One MCU without runs: it is in range, and its tokens come first. */
  lemma DcGoesOn(p: Params, ts: Tables, at: IntervalPlace, mcu: Mcu) returns (next: IntervalPlace)
    requires InInterval(p, ts, at) && at.i < |at.s.mcus| && mcu == at.s.mcus[at.i] && !IsAc(p.mode)
    ensures Suits(p, at.last, mcu) && McuFits(p, at.last, mcu, 0)
    ensures at.eobrun == 0 && at.ahead == McuTokens(p, at.last, mcu, 0) + next.ahead
    ensures next == IntervalPlace(at.s, at.i + 1, McuLast(p, at.last, mcu, 0), 0, next.ahead) && InInterval(p, ts, next)
  {
    assert Unfolded(HuffPlace, 0);
    DcFitsPrefix(p, at.s.mcus, at.i);
    DcNext(p, at.s.mcus, at.i);
    var last := McuLast(p, at.last, mcu, 0);
    next := IntervalPlace(at.s, at.i + 1, last, 0, DcFrom(p, last, at.s.mcus, at.i + 1));
  }

  /** One block of an AC scan: its end of block stands for n, and `before` of them may be pending. */
  lemma RunGoesOn(p: Params, ts: Tables, at: IntervalPlace, zz: seq<int>) returns (next: IntervalPlace, n: nat)
    requires Shaped(p) && InInterval(p, ts, at) && at.i < |at.s.mcus| && IsAc(p.mode)
    requires |at.s.mcus[at.i].blocks| > 0 && zz == Zigzag(at.s.mcus[at.i].blocks[0], p.order, p.mode.al)
    ensures FitBand(BandOf(p), zz) && 0 < n <= MAX_EOBRUN && (at.eobrun > 0 ==> Silent(BandOf(p), zz))
    ensures at.ahead == Parcel(BandOf(p), zz, at.eobrun, n) + next.ahead
    ensures next == IntervalPlace(at.s, at.i + 1, at.last, After(BandOf(p), zz, at.eobrun, n), next.ahead)
    ensures InInterval(p, ts, next)
  {
    assert Unfolded(HuffPlace, 0);
    var bd, zzs := BandOf(p), BandsOf(p, at.s.mcus);
    var ns := EobCounts(bd, zzs);
    RunsGoOn(bd, zzs, ns, at.i, at.eobrun);
    n := ns[at.i];
    var after := After(bd, zz, at.eobrun, n);
    next := IntervalPlace(at.s, at.i + 1, at.last, after, FromHere(bd, zzs, ns, at.i + 1, after));
  }

  lemma EndsInterval(p: Params, ts: Tables, at: IntervalPlace)
    requires InInterval(p, ts, at) && at.i == |at.s.mcus|
    ensures at.ahead == [] && at.eobrun == 0 && at.s.final < 8
  {
    assert Unfolded(HuffPlace, 0);
    if IsAc(p.mode) {
      var bd, zzs := BandOf(p), BandsOf(p, at.s.mcus);
      RunsEnd(bd, zzs, EobCounts(bd, zzs), at.eobrun);
    }
  }

  // ---- The scan in the input

  /** The input holds the coded scan from `at` on, with the marker m behind it. (folded) */
  ghost predicate HoldsHuffScan(input: seq<Byte>, at: nat, p: Params, ts: Tables, segs: seq<HuffSegment>, m: Byte) {
    forall k: nat {:trigger Unfolded(HuffScanInput, k)} :: Unfolded(HuffScanInput, k) ==>
      && 0 < m < 0xFF && at <= |input|
      && exists bytes :: IsHuffScan(p, ts, segs, bytes) && bytes + [0xFF, m] <= input[at..]
  }

  lemma ScanBehind(before: seq<Byte>, bytes: seq<Byte>, marker: Byte, after: seq<Byte>, p: Params, ts: Tables,
                   segs: seq<HuffSegment>)
    requires IsHuffScan(p, ts, segs, bytes) && 0 < marker < 0xFF
    ensures HoldsHuffScan(before + bytes + [0xFF, marker] + after, |before|, p, ts, segs, marker)
  {
    var stream := before + bytes;
    DropInside(stream, [0xFF, marker] + after, |before|);
    assert stream[|before|..] == bytes;
    Assoc(stream, [0xFF, marker], after);
    Assoc(bytes, [0xFF, marker], after);
  }

  lemma FirstInterval(input: seq<Byte>, at: nat, p: Params, ts: Tables, segs: seq<HuffSegment>, m: Byte)
    requires HoldsHuffScan(input, at, p, ts, segs, m)
    ensures segs != [] && SegmentStart(at, segs, 0) == at
  {
    assert Unfolded(HuffScanInput, 0);
    assert segs[..0] == [];
  }

  lemma BytesHeld(input: seq<Byte>, at: nat, segs: seq<HuffSegment>, m: Byte, i: nat, bytes: seq<Byte>)
    requires at <= |input| && i < |segs| && 0 < m < 0xFF && bytes + [0xFF, m] <= input[at..]
    requires bytes == Flat(segs[..|segs| - 1]) + Stuff(segs[|segs| - 1].data)
    ensures SegmentStart(at, segs, i) <= |input| && 0 < MarkerAfter(segs, m, i) < 0xFF
    ensures HoldsSegment(input, SegmentStart(at, segs, i), segs[i].data, MarkerAfter(segs, m, i))
  {
    var mine := Stuff(segs[i].data) + [0xFF, MarkerAfter(segs, m, i)];
    SegmentBytes(segs, i, m, bytes + [0xFF, m]);
    PrefixDrop(Flat(segs[..i]), mine, input[at..]);
    assert input[at..][|Flat(segs[..i])|..] == input[SegmentStart(at, segs, i)..];
  }

  lemma IntervalOfScan(p: Params, ts: Tables, segs: seq<HuffSegment>, bytes: seq<Byte>, i: nat)
    requires IsHuffScan(p, ts, segs, bytes) && i < |segs|
    ensures IsInterval(p, ts, segs[i])
    ensures if p.restartInterval == 0 then |segs| == 1 else |segs[i].mcus| <= p.restartInterval
    ensures i + 1 < |segs| ==> |segs[i].mcus| == p.restartInterval
    ensures |segs| > 1 ==> segs[i].mcus != []
  {
    var n := |segs| - 1;
    assert SplitRight(p, segs[..n], segs[n].mcus);
    if i < n {
      ClosedAt(p, ts, segs[..n], i);
      assert segs[..n][i] == segs[i];
    } else {
      assert i == n;
    }
  }

  /** The i-th segment of a scan in the input. */
  lemma IntervalHeld(input: seq<Byte>, at: nat, p: Params, ts: Tables, segs: seq<HuffSegment>, m: Byte, i: nat)
    requires HoldsHuffScan(input, at, p, ts, segs, m) && i < |segs|
    ensures SegmentStart(at, segs, i) <= |input| && 0 < MarkerAfter(segs, m, i) < 0xFF
    ensures HoldsSegment(input, SegmentStart(at, segs, i), segs[i].data, MarkerAfter(segs, m, i))
    ensures IsInterval(p, ts, segs[i])
    ensures if p.restartInterval == 0 then |segs| == 1 else |segs[i].mcus| <= p.restartInterval
    ensures i + 1 < |segs| ==> |segs[i].mcus| == p.restartInterval
    ensures |segs| > 1 ==> segs[i].mcus != []
  {
    assert Unfolded(HuffScanInput, 0);
    var bytes :| IsHuffScan(p, ts, segs, bytes) && bytes + [0xFF, m] <= input[at..];
    IntervalOfScan(p, ts, segs, bytes, i);
    BytesHeld(input, at, segs, m, i, bytes);
  }

  /** What the decoder follows: the segments of a scan, and the marker behind it. */
  datatype Plan = Plan(at: nat, segs: seq<HuffSegment>, marker: Byte)

  /** If more MCUs follow, the next one is in this interval or the first of the next interval. */
  lemma MoreFollows(input: seq<Byte>, plan: Plan, p: Params, ts: Tables, si: nat, mi: nat, restartsToGo: nat, k: nat)
    requires HoldsHuffScan(input, plan.at, p, ts, plan.segs, plan.marker)
    requires si < |plan.segs| && mi <= |plan.segs[si].mcus|
    requires p.restartInterval != 0 ==> restartsToGo + mi == p.restartInterval
    requires k == |Mcus(plan.segs[..si])| + mi < |Mcus(plan.segs)|
    ensures if p.restartInterval != 0 && restartsToGo == 0 then
              si + 1 < |plan.segs| && k == |Mcus(plan.segs[..si + 1])| && 0 < |plan.segs[si + 1].mcus|
              && mi == |plan.segs[si].mcus| == p.restartInterval
            else mi < |plan.segs[si].mcus|
  {
    IntervalHeld(input, plan.at, p, ts, plan.segs, plan.marker, si);
    McusStep(plan.segs, si);
    if si + 1 == |plan.segs| {
      assert plan.segs[..si + 1] == plan.segs;
    } else {
      IntervalHeld(input, plan.at, p, ts, plan.segs, plan.marker, si + 1);
    }
  }

  /** Behind the last MCU the decoder is at the end of the last interval. */
  lemma NothingFollows(input: seq<Byte>, plan: Plan, p: Params, ts: Tables, si: nat, mi: nat)
    requires HoldsHuffScan(input, plan.at, p, ts, plan.segs, plan.marker)
    requires si < |plan.segs| && mi <= |plan.segs[si].mcus|
    requires |Mcus(plan.segs[..si])| + mi == |Mcus(plan.segs)|
    ensures si + 1 == |plan.segs| && mi == |plan.segs[si].mcus|
  {
    McusStep(plan.segs, si);
    if si + 1 < |plan.segs| {
      IntervalHeld(input, plan.at, p, ts, plan.segs, plan.marker, si + 1);
      McusStep(plan.segs, si + 1);
      McusPrefix(plan.segs, si + 2);
    } else {
      assert plan.segs[..si + 1] == plan.segs;
    }
  }
}
