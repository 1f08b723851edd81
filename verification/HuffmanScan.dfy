/** Huffman-coded scans of all kinds: the tokens of blocks, MCUs and restart intervals. */
module HuffmanScan {
  import opened Numbers
  import opened BitStrings
  import opened Blocks
  import opened Scans
  import opened IntervalCoder
  import opened HuffmanStream
  import opened HuffmanBlocks
  import opened HuffmanRuns
  import opened RestartLayout

  /** The tables of one component. */
  datatype Component = Component(dc: nat, ac: nat)

  datatype Params = Params(mode: Mode, order: Order, comps: seq<Component>, membership: seq<nat>,
      restartInterval: nat)

  predicate Shaped(p: Params) {
    && GoodMode(p.mode, p.order)
    && (forall i :: 0 <= i < |p.membership| ==> p.membership[i] < |p.comps|)
    && (IsAc(p.mode) ==> |p.comps| == 1 && p.membership == [0])
  }

  predicate GoodParams(p: Params, tables: nat) {
    Shaped(p) && forall i :: 0 <= i < |p.comps| ==> p.comps[i].dc < tables && p.comps[i].ac < tables
  }

  // ---- Scans with DC prediction or without any state: sections F.1.2 and G.1.2.1

  /** All AC coefficients of a component's blocks; the block size is more than one. */
  function WholeBand(p: Params, ci: nat): BandScan
    requires ci < |p.comps| && |p.order| > 1
  {
    BandScan(false, p.comps[ci].ac, 1, |p.order| - 1)
  }

  /** The encoder's range checks, the one for DC differences being one bit wider. */
  ghost predicate BlockFits(p: Params, ci: nat, last: int, b: Block)
    requires ci < |p.comps|
  {
    && (SendsDc(p.mode) ==> Size(Abs(DcValue(p.mode, b) - last)) <= MAX_COEF_BITS + 1)
    && (p.mode.Sequential? ==> AcFits(p, ci, b))
  }

  ghost predicate AcFits(p: Params, ci: nat, b: Block)
    requires ci < |p.comps|
  {
    |p.order| > 1 ==> FitBand(WholeBand(p, ci), Zigzag(b, p.order, 0))
  }

  /** An end of block stands for this block only. */
  ghost function AcPart(p: Params, ci: nat, b: Block): seq<Token>
    requires ci < |p.comps|
  {
    if |p.order| > 1 && AcFits(p, ci, b) then Parcel(WholeBand(p, ci), Zigzag(b, p.order, 0), 0, 1) else []
  }

  /** The next bit of a DC value. */
  function DcBit(al: nat, b: Block): seq<Token> {
    [Raw([Shr(b[0], al) % 2])]
  }

  ghost function BlockTokens(p: Params, ci: nat, last: int, b: Block): seq<Token>
    requires ci < |p.comps|
  {
    if !BlockFits(p, ci, last, b) then []
    else
      match p.mode
      case Sequential => DcTokens(p.comps[ci].dc, b[0] - last) + AcPart(p, ci, b)
      case DcFirst(al) => DcTokens(p.comps[ci].dc, Shr(b[0], al) - last)
      case DcRefine(al) => DcBit(al, b)
      case _ => []
  }

  /** The prediction behind a block. */
  function NextLast(p: Params, ci: nat, last: seq<int>, b: Block): (after: seq<int>)
    requires ci < |last|
    ensures |after| == |last|
  {
    if SendsDc(p.mode) then last[ci := DcValue(p.mode, b)] else last
  }

  /** The state of prediction is good for MCU mcu. */
  predicate Suits(p: Params, last: seq<int>, mcu: Mcu) {
    && |last| == |p.comps| && |mcu.blocks| == |p.membership|
    && forall i :: 0 <= i < |p.membership| ==> p.membership[i] < |p.comps|
  }

  ghost predicate McuFits(p: Params, last: seq<int>, mcu: Mcu, i: nat)
    requires Suits(p, last, mcu)
    decreases |mcu.blocks| - i
  {
    i < |mcu.blocks| ==>
      var ci := p.membership[i];
      BlockFits(p, ci, last[ci], mcu.blocks[i]) && McuFits(p, NextLast(p, ci, last, mcu.blocks[i]), mcu, i + 1)
  }

  ghost function McuTokens(p: Params, last: seq<int>, mcu: Mcu, i: nat): seq<Token>
    requires Suits(p, last, mcu)
    decreases |mcu.blocks| - i
  {
    if i >= |mcu.blocks| then []
    else
      var ci := p.membership[i];
      BlockTokens(p, ci, last[ci], mcu.blocks[i]) + McuTokens(p, NextLast(p, ci, last, mcu.blocks[i]), mcu, i + 1)
  }

  function McuLast(p: Params, last: seq<int>, mcu: Mcu, i: nat): (after: seq<int>)
    requires Suits(p, last, mcu)
    ensures |after| == |last|
    decreases |mcu.blocks| - i
  {
    if i >= |mcu.blocks| then last else McuLast(p, NextLast(p, p.membership[i], last, mcu.blocks[i]), mcu, i + 1)
  }

  ghost predicate GoodMcus(p: Params, mcus: seq<Mcu>) {
    Shaped(p) && forall i :: 0 <= i < |mcus| ==> |mcus[i].blocks| == |p.membership|
  }

  function FreshLast(p: Params): (last: seq<int>)
    ensures |last| == |p.comps|
  {
    seq(|p.comps|, _ => 0)
  }

  /** The first difference of an interval is the DC value itself. */
  lemma IntervalStartsAfresh(p: Params, mcu: Mcu)
    requires SendsDc(p.mode) && Suits(p, FreshLast(p), mcu) && mcu.blocks != []
    requires BlockFits(p, p.membership[0], 0, mcu.blocks[0])
    ensures McuTokens(p, FreshLast(p), mcu, 0) != []
    ensures McuTokens(p, FreshLast(p), mcu, 0)[0]
            == Sym(p.comps[p.membership[0]].dc, Size(Abs(DcValue(p.mode, mcu.blocks[0]))))
  {
  }

  /** The prediction behind the MCUs of one interval. */
  ghost function LastOf(p: Params, mcus: seq<Mcu>): (last: seq<int>)
    requires GoodMcus(p, mcus)
    ensures |last| == |p.comps|
  {
    if mcus == [] then FreshLast(p) else McuLast(p, LastOf(p, mcus[..|mcus| - 1]), mcus[|mcus| - 1], 0)
  }

  ghost predicate DcFits(p: Params, mcus: seq<Mcu>)
    requires GoodMcus(p, mcus)
  {
    mcus != [] ==>
      var init := mcus[..|mcus| - 1];
      DcFits(p, init) && McuFits(p, LastOf(p, init), mcus[|mcus| - 1], 0)
  }

  ghost function DcOrdered(p: Params, mcus: seq<Mcu>): seq<Token>
    requires GoodMcus(p, mcus)
  {
    if mcus == [] then []
    else
      var init := mcus[..|mcus| - 1];
      DcOrdered(p, init) + McuTokens(p, LastOf(p, init), mcus[|mcus| - 1], 0)
  }

  lemma DcSnoc(p: Params, mcus: seq<Mcu>, mcu: Mcu)
    requires GoodMcus(p, mcus) && |mcu.blocks| == |p.membership|
    ensures GoodMcus(p, mcus + [mcu])
    ensures LastOf(p, mcus + [mcu]) == McuLast(p, LastOf(p, mcus), mcu, 0)
    ensures DcFits(p, mcus + [mcu]) <==> DcFits(p, mcus) && McuFits(p, LastOf(p, mcus), mcu, 0)
    ensures DcOrdered(p, mcus + [mcu]) == DcOrdered(p, mcus) + McuTokens(p, LastOf(p, mcus), mcu, 0)
  {
    assert (mcus + [mcu])[..|mcus|] == mcus;
  }

  lemma DcNext(p: Params, mcus: seq<Mcu>, j: nat)
    requires GoodMcus(p, mcus) && j < |mcus|
    ensures LastOf(p, mcus[..j + 1]) == McuLast(p, LastOf(p, mcus[..j]), mcus[j], 0)
    ensures DcFits(p, mcus[..j + 1]) <==> DcFits(p, mcus[..j]) && McuFits(p, LastOf(p, mcus[..j]), mcus[j], 0)
    ensures DcOrdered(p, mcus[..j + 1])
            == DcOrdered(p, mcus[..j]) + McuTokens(p, LastOf(p, mcus[..j]), mcus[j], 0)
  {
    DcSnoc(p, mcus[..j], mcus[j]);
    TakeSnoc(mcus, j);
  }

  /** The tokens from the j-th MCU on. */
  ghost function DcFrom(p: Params, last: seq<int>, mcus: seq<Mcu>, j: nat): seq<Token>
    requires GoodMcus(p, mcus) && |last| == |p.comps|
    decreases |mcus| - j
  {
    if j >= |mcus| then []
    else McuTokens(p, last, mcus[j], 0) + DcFrom(p, McuLast(p, last, mcus[j], 0), mcus, j + 1)
  }

  lemma DcFromHere(p: Params, last: seq<int>, mcus: seq<Mcu>, j: nat, front: seq<Token>)
    requires GoodMcus(p, mcus) && |last| == |p.comps| && j < |mcus|
    ensures front + DcFrom(p, last, mcus, j)
            == front + McuTokens(p, last, mcus[j], 0) + DcFrom(p, McuLast(p, last, mcus[j], 0), mcus, j + 1)
  {
    Assoc(front, McuTokens(p, last, mcus[j], 0), DcFrom(p, McuLast(p, last, mcus[j], 0), mcus, j + 1));
  }

  lemma {:induction false} DcSplitAs(p: Params, mcus: seq<Mcu>, j: nat, all: seq<Token>)
    requires GoodMcus(p, mcus) && j <= |mcus| && all == DcOrdered(p, mcus)
    ensures DcOrdered(p, mcus[..j]) + DcFrom(p, LastOf(p, mcus[..j]), mcus, j) == all
    decreases |mcus| - j
  {
    if j == |mcus| {
      assert mcus[..j] == mcus;
    } else {
      DcNext(p, mcus, j);
      DcSplitAs(p, mcus, j + 1, all);
      DcFromHere(p, LastOf(p, mcus[..j]), mcus, j, DcOrdered(p, mcus[..j]));
    }
  }

  /** All tokens are those of the first j MCUs and those from there on. */
  lemma {:induction false} DcSplit(p: Params, mcus: seq<Mcu>, j: nat)
    requires GoodMcus(p, mcus) && j <= |mcus|
    ensures DcOrdered(p, mcus[..j]) + DcFrom(p, LastOf(p, mcus[..j]), mcus, j) == DcOrdered(p, mcus)
  {
    DcSplitAs(p, mcus, j, DcOrdered(p, mcus));
  }

  lemma {:induction false} DcFitsPrefix(p: Params, mcus: seq<Mcu>, j: nat)
    requires GoodMcus(p, mcus) && DcFits(p, mcus) && j < |mcus|
    ensures DcFits(p, mcus[..j + 1]) && McuFits(p, LastOf(p, mcus[..j]), mcus[j], 0)
    decreases |mcus|
  {
    var m := |mcus| - 1;
    if j < m {
      DcFitsPrefix(p, mcus[..m], j);
      assert mcus[..m][..j + 1] == mcus[..j + 1] && mcus[..m][..j] == mcus[..j];
    } else {
      assert mcus[..j + 1] == mcus;
    }
  }

  /** The tokens of one MCU are among those of its interval. */
  lemma McuInside(p: Params, ts: Tables, mcus: seq<Mcu>, j: nat)
    requires GoodMcus(p, mcus) && j < |mcus| && GoodTables(ts) && AllCoded(ts, DcOrdered(p, mcus))
    ensures AllCoded(ts, McuTokens(p, LastOf(p, mcus[..j]), mcus[j], 0))
  {
    var last := LastOf(p, mcus[..j]);
    DcSplit(p, mcus, j);
    StreamConcat(ts, DcOrdered(p, mcus[..j]), DcFrom(p, last, mcus, j));
    StreamConcat(ts, McuTokens(p, last, mcus[j], 0), DcFrom(p, McuLast(p, last, mcus[j], 0), mcus, j + 1));
  }

  /** What the MCUs of an open interval amount to. (folded) */
  ghost predicate IntervalIs(p: Params, mcus: seq<Mcu>, last: seq<int>, ks: seq<Token>) {
    forall k: nat {:trigger Unfolded(HuffOpen, k)} :: Unfolded(HuffOpen, k) ==>
      GoodMcus(p, mcus) && DcFits(p, mcus) && last == LastOf(p, mcus) && ks == DcOrdered(p, mcus)
  }

  lemma IntervalOpens(p: Params)
    requires Shaped(p)
    ensures IntervalIs(p, [], FreshLast(p), [])
  {
  }

  lemma IntervalGrows(p: Params, mcus: seq<Mcu>, last: seq<int>, ks: seq<Token>, mcu: Mcu)
    requires IntervalIs(p, mcus, last, ks) && Suits(p, last, mcu) && McuFits(p, last, mcu, 0)
    ensures IntervalIs(p, mcus + [mcu], McuLast(p, last, mcu, 0), ks + McuTokens(p, last, mcu, 0))
  {
    assert Unfolded(HuffOpen, 0);
    DcSnoc(p, mcus, mcu);
  }

  // ---- AC scans

  /** The band of an AC scan. */
  function BandOf(p: Params): BandScan
    requires Shaped(p) && IsAc(p.mode)
  {
    BandScan(p.mode.AcRefine?, p.comps[0].ac, p.mode.ss, p.mode.se)
  }

  function BandsOf(p: Params, mcus: seq<Mcu>): (zzs: seq<seq<int>>)
    requires GoodMcus(p, mcus) && IsAc(p.mode)
    ensures |zzs| == |mcus|
  {
    seq(|mcus|, i requires 0 <= i < |mcus| => Zigzag(mcus[i].blocks[0], p.order, p.mode.al))
  }

  lemma BandsSnoc(p: Params, mcus: seq<Mcu>, mcu: Mcu)
    requires GoodMcus(p, mcus) && IsAc(p.mode) && |mcu.blocks| == |p.membership|
    ensures GoodMcus(p, mcus + [mcu])
    ensures BandsOf(p, mcus + [mcu]) == BandsOf(p, mcus) + [Zigzag(mcu.blocks[0], p.order, p.mode.al)]
  {
  }

  lemma BandsTake(p: Params, mcus: seq<Mcu>, j: nat)
    requires GoodMcus(p, mcus) && IsAc(p.mode) && j <= |mcus|
    ensures BandsOf(p, mcus[..j]) == BandsOf(p, mcus)[..j]
  {
  }

  // ---- Restart intervals

  /** Every coefficient of the interval is in range. */
  ghost predicate IntervalFits(p: Params, mcus: seq<Mcu>)
    requires GoodMcus(p, mcus)
  {
    if IsAc(p.mode) then AllFit(BandOf(p), BandsOf(p, mcus)) else DcFits(p, mcus)
  }

  ghost function IntervalTokens(p: Params, mcus: seq<Mcu>): seq<Token>
    requires GoodMcus(p, mcus)
  {
    if !IsAc(p.mode) then DcOrdered(p, mcus)
    else if IntervalFits(p, mcus) then ScanTokens(BandOf(p), BandsOf(p, mcus)) else []
  }

  lemma EmptyInterval(p: Params)
    requires Shaped(p)
    ensures IntervalFits(p, []) && IntervalTokens(p, []) == []
  {
    if IsAc(p.mode) {
      Start(BandOf(p));
      Flushes(BandOf(p), Progress([], [], []));
    }
  }

  /** How many MCUs of a scan are in its last interval, if there is any. */
  function InLast(interval: nat, n: nat): (j: nat)
    ensures j <= n && (n > 0 ==> j > 0)
  {
    if n == 0 then 0 else Since(interval, n - 1) + 1
  }

  ghost predicate ScanFits(p: Params, mcus: seq<Mcu>)
    requires GoodMcus(p, mcus)
    decreases |mcus|
  {
    mcus != [] ==>
      var k := |mcus| - InLast(p.restartInterval, |mcus|);
      ScanFits(p, mcus[..k]) && IntervalFits(p, mcus[k..])
  }

  /** The tokens of all intervals. */
  ghost function AllTokens(p: Params, mcus: seq<Mcu>): seq<Token>
    requires GoodMcus(p, mcus)
    decreases |mcus|
  {
    if mcus == [] then []
    else
      var k := |mcus| - InLast(p.restartInterval, |mcus|);
      AllTokens(p, mcus[..k]) + IntervalTokens(p, mcus[k..])
  }

  /** All coefficients of a scan are in range, and the tables have codes for its symbols. */
  ghost predicate Codable(p: Params, ts: Tables, mcus: seq<Mcu>)
    requires GoodMcus(p, mcus) && GoodTables(ts)
  {
    ScanFits(p, mcus) && AllCoded(ts, AllTokens(p, mcus))
  }

  /** Behind full intervals. */
  lemma ScanSnoc(p: Params, full: seq<Mcu>, open: seq<Mcu>)
    requires GoodMcus(p, full) && GoodMcus(p, open) && GoodMcus(p, full + open)
    requires open == [] || InLast(p.restartInterval, |full + open|) == |open|
    ensures ScanFits(p, full + open) <==> ScanFits(p, full) && IntervalFits(p, open)
    ensures AllTokens(p, full + open) == AllTokens(p, full) + IntervalTokens(p, open)
  {
    EmptyInterval(p);
    if open == [] {
      assert full + open == full;
      assert AllTokens(p, full) + [] == AllTokens(p, full);
    } else {
      assert (full + open)[..|full|] == full && (full + open)[|full|..] == open;
    }
  }

  lemma {:induction false} SinceInLast(interval: nat, k: nat, n: nat)
    requires n - InLast(interval, n) <= k < n
    ensures k - Since(interval, k) == n - InLast(interval, n)
    decreases n
  {
    if interval != 0 && n > interval {
      assert Since(interval, n - 1) == Since(interval, n - 1 - interval);
      SinceInLast(interval, k - interval, n - interval);
    }
  }

  /** The last interval of a scan, and those before it. */
  lemma LastInterval(p: Params, ts: Tables, mcus: seq<Mcu>, a: nat)
    requires GoodMcus(p, mcus) && GoodTables(ts) && mcus != [] && a == |mcus| - InLast(p.restartInterval, |mcus|)
    ensures ScanFits(p, mcus) <==> ScanFits(p, mcus[..a]) && IntervalFits(p, mcus[a..])
    ensures AllCoded(ts, AllTokens(p, mcus)) <==>
              AllCoded(ts, AllTokens(p, mcus[..a])) && AllCoded(ts, IntervalTokens(p, mcus[a..]))
  {
    StreamConcat(ts, AllTokens(p, mcus[..a]), IntervalTokens(p, mcus[a..]));
  }

  /** A scan that fits and, if `coded`, has codes for all its symbols. (folded) */
  ghost predicate ScanPart(p: Params, ts: Tables, mcus: seq<Mcu>, coded: bool) {
    forall k: nat {:trigger Unfolded(HuffPart, k)} :: Unfolded(HuffPart, k) ==>
      GoodMcus(p, mcus) && GoodTables(ts) && ScanFits(p, mcus) && (coded ==> AllCoded(ts, AllTokens(p, mcus)))
  }

  /** The same of one interval. (folded) */
  ghost predicate IntervalPart(p: Params, ts: Tables, mcus: seq<Mcu>, coded: bool) {
    forall k: nat {:trigger Unfolded(HuffPart, k)} :: Unfolded(HuffPart, k) ==>
      GoodMcus(p, mcus) && GoodTables(ts) && IntervalFits(p, mcus) && (coded ==> AllCoded(ts, IntervalTokens(p, mcus)))
  }

  lemma {:induction false} PartsOf(p: Params, ts: Tables, mcus: seq<Mcu>, coded: bool, a: nat)
    requires ScanPart(p, ts, mcus, coded) && mcus != [] && a == |mcus| - InLast(p.restartInterval, |mcus|)
    ensures ScanPart(p, ts, mcus[..a], coded) && IntervalPart(p, ts, mcus[a..], coded)
  {
    assert Unfolded(HuffPart, 0);
    LastInterval(p, ts, mcus, a);
  }

  lemma SliceOfTake<T>(s: seq<T>, a: nat, i: nat, j: nat)
    requires i <= j <= a <= |s|
    ensures s[..a][i..j] == s[i..j]
  {
  }

  /** The interval of the k-th MCU is one of the scan's. */
  lemma {:induction false} IntervalInScan(p: Params, ts: Tables, mcus: seq<Mcu>, k: nat, coded: bool)
    returns (end: nat, own: seq<Mcu>)
    requires ScanPart(p, ts, mcus, coded) && k < |mcus|
    ensures k < end <= |mcus| && own == mcus[k - Since(p.restartInterval, k)..end] && IntervalPart(p, ts, own, coded)
    decreases |mcus|
  {
    var a, i := |mcus| - InLast(p.restartInterval, |mcus|), k - Since(p.restartInterval, k);
    PartsOf(p, ts, mcus, coded, a);
    if k < a {
      end, own := IntervalInScan(p, ts, mcus[..a], k, coded);
      SliceOfTake(mcus, a, i, end);
    } else {
      end, own := |mcus|, mcus[a..];
      SinceInLast(p.restartInterval, k, |mcus|);
    }
  }

  /** What is in front of an interval is a scan of its own. */
  lemma {:induction false} FullPrefix(p: Params, ts: Tables, mcus: seq<Mcu>, k: nat, coded: bool)
    requires ScanPart(p, ts, mcus, coded) && k <= |mcus| && Since(p.restartInterval, k) == 0
    ensures ScanPart(p, ts, mcus[..k], coded)
    decreases |mcus|
  {
    if k == |mcus| {
      assert mcus[..k] == mcus;
    } else {
      var a := |mcus| - InLast(p.restartInterval, |mcus|);
      PartsOf(p, ts, mcus, coded, a);
      if k > a {
        SinceInLast(p.restartInterval, k, |mcus|);
      }
      FullPrefix(p, ts, mcus[..a], k, coded);
      SliceOfTake(mcus, a, 0, k);
    }
  }

  /** The interval of the k-th MCU begins with the MCUs that are open in front of it. */
  lemma OwnInterval(p: Params, ts: Tables, mcus: seq<Mcu>, k: nat, open: seq<Mcu>, coded: bool) returns (own: seq<Mcu>)
    requires GoodMcus(p, mcus) && GoodTables(ts) && k < |mcus| && ScanFits(p, mcus)
    requires open == mcus[k - Since(p.restartInterval, k)..k] && (coded ==> AllCoded(ts, AllTokens(p, mcus)))
    ensures GoodMcus(p, own) && GoodMcus(p, open) && |open| < |own| && own[..|open|] == open && own[|open|] == mcus[k]
    ensures IntervalFits(p, own) && (coded ==> AllCoded(ts, IntervalTokens(p, own)))
  {
    var end;
    end, own := IntervalInScan(p, ts, mcus, k, coded);
    assert Unfolded(HuffPart, 0);
    assert own[..|open|] == open && own[|open|] == mcus[k];
  }

  /** The k-th MCU of a scan, behind those of its interval, in a scan without runs. */
  lemma NextIsCodable(p: Params, ts: Tables, mcus: seq<Mcu>, k: nat, open: seq<Mcu>, coded: bool)
    requires GoodMcus(p, mcus) && GoodTables(ts) && k < |mcus| && ScanFits(p, mcus) && !IsAc(p.mode)
    requires open == mcus[k - Since(p.restartInterval, k)..k] && (coded ==> AllCoded(ts, AllTokens(p, mcus)))
    ensures GoodMcus(p, open) && McuFits(p, LastOf(p, open), mcus[k], 0)
    ensures coded ==> AllCoded(ts, McuTokens(p, LastOf(p, open), mcus[k], 0))
  {
    var own := OwnInterval(p, ts, mcus, k, open, coded);
    DcFitsPrefix(p, own, |open|);
    if coded {
      McuInside(p, ts, own, |open|);
    }
  }

  lemma BlockFitsInScan(p: Params, mcus: seq<Mcu>, k: nat, open: seq<Mcu>, zz: seq<int>)
    requires GoodMcus(p, mcus) && k < |mcus| && ScanFits(p, mcus) && IsAc(p.mode)
    requires open == mcus[k - Since(p.restartInterval, k)..k] && zz == Zigzag(mcus[k].blocks[0], p.order, p.mode.al)
    ensures FitBand(BandOf(p), zz)
  {
    var own := OwnInterval(p, [], mcus, k, open, false);
    assert BandsOf(p, own)[|open|] == zz;
  }

  /** A block of an AC scan that lacks a code. */
  lemma BlockInInterval(p: Params, ts: Tables, mcus: seq<Mcu>, j: nat, open: seq<Mcu>)
    requires GoodMcus(p, mcus) && IsAc(p.mode) && j < |mcus| && AllFit(BandOf(p), BandsOf(p, mcus))
    requires open == mcus[..j] && AllFit(BandOf(p), BandsOf(p, open))
    requires Lacks(ts, StepOut(BandOf(p), ProgressOf(BandOf(p), BandsOf(p, open)), BandsOf(p, mcus)[j]))
    ensures Lacks(ts, IntervalTokens(p, mcus))
  {
    BandsTake(p, mcus, j);
    StepIsInScan(BandOf(p), BandsOf(p, mcus), j, ts);
  }

  lemma BlockLacksCode(p: Params, ts: Tables, mcus: seq<Mcu>, k: nat, open: seq<Mcu>, zz: seq<int>)
    requires GoodMcus(p, mcus) && GoodTables(ts) && k < |mcus| && ScanFits(p, mcus) && IsAc(p.mode)
    requires open == mcus[k - Since(p.restartInterval, k)..k] && GoodMcus(p, open)
    requires zz == Zigzag(mcus[k].blocks[0], p.order, p.mode.al) && AllFit(BandOf(p), BandsOf(p, open))
    requires FitBand(BandOf(p), zz) && Lacks(ts, StepOut(BandOf(p), ProgressOf(BandOf(p), BandsOf(p, open)), zz))
    ensures !AllCoded(ts, AllTokens(p, mcus))
  {
    var own := OwnInterval(p, ts, mcus, k, open, AllCoded(ts, AllTokens(p, mcus)));
    BlockInInterval(p, ts, own, |open|, open);
  }

  /** The run that is pending at the end of a scan lacks a code. */
  lemma RunLacksCode(p: Params, ts: Tables, mcus: seq<Mcu>, open: seq<Mcu>)
    requires GoodMcus(p, mcus) && GoodTables(ts) && ScanFits(p, mcus) && IsAc(p.mode) && GoodMcus(p, open)
    requires open != [] && InLast(p.restartInterval, |mcus|) == |open| && open == mcus[|mcus| - |open|..]
    requires AllFit(BandOf(p), BandsOf(p, open))
             && Lacks(ts, RunOut(BandOf(p), ProgressOf(BandOf(p), BandsOf(p, open))))
    ensures !AllCoded(ts, AllTokens(p, mcus))
  {
    LastInterval(p, ts, mcus, |mcus| - |open|);
    EndIsInScan(BandOf(p), BandsOf(p, open), ts);
  }

  // ---- The segment of an interval

  /** A restart interval and the number of padding bits behind it. */
  type HuffSegment = Segment<nat>

  ghost predicate GoodSegment(p: Params, ts: Tables, s: HuffSegment) {
    && GoodTables(ts) && GoodMcus(p, s.mcus) && IntervalFits(p, s.mcus)
    && AllCoded(ts, IntervalTokens(p, s.mcus)) && s.final < 8
    && BitsOf(s.data) == StreamBits(ts, IntervalTokens(p, s.mcus)) + Ones(s.final)
  }

  /** (folded) */
  ghost predicate IsInterval(p: Params, ts: Tables, s: HuffSegment) {
    forall k: nat {:trigger Unfolded(HuffInterval, k)} :: Unfolded(HuffInterval, k) ==> GoodSegment(p, ts, s)
  }

  /** Complete intervals, and what they are intervals of. */
  ghost predicate ClosedIntervals(p: Params, ts: Tables, segs: seq<HuffSegment>) {
    forall i :: 0 <= i < |segs| ==> IsInterval(p, ts, segs[i]) && |segs[i].mcus| == p.restartInterval
  }

  lemma ClosedSnoc(p: Params, ts: Tables, segs: seq<HuffSegment>, s: HuffSegment)
    requires ClosedIntervals(p, ts, segs) && IsInterval(p, ts, s) && |s.mcus| == p.restartInterval
    ensures ClosedIntervals(p, ts, segs + [s])
  {
  }

  lemma ClosedAt(p: Params, ts: Tables, segs: seq<HuffSegment>, i: nat)
    requires ClosedIntervals(p, ts, segs) && i < |segs|
    ensures IsInterval(p, ts, segs[i]) && |segs[i].mcus| == p.restartInterval
  {
  }

  /** Intervals of their full length, and one behind them that need not be full but is not empty for nothing. */
  ghost predicate SplitRight(p: Params, segs: seq<HuffSegment>, open: seq<Mcu>) {
    && (forall i :: 0 <= i < |segs| ==> |segs[i].mcus| == p.restartInterval)
    && (if p.restartInterval == 0 then segs == [] else |open| <= p.restartInterval)
    && (segs != [] ==> open != [])
  }

  /** The coded scan of the MCUs in segs, up to but not including the marker behind it. */
  ghost predicate IsHuffScan(p: Params, ts: Tables, segs: seq<HuffSegment>, bytes: seq<Byte>) {
    && segs != []
    && var n := |segs| - 1;
       && ClosedIntervals(p, ts, segs[..n]) && IsInterval(p, ts, segs[n]) && SplitRight(p, segs[..n], segs[n].mcus)
       && bytes == Flat(segs[..n]) + Stuff(segs[n].data)
  }

  /** The MCUs behind full intervals are those of the scan's last one. */
  lemma OpenIsLast(p: Params, segs: seq<HuffSegment>, open: seq<Mcu>)
    requires (forall i :: 0 <= i < |segs| ==> |segs[i].mcus| == p.restartInterval) && open != []
    requires if p.restartInterval == 0 then segs == [] else |open| <= p.restartInterval
    ensures InLast(p.restartInterval, |Mcus(segs) + open|) == |open|
  {
    McuSince(p.restartInterval, segs, |open| - 1);
  }

  /** The tokens of intervals that are complete. */
  lemma {:induction false} ClosedCodable(p: Params, ts: Tables, segs: seq<HuffSegment>)
    requires Shaped(p) && GoodTables(ts) && ClosedIntervals(p, ts, segs) && (segs != [] ==> p.restartInterval != 0)
    ensures GoodMcus(p, Mcus(segs)) && Codable(p, ts, Mcus(segs))
    decreases |segs|
  {
    if segs != [] {
      var n := |segs| - 1;
      ClosedCodable(p, ts, segs[..n]);
      ClosedAt(p, ts, segs, n);
      OneMoreCodable(p, ts, segs[..n], segs[n]);
    }
  }

  lemma OneMoreCodable(p: Params, ts: Tables, segs: seq<HuffSegment>, s: HuffSegment)
    requires Shaped(p) && GoodTables(ts) && ClosedIntervals(p, ts, segs) && IsInterval(p, ts, s)
    requires if p.restartInterval == 0 then segs == [] else |s.mcus| <= p.restartInterval
    requires GoodMcus(p, Mcus(segs)) && Codable(p, ts, Mcus(segs))
    ensures GoodMcus(p, s.mcus) && GoodMcus(p, Mcus(segs) + s.mcus) && Codable(p, ts, Mcus(segs) + s.mcus)
    ensures AllTokens(p, Mcus(segs) + s.mcus) == AllTokens(p, Mcus(segs)) + IntervalTokens(p, s.mcus)
  {
    assert Unfolded(HuffInterval, 0);
    OpenCodable(p, ts, segs, s.mcus);
  }

  /** An interval that has not been closed. */
  lemma OpenCodable(p: Params, ts: Tables, segs: seq<HuffSegment>, open: seq<Mcu>)
    requires Shaped(p) && GoodTables(ts) && ClosedIntervals(p, ts, segs) && GoodMcus(p, open)
    requires if p.restartInterval == 0 then segs == [] else |open| <= p.restartInterval
    requires GoodMcus(p, Mcus(segs)) && Codable(p, ts, Mcus(segs))
    requires IntervalFits(p, open) && AllCoded(ts, IntervalTokens(p, open))
    ensures GoodMcus(p, Mcus(segs) + open) && Codable(p, ts, Mcus(segs) + open)
    ensures AllTokens(p, Mcus(segs) + open) == AllTokens(p, Mcus(segs)) + IntervalTokens(p, open)
  {
    if open != [] {
      OpenIsLast(p, segs, open);
    }
    ScanSnoc(p, Mcus(segs), open);
    StreamConcat(ts, AllTokens(p, Mcus(segs)), IntervalTokens(p, open));
  }

  /** A scan that has been coded is one that can be coded. */
  lemma CodedIsCodable(p: Params, ts: Tables, segs: seq<HuffSegment>, bytes: seq<Byte>)
    requires Shaped(p) && GoodTables(ts) && IsHuffScan(p, ts, segs, bytes)
    ensures GoodMcus(p, Mcus(segs)) && Codable(p, ts, Mcus(segs))
  {
    var n := |segs| - 1;
    ClosedCodable(p, ts, segs[..n]);
    OneMoreCodable(p, ts, segs[..n], segs[n]);
  }

  /** An interval whose bits have been written and padded. */
  lemma IntervalIsDone(p: Params, ts: Tables, s: HuffSegment, ks: seq<Token>)
    requires GoodMcus(p, s.mcus) && IntervalFits(p, s.mcus) && ks == IntervalTokens(p, s.mcus)
    requires GoodTables(ts) && AllCoded(ts, ks) && s.final < 8
    requires BitsOf(s.data) == StreamBits(ts, ks) + Ones(s.final)
    ensures IsInterval(p, ts, s)
  {
  }
}
