/** The bytes of a Huffman-coded scan as a function of its MCUs and tables. */
module HuffmanBytes {
  import opened Numbers
  import opened BitStrings
  import opened Blocks
  import opened IntervalCoder
  import opened HuffmanStream
  import opened RestartLayout
  import opened HuffmanScan

  /** Filled up with ones, and the ones that are left over dropped. */
  function Filled(bits: Bits): seq<Byte> {
    Whole(bits + Ones(7))
  }

  lemma FilledIs(bits: Bits, data: seq<Byte>, pad: nat)
    requires BitsOf(data) == bits + Ones(pad) && pad < 8
    ensures Filled(bits) == data
  {
    assert Ones(pad) + Ones(7 - pad) == Ones(7);
    Assoc(bits, Ones(pad), Ones(7 - pad));
    WholeOf(data, Ones(7 - pad));
  }

  ghost function IntervalBits(p: Params, ts: Tables, mcus: seq<Mcu>): Bits
    requires GoodMcus(p, mcus) && GoodTables(ts)
  {
    StreamBits(ts, IntervalTokens(p, mcus))
  }

  /** How many intervals n MCUs are. */
  function Intervals(interval: nat, n: nat): nat
    decreases n
  {
    if n == 0 then 0 else 1 + Intervals(interval, n - InLast(interval, n))
  }

  /** Complete intervals, each with its marker. */
  ghost function FullBytes(p: Params, ts: Tables, mcus: seq<Mcu>): seq<Byte>
    requires GoodMcus(p, mcus) && GoodTables(ts)
    decreases |mcus|
  {
    if mcus == [] then []
    else
      var k := |mcus| - InLast(p.restartInterval, |mcus|);
      FullBytes(p, ts, mcus[..k]) + Stuff(Filled(IntervalBits(p, ts, mcus[k..])))
      + [0xFF, RestartMarker(Intervals(p.restartInterval, k))]
  }

  /** What is out when these MCUs have been written. */
  ghost function OutputOf(p: Params, ts: Tables, mcus: seq<Mcu>): seq<Byte>
    requires GoodMcus(p, mcus) && GoodTables(ts)
  {
    var k := |mcus| - InLast(p.restartInterval, |mcus|);
    FullBytes(p, ts, mcus[..k]) + Stuff(Whole(IntervalBits(p, ts, mcus[k..])))
  }

  /** The whole scan. */
  ghost function ScanBytes(p: Params, ts: Tables, mcus: seq<Mcu>): seq<Byte>
    requires GoodMcus(p, mcus) && GoodTables(ts)
  {
    var k := |mcus| - InLast(p.restartInterval, |mcus|);
    FullBytes(p, ts, mcus[..k]) + Stuff(Filled(IntervalBits(p, ts, mcus[k..])))
  }

  /** The bytes of an interval. */
  lemma IntervalData(p: Params, ts: Tables, s: HuffSegment)
    requires IsInterval(p, ts, s)
    ensures GoodTables(ts) && GoodMcus(p, s.mcus) && s.data == Filled(IntervalBits(p, ts, s.mcus))
  {
    assert Unfolded(HuffInterval, 0);
    FilledIs(IntervalBits(p, ts, s.mcus), s.data, s.final);
  }

  lemma CutsAt(full: seq<Mcu>, open: seq<Mcu>)
    ensures (full + open)[..|full|] == full && (full + open)[|full|..] == open
  {
  }

  /** One more complete interval. */
  lemma OneMoreFull(p: Params, ts: Tables, full: seq<Mcu>, s: HuffSegment)
    requires GoodMcus(p, full) && IsInterval(p, ts, s) && s.mcus != [] && GoodTables(ts)
    requires InLast(p.restartInterval, |full + s.mcus|) == |s.mcus|
    ensures GoodMcus(p, full + s.mcus)
    ensures FullBytes(p, ts, full + s.mcus)
            == FullBytes(p, ts, full) + Stuff(s.data) + [0xFF, RestartMarker(Intervals(p.restartInterval, |full|))]
    ensures Intervals(p.restartInterval, |full + s.mcus|) == 1 + Intervals(p.restartInterval, |full|)
  {
    IntervalData(p, ts, s);
    CutsAt(full, s.mcus);
  }

  ghost predicate FlatKnown(p: Params, ts: Tables, segs: seq<HuffSegment>)
    requires GoodTables(ts)
  {
    && GoodMcus(p, Mcus(segs)) && Flat(segs) == FullBytes(p, ts, Mcus(segs))
    && Intervals(p.restartInterval, |Mcus(segs)|) == |segs|
  }

  lemma FlatMcus(segs: seq<HuffSegment>, s: HuffSegment)
    ensures Mcus(segs + [s]) == Mcus(segs) + s.mcus
    ensures Flat(segs + [s]) == Flat(segs) + Stuff(s.data) + [0xFF, RestartMarker(|segs|)]
  {
    assert (segs + [s])[..|segs|] == segs;
  }

  lemma FlatKnownSnoc(p: Params, ts: Tables, segs: seq<HuffSegment>, s: HuffSegment)
    requires GoodTables(ts) && FlatKnown(p, ts, segs) && IsInterval(p, ts, s) && s.mcus != []
    requires InLast(p.restartInterval, |Mcus(segs) + s.mcus|) == |s.mcus|
    ensures FlatKnown(p, ts, segs + [s])
  {
    OneMoreFull(p, ts, Mcus(segs), s);
    FlatMcus(segs, s);
  }

  lemma {:induction false} FlatIsFull(p: Params, ts: Tables, segs: seq<HuffSegment>)
    requires Shaped(p) && GoodTables(ts) && ClosedIntervals(p, ts, segs) && (segs != [] ==> p.restartInterval != 0)
    ensures FlatKnown(p, ts, segs)
    decreases |segs|
  {
    if segs != [] {
      var n := |segs| - 1;
      var init, s := segs[..n], segs[n];
      ClosedAt(p, ts, segs, n);
      FlatIsFull(p, ts, init);
      OpenIsLast(p, init, s.mcus);
      FlatKnownSnoc(p, ts, init, s);
      assert init + [s] == segs;
    }
  }

  /** Where the last interval begins. */
  lemma LastBegins(p: Params, segs: seq<HuffSegment>, open: seq<Mcu>)
    requires SplitRight(p, segs, open)
    ensures InLast(p.restartInterval, |Mcus(segs) + open|) == |open|
  {
    if open != [] {
      OpenIsLast(p, segs, open);
    }
  }

  /** The bytes that are out when an interval is open. */
  lemma OutputIs(p: Params, ts: Tables, segs: seq<HuffSegment>, open: seq<Mcu>)
    requires GoodMcus(p, open) && GoodTables(ts) && ClosedIntervals(p, ts, segs) && SplitRight(p, segs, open)
    ensures GoodMcus(p, Mcus(segs) + open)
    ensures Flat(segs) + Stuff(Whole(IntervalBits(p, ts, open))) == OutputOf(p, ts, Mcus(segs) + open)
  {
    FlatIsFull(p, ts, segs);
    LastBegins(p, segs, open);
    CutsAt(Mcus(segs), open);
  }

  /** The bytes of the scan when the open interval is its last. */
  lemma ScanIs(p: Params, ts: Tables, segs: seq<HuffSegment>, open: seq<Mcu>)
    requires GoodMcus(p, open) && GoodTables(ts) && ClosedIntervals(p, ts, segs) && SplitRight(p, segs, open)
    ensures GoodMcus(p, Mcus(segs) + open)
    ensures Flat(segs) + Stuff(Filled(IntervalBits(p, ts, open))) == ScanBytes(p, ts, Mcus(segs) + open)
  {
    FlatIsFull(p, ts, segs);
    LastBegins(p, segs, open);
    CutsAt(Mcus(segs), open);
  }

  /** Full intervals, one more of them, and its marker. */
  lemma ClosingIsFull(p: Params, ts: Tables, segs: seq<HuffSegment>, open: seq<Mcu>)
    requires GoodMcus(p, open) && p.restartInterval == |open| && open != []
    requires GoodTables(ts) && ClosedIntervals(p, ts, segs)
    ensures GoodMcus(p, Mcus(segs) + open)
    ensures Flat(segs) + Stuff(Filled(IntervalBits(p, ts, open))) + [0xFF, RestartMarker(|segs|)]
            == FullBytes(p, ts, Mcus(segs) + open)
  {
    OpenIsLast(p, segs, open);
    FlatIsFull(p, ts, segs);
    CutsAt(Mcus(segs), open);
  }

  /** The next MCU is the first of its interval. */
  lemma OutputAfterFull(p: Params, ts: Tables, mcus: seq<Mcu>, k: nat)
    requires GoodMcus(p, mcus) && k < |mcus| && GoodTables(ts) && Since(p.restartInterval, k) == 0
    ensures FullBytes(p, ts, mcus[..k]) <= OutputOf(p, ts, mcus[..k + 1])
  {
    OutputStarts(p, ts, mcus[..k + 1], k, mcus[..k]);
  }

  lemma OutputStarts(p: Params, ts: Tables, mcus: seq<Mcu>, k: nat, full: seq<Mcu>)
    requires GoodMcus(p, mcus) && GoodTables(ts) && k == |mcus| - InLast(p.restartInterval, |mcus|) && full == mcus[..k]
    ensures FullBytes(p, ts, full) <= OutputOf(p, ts, mcus)
  {
  }

  /** What closes a full interval comes first in what is out behind the next MCU. */
  lemma {:induction false} MarkerIsOutput(p: Params, ts: Tables, segs: seq<HuffSegment>, open: seq<Mcu>,
                                          mcus: seq<Mcu>, k: nat)
    requires GoodMcus(p, open) && p.restartInterval == |open| && open != []
    requires GoodMcus(p, mcus) && k < |mcus| && Mcus(segs) + open == mcus[..k]
    requires GoodTables(ts) && ClosedIntervals(p, ts, segs)
    ensures Flat(segs) + Stuff(Filled(IntervalBits(p, ts, open))) + [0xFF, RestartMarker(|segs|)]
            <= OutputOf(p, ts, mcus[..k + 1])
  {
    OpenIsLast(p, segs, open);
    SinceWraps(p.restartInterval, k);
    ClosingIsFull(p, ts, segs, open);
    OutputAfterFull(p, ts, mcus, k);
  }

  /** How many bytes the k-th MCU adds, the restart marker in front of it included. */
  ghost function Needed(p: Params, ts: Tables, mcus: seq<Mcu>, k: nat): int
    requires GoodMcus(p, mcus) && GoodTables(ts) && k < |mcus|
  {
    |OutputOf(p, ts, mcus[..k + 1])| - |OutputOf(p, ts, mcus[..k])|
  }
}
