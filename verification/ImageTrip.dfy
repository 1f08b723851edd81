/** A whole image through the scans of a script, each coded and decoded by the arithmetic or the Huffman coder. */
module ImageTrip {
  import opened Numbers
  import opened Blocks
  import opened Scans
  import opened ScanScript
  import opened Progression
  import opened SimpleProgression
  import ArithScan
  import ArithRoundTrip
  import H = HuffmanScan
  import HuffmanRange
  import HuffmanTrip
  import ScanSymbols
  import OptimizedScan

  /** The coefficient blocks of every component. */
  type Image = seq<seq<Block>>

  ghost predicate SameShape(a: Image, b: Image) {
    |a| == |b| && forall c :: 0 <= c < |a| ==> |a[c]| == |b[c]|
  }

  /** One place in an MCU: a block of a component in the scan, or a dummy behind the edge of the image. */
  datatype Slot = Real(ci: nat, bi: nat) | Dummy(ci: nat, filler: Block)

  /** The entropy coder of a scan; Huffman tables are made for the scan, the first numDc of n for DC symbols. */
  datatype Coder = Arithmetic(tables: seq<ArithScan.Tables>) | Huffman(comps: seq<H.Component>, numDc: nat, n: nat)

  /**
   * How a scan is carried out: the coder, the blocks of every MCU in order, restarts, and the pieces in which a
   * Huffman decoder's input arrives.
   */
  datatype Setup = Setup(coder: Coder, membership: seq<nat>, mcus: seq<seq<Slot>>, restartInterval: nat,
      pieces: seq<nat>)

  predicate GoodSlots(img: Image, s: Scan, u: Setup, slots: seq<Slot>) {
    && |slots| == |u.membership|
    && forall i :: 0 <= i < |slots| ==>
         && slots[i].ci == u.membership[i] < |s.comps|
         && 0 <= s.comps[slots[i].ci] < |img|
         && (slots[i].Real? ==> slots[i].bi < |img[s.comps[slots[i].ci]]|)
  }

  /** Block bi of the ci-th component of the scan is in some MCU. */
  ghost predicate Visited(u: Setup, ci: nat, bi: nat) {
    exists m, i :: 0 <= m < |u.mcus| && 0 <= i < |u.mcus[m]| && u.mcus[m][i] == Real(ci, bi)
  }

  /** No block of the image is in two slots. */
  ghost predicate NoneTwice(u: Setup) {
    forall m, i, n, k | 0 <= m < |u.mcus| && 0 <= i < |u.mcus[m]| && 0 <= n < |u.mcus| && 0 <= k < |u.mcus[n]| ::
      u.mcus[m][i].Real? && u.mcus[m][i] == u.mcus[n][k] ==> m == n && i == k
  }

  /** The coder knows the scan's components, and an AC scan has one of them and one block in an MCU. */
  ghost predicate GoodCoder(progressive: bool, s: Scan, u: Setup)
    requires s.ss >= 0 && s.se >= 0 && s.al >= 0
  {
    match u.coder
    case Arithmetic(tables) => |tables| == |s.comps|
    case Huffman(comps, numDc, n) =>
      && |comps| == |s.comps| && u.mcus != []
      && (forall i :: 0 <= i < |comps| ==> comps[i].dc < numDc <= comps[i].ac < n)
      && (forall ci :: 0 <= ci < |comps| ==> ci in u.membership)
      && (IsAc(ModeOf(progressive, s)) ==> |comps| == 1 && u.membership == [0])
  }

  /** Every block of the scan's components is visited once; a scan of one component has no dummies. */
  ghost predicate GoodSetup(img: Image, s: Scan, u: Setup) {
    && (forall i :: 0 <= i < |s.comps| ==> 0 <= s.comps[i] < |img|)
    && (forall i :: 0 <= i < |u.membership| ==> u.membership[i] < |s.comps|)
    && (forall m :: 0 <= m < |u.mcus| ==> GoodSlots(img, s, u, u.mcus[m]))
    && (|s.comps| == 1 ==> forall m, i :: 0 <= m < |u.mcus| && 0 <= i < |u.mcus[m]| ==> u.mcus[m][i].Real?)
    && (forall ci, bi :: 0 <= ci < |s.comps| && 0 <= bi < |img[s.comps[ci]]| ==> Visited(u, ci, bi))
    && NoneTwice(u)
  }

  function ParamsOf(progressive: bool, s: Scan, order: Order, u: Setup): ArithScan.Params
    requires s.ss >= 0 && s.se >= 0 && s.al >= 0 && u.coder.Arithmetic?
  {
    ArithScan.Params(ModeOf(progressive, s), order, u.coder.tables, u.membership, u.restartInterval)
  }

  function HuffParamsOf(progressive: bool, s: Scan, order: Order, u: Setup): H.Params
    requires s.ss >= 0 && s.se >= 0 && s.al >= 0 && u.coder.Huffman?
  {
    H.Params(ModeOf(progressive, s), order, u.coder.comps, u.membership, u.restartInterval)
  }

  /** The block in a slot; the receiver's dummies are blank. */
  function SlotBlock(img: Image, s: Scan, slot: Slot, blank: bool): Block
    requires slot.Real? ==> slot.ci < |s.comps| && 0 <= s.comps[slot.ci] < |img| && slot.bi < |img[s.comps[slot.ci]]|
  {
    if slot.Real? then img[s.comps[slot.ci]][slot.bi] else if blank then ZeroBlock() else slot.filler
  }

  function McuFrom(img: Image, s: Scan, u: Setup, slots: seq<Slot>, blank: bool): (mcu: Mcu)
    requires GoodSlots(img, s, u, slots)
    ensures |mcu.blocks| == |slots|
  {
    Mcu(seq(|slots|, i requires 0 <= i < |slots| => SlotBlock(img, s, slots[i], blank)))
  }

  ghost function McusFrom(img: Image, s: Scan, u: Setup, blank: bool): (mcus: seq<Mcu>)
    requires GoodSetup(img, s, u)
    ensures |mcus| == |u.mcus|
    ensures forall m :: 0 <= m < |mcus| ==> mcus[m] == McuFrom(img, s, u, u.mcus[m], blank)
  {
    seq(|u.mcus|, m requires 0 <= m < |u.mcus| => McuFrom(img, s, u, u.mcus[m], blank))
  }

  /** The MCUs of a scan, in order. */
  method Gather(img: Image, s: Scan, u: Setup, blank: bool) returns (mcus: seq<Mcu>)
    requires GoodSetup(img, s, u)
    ensures mcus == McusFrom(img, s, u, blank)
  {
    mcus := [];
    while |mcus| < |u.mcus|
      invariant |mcus| <= |u.mcus|
      invariant forall m :: 0 <= m < |mcus| ==> mcus[m] == McuFrom(img, s, u, u.mcus[m], blank)
      decreases |u.mcus| - |mcus|
    {
      mcus := mcus + [McuFrom(img, s, u, u.mcus[|mcus|], blank)];
    }
  }

  lemma CoderIsGood(progressive: bool, img: Image, s: Scan, order: Order, u: Setup)
    requires GoodSetup(img, s, u) && Decodable(progressive, s, order) && GoodCoder(progressive, s, u)
    ensures u.coder.Arithmetic? ==>
              var p := ParamsOf(progressive, s, order, u);
              ArithScan.GoodParams(p) && ArithScan.GoodMcus(p, McusFrom(img, s, u, false))
    ensures u.coder.Huffman? ==>
              var p := HuffParamsOf(progressive, s, order, u);
              && H.GoodParams(p, u.coder.n) && H.GoodMcus(p, McusFrom(img, s, u, false))
              && ScanSymbols.Separate(p, u.coder.numDc) && ScanSymbols.EachHasBlocks(p)
  {
    forall m | 0 <= m < |u.mcus| ensures |u.mcus[m]| == |u.membership| {
      assert GoodSlots(img, s, u, u.mcus[m]);
    }
    if u.coder.Huffman? {
      var p := HuffParamsOf(progressive, s, order, u);
      forall ci | 0 <= ci < |p.comps| ensures ScanSymbols.HasBlocks(p, ci) {
        assert ci in u.membership;
      }
    }
  }

  /** No value of the scan is too large for the coder, and there are not too many of them. */
  ghost predicate ScanFits(progressive: bool, img: Image, s: Scan, order: Order, u: Setup)
    requires GoodSetup(img, s, u) && Decodable(progressive, s, order) && GoodCoder(progressive, s, u)
  {
    CoderIsGood(progressive, img, s, order, u);
    var mcus := McusFrom(img, s, u, false);
    match u.coder
    case Arithmetic(_) => ArithRoundTrip.FitsUpTo(ParamsOf(progressive, s, order, u), mcus, |mcus|)
    case Huffman(_, _, _) =>
      var p := HuffParamsOf(progressive, s, order, u);
      H.ScanFits(p, mcus) && OptimizedScan.Countable(p, mcus) && !OptimizedScan.Huge(p, mcus)
  }

  predicate SmallBlock(b: Block) {
    Abs(b[0]) <= 0x4000
  }

  /** DC values of up to 2^14 in magnitude, and dummies like them. */
  ghost predicate SmallImage(img: Image, u: Setup) {
    && (forall c, b :: 0 <= c < |img| && 0 <= b < |img[c]| ==> SmallBlock(img[c][b]))
    && (forall m, i :: 0 <= m < |u.mcus| && 0 <= i < |u.mcus[m]| && u.mcus[m][i].Dummy? ==>
         SmallBlock(u.mcus[m][i].filler))
  }

  /** No scan of such an image has DC differences that are too large for the arithmetic decoder. */
  lemma SmallImageFits(progressive: bool, img: Image, s: Scan, order: Order, u: Setup)
    requires GoodSetup(img, s, u) && Decodable(progressive, s, order) && GoodCoder(progressive, s, u)
    requires u.coder.Arithmetic? && SmallImage(img, u)
    ensures ScanFits(progressive, img, s, order, u)
  {
    CoderIsGood(progressive, img, s, order, u);
    var p, mcus := ParamsOf(progressive, s, order, u), McusFrom(img, s, u, false);
    forall m, i | 0 <= m < |u.mcus| && 0 <= i < |mcus[m].blocks|
      ensures Abs(DcValue(p.mode, mcus[m].blocks[i])) <= 0x4000
    {
      assert GoodSlots(img, s, u, u.mcus[m]);
      assert SmallBlock(mcus[m].blocks[i]);
    }
    assert forall m :: 0 <= m < |mcus| ==> ArithRoundTrip.SmallDc(p, mcus[m]);
    ArithRoundTrip.SmallDcFits(p, mcus, |mcus|);
  }

  /** Coefficients as they come from 8-bit samples, dummies included. */
  ghost predicate EightBitImage(img: Image, u: Setup) {
    && (forall c, b :: 0 <= c < |img| && 0 <= b < |img[c]| ==> HuffmanRange.InRange(img[c][b]))
    && (forall m, i :: 0 <= m < |u.mcus| && 0 <= i < |u.mcus[m]| && u.mcus[m][i].Dummy? ==>
         HuffmanRange.InRange(u.mcus[m][i].filler))
  }

  /** No scan of such an image has coefficients that are too large for the Huffman encoders. */
  lemma EightBitImageFits(progressive: bool, img: Image, s: Scan, order: Order, u: Setup)
    requires GoodSetup(img, s, u) && Decodable(progressive, s, order) && GoodCoder(progressive, s, u)
    requires u.coder.Huffman? && EightBitImage(img, u)
    ensures var p, mcus := HuffParamsOf(progressive, s, order, u), McusFrom(img, s, u, false);
            H.GoodMcus(p, mcus) && H.ScanFits(p, mcus)
  {
    CoderIsGood(progressive, img, s, order, u);
    var p, mcus := HuffParamsOf(progressive, s, order, u), McusFrom(img, s, u, false);
    forall m, i | 0 <= m < |mcus| && 0 <= i < |mcus[m].blocks| ensures HuffmanRange.InRange(mcus[m].blocks[i]) {
      assert GoodSlots(img, s, u, u.mcus[m]);
    }
    HuffmanRange.RangeFits(p, mcus);
  }

  /** What the scan finds in the receiver's blocks is what it builds on. */
  ghost predicate ImagePrepared(progressive: bool, img: Image, recv: Image, s: Scan, order: Order)
    requires SameShape(img, recv) && Decodable(progressive, s, order)
  {
    forall c, b :: 0 <= c < |img| && 0 <= b < |img[c]| && c in s.comps ==>
      Prepared(ModeOf(progressive, s), order, recv[c][b], img[c][b])
  }

  /** AC refinement scans have one component only. */
  predicate NoMixedRefinement(progressive: bool, s: Scan) {
    progressive && s.ss > 0 ==> |s.comps| == 1
  }

  lemma SameSlots(img: Image, recv: Image, s: Scan, u: Setup)
    requires GoodSetup(img, s, u) && SameShape(img, recv)
    ensures GoodSetup(recv, s, u)
  {
    forall m | 0 <= m < |u.mcus| ensures GoodSlots(recv, s, u, u.mcus[m]) {
      assert GoodSlots(img, s, u, u.mcus[m]);
    }
  }

  lemma SlotsArePrepared(progressive: bool, img: Image, recv: Image, s: Scan, order: Order, u: Setup)
    requires GoodSetup(img, s, u) && GoodSetup(recv, s, u) && SameShape(img, recv) && Decodable(progressive, s, order)
    requires ImagePrepared(progressive, img, recv, s, order) && NoMixedRefinement(progressive, s)
    ensures forall m, i :: 0 <= m < |u.mcus| && 0 <= i < |u.mcus[m]| ==>
              Prepared(ModeOf(progressive, s), order, McusFrom(recv, s, u, true)[m].blocks[i],
                       McusFrom(img, s, u, false)[m].blocks[i])
  {
    var prior, mcus := McusFrom(recv, s, u, true), McusFrom(img, s, u, false);
    forall m, i | 0 <= m < |u.mcus| && 0 <= i < |u.mcus[m]|
      ensures Prepared(ModeOf(progressive, s), order, prior[m].blocks[i], mcus[m].blocks[i])
    {
      assert GoodSlots(img, s, u, u.mcus[m]);
      var slot := u.mcus[m][i];
      if slot.Real? {
        assert s.comps[slot.ci] in s.comps;
      }
    }
  }

  /** The image the receiver is to have after the scan. */
  ghost predicate IsNext(progressive: bool, img: Image, recv: Image, s: Scan, order: Order, next: Image)
    requires SameShape(img, recv) && Decodable(progressive, s, order)
  {
    && SameShape(img, next)
    && forall c, b :: 0 <= c < |img| && 0 <= b < |img[c]| ==>
         next[c][b] == Receive(progressive, s, order, c, recv[c][b], img[c][b])
  }

  /** Every block is either as before or as it is to be; those of the first n MCUs are as they are to be. */
  ghost predicate StoredTo(progressive: bool, img: Image, recv: Image, s: Scan, order: Order, u: Setup, now: Image,
                           n: nat)
    requires GoodSetup(img, s, u) && SameShape(img, recv) && Decodable(progressive, s, order)
  {
    && SameShape(img, now) && n <= |u.mcus|
    && (forall c, b :: 0 <= c < |img| && 0 <= b < |img[c]| ==>
          now[c][b] == recv[c][b] || now[c][b] == Receive(progressive, s, order, c, recv[c][b], img[c][b]))
    && forall m :: 0 <= m < n ==> McuStored(progressive, img, recv, s, order, u, now, m, |u.mcus[m]|)
  }

  ghost predicate McuStored(progressive: bool, img: Image, recv: Image, s: Scan, order: Order, u: Setup, now: Image,
                            m: nat, k: nat)
    requires GoodSetup(img, s, u) && SameShape(img, recv) && SameShape(img, now) && Decodable(progressive, s, order)
    requires m < |u.mcus| && k <= |u.mcus[m]|
  {
    GoodSlots(img, s, u, u.mcus[m]) &&
    forall i :: 0 <= i < k && u.mcus[m][i].Real? ==>
      var c, b := s.comps[u.mcus[m][i].ci], u.mcus[m][i].bi;
      now[c][b] == Receive(progressive, s, order, c, recv[c][b], img[c][b])
  }

  /** Blocks stay, or become what they are to be. */
  ghost predicate Onward(progressive: bool, img: Image, recv: Image, s: Scan, order: Order, now: Image, next: Image)
    requires SameShape(img, recv) && SameShape(img, now) && Decodable(progressive, s, order)
  {
    && SameShape(img, next)
    && forall c, b :: 0 <= c < |img| && 0 <= b < |img[c]| ==>
         next[c][b] == now[c][b] || next[c][b] == Receive(progressive, s, order, c, recv[c][b], img[c][b])
  }

  lemma McuStays(progressive: bool, img: Image, recv: Image, s: Scan, order: Order, u: Setup, now: Image, next: Image,
                 m: nat, k: nat)
    requires GoodSetup(img, s, u) && SameShape(img, recv) && SameShape(img, now) && Decodable(progressive, s, order)
    requires m < |u.mcus| && k <= |u.mcus[m]| && McuStored(progressive, img, recv, s, order, u, now, m, k)
    requires Onward(progressive, img, recv, s, order, now, next)
    ensures McuStored(progressive, img, recv, s, order, u, next, m, k)
  {
  }

  lemma StoredStays(progressive: bool, img: Image, recv: Image, s: Scan, order: Order, u: Setup, now: Image,
                    next: Image, n: nat)
    requires GoodSetup(img, s, u) && SameShape(img, recv) && Decodable(progressive, s, order)
    requires StoredTo(progressive, img, recv, s, order, u, now, n)
             && Onward(progressive, img, recv, s, order, now, next)
    ensures StoredTo(progressive, img, recv, s, order, u, next, n)
  {
    forall m | 0 <= m < n ensures McuStored(progressive, img, recv, s, order, u, next, m, |u.mcus[m]|) {
      McuStays(progressive, img, recv, s, order, u, now, next, m, |u.mcus[m]|);
    }
  }

  method StoreBlock(ghost progressive: bool, ghost img: Image, ghost recv: Image, s: Scan, ghost order: Order, u: Setup,
                    now: Image, m: nat, i: nat, b: Block) returns (next: Image)
    requires GoodSetup(img, s, u) && SameShape(img, recv) && Decodable(progressive, s, order) && SameShape(img, now)
    requires m < |u.mcus| && i < |u.mcus[m]| && McuStored(progressive, img, recv, s, order, u, now, m, i)
    requires var slot := u.mcus[m][i];
             slot.Real? ==> b == Received(ModeOf(progressive, s), order,
                                      recv[s.comps[slot.ci]][slot.bi], img[s.comps[slot.ci]][slot.bi])
    ensures Onward(progressive, img, recv, s, order, now, next)
    ensures McuStored(progressive, img, recv, s, order, u, next, m, i + 1)
  {
    next := now;
    var slot := u.mcus[m][i];
    if slot.Real? {
      var c := s.comps[slot.ci];
      assert c in s.comps;
      var row: seq<Block> := now[c][slot.bi := b];
      next := now[c := row];
    }
    McuStays(progressive, img, recv, s, order, u, now, next, m, i);
  }

  /** The decoder's MCUs go back to the blocks they came from; dummies are dropped. */
  method StoreMcu(ghost progressive: bool, ghost img: Image, ghost recv: Image, s: Scan, ghost order: Order, u: Setup,
                  now0: Image, m: nat, mcu: Mcu) returns (now: Image)
    requires GoodSetup(img, s, u) && SameShape(img, recv) && Decodable(progressive, s, order)
    requires GoodSetup(recv, s, u) && m < |u.mcus|
    requires GoodSlots(img, s, u, u.mcus[m]) && GoodSlots(recv, s, u, u.mcus[m])
    requires StoredTo(progressive, img, recv, s, order, u, now0, m)
    requires mcu == McuReceived(ModeOf(progressive, s), order, McuFrom(recv, s, u, u.mcus[m], true),
                                McuFrom(img, s, u, u.mcus[m], false))
    ensures StoredTo(progressive, img, recv, s, order, u, now, m + 1)
  {
    now := now0;
    var i := 0;
    while i < |u.mcus[m]|
      invariant 0 <= i <= |u.mcus[m]|
      invariant StoredTo(progressive, img, recv, s, order, u, now, m)
      invariant McuStored(progressive, img, recv, s, order, u, now, m, i)
    {
      var next := StoreBlock(progressive, img, recv, s, order, u, now, m, i, mcu.blocks[i]);
      StoredStays(progressive, img, recv, s, order, u, now, next, m);
      now := next;
      i := i + 1;
    }
  }

  lemma AllStored(progressive: bool, img: Image, recv: Image, s: Scan, order: Order, u: Setup, now: Image)
    requires GoodSetup(img, s, u) && SameShape(img, recv) && Decodable(progressive, s, order)
    requires StoredTo(progressive, img, recv, s, order, u, now, |u.mcus|)
    ensures IsNext(progressive, img, recv, s, order, now)
  {
    forall c, b | 0 <= c < |img| && 0 <= b < |img[c]|
      ensures now[c][b] == Receive(progressive, s, order, c, recv[c][b], img[c][b])
    {
      if c in s.comps {
        var ci :| 0 <= ci < |s.comps| && s.comps[ci] == c;
        assert Visited(u, ci, b);
        var m, i :| 0 <= m < |u.mcus| && 0 <= i < |u.mcus[m]| && u.mcus[m][i] == Real(ci, b);
        assert McuStored(progressive, img, recv, s, order, u, now, m, |u.mcus[m]|);
      }
    }
  }

  /** What the scan delivers of its MCUs. */
  ghost predicate AllDelivered(mode: Mode, order: Order, priors: seq<Mcu>, mcus: seq<Mcu>, out: seq<Mcu>)
    requires GoodMode(mode, order)
  {
    && |priors| == |mcus| == |out|
    && forall m :: 0 <= m < |mcus| ==>
         |priors[m].blocks| == |mcus[m].blocks| && out[m] == McuReceived(mode, order, priors[m], mcus[m])
  }

  /** The scan by way of the arithmetic coder. */
  method SendArithmetic(p: ArithScan.Params, mcus: seq<Mcu>, priors: seq<Mcu>, marker: Byte)
    returns (ok: bool, out: seq<Mcu>)
    requires ArithRoundTrip.Trip(p, priors, mcus) && ArithRoundTrip.ScanPrepared(p, priors, mcus) && 0 < marker < 0xFF
    requires ArithRoundTrip.FitsUpTo(p, mcus, |mcus|)
    ensures ok && AllDelivered(p.mode, p.order, priors, mcus, out)
  {
    ok, out := ArithRoundTrip.ScanRoundTrip(p, [], mcus, marker, [], priors);
    forall m | 0 <= m < |mcus| ensures out[m] == McuReceived(p.mode, p.order, priors[m], mcus[m]) {
      ArithRoundTrip.DeliveredAt(p, priors, mcus, |mcus|, m);
    }
  }

  /** The scan by way of statistics and the Huffman coder; the input arrives in pieces. */
  method SendHuffman(p: H.Params, numDc: nat, n: nat, mcus: seq<Mcu>, priors: seq<Mcu>, marker: Byte,
                     pieces: seq<nat>)
    returns (ok: bool, out: seq<Mcu>)
    requires H.GoodParams(p, n) && H.GoodMcus(p, mcus) && ScanSymbols.Separate(p, numDc) && ScanSymbols.EachHasBlocks(p)
    requires mcus != [] && HuffmanTrip.AllPrepared(p, priors, mcus) && 0 < marker < 0xFF
    requires H.ScanFits(p, mcus) && OptimizedScan.Countable(p, mcus) && !OptimizedScan.Huge(p, mcus)
    ensures ok && AllDelivered(p.mode, p.order, priors, mcus, out)
  {
    var r;
    r, out := OptimizedScan.OptimizedRoundTrip(p, numDc, n, mcus, priors, seq(256, _ => 0), [], marker, [], false, 0,
                                               [], 0, pieces);
    ok := r.Done?;
  }

  /** The MCUs of a scan, sent and received. */
  method SendMcus(progressive: bool, ghost img: Image, ghost recv: Image, s: Scan, order: Order, u: Setup, marker: Byte,
                  mcus: seq<Mcu>, priors: seq<Mcu>) returns (ok: bool, out: seq<Mcu>)
    requires GoodSetup(img, s, u) && SameShape(img, recv) && Decodable(progressive, s, order) && 0 < marker < 0xFF
    requires GoodSetup(recv, s, u) && GoodCoder(progressive, s, u)
    requires ImagePrepared(progressive, img, recv, s, order) && NoMixedRefinement(progressive, s)
    requires ScanFits(progressive, img, s, order, u)
    requires mcus == McusFrom(img, s, u, false) && priors == McusFrom(recv, s, u, true)
    ensures ok && AllDelivered(ModeOf(progressive, s), order, priors, mcus, out)
  {
    CoderIsGood(progressive, img, s, order, u);
    SlotsArePrepared(progressive, img, recv, s, order, u);
    forall m | 0 <= m < |u.mcus| ensures |priors[m].blocks| == |mcus[m].blocks| == |u.mcus[m]| == |u.membership| {
      assert GoodSlots(img, s, u, u.mcus[m]);
    }
    match u.coder
    case Arithmetic(_) =>
      ok, out := SendArithmetic(ParamsOf(progressive, s, order, u), mcus, priors, marker);
    case Huffman(_, numDc, n) =>
      ok, out := SendHuffman(HuffParamsOf(progressive, s, order, u), numDc, n, mcus, priors, marker,
                             u.pieces);
  }

  /** One scan of the image: coded, decoded into the receiver's image. */
  method SendScan(progressive: bool, img: Image, recv: Image, s: Scan, order: Order, u: Setup, marker: Byte)
    returns (ok: bool, next: Image)
    requires GoodSetup(img, s, u) && SameShape(img, recv) && Decodable(progressive, s, order) && 0 < marker < 0xFF
    requires GoodCoder(progressive, s, u)
    requires ImagePrepared(progressive, img, recv, s, order) && NoMixedRefinement(progressive, s)
    requires ScanFits(progressive, img, s, order, u)
    ensures ok && IsNext(progressive, img, recv, s, order, next)
  {
    SameSlots(img, recv, s, u);
    var mcus := Gather(img, s, u, false);
    var priors := Gather(recv, s, u, true);
    var out;
    ok, out := SendMcus(progressive, img, recv, s, order, u, marker, mcus, priors);
    next := recv;
    var m := 0;
    while m < |u.mcus|
      invariant 0 <= m <= |u.mcus| && StoredTo(progressive, img, recv, s, order, u, next, m)
    {
      next := StoreMcu(progressive, img, recv, s, order, u, next, m, out[m]);
      m := m + 1;
    }
    AllStored(progressive, img, recv, s, order, u, next);
  }

  // ---- All scans of a script

  /** What the receiver has of the image after these scans. */
  ghost predicate HasReceived(progressive: bool, sent: seq<Scan>, order: Order, img: Image, recv: Image) {
    && Sendable(progressive, sent, order) && SameShape(img, recv)
    && forall c, b :: 0 <= c < |img| && 0 <= b < |img[c]| ==>
         recv[c][b] == Transmit(progressive, sent, order, c, img[c][b])
  }

  ghost predicate GoodSetups(progressive: bool, sent: seq<Scan>, order: Order, img: Image, us: seq<Setup>) {
    && |us| == |sent| && Sendable(progressive, sent, order)
    && forall n :: 0 <= n < |sent| ==>
         && GoodSetup(img, sent[n], us[n]) && GoodCoder(progressive, sent[n], us[n])
         && ScanFits(progressive, img, sent[n], order, us[n])
  }

  lemma NextScan(progressive: bool, script: seq<Scan>, order: Order, img: Image, recv: Image, n: nat)
    requires Legal(progressive, script, |img|) && n < |Sent(script, order)|
    requires HasReceived(progressive, Sent(script, order)[..n], order, img, recv)
    ensures Decodable(progressive, Sent(script, order)[n], order)
    ensures ImagePrepared(progressive, img, recv, Sent(script, order)[n], order)
    ensures NoMixedRefinement(progressive, Sent(script, order)[n])
  {
    var sent := Sent(script, order);
    SentIsSendable(progressive, script, order, |img|);
    SentIsUnmixed(progressive, script, order, |img|, n);
    forall c, b | 0 <= c < |img| && 0 <= b < |img[c]| && c in sent[n].comps
      ensures Prepared(ModeOf(progressive, sent[n]), order, recv[c][b], img[c][b])
    {
      ScansArePrepared(progressive, script, order, |img|, n, c, img[c][b]);
    }
  }

  lemma {:induction false} SentIsUnmixed(progressive: bool, script: seq<Scan>, order: Order, ncomps: int, n: nat)
    requires Legal(progressive, script, ncomps) && n < |Sent(script, order)|
    ensures NoMixedRefinement(progressive, Sent(script, order)[n])
    ensures GoodCount(Sent(script, order)[n]) && GoodComps(Sent(script, order)[n], ncomps)
    decreases |script|
  {
    var init := script[..|script| - 1];
    if n < |Sent(init, order)| {
      SentIsUnmixed(progressive, init, order, ncomps, n);
    }
  }

  lemma OneMoreScan(progressive: bool, sent: seq<Scan>, order: Order, img: Image, recv: Image, next: Image, n: nat)
    requires Sendable(progressive, sent, order) && n < |sent|
    requires HasReceived(progressive, sent[..n], order, img, recv)
             && IsNext(progressive, img, recv, sent[n], order, next)
    ensures HasReceived(progressive, sent[..n + 1], order, img, next)
  {
    TakeSnoc(sent, n);
    forall c, b | 0 <= c < |img| && 0 <= b < |img[c]|
      ensures next[c][b] == Transmit(progressive, sent[..n + 1], order, c, img[c][b])
    {
      TransmitSnoc(progressive, sent[..n], sent[n], order, c, img[c][b]);
    }
  }

  function Blank(img: Image): (recv: Image)
    ensures |recv| == |img|
  {
    seq(|img|, c requires 0 <= c < |img| => seq(|img[c]|, _ => ZeroBlock()))
  }

  /** The receiver's image after each of the first scans. */
  ghost predicate States(progressive: bool, sent: seq<Scan>, order: Order, img: Image, states: seq<Image>) {
    && 1 <= |states| <= |sent| + 1
    && forall n :: 0 <= n < |states| ==> HasReceived(progressive, sent[..n], order, img, states[n])
  }

  lemma StateAt(progressive: bool, sent: seq<Scan>, order: Order, img: Image, states: seq<Image>, n: nat)
    requires States(progressive, sent, order, img, states) && n < |states|
    ensures HasReceived(progressive, sent[..n], order, img, states[n])
  {
  }

  lemma OneMoreState(progressive: bool, sent: seq<Scan>, order: Order, img: Image, states: seq<Image>, next: Image)
    requires States(progressive, sent, order, img, states) && |states| <= |sent| && Sendable(progressive, sent, order)
    requires IsNext(progressive, img, states[|states| - 1], sent[|states| - 1], order, next)
    ensures States(progressive, sent, order, img, states + [next])
  {
    OneMoreScan(progressive, sent, order, img, states[|states| - 1], next, |states| - 1);
  }

  method SendNext(progressive: bool, script: seq<Scan>, order: Order, img: Image, us: seq<Setup>, marker: Byte,
                  recv: Image, n: nat)
    returns (next: Image)
    requires Legal(progressive, script, |img|) && GoodSetups(progressive, Sent(script, order), order, img, us)
    requires 0 < marker < 0xFF && n < |Sent(script, order)|
    requires HasReceived(progressive, Sent(script, order)[..n], order, img, recv)
    ensures IsNext(progressive, img, recv, Sent(script, order)[n], order, next)
  {
    NextScan(progressive, script, order, img, recv, n);
    var ok;
    ok, next := SendScan(progressive, img, recv, Sent(script, order)[n], order, us[n], marker);
  }

  /** The image after each scan of a script, by way of the coders. */
  method SendImage(progressive: bool, script: seq<Scan>, order: Order, img: Image, us: seq<Setup>, marker: Byte)
    returns (states: seq<Image>)
    requires Legal(progressive, script, |img|) && GoodSetups(progressive, Sent(script, order), order, img, us)
    requires 0 < marker < 0xFF
    ensures |states| == |Sent(script, order)| + 1 && States(progressive, Sent(script, order), order, img, states)
  {
    var sent := Sent(script, order);
    assert sent[..0] == [];
    states := [Blank(img)];
    while |states| <= |sent|
      invariant States(progressive, sent, order, img, states)
      decreases |sent| - |states|
    {
      var n := |states| - 1;
      StateAt(progressive, sent, order, img, states, n);
      var next := SendNext(progressive, script, order, img, us, marker, states[n], n);
      OneMoreState(progressive, sent, order, img, states, next);
      states := states + [next];
    }
  }

  lemma {:induction false} SentPrefix(script: seq<Scan>, order: Order, k: nat)
    requires k <= |script|
    ensures Sent(script[..k], order) <= Sent(script, order)
    decreases |script| - k
  {
    if k < |script| {
      SentPrefix(script, order, k + 1);
      assert script[..k + 1][..k] == script[..k];
    } else {
      assert script[..k] == script;
    }
  }

  /** Every block is known down to where the first k scans of the script have got with it. */
  ghost predicate ImageKnown(recv: Image, img: Image, order: Order, script: seq<Scan>) {
    && SameShape(img, recv)
    && forall c, b :: 0 <= c < |img| && 0 <= b < |img[c]| ==> Knows(recv[c][b], img[c][b], order, script, c)
  }

  lemma StateIsKnown(progressive: bool, script: seq<Scan>, order: Order, img: Image, recv: Image, k: nat)
    requires Legal(progressive, script, |img|) && k <= |script|
    requires |Sent(script[..k], order)| <= |Sent(script, order)|
    requires HasReceived(progressive, Sent(script, order)[..|Sent(script[..k], order)|], order, img, recv)
    ensures ImageKnown(recv, img, order, script[..k])
  {
    LegalPrefix(progressive, script, k, |img|);
    SentPrefix(script, order, k);
    assert Sent(script, order)[..|Sent(script[..k], order)|] == Sent(script[..k], order);
    forall c, b | 0 <= c < |img| && 0 <= b < |img[c]| ensures Knows(recv[c][b], img[c][b], order, script[..k], c) {
      ScriptDelivers(progressive, script[..k], order, |img|, c, img[c][b]);
    }
  }

  /**
   * Any script the validator accepts, any image and any arrangement of its blocks in MCUs: after every scan of
   * the script the receiver knows each coefficient down to the last bit that has been sent of it.
   */
  method SendByScript(script: seq<Scan>, order: Order, img: Image, us: seq<Setup>, marker: Byte)
    returns (states: seq<Image>)
    requires ValidScript(script, |img|) && 0 < marker < 0xFF
    requires GoodSetups(Progressive(script), Sent(script, order), order, img, us)
    ensures |states| == |Sent(script, order)| + 1
    ensures forall k :: 0 <= k <= |script| ==>
              && |Sent(script[..k], order)| < |states|
              && ImageKnown(states[|Sent(script[..k], order)|], img, order, script[..k])
  {
    states := SendImage(Progressive(script), script, order, img, us, marker);
    forall k | 0 <= k <= |script|
      ensures |Sent(script[..k], order)| < |states|
      ensures ImageKnown(states[|Sent(script[..k], order)|], img, order, script[..k])
    {
      SentPrefix(script, order, k);
      StateAt(Progressive(script), Sent(script, order), order, img, states, |Sent(script[..k], order)|);
      StateIsKnown(Progressive(script), script, order, img, states[|Sent(script[..k], order)|], k);
    }
  }

  /** Nothing but zeros where the scan order does not reach. */
  ghost predicate InOrder(img: Image, order: Order) {
    forall c, b, i :: 0 <= c < |img| && 0 <= b < |img[c]| && 0 <= i < DCTSIZE2 && Outside(order, i) ==>
        img[c][b][i] == 0
  }

  /** Every scan that could be asked for can be carried out. */
  ghost predicate Arranged(setup: Scan -> Setup, img: Image, order: Order) {
    forall s: Scan :: Decodable(true, s, order) && GoodCount(s) && GoodComps(s, |img|) ==>
      && GoodSetup(img, s, setup(s)) && GoodCoder(true, s, setup(s))
      && ScanFits(true, img, s, order, setup(s))
  }

  lemma ArrangedScans(script: seq<Scan>, order: Order, img: Image, setup: Scan -> Setup, us: seq<Setup>)
    requires Legal(true, script, |img|) && Arranged(setup, img, order)
    requires |us| == |Sent(script, order)| && forall n :: 0 <= n < |us| ==> us[n] == setup(Sent(script, order)[n])
    ensures GoodSetups(true, Sent(script, order), order, img, us)
  {
    SentIsSendable(true, script, order, |img|);
    forall n | 0 <= n < |us| ensures GoodCount(Sent(script, order)[n]) && GoodComps(Sent(script, order)[n], |img|) {
      SentIsUnmixed(true, script, order, |img|, n);
    }
  }

  /** The standard progression is accepted, and its scans together deliver the image unchanged. */
  method SendProgressively(ycc: bool, order: Order, img: Image, setup: Scan -> Setup,
                           marker: Byte) returns (recv: Image)
    requires 0 < |img| && InOrder(img, order) && Arranged(setup, img, order) && 0 < marker < 0xFF
    ensures recv == img
  {
    var script := SimpleProgression.SimpleProgression(|img|, ycc);
    var sent := Sent(script, order);
    var us := seq(|sent|, n requires 0 <= n < |sent| => setup(sent[n]));
    ArrangedScans(script, order, img, setup, us);
    var states := SendImage(true, script, order, img, us, marker);
    recv := states[|states| - 1];
    assert sent[..|sent|] == sent;
    forall c, b | 0 <= c < |img| && 0 <= b < |img[c]| ensures recv[c][b] == img[c][b] {
      SendingAllIsLossless(script, |img|, order, c, img[c][b]);
    }
    SameBlocks(recv, img);
  }

  lemma SameBlocks(a: Image, b: Image)
    requires SameShape(a, b) && forall c, k :: 0 <= c < |a| && 0 <= k < |a[c]| ==> a[c][k] == b[c][k]
    ensures a == b
  {
    forall c | 0 <= c < |a| ensures a[c] == b[c] {
      assert forall k :: 0 <= k < |a[c]| ==> a[c][k] == b[c][k];
    }
  }
}
