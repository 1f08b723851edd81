/** Huffman-coded scans of every kind through encoder and decoder, with suspension on both sides, and statistics. */
module HuffmanTrip {
  import opened Numbers
  import opened Blocks
  import opened Scans
  import opened HuffmanTable
  import opened HuffmanBuilder
  import opened BitWriter
  import opened BitReader
  import opened HuffmanStream
  import opened HuffmanScan
  import opened HuffmanBytes
  import opened HuffmanPlace
  import opened HuffmanMcuEncoder
  import opened HuffmanScanEncoder
  import opened HuffmanGather
  import opened HuffmanMcuDecoder
  import opened RestartLayout

  // ---- Tables

  /** What both table builders accept; the first numDc tables are for DC symbols. */
  ghost predicate TablesUsable(ts: seq<HuffTable>, numDc: nat) {
    forall i :: 0 <= i < |ts| ==> GoodShape(ts[i]) && Encodable(ts[i], if i < numDc then 15 else 255)
  }

  method MakeEncoders(ts: seq<HuffTable>, numDc: nat) returns (ok: bool, encoders: seq<EncoderTable>)
    requires forall i :: 0 <= i < |ts| ==> GoodShape(ts[i])
    ensures ok <==> TablesUsable(ts, numDc)
    ensures ok ==> GoodTables(ts) && |encoders| == |ts|
                   && forall i :: 0 <= i < |ts| ==> GoodEncoderTable(encoders[i]) && EncodesTable(encoders[i], ts[i])
  {
    ok, encoders := true, [];
    while |encoders| < |ts| && ok
      invariant |encoders| <= |ts|
      invariant ok ==> forall i :: 0 <= i < |encoders| ==>
                  && Encodable(ts[i], if i < numDc then 15 else 255)
                  && GoodEncoderTable(encoders[i]) && EncodesTable(encoders[i], ts[i])
      invariant !ok ==> !TablesUsable(ts, numDc)
      decreases |ts| - |encoders|, ok
    {
      var i := |encoders|;
      var e;
      ok, e := MakeEncoderTable(ts[i], i < numDc);
      if ok {
        EncoderIsGood(e, ts[i], if i < numDc then 15 else 255);
        encoders := encoders + [e];
      }
    }
  }

  lemma EncoderIsGood(e: EncoderTable, t: HuffTable, maxsymbol: nat)
    requires GoodShape(t) && Encodable(t, maxsymbol) && Encodes(e, t, Offset(t.bits, 17))
    ensures GoodEncoderTable(e) && EncodesTable(e, t)
  {
  }

  method MakeDecoders(ts: seq<HuffTable>, numDc: nat) returns (decoders: seq<DecoderTable>)
    requires TablesUsable(ts, numDc)
    ensures |decoders| == |ts| && forall i :: 0 <= i < |ts| ==> Decodes(decoders[i], ts[i])
  {
    decoders := [];
    while |decoders| < |ts|
      invariant |decoders| <= |ts| && forall i :: 0 <= i < |decoders| ==> Decodes(decoders[i], ts[i])
      decreases |ts| - |decoders|
    {
      var i := |decoders|;
      EncodableIsDecodable(ts[i], i < numDc);
      var ok, d := MakeDecoderTable(ts[i], i < numDc);
      decoders := decoders + [d];
    }
  }

  // ---- Encoding

  /** What the application has room for next; if it has nothing to say, the destination does not suspend any more. */
  function NextRoom(rooms: seq<nat>): nat {
    if rooms == [] then 0 else rooms[0]
  }

  /** All MCUs of a sequential scan; whenever the buffer is full, the application makes room. */
  method EncodeMcus(enc: McuEncoder, mcus: seq<Mcu>, rooms0: seq<nat>) returns (ok: bool)
    requires enc.Valid() && enc.All() == [] && GoodMcus(enc.p, mcus) && GoodTables(enc.sink.ts)
    modifies enc, enc.sink`tokens, enc.sink`start, enc.sink.w
    ensures ok ==> enc.Valid() && enc.All() == mcus && (enc.sink.w.suspends ==> old(enc.sink.w.suspends))
    ensures !ok ==> !Codable(enc.p, enc.sink.ts, mcus)
  {
    ok := true;
    var rooms, k := rooms0, 0;
    while k < |mcus| && ok
      invariant 0 <= k <= |mcus| && (enc.sink.w.suspends ==> old(enc.sink.w.suspends))
      invariant if ok then enc.Valid() && enc.All() == mcus[..k] else !Codable(enc.p, enc.sink.ts, mcus)
      decreases |mcus| - k, |rooms|, enc.sink.w.suspends, ok
    {
      var r := enc.EncodeMcu(mcus, k);
      match r
      case Done => k := k + 1;
      case Error => ok := false;
      case Full =>
        enc.MakeRoom(NextRoom(rooms));
        rooms := if rooms == [] then [] else rooms[1..];
    }
    if ok {
      assert mcus[..k] == mcus;
    }
  }

  /** A sequential scan. */
  method EncodeSequential(sink: HuffSink, p: Params, mcus: seq<Mcu>, rooms: seq<nat>)
    returns (r: Outcome, ghost segs: seq<HuffSegment>)
    requires Ready(sink) && sink.tokens == [] && GoodParams(p, sink.numTables) && p.mode.Sequential?
    requires GoodMcus(p, mcus) && GoodTables(sink.ts)
    modifies sink`tokens, sink`start, sink.w
    ensures r.Error? <==> !Codable(p, sink.ts, mcus)
    ensures r.Full? ==> old(sink.w.suspends)
    ensures r.Done? ==> sink.w.output == old(sink.start) + ScanBytes(p, sink.ts, mcus)
    ensures r.Done? ==> IsHuffScan(p, sink.ts, segs, ScanBytes(p, sink.ts, mcus)) && Mcus(segs) == mcus
  {
    segs := [];
    var enc := new McuEncoder(sink, p);
    var ok := EncodeMcus(enc, mcus, rooms);
    r := Error;
    if ok {
      ok, segs := enc.Finish();
      r := if ok then Done else Full;
    }
  }

  /** A scan of a progression, put out or only counted. */
  method EncodeProgressive(sink: HuffSink, p: Params, mcus: seq<Mcu>)
    returns (ok: bool, ghost segs: seq<HuffSegment>)
    requires sink.Valid() && sink.tokens == [] && GoodParams(p, sink.numTables) && !p.mode.Sequential?
    requires GoodMcus(p, mcus)
    modifies sink`counts, sink`tokens, sink`start, sink.w
    ensures !ok && ScanFits(p, mcus) ==> sink.Fails(AllTokens(p, mcus))
    ensures ok && sink.gather ==> sink.Valid() && ScanFits(p, mcus) && sink.tokens == AllTokens(p, mcus)
    ensures ok && !sink.gather ==> GoodTables(sink.ts) && sink.w.output == old(sink.start) + ScanBytes(p, sink.ts, mcus)
    ensures ok && !sink.gather ==> IsHuffScan(p, sink.ts, segs, ScanBytes(p, sink.ts, mcus)) && Mcus(segs) == mcus
  {
    segs, ok := [], true;
    var enc := new ScanEncoder(sink, p);
    var k := 0;
    while k < |mcus| && ok
      invariant 0 <= k <= |mcus| && enc.p == p && enc.sink == sink && enc.base == old(sink.start)
      invariant fresh(enc) && (enc.run != null ==> fresh(enc.run))
      invariant if ok then enc.Valid() && enc.All() == mcus[..k] else Halted(sink, p, mcus)
      decreases |mcus| - k, ok
    {
      ok := enc.EncodeMcu(mcus, k);
      k := k + 1;
    }
    if ok {
      assert mcus[..k] == mcus;
      ok, segs := enc.Finish();
    }
  }

  /**
   * All MCUs of a scan, then its end. The bytes that are put out are a function of the MCUs, the tables and the
   * scan's parameters, whatever room there is in between. A full buffer is fatal only at the end.
   */
  method EncodeScan(w: BitWriter, ts: seq<HuffTable>, numDc: nat, p: Params, mcus: seq<Mcu>, rooms: seq<nat>)
    returns (r: Outcome, ghost segs: seq<HuffSegment>)
    requires (forall i :: 0 <= i < |ts| ==> GoodShape(ts[i])) && GoodParams(p, |ts|) && GoodMcus(p, mcus)
    requires w.HasRoom() && (w.suspends ==> p.mode.Sequential?)
    modifies w
    ensures r.Error? <==> !(TablesUsable(ts, numDc) && Codable(p, ts, mcus))
    ensures r.Full? ==> old(w.suspends)
    ensures r.Done? ==> w.output == old(w.output) + ScanBytes(p, ts, mcus)
    ensures r.Done? ==> IsHuffScan(p, ts, segs, ScanBytes(p, ts, mcus)) && Mcus(segs) == mcus
  {
    segs, r := [], Error;
    var ok, encoders := MakeEncoders(ts, numDc);
    if ok {
      var sink := new HuffSink.Output(w, encoders, ts);
      if p.mode.Sequential? {
        r, segs := EncodeSequential(sink, p, mcus, rooms);
      } else {
        ok, segs := EncodeProgressive(sink, p, mcus);
        r := if ok then Done else Error;
        if ok {
          CodedIsCodable(p, ts, segs, ScanBytes(p, ts, mcus));
        }
      }
    }
  }

  // ---- Decoding

  /** The MCUs a scan delivers. */
  function McusReceived(p: Params, priors: seq<Mcu>, mcus: seq<Mcu>): (out: seq<Mcu>)
    requires GoodMode(p.mode, p.order) && SameSizes(priors, mcus)
    ensures |out| == |mcus|
  {
    seq(|mcus|, k requires 0 <= k < |mcus| => McuReceived(p.mode, p.order, priors[k], mcus[k]))
  }

  predicate SameSizes(priors: seq<Mcu>, mcus: seq<Mcu>) {
    |priors| == |mcus| && forall k :: 0 <= k < |mcus| ==> |priors[k].blocks| == |mcus[k].blocks|
  }

  /** The receiver's blocks are in the state the scan builds on. */
  ghost predicate AllPrepared(p: Params, priors: seq<Mcu>, mcus: seq<Mcu>)
    requires GoodMode(p.mode, p.order)
  {
    && SameSizes(priors, mcus)
    && forall k, i :: 0 <= k < |mcus| && 0 <= i < |mcus[k].blocks| ==>
         Prepared(p.mode, p.order, priors[k].blocks[i], mcus[k].blocks[i])
  }

  lemma PreparedIsReady(p: Params, prior: Mcu, mcu: Mcu)
    requires Shaped(p) && |prior.blocks| == |mcu.blocks| == |p.membership|
    requires forall i :: 0 <= i < |mcu.blocks| ==> Prepared(p.mode, p.order, prior.blocks[i], mcu.blocks[i])
    ensures Receivable(p, prior, mcu)
  {
    if p.mode.AcRefine? {
      assert Prepared(p.mode, p.order, prior.blocks[0], mcu.blocks[0]);
    }
  }

  /** At the end of a scan nothing is pending and nothing is missing. */
  lemma ScanEnds(dec: McuDecoder)
    requires dec.Valid() && !dec.waiting && dec.Done() == |Mcus(dec.plan.segs)|
    ensures dec.eobrun == 0 && !dec.src.r.insufficientData
  {
    assert Unfolded(HuffInput, 0);
    NothingFollows(dec.src.r.input, dec.plan, dec.p, dec.src.ts, dec.si, dec.mi);
    EndsInterval(dec.p, dec.src.ts, dec.At());
  }

  method DecodeNext(dec: McuDecoder, priors: seq<Mcu>, done: seq<Mcu>, chunks0: seq<nat>, ghost mcus: seq<Mcu>)
    returns (out: seq<Mcu>, chunks: seq<nat>)
    requires dec.Valid() && mcus == Mcus(dec.plan.segs) && GoodMcus(dec.p, mcus) && AllPrepared(dec.p, priors, mcus)
    requires |done| == dec.Done() < |priors| && dec.src.r.available <= |dec.src.r.input|
    requires done == McusReceived(dec.p, priors, mcus)[..|done|]
    modifies dec, dec.src.r
    ensures dec.Valid() && |out| == |done| + 1 == dec.Done() && dec.src.r.available <= |dec.src.r.input| && !dec.waiting
    ensures out == McusReceived(dec.p, priors, mcus)[..|out|]
  {
    var k := |done|;
    PreparedIsReady(dec.p, priors[k], mcus[k]);
    var mcu;
    mcu, chunks := dec.DecodeMcu(priors[k], mcus[k], chunks0);
    out := done + [mcu];
    TakeSnoc(McusReceived(dec.p, priors, mcus), k);
  }

  /** The MCUs of a scan from the bytes an encoder wrote, of which the first `have` are there at the beginning. */
  method DecodeScan(input: seq<Byte>, at: nat, have: nat, chunks0: seq<nat>, ts: seq<HuffTable>, numDc: nat, p: Params,
                    priors: seq<Mcu>, ghost segs: seq<HuffSegment>, ghost marker: Byte)
    returns (out: seq<Mcu>, eobrun: nat, insufficient: bool)
    requires TablesUsable(ts, numDc) && GoodTables(ts) && GoodParams(p, |ts|) && at <= have <= |input|
    requires HoldsHuffScan(input, at, p, ts, segs, marker) && GoodMcus(p, Mcus(segs))
    requires AllPrepared(p, priors, Mcus(segs))
    ensures out == McusReceived(p, priors, Mcus(segs)) && eobrun == 0 && !insufficient
  {
    var decoders := MakeDecoders(ts, numDc);
    var r := new BitReader(input, at, have);
    var src := new HuffSource(r, decoders, ts);
    var dec := new McuDecoder(src, p, segs, marker);
    out := [];
    var chunks := chunks0;
    while |out| < |priors|
      invariant dec.Valid() && dec.p == p && dec.src == src && dec.plan.segs == segs && fresh(dec) && !dec.waiting
      invariant |out| == dec.Done() <= |priors| && src.r.available <= |src.r.input|
      invariant out == McusReceived(p, priors, Mcus(segs))[..|out|]
      decreases |priors| - |out|
    {
      out, chunks := DecodeNext(dec, priors, out, chunks, Mcus(segs));
    }
    ScanEnds(dec);
    eobrun, insufficient := dec.eobrun, r.insufficientData;
  }

  // ---- Both

  /**
   * A scan of any kind is encoded behind some bytes, a marker and anything else follow it, and it is decoded again:
   * DC prediction, runs of ends of block, correction bits and restart intervals included, with a destination that
   * suspends in a sequential scan and with input that arrives in any pieces. It is an error exactly if a table is
   * not legal, a symbol has no code or a coefficient is too large; a full buffer is fatal only at the very end.
   * Otherwise every block receives what the scan gives, no run stays open, and data are never found insufficient.
   */
  method ScanRoundTrip(ts: seq<HuffTable>, numDc: nat, p: Params, mcus: seq<Mcu>, priors: seq<Mcu>,
                       before: seq<Byte>, marker: Byte, after: seq<Byte>,
                       suspends: bool, room: nat, rooms: seq<nat>, more: nat, chunks: seq<nat>)
    returns (r: Outcome, out: seq<Mcu>, eobrun: nat, insufficient: bool)
    requires (forall i :: 0 <= i < |ts| ==> GoodShape(ts[i])) && GoodParams(p, |ts|) && GoodMcus(p, mcus)
    requires AllPrepared(p, priors, mcus) && 0 < marker < 0xFF
    requires suspends ==> p.mode.Sequential? && room > 0
    ensures r.Error? <==> !(TablesUsable(ts, numDc) && Codable(p, ts, mcus))
    ensures r.Full? ==> suspends
    ensures r.Done? ==> out == McusReceived(p, priors, mcus) && eobrun == 0 && !insufficient
  {
    out, eobrun, insufficient := priors, 0, false;
    var w := new BitWriter(before, suspends, room);
    ghost var segs;
    r, segs := EncodeScan(w, ts, numDc, p, mcus, rooms);
    if r.Done? {
      ScanBehind(before, ScanBytes(p, ts, mcus), marker, after, p, ts, segs);
      var input := w.output + [0xFF, marker] + after;
      out, eobrun, insufficient := DecodeScan(input, |before|, Arrived(|before|, |input|, [more]), chunks, ts, numDc, p,
                                              priors, segs, marker);
    }
  }

  // ---- Statistics

  method CountNext(c: McuCounter, p: Params, mcus: seq<Mcu>, k: nat) returns (ok: bool)
    requires c.Valid() && c.p == p && !IsAc(p.mode) && GoodMcus(p, mcus) && k < |mcus| && c.done == mcus[..k]
    modifies c
    ensures if ok then c.Valid() && c.done == mcus[..k + 1] else !ScanFits(p, mcus)
  {
    TakeSnoc(mcus, k);
    ok := c.GatherMcu(mcus[k]);
    if !ok {
      MisfitStays(p, mcus, k + 1);
    }
  }

  /** The symbols of a sequential scan, by a trial run. */
  method CountSequential(p: Params, n: nat, mcus: seq<Mcu>) returns (ok: bool, counts: Counts)
    requires GoodParams(p, n) && p.mode.Sequential? && GoodMcus(p, mcus)
    ensures ok <==> ScanFits(p, mcus)
    ensures ok ==> |counts| == n && CountsOf(counts, AllTokens(p, mcus))
  {
    var c := new McuCounter(p, n);
    ok := true;
    var k := 0;
    while k < |mcus| && ok
      invariant 0 <= k <= |mcus| && c.p == p && c.numTables == n && fresh(c)
      invariant if ok then c.Valid() && c.done == mcus[..k] else !ScanFits(p, mcus)
      decreases |mcus| - k, ok
    {
      ok := CountNext(c, p, mcus, k);
      k := k + 1;
    }
    counts := c.counts;
    if ok {
      assert mcus[..k] == mcus;
      c.WhatIsCounted();
    }
  }

  /** The symbols of a scan of a progression. */
  method CountProgressive(p: Params, n: nat, mcus: seq<Mcu>) returns (ok: bool, counts: Counts)
    requires GoodParams(p, n) && !p.mode.Sequential? && GoodMcus(p, mcus)
    ensures ok <==> ScanFits(p, mcus)
    ensures ok ==> |counts| == n && CountsOf(counts, AllTokens(p, mcus))
  {
    var w := new BitWriter([], false, 0);
    var sink := new HuffSink.Gather(w, n);
    ghost var segs;
    ok, segs := EncodeProgressive(sink, p, mcus);
    counts := sink.counts;
    if ok {
      WhatIsCounted(sink);
    }
  }

  lemma WhatIsCounted(sink: HuffSink)
    requires sink.Valid() && sink.gather
    ensures |sink.counts| == sink.numTables && CountsOf(sink.counts, sink.tokens)
  {
    assert Unfolded(SinkState, 0);
  }

  /** The statistics of a scan count each symbol exactly as often as the output pass emits it. */
  method GatherScan(p: Params, n: nat, mcus: seq<Mcu>) returns (ok: bool, counts: Counts)
    requires GoodParams(p, n) && GoodMcus(p, mcus)
    ensures ok <==> ScanFits(p, mcus)
    ensures ok ==> |counts| == n && CountsOf(counts, AllTokens(p, mcus))
  {
    if p.mode.Sequential? {
      ok, counts := CountSequential(p, n, mcus);
    } else {
      ok, counts := CountProgressive(p, n, mcus);
    }
  }

  /** Every symbol that has been counted is in the table. */
  ghost predicate Covers(t: HuffTable, freq: seq<nat>)
    requires GoodShape(t) && Legal(t.bits)
  {
    forall s: Byte :: s < |freq| && freq[s] > 0 ==> exists q :: 0 <= q < Offset(t.bits, 17) && t.huffval[q] == s
  }

  /** Tables made from the statistics of a scan have a code for all of it: no missing code in the output pass. */
  lemma CoveredIsCodable(p: Params, ts: Tables, mcus: seq<Mcu>, counts: Counts)
    requires GoodMcus(p, mcus) && GoodTables(ts) && ScanFits(p, mcus) && |counts| == |ts|
    requires CountsOf(counts, AllTokens(p, mcus)) && forall i :: 0 <= i < |ts| ==> Covers(ts[i], counts[i])
    ensures Codable(p, ts, mcus)
  {
    var ks := AllTokens(p, mcus);
    forall tbl: nat, s: Byte | Count(ks, tbl, s) > 0 ensures HasCode(ts, tbl, s) {
      assert tbl < |counts|;
      assert counts[tbl][s] == Count(ks, tbl, s) && Covers(ts[tbl], counts[tbl]);
      var q :| 0 <= q < Offset(ts[tbl].bits, 17) && ts[tbl].huffval[q] == s;
      FindsFirst(ts[tbl], s, 0, q);
    }
    CountedIsCoded(ts, ks);
  }
}
