/** Two passes over a scan: the first makes the tables that the second one needs. */
module OptimizedScan {
  import opened Numbers
  import opened Blocks
  import opened Scans
  import opened HuffmanTable
  import opened HuffmanBuilder
  import opened HuffmanStream
  import opened HuffmanScan
  import opened HuffmanTrip
  import opened ScanSymbols
  import BW = BitWriter
  import L = HuffmanLimit

  /** No table: nothing is coded by it. */
  function NoTable(): (t: HuffTable)
    ensures GoodShape(t)
  {
    HuffTable(seq(17, _ => 0), seq(256, _ => 0))
  }

  lemma {:induction false} NothingListed(l: nat)
    requires l <= 17
    ensures Offset(NoTable().bits, l) == 0 && (1 <= l <= 16 ==> End(NoTable().bits, l) == 0)
  {
    if l > 1 {
      NothingListed(l - 1);
    }
  }

  lemma NoTableIsUsable(m: nat)
    ensures Encodable(NoTable(), m)
  {
    forall l | 1 <= l <= 16 ensures End(NoTable().bits, l) < Shl(1, l) {
      NothingListed(l);
      ShlNat(1, l);
    }
    NothingListed(17);
  }

  /** The table has a code for everything that has been counted, and both builders accept it. */
  ghost predicate Made(t: HuffTable, isDc: bool, freq: seq<nat>) {
    GoodShape(t) && Encodable(t, if isDc then 15 else 255) && Covers(t, freq)
  }

  lemma TableIsMade(t: HuffTable, isDc: bool, freq: seq<nat>)
    requires |freq| == 257 && L.TableFor(t, freq) && (isDc ==> forall s: Byte :: freq[s] > 0 ==> s <= 11)
    ensures Made(t, isDc, freq)
  {
    var n := Offset(t.bits, 17);
    forall s: Byte | s < |freq| && freq[s] > 0 ensures exists q :: 0 <= q < n && t.huffval[q] == s {
      assert s in t.huffval[..n];
    }
    forall q | 0 <= q < n && isDc ensures t.huffval[q] <= 11 {
      var s := t.huffval[q];
      assert t.huffval[..n][q] == s;
      assert freq[s] > 0;
    }
  }

  /** All statistics are small enough for the search for the smallest frequency. */
  ghost predicate Countable(p: Params, mcus: seq<Mcu>)
    requires GoodMcus(p, mcus)
  {
    ScanFits(p, mcus) ==> forall tbl :: Wanted(p, tbl) ==> Symbols(AllTokens(p, mcus), tbl) <= M.BIG
  }

  /** Some table has so many symbols that a code of more than 32 bits is conceivable. */
  ghost predicate Huge(p: Params, mcus: seq<Mcu>)
    requires GoodMcus(p, mcus)
  {
    exists tbl :: Wanted(p, tbl) && Symbols(AllTokens(p, mcus), tbl) + 1 >= L.MANY
  }

  /** One table, from its statistics. */
  method MakeTable(ghost p: Params, numDc: nat, ghost ks: seq<Token>, counts: Counts, tbl: nat, huffval: seq<Byte>)
    returns (ok: bool, t: HuffTable)
    requires Modest(p, numDc, ks) && CountsOf(counts, ks) && tbl < |counts| && Occurs(tbl, ks) && |huffval| == 256
    requires Symbols(ks, tbl) <= M.BIG
    ensures ok ==> Made(t, tbl < numDc, counts[tbl])
    ensures !ok ==> Symbols(ks, tbl) + 1 >= L.MANY
  {
    StatisticsAreUsable(p, numDc, ks, counts, tbl);
    var freq := counts[tbl];
    var a := new nat[257](i requires 0 <= i < |freq| => freq[i]);
    assert a[..] == freq && a[..256] == freq[..256];
    var r;
    ghost var lens;
    r, lens := L.GenOptimalTable(a, huffval);
    ok := r.Table?;
    t := if ok then r.t else NoTable();
    if ok {
      TableIsMade(t, tbl < numDc, freq);
    }
  }

  /** Every table is right for what has been counted; those that have been made are marked. */
  ghost predicate Making(numDc: nat, counts: Counts, ts: seq<HuffTable>, did: seq<bool>) {
    && |ts| == |did| == |counts|
    && forall i :: 0 <= i < |ts| ==> if did[i] then Made(ts[i], i < numDc, counts[i]) else ts[i] == NoTable()
  }

  /** The table, unless it has been made for another component already. */
  method MakeOnce(ghost p: Params, numDc: nat, ghost ks: seq<Token>, counts: Counts, tbl: nat, huffval: seq<Byte>,
                  ts0: seq<HuffTable>, did0: seq<bool>) returns (ok: bool, ts: seq<HuffTable>, did: seq<bool>)
    requires Modest(p, numDc, ks) && CountsOf(counts, ks) && AllOccur(p, ks) && |huffval| == 256
    requires Making(numDc, counts, ts0, did0) && tbl < |counts| && Wanted(p, tbl) && Symbols(ks, tbl) <= M.BIG
    ensures ok ==> Making(numDc, counts, ts, did) && did[tbl] && forall i :: 0 <= i < |did0| && did0[i] ==> did[i]
    ensures !ok ==> Symbols(ks, tbl) + 1 >= L.MANY
  {
    ok, ts, did := true, ts0, did0;
    if !did[tbl] {
      var t;
      ok, t := MakeTable(p, numDc, ks, counts, tbl, huffval);
      if ok {
        ts, did := ts[tbl := t], did[tbl := true];
      }
    }
  }

  /** The tables of the first components have been made. */
  ghost predicate MadeFor(p: Params, did: seq<bool>, n: nat)
    requires n <= |p.comps| && GoodParams(p, |did|)
  {
    forall ci :: 0 <= ci < n ==>
      (SendsDc(p.mode) ==> did[p.comps[ci].dc]) && (WantsAc(p) ==> did[p.comps[ci].ac])
  }

  method MakeTablesOf(p: Params, numDc: nat, ghost ks: seq<Token>, counts: Counts, ci: nat, huffval: seq<Byte>,
                      ts0: seq<HuffTable>, did0: seq<bool>) returns (ok: bool, ts: seq<HuffTable>, did: seq<bool>)
    requires Modest(p, numDc, ks) && CountsOf(counts, ks) && AllOccur(p, ks) && |huffval| == 256
    requires Making(numDc, counts, ts0, did0) && GoodParams(p, |counts|) && ci < |p.comps| && MadeFor(p, did0, ci)
    requires forall tbl :: Wanted(p, tbl) ==> Symbols(ks, tbl) <= M.BIG
    ensures ok ==> Making(numDc, counts, ts, did) && MadeFor(p, did, ci + 1)
    ensures !ok ==> exists tbl :: Wanted(p, tbl) && Symbols(ks, tbl) + 1 >= L.MANY
  {
    ok, ts, did := true, ts0, did0;
    if SendsDc(p.mode) {
      assert Wanted(p, p.comps[ci].dc);
      ok, ts, did := MakeOnce(p, numDc, ks, counts, p.comps[ci].dc, huffval, ts, did);
    }
    if ok && WantsAc(p) {
      assert Wanted(p, p.comps[ci].ac);
      ok, ts, did := MakeOnce(p, numDc, ks, counts, p.comps[ci].ac, huffval, ts, did);
    }
  }

  lemma AllMade(p: Params, numDc: nat, ks: seq<Token>, counts: Counts, ts: seq<HuffTable>, did: seq<bool>)
    requires Modest(p, numDc, ks) && CountsOf(counts, ks) && Making(numDc, counts, ts, did)
    requires GoodParams(p, |did|) && MadeFor(p, did, |p.comps|)
    ensures (forall i :: 0 <= i < |ts| ==> GoodShape(ts[i])) && TablesUsable(ts, numDc) && GoodTables(ts)
    ensures forall i :: 0 <= i < |ts| ==> Covers(ts[i], counts[i])
  {
    forall i | 0 <= i < |ts| ensures Made(ts[i], i < numDc, counts[i]) {
      if !did[i] {
        NoTableIsUsable(if i < numDc then 15 else 255);
        forall s: Byte ensures counts[i][s] == 0 {
          if counts[i][s] > 0 {
            var j := CountedOccurs(ks, i, s);
            var ci := WantedBy(p, i);
          }
        }
      }
    }
  }

  /** finish_pass_gather: a table for each component's symbols. */
  method MakeTables(p: Params, numDc: nat, ghost ks: seq<Token>, counts: Counts, huffval: seq<Byte>)
    returns (ok: bool, ts: seq<HuffTable>)
    requires Modest(p, numDc, ks) && CountsOf(counts, ks) && AllOccur(p, ks) && |huffval| == 256
    requires GoodParams(p, |counts|) && forall tbl :: Wanted(p, tbl) ==> Symbols(ks, tbl) <= M.BIG
    ensures ok ==> |ts| == |counts| && (forall i :: 0 <= i < |ts| ==> GoodShape(ts[i])) && TablesUsable(ts, numDc)
    ensures ok ==> GoodTables(ts) && forall i :: 0 <= i < |ts| ==> Covers(ts[i], counts[i])
    ensures !ok ==> exists tbl :: Wanted(p, tbl) && Symbols(ks, tbl) + 1 >= L.MANY
  {
    ts := seq(|counts|, _ => NoTable());
    var did := seq(|counts|, _ => false);
    ok := true;
    var ci := 0;
    while ci < |p.comps| && ok
      invariant 0 <= ci <= |p.comps|
      invariant ok ==> Making(numDc, counts, ts, did) && MadeFor(p, did, ci)
      invariant !ok ==> exists tbl :: Wanted(p, tbl) && Symbols(ks, tbl) + 1 >= L.MANY
      decreases |p.comps| - ci, ok
    {
      ok, ts, did := MakeTablesOf(p, numDc, ks, counts, ci, huffval, ts, did);
      ci := ci + 1;
    }
    if ok {
      AllMade(p, numDc, ks, counts, ts, did);
    }
  }

  /** Both parts of a statistics pass. */
  method OptimalTables(p: Params, numDc: nat, n: nat, mcus: seq<Mcu>, huffval: seq<Byte>)
    returns (ok: bool, ts: seq<HuffTable>)
    requires GoodParams(p, n) && GoodMcus(p, mcus) && Separate(p, numDc) && EachHasBlocks(p) && mcus != []
    requires Countable(p, mcus) && |huffval| == 256
    ensures ok ==> |ts| == n && (forall i :: 0 <= i < |ts| ==> GoodShape(ts[i])) && TablesUsable(ts, numDc)
    ensures ok ==> GoodTables(ts) && Codable(p, ts, mcus)
    ensures !ok && ScanFits(p, mcus) ==> Huge(p, mcus)
  {
    ts := [];
    var counts;
    ok, counts := GatherScan(p, n, mcus);
    if ok {
      ghost var ks := AllTokens(p, mcus);
      ScanSymbolsAre(p, numDc, mcus);
      ok, ts := MakeTables(p, numDc, ks, counts, huffval);
      if ok {
        CoveredIsCodable(p, ts, mcus, counts);
      }
    }
  }

  /**
   * Both passes and a decoder, for a scan of any kind: it comes back from the tables made for it, and nothing is
   * asked of tables. Once the statistics are in, no symbol is found missing, neither side refuses a table, and a code
   * length overflows only if some table has millions of symbols.
   */
  method OptimizedRoundTrip(p: Params, numDc: nat, n: nat, mcus: seq<Mcu>, priors: seq<Mcu>, huffval: seq<Byte>,
                            before: seq<Byte>, marker: Byte, after: seq<Byte>,
                            suspends: bool, room: nat, rooms: seq<nat>, more: nat, chunks: seq<nat>)
    returns (r: BW.Outcome, out: seq<Mcu>)
    requires GoodParams(p, n) && GoodMcus(p, mcus) && Separate(p, numDc) && EachHasBlocks(p) && mcus != []
    requires Countable(p, mcus) && |huffval| == 256
    requires AllPrepared(p, priors, mcus) && 0 < marker < 0xFF
    requires suspends ==> p.mode.Sequential? && room > 0
    ensures r.Full? ==> suspends
    ensures !ScanFits(p, mcus) ==> r.Error?
    ensures r.Error? && ScanFits(p, mcus) ==> Huge(p, mcus)
    ensures r.Done? ==> out == McusReceived(p, priors, mcus)
  {
    out, r := priors, BW.Error;
    var ok, ts := OptimalTables(p, numDc, n, mcus, huffval);
    if ok {
      var eobrun, insufficient;
      r, out, eobrun, insufficient := ScanRoundTrip(ts, numDc, p, mcus, priors, before, marker, after, suspends, room,
                                                    rooms, more, chunks);
    }
  }
}
