/** Which scans need statistics: exactly those that send symbols. */
module GatheredScans {
  import opened Blocks
  import opened Scans
  import opened HuffmanStream
  import opened HuffmanScan
  import opened ScanSymbols
  import ScanScript
  import Progression
  import PassMaster

  ghost predicate HasSymbols(ks: seq<Token>) {
    exists i :: 0 <= i < |ks| && ks[i].Sym?
  }

  /** The scan of a legal script that the MCUs are coded for. */
  predicate ScanFor(progressive: bool, s: ScanScript.Scan, p: Params) {
    && s.ss >= 0 && s.se >= 0 && s.al >= 0 && p.mode == Progression.ModeOf(progressive, s)
    && (!progressive ==> s.ss == 0 && s.ah == 0)
  }

  lemma WantedHasSymbols(p: Params, ks: seq<Token>, tbl: nat)
    requires AllOccur(p, ks) && Wanted(p, tbl)
    ensures HasSymbols(ks)
  {
    assert Occurs(tbl, ks);
  }

  /** A scan of MCUs has symbols unless it refines DC values. */
  lemma SymbolsAreSent(progressive: bool, s: ScanScript.Scan, p: Params, numDc: nat, mcus: seq<Mcu>)
    requires ScanFor(progressive, s, p) && GoodMcus(p, mcus) && mcus != [] && p.comps != []
    requires Separate(p, numDc) && EachHasBlocks(p) && ScanFits(p, mcus)
    ensures HasSymbols(AllTokens(p, mcus)) <==> s.ss != 0 || s.ah == 0
  {
    var ks := AllTokens(p, mcus);
    ScanSymbolsAre(p, numDc, mcus);
    if SendsDc(p.mode) {
      assert Wanted(p, p.comps[0].dc);
      WantedHasSymbols(p, ks, p.comps[0].dc);
    } else if IsAc(p.mode) {
      assert Wanted(p, p.comps[0].ac);
      WantedHasSymbols(p, ks, p.comps[0].ac);
    }
  }

  /** With optimised tables no scan with symbols goes without statistics. */
  lemma SymbolsAreGathered(t: PassMaster.Job, i: nat, progressive: bool, p: Params, numDc: nat, mcus: seq<Mcu>)
    requires i < |t.scans| && t.optimize && ScanFor(progressive, t.scans[i], p) && GoodMcus(p, mcus)
    requires mcus != [] && p.comps != [] && Separate(p, numDc) && EachHasBlocks(p) && ScanFits(p, mcus)
    ensures HasSymbols(AllTokens(p, mcus)) ==> PassMaster.Gathered(t, i) == [PassMaster.Statistics(t.scans[i])]
    ensures i > 0 || t.transcode ==>
              (HasSymbols(AllTokens(p, mcus)) <==> PassMaster.Gathered(t, i) == [PassMaster.Statistics(t.scans[i])])
  {
    SymbolsAreSent(progressive, t.scans[i], p, numDc, mcus);
  }
}
