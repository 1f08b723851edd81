/** The recommended progressive script. */
module SimpleProgression {
  import opened Blocks
  import opened ScanScript
  import opened Progression

  /** What the script has sent of each component: down to bit dc, and down to bits low and high of two AC bands. */
  datatype Stage = Stage(dc: int, low: int, high: int)

  const BAND_SPLIT := 5

  function StageLevel(t: Stage, k: int): int {
    if k == 0 then t.dc else if k <= BAND_SPLIT then t.low else t.high
  }

  /** The script is legal so far and has brought component c to stages[c]. */
  ghost predicate Reaches(script: seq<Scan>, stages: seq<Stage>) {
    && Legal(true, script, |stages|)
    && forall c, k :: 0 <= c < |stages| && 0 <= k < DCTSIZE2 ==> Level(script, c, k) == StageLevel(stages[c], k)
  }

  const UNSENT := Stage(-1, -1, -1)
  const COMPLETE := Stage(0, 0, 0)

  /** A stage after the AC band ss..se has been sent down to bit al; the band ends at the split or at 63. */
  function AfterBand(t: Stage, ss: int, se: int, al: int): Stage {
    Stage(if ss == 0 then al else t.dc,
          if ss == 1 then al else t.low,
          if se == DCTSIZE2 - 1 then al else t.high)
  }

  predicate Band(ss: int, se: int) {
    ss == se == 0 || (ss == 1 && (se == BAND_SPLIT || se == DCTSIZE2 - 1)) || (ss == BAND_SPLIT + 1
      && se == DCTSIZE2 - 1)
  }

  /** The next scan of the component may be ss..se with these bit positions. */
  predicate Ready(t: Stage, ss: int, se: int, ah: int, al: int) {
    && 0 <= al <= MAX_AH_AL && 0 <= ah <= MAX_AH_AL
    && var s := Scan([0], ss, se, ah, al);
       && (ss == 1 ==> Takes(t.low, s))
       && (se == DCTSIZE2 - 1 ==> Takes(t.high, s))
       && if ss == 0 then Takes(t.dc, s) else t.dc >= 0
  }

  /** fill_a_scan */
  method FillAScan(script: seq<Scan>, ci: int, ss: int, se: int, ah: int, al: int, ghost stages: seq<Stage>)
    returns (out: seq<Scan>, ghost next: seq<Stage>)
    requires Reaches(script, stages) && 0 <= ci < |stages| && Band(ss, se) && Ready(stages[ci], ss, se, ah, al)
    ensures out == script + [Scan([ci], ss, se, ah, al)] && Reaches(out, next)
    ensures next == stages[ci := AfterBand(stages[ci], ss, se, al)]
  {
    var s := Scan([ci], ss, se, ah, al);
    out := script + [s];
    next := stages[ci := AfterBand(stages[ci], ss, se, al)];
    LegalSnoc(true, script, s, |stages|);
    assert s.comps[0] == ci;
    assert Continues(script, s, ci);
  }

  /** One scan for each component. */
  function ForEach(ncomps: nat, ss: int, se: int, ah: int, al: int): seq<Scan> {
    seq(ncomps, i => Scan([i], ss, se, ah, al))
  }

  /** fill_scans */
  method FillScans(script: seq<Scan>, ncomps: int, ss: int, se: int, ah: int, al: int, ghost t: Stage)
    returns (out: seq<Scan>)
    requires 0 <= ncomps && Reaches(script, Every(t, ncomps)) && Band(ss, se) && Ready(t, ss, se, ah, al)
    ensures out == script + ForEach(ncomps, ss, se, ah, al)
    ensures Reaches(out, Every(AfterBand(t, ss, se, al), ncomps))
  {
    out := script;
    var ci := 0;
    ghost var stages := Every(t, ncomps);
    while ci < ncomps
      invariant 0 <= ci <= ncomps && out == script + ForEach(ci, ss, se, ah, al) && |stages| == ncomps
      invariant Reaches(out, stages)
      invariant forall c :: 0 <= c < ncomps ==> stages[c] == if c < ci then AfterBand(t, ss, se, al) else t
    {
      out, stages := FillAScan(out, ci, ss, se, ah, al, stages);
      ci := ci + 1;
    }
    assert stages == Every(AfterBand(t, ss, se, al), ncomps);
  }

  function Every(t: Stage, n: int): seq<Stage>
    requires n >= 0
  {
    seq(n, _ => t)
  }

  function AllComps(n: nat): seq<int> {
    seq(n, i => i)
  }

  lemma Interleaved(n: nat)
    ensures GoodComps(Scan(AllComps(n), 0, 0, 0, 0), n)
    ensures forall c :: c in AllComps(n) <==> 0 <= c < n
  {
    forall c | 0 <= c < n ensures c in AllComps(n) {
      assert AllComps(n)[c] == c;
    }
  }

  /** One interleaved scan if possible, else one for each component. */
  function DcScans(ncomps: nat, ah: int, al: int): (s: seq<Scan>)
    ensures ncomps > 0 ==> s != [] && s[0].se == 0
  {
    if ncomps <= MAX_COMPS_IN_SCAN then [Scan(AllComps(ncomps), 0, 0, ah, al)] else ForEach(ncomps, 0, 0, ah, al)
  }

  /** fill_dc_scans */
  method FillDcScans(script: seq<Scan>, ncomps: int, ah: int, al: int, ghost t: Stage) returns (out: seq<Scan>)
    requires 0 < ncomps && Reaches(script, Every(t, ncomps)) && Ready(t, 0, 0, ah, al)
    ensures out == script + DcScans(ncomps, ah, al) && Reaches(out, Every(t.(dc := al), ncomps))
  {
    if ncomps <= MAX_COMPS_IN_SCAN {
      var s := Scan(AllComps(ncomps), 0, 0, ah, al);
      Interleaved(ncomps);
      out := script + [s];
      LegalSnoc(true, script, s, ncomps);
      forall i | 0 <= i < |s.comps| ensures Continues(script, s, s.comps[i]) {
        assert Every(t, ncomps)[i] == t;
      }
    } else {
      out := FillScans(script, ncomps, 0, 0, ah, al, t);
    }
  }

  lemma EmptyScript(n: nat)
    ensures Reaches([], Every(UNSENT, n))
  {
  }

  /** Every coefficient of every component is sent, down to the last bit. */
  ghost predicate SendsAll(script: seq<Scan>, ncomps: int) {
    forall c, k :: 0 <= c < ncomps && 0 <= k < DCTSIZE2 ==> Level(script, c, k) == 0
  }

  lemma Finished(script: seq<Scan>, ncomps: nat)
    requires Reaches(script, Every(COMPLETE, ncomps)) && script != [] && script[0].se == 0
    ensures ValidScript(script, ncomps) && Progressive(script) && SendsAll(script, ncomps)
  {
    forall c, k | 0 <= c < ncomps && 0 <= k < DCTSIZE2 ensures Level(script, c, k) == 0 {
      assert Every(COMPLETE, ncomps)[c] == COMPLETE;
    }
  }

  /** The number of scans space is reserved for. */
  function ScriptSpace(ncomps: int, ycc: bool): int {
    if ncomps == 3 && ycc then 10
    else if ncomps > MAX_COMPS_IN_SCAN then 6 * ncomps
    else 2 + 4 * ncomps
  }

  /** The script that wizard.txt gives as the default for YCbCr. */
  const DOCUMENTED: seq<Scan> := [
    Scan([0, 1, 2], 0, 0, 0, 1),
    Scan([0], 1, 5, 0, 2),
    Scan([2], 1, 63, 0, 1),
    Scan([1], 1, 63, 0, 1),
    Scan([0], 6, 63, 0, 2),
    Scan([0], 1, 63, 2, 1),
    Scan([0, 1, 2], 0, 0, 1, 0),
    Scan([2], 1, 63, 1, 0),
    Scan([1], 1, 63, 1, 0),
    Scan([0], 1, 63, 1, 0)
  ]

  /** All but the lowest bits. */
  method ColorStart() returns (script: seq<Scan>)
    ensures script == DOCUMENTED[..6] && Reaches(script, Every(Stage(1, 1, 1), 3))
  {
    EmptyScript(3);
    script := FillDcScans([], 3, 0, 1, UNSENT);
    ghost var t := Every(Stage(1, -1, -1), 3);
    script, t := FillAScan(script, 0, 1, 5, 0, 2, t);
    script, t := FillAScan(script, 2, 1, 63, 0, 1, t);
    script, t := FillAScan(script, 1, 1, 63, 0, 1, t);
    script, t := FillAScan(script, 0, 6, 63, 0, 2, t);
    script, t := FillAScan(script, 0, 1, 63, 2, 1, t);
    assert t == Every(Stage(1, 1, 1), 3);
    assert AllComps(3) == [0, 1, 2];
  }

  /** The custom script for YCbCr. */
  method ColorScript() returns (script: seq<Scan>)
    ensures script == DOCUMENTED && Reaches(script, Every(COMPLETE, 3))
  {
    script := ColorStart();
    script := FillDcScans(script, 3, 1, 0, Stage(1, 1, 1));
    ghost var t := Every(Stage(0, 1, 1), 3);
    script, t := FillAScan(script, 2, 1, 63, 1, 0, t);
    script, t := FillAScan(script, 1, 1, 63, 1, 0, t);
    script, t := FillAScan(script, 0, 1, 63, 1, 0, t);
    assert t == Every(COMPLETE, 3);
    assert AllComps(3) == [0, 1, 2];
  }

  /** Coarse before fine, DC before AC, low bands before high ones, and always all components. */
  function PlainScans(ncomps: nat): (s: seq<Scan>)
    ensures ncomps > 0 ==> s != [] && s[0].se == 0 && |s| == ScriptSpace(ncomps, false)
  {
    DcScans(ncomps, 0, 1) + ForEach(ncomps, 1, 5, 0, 2) + ForEach(ncomps, 6, 63, 0, 2)
    + ForEach(ncomps, 1, 63, 2, 1)
    + DcScans(ncomps, 1, 0) + ForEach(ncomps, 1, 63, 1, 0)
  }

  /** The all-purpose script. */
  method PlainScript(ncomps: int) returns (script: seq<Scan>)
    requires 0 < ncomps
    ensures script == PlainScans(ncomps) && Reaches(script, Every(COMPLETE, ncomps))
  {
    EmptyScript(ncomps);
    script := FillDcScans([], ncomps, 0, 1, UNSENT);
    script := FillScans(script, ncomps, 1, 5, 0, 2, Stage(1, -1, -1));
    script := FillScans(script, ncomps, 6, 63, 0, 2, Stage(1, 2, -1));
    script := FillScans(script, ncomps, 1, 63, 2, 1, Stage(1, 2, 2));
    script := FillDcScans(script, ncomps, 1, 0, Stage(1, 1, 1));
    script := FillScans(script, ncomps, 1, 63, 1, 0, Stage(0, 1, 1));
  }

  /** jpeg_simple_progression: the documented script for YCbCr; it fills its space exactly and is accepted. */
  method SimpleProgression(ncomps: int, ycc: bool) returns (script: seq<Scan>)
    requires 0 < ncomps
    ensures |script| == ScriptSpace(ncomps, ycc)
    ensures script == if ncomps == 3 && ycc then DOCUMENTED else PlainScans(ncomps)
    ensures ValidScript(script, ncomps) && Progressive(script) && SendsAll(script, ncomps)
  {
    if ncomps == 3 && ycc {
      script := ColorScript();
    } else {
      script := PlainScript(ncomps);
    }
    Finished(script, ncomps);
  }

  /** An image sent with a script that sends all is received unchanged, scan by scan, for any block size. */
  lemma SendingAllIsLossless(script: seq<Scan>, ncomps: int, order: Order, c: int, b: Block)
    requires ValidScript(script, ncomps) && SendsAll(script, ncomps) && 0 <= c < ncomps
    requires forall i :: 0 <= i < DCTSIZE2 && Outside(order, i) ==> b[i] == 0
    ensures Sendable(Progressive(script), Sent(script, order), order)
    ensures Transmit(Progressive(script), Sent(script, order), order, c, b) == b
  {
    Lossless(Progressive(script), script, order, ncomps, c, b);
  }
}
