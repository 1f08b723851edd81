/** Scan scripts: what the encoder's validator accepts, and how a script is cut down to small blocks. */
module ScanScript {
  import opened Numbers
  import opened Blocks

  const MAX_COMPS_IN_SCAN := 4
  const MAX_COMPONENTS := 10
  const MAX_AH_AL := 10

  datatype Scan = Scan(comps: seq<int>, ss: int, se: int, ah: int, al: int)

  predicate Covers(s: Scan, c: int, k: int) {
    c in s.comps && s.ss <= k <= s.se
  }

  /** The bit position down to which coefficient k of component c has been sent; -1 if it has not been. */
  function Level(script: seq<Scan>, c: int, k: int): int {
    if script == [] then -1
    else
      var s := script[|script| - 1];
      if Covers(s, c, k) then s.al else Level(script[..|script| - 1], c, k)
  }

  predicate GoodCount(s: Scan) {
    0 < |s.comps| <= MAX_COMPS_IN_SCAN
  }

  /** The components of a scan are in frame order. */
  predicate GoodComps(s: Scan, ncomps: int) {
    && (forall i :: 0 <= i < |s.comps| ==> 0 <= s.comps[i] < ncomps)
    && (forall i :: 0 < i < |s.comps| ==> s.comps[i - 1] < s.comps[i])
  }

  /** DC and AC are never sent together, and AC for one component only. */
  predicate GoodBand(s: Scan) {
    && 0 <= s.ss <= s.se < DCTSIZE2 && 0 <= s.ah <= MAX_AH_AL && 0 <= s.al <= MAX_AH_AL
    && if s.ss == 0 then s.se == 0 else |s.comps| == 1
  }

  predicate FullBand(s: Scan) {
    s.ss == 0 && s.se == DCTSIZE2 - 1
  }

  /** The limits in numbers: four components in a scan, 64 coefficients, bit positions up to 10. */
  lemma ScanLimits(s: Scan)
    ensures GoodCount(s) <==> 1 <= |s.comps| <= 4
    ensures GoodBand(s) && GoodCount(s) <==>
              0 <= s.ah <= 10 && 0 <= s.al <= 10
              && if s.ss == 0 then s.se == 0 && 1 <= |s.comps| <= 4 else 0 < s.ss <= s.se <= 63 && |s.comps| == 1
  {
  }

  /** A first pass starts at any bit, a later one takes the next bit down. */
  predicate Takes(level: int, s: Scan) {
    if level < 0 then s.ah == 0 else s.ah == level && s.al == s.ah - 1
  }

  predicate Continues(script: seq<Scan>, s: Scan, c: int) {
    && (s.ss != 0 ==> Level(script, c, 0) >= 0)
    && (forall k :: s.ss <= k <= s.se ==> Takes(Level(script, c, k), s))
  }

  /** s may follow the scans of script. */
  predicate LegalScan(progressive: bool, script: seq<Scan>, s: Scan, ncomps: int) {
    && GoodCount(s) && GoodComps(s, ncomps)
    && if progressive then
         GoodBand(s) && forall i :: 0 <= i < |s.comps| ==> Continues(script, s, s.comps[i])
       else
         FullBand(s) && s.ah == s.al == 0 && forall i :: 0 <= i < |s.comps| ==> Level(script, s.comps[i], 0) < 0
  }

  predicate Legal(progressive: bool, script: seq<Scan>, ncomps: int) {
    script != [] ==>
      var init := script[..|script| - 1];
      Legal(progressive, init, ncomps) && LegalScan(progressive, init, script[|script| - 1], ncomps)
  }

  predicate Progressive(script: seq<Scan>) {
    script != [] && !FullBand(script[0])
  }

  predicate Complete(script: seq<Scan>, ncomps: int) {
    forall c :: 0 <= c < ncomps ==> Level(script, c, 0) >= 0
  }

  predicate Appears(script: seq<Scan>, c: int) {
    exists i :: 0 <= i < |script| && c in script[i].comps
  }

  lemma {:induction false} SentIfAppears(progressive: bool, script: seq<Scan>, ncomps: int, c: int)
    requires Legal(progressive, script, ncomps)
    ensures Level(script, c, 0) >= 0 <==> Appears(script, c)
    decreases |script|
  {
    if script != [] {
      var m := |script| - 1;
      SentIfAppears(progressive, script[..m], ncomps, c);
      if Appears(script[..m], c) {
        var i :| 0 <= i < m && c in script[..m][i].comps;
        assert c in script[i].comps;
      }
      if c in script[m].comps {
        var i :| 0 <= i < |script[m].comps| && script[m].comps[i] == c;
      } else if Appears(script, c) {
        var i :| 0 <= i < |script| && c in script[i].comps;
        assert script[..m][i] == script[i];
      }
    }
  }

  /** A legal script is complete exactly if no component is left out of it. */
  lemma CompleteIsAll(progressive: bool, script: seq<Scan>, ncomps: int)
    requires Legal(progressive, script, ncomps)
    ensures Complete(script, ncomps) <==> forall c :: 0 <= c < ncomps ==> Appears(script, c)
  {
    forall c | 0 <= c < ncomps ensures Level(script, c, 0) >= 0 <==> Appears(script, c) {
      SentIfAppears(progressive, script, ncomps, c);
    }
  }

  predicate ValidScript(script: seq<Scan>, ncomps: int) {
    script != [] && Legal(Progressive(script), script, ncomps) && Complete(script, ncomps)
  }

  lemma {:induction false} LegalPrefix(progressive: bool, script: seq<Scan>, n: nat, ncomps: int)
    requires Legal(progressive, script, ncomps) && n <= |script|
    ensures Legal(progressive, script[..n], ncomps)
    ensures n < |script| ==> LegalScan(progressive, script[..n], script[n], ncomps)
    decreases |script|
  {
    if n < |script| - 1 {
      var init := script[..|script| - 1];
      LegalPrefix(progressive, init, n, ncomps);
      assert init[..n] == script[..n];
    } else if n == |script| {
      assert script[..n] == script;
    }
  }

  lemma LegalSnoc(progressive: bool, script: seq<Scan>, s: Scan, ncomps: int)
    ensures Legal(progressive, script + [s], ncomps)
            <==> Legal(progressive, script, ncomps) && LegalScan(progressive, script, s, ncomps)
    ensures forall c, k :: Level(script + [s], c, k) == if Covers(s, c, k) then s.al else Level(script, c, k)
  {
    assert (script + [s])[..|script|] == script;
  }

  // ---- validate_script

  datatype Verdict =
    | Accepted(progressive: bool)
    | BadScanScript(scan: nat)
    | ComponentCount(count: nat)
    | BadProgScript(scan: nat)
    | MissingData

  ghost predicate Records(t: array2<int>, script: seq<Scan>, ncomps: int)
    reads t
  {
    && t.Length0 == MAX_COMPONENTS && t.Length1 == DCTSIZE2 && ncomps <= MAX_COMPONENTS
    && forall c, k :: 0 <= c < ncomps && 0 <= k < DCTSIZE2 ==> t[c, k] == Level(script, c, k)
  }

  method CheckComps(s: Scan, ncomps: int) returns (ok: bool)
    ensures ok == GoodComps(s, ncomps)
  {
    ok := true;
    var ci := 0;
    while ci < |s.comps| && ok
      invariant 0 <= ci <= |s.comps|
      invariant ok ==> forall i :: 0 <= i < ci ==> 0 <= s.comps[i] < ncomps && (i > 0 ==> s.comps[i - 1] < s.comps[i])
      invariant !ok ==> !GoodComps(s, ncomps)
      decreases |s.comps| - ci, ok
    {
      var c := s.comps[ci];
      if c < 0 || c >= ncomps || (ci > 0 && c <= s.comps[ci - 1]) {
        ok := false;
      } else {
        ci := ci + 1;
      }
    }
  }

  /** One component of a progressive scan: checks the bit positions and notes the new ones. */
  method CheckBits(lastBitpos: array2<int>, s: Scan, c: int) returns (ok: bool)
    requires lastBitpos.Length0 == MAX_COMPONENTS && lastBitpos.Length1 == DCTSIZE2
    requires 0 <= c < MAX_COMPONENTS && 0 <= s.ss <= s.se < DCTSIZE2
    modifies lastBitpos
    ensures ok <==> (s.ss != 0 ==> old(lastBitpos[c, 0]) >= 0)
                    && forall k :: s.ss <= k <= s.se ==> Takes(old(lastBitpos[c, k]), s)
    ensures forall i, k :: 0 <= i < MAX_COMPONENTS && 0 <= k < DCTSIZE2 && i != c ==>
                             lastBitpos[i, k] == old(lastBitpos[i, k])
    ensures ok ==> forall k :: 0 <= k < DCTSIZE2 ==>
                                 lastBitpos[c, k] == if s.ss <= k <= s.se then s.al else old(lastBitpos[c, k])
  {
    ok := s.ss == 0 || lastBitpos[c, 0] >= 0;
    var k := s.ss;
    while k <= s.se && ok
      invariant s.ss <= k <= s.se + 1
      invariant forall i, j :: 0 <= i < MAX_COMPONENTS && 0 <= j < DCTSIZE2 && (i != c || j >= k || j < s.ss) ==>
                                 lastBitpos[i, j] == old(lastBitpos[i, j])
      invariant forall j :: s.ss <= j < k ==> lastBitpos[c, j] == s.al && Takes(old(lastBitpos[c, j]), s)
      invariant !ok ==> (s.ss != 0 && old(lastBitpos[c, 0]) < 0) || (k <= s.se && !Takes(old(lastBitpos[c, k]), s))
      invariant ok ==> s.ss == 0 || old(lastBitpos[c, 0]) >= 0
      decreases s.se - k, ok
    {
      if lastBitpos[c, k] < 0 {
        ok := s.ah == 0;
      } else {
        ok := s.ah == lastBitpos[c, k] && s.al == s.ah - 1;
      }
      if ok {
        lastBitpos[c, k] := s.al;
        k := k + 1;
      }
    }
  }

  /** The components s.comps[..ci] have been noted, the others not yet. */
  ghost predicate Noted(t: array2<int>, script: seq<Scan>, s: Scan, ncomps: int, ci: int)
    reads t
  {
    && t.Length0 == MAX_COMPONENTS && t.Length1 == DCTSIZE2
    && 0 <= ci <= |s.comps| && 0 <= ncomps <= MAX_COMPONENTS
    && forall c, k :: 0 <= c < ncomps && 0 <= k < DCTSIZE2 ==>
         t[c, k] == if c in s.comps[..ci] && s.ss <= k <= s.se then s.al else Level(script, c, k)
  }

  lemma Ordered(s: Scan, ncomps: int, i: nat, j: nat)
    requires GoodComps(s, ncomps) && i < j < |s.comps|
    ensures s.comps[i] < s.comps[j]
    decreases j
  {
    if i < j - 1 {
      Ordered(s, ncomps, i, j - 1);
    }
  }

  method CheckProgression(lastBitpos: array2<int>, script: seq<Scan>, s: Scan, ncomps: int) returns (ok: bool)
    requires Records(lastBitpos, script, ncomps) && GoodCount(s) && GoodComps(s, ncomps) && 0 <= ncomps
    modifies lastBitpos
    ensures ok == LegalScan(true, script, s, ncomps)
    ensures ok ==> Records(lastBitpos, script + [s], ncomps)
  {
    ok := !(s.ss < 0 || s.ss >= DCTSIZE2 || s.se < s.ss || s.se >= DCTSIZE2 ||
            s.ah < 0 || s.ah > MAX_AH_AL || s.al < 0 || s.al > MAX_AH_AL);
    if ok {
      ok := if s.ss == 0 then s.se == 0 else |s.comps| == 1;
    }
    var ci := 0;
    while ci < |s.comps| && ok
      invariant 0 <= ci <= |s.comps|
      invariant ok ==> GoodBand(s) && Noted(lastBitpos, script, s, ncomps, ci)
      invariant ok ==> forall i :: 0 <= i < ci ==> Continues(script, s, s.comps[i])
      invariant !ok ==> !LegalScan(true, script, s, ncomps)
      decreases |s.comps| - ci, ok
    {
      var c := s.comps[ci];
      forall i | 0 <= i < ci ensures s.comps[i] != c {
        Ordered(s, ncomps, i, ci);
      }
      ok := CheckBits(lastBitpos, s, c);
      if ok {
        ci := ci + 1;
      }
    }
    if ok {
      assert s.comps[..ci] == s.comps;
      LegalSnoc(true, script, s, ncomps);
    }
  }

  ghost predicate NotesSent(sent: array<bool>, script: seq<Scan>, ncomps: int)
    reads sent
  {
    && sent.Length == MAX_COMPONENTS && 0 <= ncomps <= MAX_COMPONENTS
    && forall c :: 0 <= c < ncomps ==> sent[c] == (Level(script, c, 0) >= 0)
  }

  method CheckSent(sent: array<bool>, script: seq<Scan>, s: Scan, ncomps: int) returns (ok: bool)
    requires NotesSent(sent, script, ncomps) && GoodCount(s) && GoodComps(s, ncomps)
    requires FullBand(s) && s.ah == s.al == 0
    modifies sent
    ensures ok == LegalScan(false, script, s, ncomps)
    ensures ok ==> NotesSent(sent, script + [s], ncomps)
  {
    ok := true;
    var ci := 0;
    while ci < |s.comps| && ok
      invariant 0 <= ci <= |s.comps|
      invariant forall c :: 0 <= c < ncomps ==> sent[c] == (c in s.comps[..ci] || Level(script, c, 0) >= 0)
      invariant forall i :: 0 <= i < ci ==> Level(script, s.comps[i], 0) < 0
      invariant !ok ==> !LegalScan(false, script, s, ncomps)
      decreases |s.comps| - ci, ok
    {
      var c := s.comps[ci];
      forall i | 0 <= i < ci ensures s.comps[i] != c {
        Ordered(s, ncomps, i, ci);
      }
      if sent[c] {
        ok := false;
      } else {
        sent[c] := true;
        ci := ci + 1;
      }
    }
    if ok {
      assert s.comps[..ci] == s.comps;
      LegalSnoc(false, script, s, ncomps);
    }
  }

  /** One scan of the script; the tables are brought up to date if it is legal. */
  method CheckScan(progressive: bool, lastBitpos: array2<int>, sent: array<bool>, script: seq<Scan>, s: Scan,
                   ncomps: int)
    returns (v: Verdict)
    requires 0 <= ncomps <= MAX_COMPONENTS
    requires progressive ==> Records(lastBitpos, script, ncomps)
    requires !progressive ==> NotesSent(sent, script, ncomps)
    modifies lastBitpos, sent
    ensures v.Accepted? <==> LegalScan(progressive, script, s, ncomps)
    ensures v.Accepted? && progressive ==> Records(lastBitpos, script + [s], ncomps)
    ensures v.Accepted? && !progressive ==> NotesSent(sent, script + [s], ncomps)
    ensures match v
            case Accepted(b) => b == progressive
            case ComponentCount(n) => n == |s.comps| && !GoodCount(s)
            case BadScanScript(n) =>
              n == |script| + 1 && GoodCount(s) && (GoodComps(s, ncomps) ==>
                  !progressive && FullBand(s) && s.ah == s.al == 0)
            case BadProgScript(n) => n == |script| + 1 && GoodCount(s) && GoodComps(s, ncomps)
            case MissingData => false
  {
    v := Accepted(progressive);
    if |s.comps| <= 0 || |s.comps| > MAX_COMPS_IN_SCAN {
      v := ComponentCount(|s.comps|);
    } else {
      var ok := CheckComps(s, ncomps);
      if !ok {
        v := BadScanScript(|script| + 1);
      } else if progressive {
        ok := CheckProgression(lastBitpos, script, s, ncomps);
        if !ok {
          v := BadProgScript(|script| + 1);
        }
      } else if s.ss != 0 || s.se != DCTSIZE2 - 1 || s.ah != 0 || s.al != 0 {
        v := BadProgScript(|script| + 1);
      } else {
        ok := CheckSent(sent, script, s, ncomps);
        if !ok {
          v := BadScanScript(|script| + 1);
        }
      }
    }
  }

  /** Did every component get sent? */
  method CheckComplete(progressive: bool, lastBitpos: array2<int>, sent: array<bool>, script: seq<Scan>, ncomps: int)
    returns (ok: bool)
    requires 0 <= ncomps <= MAX_COMPONENTS
    requires progressive ==> Records(lastBitpos, script, ncomps)
    requires !progressive ==> NotesSent(sent, script, ncomps)
    ensures ok == Complete(script, ncomps)
  {
    ok := true;
    var ci := 0;
    while ci < ncomps && ok
      invariant 0 <= ci <= ncomps
      invariant forall c :: 0 <= c < ci ==> Level(script, c, 0) >= 0
      invariant !ok ==> !Complete(script, ncomps)
      decreases ncomps - ci, ok
    {
      ok := if progressive then lastBitpos[ci, 0] >= 0 else sent[ci];
      assert ok == (Level(script, ci, 0) >= 0);
      if ok {
        ci := ci + 1;
      }
    }
  }

  /** The loop over the scans, which stops at the first that may not follow the n before it. */
  method CheckScans(progressive: bool, lastBitpos: array2<int>, sent: array<bool>, script: seq<Scan>, ncomps: int)
    returns (v: Verdict, ghost n: nat)
    requires 0 <= ncomps <= MAX_COMPONENTS
    requires progressive ==> Records(lastBitpos, [], ncomps)
    requires !progressive ==> NotesSent(sent, [], ncomps)
    modifies lastBitpos, sent
    ensures n <= |script| && Legal(progressive, script[..n], ncomps) && !v.MissingData?
    ensures v.Accepted? ==>
              && n == |script| && script[..n] == script && v.progressive == progressive
              && (progressive ==> Records(lastBitpos, script, ncomps))
              && (!progressive ==> NotesSent(sent, script, ncomps))
    ensures !v.Accepted? ==> n < |script| && !LegalScan(progressive, script[..n], script[n], ncomps)
    ensures v.BadScanScript? || v.BadProgScript? ==> v.scan == n + 1
  {
    v := Accepted(progressive);
    var k := 0;
    while k < |script| && v.Accepted?
      invariant 0 <= k <= |script| && !v.MissingData?
      invariant Legal(progressive, script[..k], ncomps)
      invariant v.Accepted? ==>
                  && v.progressive == progressive
                  && (progressive ==> Records(lastBitpos, script[..k], ncomps))
                  && (!progressive ==> NotesSent(sent, script[..k], ncomps))
      invariant !v.Accepted? ==> k < |script| && !LegalScan(progressive, script[..k], script[k], ncomps)
      invariant v.BadScanScript? || v.BadProgScript? ==> v.scan == k + 1
      decreases |script| - k, v.Accepted?
    {
      TakeSnoc(script, k);
      LegalSnoc(progressive, script[..k], script[k], ncomps);
      v := CheckScan(progressive, lastBitpos, sent, script[..k], script[k], ncomps);
      if v.Accepted? {
        k := k + 1;
      }
    }
    n := k;
    if v.Accepted? {
      assert script[..n] == script;
    }
  }

  /**
   * validate_script: accepts exactly the valid scripts, and otherwise reports the first scan that may not
   * follow those before it, or that a component is missing.
   */
  method ValidateScript(script: seq<Scan>, ncomps: int) returns (v: Verdict)
    requires 0 <= ncomps <= MAX_COMPONENTS
    ensures v.Accepted? <==> ValidScript(script, ncomps)
    ensures v.Accepted? ==> v.progressive == Progressive(script)
    ensures v.MissingData? <==>
              script != [] && Legal(Progressive(script), script, ncomps) && !Complete(script, ncomps)
    ensures (v.BadScanScript? || v.BadProgScript?) && script != [] ==>
              && 0 < v.scan <= |script| && Legal(Progressive(script), script[..v.scan - 1], ncomps)
              && !LegalScan(Progressive(script), script[..v.scan - 1], script[v.scan - 1], ncomps)
  {
    v := BadScanScript(0);
    if |script| > 0 {
      var progressive := script[0].ss != 0 || script[0].se != DCTSIZE2 - 1;
      var lastBitpos := new int[MAX_COMPONENTS, DCTSIZE2]((_, _) => -1);
      var sent := new bool[MAX_COMPONENTS](_ => false);
      ghost var n: nat;
      v, n := CheckScans(progressive, lastBitpos, sent, script, ncomps);
      if v.Accepted? {
        var ok := CheckComplete(progressive, lastBitpos, sent, script, ncomps);
        if !ok {
          v := MissingData;
        }
      } else if Legal(progressive, script, ncomps) {
        LegalPrefix(progressive, script, n, ncomps);
      }
    }
  }

  // ---- reduce_script

  /** A scan cut off behind coefficient lim. */
  function Clip(s: Scan, lim: int): Scan {
    if s.se > lim then s.(se := lim) else s
  }

  /** The scans that still send something when there are only the coefficients 0..lim. */
  function Reduced(script: seq<Scan>, lim: int): seq<Scan> {
    if script == [] then []
    else
      var s, init := script[|script| - 1], Reduced(script[..|script| - 1], lim);
      if s.ss > lim then init else init + [Clip(s, lim)]
  }

  /** reduce_script: compacts the script in place. */
  method ReduceScript(scans: array<Scan>, lim: int) returns (numScans: nat)
    modifies scans
    ensures numScans <= scans.Length && scans[..numScans] == Reduced(old(scans[..]), lim)
  {
    var idxout, idxin := 0, 0;
    while idxin < scans.Length
      invariant 0 <= idxout <= idxin <= scans.Length
      invariant scans[..idxout] == Reduced(old(scans[..])[..idxin], lim)
      invariant forall i :: idxin <= i < scans.Length ==> scans[i] == old(scans[i])
    {
      assert old(scans[..])[..idxin + 1][..idxin] == old(scans[..])[..idxin];
      if idxin != idxout {
        scans[idxout] := scans[idxin];
      }
      if scans[idxout].ss <= lim {
        if scans[idxout].se > lim {
          scans[idxout] := scans[idxout].(se := lim);
        }
        idxout := idxout + 1;
      }
      idxin := idxin + 1;
    }
    assert old(scans[..])[..idxin] == old(scans[..]);
    numScans := idxout;
  }

  /** A reduced script sends the remaining coefficients to the same precision. */
  lemma {:induction false} ReducedLevel(script: seq<Scan>, lim: int, c: int, k: int)
    requires k <= lim
    ensures Level(Reduced(script, lim), c, k) == Level(script, c, k)
  {
    if script != [] {
      var init, s := script[..|script| - 1], script[|script| - 1];
      ReducedLevel(init, lim, c, k);
      if s.ss <= lim {
        LegalSnoc(true, Reduced(init, lim), Clip(s, lim), 0);
      }
    }
  }

  /** Cutting down a legal progressive script leaves a legal one. */
  lemma {:induction false} ReducedIsLegal(script: seq<Scan>, lim: nat, ncomps: int)
    requires Legal(true, script, ncomps)
    ensures Legal(true, Reduced(script, lim), ncomps)
  {
    if script != [] {
      var init, s := script[..|script| - 1], script[|script| - 1];
      ReducedIsLegal(init, lim, ncomps);
      if s.ss <= lim {
        forall i | 0 <= i < |s.comps| ensures Continues(Reduced(init, lim), Clip(s, lim), s.comps[i]) {
          assert Continues(init, s, s.comps[i]);
          ReducedLevel(init, lim, s.comps[i], 0);
          forall k | s.ss <= k <= Clip(s, lim).se ensures Takes(Level(Reduced(init, lim), s.comps[i], k),
              Clip(s, lim)) {
            ReducedLevel(init, lim, s.comps[i], k);
          }
        }
        LegalSnoc(true, Reduced(init, lim), Clip(s, lim), ncomps);
      }
    }
  }
}
