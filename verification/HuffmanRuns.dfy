/** Bands of blocks whose ends of block are gathered into runs: sections G.1.2.2 and G.1.2.3. */
module HuffmanRuns {
  import opened Numbers
  import opened BitStrings
  import opened Blocks
  import opened HuffmanStream
  import opened HuffmanBlocks

  const MAX_EOBRUN := 0x7FFF

  /** The band ss..se of a scan, sent for the first time or refined. */
  datatype BandScan = BandScan(refine: bool, tbl: nat, ss: nat, se: nat)

  predicate GoodBand(bd: BandScan, zz: seq<int>) {
    0 < bd.ss <= bd.se < |zz| <= DCTSIZE2
  }

  /** A band the encoder accepts. */
  ghost predicate FitBand(bd: BandScan, zz: seq<int>) {
    GoodBand(bd, zz) && (!bd.refine ==> SmallBand(zz, bd.ss, bd.se))
  }

  /** The last coefficient that needs a symbol; less than ss if there is none. */
  function BandEnd(bd: BandScan, zz: seq<int>): (j: nat)
    requires GoodBand(bd, zz)
    ensures j <= bd.se
  {
    if bd.refine then LastNew(zz, bd.ss, bd.se) else LastNonzero(zz, bd.ss, bd.se)
  }

  /** The tokens up to that coefficient. */
  ghost function Coded(bd: BandScan, zz: seq<int>): seq<Token>
    requires FitBand(bd, zz)
  {
    if bd.refine then RefineTokens(bd.tbl, zz, BandEnd(bd, zz), bd.ss, 0, [])
    else AcTokens(bd.tbl, zz, BandEnd(bd, zz), bd.ss, 0)
  }

  predicate HasEob(bd: BandScan, zz: seq<int>)
    requires GoodBand(bd, zz)
  {
    BandEnd(bd, zz) < bd.se
  }

  /** Nothing but an end of block, and perhaps correction bits. */
  predicate Silent(bd: BandScan, zz: seq<int>)
    requires GoodBand(bd, zz)
  {
    BandEnd(bd, zz) < bd.ss
  }

  /** The correction bits behind an end of block. */
  function TailBits(bd: BandScan, zz: seq<int>): Bits
    requires GoodBand(bd, zz)
  {
    if !bd.refine then []
    else Corrections(zz, if Silent(bd, zz) then bd.ss else BandEnd(bd, zz) + 1, bd.se + 1)
  }

  function EobSymbol(n: nat): (s: Byte)
    requires 0 < n <= MAX_EOBRUN
    ensures s == (Size(n) - 1) * 16
  {
    EobSize(n);
    (Size(n) - 1) * 16
  }

  /** An end of block that stands for n of them. */
  function EobTokens(tbl: nat, n: nat): seq<Token>
    requires 0 < n <= MAX_EOBRUN
  {
    [Sym(tbl, EobSymbol(n))] + if Size(n) == 1 then [] else [Raw(Low(n, Size(n) - 1))]
  }

  lemma EobSize(n: nat)
    requires 0 < n <= MAX_EOBRUN
    ensures 1 <= Size(n) <= 15
  {
    SizeBound(n);
    if Size(n) > 15 {
      ManyBits(Size(n) - 1);
    }
  }

  /** 2^r and the r bits that follow it. */
  lemma {:induction false} EobValue(n: nat)
    requires n > 0
    ensures Value(Low(n, Size(n) - 1)) + Shl(1, Size(n) - 1) == n
    decreases n
  {
    if n > 1 {
      EobValue(n / 2);
      ValueSnoc(Low(n / 2, Size(n / 2) - 1), n % 2);
      ShlShl(1, Size(n / 2) - 1, 1);
    }
  }

  /** An end of block says its number: 2^r with the symbol, and what is more with r bits. */
  lemma EobSaysCount(tbl: nat, n: nat)
    requires 0 < n <= MAX_EOBRUN
    ensures var ks, r := EobTokens(tbl, n), Size(n) - 1;
            ks[0] == Sym(tbl, 16 * r) && |ks| == (if r == 0 then 1 else 2)
            && (r == 0 ==> n == 1) && (r > 0 ==> ks[1].Raw? && |ks[1].bits| == r && Value(ks[1].bits) + Shl(1, r) == n)
  {
    EobSize(n);
    EobValue(n);
  }

  lemma ManyBits(k: nat)
    requires k >= 15
    ensures Shl(1, k) >= 0x8000
  {
    ShlShl(1, 15, k - 15);
    ShlShl(1, 4, 11);
    ShlTable(16);
    ShlNat(0x8000, k - 15);
  }

  /** What a block contributes: `before` ends of block are still pending, or its own stands for n. */
  ghost function Parcel(bd: BandScan, zz: seq<int>, before: nat, n: nat): seq<Token>
    requires FitBand(bd, zz) && 0 < n <= MAX_EOBRUN
  {
    if before > 0 then BitTokens(TailBits(bd, zz))
    else Coded(bd, zz) + if HasEob(bd, zz) then EobTokens(bd.tbl, n) + BitTokens(TailBits(bd, zz)) else []
  }

  /** How many ends of block are pending behind it. */
  function After(bd: BandScan, zz: seq<int>, before: nat, n: nat): nat
    requires GoodBand(bd, zz) && 0 < n
  {
    if before > 0 then before - 1 else if HasEob(bd, zz) then n - 1 else 0
  }

  /** Bands and, for each, the count its end of block would carry. */
  ghost predicate GoodRuns(bd: BandScan, zzs: seq<seq<int>>, ns: seq<nat>) {
    && |zzs| == |ns|
    && (forall i :: 0 <= i < |zzs| ==> FitBand(bd, zzs[i]))
    && (forall i :: 0 <= i < |ns| ==> 0 < ns[i] <= MAX_EOBRUN)
  }

  /** The ends of block pending behind the bands. */
  ghost function RunAfter(bd: BandScan, zzs: seq<seq<int>>, ns: seq<nat>): nat
    requires GoodRuns(bd, zzs, ns)
    decreases |zzs|
  {
    if zzs == [] then 0
    else
      var m := |zzs| - 1;
      After(bd, zzs[m], RunAfter(bd, zzs[..m], ns[..m]), ns[m])
  }

  /** The tokens of all the bands. */
  ghost function RunTokens(bd: BandScan, zzs: seq<seq<int>>, ns: seq<nat>): seq<Token>
    requires GoodRuns(bd, zzs, ns)
    decreases |zzs|
  {
    if zzs == [] then []
    else
      var m := |zzs| - 1;
      RunTokens(bd, zzs[..m], ns[..m]) + Parcel(bd, zzs[m], RunAfter(bd, zzs[..m], ns[..m]), ns[m])
  }

  /** Inside a run every block is silent. */
  ghost predicate RunsAreSilent(bd: BandScan, zzs: seq<seq<int>>, ns: seq<nat>)
    requires GoodRuns(bd, zzs, ns)
    decreases |zzs|
  {
    zzs != [] ==>
      var m := |zzs| - 1;
      && RunsAreSilent(bd, zzs[..m], ns[..m])
      && (RunAfter(bd, zzs[..m], ns[..m]) > 0 ==> Silent(bd, zzs[m]))
  }

  lemma RunSnoc(bd: BandScan, zzs: seq<seq<int>>, ns: seq<nat>, zz: seq<int>, n: nat)
    requires GoodRuns(bd, zzs, ns) && FitBand(bd, zz) && 0 < n <= MAX_EOBRUN
    ensures GoodRuns(bd, zzs + [zz], ns + [n])
    ensures RunAfter(bd, zzs + [zz], ns + [n]) == After(bd, zz, RunAfter(bd, zzs, ns), n)
    ensures RunTokens(bd, zzs + [zz], ns + [n]) == RunTokens(bd, zzs, ns) + Parcel(bd, zz, RunAfter(bd, zzs, ns), n)
    ensures RunsAreSilent(bd, zzs + [zz], ns + [n])
            <==> RunsAreSilent(bd, zzs, ns) && (RunAfter(bd, zzs, ns) > 0 ==> Silent(bd, zz))
  {
    assert (zzs + [zz])[..|zzs|] == zzs && (ns + [n])[..|zzs|] == ns;
  }

  // ---- A run that is still open

  /** The blocks of an open run: the first may have symbols in front of its end, the others are silent. */
  ghost predicate OpenRun(bd: BandScan, open: seq<seq<int>>) {
    && |open| <= MAX_EOBRUN
    && (forall i :: 0 <= i < |open| ==> FitBand(bd, open[i]) && HasEob(bd, open[i]))
    && (forall i :: 0 < i < |open| ==> Silent(bd, open[i]))
  }

  /** The correction bits that wait for its end. */
  ghost function OpenBits(bd: BandScan, open: seq<seq<int>>): Bits
    requires OpenRun(bd, open)
  {
    if open == [] then [] else OpenBits(bd, open[..|open| - 1]) + TailBits(bd, open[|open| - 1])
  }

  ghost function OpenCoded(bd: BandScan, open: seq<seq<int>>): seq<Token>
    requires OpenRun(bd, open)
  {
    if open == [] then [] else Coded(bd, open[0])
  }

  function Repeat(n: nat, m: nat): (s: seq<nat>)
    ensures |s| == m && forall i :: 0 <= i < m ==> s[i] == n
  {
    seq(m, _ => n)
  }

  /** The open blocks are done with counts ns' behind zzs, of whose tokens t are out. */
  ghost predicate Closed(bd: BandScan, zzs: seq<seq<int>>, t: seq<Token>, open: seq<seq<int>>, ns': seq<nat>, n: nat)
    requires OpenRun(bd, open) && 0 < |open| <= n <= MAX_EOBRUN
  {
    && GoodRuns(bd, zzs + open, ns') && RunsAreSilent(bd, zzs + open, ns')
    && RunAfter(bd, zzs + open, ns') == n - |open|
    && RunTokens(bd, zzs + open, ns') == t + OpenCoded(bd,
         open) + (EobTokens(bd.tbl, n) + BitTokens(OpenBits(bd, open)))
  }

  lemma CloseFirst(bd: BandScan, zzs: seq<seq<int>>, ns: seq<nat>, zz: seq<int>, n: nat)
    requires GoodRuns(bd, zzs, ns) && RunAfter(bd, zzs, ns) == 0 && RunsAreSilent(bd, zzs, ns)
    requires OpenRun(bd, [zz]) && 0 < n <= MAX_EOBRUN
    ensures Closed(bd, zzs, RunTokens(bd, zzs, ns), [zz], ns + [n], n)
  {
    assert [zz][0] == zz && [zz][..0] == [];
    RunSnoc(bd, zzs, ns, zz, n);
    assert OpenBits(bd, []) == [] && [] + TailBits(bd, zz) == TailBits(bd, zz);
    Assoc(RunTokens(bd, zzs, ns), Coded(bd, zz), EobTokens(bd.tbl, n) + BitTokens(TailBits(bd, zz)));
  }

  lemma OpenSnoc(bd: BandScan, open: seq<seq<int>>, zz: seq<int>)
    requires OpenRun(bd, open + [zz])
    ensures OpenRun(bd, open) && FitBand(bd, zz) && HasEob(bd, zz) && (open != [] ==> Silent(bd, zz))
    ensures OpenBits(bd, open + [zz]) == OpenBits(bd, open) + TailBits(bd, zz)
    ensures OpenCoded(bd, open + [zz]) == if open == [] then Coded(bd, zz) else OpenCoded(bd, open)
  {
    var all := open + [zz];
    assert all[..|open|] == open && all[|open|] == zz;
    assert forall i :: 0 <= i < |open| ==> open[i] == all[i];
  }

  lemma MoreBits(t: seq<Token>, e: seq<Token>, b: Bits, c: Bits)
    ensures t + (e + BitTokens(b)) + BitTokens(c) == t + (e + BitTokens(b + c))
  {
    BitTokensConcat(b, c);
    Assoc(e, BitTokens(b), BitTokens(c));
    Assoc(t, e + BitTokens(b), BitTokens(c));
  }

  lemma CloseNext(bd: BandScan, zzs: seq<seq<int>>, t: seq<Token>, open: seq<seq<int>>, zz: seq<int>, was: seq<nat>,
                  n: nat)
    requires open != [] && OpenRun(bd, open + [zz]) && OpenRun(bd, open) && |open| < n <= MAX_EOBRUN
    requires Closed(bd, zzs, t, open, was, n)
    ensures Closed(bd, zzs, t, open + [zz], was + [n], n)
  {
    OpenSnoc(bd, open, zz);
    Assoc(zzs, open, [zz]);
    RunSnoc(bd, zzs + open, was, zz, n);
    MoreBits(t + OpenCoded(bd, open), EobTokens(bd.tbl, n), OpenBits(bd, open), TailBits(bd, zz));
  }

  /** Emitting the count and the bits of an open run completes its blocks. */
  lemma {:induction false} CloseRun(bd: BandScan, zzs: seq<seq<int>>, ns: seq<nat>, open: seq<seq<int>>, n: nat)
    requires GoodRuns(bd, zzs, ns) && RunAfter(bd, zzs, ns) == 0 && RunsAreSilent(bd, zzs, ns)
    requires OpenRun(bd, open) && 0 < |open| <= n <= MAX_EOBRUN
    ensures Closed(bd, zzs, RunTokens(bd, zzs, ns), open, ns + Repeat(n, |open|), n)
    decreases |open|
  {
    var m := |open| - 1;
    RepeatSnoc(ns, n, m);
    if m == 0 {
      assert open == [open[0]] && ns + Repeat(n, 0) == ns;
      CloseFirst(bd, zzs, ns, open[0], n);
    } else {
      assert open == open[..m] + [open[m]];
      CloseRun(bd, zzs, ns, open[..m], n);
      CloseNext(bd, zzs, RunTokens(bd, zzs, ns), open[..m], open[m], ns + Repeat(n, m), n);
    }
  }

  lemma RepeatSnoc(ns: seq<nat>, n: nat, m: nat)
    ensures ns + Repeat(n, m) + [n] == ns + Repeat(n, m + 1)
  {
  }

  // ---- What an encoder keeps track of

  const MAX_CORR_BITS := 1000

  /** Blocks that are done with the counts of their ends of block, and blocks of the pending run. */
  datatype Progress = Progress(done: seq<seq<int>>, ns: seq<nat>, open: seq<seq<int>>)

  /** (folded) */
  ghost predicate Sound(bd: BandScan, p: Progress) {
    forall k: nat {:trigger Unfolded(SoundRuns, k)} :: Unfolded(SoundRuns, k) ==>
      && GoodRuns(bd, p.done, p.ns) && RunAfter(bd, p.done, p.ns) == 0 && RunsAreSilent(bd, p.done, p.ns)
      && OpenRun(bd, p.open)
  }

  /** The tokens that are out. */
  ghost function Put(bd: BandScan, p: Progress): seq<Token> {
    if GoodRuns(bd, p.done, p.ns)
      && OpenRun(bd, p.open) then RunTokens(bd, p.done, p.ns) + OpenCoded(bd, p.open) else []
  }

  /** The correction bits that wait for the end of the pending run. */
  ghost function Held(bd: BandScan, p: Progress): Bits {
    if OpenRun(bd, p.open) then OpenBits(bd, p.open) else []
  }

  /** Neither the counter nor the bit buffer would be safe during another block. */
  ghost predicate Overfull(bd: BandScan, p: Progress) {
    |p.open| == MAX_EOBRUN || |Held(bd, p)| > MAX_CORR_BITS - DCTSIZE2 + 1
  }

  /** What goes out when the pending run does. */
  ghost function RunOut(bd: BandScan, p: Progress): seq<Token> {
    if 0 < |p.open| <= MAX_EOBRUN then EobTokens(bd.tbl, |p.open|) + BitTokens(Held(bd, p)) else []
  }

  function Flushed(p: Progress): Progress {
    Progress(p.done + p.open, p.ns + Repeat(|p.open|, |p.open|), [])
  }

  /** The block joins the pending run, or is done if it ends with a symbol. */
  function Joined(bd: BandScan, p: Progress, zz: seq<int>): Progress
    requires GoodBand(bd, zz)
  {
    if HasEob(bd, zz) then Progress(p.done, p.ns, p.open + [zz]) else Progress(p.done + [zz], p.ns + [1], [])
  }

  lemma Start(bd: BandScan)
    ensures Sound(bd, Progress([], [], [])) && Put(bd, Progress([], [], [])) == []
            && Held(bd, Progress([], [], [])) == []
  {
  }

  /** Flushing completes the blocks of the pending run. */
  lemma Flushes(bd: BandScan, p: Progress)
    requires Sound(bd, p)
    ensures Sound(bd, Flushed(p)) && Put(bd, Flushed(p)) == Put(bd, p) + RunOut(bd, p)
    ensures Held(bd, Flushed(p)) == [] && !Overfull(bd, Flushed(p)) && (p.open == [] ==> Flushed(p) == p)
  {
    assert Unfolded(SoundRuns, 0);
    if p.open == [] {
      assert p.done + p.open == p.done && p.ns + Repeat(0, 0) == p.ns;
      assert Put(bd, p) + [] == Put(bd, p);
    } else {
      CloseRun(bd, p.done, p.ns, p.open, |p.open|);
      assert Put(bd, Flushed(p)) + [] == Put(bd, Flushed(p));
    }
  }

  /** A block that may join does, with its symbols in front. */
  lemma Joins(bd: BandScan, p: Progress, zz: seq<int>)
    requires Sound(bd, p) && FitBand(bd, zz) && |p.open| < MAX_EOBRUN && (p.open != [] ==> Silent(bd, zz))
    ensures Sound(bd, Joined(bd, p, zz)) && Put(bd, Joined(bd, p, zz)) == Put(bd, p) + Coded(bd, zz)
    ensures Held(bd, Joined(bd, p, zz)) == if HasEob(bd, zz) then Held(bd, p) + TailBits(bd, zz) else []
    ensures !HasEob(bd, zz) ==> p.open == []
  {
    assert Unfolded(SoundRuns, 0);
    CodedIsSymbols(bd, zz);
    if HasEob(bd, zz) {
      var open := p.open + [zz];
      assert open[..|p.open|] == p.open;
      assert OpenRun(bd, open);
      Nils(RunTokens(bd, p.done, p.ns), OpenCoded(bd, p.open), Coded(bd, zz));
    } else {
      RunSnoc(bd, p.done, p.ns, zz, 1);
      Nils(RunTokens(bd, p.done, p.ns), [], Coded(bd, zz));
    }
  }

  lemma Nils<T>(t: seq<T>, c: seq<T>, d: seq<T>)
    ensures t + [] + d == t + (d + []) == t + d + [] == t + d && t + c + [] == t + c
  {
    assert t + [] == t && d + [] == d && t + d + [] == t + d && t + c + [] == t + c;
  }

  // ---- The encoder's policy: when runs go out

  /** After a block: a symbol pushes the pending run out, and so does the danger of an overflow. */
  ghost function Step(bd: BandScan, p: Progress, zz: seq<int>): Progress
    requires GoodBand(bd, zz)
  {
    var q := Joined(bd, if Silent(bd, zz) then p else Flushed(p), zz);
    if Overfull(bd, q) then Flushed(q) else q
  }

  /** What is put out for a block before its end is counted. */
  ghost function BlockOut(bd: BandScan, p: Progress, zz: seq<int>): seq<Token>
    requires FitBand(bd, zz)
  {
    (if Silent(bd, zz) then [] else RunOut(bd, p)) + Coded(bd, zz)
  }

  ghost function OverflowOut(bd: BandScan, q: Progress): seq<Token> {
    if Overfull(bd, q) then RunOut(bd, q) else []
  }

  ghost function StepOut(bd: BandScan, p: Progress, zz: seq<int>): seq<Token>
    requires FitBand(bd, zz)
  {
    BlockOut(bd, p, zz) + OverflowOut(bd, Joined(bd, if Silent(bd, zz) then p else Flushed(p), zz))
  }

  lemma Steps(bd: BandScan, p: Progress, zz: seq<int>)
    requires Sound(bd, p) && !Overfull(bd, p) && |p.open| <= MAX_EOBRUN && FitBand(bd, zz)
    ensures Sound(bd, Step(bd, p, zz)) && !Overfull(bd, Step(bd, p, zz)) && |Step(bd, p, zz).open| <= MAX_EOBRUN
    ensures Put(bd, Step(bd, p, zz)) == Put(bd, p) + StepOut(bd, p, zz)
    ensures Step(bd, p, zz).done + Step(bd, p, zz).open == p.done + p.open + [zz]
  {
    var q := if Silent(bd, zz) then p else Flushed(p);
    Pushes(bd, p, zz, q);
    var r := Joined(bd, q, zz);
    Joins(bd, q, zz);
    JoinedSize(bd, q, zz);
    Overflows(bd, r);
    Assoc(Put(bd, q), Coded(bd, zz), OverflowOut(bd, r));
    Assoc(Put(bd, p), if Silent(bd, zz) then [] else RunOut(bd, p), Coded(bd, zz));
    Assoc(Put(bd, p), BlockOut(bd, p, zz), OverflowOut(bd, r));
    JoinedBands(bd, p, zz);
  }

  lemma Pushes(bd: BandScan, p: Progress, zz: seq<int>, q: Progress)
    requires Sound(bd, p) && !Overfull(bd, p) && |p.open| <= MAX_EOBRUN && GoodBand(bd, zz)
    requires q == if Silent(bd, zz) then p else Flushed(p)
    ensures Sound(bd, q) && |q.open| < MAX_EOBRUN && (q.open != [] ==> Silent(bd, zz))
    ensures Put(bd, q) == Put(bd, p) + if Silent(bd, zz) then [] else RunOut(bd, p)
  {
    Flushes(bd, p);
    assert Put(bd, p) + [] == Put(bd, p);
  }

  lemma JoinedSize(bd: BandScan, q: Progress, zz: seq<int>)
    requires GoodBand(bd, zz) && |q.open| < MAX_EOBRUN
    ensures |Joined(bd, q, zz).open| <= MAX_EOBRUN
  {
  }

  lemma Overflows(bd: BandScan, r: Progress)
    requires Sound(bd, r) && |r.open| <= MAX_EOBRUN
    ensures var s := if Overfull(bd, r) then Flushed(r) else r;
            Sound(bd, s) && !Overfull(bd, s) && |s.open| <= MAX_EOBRUN && Put(bd, s) == Put(bd, r) + OverflowOut(bd, r)
  {
    Flushes(bd, r);
    assert Put(bd, r) + [] == Put(bd, r);
  }

  lemma JoinedBands(bd: BandScan, p: Progress, zz: seq<int>)
    requires GoodBand(bd, zz) && (!HasEob(bd, zz) ==> !Silent(bd, zz))
    ensures Step(bd, p, zz).done + Step(bd, p, zz).open == p.done + p.open + [zz]
  {
    var q := if Silent(bd, zz) then p else Flushed(p);
    assert q.done + q.open == p.done + p.open;
    assert q.done + (q.open + [zz]) == q.done + q.open + [zz];
    var r := Joined(bd, q, zz);
    assert r.done + r.open == p.done + p.open + [zz];
    assert r.done + r.open + [] == r.done + r.open;
  }

  ghost predicate AllFit(bd: BandScan, zzs: seq<seq<int>>) {
    forall i :: 0 <= i < |zzs| ==> FitBand(bd, zzs[i])
  }

  /** The encoder's state behind the blocks of a scan: a function of the blocks alone. */
  ghost function ProgressOf(bd: BandScan, zzs: seq<seq<int>>): Progress
    requires AllFit(bd, zzs)
  {
    if zzs == [] then Progress([], [], [])
    else Step(bd, ProgressOf(bd, zzs[..|zzs| - 1]), zzs[|zzs| - 1])
  }

  /** All tokens of a scan. */
  ghost function ScanTokens(bd: BandScan, zzs: seq<seq<int>>): seq<Token>
    requires AllFit(bd, zzs)
  {
    Put(bd, Flushed(ProgressOf(bd, zzs)))
  }

  lemma {:induction false} ProgressIsSound(bd: BandScan, zzs: seq<seq<int>>)
    requires AllFit(bd, zzs)
    ensures var p := ProgressOf(bd, zzs);
            Sound(bd, p) && !Overfull(bd, p) && |p.open| <= MAX_EOBRUN && p.done + p.open == zzs
  {
    if zzs == [] {
      Start(bd);
    } else {
      var m := |zzs| - 1;
      ProgressIsSound(bd, zzs[..m]);
      Steps(bd, ProgressOf(bd, zzs[..m]), zzs[m]);
      TakeSnoc(zzs, m);
      assert zzs[..m + 1] == zzs;
    }
  }

  lemma ProgressSnoc(bd: BandScan, zzs: seq<seq<int>>, zz: seq<int>)
    requires AllFit(bd, zzs) && FitBand(bd, zz)
    ensures AllFit(bd, zzs + [zz]) && ProgressOf(bd, zzs + [zz]) == Step(bd, ProgressOf(bd, zzs), zz)
  {
    assert (zzs + [zz])[..|zzs|] == zzs;
  }

  lemma OneMoreGrows(bd: BandScan, zzs: seq<seq<int>>, zz: seq<int>)
    requires AllFit(bd, zzs) && FitBand(bd, zz)
    ensures AllFit(bd, zzs + [zz]) && Put(bd, ProgressOf(bd, zzs)) <= Put(bd, ProgressOf(bd, zzs + [zz]))
  {
    ProgressIsSound(bd, zzs);
    ProgressSnoc(bd, zzs, zz);
    Steps(bd, ProgressOf(bd, zzs), zz);
  }

  /** The tokens of the first blocks come first. */
  lemma {:induction false} ScanTokensGrow(bd: BandScan, zzs: seq<seq<int>>, i: nat)
    requires AllFit(bd, zzs) && i <= |zzs|
    ensures AllFit(bd, zzs[..i]) && Put(bd, ProgressOf(bd, zzs[..i])) <= Put(bd, ProgressOf(bd, zzs))
    decreases |zzs| - i
  {
    if i < |zzs| {
      ScanTokensGrow(bd, zzs, i + 1);
      TakeSnoc(zzs, i);
      OneMoreGrows(bd, zzs[..i], zzs[i]);
    } else {
      assert zzs[..i] == zzs;
    }
  }

  lemma LacksFront(ts: Tables, a: seq<Token>, b: seq<Token>)
    requires Lacks(ts, a) && a <= b
    ensures Lacks(ts, b)
  {
    LacksInside(ts, [], a, b[|a|..]);
    assert a + b[|a|..] == b;
  }

  lemma EndIsInScan(bd: BandScan, zzs: seq<seq<int>>, ts: Tables)
    requires AllFit(bd, zzs)
    requires Lacks(ts, Put(bd, ProgressOf(bd, zzs))) || Lacks(ts, RunOut(bd, ProgressOf(bd, zzs)))
    ensures Lacks(ts, ScanTokens(bd, zzs))
  {
    var p := ProgressOf(bd, zzs);
    ProgressIsSound(bd, zzs);
    Flushes(bd, p);
    if Lacks(ts, RunOut(bd, p)) {
      LacksInside(ts, Put(bd, p), RunOut(bd, p), []);
    } else {
      LacksInside(ts, [], Put(bd, p), RunOut(bd, p));
    }
  }

  /** A symbol of the i-th block that has no code is one of the scan's symbols. */
  lemma StepIsInScan(bd: BandScan, zzs: seq<seq<int>>, i: nat, ts: Tables)
    requires AllFit(bd, zzs) && i < |zzs| && AllFit(bd, zzs[..i])
             && Lacks(ts, StepOut(bd, ProgressOf(bd, zzs[..i]), zzs[i]))
    ensures Lacks(ts, ScanTokens(bd, zzs))
  {
    var p, out := ProgressOf(bd, zzs[..i]), StepOut(bd, ProgressOf(bd, zzs[..i]), zzs[i]);
    TakeSnoc(zzs, i);
    ProgressIsSound(bd, zzs[..i]);
    ProgressSnoc(bd, zzs[..i], zzs[i]);
    Steps(bd, p, zzs[i]);
    LacksInside(ts, Put(bd, p), out, []);
    ScanTokensGrow(bd, zzs, i + 1);
    LacksFront(ts, Put(bd, ProgressOf(bd, zzs[..i + 1])), Put(bd, ProgressOf(bd, zzs)));
    EndIsInScan(bd, zzs, ts);
  }

  /** A block that is not silent has symbols. */
  lemma CodedIsSymbols(bd: BandScan, zz: seq<int>)
    requires FitBand(bd, zz)
    ensures Coded(bd, zz) == [] <==> Silent(bd, zz)
    ensures !HasEob(bd, zz) ==> !Silent(bd, zz)
  {
    var e := BandEnd(bd, zz);
    if e >= bd.ss {
      if bd.refine {
        RefineFirstSymbol(bd.tbl, zz, e, bd.ss, 0, []);
      } else {
        AcFirstSymbol(bd.tbl, zz, e, bd.ss, 0);
      }
    }
  }

  // ---- What a decoder meets

  /** The tokens of the bands from the i-th on, when `before` ends of block are pending. */
  ghost function TokensFrom(bd: BandScan, zzs: seq<seq<int>>, ns: seq<nat>, i: nat, before: nat): seq<Token>
    requires GoodRuns(bd, zzs, ns)
    decreases |zzs| - i
  {
    if i >= |zzs| then []
    else Parcel(bd, zzs[i], before, ns[i]) + TokensFrom(bd, zzs, ns, i + 1, After(bd, zzs[i], before, ns[i]))
  }

  lemma RunStep(bd: BandScan, zzs: seq<seq<int>>, ns: seq<nat>, i: nat)
    requires GoodRuns(bd, zzs, ns) && i < |zzs|
    ensures GoodRuns(bd, zzs[..i], ns[..i]) && GoodRuns(bd, zzs[..i + 1], ns[..i + 1])
    ensures RunAfter(bd, zzs[..i + 1], ns[..i + 1]) == After(bd, zzs[i], RunAfter(bd, zzs[..i], ns[..i]), ns[i])
    ensures RunTokens(bd, zzs[..i + 1], ns[..i + 1])
            == RunTokens(bd, zzs[..i], ns[..i]) + Parcel(bd, zzs[i], RunAfter(bd, zzs[..i], ns[..i]), ns[i])
    ensures RunsAreSilent(bd, zzs[..i + 1], ns[..i + 1]) ==>
              RunAfter(bd, zzs[..i], ns[..i]) > 0 ==> Silent(bd, zzs[i])
  {
    TakeSnoc(zzs, i);
    TakeSnoc(ns, i);
    RunSnoc(bd, zzs[..i], ns[..i], zzs[i], ns[i]);
  }

  /** All tokens are those of the first i bands and those from there on. */
  lemma {:induction false} RunsSplit(bd: BandScan, zzs: seq<seq<int>>, ns: seq<nat>, i: nat)
    requires GoodRuns(bd, zzs, ns) && i <= |zzs|
    ensures GoodRuns(bd, zzs[..i], ns[..i])
    ensures RunTokens(bd, zzs[..i], ns[..i]) + TokensFrom(bd, zzs, ns, i, RunAfter(bd, zzs[..i], ns[..i]))
            == RunTokens(bd, zzs, ns)
    decreases |zzs| - i
  {
    if i == |zzs| {
      assert zzs[..i] == zzs && ns[..i] == ns;
    } else {
      RunStep(bd, zzs, ns, i);
      RunsSplit(bd, zzs, ns, i + 1);
      var before := RunAfter(bd, zzs[..i], ns[..i]);
      Assoc(RunTokens(bd, zzs[..i], ns[..i]), Parcel(bd, zzs[i], before, ns[i]),
            TokensFrom(bd, zzs, ns, i + 1, After(bd, zzs[i], before, ns[i])));
    }
  }

  lemma {:induction false} SilentPrefix(bd: BandScan, zzs: seq<seq<int>>, ns: seq<nat>, i: nat)
    requires GoodRuns(bd, zzs, ns) && RunsAreSilent(bd, zzs, ns) && i <= |zzs|
    ensures GoodRuns(bd, zzs[..i], ns[..i]) && RunsAreSilent(bd, zzs[..i], ns[..i])
    decreases |zzs|
  {
    if i < |zzs| {
      var m := |zzs| - 1;
      SilentPrefix(bd, zzs[..m], ns[..m], i);
      assert zzs[..m][..i] == zzs[..i] && ns[..m][..i] == ns[..i];
    } else {
      assert zzs[..i] == zzs && ns[..i] == ns;
    }
  }

  /** The i-th of complete bands: what it contributes, and what it is allowed to. (folded) */
  ghost predicate InRuns(bd: BandScan, zzs: seq<seq<int>>, ns: seq<nat>, i: nat, before: nat) {
    forall k: nat {:trigger Unfolded(RunPlace, k)} :: Unfolded(RunPlace, k) ==>
      && GoodRuns(bd, zzs, ns) && RunsAreSilent(bd, zzs, ns) && RunAfter(bd, zzs, ns) == 0 && i <= |zzs|
      && GoodRuns(bd, zzs[..i], ns[..i]) && before == RunAfter(bd, zzs[..i], ns[..i])
  }

  /** The counts the encoder gives the ends of block. */
  ghost function EobCounts(bd: BandScan, zzs: seq<seq<int>>): seq<nat>
    requires AllFit(bd, zzs)
  {
    Flushed(ProgressOf(bd, zzs)).ns
  }

  lemma RunsBegin(bd: BandScan, zzs: seq<seq<int>>)
    requires AllFit(bd, zzs)
    ensures InRuns(bd, zzs, EobCounts(bd, zzs), 0, 0)
    ensures ScanTokens(bd, zzs) == FromHere(bd, zzs, EobCounts(bd, zzs), 0, 0)
  {
    var ns := EobCounts(bd, zzs);
    ProgressIsSound(bd, zzs);
    Flushes(bd, ProgressOf(bd, zzs));
    assert Unfolded(SoundRuns, 0);
    assert zzs[..0] == [] && ns[..0] == [];
    RunsSplit(bd, zzs, ns, 0);
    assert [] + TokensFrom(bd, zzs, ns, 0, 0) == TokensFrom(bd, zzs, ns, 0, 0);
    assert RunTokens(bd, zzs, ns) + [] == RunTokens(bd, zzs, ns);
  }

  ghost function FromHere(bd: BandScan, zzs: seq<seq<int>>, ns: seq<nat>, i: nat, before: nat): seq<Token> {
    if GoodRuns(bd, zzs, ns) then TokensFrom(bd, zzs, ns, i, before) else []
  }

  lemma RunsGoOn(bd: BandScan, zzs: seq<seq<int>>, ns: seq<nat>, i: nat, before: nat)
    requires InRuns(bd, zzs, ns, i, before) && i < |zzs|
    ensures |ns| == |zzs| && FitBand(bd, zzs[i]) && 0 < ns[i] <= MAX_EOBRUN && (before > 0 ==> Silent(bd, zzs[i]))
    ensures InRuns(bd, zzs, ns, i + 1, After(bd, zzs[i], before, ns[i]))
    ensures FromHere(bd, zzs, ns, i, before)
            == Parcel(bd, zzs[i], before, ns[i]) + FromHere(bd, zzs, ns, i + 1, After(bd, zzs[i], before, ns[i]))
  {
    assert Unfolded(RunPlace, 0);
    RunStep(bd, zzs, ns, i);
    SilentPrefix(bd, zzs, ns, i + 1);
  }

  lemma RunsEnd(bd: BandScan, zzs: seq<seq<int>>, ns: seq<nat>, before: nat)
    requires InRuns(bd, zzs, ns, |zzs|, before)
    ensures before == 0 && FromHere(bd, zzs, ns, |zzs|, before) == []
  {
    assert Unfolded(RunPlace, 0);
    assert zzs[..|zzs|] == zzs && ns[..|zzs|] == ns;
  }

  // ---- How few ends of block there are

  /** Blocks without symbols, whose correction bits before the last block leave room for those of another block. */
  ghost predicate FitsInRun(bd: BandScan, zzs: seq<seq<int>>) {
    && 0 < |zzs| <= 0x7FFF && AllFit(bd, zzs) && (forall i :: 0 <= i < |zzs| ==> Silent(bd, zzs[i]))
    && OpenRun(bd, zzs[..|zzs| - 1]) && |OpenBits(bd, zzs[..|zzs| - 1])| <= 937
  }

  lemma {:induction false} OpenBitsGrow(bd: BandScan, open: seq<seq<int>>, k: nat)
    requires OpenRun(bd, open) && k <= |open|
    ensures OpenRun(bd, open[..k]) && |OpenBits(bd, open[..k])| <= |OpenBits(bd, open)|
    decreases |open|
  {
    if k < |open| {
      var m := |open| - 1;
      OpenBitsGrow(bd, open[..m], k);
      assert open[..m][..k] == open[..k];
    } else {
      assert open[..k] == open;
    }
  }

  /** The run stays open. */
  lemma {:induction false} OpenWhileSilent(bd: BandScan, zzs: seq<seq<int>>)
    requires OpenRun(bd, zzs) && AllFit(bd, zzs) && |zzs| < 0x7FFF && |OpenBits(bd, zzs)| <= 937
    requires forall i :: 0 <= i < |zzs| ==> Silent(bd, zzs[i])
    ensures ProgressOf(bd, zzs) == Progress([], [], zzs)
    decreases |zzs|
  {
    if zzs != [] {
      var m := |zzs| - 1;
      OpenBitsGrow(bd, zzs, m);
      OpenWhileSilent(bd, zzs[..m]);
      TakeSnoc(zzs, m);
      assert zzs[..m + 1] == zzs;
    }
  }

  lemma FlushedTwice(p: Progress)
    ensures Flushed(Flushed(p)) == Flushed(p)
  {
    assert Flushed(p).done + [] == Flushed(p).done && Flushed(p).ns + Repeat(0, 0) == Flushed(p).ns;
  }

  lemma OnlyRun(bd: BandScan, zzs: seq<seq<int>>)
    requires OpenRun(bd, zzs) && 0 < |zzs| && Silent(bd, zzs[0])
    ensures Put(bd, Flushed(Progress([], [], zzs))) == EobTokens(bd.tbl, |zzs|) + BitTokens(OpenBits(bd, zzs))
  {
    var p := Progress([], [], zzs);
    Flushes(bd, p);
    CodedIsSymbols(bd, zzs[0]);
    assert Put(bd, p) == [] + [] == [];
    assert [] + RunOut(bd, p) == RunOut(bd, p);
  }

  lemma {:induction false} BitTokensAreRaw(bits: Bits)
    ensures forall i :: 0 <= i < |BitTokens(bits)| ==> BitTokens(bits)[i].Raw?
    decreases |bits|
  {
    if bits != [] {
      BitTokensAreRaw(bits[1..]);
    }
  }

  lemma OneSymbol(tbl: nat, n: nat, bits: Bits, ks: seq<Token>)
    requires 0 < n <= MAX_EOBRUN && ks == EobTokens(tbl, n) + BitTokens(bits)
    ensures forall i :: 0 <= i < |ks| ==> (ks[i].Sym? <==> i == 0)
  {
    BitTokensAreRaw(bits);
  }

  lemma SilentRunFlushed(bd: BandScan, zzs: seq<seq<int>>)
    requires FitsInRun(bd, zzs)
    ensures OpenRun(bd, zzs) && Flushed(ProgressOf(bd, zzs)) == Flushed(Progress([], [], zzs))
  {
    var m := |zzs| - 1;
    OpenWhileSilent(bd, zzs[..m]);
    TakeSnoc(zzs, m);
    assert zzs[..m + 1] == zzs;
    FlushedTwice(Progress([], [], zzs));
  }

  /** Up to 0x7FFF silent blocks make one end of block with their number, and their correction bits follow it. */
  lemma SilentRun(bd: BandScan, zzs: seq<seq<int>>)
    requires FitsInRun(bd, zzs)
    ensures OpenRun(bd, zzs)
    ensures ScanTokens(bd, zzs) == EobTokens(bd.tbl, |zzs|) + BitTokens(OpenBits(bd, zzs))
    ensures forall i :: 0 <= i < |ScanTokens(bd, zzs)| ==> (ScanTokens(bd, zzs)[i].Sym? <==> i == 0)
  {
    SilentRunFlushed(bd, zzs);
    OnlyRun(bd, zzs);
    OneSymbol(bd.tbl, |zzs|, OpenBits(bd, zzs), ScanTokens(bd, zzs));
  }

  /** And they are not held back when there are more: the buffer for correction bits has room for 1000. */
  lemma HeldIsSmall(bd: BandScan, zzs: seq<seq<int>>)
    requires AllFit(bd, zzs)
    ensures |Held(bd, ProgressOf(bd, zzs))| <= 937 && |ProgressOf(bd, zzs).open| < 0x7FFF
  {
    ProgressIsSound(bd, zzs);
  }
}
