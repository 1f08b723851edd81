/** The passes of a compression: what is gathered and written, and in which order. */
module PassMaster {
  import opened ScanScript

  datatype PassType = MainPass | HuffOptPass | OutputPass

  /** What a pass leaves behind it: headers, the statistics of a scan or its data. */
  datatype Event = FrameHeader | ScanHeader(s: Scan) | Statistics(s: Scan) | Data(s: Scan)

  /** Huffman-coded DC refinement scans are sent without a table. */
  predicate NeedsTable(s: Scan) {
    s.ss != 0 || s.ah == 0
  }

  /** Tables are optimised, or coefficients are there already. */
  datatype Job = Job(scans: seq<Scan>, optimize: bool, transcode: bool)

  /** The first pass of a normal compression gathers whatever the scan is. */
  predicate Gathers(t: Job, i: nat)
    requires i < |t.scans|
  {
    t.optimize && (NeedsTable(t.scans[i]) || (i == 0 && !t.transcode))
  }

  function Gathered(t: Job, i: nat): seq<Event>
    requires i < |t.scans|
  {
    if Gathers(t, i) then [Statistics(t.scans[i])] else []
  }

  /** The headers and the data of scan i. */
  function Sent(t: Job, i: nat): seq<Event>
    requires i < |t.scans|
  {
    (if i == 0 then [FrameHeader] else []) + [ScanHeader(t.scans[i]), Data(t.scans[i])]
  }

  /** Everything there is behind the first n scans. */
  function Written(t: Job, n: nat): seq<Event>
    requires n <= |t.scans|
  {
    if n == 0 then [] else Written(t, n - 1) + Gathered(t, n - 1) + Sent(t, n - 1)
  }

  // ---- What that means

  /** The scans of the headers in a log. */
  function Headers(log: seq<Event>): seq<Scan> {
    if log == [] then []
    else Headers(log[..|log| - 1]) + if log[|log| - 1].ScanHeader? then [log[|log| - 1].s] else []
  }

  lemma {:induction false} HeadersConcat(a: seq<Event>, b: seq<Event>)
    ensures Headers(a + b) == Headers(a) + Headers(b)
    decreases |b|
  {
    if b == [] {
      assert a + b == a && Headers(a) + [] == Headers(a);
    } else {
      var m := |b| - 1;
      HeadersConcat(a, b[..m]);
      assert (a + b)[..|a + b| - 1] == a + b[..m];
    }
  }

  lemma HeadersOfScan(t: Job, i: nat)
    requires i < |t.scans|
    ensures Headers(Gathered(t, i)) == [] && Headers(Sent(t, i)) == [t.scans[i]]
  {
    var s := t.scans[i];
    if Gathers(t, i) {
      assert [Statistics(s)][..0] == [];
    }
    var two := [ScanHeader(s), Data(s)];
    assert two[..1] == [ScanHeader(s)] && two[..1][..0] == [];
    assert [FrameHeader][..0] == [];
    HeadersConcat(if i == 0 then [FrameHeader] else [], two);
  }

  lemma HeadersOfThree(a: seq<Event>, g: seq<Event>, b: seq<Event>)
    ensures Headers(a + g + b) == Headers(a) + Headers(g) + Headers(b)
  {
    HeadersConcat(a, g);
    HeadersConcat(a + g, b);
  }

  /** Each scan of the script is sent exactly once, in order. */
  lemma {:induction false} ScansAreSentInOrder(t: Job, n: nat)
    requires n <= |t.scans|
    ensures Headers(Written(t, n)) == t.scans[..n]
    decreases n
  {
    if n > 0 {
      var m := n - 1;
      ScansAreSentInOrder(t, m);
      HeadersOfScan(t, m);
      HeadersOfThree(Written(t, m), Gathered(t, m), Sent(t, m));
      assert t.scans[..m] + [] + [t.scans[m]] == t.scans[..n];
    }
  }

  /** Data follow their own header, and nothing is sent before the one frame header. */
  ghost predicate WellFormed(log: seq<Event>) {
    && (forall j :: 0 <= j < |log| && log[j].Data? ==> j > 0 && log[j - 1] == ScanHeader(log[j].s))
    && (forall j, k :: 0 <= j < |log| && 0 <= k < |log| && log[j].FrameHeader? && !log[k].Statistics? ==> j <= k)
  }

  lemma FirstIsWellFormed(t: Job)
    requires t.scans != []
    ensures WellFormed(Gathered(t, 0) + Sent(t, 0)) && FrameHeader in Gathered(t, 0) + Sent(t, 0)
  {
    var g := Gathered(t, 0);
    assert (g + Sent(t, 0))[|g|] == FrameHeader;
  }

  lemma StaysWellFormed(t: Job, i: nat, before: seq<Event>)
    requires 0 < i < |t.scans| && WellFormed(before) && FrameHeader in before
    ensures WellFormed(before + (Gathered(t, i) + Sent(t, i))) && FrameHeader in before + (Gathered(t, i) + Sent(t, i))
  {
    var scan := Gathered(t, i) + Sent(t, i);
    assert forall j :: 0 <= j < |scan| ==> !scan[j].FrameHeader?;
    assert forall j :: 0 <= j < |scan| && scan[j].Data? ==> j > 0 && scan[j - 1] == ScanHeader(scan[j].s);
  }

  lemma {:induction false} WrittenIsWellFormed(t: Job, n: nat)
    requires n <= |t.scans|
    ensures WellFormed(Written(t, n))
    ensures n > 0 ==> FrameHeader in Written(t, n)
    decreases n
  {
    if n == 1 {
      FirstIsWellFormed(t);
      assert Written(t, 1) == [] + Gathered(t, 0) + Sent(t, 0) == Gathered(t, 0) + Sent(t, 0);
    } else if n > 1 {
      var m := n - 1;
      WrittenIsWellFormed(t, m);
      StaysWellFormed(t, m, Written(t, m));
      assert Written(t, m) + Gathered(t, m) + Sent(t, m) == Written(t, m) + (Gathered(t, m) + Sent(t, m));
    }
  }

  /** Statistics in front of the header of their scan. */
  predicate InFrontOf(log: seq<Event>, q: int, j: int) {
    && 0 <= q < j < |log| && log[j].ScanHeader? && log[q] == Statistics(log[j].s)
    && (j == q + 1 || (j == q + 2 && log[q + 1].FrameHeader?))
  }

  /** Statistics come between the data of one scan and the header of the next, whose they are; q is in such a place. */
  ghost predicate InPlace(log: seq<Event>, q: nat) {
    q < |log| && (q == 0 || log[q - 1].Data?) && exists j :: InFrontOf(log, q, j)
  }

  /**
   * With optimised tables every scan that sends symbols has statistics of its own, and another only if it is the
   * first of a normal compression; otherwise there are none.
   */
  ghost predicate WellGathered(log: seq<Event>, t: Job) {
    && (forall q :: 0 <= q < |log| && log[q].Statistics? ==>
          && t.optimize && InPlace(log, q)
          && (log[q].s.ss != 0 || log[q].s.ah == 0 || (q == 0 && !t.transcode)))
    && (forall j :: 0 <= j < |log| && log[j].ScanHeader? && t.optimize && (log[j].s.ss != 0 || log[j].s.ah == 0) ==>
          exists q :: InFrontOf(log, q, j))
  }

  lemma MoreIsGathered(t: Job, i: nat, before: seq<Event>, scan: seq<Event>)
    requires i < |t.scans| && scan == Gathered(t, i) + Sent(t, i) && (i == 0 <==> before == [])
    requires WellGathered(before, t) && (before != [] ==> before[|before| - 1].Data?)
    ensures WellGathered(before + scan, t) && (before + scan)[|before + scan| - 1].Data?
  {
    var log, m := before + scan, |before|;
    var h := |log| - 2;
    assert log[h] == ScanHeader(t.scans[i]);
    if Gathers(t, i) {
      assert InFrontOf(log, m, h);
    }
    forall q | 0 <= q < |log| && log[q].Statistics? ensures InPlace(log, q) {
      if q < m {
        assert InPlace(before, q);
        var j :| InFrontOf(before, q, j);
        assert InFrontOf(log, q, j);
      }
    }
    forall j | 0 <= j < |log| && log[j].ScanHeader? && t.optimize && (log[j].s.ss != 0 || log[j].s.ah == 0)
      ensures exists q :: InFrontOf(log, q, j)
    {
      if j < m {
        var q :| InFrontOf(before, q, j);
        assert InFrontOf(log, q, j);
      }
    }
  }

  lemma {:induction false} WrittenIsGathered(t: Job, n: nat)
    requires n <= |t.scans|
    ensures WellGathered(Written(t, n), t) && (n == 0 <==> Written(t, n) == [])
    ensures n > 0 ==> Written(t, n)[|Written(t, n)| - 1].Data?
    decreases n
  {
    if n > 0 {
      var m := n - 1;
      WrittenIsGathered(t, m);
      MoreIsGathered(t, m, Written(t, m), Gathered(t, m) + Sent(t, m));
      assert Written(t, m) + Gathered(t, m) + Sent(t, m) == Written(t, m) + (Gathered(t, m) + Sent(t, m));
    }
  }

  // ---- The pass machine

  class CompMaster {
    const job: Job
    const totalPasses: nat
    var passType: PassType
    var scanNumber: nat
    var passNumber: nat
    var isLastPass: bool
    var callPassStartup: bool
    var current: Scan         // the parameters of the current scan
    var gathering: bool       // what the entropy encoder has been started for
    var log: seq<Event>

    predicate Fixed() {
      job.scans != [] && totalPasses == if job.optimize then 2 * |job.scans| else |job.scans|
    }

    /** Between passes: what comes next, and what has been written. */
    ghost predicate Between()
      reads this
    {
      && Fixed() && scanNumber <= |job.scans| && (passType.MainPass? ==> scanNumber == 0 && !job.transcode)
      && passNumber == (if job.optimize then 2 * scanNumber + (if passType.OutputPass? then 1 else 0) else scanNumber)
      && (if job.optimize && passType.OutputPass? then
            && scanNumber < |job.scans| && current == job.scans[scanNumber]
            && log == Written(job, scanNumber) + Gathered(job, scanNumber)
          else
            log == Written(job, scanNumber) && (passType.HuffOptPass? ==> job.optimize))
      && (passType.HuffOptPass? ==> scanNumber > 0 || job.transcode)
    }

    /** In a pass whose headers, if it has any, are out; what is still to come is what the pass is for. */
    ghost predicate Ready()
      reads this
    {
      && Fixed() && scanNumber < |job.scans| && current == job.scans[scanNumber] && (gathering ==> job.optimize)
      && passNumber == (if job.optimize then 2 * scanNumber + (if gathering then 0 else 1) else scanNumber)
      && isLastPass == (passNumber == totalPasses - 1)
      && if gathering then
           && !passType.OutputPass? && Gathers(job, scanNumber) && log == Written(job, scanNumber) && !callPassStartup
         else
           && !passType.HuffOptPass? && (passType.MainPass? ==> !job.optimize && scanNumber == 0)
           && log + (if callPassStartup then [FrameHeader, ScanHeader(current)] else []) + [Data(current)]
              == Written(job, scanNumber + 1)
           && (callPassStartup ==> scanNumber == 0)
    }

    /** jinit_c_master_control */
    constructor (t: Job)
      requires t.scans != []
      ensures Between() && job == t && !isLastPass && passNumber == 0
    {
      job := t;
      totalPasses := if t.optimize then 2 * |t.scans| else |t.scans|;
      passType := if !t.transcode then MainPass else if t.optimize then HuffOptPass else OutputPass;
      scanNumber, passNumber, isLastPass, callPassStartup := 0, 0, false, false;
      current, gathering, log := t.scans[0], false, [];
    }

    /** A data-output pass. */
    method PrepareOutput()
      requires Between() && passType.OutputPass? && scanNumber < |job.scans|
      modifies this`current, this`gathering, this`callPassStartup, this`isLastPass, this`log
      ensures Ready() && passType.OutputPass?
    {
      if !job.optimize {
        current := job.scans[scanNumber];
      }
      OutputCompletes(log, if scanNumber == 0 then [FrameHeader] else []);
      gathering := false;
      if scanNumber == 0 {
        log := log + [FrameHeader];
      }
      log := log + [ScanHeader(current)];
      callPassStartup := false;
      isLastPass := passNumber == totalPasses - 1;
    }

    lemma OutputCompletes(before: seq<Event>, frame: seq<Event>)
      requires scanNumber < |job.scans| && frame == if scanNumber == 0 then [FrameHeader] else []
      requires before == Written(job, scanNumber) + Gathered(job, scanNumber)
               || (before == Written(job, scanNumber) && !Gathers(job, scanNumber))
      ensures before + frame + [ScanHeader(job.scans[scanNumber])] + [Data(job.scans[scanNumber])] == Written(job,
                scanNumber + 1)
      ensures before + [] == before
    {
      var s := job.scans[scanNumber];
      assert [ScanHeader(s)] + [Data(s)] == [ScanHeader(s), Data(s)];
      assert Written(job, scanNumber) + [] == Written(job, scanNumber);
      assert before + frame + [ScanHeader(s)] + [Data(s)] == before + (frame + ([ScanHeader(s)] + [Data(s)]));
    }

    /** prepare_for_pass; a DC refinement scan needs no pass for statistics. */
    method PrepareForPass()
      requires Between() && scanNumber < |job.scans|
      modifies this
      ensures Ready() && passNumber <= old(passNumber) + 1 && old(passNumber) <= passNumber
    {
      if passType.MainPass? {
        current := job.scans[scanNumber];
        gathering := job.optimize;
        callPassStartup := !job.optimize;
        isLastPass := passNumber == totalPasses - 1;
        FirstScanCompletes();
      } else if passType.HuffOptPass? {
        current := job.scans[scanNumber];
        if current.ss != 0 || current.ah == 0 {
          gathering := true;
          callPassStartup := false;
          isLastPass := passNumber == totalPasses - 1;
        } else {
          passType := OutputPass;
          passNumber := passNumber + 1;
          assert log + Gathered(job, scanNumber) == log;
          PrepareOutput();
        }
      } else {
        PrepareOutput();
      }
    }

    lemma FirstScanCompletes()
      requires job.scans != []
      ensures !job.optimize ==> [] + [FrameHeader, ScanHeader(job.scans[0])] + [Data(job.scans[0])] == Written(job, 1)
    {
      var s := job.scans[0];
      assert Written(job, 1) == [] + Gathered(job, 0) + Sent(job, 0);
      assert Sent(job, 0) == [FrameHeader] + [ScanHeader(s), Data(s)] == [FrameHeader, ScanHeader(s)] + [Data(s)];
    }

    /** The data of a pass go through the entropy encoder; headers that were put off come first. */
    method RunPass()
      requires Ready()
      modifies this`callPassStartup, this`log
      ensures if gathering then Ready() && log == old(log)
              else !callPassStartup && log + [Data(current)] == Written(job, scanNumber + 1)
    {
      if callPassStartup {
        callPassStartup := false;
        log := log + [FrameHeader, ScanHeader(current)];
      } else {
        assert log + [] == log;
      }
    }

    /** finish_pass_master: the entropy encoder has its statistics, or the last of the data is out. */
    method FinishPass()
      requires Fixed() && scanNumber < |job.scans| && current == job.scans[scanNumber]
      requires passNumber == (if job.optimize then 2 * scanNumber + (if gathering then 0 else 1) else scanNumber)
      requires if gathering then !passType.OutputPass? && job.optimize && Gathers(job, scanNumber)
               && log == Written(job, scanNumber)
               else !passType.HuffOptPass? && (passType.MainPass? ==> !job.optimize && scanNumber == 0)
                    && log + [Data(current)] == Written(job, scanNumber + 1)
      modifies this`passType, this`scanNumber, this`passNumber, this`log
      ensures Between() && passNumber == old(passNumber) + 1
    {
      log := log + [if gathering then Statistics(current) else Data(current)];
      if passType.MainPass? {
        passType := OutputPass;
        if !job.optimize {
          scanNumber := scanNumber + 1;
        }
      } else if passType.HuffOptPass? {
        passType := OutputPass;
      } else {
        if job.optimize {
          passType := HuffOptPass;
        }
        scanNumber := scanNumber + 1;
      }
      passNumber := passNumber + 1;
    }

    method OnePass()
      requires Between() && passNumber < totalPasses
      modifies this
      ensures Between() && old(passNumber) < passNumber <= totalPasses && isLastPass == (passNumber == totalPasses)
    {
      PrepareForPass();
      RunPass();
      FinishPass();
    }

    /** jpeg_finish_compress, behind the first pass of a normal compression or at the beginning of a transcoding. */
    method FinishCompress()
      requires Between() && passNumber <= totalPasses && isLastPass == (passNumber == totalPasses)
      modifies this
      ensures passNumber == totalPasses && log == Written(job, |job.scans|)
    {
      while !isLastPass
        invariant Between() && passNumber <= totalPasses && isLastPass == (passNumber == totalPasses)
        decreases totalPasses - passNumber, !isLastPass
      {
        OnePass();
      }
    }
  }

  /**
   * A whole compression, or a transcoding: every scan of the script is sent exactly once and in order, its data
   * directly behind its own header; the one frame header comes before all of them; statistics are there for the scans
   * that need tables of their own, and in front of them; and the passes are over when their number says so, although
   * some of them are skipped.
   */
  method Compress(t: Job) returns (log: seq<Event>, passes: nat)
    requires t.scans != []
    ensures log == Written(t, |t.scans|) && Headers(log) == t.scans && WellFormed(log) && FrameHeader in log
    ensures WellGathered(log, t)
    ensures passes == |t.scans| * if t.optimize then 2 else 1
  {
    var m := new CompMaster(t);
    if !t.transcode {
      m.OnePass();
    }
    m.FinishCompress();
    log, passes := m.log, m.passNumber;
    ScansAreSentInOrder(t, |t.scans|);
    WrittenIsWellFormed(t, |t.scans|);
    WrittenIsGathered(t, |t.scans|);
    assert t.scans[..|t.scans|] == t.scans;
  }
}
