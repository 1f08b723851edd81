/** Restart intervals: how their code segments and markers lie in the byte stream, for either entropy coder. */
module RestartLayout {
  import opened Numbers
  import opened Blocks
  import opened IntervalCoder
  import opened Markers

  /** One restart interval: its MCUs, how the coder ended, and the code segment. */
  datatype Segment<E> = Segment(mcus: seq<Mcu>, final: E, data: seq<Byte>)

  /** The number of the restart marker behind segment i. */
  function Number(i: nat): (n: nat)
    ensures n < 8
  {
    if i == 0 then 0 else Following(Number(i - 1))
  }

  function RestartMarker(i: nat): (m: Byte)
    ensures 0 < m < 0xFF
  {
    M_RST0 + Number(i)
  }

  /** The markers RST0 to RST7 take turns (table B.1). */
  lemma {:induction false} MarkersInTurn(i: nat)
    ensures Number(i) == i % 8 && RestartMarker(i) == 0xD0 + i % 8
  {
    if i > 0 {
      MarkersInTurn(i - 1);
    }
  }

  /** Escaped segments, each followed by its restart marker. */
  function Flat<E>(segs: seq<Segment<E>>): seq<Byte> {
    if segs == [] then []
    else Flat(segs[..|segs| - 1]) + Stuff(segs[|segs| - 1].data) + [0xFF, RestartMarker(|segs| - 1)]
  }

  function Mcus<E>(segs: seq<Segment<E>>): seq<Mcu> {
    if segs == [] then [] else Mcus(segs[..|segs| - 1]) + segs[|segs| - 1].mcus
  }

  lemma FlatSnoc<E>(base: seq<Byte>, segs: seq<Segment<E>>, s: Segment<E>)
    ensures base + Flat(segs + [s]) == base + Flat(segs) + Stuff(s.data) + [0xFF] + [RestartMarker(|segs|)]
    ensures base + Flat(segs + [s]) == base + Flat(segs) + Stuff(s.data) + [0xFF, RestartMarker(|segs|)]
    ensures Mcus(segs + [s]) == Mcus(segs) + s.mcus
  {
    assert (segs + [s])[..|segs|] == segs;
    var m := [0xFF, RestartMarker(|segs|)];
    Assoc(base, Flat(segs) + Stuff(s.data), m);
    Assoc(base, Flat(segs), Stuff(s.data));
    assert m == [0xFF] + [RestartMarker(|segs|)];
    Assoc(base + Flat(segs) + Stuff(s.data), [0xFF], [RestartMarker(|segs|)]);
  }

  /** Where the i-th segment starts, and the marker behind it. */
  function SegmentStart<E>(at: nat, segs: seq<Segment<E>>, i: nat): nat
    requires i <= |segs|
  {
    at + |Flat(segs[..i])|
  }

  function MarkerAfter<E>(segs: seq<Segment<E>>, m: Byte, i: nat): Byte {
    if i + 1 < |segs| then RestartMarker(i) else m
  }

  lemma {:induction false} FlatPrefix<E>(segs: seq<Segment<E>>, i: nat)
    requires i < |segs|
    ensures Flat(segs[..i]) + Stuff(segs[i].data) + [0xFF, RestartMarker(i)] == Flat(segs[..i + 1]) <= Flat(segs)
    decreases |segs|
  {
    var n := |segs| - 1;
    assert segs[..i + 1][..i] == segs[..i];
    if i < n {
      FlatPrefix(segs[..n], i);
      assert segs[..n][..i + 1] == segs[..i + 1];
    } else {
      assert segs[..i + 1] == segs;
    }
  }

  /** The bytes of segment i and its marker follow those of the segments before it. */
  lemma SegmentBytes<E>(segs: seq<Segment<E>>, i: nat, m: Byte, all: seq<Byte>)
    requires i < |segs| && all == Flat(segs[..|segs| - 1]) + Stuff(segs[|segs| - 1].data) + [0xFF, m]
    ensures Flat(segs[..i]) + (Stuff(segs[i].data) + [0xFF, MarkerAfter(segs, m, i)]) <= all
  {
    var n := |segs| - 1;
    Assoc(Flat(segs[..i]), Stuff(segs[i].data), [0xFF, MarkerAfter(segs, m, i)]);
    if i < n {
      FlatPrefix(segs[..n], i);
      assert segs[..n][..i] == segs[..i];
      Assoc(Flat(segs[..n]), Stuff(segs[n].data), [0xFF, m]);
    }
  }

  lemma NextStart<E>(at: nat, segs: seq<Segment<E>>, i: nat)
    requires i < |segs|
    ensures SegmentStart(at, segs, i + 1) == SegmentStart(at, segs, i) + |Stuff(segs[i].data)| + 2
  {
    FlatPrefix(segs, i);
  }

  lemma {:induction false} McuIndex<E>(segs: seq<Segment<E>>, i: nat, j: nat)
    requires i < |segs| && j < |segs[i].mcus|
    ensures |Mcus(segs[..i])| + j < |Mcus(segs)|
    ensures Mcus(segs)[|Mcus(segs[..i])| + j] == segs[i].mcus[j]
    decreases |segs|
  {
    var n := |segs| - 1;
    if i < n {
      McuIndex(segs[..n], i, j);
      assert segs[..n][..i] == segs[..i];
    }
  }

  lemma McusStep<E>(segs: seq<Segment<E>>, i: nat)
    requires i < |segs|
    ensures |Mcus(segs[..i + 1])| == |Mcus(segs[..i])| + |segs[i].mcus|
  {
    assert segs[..i + 1][..i] == segs[..i];
  }

  lemma {:induction false} McusPrefix<E>(segs: seq<Segment<E>>, i: nat)
    requires i <= |segs|
    ensures Mcus(segs[..i]) <= Mcus(segs)
    decreases |segs|
  {
    if i < |segs| {
      var init := segs[..|segs| - 1];
      assert init[..i] == segs[..i];
      McusPrefix(init, i);
    } else {
      assert segs[..i] == segs;
    }
  }

  /** How many MCUs of its restart interval precede the k-th MCU of a scan. */
  function Since(interval: nat, k: nat): (j: nat)
    ensures j <= k
    decreases k
  {
    if interval == 0 || k < interval then k else Since(interval, k - interval)
  }

  lemma {:induction false} SinceWraps(interval: nat, k: nat)
    requires 0 < interval && 0 < k && Since(interval, k - 1) == interval - 1
    ensures Since(interval, k) == 0
  {
    if k > interval {
      SinceWraps(interval, k - interval);
    }
  }

  /** Behind full intervals the j-th MCU of the next one has j of its interval in front of it. */
  lemma {:induction false} McuSince<E>(interval: nat, segs: seq<Segment<E>>, j: nat)
    requires forall i :: 0 <= i < |segs| ==> |segs[i].mcus| == interval
    requires (interval == 0 ==> segs == []) && (interval != 0 ==> j < interval)
    ensures Since(interval, |Mcus(segs)| + j) == j
    decreases |segs|
  {
    if segs != [] {
      McuSince(interval, segs[..|segs| - 1], j);
    }
  }

  /** The MCUs of the interval that is not full yet are those since its start. */
  lemma SinceStart<E>(interval: nat, segs: seq<Segment<E>>, open: seq<Mcu>, mcus: seq<Mcu>, k: nat)
    requires forall i :: 0 <= i < |segs| ==> |segs[i].mcus| == interval
    requires (interval == 0 ==> segs == []) && (interval != 0 ==> |open| < interval)
    requires k <= |mcus| && Mcus(segs) + open == mcus[..k]
    ensures Since(interval, k) == |open| && mcus[k - |open|..k] == open
  {
    McuSince(interval, segs, |open|);
    assert mcus[..k][|Mcus(segs)|..] == mcus[|Mcus(segs)|..k];
  }
}
