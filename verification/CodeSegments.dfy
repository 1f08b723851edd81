/** Which byte strings end a run, and what a decoder that has read only a prefix of one can tell. */
module CodeSegments {
  import opened Numbers
  import opened IntervalCoder

  lemma ShlMultiple(v: int, k: nat)
    ensures Shl(v * 0x8000, k) == Shl(v, k) * 0x8000
  {
    ShlShl(v, 15, k);
    ShlShl(v, k, 15);
    ShlFifteen(v);
    ShlFifteen(Shl(v, k));
  }

  lemma ShlFifteen(v: int)
    ensures Shl(v, 15) == v * 0x8000
  {
    ShlShl(v, 11, 4);
    ShlTable(v);
    ShlTwo(v * 0x800);
  }

  /** Trailing zero bytes do not change the fraction a byte string denotes. */
  lemma PointsTrim(d: seq<Byte>, j: nat, v: nat, bits: nat)
    ensures Points(d + Zeros(j), v, bits) <==> Points(d, v, bits)
  {
    ValConcat(d, Zeros(j));
    ValZeros(j);
    ShlShl(v, 8 * |d|, 8 * j);
    ShlShl(Val(d), 8 * j, bits);
    ShlShl(Val(d), bits, 8 * j);
    ShlOrder(Shl(v, 8 * |d|), Shl(Val(d), bits), 8 * j);
    assert 8 * |d + Zeros(j)| == 8 * |d| + 8 * j;
    assert 8 * j + bits == bits + 8 * j;
  }

  // ---- Nested intervals

  /** y lies inside x, compared at y's scale. */
  predicate Within(y: Interval, x: Interval) {
    && y.n >= x.n
    && Shl(x.low, y.n - x.n) <= y.low
    && y.low + y.a <= Shl(x.low + x.a, y.n - x.n)
  }

  lemma WithinTransitive(z: Interval, y: Interval, x: Interval)
    requires Within(z, y) && Within(y, x)
    ensures Within(z, x)
  {
    var e, f := y.n - x.n, z.n - y.n;
    ShlShl(x.low, e, f);
    ShlShl(x.low + x.a, e, f);
    ShlOrder(y.low, Shl(x.low, e), f);
    ShlOrder(Shl(x.low + x.a, e), y.low + y.a, f);
  }

  lemma {:induction false} RenormWithin(x: Interval)
    requires 0 < x.a <= 0x10000
    ensures Within(Renorm(x), x)
    decreases 0x8000 - x.a
  {
    if x.a < 0x8000 {
      RenormWithin(Double(x));
      assert 2 * (x.low + x.a) == 2 * x.low + 2 * x.a;
    }
  }

  lemma StepWithin(k: Coder, d: Decision)
    requires Normal(k.x)
    ensures Within(Step(k, d).x, Narrow(k.x, Lookup(k.stats, d.bin), d.bit))
    ensures Within(Step(k, d).x, k.x)
  {
    var y := Narrow(k.x, Lookup(k.stats, d.bin), d.bit);
    RenormWithin(y);
    WithinTransitive(Step(k, d).x, y, k.x);
  }

  lemma RunSnoc(ds: seq<Decision>, d: Decision)
    ensures Run(ds + [d]) == Step(Run(ds), d)
  {
    assert (ds + [d])[..|ds|] == ds;
  }

  lemma LastStepWithin(ds: seq<Decision>, d: Decision, y: Interval)
    requires Within(Run(ds).x, y)
    ensures Within(Run(ds + [d]).x, y)
  {
    RunSnoc(ds, d);
    StepWithin(Run(ds), d);
    WithinTransitive(Step(Run(ds), d).x, Run(ds).x, y);
  }

  lemma {:induction false} RunWithin(ds: seq<Decision>, rest: seq<Decision>, y: Interval)
    requires Within(Run(ds).x, y)
    ensures Within(Run(ds + rest).x, y)
    decreases |rest|
  {
    if rest == [] {
      assert ds + rest == ds;
    } else {
      LastStepWithin(ds, rest[0], y);
      RunWithin(ds + [rest[0]], rest[1..], y);
      HeadNext(ds, rest);
    }
  }

  /** k is the exact coder after ds (folded). */
  ghost predicate Coded(ds: seq<Decision>, k: Coder) {
    forall z: nat {:trigger Unfolded(RunOfCoder, z)} :: Unfolded(RunOfCoder, z) ==> k == Run(ds)
  }

  lemma CodedNothing()
    ensures Coded([], FRESH)
  {
  }

  lemma CodedRun(ds: seq<Decision>, k: Coder)
    requires Coded(ds, k)
    ensures k == Run(ds)
  {
    assert Unfolded(RunOfCoder, 0);
  }

  lemma CodedSnoc(ds: seq<Decision>, d: Decision, k: Coder, x: Interval, stats: Stats)
    requires Coded(ds, k) && Normal(k.x)
    requires x == Renorm(Narrow(k.x, Lookup(k.stats, d.bin), d.bit))
    requires stats == k.stats[d.bin := Estimate(k.x, Lookup(k.stats, d.bin), d.bit)]
    ensures Coded(ds + [d], Coder(x, stats))
  {
    CodedRun(ds, k);
    RunSnoc(ds, d);
  }

  function Choice(k: Coder, d: Decision): Interval
    requires Normal(k.x)
  {
    Narrow(k.x, Lookup(k.stats, d.bin), d.bit)
  }

  /** A whole run stays in the sub-interval that any one of its decisions chose. */
  lemma RunWithinChoice(before: seq<Decision>, d: Decision, rest: seq<Decision>, y: Interval)
    requires y == Choice(Run(before), d)
    ensures Within(Run(before + [d] + rest).x, y)
  {
    RunSnoc(before, d);
    StepWithin(Run(before), d);
    RunWithin(before + [d], rest, y);
  }

  // ---- What the first bytes of a segment tell

  /** The first k data bytes a decoder sees: zeros follow the end of the segment. */
  function Padded(d: seq<Byte>, k: nat): (p: seq<Byte>)
    ensures |p| == k
  {
    if k <= |d| then d[..k] else d + Zeros(k - |d|)
  }

  lemma PaddedSplit(d: seq<Byte>, k: nat, m: nat)
    requires k <= m
    ensures exists t: seq<Byte> :: |t| == m - k && Padded(d, m) == Padded(d, k) + t
  {
    assert Padded(d, m) == Padded(d, k) + Padded(d, m)[k..];
  }

  /** Bytes that are cut off change the value by less than one unit of the last byte kept. */
  lemma CutOff(p: seq<Byte>, t: seq<Byte>, bound: int)
    ensures Val(p + t) >= Shl(bound, 8 * |t|) ==> Val(p) >= bound
    ensures Val(p + t) < Shl(bound, 8 * |t|) ==> Val(p) < bound
  {
    ValConcat(p, t);
    ValBound(t);
    var m := 8 * |t|;
    ShlAdd(Val(p), 1, m);
    ShlOrder(bound, Val(p) + 1, m);
    ShlOrder(Val(p), bound, m);
  }

  /** Any number of bytes k with 8k = 16 + y.n + ct places the code value in y. */
  lemma PrefixInside(d: seq<Byte>, x: Interval, y: Interval, k: nat, ct: nat)
    requires Normal(x) && IsSegment(d, x) && Within(x, y) && 8 * k == 16 + y.n + ct
    ensures Shl(y.low, ct) <= Val(Padded(d, k)) < Shl(y.low + y.a, ct)
  {
    var v := FinalPoint(x);
    FinalPointIsInside(x);
    var m := if k <= |d| then |d| else k;
    assert Padded(d, m) == d + Zeros(m - |d|);
    PointsTrim(d, m - |d|, v, 16 + x.n);
    PaddedSplit(d, k, m);
    var t :| |t| == m - k && Padded(d, m) == Padded(d, k) + t;
    Rescale(Padded(d, m), v, y.low, x.n, y.n, ct, k, m);
    Rescale(Padded(d, m), v, y.low + y.a, x.n, y.n, ct, k, m);
    CutOff(Padded(d, k), t, Shl(y.low, ct));
    CutOff(Padded(d, k), t, Shl(y.low + y.a, ct));
  }

  /** Comparing the code value with an interval end, at the two scales. */
  lemma Rescale(p: seq<Byte>, v: nat, end: int, n: nat, n': nat, ct: nat, k: nat, m: nat)
    requires |p| == m && Points(p, v, 16 + n) && n' <= n && k <= m && 8 * k == 16 + n' + ct
    ensures v < Shl(end, n - n') <==> Val(p) < Shl(Shl(end, ct), 8 * (m - k))
  {
    var e := n - n';
    ShlOrder(v, Shl(end, e), 8 * m);
    ShlShl(end, e, 8 * m);
    ShlShl(end, ct, 8 * (m - k));
    ShlShl(end, ct + 8 * (m - k), 16 + n);
    assert ct + 8 * (m - k) + (16 + n) == e + 8 * m;
    ShlOrder(Val(p), Shl(end, ct + 8 * (m - k)), 16 + n);
  }

  // ---- The length of a segment

  lemma {:induction false} RenormShifts(x: Interval, j: nat)
    requires 0 < x.a && Shl(1, j) <= x.a <= 0x10000 && j <= 15
    ensures Renorm(x).n <= x.n + (15 - j)
    decreases 15 - j
  {
    ShlFifteen(1);
    if x.a < 0x8000 {
      ShlShl(1, j, 1);
      RenormShifts(Double(x), j + 1);
    }
  }

  /** A string that is longer than its value needs ends in a zero byte. */
  lemma TooLong(d: seq<Byte>, h: nat, up: nat, bits: nat)
    requires Points(d, h * 0x8000, bits) && 8 * |d| == bits - 7 + up
    ensures Val(d) % 0x100 == 0
  {
    var k := up + 8;
    ShlFifteen(h);
    ShlShl(h, 15, 8 * |d|);
    ShlShl(h, k, bits);
    ShlOrder(Val(d), Shl(h, k), bits);
    ShlShl(h, up, 8);
    ShlTable(Shl(h, up));
    assert Val(d) == Shl(h, k) == 0x100 * Shl(h, up);
  }

  /** The last byte of a segment is not all below the final point's lowest one. */
  lemma SegmentLength(d: seq<Byte>, x: Interval)
    requires Normal(x) && IsSegment(d, x)
    ensures 8 * |d| <= x.n + 8
  {
    var v := FinalPoint(x);
    FinalPointIsInside(x);
    if 8 * |d| > x.n + 8 {
      TooLong(d, v / 0x8000, 8 * |d| - x.n - 9, 16 + x.n);
    }
  }

  /** When the last decision has been made, the decoder has read every byte of the segment. */
  lemma AllBytesRead(d: seq<Byte>, final: Interval, x: Interval, k: nat, ct: nat)
    requires 0 < x.a <= 0x10000 && final == Renorm(x) && IsSegment(d, final)
    requires 8 * k == 16 + x.n + ct
    ensures |d| <= k
  {
    RenormShifts(x, 0);
    SegmentLength(d, final);
  }

  lemma UnitSegmentIsEmpty(d: seq<Byte>)
    requires IsSegment(d, UNIT)
    ensures d == []
  {
    ShlZero(8 * |d|);
    ShlZero(16);
    ShlOrder(Val(d), 0, 16);
  }

  /** There is only one segment for a run. */
  lemma {:induction false} SegmentIsUnique(d: seq<Byte>, e: seq<Byte>, x: Interval)
    requires Normal(x) && IsSegment(d, x) && IsSegment(e, x)
    ensures d == e
  {
    SegmentFallsIn(d, x);
    SegmentFallsIn(e, x);
    SegmentIsShortest(d, e, x);
    SegmentIsShortest(e, d, x);
    if |d| == |e| {
      ShlOrder(Val(d), Val(e), 16 + x.n);
      ValInjective(d, e);
    }
  }

  lemma {:induction false} ValInjective(d: seq<Byte>, e: seq<Byte>)
    requires |d| == |e| && Val(d) == Val(e)
    ensures d == e
    decreases |d|
  {
    if d != [] {
      var n := |d| - 1;
      assert d[n] == Val(d) % 256 && e[n] == Val(e) % 256;
      ValInjective(d[..n], e[..n]);
      assert d == d[..n] + [d[n]] && e == e[..n] + [e[n]];
    }
  }

  /** The byte string e, read as a binary fraction, falls in the interval. */
  predicate FallsIn(e: seq<Byte>, x: Interval) {
    Shl(x.low, 8 * |e|) <= Shl(Val(e), 16 + x.n) < Shl(x.low + x.a, 8 * |e|)
  }

  /** No byte string that a decoder would accept for the run is shorter than its segment. */
  lemma SegmentIsShortest(d: seq<Byte>, e: seq<Byte>, x: Interval)
    requires Normal(x) && IsSegment(d, x) && FallsIn(e, x)
    ensures |d| <= |e|
  {
    if |e| < |d| {
      SegmentLength(d, x);
      ShortIsFinal(e, x, 16 + x.n - 8 * |e|);
      SameFractionShorter(d, e, FinalPoint(x), 16 + x.n);
    }
  }

  /** A short string that falls in the interval is a multiple of 2^16 there, so it is the final point. */
  lemma ShortIsFinal(e: seq<Byte>, x: Interval, j: nat)
    requires Normal(x) && FallsIn(e, x) && j == 16 + x.n - 8 * |e| >= 16
    ensures Points(e, FinalPoint(x), 16 + x.n)
  {
    var w := Shl(Val(e), j);
    ShlShl(Val(e), j, 8 * |e|);
    ShlOrder(w, x.low, 8 * |e|);
    ShlOrder(w, x.low + x.a, 8 * |e|);
    ShlShl(Val(e), j - 16, 16);
    ShlTable(Shl(Val(e), j - 16));
    IsFinal(x, w, Shl(Val(e), j - 16));
  }

  lemma IsFinal(x: Interval, w: nat, h: int)
    requires Normal(x) && x.low <= w < x.low + x.a && w == h * 0x10000
    ensures w == FinalPoint(x)
  {
    if w != FinalPoint(x) {
      OtherPoint(x, w);
    }
  }

  /** A string that can be written with fewer bytes ends in a zero byte. */
  lemma SameFractionShorter(d: seq<Byte>, e: seq<Byte>, v: nat, bits: nat)
    requires Points(d, v, bits) && Points(e, v, bits) && |e| < |d|
    ensures Val(d) % 0x100 == 0
  {
    var more := 8 * (|d| - |e|);
    ShlShl(v, 8 * |e|, more);
    ShlShl(Val(e), bits, more);
    ShlShl(Val(e), more, bits);
    ShlOrder(Val(d), Shl(Val(e), more), bits);
    ShlByte(Val(e), |d| - |e| - 1);
  }

  lemma SegmentFallsIn(d: seq<Byte>, x: Interval)
    requires Normal(x) && IsSegment(d, x)
    ensures FallsIn(d, x)
  {
    FinalPointIsInside(x);
    ShlOrder(FinalPoint(x), x.low, 8 * |d|);
    ShlOrder(FinalPoint(x), x.low + x.a, 8 * |d|);
  }
}
