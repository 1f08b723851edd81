/**
 * Annex D of ITU-T T.81 in exact arithmetic. The coding interval is [low, low + a) at a scale of
 * 16 + n bits, `low` being unbounded; a whole run of decisions is a nest of such intervals, and a
 * code segment is the shortest byte string whose binary fraction falls in the last one.
 */
module IntervalCoder {
  import opened Numbers
  import opened ProbabilityTable

  /** The three kinds of statistics area. */
  datatype Area = DcArea(tbl: nat) | AcArea(tbl: nat) | FixedArea

  /** A statistics bin: `st` in the coders is a pointer into one of the areas. */
  datatype Bin = Bin(area: Area, offset: nat)

  datatype Decision = Decision(bin: Bin, bit: Bit)

  const DC_STAT_BINS := 64
  const AC_STAT_BINS := 256

  function AreaSize(area: Area): nat {
    match area
    case DcArea(_) => DC_STAT_BINS
    case AcArea(_) => AC_STAT_BINS
    case FixedArea => 1
  }

  predicate InArea(b: Bin) {
    b.offset < AreaSize(b.area)
  }

  /** The statistics areas; a bin that is not in the map still has its zeroed value. */
  type Stats = m: map<Bin, Stat> | forall b :: b in m ==> GoodStat(m[b])

  function Lookup(stats: Stats, b: Bin): (s: Stat)
    ensures GoodStat(s)
  {
    if b in stats then stats[b]
    else if b.area.FixedArea? then Stat(FIXED_ROW, 0)
    else Stat(0, 0)
  }

  datatype Interval = Interval(low: nat, a: int, n: nat)

  const UNIT := Interval(0, 0x10000, 0)

  predicate Normal(x: Interval) {
    0x8000 <= x.a <= 0x10000
  }

  /** Sections D.1.4 and D.1.5: the sub-interval of one decision, before renormalisation. */
  function Narrow(x: Interval, s: Stat, bit: Bit): (y: Interval)
    requires Normal(x) && GoodStat(s)
    ensures y.n == x.n && x.low <= y.low && y.low + y.a <= x.low + x.a
    ensures 0 < y.a <= 0x10000
  {
    var qe := RowOf(s).qe;
    var rest := x.a - qe;
    var lower, upper := x.(a := rest), Interval(x.low + rest, qe, x.n);
    if bit != s.mps then
      if rest >= qe then upper else lower
    else
      if rest < qe then upper else lower
  }

  /** The parts of the two symbols tile the interval, and the more probable symbol never has the smaller one. */
  lemma SymbolsShare(x: Interval, s: Stat)
    requires Normal(x) && GoodStat(s)
    ensures var m, l := Narrow(x, s, s.mps), Narrow(x, s, 1 - s.mps);
            && m.a + l.a == x.a && l.a <= m.a && (l.a == LpsPart(s) || m.a == LpsPart(s))
            && if m.a == LpsPart(s) != l.a then l.low == x.low && m.low == x.low + l.a
               else m.low == x.low && l.low == x.low + m.a
  {
  }

  /** The new state of the bin; it is untouched when no renormalisation is due. */
  function Estimate(x: Interval, s: Stat, bit: Bit): (t: Stat)
    requires Normal(x) && GoodStat(s)
    ensures GoodStat(t)
  {
    if bit != s.mps then AfterLps(s)
    else if x.a - RowOf(s).qe >= 0x8000 then s
    else AfterMps(s)
  }

  function Double(x: Interval): Interval {
    Interval(2 * x.low, 2 * x.a, x.n + 1)
  }

  /** Section D.1.6. */
  function Renorm(x: Interval): (y: Interval)
    requires 0 < x.a <= 0x10000
    ensures Normal(y) && y.n >= x.n
    decreases 0x8000 - x.a
  {
    if x.a >= 0x8000 then x else Renorm(Double(x))
  }

  /** A bin is estimated again exactly if its decision makes the interval too small. */
  lemma EstimateIsDue(x: Interval, s: Stat, bit: Bit)
    requires Normal(x) && GoodStat(s)
    ensures Estimate(x, s, bit) == if Narrow(x, s, bit).a >= 0x8000 then s
                                   else if bit == s.mps then AfterMps(s) else AfterLps(s)
  {
  }

  /** In a bin that has not been used a 1 is the less probable symbol; only the bin for signs stays that way. */
  lemma UnusedBin(b: Bin)
    ensures Lookup(map[], b).mps == 0 && LpsPart(Lookup(map[], b)) == 0x5a1d
    ensures b.area.FixedArea? <==> AfterLps(Lookup(map[], b)) == Lookup(map[], b)
  {
    assert At(0) == ROWS_0[0] && At(FIXED_ROW) == ROWS_95[18];
  }

  datatype Coder = Coder(x: Interval, stats: Stats)

  const FRESH := Coder(UNIT, map[])

  function Step(k: Coder, d: Decision): (k': Coder)
    requires Normal(k.x)
    ensures Normal(k'.x)
  {
    var s := Lookup(k.stats, d.bin);
    Coder(Renorm(Narrow(k.x, s, d.bit)), k.stats[d.bin := Estimate(k.x, s, d.bit)])
  }

  function Run(ds: seq<Decision>): (k: Coder)
    ensures Normal(k.x)
  {
    if ds == [] then FRESH else Step(Run(ds[..|ds| - 1]), ds[|ds| - 1])
  }

  /** Section D.1.8: the point of the interval with the most trailing zero bits. */
  function FinalPoint(x: Interval): nat
    requires Normal(x)
  {
    var t := (x.low + x.a - 1) / 0x10000 * 0x10000;
    if t < x.low then t + 0x8000 else t
  }

  lemma FinalPointIsInside(x: Interval)
    requires Normal(x)
    ensures x.low <= FinalPoint(x) < x.low + x.a
    ensures FinalPoint(x) % 0x8000 == 0
    // No other point of the interval has as many trailing zero bits.
    ensures forall v :: x.low <= v < x.low + x.a && v != FinalPoint(x) ==>
              v % 0x10000 != 0 && (FinalPoint(x) % 0x10000 != 0 ==> v % 0x8000 != 0)
  {
    var top := x.low + x.a - 1;
    Floor16(top);
    forall v | x.low <= v < x.low + x.a && v != FinalPoint(x)
      ensures v % 0x10000 != 0 && (FinalPoint(x) % 0x10000 != 0 ==> v % 0x8000 != 0)
    {
      OtherPoint(x, v);
    }
  }

  lemma OtherPoint(x: Interval, v: int)
    requires Normal(x) && x.low <= v < x.low + x.a && v != FinalPoint(x)
    ensures v % 0x10000 != 0 && (FinalPoint(x) % 0x10000 != 0 ==> v % 0x8000 != 0)
  {
    var q := (x.low + x.a - 1) / 0x10000;
    Floor16(x.low + x.a - 1);
    var r := v - q * 0x10000;
    assert -0x10000 < r < 0x10000;
    assert v % 0x10000 == r % 0x10000;
  }

  /** The two-byte escape of a 0xFF data byte. */
  function Stuff(s: seq<Byte>): seq<Byte> {
    if s == [] then []
    else Stuff(s[..|s| - 1]) + (if s[|s| - 1] == 0xFF then [0xFF, 0] else [s[|s| - 1]])
  }

  predicate NoTrailingZero(s: seq<Byte>) {
    s != [] ==> s[|s| - 1] != 0
  }

  /** The bytes `d`, read as a binary fraction, are v / 2^bits. */
  predicate Points(d: seq<Byte>, v: nat, bits: nat) {
    Shl(v, 8 * |d|) == Shl(Val(d), bits)
  }

  /** `d` is the (unstuffed) code segment that ends a run at interval `x`. */
  predicate IsSegment(d: seq<Byte>, x: Interval)
    requires Normal(x)
  {
    NoTrailingZero(d) && Points(d, FinalPoint(x), 16 + x.n)
  }
}
