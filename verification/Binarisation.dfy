/**
 * Sections F.1.4 and G.1.3 of ITU-T T.81: the binary decisions, each with its statistics bin,
 * that stand for the coefficients of a block in each of the five kinds of scan.
 */
module Binarisation {
  import opened Numbers
  import opened IntervalCoder
  import opened Blocks

  function D(area: Area, offset: nat, bit: Bit): Decision {
    Decision(Bin(area, offset), bit)
  }

  /** The greatest power of two that does not exceed v. */
  function TopBit(v: nat): (m: nat)
    requires v > 0
    ensures 0 < m <= v < 2 * m
  {
    if v < 2 then 1 else 2 * TopBit(v / 2)
  }

  /** m doubled once for each halving of v down to one. */
  function Climb(m: nat, v: nat): nat
    requires v > 0
    decreases v
  {
    if v < 2 then m else Climb(2 * m, v / 2)
  }

  lemma {:induction false} ClimbIsTopBit(m: nat, v: nat)
    requires v > 0
    ensures Climb(m, v) == m * TopBit(v)
    decreases v
  {
    if v >= 2 {
      ClimbIsTopBit(2 * m, v / 2);
      var t := TopBit(v / 2);
      assert (2 * m) * t == m * (2 * t);
    }
  }

  function Log(v: nat): nat
    requires v > 0
  {
    if v < 2 then 0 else 1 + Log(v / 2)
  }

  /** Figure F.8: one decision for each doubling. */
  function Unary(area: Area, offset: nat, v: nat): seq<Decision>
    requires v > 0
    decreases v
  {
    if v / 2 == 0 then [D(area, offset, 0)]
    else [D(area, offset, 1)] + Unary(area, offset + 1, v / 2)
  }

  /** Whether v has the bit m, a power of two. */
  function BitAt(v: nat, m: nat): Bit
    decreases m
  {
    if m < 2 then v % 2 else BitAt(v / 2, m / 2)
  }

  /** Figure F.9: the bits of v below m, highest first. */
  function Pattern(area: Area, offset: nat, v: nat, m: nat): seq<Decision>
    decreases m
  {
    if m / 2 == 0 then []
    else [D(area, offset, BitAt(v, m / 2))] + Pattern(area, offset, v, m / 2)
  }

  function Sign(v: int): Bit {
    if v < 0 then 1 else 0
  }

  // ---- DC coefficients

  const X1 := 20

  /** Conditioning bounds of one DC table. */
  datatype Conditioning = Conditioning(lower: nat, upper: nat)

  /** (1 << l) >> 1 */
  function HalfPower(l: nat): int {
    if l == 0 then 0 else Shl(1, l - 1)
  }

  function Category(v: nat): nat {
    if v == 0 then 0 else TopBit(v)
  }

  /** Section F.1.4.4.1.2: the conditioning category of a nonzero difference. */
  function ContextFor(cond: Conditioning, m: nat, sign: Bit): (ctx: nat)
    ensures ctx <= 16
  {
    if m < HalfPower(cond.lower) then 0
    else if m > HalfPower(cond.upper) then 12 + sign * 4
    else 4 + sign * 4
  }

  function NextContext(cond: Conditioning, diff: int): (ctx: nat)
    ensures ctx <= 16
  {
    if diff == 0 then 0 else ContextFor(cond, Category(Abs(diff) - 1), Sign(diff))
  }

  /** Category decisions of a nonzero difference; v is its magnitude less one. */
  function DcCategory(area: Area, st: nat, v: nat): seq<Decision> {
    if v == 0 then [D(area, st, 0)] else [D(area, st, 1)] + Unary(area, X1, v)
  }

  /** The bin of the last category decision. */
  function DcLast(st: nat, v: nat): nat {
    if v == 0 then st else X1 + Log(v)
  }

  function DcMagnitude(area: Area, st: nat, v: nat): seq<Decision> {
    DcCategory(area, st, v) + Pattern(area, DcLast(st, v) + 14, v, Category(v))
  }

  /** Figure F.6: sign and magnitude of a nonzero difference. */
  function DcNonzero(area: Area, ctx: nat, diff: int): seq<Decision>
    requires diff != 0
  {
    [D(area, ctx + 1, Sign(diff))] + DcMagnitude(area, ctx + 2 + Sign(diff), Abs(diff) - 1)
  }

  /** Figure F.4. */
  function DcDiff(tbl: nat, ctx: nat, diff: int): seq<Decision> {
    if diff == 0 then [D(DcArea(tbl), ctx, 0)]
    else [D(DcArea(tbl), ctx, 1)] + DcNonzero(DcArea(tbl), ctx, diff)
  }

  // ---- AC coefficients

  /** The first of the three bins of zigzag position k. */
  function Se0(k: nat): nat
    requires k > 0
  {
    3 * (k - 1)
  }

  function AcX(k: nat, kx: nat): nat {
    if k <= kx then 189 else 217
  }

  /** Category decisions of a nonzero coefficient; v is its magnitude less one. */
  function AcCategory(area: Area, st: nat, x: nat, v: nat): seq<Decision> {
    if v == 0 then [D(area, st, 0)]
    else if v < 2 then [D(area, st, 1), D(area, st, 0)]
    else [D(area, st, 1), D(area, st, 1)] + Unary(area, x, v / 2)
  }

  function AcLast(st: nat, x: nat, v: nat): nat {
    if v < 2 then st else x + Log(v / 2)
  }

  function AcMagnitude(area: Area, st: nat, x: nat, v: nat): seq<Decision> {
    AcCategory(area, st, x, v) + Pattern(area, AcLast(st, x, v) + 14, v, Category(v))
  }

  /** The first nonzero coefficient from position k to the end of the band, or se + 1. */
  function NextNonzero(zz: seq<int>, k: nat, se: nat): (j: nat)
    requires se < |zz|
    ensures k <= se ==> k <= j <= se + 1
    ensures k <= j <= se ==> zz[j] != 0
    decreases se + 1 - k
  {
    if k > se then k else if zz[k] != 0 then k else NextNonzero(zz, k + 1, se)
  }

  predicate AllZero(zz: seq<int>, k: nat, se: nat)
    requires se < |zz|
  {
    NextNonzero(zz, k, se) > se
  }

  lemma {:induction false} NotAllZero(zz: seq<int>, k: nat, j: nat, se: nat)
    requires k <= j <= se < |zz| && zz[j] != 0
    ensures !AllZero(zz, k, se)
    decreases j - k
  {
    if k < j {
      NotAllZero(zz, k + 1, j, se);
    }
  }

  lemma {:induction false} AllZeroLater(zz: seq<int>, k: nat, j: nat, se: nat)
    requires se < |zz| && AllZero(zz, k, se) && k <= j
    ensures AllZero(zz, j, se)
    decreases j - k
  {
    if k < j && k <= se {
      AllZeroLater(zz, k + 1, j, se);
    }
  }

  /** Figure F.5, from an end-of-block decision on. */
  function AcBand(tbl: nat, kx: nat, zz: seq<int>, k: nat, se: nat): seq<Decision>
    requires 0 < k && se < |zz|
    decreases se + 1 - k, 1
  {
    if k > se then []
    else if AllZero(zz, k, se) then [D(AcArea(tbl), Se0(k), 1)]
    else [D(AcArea(tbl), Se0(k), 0)] + AcRun(tbl, kx, zz, k, se)
  }

  /** Sign and magnitude of a nonzero coefficient. */
  function AcSigned(tbl: nat, kx: nat, k: nat, v: int): seq<Decision>
    requires k > 0 && v != 0
  {
    [D(FixedArea, 0, Sign(v))] + AcMagnitude(AcArea(tbl), Se0(k) + 2, AcX(k, kx), Abs(v) - 1)
  }

  /** Figure F.5, from a zero decision on, when a nonzero coefficient follows. */
  function AcRun(tbl: nat, kx: nat, zz: seq<int>, k: nat, se: nat): seq<Decision>
    requires 0 < k && se < |zz|
    decreases se + 1 - k, 0
  {
    if k > se then []
    else if zz[k] == 0 then [D(AcArea(tbl), Se0(k) + 1, 0)] + AcRun(tbl, kx, zz, k + 1, se)
    else [D(AcArea(tbl), Se0(k) + 1, 1)] + (AcSigned(tbl, kx, k, zz[k]) + AcBand(tbl, kx, zz, k + 1, se))
  }

  // ---- AC refinement (section G.1.3.3); zz holds the values at the new precision

  /** EOBx: the last coefficient of the band that was nonzero at the previous precision. */
  function PreviousEnd(zz: seq<int>, ss: nat, j: nat): nat
    requires 0 < ss && j < |zz|
    decreases j
  {
    if j < ss then ss - 1 else if Abs(zz[j]) > 1 then j else PreviousEnd(zz, ss, j - 1)
  }

  function RefineBand(tbl: nat, zz: seq<int>, kex: nat, k: nat, se: nat): seq<Decision>
    requires 0 < k && se < |zz|
    decreases se + 1 - k, 1
  {
    if k > se then []
    else if AllZero(zz, k, se) then [D(AcArea(tbl), Se0(k), 1)]
    else (if k > kex then [D(AcArea(tbl), Se0(k), 0)] else []) + RefineRun(tbl, zz, kex, k, se)
  }

  function RefineCoef(tbl: nat, k: nat, v: int): seq<Decision>
    requires k > 0
  {
    var area := AcArea(tbl);
    if v == 0 then [D(area, Se0(k) + 1, 0)]
    else if Abs(v) > 1 then [D(area, Se0(k) + 2, Abs(v) % 2)]
    else [D(area, Se0(k) + 1, 1), D(FixedArea, 0, Sign(v))]
  }

  function RefineRun(tbl: nat, zz: seq<int>, kex: nat, k: nat, se: nat): seq<Decision>
    requires 0 < k && se < |zz|
    decreases se + 1 - k, 0
  {
    if k > se then []
    else
      RefineCoef(tbl, k, zz[k]) +
      if zz[k] == 0 then RefineRun(tbl, zz, kex, k + 1, se) else RefineBand(tbl, zz, kex, k + 1, se)
  }

  /** EOBx matters only from the current position on. */
  lemma {:induction false} RefineBandEnd(tbl: nat, zz: seq<int>, x: nat, y: nat, k: nat, se: nat)
    requires 0 < k && se < |zz| && (x == y || (x < k && y < k))
    ensures RefineBand(tbl, zz, x, k, se) == RefineBand(tbl, zz, y, k, se)
    decreases se + 1 - k, 1
  {
    if k <= se && !AllZero(zz, k, se) {
      RefineRunEnd(tbl, zz, x, y, k, se);
    }
  }

  lemma {:induction false} RefineRunEnd(tbl: nat, zz: seq<int>, x: nat, y: nat, k: nat, se: nat)
    requires 0 < k <= se < |zz| && !AllZero(zz, k, se) && (x == y || (x < k && y < k))
    ensures RefineRun(tbl, zz, x, k, se) == RefineRun(tbl, zz, y, k, se)
    decreases se + 1 - k, 0
  {
    if zz[k] == 0 {
      RefineRunEnd(tbl, zz, x, y, k + 1, se);
    } else {
      RefineBandEnd(tbl, zz, x, y, k + 1, se);
    }
  }
}
