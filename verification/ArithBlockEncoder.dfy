/** Binarisation of DC differences and AC bands by the arithmetic encoder. */
module ArithBlockEncoder {
  import opened Numbers
  import opened IntervalCoder
  import opened ArithEncoder
  import opened Binarisation
  import opened Blocks

  /** The category decisions that are to be coded, where they end and what category that is. */
  datatype CategoryPlan = CategoryPlan(area: Area, goal: seq<Decision>, last: nat, top: nat)

  /** Category decisions are under way; v is what is left of the magnitude. (folded) */
  ghost predicate InCategory(h: seq<Decision>, t: CategoryPlan, st: nat, v: nat, m: nat) {
    forall n: nat {:trigger Unfolded(CategoryWriting, n)} :: Unfolded(CategoryWriting, n) ==>
      v > 0 && st + Log(v) == t.last && Climb(m, v) == t.top && h + Unary(t.area, st, v) == t.goal
  }

  lemma CategoryBegins(h: seq<Decision>, area: Area, st: nat, v: nat, m: nat)
    requires v > 0
    ensures InCategory(h, CategoryPlan(area, h + Unary(area, st, v), st + Log(v), Climb(m, v)), st, v, m)
  {
  }

  lemma CategoryGoesOn(h: seq<Decision>, t: CategoryPlan, st: nat, v: nat, m: nat)
    requires InCategory(h, t, st, v, m) && v >= 2
    ensures st < t.last && InCategory(h + [D(t.area, st, 1)], t, st + 1, v / 2, 2 * m)
  {
    assert Unfolded(CategoryWriting, 0);
    Assoc(h, [D(t.area, st, 1)], Unary(t.area, st + 1, v / 2));
  }

  lemma CategoryEnds(h: seq<Decision>, t: CategoryPlan, st: nat, v: nat, m: nat)
    requires InCategory(h, t, st, v, m) && v < 2
    ensures m == t.top && st == t.last && h + [D(t.area, st, 0)] == t.goal
  {
    assert Unfolded(CategoryWriting, 0);
  }

  /** One decision more; what is left of the magnitude is halved. */
  method EncodeDoubling(e: ArithEncoder, area: Area, st: nat, ghost t: CategoryPlan, ghost v: nat, ghost m: nat)
    requires e.Valid() && v >= 2 && area == t.area && t.last < AreaSize(area) && InCategory(e.history, t, st, v, m)
    modifies e
    ensures e.Valid() && e.prefix == old(e.prefix) && st < t.last && InCategory(e.history, t, st + 1, v / 2, 2 * m)
  {
    CategoryGoesOn(e.history, t, st, v, m);
    e.ArithEncode(Bin(area, st), 1);
  }

  /** Figure F.8: the magnitude category, one doubling of m for each further bit of v. */
  method EncodeCategory(e: ArithEncoder, area: Area, start: nat, v: nat, m0: nat) returns (m: nat, st: nat)
    requires e.Valid() && v > 0 && start + Log(v) < AreaSize(area)
    modifies e
    ensures e.Valid() && e.prefix == old(e.prefix)
    ensures e.history == old(e.history) + Unary(area, start, v)
    ensures m == Climb(m0, v) && st == start + Log(v)
  {
    var v2 := v;
    m, st := m0, start;
    ghost var t := CategoryPlan(area, e.history + Unary(area, start, v), start + Log(v), Climb(m0, v));
    CategoryBegins(e.history, area, start, v, m0);
    while v2 >= 2
      invariant st <= t.last && e.Valid() && e.prefix == old(e.prefix) && InCategory(e.history, t, st, v2, m)
      decreases v2
    {
      EncodeDoubling(e, area, st, t, v2, m);
      v2 := v2 / 2;
      m := 2 * m;
      st := st + 1;
    }
    CategoryEnds(e.history, t, st, v2, m);
    e.ArithEncode(Bin(area, st), 0);
  }

  /** Figure F.9: the bits of v below its leading one. */
  method EncodePattern(e: ArithEncoder, area: Area, st: nat, v: nat, top: nat)
    requires e.Valid() && InArea(Bin(area, st))
    modifies e
    ensures e.Valid() && e.prefix == old(e.prefix)
    ensures e.history == old(e.history) + Pattern(area, st, v, top)
  {
    var m := top;
    while m / 2 != 0
      invariant e.Valid() && e.prefix == old(e.prefix)
      invariant e.history + Pattern(area, st, v, m) == old(e.history) + Pattern(area, st, v, top)
      decreases m
    {
      m := m / 2;
      Assoc(e.history, [D(area, st, BitAt(v, m))], Pattern(area, st, v, m));
      e.ArithEncode(Bin(area, st), BitAt(v, m));
    }
  }

  lemma {:induction false} LogBound(v: nat, n: nat)
    requires 0 < v < Shl(1, n + 1)
    ensures Log(v) <= n
  {
    if v >= 2 {
      ShlShl(1, n, 1);
      LogBound(v / 2, n - 1);
    }
  }

  lemma CoefLog(v: nat)
    requires 0 < v < 0x10000
    ensures Log(v) <= 15
  {
    ShlTable(1);
    LogBound(v, 15);
  }

  /** The decisions of a magnitude; m and st are its category and the bin of the last category decision. */
  lemma DcMagnitudeParts(h: seq<Decision>, area: Area, st0: nat, v: nat, m: nat, st: nat)
    requires m == Category(v) && st == DcLast(st0, v)
    ensures v == 0 ==> h + [D(area, st0, 0)] + Pattern(area, st + 14, v, m) == h + DcMagnitude(area, st0, v)
    ensures v != 0 ==>
              h + [D(area, st0, 1)] + Unary(area, X1, v) + Pattern(area, st + 14, v, m) == h + DcMagnitude(area, st0, v)
  {
    Assoc(h, DcCategory(area, st0, v), Pattern(area, st + 14, v, m));
    if v != 0 {
      Assoc(h, [D(area, st0, 1)], Unary(area, X1, v));
    }
  }

  /** Figure F.8 for a DC difference. */
  method EncodeDcCategory(e: ArithEncoder, area: Area, st0: nat, v: nat) returns (m: nat, st: nat)
    requires e.Valid() && area.DcArea? && st0 < X1 && v < 0x10000
    modifies e
    ensures e.Valid() && e.prefix == old(e.prefix)
    ensures e.history + Pattern(area, st + 14, v, m) == old(e.history) + DcMagnitude(area, st0, v)
    ensures m == Category(v) && st <= 35
  {
    ghost var h := e.history;
    if v != 0 {
      ClimbIsTopBit(1, v);
      CoefLog(v);
      e.ArithEncode(Bin(area, st0), 1);
      m, st := EncodeCategory(e, area, 20, v, 1);
    } else {
      m, st := 0, st0;
      e.ArithEncode(Bin(area, st), 0);
    }
    DcMagnitudeParts(h, area, st0, v, m, st);
  }

  /** Figures F.8 and F.9 for a DC difference; m is the magnitude category. */
  method EncodeDcMagnitude(e: ArithEncoder, area: Area, st0: nat, v: nat) returns (m: nat)
    requires e.Valid() && area.DcArea? && st0 < X1 && v < 0x10000
    modifies e
    ensures e.Valid() && e.prefix == old(e.prefix)
    ensures e.history == old(e.history) + DcMagnitude(area, st0, v)
    ensures m == Category(v)
  {
    var st;
    m, st := EncodeDcCategory(e, area, st0, v);
    EncodePattern(e, area, st + 14, v, m);
  }

  lemma DcDiffParts(h: seq<Decision>, tbl: nat, ctx: nat, diff: int, sg: Bit, st: nat, v: nat)
    requires diff != 0 && sg == Sign(diff) && st == ctx + 2 + sg && v == Abs(diff) - 1
    ensures h + [D(DcArea(tbl), ctx, 1)] + [D(DcArea(tbl), ctx + 1, sg)] + DcMagnitude(DcArea(tbl), st, v)
            == h + DcDiff(tbl, ctx, diff)
  {
    var area := DcArea(tbl);
    Assoc(h, [D(area, ctx, 1)], DcNonzero(area, ctx, diff));
    Assoc(h + [D(area, ctx, 1)], [D(area, ctx + 1, sg)], DcMagnitude(area, st, v));
  }

  /** The category of a difference other than zero gives the context of the next one. */
  lemma ContextOfCategory(cond: Conditioning, diff: int, sg: Bit, m: nat)
    requires diff != 0 && sg == Sign(diff) && m == Category(Abs(diff) - 1)
    ensures NextContext(cond, diff)
            == if m < HalfPower(cond.lower) then 0 else if m > HalfPower(cond.upper) then 12 + 4 * sg else 4 + 4 * sg
  {
  }

  method EncodeDcNonzero(e: ArithEncoder, tbl: nat, ctx: nat, cond: Conditioning, diff: int) returns (next: nat)
    requires e.Valid() && ctx <= 16 && 0 < Abs(diff) < 0x10000
    modifies e
    ensures e.Valid() && e.prefix == old(e.prefix)
    ensures e.history == old(e.history) + DcDiff(tbl, ctx, diff)
    ensures next == NextContext(cond, diff)
  {
    var sg: Bit := if diff < 0 then 1 else 0;
    var area, st, v := DcArea(tbl), ctx + 2 + sg, Abs(diff) - 1;
    DcDiffParts(e.history, tbl, ctx, diff, sg, st, v);
    e.ArithEncode(Bin(area, ctx), 1);
    e.ArithEncode(Bin(area, ctx + 1), sg);
    next := 4 + 4 * sg;
    var m := EncodeDcMagnitude(e, area, st, v);
    ContextOfCategory(cond, diff, sg, m);
    if m < HalfPower(cond.lower) {
      next := 0;
    } else if m > HalfPower(cond.upper) {
      next := next + 8;
    }
  }

  /** Figures F.4 and F.6 to F.9; the result is the next conditioning category. */
  method EncodeDcDiff(e: ArithEncoder, tbl: nat, ctx: nat, cond: Conditioning, diff: int) returns (next: nat)
    requires e.Valid() && ctx <= 16 && Abs(diff) < 0x10000
    modifies e
    ensures e.Valid() && e.prefix == old(e.prefix)
    ensures e.history == old(e.history) + DcDiff(tbl, ctx, diff)
    ensures next == NextContext(cond, diff)
  {
    var area := DcArea(tbl);
    if diff == 0 {
      e.ArithEncode(Bin(area, ctx), 0);
      return 0;
    }
    next := EncodeDcNonzero(e, tbl, ctx, cond, diff);
  }

  lemma AcLastBound(st: nat, x: nat, v: nat)
    requires st < 189 && x <= 217 && v < 0x10000
    ensures AcLast(st, x, v) <= 232
  {
    if v >= 2 {
      CoefLog(v / 2);
    }
  }

  lemma AcMagnitudeParts(h: seq<Decision>, area: Area, st0: nat, x: nat, v: nat, m: nat, st: nat)
    requires m == Category(v) && st == AcLast(st0, x, v)
    ensures v == 0 ==> h + [D(area, st0, 0)] + Pattern(area, st + 14, v, m) == h + AcMagnitude(area, st0, x, v)
    ensures v == 1 ==>
              h + [D(area, st0, 1)] + [D(area, st0, 0)] + Pattern(area, st + 14, v, m) == h + AcMagnitude(area, st0, x,
                  v)
    ensures v > 1 ==>
              h + [D(area, st0, 1)] + [D(area, st0, 1)] + Unary(area, x, v / 2) + Pattern(area, st + 14, v, m)
              == h + AcMagnitude(area, st0, x, v)
  {
    Assoc(h, AcCategory(area, st0, x, v), Pattern(area, st + 14, v, m));
    var two := [D(area, st0, 1), D(area, st0, if v < 2 then 0 else 1)];
    assert h + two == h + [two[0]] + [two[1]];
    if v > 1 {
      Assoc(h, two, Unary(area, x, v / 2));
    }
  }

  /** Figure F.8 for an AC coefficient. */
  method EncodeAcCategory(e: ArithEncoder, area: Area, st0: nat, x: nat, v: nat) returns (m: nat, st: nat)
    requires e.Valid() && area.AcArea? && st0 < 189 && x <= 217 && v < 0x10000
    modifies e
    ensures e.Valid() && e.prefix == old(e.prefix)
    ensures e.history + Pattern(area, st + 14, v, m) == old(e.history) + AcMagnitude(area, st0, x, v)
    ensures m == Category(v) && st <= 232
  {
    ghost var h := e.history;
    AcLastBound(st0, x, v);
    m, st := 0, st0;
    if v == 0 {
      e.ArithEncode(Bin(area, st), 0);
    } else {
      e.ArithEncode(Bin(area, st), 1);
      m := 1;
      if v / 2 != 0 {
        ClimbIsTopBit(1, v);
        CoefLog(v / 2);
        e.ArithEncode(Bin(area, st), 1);
        m, st := EncodeCategory(e, area, x, v / 2, 2 * m);
      } else {
        e.ArithEncode(Bin(area, st), 0);
      }
    }
    AcMagnitudeParts(h, area, st0, x, v, m, st);
  }

  /** Figures F.8 and F.9 for an AC coefficient. */
  method EncodeAcMagnitude(e: ArithEncoder, area: Area, st0: nat, x: nat, v: nat)
    requires e.Valid() && area.AcArea? && st0 < 189 && x <= 217 && v < 0x10000
    modifies e
    ensures e.Valid() && e.prefix == old(e.prefix)
    ensures e.history == old(e.history) + AcMagnitude(area, st0, x, v)
  {
    var m, st := EncodeAcCategory(e, area, st0, x, v);
    EncodePattern(e, area, st + 14, v, m);
  }

  method EncodeAcCoef(e: ArithEncoder, tbl: nat, kx: nat, k: nat, v: int)
    requires e.Valid() && 0 < k < DCTSIZE2 && 0 < Abs(v) < 0x10000
    modifies e
    ensures e.Valid() && e.prefix == old(e.prefix)
    ensures e.history == old(e.history) + [D(AcArea(tbl), Se0(k) + 1, 1)] + AcSigned(tbl, kx, k, v)
  {
    ghost var one := [D(AcArea(tbl), Se0(k) + 1, 1)];
    Assoc(e.history + one, [D(FixedArea, 0, Sign(v))], AcMagnitude(AcArea(tbl), Se0(k) + 2, AcX(k, kx), Abs(v) - 1));
    var st := 3 * (k - 1);
    e.ArithEncode(Bin(AcArea(tbl), st + 1), 1);
    e.ArithEncode(Bin(FixedArea, 0), if v < 0 then 1 else 0);
    EncodeAcMagnitude(e, AcArea(tbl), st + 2, if k <= kx then 189 else 217, Abs(v) - 1);
  }

  // ---- Bands of AC coefficients

  /** What a band is to be coded as, behind what is out already. */
  datatype BandPlan = BandPlan(tbl: nat, kx: nat, zz: seq<int>, se: nat, goal: seq<Decision>)

  /** At position k, in a run of zeros or not: h is out, and with what is still due it makes the goal. (folded) */
  ghost predicate InBand(h: seq<Decision>, t: BandPlan, run: bool, k: nat) {
    forall n: nat {:trigger Unfolded(BandWriting, n)} :: Unfolded(BandWriting, n) ==>
      && 0 < k && t.se < |t.zz| && (run ==> k <= t.se && !AllZero(t.zz, k, t.se))
      && h + (if run then AcRun(t.tbl, t.kx, t.zz, k, t.se) else AcBand(t.tbl, t.kx, t.zz, k, t.se)) == t.goal
  }

  lemma BandBegins(h: seq<Decision>, t: BandPlan, k: nat)
    requires 0 < k && t.se < |t.zz| && t.goal == h + AcBand(t.tbl, t.kx, t.zz, k, t.se)
    ensures InBand(h, t, false, k)
  {
  }

  lemma BandGoesOn(h: seq<Decision>, t: BandPlan, k: nat)
    requires InBand(h, t, false, k) && 0 < k <= t.se < |t.zz| && !AllZero(t.zz, k, t.se)
    ensures InBand(h + [D(AcArea(t.tbl), Se0(k), 0)], t, true, k)
  {
    assert Unfolded(BandWriting, 0);
    Assoc(h, [D(AcArea(t.tbl), Se0(k), 0)], AcRun(t.tbl, t.kx, t.zz, k, t.se));
  }

  lemma BandHasZero(h: seq<Decision>, t: BandPlan, k: nat)
    requires InBand(h, t, true, k) && 0 < k <= t.se < |t.zz| && t.zz[k] == 0
    ensures k < t.se && InBand(h + [D(AcArea(t.tbl), Se0(k) + 1, 0)], t, true, k + 1)
  {
    assert Unfolded(BandWriting, 0);
    Assoc(h, [D(AcArea(t.tbl), Se0(k) + 1, 0)], AcRun(t.tbl, t.kx, t.zz, k + 1, t.se));
  }

  lemma BandHasCoef(h: seq<Decision>, t: BandPlan, k: nat)
    requires InBand(h, t, true, k) && 0 < k <= t.se < |t.zz| && t.zz[k] != 0
    ensures InBand(h + [D(AcArea(t.tbl), Se0(k) + 1, 1)] + AcSigned(t.tbl, t.kx, k, t.zz[k]), t, false, k + 1)
  {
    assert Unfolded(BandWriting, 0);
    var one, signed := [D(AcArea(t.tbl), Se0(k) + 1, 1)], AcSigned(t.tbl, t.kx, k, t.zz[k]);
    Assoc(h, one, signed + AcBand(t.tbl, t.kx, t.zz, k + 1, t.se));
    Assoc(h + one, signed, AcBand(t.tbl, t.kx, t.zz, k + 1, t.se));
  }

  lemma BandEnds(h: seq<Decision>, t: BandPlan, k: nat)
    requires InBand(h, t, false, k) && 0 < k <= t.se + 1 && t.se < |t.zz| && AllZero(t.zz, k, t.se)
    ensures h + (if k <= t.se then [D(AcArea(t.tbl), Se0(k), 1)] else []) == t.goal
  {
    assert Unfolded(BandWriting, 0);
  }

  predicate CoefRange(zz: seq<int>) {
    forall k :: 0 <= k < |zz| ==> Abs(zz[k]) < 0x10000
  }

  /** The end-of-block index: the last nonzero coefficient, found from the end of the band. */
  method FindEnd(zz: seq<int>, se: nat) returns (ke: nat)
    requires se < |zz|
    ensures ke <= se && AllZero(zz, ke + 1, se) && (ke == 0 || zz[ke] != 0)
  {
    ke := se;
    while ke > 0 && zz[ke] == 0
      invariant ke <= se && AllZero(zz, ke + 1, se)
    {
      ke := ke - 1;
    }
  }

  method EncodeAcNonzero(e: ArithEncoder, tbl: nat, kx: nat, zz: seq<int>, k: nat, ghost t: BandPlan)
    requires e.Valid() && 0 < k <= t.se < |zz| <= DCTSIZE2 && CoefRange(zz) && zz[k] != 0
    requires t.tbl == tbl && t.kx == kx && t.zz == zz && InBand(e.history, t, true, k)
    modifies e
    ensures e.Valid() && e.prefix == old(e.prefix) && InBand(e.history, t, false, k + 1)
  {
    BandHasCoef(e.history, t, k);
    EncodeAcCoef(e, tbl, kx, k, zz[k]);
  }

  method EncodeAcZero(e: ArithEncoder, tbl: nat, k: nat, ghost t: BandPlan)
    requires e.Valid() && 0 < k <= t.se < |t.zz| <= DCTSIZE2 && t.zz[k] == 0
    requires t.tbl == tbl && InBand(e.history, t, true, k)
    modifies e
    ensures e.Valid() && e.prefix == old(e.prefix) && k < t.se && InBand(e.history, t, true, k + 1)
  {
    BandHasZero(e.history, t, k);
    e.ArithEncode(Bin(AcArea(tbl), 3 * (k - 1) + 1), 0);
  }

  /** Zero decisions, and then the next nonzero coefficient. */
  method EncodeAcRun(e: ArithEncoder, tbl: nat, kx: nat, zz: seq<int>, start: nat, ghost t: BandPlan) returns (k: nat)
    requires e.Valid() && 0 < start <= t.se < |zz| <= DCTSIZE2 && CoefRange(zz)
    requires t.tbl == tbl && t.kx == kx && t.zz == zz && InBand(e.history, t, true, start)
    modifies e
    ensures e.Valid() && e.prefix == old(e.prefix)
    ensures start < k <= t.se + 1 && InBand(e.history, t, false, k)
  {
    k := start;
    while zz[k] == 0
      invariant start <= k <= t.se
      invariant e.Valid() && e.prefix == old(e.prefix) && InBand(e.history, t, true, k)
      decreases t.se - k
    {
      EncodeAcZero(e, tbl, k, t);
      k := k + 1;
    }
    EncodeAcNonzero(e, tbl, kx, zz, k, t);
    k := k + 1;
  }

  /** The decision that the band goes on, a run of zeros and a coefficient. */
  method EncodeAcTurn(e: ArithEncoder, tbl: nat, kx: nat, zz: seq<int>, k0: nat, ghost t: BandPlan) returns (k: nat)
    requires e.Valid() && 0 < k0 <= t.se < |zz| <= DCTSIZE2 && CoefRange(zz) && !AllZero(zz, k0, t.se)
    requires t.tbl == tbl && t.kx == kx && t.zz == zz && InBand(e.history, t, false, k0)
    modifies e
    ensures e.Valid() && e.prefix == old(e.prefix)
    ensures k0 < k <= t.se + 1 && InBand(e.history, t, false, k)
  {
    BandGoesOn(e.history, t, k0);
    e.ArithEncode(Bin(AcArea(tbl), 3 * (k0 - 1)), 0);
    k := EncodeAcRun(e, tbl, kx, zz, k0, t);
  }

  /** Figure F.5: the AC coefficients ss..se of one block. */
  method EncodeAcBand(e: ArithEncoder, tbl: nat, kx: nat, zz: seq<int>, ss: nat, se: nat)
    requires e.Valid() && 0 < ss <= se < |zz| <= DCTSIZE2 && CoefRange(zz)
    modifies e
    ensures e.Valid() && e.prefix == old(e.prefix)
    ensures e.history == old(e.history) + AcBand(tbl, kx, zz, ss, se)
  {
    var ke := FindEnd(zz, se);
    ghost var t := BandPlan(tbl, kx, zz, se, e.history + AcBand(tbl, kx, zz, ss, se));
    BandBegins(e.history, t, ss);
    var k := ss;
    while k <= ke
      invariant ss <= k <= se + 1
      invariant e.Valid() && e.prefix == old(e.prefix) && InBand(e.history, t, false, k)
      decreases se + 1 - k
    {
      NotAllZero(zz, k, ke, se);
      k := EncodeAcTurn(e, tbl, kx, zz, k, t);
    }
    AllZeroLater(zz, ke + 1, k, se);
    EncodeEob(e, tbl, k, se, t);
  }

  /** The end-of-block decision, unless the band is full. */
  method EncodeEob(e: ArithEncoder, tbl: nat, k: nat, se: nat, ghost t: BandPlan)
    requires e.Valid() && 0 < k <= se + 1 <= |t.zz| <= DCTSIZE2 && AllZero(t.zz, k, se)
    requires t.tbl == tbl && t.se == se && InBand(e.history, t, false, k)
    modifies e
    ensures e.Valid() && e.prefix == old(e.prefix) && e.history == t.goal
  {
    BandEnds(e.history, t, k);
    assert e.history + [] == e.history;
    if k <= se {
      e.ArithEncode(Bin(AcArea(tbl), 3 * (k - 1)), 1);
    }
  }

  // ---- Refinement of a band

  /** The decisions from position k on: still in a run of zeros, or behind its end. */
  function RunOrBand(tbl: nat, zz: seq<int>, kex: nat, run: bool, k: nat, se: nat): seq<Decision>
    requires 0 < k && se < |zz|
  {
    if run then RefineRun(tbl, zz, kex, k, se) else RefineBand(tbl, zz, kex, k, se)
  }

  /** kex is the previous end of the block. */
  datatype RefinePlan = RefinePlan(tbl: nat, zz: seq<int>, kex: nat, se: nat, goal: seq<Decision>)

  /** (folded) */
  ghost predicate InRefinement(h: seq<Decision>, t: RefinePlan, run: bool, k: nat) {
    forall n: nat {:trigger Unfolded(RefineWriting, n)} :: Unfolded(RefineWriting, n) ==>
      && 0 < k && t.se < |t.zz| && (run ==> k <= t.se && !AllZero(t.zz, k, t.se))
      && h + RunOrBand(t.tbl, t.zz, t.kex, run, k, t.se) == t.goal
  }

  lemma RefinementBegins(h: seq<Decision>, t: RefinePlan, k: nat)
    requires 0 < k && t.se < |t.zz| && t.goal == h + RunOrBand(t.tbl, t.zz, t.kex, false, k, t.se)
    ensures InRefinement(h, t, false, k)
  {
  }

  lemma RefinementGoesOn(h: seq<Decision>, t: RefinePlan, k: nat)
    requires InRefinement(h, t, false, k) && 0 < k <= t.se < |t.zz| && !AllZero(t.zz, k, t.se)
    ensures InRefinement(h + (if k > t.kex then [D(AcArea(t.tbl), Se0(k), 0)] else []), t, true, k)
  {
    assert Unfolded(RefineWriting, 0);
    Assoc(h, if k > t.kex then [D(AcArea(t.tbl), Se0(k), 0)] else [], RefineRun(t.tbl, t.zz, t.kex, k, t.se));
  }

  lemma RefinementStep(h: seq<Decision>, t: RefinePlan, k: nat)
    requires InRefinement(h, t, true, k) && 0 < k <= t.se < |t.zz|
    ensures t.zz[k] == 0 ==> k < t.se
    ensures InRefinement(h + RefineCoef(t.tbl, k, t.zz[k]), t, t.zz[k] == 0, k + 1)
  {
    assert Unfolded(RefineWriting, 0);
    Assoc(h, RefineCoef(t.tbl, k, t.zz[k]), RunOrBand(t.tbl, t.zz, t.kex, t.zz[k] == 0, k + 1, t.se));
  }

  lemma RefinementEnds(h: seq<Decision>, t: RefinePlan, k: nat)
    requires InRefinement(h, t, false, k) && 0 < k <= t.se + 1 && t.se < |t.zz| && AllZero(t.zz, k, t.se)
    ensures h + (if k <= t.se then [D(AcArea(t.tbl), Se0(k), 1)] else []) == t.goal
  {
    assert Unfolded(RefineWriting, 0);
  }

  /** EOBx, found downward from the end of the block. */
  method FindPreviousEnd(zz: seq<int>, ke: nat, ghost ss: nat) returns (kex: nat)
    requires ke < |zz| && 0 < ss
    ensures kex == PreviousEnd(zz, ss, ke) || (kex < ss && PreviousEnd(zz, ss, ke) < ss)
  {
    kex := ke;
    while kex > 0 && Abs(zz[kex]) / 2 == 0
      invariant kex <= ke && PreviousEnd(zz, ss, kex) == PreviousEnd(zz, ss, ke)
    {
      kex := kex - 1;
    }
  }

  /** One coefficient of a refinement scan. */
  method EncodeRefineCoef(e: ArithEncoder, tbl: nat, k: nat, v: int)
    requires e.Valid() && 0 < k < DCTSIZE2
    modifies e
    ensures e.Valid() && e.prefix == old(e.prefix)
    ensures e.history == old(e.history) + RefineCoef(tbl, k, v)
  {
    var area, st := AcArea(tbl), 3 * (k - 1);
    if v == 0 {
      e.ArithEncode(Bin(area, st + 1), 0);
    } else if Abs(v) / 2 != 0 {
      e.ArithEncode(Bin(area, st + 2), Abs(v) % 2);
    } else {
      e.ArithEncode(Bin(area, st + 1), 1);
      e.ArithEncode(Bin(FixedArea, 0), if v < 0 then 1 else 0);
      assert e.history == old(e.history) + [D(area, Se0(k) + 1, 1), D(FixedArea, 0, Sign(v))];
    }
  }

  /** Still-zero coefficients, up to and including the next nonzero one. */
  method EncodeRefineRun(e: ArithEncoder, tbl: nat, zz: seq<int>, start: nat, ghost t: RefinePlan) returns (k: nat)
    requires e.Valid() && 0 < start <= t.se < |zz| <= DCTSIZE2
    requires t.tbl == tbl && t.zz == zz && InRefinement(e.history, t, true, start)
    modifies e
    ensures e.Valid() && e.prefix == old(e.prefix)
    ensures start < k <= t.se + 1 && InRefinement(e.history, t, false, k)
  {
    k := start;
    var more := true;
    while more
      invariant start <= k <= t.se + 1 && (if more then k <= t.se else start < k)
      invariant e.Valid() && e.prefix == old(e.prefix) && InRefinement(e.history, t, more, k)
      decreases t.se + 1 - k
    {
      RefinementStep(e.history, t, k);
      EncodeRefineCoef(e, tbl, k, zz[k]);
      more := zz[k] == 0;
      k := k + 1;
    }
  }

  lemma {:induction false} AllZeroBefore(zz: seq<int>, k: nat, se: nat)
    requires 0 < se < |zz| && AllZero(zz, k, se)
    ensures AllZero(zz, k, se - 1)
    decreases se + 1 - k
  {
    if k < se {
      AllZeroBefore(zz, k + 1, se);
    }
  }

  lemma {:induction false} PreviousEndFrom(zz: seq<int>, ss: nat, ke: nat, se: nat)
    requires 0 < ss && ke <= se < |zz| && AllZero(zz, ke + 1, se)
    ensures PreviousEnd(zz, ss, ke) == PreviousEnd(zz, ss, se)
    decreases se
  {
    if ke < se {
      if zz[se] != 0 {
        NotAllZero(zz, ke + 1, se, se);
      }
      AllZeroBefore(zz, ke + 1, se);
      PreviousEndFrom(zz, ss, ke, se - 1);
    }
  }

  /** The decision that the block goes on, which is only needed behind its previous end, and a run of coefficients. */
  method EncodeRefineTurn(e: ArithEncoder, tbl: nat, zz: seq<int>, kex: nat, k0: nat,
                          ghost t: RefinePlan) returns (k: nat)
    requires e.Valid() && 0 < k0 <= t.se < |zz| <= DCTSIZE2 && !AllZero(zz, k0, t.se)
    requires t.tbl == tbl && t.zz == zz && t.kex == kex && InRefinement(e.history, t, false, k0)
    modifies e
    ensures e.Valid() && e.prefix == old(e.prefix)
    ensures k0 < k <= t.se + 1 && InRefinement(e.history, t, false, k)
  {
    RefinementGoesOn(e.history, t, k0);
    assert e.history + [] == e.history;
    if k0 > kex {
      e.ArithEncode(Bin(AcArea(tbl), 3 * (k0 - 1)), 0);
    }
    k := EncodeRefineRun(e, tbl, zz, k0, t);
  }

  method EncodeRefineEob(e: ArithEncoder, tbl: nat, k: nat, se: nat, ghost t: RefinePlan)
    requires e.Valid() && 0 < k <= se + 1 <= |t.zz| <= DCTSIZE2 && AllZero(t.zz, k, se)
    requires t.tbl == tbl && t.se == se && InRefinement(e.history, t, false, k)
    modifies e
    ensures e.Valid() && e.prefix == old(e.prefix) && e.history == t.goal
  {
    RefinementEnds(e.history, t, k);
    assert e.history + [] == e.history;
    if k <= se {
      e.ArithEncode(Bin(AcArea(tbl), 3 * (k - 1)), 1);
    }
  }

  method EncodeRefineTurns(e: ArithEncoder, tbl: nat, zz: seq<int>, ss: nat, se: nat, ke: nat, kex: nat,
                           ghost t: RefinePlan)
    requires e.Valid() && 0 < ss <= se < |zz| <= DCTSIZE2
    requires ke <= se && AllZero(zz, ke + 1, se) && (ke == 0 || zz[ke] != 0)
    requires t.tbl == tbl && t.zz == zz && t.kex == kex && t.se == se && InRefinement(e.history, t, false, ss)
    modifies e
    ensures e.Valid() && e.prefix == old(e.prefix) && e.history == t.goal
  {
    var k := ss;
    while k <= ke
      invariant ss <= k <= se + 1
      invariant e.Valid() && e.prefix == old(e.prefix) && InRefinement(e.history, t, false, k)
      decreases se + 1 - k
    {
      NotAllZero(zz, k, ke, se);
      k := EncodeRefineTurn(e, tbl, zz, kex, k, t);
    }
    AllZeroLater(zz, ke + 1, k, se);
    EncodeRefineEob(e, tbl, k, se, t);
  }

  /** The band, when its end and the end it had before are known. */
  method EncodeRefineBlock(e: ArithEncoder, tbl: nat, zz: seq<int>, ss: nat, se: nat, ke: nat, kex: nat)
    requires e.Valid() && 0 < ss <= se < |zz| <= DCTSIZE2
    requires ke <= se && AllZero(zz, ke + 1, se) && (ke == 0 || zz[ke] != 0)
    modifies e
    ensures e.Valid() && e.prefix == old(e.prefix)
    ensures e.history == old(e.history) + RunOrBand(tbl, zz, kex, false, ss, se)
  {
    ghost var t := RefinePlan(tbl, zz, kex, se, e.history + RunOrBand(tbl, zz, kex, false, ss, se));
    RefinementBegins(e.history, t, ss);
    EncodeRefineTurns(e, tbl, zz, ss, se, ke, kex, t);
  }

  /** Figure G.10: one more bit of the AC coefficients ss..se. */
  method EncodeRefineBand(e: ArithEncoder, tbl: nat, zz: seq<int>, ss: nat, se: nat)
    requires e.Valid() && 0 < ss <= se < |zz| <= DCTSIZE2
    modifies e
    ensures e.Valid() && e.prefix == old(e.prefix)
    ensures e.history == old(e.history) + RefineBand(tbl, zz, PreviousEnd(zz, ss, se), ss, se)
  {
    var ke := FindEnd(zz, se);
    var kex := FindPreviousEnd(zz, ke, ss);
    PreviousEndFrom(zz, ss, ke, se);
    RefineBandEnd(tbl, zz, kex, PreviousEnd(zz, ss, se), ss, se);
    EncodeRefineBlock(e, tbl, zz, ss, se, ke, kex);
  }
}
