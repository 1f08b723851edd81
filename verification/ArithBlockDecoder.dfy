/** Decoding of DC differences and AC bands by the arithmetic decoder. */
module ArithBlockDecoder {
  import opened Numbers
  import opened IntervalCoder
  import opened ArithDecoder
  import opened Binarisation
  import opened Blocks
  import opened CodeSegments
  import opened ArithBlockEncoder

  /** BadCode: corrupt data, decoding goes on with zeros. NoInput: the source cannot be suspended. */
  datatype Status = Good | BadCode | NoInput

  /** The powers of two below the 15-bit limit. */
  predicate IsCategory(m: int)
    decreases m
  {
    m == 1 || (1 < m < 0x8000 && m % 2 == 0 && IsCategory(m / 2))
  }

  lemma {:induction false} CategoryBelow(m: nat, n: nat)
    requires IsCategory(m) && m < Shl(1, n + 1)
    ensures m <= Shl(1, n)
    decreases n
  {
    if n > 0 {
      ShlShl(1, n, 1);
      ShlShl(1, n - 1, 1);
      if m > 1 {
        CategoryBelow(m / 2, n - 1);
      } else {
        ShlZero(n);
        ShlOrder(0, 1, n);
      }
    }
  }

  /** Doubling a category either stays below the limit or hits it exactly. */
  lemma CategoryDoubles(m: nat)
    requires IsCategory(m)
    ensures 2 * m == 0x8000 || IsCategory(2 * m)
  {
    ShlFifteen(1);
    ShlShl(1, 14, 1);
    CategoryBelow(m, 14);
  }

  /** m is a category, and j doublings from m0 have led to it. */
  predicate Doubled(m0: nat, m: nat, j: int) {
    0 < m0 && 0 < m < 0x8000 && IsCategory(m) && Log(m) == Log(m0) + j
  }

  lemma DoubledOnce(m0: nat, m: nat, j: int)
    requires Doubled(m0, m, j)
    ensures j <= 14
    ensures 2 * m == 0x8000 || Doubled(m0, 2 * m, j + 1)
  {
    ShlFifteen(1);
    LogBound(m, 14);
    CategoryDoubles(m);
  }

  lemma {:induction false} ClimbGrows(m: nat, v: nat)
    requires v > 0
    ensures Climb(m, v) >= m
    decreases v
  {
    if v >= 2 {
      ClimbGrows(2 * m, v / 2);
    }
  }

  /** One decision: the common step of the decoders below. */
  method DecodeOne(e: ArithDecoder, area: Area, st: nat, ghost bit: Bit, ghost tail: seq<Decision>)
    returns (ok: bool, b: Bit)
    requires e.Valid() && st < AreaSize(area)
    modifies e
    ensures ok ==> e.Valid()
    ensures var plan := old(e.plan);
            old(e.Faces(plan, [D(area, st, bit)] + tail)) ==> ok && b == bit && e.Faces(plan, tail)
  {
    ghost var script := [D(area, st, bit)] + tail;
    assert script[0] == D(area, st, bit) && script[1..] == tail;
    ok, b := e.ArithDecode(Bin(area, st));
  }

  /** One category decision; v is what is left of the encoder's value. */
  method DecodeUnaryBit(e: ArithDecoder, area: Area, st: nat, ghost v: nat, ghost tail: seq<Decision>)
    returns (ok: bool, bit: Bit)
    requires e.Valid() && st < AreaSize(area) && v > 0
    modifies e
    ensures ok ==> e.Valid()
    ensures var plan := old(e.plan);
            old(e.Faces(plan, Unary(area, st, v) + tail)) ==>
              && ok && bit == (if v < 2 then 0 else 1)
              && e.Faces(plan, if v < 2 then tail else Unary(area, st + 1, v / 2) + tail)
  {
    ghost var more := if v < 2 then [] else Unary(area, st + 1, v / 2);
    assert v < 2 ==> more + tail == tail;
    Assoc([D(area, st, if v < 2 then 0 else 1)], more, tail);
    ok, bit := DecodeOne(e, area, st, if v < 2 then 0 else 1, more + tail);
  }

  predicate Climbing(m: nat, st: nat, v: nat, m': nat, st': nat, v': nat) {
    && v > 0 && v' > 0
    && Climb(m', v') == Climb(m, v) && st' + Log(v') == st + Log(v)
  }

  lemma ClimbStep(m: nat, st: nat, v: nat, m': nat, st': nat, v': nat)
    requires Climbing(m, st, v, m', st', v')
    ensures v' >= 2 ==> Climbing(m, st, v, 2 * m', st' + 1, v' / 2) && 2 * m' <= Climb(m, v)
    ensures v' < 2 ==> Climb(m, v) == m' && st' == st + Log(v)
  {
    if v' >= 2 {
      ClimbGrows(2 * m', v' / 2);
    }
  }

  /** One decision on the way to the category m doubles up to. */
  method ClimbOnce(e: ArithDecoder, area: Area, st: nat, ghost start: nat, ghost m0: nat, ghost m: nat, ghost v: nat,
                   ghost v2: nat, ghost known: bool, ghost tail: seq<Decision>)
    returns (ok: bool, bit: Bit)
    requires e.Valid() && st < AreaSize(area) && v2 > 0
    requires known ==> Climbing(m0, start, v, m, st, v2) && e.Faces(e.plan, Unary(area, st, v2) + tail)
    modifies e
    ensures ok ==> e.Valid()
    ensures known ==> ok && bit == if v2 < 2 then 0 else 1
    ensures known && v2 < 2 ==> Climb(m0, v) == m && st == start + Log(v) && e.Faces(old(e.plan), tail)
    ensures known && v2 >= 2 ==>
              && Climbing(m0, start, v, 2 * m, st + 1, v2 / 2) && 2 * m <= Climb(m0, v)
              && e.Faces(old(e.plan), Unary(area, st + 1, v2 / 2) + tail)
  {
    if known {
      ClimbStep(m0, start, v, m, st, v2);
    }
    ok, bit := DecodeUnaryBit(e, area, st, v2, tail);
  }

  /**
   * Figure F.23: doubles m until a zero decision. The result for the encoder's v is its category,
   * unless that is beyond the 15-bit limit.
   */
  method DecodeCategory(e: ArithDecoder, area: Area, start: nat, m0: nat, ghost v: nat, ghost tail: seq<Decision>)
    returns (s: Status, m: nat, st: nat)
    requires e.Valid() && 0 < m0 <= 2 && start + 15 < AreaSize(area) && v > 0
    modifies e
    ensures s != NoInput ==> e.Valid()
    ensures s == Good ==> IsCategory(m) && start <= st <= start + 14
    ensures var plan := old(e.plan);
            old(e.Faces(plan, Unary(area, start, v) + tail)) ==>
              if Climb(m0, v) < 0x8000 then
                s == Good && m == Climb(m0, v) && st == start + Log(v) && e.Faces(plan, tail)
              else s == BadCode
  {
    s, m, st := Good, m0, start;
    ghost var plan := e.plan;
    ghost var v2 := v;
    ghost var known := e.Faces(plan, Unary(area, start, v) + tail);
    assert IsCategory(m0) by {
      assert IsCategory(1);
    }
    while true
      invariant e.Valid() && start <= st && Doubled(m0, m, st - start) && v2 > 0 && (known ==> e.plan == plan)
      invariant known ==> Climbing(m0, start, v, m, st, v2)
      invariant known ==> e.Faces(plan, Unary(area, st, v2) + tail)
      decreases 0x8000 - m
    {
      DoubledOnce(m0, m, st - start);
      var ok, bit := ClimbOnce(e, area, st, start, m0, m, v, v2, known, tail);
      if !ok {
        s := NoInput;
        break;
      }
      if bit == 0 {
        break;
      }
      m := 2 * m;
      if m == 0x8000 {
        s := BadCode;
        break;
      }
      st := st + 1;
      v2 := if v2 >= 2 then v2 / 2 else 1;
    }
  }

  /** v without its bits below m. */
  function Upper(v: nat, m: nat): nat
    decreases m
  {
    if m < 2 then v else 2 * Upper(v / 2, m / 2)
  }

  /** One more bit of v is known. */
  lemma {:induction false} UpperBit(v: nat, m: nat)
    requires IsCategory(m) && m >= 2
    ensures Upper(v, m / 2) == Upper(v, m) + if BitAt(v, m / 2) == 1 then m / 2 else 0
    decreases m
  {
    if m >= 4 {
      UpperBit(v / 2, m / 2);
    }
  }

  lemma {:induction false} UpperTop(v: nat)
    requires v > 0
    ensures Upper(v, TopBit(v)) == TopBit(v)
    decreases v
  {
    if v >= 2 {
      UpperTop(v / 2);
    }
  }

  /** Figure F.24: the bits below the leading one. */
  method DecodePattern(e: ArithDecoder, area: Area, st: nat, top: nat, ghost v: nat, ghost tail: seq<Decision>)
    returns (s: Status, r: nat)
    requires e.Valid() && InArea(Bin(area, st)) && (top == 0 || IsCategory(top))
    modifies e
    ensures s == Good ==> e.Valid()
    ensures s != BadCode
    ensures var plan := old(e.plan);
            old(e.Faces(plan, Pattern(area, st, v, top) + tail)) && top == Category(v) ==>
                s == Good && r == v && e.Faces(plan, tail)
  {
    s, r := Good, top;
    ghost var plan := e.plan;
    ghost var known := e.Faces(plan, Pattern(area, st, v, top) + tail) && top == Category(v);
    var m := top;
    if v > 0 {
      UpperTop(v);
    }
    while m / 2 != 0
      invariant e.Valid() && (m == 0 || IsCategory(m)) && (m == 0 <==> top == 0)
      invariant known ==> if m == 0 then r == v == 0 else r == Upper(v, m)
      invariant known ==> e.Faces(plan, Pattern(area, st, v, m) + tail)
      decreases m
    {
      UpperBit(v, m);
      Assoc([D(area, st, BitAt(v, m / 2))], Pattern(area, st, v, m / 2), tail);
      ghost var rest := Pattern(area, st, v, m / 2) + tail;
      m := m / 2;
      var ok, bit := DecodeOne(e, area, st, BitAt(v, m), rest);
      if !ok {
        s := NoInput;
        break;
      }
      if bit == 1 {
        r := r + m;
      }
    }
    assert [] + tail == tail;
  }

  lemma {:induction false} TopBitAtLeast(v: nat, n: nat)
    requires Shl(1, n) <= v && v > 0
    ensures Shl(1, n) <= TopBit(v)
    decreases n
  {
    if n > 0 {
      ShlShl(1, n - 1, 1);
      ShlZero(n - 1);
      ShlOrder(0, 1, n - 1);
      TopBitAtLeast(v / 2, n - 1);
    }
  }

  /** The decoder's limit on categories is a limit on magnitudes. */
  lemma CategoryLimit(v: nat)
    requires v > 0
    ensures Climb(1, v) == TopBit(v) && (TopBit(v) < 0x8000 <==> v < 0x8000)
    ensures v >= 2 ==> Climb(2, v / 2) == TopBit(v)
  {
    ClimbIsTopBit(1, v);
    ShlFifteen(1);
    if v >= 0x8000 {
      TopBitAtLeast(v, 15);
    }
  }

  /** Figure F.23 for a DC difference. */
  method DecodeDcCategory(e: ArithDecoder, area: Area, st0: nat, ghost v: nat, ghost tail: seq<Decision>)
    returns (s: Status, m: nat, st: nat)
    requires e.Valid() && area.DcArea? && st0 < X1
    modifies e
    ensures s != NoInput ==> e.Valid()
    ensures s == Good ==> (m == 0 || IsCategory(m)) && st <= 34
    ensures var plan := old(e.plan);
            old(e.Faces(plan, DcCategory(area, st0, v) + tail)) ==>
              if v < 0x8000 then s == Good && m == Category(v) && st == DcLast(st0, v) && e.Faces(plan, tail)
              else s == BadCode
  {
    ghost var unary := if v == 0 then [] else Unary(area, X1, v);
    ghost var bit := if v == 0 then 0 else 1;
    assert DcCategory(area, st0, v) == [D(area, st0, bit)] + unary;
    Assoc([D(area, st0, bit)], unary, tail);
    assert v == 0 ==> unary + tail == tail;
    if v > 0 {
      CategoryLimit(v);
    }
    s, m, st := Good, 0, st0;
    var ok, b := DecodeOne(e, area, st, bit, unary + tail);
    if !ok {
      s := NoInput;
    } else if b != 0 {
      s, m, st := DecodeCategory(e, area, 20, 1, if v == 0 then 1 else v, tail);
    }
  }

  /** Figures F.23 and F.24 for a DC difference: r is its magnitude less one, m the category. */
  method DecodeDcMagnitude(e: ArithDecoder, area: Area, st0: nat, ghost v: nat, ghost tail: seq<Decision>)
    returns (s: Status, m: nat, r: nat)
    requires e.Valid() && area.DcArea? && st0 < X1
    modifies e
    ensures s != NoInput ==> e.Valid()
    ensures var plan := old(e.plan);
            old(e.Faces(plan, DcMagnitude(area, st0, v) + tail)) ==>
              if v < 0x8000 then s == Good && m == Category(v) && r == v && e.Faces(plan, tail)
              else s == BadCode
  {
    ghost var pattern := Pattern(area, DcLast(st0, v) + 14, v, Category(v));
    Assoc(DcCategory(area, st0, v), pattern, tail);
    r := 0;
    var st;
    s, m, st := DecodeDcCategory(e, area, st0, v, pattern + tail);
    if s == Good {
      s, r := DecodePattern(e, area, st + 14, m, v, tail);
    }
  }

  /** Figures F.21 to F.24: a nonzero difference, from its sign decision on. */
  method DecodeDcNonzero(e: ArithDecoder, area: Area, ctx: nat, cond: Conditioning, ghost diff: int,
                         ghost tail: seq<Decision>)
    returns (s: Status, v: int, next: nat)
    requires e.Valid() && area.DcArea? && ctx <= 16 && diff != 0
    modifies e
    ensures s != NoInput ==> e.Valid()
    ensures next <= 16
    ensures var plan := old(e.plan);
            old(e.Faces(plan, DcNonzero(area, ctx, diff) + tail)) ==>
              if Abs(diff) <= 0x8000 then
                s == Good && v == diff && next == NextContext(cond, diff) && e.Faces(plan, tail)
              else s == BadCode
  {
    ghost var magnitude := DcMagnitude(area, ctx + 2 + Sign(diff), Abs(diff) - 1);
    Assoc([D(area, ctx + 1, Sign(diff))], magnitude, tail);
    s, v, next := NoInput, 0, 0;
    var ok, neg := DecodeOne(e, area, ctx + 1, Sign(diff), magnitude + tail);
    if ok {
      var m, r;
      s, m, r := DecodeDcMagnitude(e, area, ctx + 2 + neg, Abs(diff) - 1, tail);
      next := ContextFor(cond, m, neg);
      v := r + 1;
      if neg == 1 {
        v := -v;
      }
    }
  }

  /** Figure F.19; v is the difference and next the new conditioning category. */
  method DecodeDcDiff(e: ArithDecoder, tbl: nat, ctx: nat, cond: Conditioning, ghost diff: int,
                      ghost tail: seq<Decision>)
    returns (s: Status, v: int, next: nat)
    requires e.Valid() && ctx <= 16
    modifies e
    ensures s != NoInput ==> e.Valid()
    ensures next <= 16
    ensures var plan := old(e.plan);
            old(e.Faces(plan, DcDiff(tbl, ctx, diff) + tail)) ==>
              if Abs(diff) <= 0x8000 then
                s == Good && v == diff && next == NextContext(cond, diff) && e.Faces(plan, tail)
              else s == BadCode
  {
    var area := DcArea(tbl);
    ghost var w := if diff == 0 then 1 else diff;
    ghost var after := if diff == 0 then tail else DcNonzero(area, ctx, w) + tail;
    ghost var nz := if diff == 0 then 0 else 1;
    Assoc([D(area, ctx, 1)], DcNonzero(area, ctx, w), tail);
    s, v, next := NoInput, 0, 0;
    var ok, b := DecodeOne(e, area, ctx, nz, after);
    if ok {
      if b == 0 {
        s := Good;
      } else {
        s, v, next := DecodeDcNonzero(e, area, ctx, cond, w, tail);
      }
    }
  }

  // ---- AC coefficients

  /** Figure F.23 for an AC coefficient. */
  method DecodeAcCategory(e: ArithDecoder, area: Area, st0: nat, x: nat, ghost v: nat, ghost tail: seq<Decision>)
    returns (s: Status, m: nat, st: nat)
    requires e.Valid() && area.AcArea? && st0 < 189 && x <= 217
    modifies e
    ensures s != NoInput ==> e.Valid()
    ensures s == Good ==> (m == 0 || IsCategory(m)) && st <= 231
    ensures var plan := old(e.plan);
            old(e.Faces(plan, AcCategory(area, st0, x, v) + tail)) ==>
              if v < 0x8000 then s == Good && m == Category(v) && st == AcLast(st0, x, v) && e.Faces(plan, tail)
              else s == BadCode
  {
    ghost var unary := if v < 2 then [] else Unary(area, x, v / 2);
    ghost var second := if v == 0 then [] else [D(area, st0, if v < 2 then 0 else 1)];
    ghost var first := [D(area, st0, if v == 0 then 0 else 1)];
    assert AcCategory(area, st0, x, v) == first + second + unary;
    Assoc(first + second, unary, tail);
    Assoc(first, second, unary + tail);
    assert v < 2 ==> unary + tail == tail;
    assert v == 0 ==> second + tail == tail;
    if v > 0 {
      CategoryLimit(v);
    }
    s, m, st := Good, 0, st0;
    var ok, b := DecodeOne(e, area, st, if v == 0 then 0 else 1, second + (unary + tail));
    if ok && b == 1 {
      m := 1;
      ok, b := DecodeOne(e, area, st, if v < 2 then 0 else 1, unary + tail);
      if ok && b == 1 {
        s, m, st := DecodeCategory(e, area, x, 2 * m, if v < 2 then 1 else v / 2, tail);
      }
    }
    if !ok {
      s := NoInput;
    }
  }

  /** Figures F.23 and F.24 for an AC coefficient: r is its magnitude less one. */
  method DecodeAcMagnitude(e: ArithDecoder, area: Area, st0: nat, x: nat, ghost v: nat, ghost tail: seq<Decision>)
    returns (s: Status, r: nat)
    requires e.Valid() && area.AcArea? && st0 < 189 && x <= 217
    modifies e
    ensures s != NoInput ==> e.Valid()
    ensures var plan := old(e.plan);
            old(e.Faces(plan, AcMagnitude(area, st0, x, v) + tail)) ==>
              if v < 0x8000 then s == Good && r == v && e.Faces(plan, tail)
              else s == BadCode
  {
    ghost var pattern := Pattern(area, AcLast(st0, x, v) + 14, v, Category(v));
    Assoc(AcCategory(area, st0, x, v), pattern, tail);
    r := 0;
    var m, st;
    s, m, st := DecodeAcCategory(e, area, st0, x, v, pattern + tail);
    if s == Good {
      s, r := DecodePattern(e, area, st + 14, m, v, tail);
    }
  }

  /** Sign and magnitude of a nonzero coefficient at position k. */
  method DecodeAcSigned(e: ArithDecoder, tbl: nat, kx: nat, k: nat, ghost v: int, ghost tail: seq<Decision>)
    returns (s: Status, r: int)
    requires e.Valid() && 0 < k < DCTSIZE2 && v != 0
    modifies e
    ensures s != NoInput ==> e.Valid()
    ensures s == Good ==> r != 0
    ensures var plan := old(e.plan);
            old(e.Faces(plan, AcSigned(tbl, kx, k, v) + tail)) && Abs(v) <= 0x8000 ==>
                s == Good && r == v && e.Faces(plan, tail)
  {
    ghost var magnitude := AcMagnitude(AcArea(tbl), Se0(k) + 2, AcX(k, kx), Abs(v) - 1);
    Assoc([D(FixedArea, 0, Sign(v))], magnitude, tail);
    s, r := NoInput, 0;
    var ok, sign := DecodeOne(e, FixedArea, 0, Sign(v), magnitude + tail);
    if ok {
      var m: nat;
      s, m := DecodeAcMagnitude(e, AcArea(tbl), 3 * k - 1, if k <= kx then 189 else 217, Abs(v) - 1, tail);
      r := m + 1;
      if sign == 1 {
        r := -r;
      }
    }
  }

  /** What the encoder can have put into a band. */
  ghost predicate Band(zz: seq<int>, se: nat) {
    se < |zz| <= DCTSIZE2 && forall k :: 0 <= k < |zz| ==> Abs(zz[k]) <= 0x8000
  }

  lemma {:induction false} DepositSkips(b: Block, order: Order, zz: seq<int>, al: nat, k: nat, se: nat)
    requires k <= se < |order| && |zz| == |order|
    ensures Deposit(b, order, zz, al, k, se) == Deposit(b, order, zz, al, NextNonzero(zz, k, se), se)
    decreases se - k
  {
    if zz[k] == 0 && k < se {
      DepositSkips(b, order, zz, al, k + 1, se);
    }
  }

  /** Between bands of zeros and coefficients: what comes next. */
  datatype Phase = AtEob | InRun | AtCoef

  function PhaseDecisions(tbl: nat, kx: nat, zz: seq<int>, phase: Phase, k: nat, se: nat): seq<Decision>
    requires 0 < k && se < |zz| && (phase.AtCoef? ==> k <= se && zz[k] != 0)
  {
    match phase
    case AtEob => AcBand(tbl, kx, zz, k, se)
    case InRun => AcRun(tbl, kx, zz, k, se)
    case AtCoef => AcSigned(tbl, kx, k, zz[k]) + AcBand(tbl, kx, zz, k + 1, se)
  }

  /** A band being read: what the encoder has still to say about it, and what its block is to become. */
  datatype BandJob = BandJob(plan: Plan, tbl: nat, kx: nat, order: Order, al: nat, se: nat, zz: seq<int>,
                             tail: seq<Decision>, target: Block)

  /** The job is done up to position k, and block r shows it. */
  ghost predicate Started(e: ArithDecoder, j: BandJob, phase: Phase, r: Block, k: nat)
    reads e
  {
    && 0 < k <= j.se + 1 <= |j.order| == |j.zz| && Band(j.zz, j.se)
    && (phase.InRun? ==> k <= j.se && !AllZero(j.zz, k, j.se))
    && (phase.AtCoef? ==> k <= j.se && j.zz[k] != 0)
    && Deposit(r, j.order, j.zz, j.al, k, j.se) == j.target
    && e.Faces(j.plan, PhaseDecisions(j.tbl, j.kx, j.zz, phase, k, j.se) + j.tail)
  }

  /** (folded) */
  ghost predicate Reading(e: ArithDecoder, j: BandJob, phase: Phase, r: Block, k: nat)
    reads e
  {
    forall n: nat {:trigger Unfolded(BandReading, n)} :: Unfolded(BandReading, n) ==> Started(e, j, phase, r, k)
  }

  /** The end-of-block decision at position k. */
  method DecodeEob(e: ArithDecoder, tbl: nat, b: Block, k: nat, se: nat, ghost j: BandJob) returns (ok: bool, eob: bool)
    requires e.Valid() && 0 < k <= se < DCTSIZE2 && j.tbl == tbl && j.se == se
    modifies e
    ensures ok ==> e.Valid()
    ensures old(Reading(e, j, AtEob, b, k)) ==>
              ok && if eob then Reading(e, j, AtEob, b, se + 1) else Reading(e, j, InRun, b, k)
  {
    assert Unfolded(BandReading, 0);
    ghost var end, rest := false, [];
    if Started(e, j, AtEob, b, k) {
      end := AllZero(j.zz, k, se);
      rest := if end then [] else AcRun(tbl, j.kx, j.zz, k, se);
      Assoc([D(AcArea(tbl), Se0(k), if end then 1 else 0)], rest, j.tail);
      DepositSkips(b, j.order, j.zz, j.al, k, se);
      assert [] + j.tail == j.tail;
    }
    var bit;
    ok, bit := DecodeOne(e, AcArea(tbl), 3 * (k - 1), if end then 1 else 0, rest + j.tail);
    eob := bit == 1;
  }

  lemma RunHead(tbl: nat, kx: nat, zz: seq<int>, k: nat, se: nat, tail: seq<Decision>)
    returns (bit: Bit, rest: seq<Decision>)
    requires 0 < k <= se < |zz| && !AllZero(zz, k, se)
    ensures bit == if zz[k] == 0 then 0 else 1
    ensures bit == 0 ==> k < se && !AllZero(zz, k + 1, se) && rest == PhaseDecisions(tbl, kx, zz, InRun, k + 1, se)
    ensures bit == 1 ==> rest == PhaseDecisions(tbl, kx, zz, AtCoef, k, se)
    ensures AcRun(tbl, kx, zz, k, se) + tail == [D(AcArea(tbl), Se0(k) + 1, bit)] + (rest + tail)
  {
    if zz[k] == 0 {
      bit, rest := 0, AcRun(tbl, kx, zz, k + 1, se);
    } else {
      bit, rest := 1, PhaseDecisions(tbl, kx, zz, AtCoef, k, se);
    }
    Assoc([D(AcArea(tbl), Se0(k) + 1, bit)], rest, tail);
  }

  /** Where a zero decision leads, and the decisions behind it. */
  datatype ZeroStep = ZeroStep(found: bool, next: nat, rest: seq<Decision>)

  /** (folded) */
  ghost predicate IsZeroStep(j: BandJob, b: Block, k: nat, z: ZeroStep) {
    forall n: nat {:trigger Unfolded(BandStepping, n)} :: Unfolded(BandStepping, n) ==>
      && 0 < k <= j.se < |j.order| == |j.zz| && Band(j.zz, j.se) && !AllZero(j.zz, k, j.se)
      && Deposit(b, j.order, j.zz, j.al, k, j.se) == j.target && (z.found <==> j.zz[k] != 0)
      && (if z.found then z.next == k else z.next == k + 1 <= j.se && !AllZero(j.zz, z.next, j.se))
      && z.rest == PhaseDecisions(j.tbl, j.kx, j.zz, if z.found then AtCoef else InRun, z.next, j.se)
  }

  lemma ZeroAhead(e: ArithDecoder, b: Block, k: nat, se: nat, j: BandJob) returns (z: ZeroStep)
    requires Reading(e, j, InRun, b, k) && 0 < k <= se && j.se == se
    ensures IsZeroStep(j, b, k, z) && z.next == (if z.found then k else k + 1) <= se
    ensures e.Faces(j.plan, [D(AcArea(j.tbl), Se0(k) + 1, if z.found then 1 else 0)] + (z.rest + j.tail))
  {
    assert Unfolded(BandReading, 0);
    var want, rest := RunHead(j.tbl, j.kx, j.zz, k, se, j.tail);
    z := ZeroStep(want == 1, if want == 1 then k else k + 1, rest);
  }

  lemma ZeroRead(e: ArithDecoder, j: BandJob, b: Block, k: nat, z: ZeroStep)
    requires IsZeroStep(j, b, k, z) && e.Faces(j.plan, z.rest + j.tail)
    ensures Reading(e, j, if z.found then AtCoef else InRun, b, z.next)
  {
    assert Unfolded(BandStepping, 0);
  }

  /** One zero decision of a band that is not finished. */
  method DecodeZero(e: ArithDecoder, tbl: nat, ghost b: Block, k: nat, se: nat, ghost known: bool, ghost j: BandJob)
    returns (ok: bool, found: bool, next: nat)
    requires e.Valid() && 0 < k <= se < DCTSIZE2 && j.tbl == tbl && j.se == se
    requires known ==> Reading(e, j, InRun, b, k)
    modifies e
    ensures (ok ==> e.Valid()) && next == (if found then k else k + 1)
    ensures known ==> ok && next <= se && Reading(e, j, if found then AtCoef else InRun, b, next)
  {
    ghost var z := ZeroStep(false, k + 1, []);
    if known {
      z := ZeroAhead(e, b, k, se, j);
    }
    var bit;
    ok, bit := DecodeOne(e, AcArea(tbl), 3 * (k - 1) + 1, if z.found then 1 else 0, z.rest + j.tail);
    found := bit == 1;
    next := if found then k else k + 1;
    if known {
      ZeroRead(e, j, b, k, z);
    }
  }

  /** Zero decisions up to the position of the next nonzero coefficient. */
  method DecodeZeroRun(e: ArithDecoder, tbl: nat, b: Block, start: nat, se: nat, ghost j: BandJob)
    returns (s: Status, k: nat)
    requires e.Valid() && 0 < start <= se < DCTSIZE2 && j.tbl == tbl && j.se == se
    modifies e
    ensures s != NoInput ==> e.Valid()
    ensures start <= k && (s == Good ==> k <= se)
    ensures old(Reading(e, j, InRun, b, start)) ==> s == Good && Reading(e, j, AtCoef, b, k)
  {
    s, k := Good, start;
    ghost var known := Reading(e, j, InRun, b, start);
    var found := false;
    while s == Good && !found
      invariant start <= k && (s != NoInput ==> e.Valid()) && (s == Good ==> k <= se)
      invariant known ==> s == Good && Reading(e, j, if found then AtCoef else InRun, b, k)
      decreases se + 1 - k, !found, s == Good
    {
      var ok;
      ok, found, k := DecodeZero(e, tbl, b, k, se, known, j);
      if !ok {
        s := NoInput;
      } else if k > se {
        s := BadCode;
      }
    }
  }

  /** Sign and magnitude at position k, stored in the block. */
  method DecodeCoefficient(e: ArithDecoder, tbl: nat, kx: nat, b: Block, order: Order, al: nat, k: nat, se: nat,
                           ghost j: BandJob)
    returns (s: Status, r: Block)
    requires e.Valid() && 0 < k <= se < |order|
    requires j.tbl == tbl && j.kx == kx && j.order == order && j.al == al && j.se == se
    modifies e
    ensures s != NoInput ==> e.Valid()
    ensures old(Reading(e, j, AtCoef, b, k)) ==> s == Good && Reading(e, j, AtEob, r, k + 1)
  {
    assert Unfolded(BandReading, 0);
    ghost var want, rest := 1, [];
    if Started(e, j, AtCoef, b, k) {
      want, rest := j.zz[k], AcBand(tbl, kx, j.zz, k + 1, se);
      Assoc(AcSigned(tbl, kx, k, want), rest, j.tail);
    }
    var v;
    s, v := DecodeAcSigned(e, tbl, kx, k, want, rest + j.tail);
    r := b[order[k] := ToCoef(Shl(v, al))];
  }

  /** An end-of-block decision and, unless it ends the block, the next nonzero coefficient. */
  method DecodeBandStep(e: ArithDecoder, tbl: nat, kx: nat, b: Block, order: Order, al: nat, start: nat, se: nat,
                        ghost j: BandJob)
    returns (s: Status, r: Block, k: nat)
    requires e.Valid() && 0 < start <= se < |order|
    requires j.tbl == tbl && j.kx == kx && j.order == order && j.al == al && j.se == se
    modifies e
    ensures s != NoInput ==> e.Valid()
    ensures start < k && (s == Good ==> k <= se + 1)
    ensures old(Reading(e, j, AtEob, b, start)) ==> s == Good && Reading(e, j, AtEob, r, k)
  {
    s, r, k := NoInput, b, se + 1;
    var ok, eob := DecodeEob(e, tbl, b, start, se, j);
    if ok {
      s := Good;
      if !eob {
        s, k := DecodeZeroRun(e, tbl, b, start, se, j);
        if s == Good {
          s, r := DecodeCoefficient(e, tbl, kx, b, order, al, k, se, j);
        }
        k := k + 1;
      }
    }
  }

  lemma BandStart(e: ArithDecoder, j: BandJob, b: Block, ss: nat)
    requires 0 < ss <= j.se < |j.order| == |j.zz| && Band(j.zz, j.se)
    requires j.target == Deposit(b, j.order, j.zz, j.al, ss, j.se)
    requires e.Faces(j.plan, AcBand(j.tbl, j.kx, j.zz, ss, j.se) + j.tail)
    ensures Reading(e, j, AtEob, b, ss)
  {
  }

  lemma BandDone(e: ArithDecoder, j: BandJob, r: Block)
    requires Reading(e, j, AtEob, r, j.se + 1)
    ensures r == j.target && e.Faces(j.plan, j.tail)
  {
    assert Unfolded(BandReading, 0);
    assert [] + j.tail == j.tail;
  }

  /** Figure F.20: the AC coefficients ss..se, scaled by al, are stored in the block. */
  method DecodeAcBand(e: ArithDecoder, tbl: nat, kx: nat, b: Block, order: Order, al: nat, ss: nat, se: nat,
                      ghost zz: seq<int>, ghost tail: seq<Decision>)
    returns (s: Status, r: Block)
    requires e.Valid() && 0 < ss <= se < |order| == |zz| && Band(zz, se)
    modifies e
    ensures s != NoInput ==> e.Valid()
    ensures var plan := old(e.plan);
            old(e.Faces(plan, AcBand(tbl, kx, zz, ss, se) + tail)) ==>
              s == Good && r == Deposit(b, order, zz, al, ss, se) && e.Faces(plan, tail)
  {
    s, r := Good, b;
    ghost var j := BandJob(e.plan, tbl, kx, order, al, se, zz, tail, Deposit(b, order, zz, al, ss, se));
    ghost var known := e.Faces(e.plan, AcBand(tbl, kx, zz, ss, se) + tail);
    if known {
      BandStart(e, j, b, ss);
    }
    var k := ss;
    while s == Good && k <= se
      invariant 0 < k && (s != NoInput ==> e.Valid()) && (s == Good ==> k <= se + 1)
      invariant known ==> s == Good && Reading(e, j, AtEob, r, k)
      decreases s == Good, se + 1 - k
    {
      s, r, k := DecodeBandStep(e, tbl, kx, r, order, al, k, se, j);
    }
    if known {
      BandDone(e, j, r);
    }
  }

  // ---- AC refinement

  /**
   * One coefficient of a refinement scan: a correction bit if it was nonzero, otherwise whether it
   * becomes nonzero now. The result `done` is false when it stays zero.
   */
  method DecodeRefineCoef(e: ArithDecoder, tbl: nat, k: nat, c: Coef, al: nat, ghost z: int, ghost tail: seq<Decision>)
    returns (ok: bool, done: bool, r: Coef)
    requires e.Valid() && 0 < k < DCTSIZE2
    modifies e
    ensures ok ==> e.Valid()
    ensures var plan := old(e.plan);
            old(e.Faces(plan, RefineCoef(tbl, k, z) + tail)) && c == Shl(Half(z), al + 1) ==>
              && ok && done == (z != 0) && r == (if z == 0 then c else ToCoef(Shl(z, al)))
              && e.Faces(plan, tail)
  {
    var area := AcArea(tbl);
    r, done := c, true;
    var bit;
    if c == Shl(Half(z), al + 1) {
      AppendBit(c, z, al);
    }
    if c != 0 {
      ok, bit := DecodeOne(e, area, 3 * (k - 1) + 2, Abs(z) % 2, tail);
      if bit == 1 {
        r := if c < 0 then ToCoef(c + Shl(-1, al)) else ToCoef(c + Shl(1, al));
      } else {
        ShlZero(al);
      }
    } else {
      ghost var sign := if Abs(z) == 1 then [D(FixedArea, 0, Sign(z))] else [];
      Assoc([D(area, Se0(k) + 1, 1)], sign, tail);
      ok, bit := DecodeOne(e, area, 3 * (k - 1) + 1, if z == 0 then 0 else 1, sign + tail);
      if ok && bit == 1 {
        ok, bit := DecodeOne(e, FixedArea, 0, Sign(z), tail);
        r := if bit == 1 then ToCoef(Shl(-1, al)) else ToCoef(Shl(1, al));
      } else {
        done := false;
      }
    }
  }

  /** Storing the coefficient at position k leaves the later ones refinable. */
  lemma StillRefinable(b: Block, order: Order, zz: seq<int>, al: nat, k: nat, se: nat, c: Coef)
    requires k <= se < |order| == |zz| && Refinable(b, order, zz, al, k, se)
    ensures Refinable(b[order[k] := c], order, zz, al, k + 1, se)
  {
    forall j | k + 1 <= j <= se
      ensures b[order[k] := c][order[j]] == Shl(Half(zz[j]), al + 1)
    {
      assert order[k] != order[j];
    }
  }

  lemma DepositOne(b: Block, order: Order, zz: seq<int>, al: nat, k: nat, se: nat)
    requires k <= se < |order| == |zz|
    ensures zz[k] == 0 ==> Deposit(b, order, zz, al, k, se) == Deposit(b, order, zz, al, k + 1, se)
    ensures zz[k] != 0 ==> Deposit(b, order, zz, al, k, se)
                           == Deposit(b[order[k] := ToCoef(Shl(zz[k], al))], order, zz, al, k + 1, se)
    ensures b[order[k] := b[order[k]]] == b
  {
  }

  /** EOBx from the block itself: its last nonzero coefficient, looked for from the end of the band. */
  method FindBlockEnd(b: Block, order: Order, se: nat, ghost zz: seq<int>, ghost al: nat, ghost ss: nat)
    returns (kex: nat)
    requires se < |order| == |zz| && 0 < ss
    ensures Refinable(b, order, zz, al, ss, se) ==>
              kex == PreviousEnd(zz, ss, se) || (kex < ss && PreviousEnd(zz, ss, se) < ss)
  {
    kex := se;
    while kex > 0 && b[order[kex]] == 0
      invariant kex <= se
      invariant Refinable(b, order, zz, al, ss, se) ==> PreviousEnd(zz, ss, kex) == PreviousEnd(zz, ss, se)
    {
      if kex >= ss && Refinable(b, order, zz, al, ss, se) {
        AppendBit(b[order[kex]], zz[kex], al);
      }
      kex := kex - 1;
    }
    if kex >= ss && Refinable(b, order, zz, al, ss, se) {
      AppendBit(b[order[kex]], zz[kex], al);
    }
  }

  lemma {:induction false} PreviousEndIsNonzero(zz: seq<int>, ss: nat, j: nat)
    requires 0 < ss && j < |zz|
    ensures PreviousEnd(zz, ss, j) < ss || (PreviousEnd(zz, ss, j) <= j && Abs(zz[PreviousEnd(zz, ss, j)]) > 1)
    decreases j
  {
    if j >= ss && Abs(zz[j]) <= 1 {
      PreviousEndIsNonzero(zz, ss, j - 1);
    }
  }

  /** A band being refined: what the encoder has still to say about it, and what its block is to become. */
  datatype RefineJob = RefineJob(plan: Plan, tbl: nat, order: Order, al: nat, se: nat, zz: seq<int>, kex: nat,
                                 tail: seq<Decision>, target: Block)

  /** The job is done up to position k, in a run of zeros or not, and block r shows it. */
  ghost predicate Underway(e: ArithDecoder, j: RefineJob, run: bool, r: Block, k: nat)
    reads e
  {
    && 0 < k <= j.se + 1 <= |j.order| == |j.zz|
    && (run ==> k <= j.se && !AllZero(j.zz, k, j.se))
    && (k <= j.kex ==> j.kex <= j.se && j.zz[j.kex] != 0)
    && Refinable(r, j.order, j.zz, j.al, k, j.se)
    && Deposit(r, j.order, j.zz, j.al, k, j.se) == j.target
    && e.Faces(j.plan, RunOrBand(j.tbl, j.zz, j.kex, run, k, j.se) + j.tail)
  }

  /** (folded) */
  ghost predicate Refining(e: ArithDecoder, j: RefineJob, run: bool, r: Block, k: nat)
    reads e
  {
    forall n: nat {:trigger Unfolded(BandRefining, n)} :: Unfolded(BandRefining, n) ==> Underway(e, j, run, r, k)
  }

  method DecodeRefineStep(e: ArithDecoder, tbl: nat, b: Block, order: Order, al: nat, k: nat, se: nat,
                          ghost j: RefineJob)
    returns (ok: bool, done: bool, r: Block, next: nat)
    requires e.Valid() && 0 < k <= se < |order| && j.tbl == tbl && j.order == order && j.al == al && j.se == se
    modifies e
    ensures (ok ==> e.Valid()) && next == k + 1
    ensures old(Refining(e, j, true, b, k)) ==> ok && Refining(e, j, !done, r, next) && (!done ==> k < se)
  {
    next := k + 1;
    assert Unfolded(BandRefining, 0);
    ghost var z, rest := 0, [];
    if Underway(e, j, true, b, k) {
      z := j.zz[k];
      rest := RunOrBand(tbl, j.zz, j.kex, z == 0, k + 1, se);
      Assoc(RefineCoef(tbl, k, z), rest, j.tail);
      DepositOne(b, order, j.zz, al, k, se);
    }
    var c;
    ok, done, c := DecodeRefineCoef(e, tbl, k, b[order[k]], al, z, rest + j.tail);
    r := b[order[k] := c];
    if old(Underway(e, j, true, b, k)) {
      StillRefinable(b, order, j.zz, al, k, se, c);
    }
  }

  /** Coefficients up to and including the next one that is nonzero afterwards. */
  method DecodeRefineRun(e: ArithDecoder, tbl: nat, b: Block, order: Order, al: nat, start: nat, se: nat,
                         ghost j: RefineJob)
    returns (s: Status, r: Block, k: nat)
    requires e.Valid() && 0 < start <= se < |order| && j.tbl == tbl && j.order == order && j.al == al && j.se == se
    modifies e
    ensures s != NoInput ==> e.Valid()
    ensures start < k <= se + 1
    ensures old(Refining(e, j, true, b, start)) ==> s == Good && Refining(e, j, false, r, k)
  {
    s, r, k := Good, b, start;
    ghost var known := Refining(e, j, true, b, start);
    var done := false;
    while s == Good && !done
      invariant start <= k <= se + 1 && (s != NoInput ==> e.Valid()) && (s == Good && !done ==> k <= se)
      invariant s != Good || done ==> start < k
      invariant known ==> s == Good && Refining(e, j, !done, r, k)
      decreases se + 1 - k
    {
      var ok;
      ok, done, r, k := DecodeRefineStep(e, tbl, r, order, al, k, se, j);
      if !ok {
        s := NoInput;
      } else if !done && k > se {
        s := BadCode;
      }
    }
  }

  /** The end-of-block decision, which is left out up to EOBx. */
  method DecodeRefineEob(e: ArithDecoder, tbl: nat, kex: nat, b: Block, k: nat, se: nat, ghost j: RefineJob)
    returns (ok: bool, eob: bool)
    requires e.Valid() && 0 < k <= se < DCTSIZE2 && j.tbl == tbl && j.kex == kex && j.se == se
    modifies e
    ensures ok ==> e.Valid()
    ensures old(Refining(e, j, false, b, k)) ==>
              ok && if eob then Refining(e, j, false, b, se + 1) else Refining(e, j, true, b, k)
  {
    assert Unfolded(BandRefining, 0);
    ghost var end, rest := false, [];
    if Underway(e, j, false, b, k) {
      end := AllZero(j.zz, k, se);
      rest := if end then [] else RunOrBand(tbl, j.zz, kex, true, k, se);
      Assoc([D(AcArea(tbl), Se0(k), if end then 1 else 0)], rest, j.tail);
      DepositSkips(b, j.order, j.zz, j.al, k, se);
      if k <= kex {
        NotAllZero(j.zz, k, kex, se);
      }
    }
    ok, eob := true, false;
    assert [] + rest == rest && [] + j.tail == j.tail;
    if k > kex {
      var bit;
      ok, bit := DecodeOne(e, AcArea(tbl), 3 * (k - 1), if end then 1 else 0, rest + j.tail);
      eob := bit == 1;
    }
  }

  method DecodeRefineNext(e: ArithDecoder, tbl: nat, b: Block, order: Order, al: nat, kex: nat, start: nat, se: nat,
                          ghost j: RefineJob)
    returns (s: Status, r: Block, k: nat)
    requires e.Valid() && 0 < start <= se < |order|
    requires j.tbl == tbl && j.order == order && j.al == al && j.se == se && j.kex == kex
    modifies e
    ensures s != NoInput ==> e.Valid()
    ensures start < k <= se + 1
    ensures old(Refining(e, j, false, b, start)) ==> s == Good && Refining(e, j, false, r, k)
  {
    s, r, k := NoInput, b, se + 1;
    var ok, eob := DecodeRefineEob(e, tbl, kex, b, start, se, j);
    if ok {
      s := Good;
      if !eob {
        s, r, k := DecodeRefineRun(e, tbl, b, order, al, start, se, j);
      }
    }
  }

  lemma RefineStart(e: ArithDecoder, j: RefineJob, b: Block, ss: nat)
    requires 0 < ss <= j.se < |j.order| == |j.zz|
    requires Refinable(b, j.order, j.zz, j.al, ss, j.se) && j.target == Deposit(b, j.order, j.zz, j.al, ss, j.se)
    requires j.kex == PreviousEnd(j.zz, ss, j.se) || (j.kex < ss && PreviousEnd(j.zz, ss, j.se) < ss)
    requires e.Faces(j.plan, RefineBand(j.tbl, j.zz, PreviousEnd(j.zz, ss, j.se), ss, j.se) + j.tail)
    ensures Refining(e, j, false, b, ss)
  {
    PreviousEndIsNonzero(j.zz, ss, j.se);
    RefineBandEnd(j.tbl, j.zz, j.kex, PreviousEnd(j.zz, ss, j.se), ss, j.se);
  }

  lemma RefineDone(e: ArithDecoder, j: RefineJob, r: Block)
    requires Refining(e, j, false, r, j.se + 1)
    ensures r == j.target && e.Faces(j.plan, j.tail)
  {
    assert Unfolded(BandRefining, 0);
    assert [] + j.tail == j.tail;
  }

  /** Section G.1.3.3 read backward: every coefficient of the band gains its next bit. */
  method DecodeRefineBand(e: ArithDecoder, tbl: nat, b: Block, order: Order, al: nat, ss: nat, se: nat,
                          ghost zz: seq<int>, ghost tail: seq<Decision>)
    returns (s: Status, r: Block)
    requires e.Valid() && 0 < ss <= se < |order| == |zz|
    modifies e
    ensures s != NoInput ==> e.Valid()
    ensures Refinable(b, order, zz, al, ss, se) ==>
            var plan := old(e.plan);
            old(e.Faces(plan, RefineBand(tbl, zz, PreviousEnd(zz, ss, se), ss, se) + tail)) ==>
              s == Good && r == Deposit(b, order, zz, al, ss, se) && e.Faces(plan, tail)
  {
    var kex := FindBlockEnd(b, order, se, zz, al, ss);
    ghost var j := RefineJob(e.plan, tbl, order, al, se, zz, kex, tail, Deposit(b, order, zz, al, ss, se));
    ghost var known := Refinable(b, order, zz, al, ss, se)
                       && e.Faces(e.plan, RefineBand(tbl, zz, PreviousEnd(zz, ss, se), ss, se) + tail);
    if known {
      RefineStart(e, j, b, ss);
    }
    s, r := Good, b;
    var k := ss;
    while s == Good && k <= se
      invariant 0 < k <= se + 1 && (s != NoInput ==> e.Valid())
      invariant known ==> s == Good && Refining(e, j, false, r, k)
      decreases s == Good, se + 1 - k
    {
      s, r, k := DecodeRefineNext(e, tbl, r, order, al, kex, k, se, j);
    }
    if known {
      RefineDone(e, j, r);
    }
  }
}
