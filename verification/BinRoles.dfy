/**
 * What the statistics bins of a scan are for: decisions of different meaning do not share one, and the decisions of
 * two magnitudes agree up to the first one that tells which is greater.
 */
module BinRoles {
  import opened Numbers
  import opened IntervalCoder
  import opened Blocks
  import opened Binarisation

  predicate Among(d: Decision, area: Area, from: int, to: int) {
    d.bin.area == area && from <= d.bin.offset < to
  }

  predicate AllAmong(ds: seq<Decision>, area: Area, from: int, to: int) {
    forall i :: 0 <= i < |ds| ==> Among(ds[i], area, from, to)
  }

  lemma Powers()
    ensures Shl(1, 14) == 0x4000 && Shl(1, 15) == 0x8000
  {
    ShlTable(1);
    ShlShl(1, 14, 2);
    ShlShl(1, 15, 1);
  }

  lemma {:induction false} LogBound(v: nat, n: nat)
    requires 0 < v < Shl(1, n)
    ensures Log(v) < n
    decreases n
  {
    if n > 0 && v >= 2 {
      ShlShl(1, n - 1, 1);
      LogBound(v / 2, n - 1);
    }
  }

  lemma {:induction false} UnaryBins(area: Area, offset: nat, v: nat)
    requires v > 0
    ensures AllAmong(Unary(area, offset, v), area, offset, offset + Log(v) + 1)
    decreases v
  {
    if v >= 2 {
      UnaryBins(area, offset + 1, v / 2);
    }
  }

  lemma {:induction false} PatternBins(area: Area, offset: nat, v: nat, m: nat)
    ensures AllAmong(Pattern(area, offset, v, m), area, offset, offset + 1)
    decreases m
  {
    if m >= 2 {
      PatternBins(area, offset, v, m / 2);
    }
  }

  // ---- AC coefficients

  /** The first decisions about a magnitude are the position's, the others are those of its part of the band. */
  lemma AcCategoryBins(area: Area, st: nat, x: nat, v: nat, i: nat)
    requires v < 0x8000 && i < |AcCategory(area, st, x, v)|
    ensures Among(AcCategory(area, st, x, v)[i], area, st, st + 1)
            || Among(AcCategory(area, st, x, v)[i], area, x, x + 14)
  {
    if v >= 2 {
      Powers();
      LogBound(v / 2, 14);
      UnaryBins(area, x, v / 2);
    }
  }

  /** Behind the category each one has a bin for its bits. */
  lemma AcBitBins(area: Area, st: nat, x: nat, v: nat, i: nat)
    requires v < 0x8000 && i < |Pattern(area, AcLast(st, x, v) + 14, v, Category(v))|
    ensures v >= 2 && Log(v / 2) < 14
    ensures Pattern(area, AcLast(st, x, v) + 14, v, Category(v))[i].bin == Bin(area, x + 14 + Log(v / 2))
  {
    PatternBins(area, AcLast(st, x, v) + 14, v, Category(v));
    if v >= 2 {
      Powers();
      LogBound(v / 2, 14);
    }
  }

  /** The bins for magnitudes of coefficients beyond Kx, or of the others: 14 for categories and 14 for bits. */
  predicate OfMagnitudes(d: Decision, tbl: nat, beyond: bool) {
    Among(d, AcArea(tbl), if beyond then 217 else 189, if beyond then 245 else 217)
  }

  predicate OfSigns(d: Decision) {
    d.bin == Bin(FixedArea, 0)
  }

  lemma AcSignedBins(tbl: nat, kx: nat, k: nat, v: int, i: nat)
    requires 0 < k < DCTSIZE2 && 0 < Abs(v) <= 0x8000 && i < |AcSigned(tbl, kx, k, v)|
    ensures var d := AcSigned(tbl, kx, k, v)[i];
            if i == 0 then OfSigns(d) && (d.bit == 1 <==> v < 0)
            else Among(d, AcArea(tbl), 3 * k - 1, 3 * k) || OfMagnitudes(d, tbl, k > kx)
  {
    var area, st, x, m := AcArea(tbl), Se0(k) + 2, AcX(k, kx), Abs(v) - 1;
    var c := AcCategory(area, st, x, m);
    if 0 < i <= |c| {
      AcCategoryBins(area, st, x, m, i - 1);
    } else if i > 0 {
      AcBitBins(area, st, x, m, i - 1 - |c|);
    }
  }

  /** Two coefficients share no bin but that for signs, unless they are on the same side of Kx or at the same place. */
  lemma AcBinsApart(tbl: nat, kx: nat, j: nat, v: int, i: nat, k: nat, w: int, n: nat)
    requires 0 < j < k < DCTSIZE2 && 0 < Abs(v) <= 0x8000 && 0 < Abs(w) <= 0x8000
    requires i < |AcSigned(tbl, kx, j, v)| && n < |AcSigned(tbl, kx, k, w)|
    requires AcSigned(tbl, kx, j, v)[i].bin == AcSigned(tbl, kx, k, w)[n].bin
    ensures (i == n == 0 && OfSigns(AcSigned(tbl, kx, j, v)[i]))
            || (i > 0 && n > 0 && (j <= kx <==> k <= kx) && OfMagnitudes(AcSigned(tbl, kx, j, v)[i], tbl, j > kx))
  {
    AcSignedBins(tbl, kx, j, v, i);
    AcSignedBins(tbl, kx, k, w, n);
  }

  /** Categories and bits share no bin, and neither do the bits of different categories. */
  lemma AcBitsApart(area: Area, st: nat, x: nat, v: nat, i: nat, w: nat, n: nat)
    requires st < x && v < 0x8000 && w < 0x8000 && i < |Pattern(area, AcLast(st, x, v) + 14, v, Category(v))|
    ensures n < |AcCategory(area, st, x, w)| ==>
              Pattern(area, AcLast(st, x, v) + 14, v, Category(v))[i].bin != AcCategory(area, st, x, w)[n].bin
    ensures n < |Pattern(area, AcLast(st, x, w) + 14, w, Category(w))| && Log(v) != Log(w) ==>
              Pattern(area, AcLast(st, x, v) + 14, v, Category(v))[i].bin
              != Pattern(area, AcLast(st, x, w) + 14, w, Category(w))[n].bin
  {
    AcBitBins(area, st, x, v, i);
    if n < |AcCategory(area, st, x, w)| {
      AcCategoryBins(area, st, x, w, n);
    }
    if n < |Pattern(area, AcLast(st, x, w) + 14, w, Category(w))| {
      AcBitBins(area, st, x, w, n);
    }
  }

  /** The decisions about the end of the block and about zeros, in a scan that sends the band for the first time. */
  lemma BandDecisions(tbl: nat, kx: nat, zz: seq<int>, k: nat, se: nat)
    requires 0 < k <= se < |zz| <= DCTSIZE2
    ensures AcBand(tbl, kx, zz, k, se)[0].bin == Bin(AcArea(tbl), 3 * k - 3)
    ensures AcBand(tbl, kx, zz, k, se)[0].bit == 1 <==> forall j :: k <= j <= se ==> zz[j] == 0
    ensures AcRun(tbl, kx, zz, k, se)[0].bin == Bin(AcArea(tbl), 3 * k - 2)
    ensures AcRun(tbl, kx, zz, k, se)[0].bit == 1 <==> zz[k] != 0
  {
    ZerosAre(zz, k, se);
  }

  lemma {:induction false} ZerosAre(zz: seq<int>, k: nat, se: nat)
    requires se < |zz|
    ensures AllZero(zz, k, se) <==> forall j :: k <= j <= se ==> zz[j] == 0
    decreases se + 1 - k
  {
    if k <= se && zz[k] == 0 {
      ZerosAre(zz, k + 1, se);
    }
  }

  /** A refined coefficient: zero or new, with the sign of a new one, or a bit of one that was there. */
  lemma RefineBins(tbl: nat, k: nat, v: int, i: nat)
    requires 0 < k < DCTSIZE2 && i < |RefineCoef(tbl, k, v)|
    ensures var d := RefineCoef(tbl, k, v)[i];
            if Abs(v) > 1 then Among(d, AcArea(tbl), 3 * k - 1, 3 * k)
            else if i == 0 then Among(d, AcArea(tbl), 3 * k - 2, 3 * k - 1) && (d.bit == 1 <==> v != 0)
            else OfSigns(d) && (d.bit == 1 <==> v < 0)
  {
  }

  // ---- DC differences

  /** The five kinds of difference that condition the next one. */
  datatype Kind = Zero | Small(negative: bool) | Large(negative: bool)

  /** Differences of up to 2^(L - 1) count as zero, and those beyond 2^U as large. */
  function KindOf(cond: Conditioning, diff: int): Kind {
    if diff == 0 || (cond.lower > 0 && Abs(diff) <= Shl(1, cond.lower - 1)) then Zero
    else if Abs(diff) > Shl(1, cond.upper) then Large(diff < 0)
    else Small(diff < 0)
  }

  lemma {:induction false} TopBitOrder(v: nat, n: nat)
    requires v > 0
    ensures TopBit(v) < Shl(1, n) <==> v < Shl(1, n)
    decreases n
  {
    if n > 0 {
      ShlShl(1, n - 1, 1);
      if v >= 2 {
        TopBitOrder(v / 2, n - 1);
      }
    }
  }

  /** The category is compared with half a power, which comes to the same. */
  lemma CategoryOrder(v: nat, l: nat)
    ensures Category(v) < HalfPower(l) <==> l > 0 && v < Shl(1, l - 1)
    ensures Category(v) > HalfPower(l) <==> v >= Shl(1, l)
  {
    ShlNat(1, l);
    if l > 0 {
      ShlNat(1, l - 1);
      ShlShl(1, l - 1, 1);
      if v > 0 {
        TopBitOrder(v, l - 1);
        TopBitOrder(v, l);
        TopBitIsPower(v, l - 1);
      }
    }
  }

  /** Between a power of two and the next there is none. */
  lemma {:induction false} TopBitIsPower(v: nat, n: nat)
    requires v > 0
    ensures Shl(1, n) <= TopBit(v) < Shl(1, n + 1) ==> TopBit(v) == Shl(1, n)
    decreases n
  {
    ShlShl(1, n, 1);
    if n > 0 {
      ShlShl(1, n - 1, 1);
      if v >= 2 {
        TopBitIsPower(v / 2, n - 1);
      }
    }
  }

  lemma ContextOf(cond: Conditioning, diff: int)
    ensures NextContext(cond, diff)
            == match KindOf(cond, diff)
               case Zero => 0
               case Small(negative) => if negative then 8 else 4
               case Large(negative) => if negative then 16 else 12
  {
    if diff != 0 {
      CategoryOrder(Abs(diff) - 1, cond.lower);
      CategoryOrder(Abs(diff) - 1, cond.upper);
    }
  }

  /** Differences condition the next one in the same way exactly if they are of the same kind. */
  lemma ContextIsKind(cond: Conditioning, d: int, e: int)
    ensures NextContext(cond, d) == NextContext(cond, e) <==> KindOf(cond, d) == KindOf(cond, e)
    ensures NextContext(cond, d) % 4 == 0
  {
    ContextOf(cond, d);
    ContextOf(cond, e);
  }

  lemma DcCategoryBins(area: Area, st: nat, v: nat, i: nat)
    requires v < 0x8000 && i < |DcCategory(area, st, v)|
    ensures Among(DcCategory(area, st, v)[i], area, st, st + 1) || Among(DcCategory(area, st, v)[i], area, 20, 35)
  {
    if v > 0 {
      Powers();
      LogBound(v, 15);
      UnaryBins(area, X1, v);
    }
  }

  lemma DcBitBins(area: Area, st: nat, v: nat, i: nat)
    requires v < 0x8000 && i < |Pattern(area, DcLast(st, v) + 14, v, Category(v))|
    ensures v >= 2 && 1 <= Log(v) < 15
    ensures Pattern(area, DcLast(st, v) + 14, v, Category(v))[i].bin == Bin(area, 34 + Log(v))
  {
    PatternBins(area, DcLast(st, v) + 14, v, Category(v));
    if v >= 2 {
      Powers();
      LogBound(v, 15);
    }
  }

  lemma DcMagnitudeBins(area: Area, st: nat, v: nat, i: nat)
    requires v < 0x8000 && 0 < i < |DcMagnitude(area, st, v)|
    ensures Among(DcMagnitude(area, st, v)[i], area, 20, 49)
  {
    var c := DcCategory(area, st, v);
    if i >= |c| {
      DcBitBins(area, st, v, i - |c|);
    } else {
      Powers();
      LogBound(v, 15);
      UnaryBins(area, X1, v);
    }
  }

  /** The first decisions depend on the context, and the third on the sign; the others are about the magnitude. */
  lemma DcBins(tbl: nat, ctx: nat, diff: int, i: nat)
    requires Abs(diff) <= 0x8000 && i < |DcDiff(tbl, ctx, diff)|
    ensures var d, area := DcDiff(tbl, ctx, diff)[i], DcArea(tbl);
            if i == 0 then d.bin == Bin(area, ctx) && (d.bit == 1 <==> diff != 0)
            else if i == 1 then d.bin == Bin(area, ctx + 1) && (d.bit == 1 <==> diff < 0)
            else if i == 2 then d.bin == Bin(area, ctx + if diff < 0 then 3 else 2) && (d.bit == 1 <==> Abs(diff) > 1)
            else Among(d, area, 20, 49)
  {
    if i > 2 {
      DcMagnitudeBins(DcArea(tbl), ctx + 2 + Sign(diff), Abs(diff) - 1, i - 2);
    }
  }

  /** Behind differences of different kinds the first three decisions are in bins of their own. */
  lemma DcContextsApart(tbl: nat, cond: Conditioning, a: int, b: int, d: int, i: nat, e: int, n: nat)
    requires KindOf(cond, a) != KindOf(cond, b) && Abs(d) <= 0x8000 && Abs(e) <= 0x8000
    requires i < |DcDiff(tbl, NextContext(cond, a), d)| && n < |DcDiff(tbl, NextContext(cond, b), e)|
    requires DcDiff(tbl, NextContext(cond, a), d)[i].bin == DcDiff(tbl, NextContext(cond, b), e)[n].bin
    ensures i >= 3 && n >= 3
  {
    ContextIsKind(cond, a, b);
    ContextIsKind(cond, b, a);
    DcBins(tbl, NextContext(cond, a), d, i);
    DcBins(tbl, NextContext(cond, b), e, n);
  }

  /** Categories and bits share no bin, and neither do the bits of different categories, up to 2^15. */
  lemma DcBitsApart(area: Area, st: nat, v: nat, i: nat, w: nat, n: nat)
    requires st < X1 && v < 0x8000 && w < 0x8000 && i < |Pattern(area, DcLast(st, v) + 14, v, Category(v))|
    ensures n < |DcCategory(area, st, w)| ==>
              Pattern(area, DcLast(st, v) + 14, v, Category(v))[i].bin != DcCategory(area, st, w)[n].bin
    ensures n < |Pattern(area, DcLast(st, w) + 14, w, Category(w))| && Log(v) != Log(w) ==>
              Pattern(area, DcLast(st, v) + 14, v, Category(v))[i].bin
              != Pattern(area, DcLast(st, w) + 14, w, Category(w))[n].bin
  {
    DcBitBins(area, st, v, i);
    if n < |DcCategory(area, st, w)| {
      DcCategoryBins(area, st, w, n);
    }
    if n < |Pattern(area, DcLast(st, w) + 14, w, Category(w))| {
      DcBitBins(area, st, w, n);
    }
  }

  lemma {:induction false} UnaryEnds(area: Area, offset: nat, v: nat)
    requires v > 0
    ensures |Unary(area, offset, v)| == Log(v) + 1 && Unary(area, offset, v)[Log(v)] == D(area, offset + Log(v), 0)
    decreases v
  {
    if v >= 2 {
      UnaryEnds(area, offset + 1, v / 2);
    }
  }

  lemma {:induction false} LogOfPower(n: nat, v: nat)
    requires v == Shl(1, n)
    ensures v > 0 && Log(v) == n
    decreases n
  {
    if n > 0 {
      ShlShl(1, n - 1, 1);
      LogOfPower(n - 1, v / 2);
    }
  }

  /** Beyond 2^15 the last category decision is in the bin for the bits of differences of 3 and 4. */
  lemma DcBinsMeet(area: Area, st: nat, v: nat, w: nat)
    requires v == 0x8000 && 2 <= w < 4
    ensures |DcCategory(area, st, v)| == 17 && Pattern(area, DcLast(st, w) + 14, w, Category(w)) != []
    ensures DcCategory(area, st, v)[16].bin == Pattern(area, DcLast(st, w) + 14, w, Category(w))[0].bin
  {
    Powers();
    LogOfPower(15, v);
    UnaryEnds(area, X1, v);
  }

  // ---- Magnitudes

  /** Up to some decision both are the same; there the bin is the same, and only b has a 1. */
  ghost predicate Precedes(a: seq<Decision>, b: seq<Decision>) {
    exists i: nat :: Parts(a, b, i)
  }

  predicate Parts(a: seq<Decision>, b: seq<Decision>, i: nat) {
    && i < |a| && i < |b| && a[..i] == b[..i]
    && a[i].bin == b[i].bin && a[i].bit == 0 && b[i].bit == 1
  }

  lemma PrecedesBehind(s: seq<Decision>, a: seq<Decision>, b: seq<Decision>)
    requires Precedes(a, b)
    ensures Precedes(s + a, s + b)
  {
    var i: nat :| Parts(a, b, i);
    assert (s + a)[..|s| + i] == s + a[..i] && (s + b)[..|s| + i] == s + b[..i];
    assert Parts(s + a, s + b, |s| + i);
  }

  lemma PrecedesInFront(a: seq<Decision>, b: seq<Decision>, x: seq<Decision>, y: seq<Decision>)
    requires Precedes(a, b)
    ensures Precedes(a + x, b + y)
  {
    var i: nat :| Parts(a, b, i);
    assert (a + x)[..i] == a[..i] && (b + y)[..i] == b[..i];
    assert Parts(a + x, b + y, i);
  }

  lemma PartsAtOnce(area: Area, offset: nat, a: seq<Decision>, b: seq<Decision>)
    ensures Precedes([D(area, offset, 0)] + a, [D(area, offset, 1)] + b)
  {
    assert Parts([D(area, offset, 0)] + a, [D(area, offset, 1)] + b, 0);
  }

  /** The category tells which is greater, or it is the same. */
  lemma {:induction false} UnaryOrder(area: Area, offset: nat, u: nat, v: nat)
    requires 0 < u < v
    ensures if Log(u) < Log(v) then Precedes(Unary(area, offset, u), Unary(area, offset, v))
            else Log(u) == Log(v) && Unary(area, offset, u) == Unary(area, offset, v) && TopBit(u) == TopBit(v)
    decreases v
  {
    if u < 2 {
      PartsAtOnce(area, offset, [], Unary(area, offset + 1, v / 2));
      assert [D(area, offset, 0)] + [] == [D(area, offset, 0)];
    } else if u / 2 < v / 2 {
      UnaryOrder(area, offset + 1, u / 2, v / 2);
      if Log(u) < Log(v) {
        PrecedesBehind([D(area, offset, 1)], Unary(area, offset + 1, u / 2), Unary(area, offset + 1, v / 2));
      }
    }
  }

  lemma {:induction false} BitIs(v: nat, n: nat, m: nat)
    requires m == Shl(1, n)
    ensures BitAt(v, m) == Shr(v, n) % 2
    decreases n
  {
    if n > 0 {
      ShlShl(1, n - 1, 1);
      ShlNat(1, n - 1);
      BitIs(v / 2, n - 1, m / 2);
    }
  }

  lemma {:induction false} ShrOrder(u: nat, v: nat, n: nat)
    requires u <= v
    ensures Shr(u, n) <= Shr(v, n)
    decreases n
  {
    if n > 0 {
      ShrOrder(u / 2, v / 2, n - 1);
    }
  }

  /** The highest bit, when the bits above it are the same. */
  lemma TopBitDiffers(u: nat, v: nat, n: nat, h: nat)
    requires u < v && Shr(u, n + 1) == Shr(v, n + 1) && h == Shl(1, n)
    ensures Shr(u, n) == Shr(v, n) ==> BitAt(u, h) == BitAt(v, h)
    ensures Shr(u, n) != Shr(v, n) ==> BitAt(u, h) == 0 && BitAt(v, h) == 1
  {
    BitIs(u, n, h);
    BitIs(v, n, h);
    ShrStep(u, n);
    ShrStep(v, n);
    ShrOrder(u, v, n);
  }

  /** Bits go from the top down. */
  lemma {:induction false} PatternOrder(area: Area, offset: nat, u: nat, v: nat, n: nat, m: nat)
    requires u < v && Shr(u, n) == Shr(v, n) && m == Shl(1, n)
    ensures Precedes(Pattern(area, offset, u, m), Pattern(area, offset, v, m))
    decreases n
  {
    if n > 0 {
      ShlShl(1, n - 1, 1);
      ShlNat(1, n - 1);
      var h := m / 2;
      TopBitDiffers(u, v, n - 1, h);
      if Shr(u, n - 1) == Shr(v, n - 1) {
        PatternOrder(area, offset, u, v, n - 1, h);
        PrecedesBehind([D(area, offset, BitAt(u, h))], Pattern(area, offset, u, h), Pattern(area, offset, v, h));
      } else {
        PartsAtOnce(area, offset, Pattern(area, offset, u, h), Pattern(area, offset, v, h));
      }
    }
  }

  lemma {:induction false} TopBitIs(v: nat)
    requires v > 0
    ensures TopBit(v) == Shl(1, Log(v)) && Shr(v, Log(v)) == 1
    decreases v
  {
    if v >= 2 {
      TopBitIs(v / 2);
      ShlShl(1, Log(v / 2), 1);
    }
  }

  lemma SameCategoryOrder(area: Area, offset: nat, u: nat, v: nat)
    requires 0 < u < v && Log(u) == Log(v)
    ensures Category(u) == Category(v)
    ensures Precedes(Pattern(area, offset, u, Category(u)), Pattern(area, offset, v, Category(v)))
  {
    TopBitIs(u);
    TopBitIs(v);
    PatternOrder(area, offset, u, v, Log(u), TopBit(u));
  }

  /** The decisions about two magnitudes of AC coefficients are in the order of the magnitudes. */
  lemma AcMagnitudesInOrder(area: Area, st: nat, x: nat, u: nat, v: nat)
    requires u < v
    ensures Precedes(AcMagnitude(area, st, x, u), AcMagnitude(area, st, x, v))
  {
    var a, b := AcCategory(area, st, x, u), AcCategory(area, st, x, v);
    var p := Pattern(area, AcLast(st, x, u) + 14, u, Category(u));
    var q := Pattern(area, AcLast(st, x, v) + 14, v, Category(v));
    if u == 0 {
      PartsAtOnce(area, st, [], b[1..]);
      assert [D(area, st, 0)] + [] == a && [D(area, st, 1)] + b[1..] == b;
      PrecedesInFront(a, b, p, q);
    } else if u < 2 {
      if v >= 2 {
        PartsAtOnce(area, st, [], b[2..]);
        PrecedesBehind([D(area, st, 1)], [D(area, st, 0)] + [], [D(area, st, 1)] + b[2..]);
        assert [D(area, st, 1)] + ([D(area, st, 0)] + []) == a && [D(area, st, 1)] + ([D(area, st, 1)] + b[2..]) == b;
        PrecedesInFront(a, b, p, q);
      }
    } else {
      if u / 2 < v / 2 {
        UnaryOrder(area, x, u / 2, v / 2);
      }
      if Log(u / 2) < Log(v / 2) {
        var two := [D(area, st, 1), D(area, st, 1)];
        PrecedesBehind(two, Unary(area, x, u / 2), Unary(area, x, v / 2));
        PrecedesInFront(a, b, p, q);
      } else {
        assert Log(u) == Log(v) && a == b;
        SameCategoryOrder(area, AcLast(st, x, u) + 14, u, v);
        PrecedesBehind(a, p, q);
      }
    }
  }

  /** And so are those about DC differences. */
  lemma DcMagnitudesInOrder(area: Area, st: nat, u: nat, v: nat)
    requires u < v
    ensures Precedes(DcMagnitude(area, st, u), DcMagnitude(area, st, v))
  {
    var a, b := DcCategory(area, st, u), DcCategory(area, st, v);
    var p, q := Pattern(area, DcLast(st, u) + 14, u, Category(u)), Pattern(area, DcLast(st, v) + 14, v, Category(v));
    if u == 0 {
      PartsAtOnce(area, st, [], b[1..]);
      assert [D(area, st, 0)] + [] == a && [D(area, st, 1)] + b[1..] == b;
      PrecedesInFront(a, b, p, q);
    } else {
      UnaryOrder(area, X1, u, v);
      if Log(u) < Log(v) {
        PrecedesBehind([D(area, st, 1)], Unary(area, X1, u), Unary(area, X1, v));
        PrecedesInFront(a, b, p, q);
      } else {
        assert a == b;
        SameCategoryOrder(area, DcLast(st, u) + 14, u, v);
        PrecedesBehind(a, p, q);
      }
    }
  }
}
