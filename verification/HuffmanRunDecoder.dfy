/** The progressive Huffman decoder for AC bands. */
module HuffmanRunDecoder {
  import opened Numbers
  import opened BitStrings
  import opened Blocks
  import opened HuffmanStream
  import opened HuffmanBlocks
  import opened HuffmanRuns

  /** natural_order[k]; the entries behind the end of the block catch corrupt run lengths. */
  function Position(order: Order, k: nat): (i: nat)
    ensures i < DCTSIZE2
  {
    if k < |order| then order[k] else DCTSIZE2 - 1
  }

  /** The number of ends of block behind the symbol with high digit r < 15. */
  method ReadCount(src: HuffSource, r: nat, ghost n: nat, ghost tail: seq<Token>, ghost script: Script)
    returns (ok: bool, count: nat)
    requires src.Valid() && r <= 14
    modifies src.r
    ensures src.r.Kept() && (if ok then src.Valid() else src.r.unreadMarker == 0)
    ensures ok ==> count > 0
    ensures 0 < n <= MAX_EOBRUN && r == Size(n) - 1
            && old(src.Faces(script, (if r == 0 then [] else [Raw(Low(n, r))]) + tail)) ==>
              (src.Complete() ==> ok) && (ok ==> count == n && src.Faces(script, tail))
  {
    ShlNat(1, r);
    ok, count := true, Shl(1, r);
    assert [] + tail == tail;
    if n > 0 {
      EobValue(n);
    }
    if r > 0 {
      var more;
      ok, more := src.ReadBits(r, Low(n, r), tail, script);
      count := count + more;
    }
  }

  // ---- Refinement

  /** The receiver's coefficient: from the previous precision, or corrected already in an attempt that was given up. */
  predicate Pending(c: int, z: int, al: nat) {
    c == Shl(Half(z), al + 1) || (Abs(z) > 1 && c == Shl(z, al))
  }

  /** (*thiscoef & p1) == 0 ? add the bit : leave it */
  function Corrected(c: int, bit: Bit, al: nat): int {
    if bit == 0 || Shr(c, al) % 2 == 1 then c
    else if c >= 0 then c + Shl(1, al) else c + Shl(-1, al)
  }

  /** Whether or not it has been added before, the correction bit ends up in the coefficient once. */
  lemma CorrectOnce(c: int, z: int, al: nat)
    requires Abs(z) > 1 && Pending(c, z, al)
    ensures Corrected(c, Abs(z) % 2, al) == Shl(z, al) && c != 0
    ensures Pending(Corrected(c, Abs(z) % 2, al), z, al)
  {
    if c == Shl(z, al) {
      ShlZero(al);
      ShlOrder(z, 0, al);
      ShlOrder(0, z, al);
      ShrShl(z, al);
    } else {
      CorrectHalf(c, z, al);
    }
  }

  lemma CorrectHalf(c: int, z: int, al: nat)
    requires Abs(z) > 1 && c == Shl(Half(z), al + 1)
    ensures Corrected(c, Abs(z) % 2, al) == Shl(z, al) && c != 0
  {
    ShlZero(al + 1);
    ShlOrder(Half(z), 0, al + 1);
    ShlOrder(0, Half(z), al + 1);
    AppendBit(c, z, al);
    assert c == Shl(2 * Half(z), al);
    ShrShl(2 * Half(z), al);
    ShlNeg(1, al);
  }

  /** A coefficient that was zero looks zero. */
  lemma WasZero(c: int, z: int, al: nat)
    requires Abs(z) <= 1 && Pending(c, z, al)
    ensures c == 0
  {
    ShlZero(al + 1);
  }

  /** What the encoder had of a block, and what the receiver had before. */
  datatype Target = Target(bd: BandScan, order: Order, al: nat, zz: seq<int>, prior: Block)

  ghost predicate GoodTarget(g: Target) {
    |g.zz| == |g.order| && FitBand(g.bd, g.zz) && BandPending(g.bd, g.order, g.al, g.zz, g.prior)
  }

  /** Every coefficient of the band is one the receiver can correct. (folded) */
  ghost predicate BandPending(bd: BandScan, order: Order, al: nat, zz: seq<int>, prior: Block)
    requires |zz| == |order| && GoodBand(bd, zz)
  {
    forall n: nat {:trigger Unfolded(Priors, n)} :: Unfolded(Priors, n) ==>
      forall k :: bd.ss <= k <= bd.se ==> Pending(prior[order[k]], zz[k], al)
  }

  /** The receiver's block when the coefficients before k are done. */
  ghost function Upto(g: Target, k: nat): Block
    requires GoodTarget(g) && g.bd.ss <= k <= g.bd.se + 1
  {
    Deposit(g.prior, g.order, g.zz, g.al, g.bd.ss, k - 1)
  }

  /** The positions of the new coefficients before k. */
  function NewPositions(order: Order, zz: seq<int>, ss: nat, k: nat): seq<nat>
    requires |zz| == |order| && k <= |zz|
  {
    if k <= ss then []
    else NewPositions(order, zz, ss, k - 1) + if Abs(zz[k - 1]) == 1 then [order[k - 1]] else []
  }

  /** Coefficient k is still what the receiver had, and what comes next. */
  lemma UptoStep(g: Target, k: nat)
    requires GoodTarget(g) && g.bd.refine && g.bd.ss <= k <= g.bd.se
    ensures Upto(g, k)[g.order[k]] == g.prior[g.order[k]]
    ensures g.zz[k] == 0 ==> Upto(g, k + 1) == Upto(g, k)
    ensures g.zz[k] != 0 ==> Upto(g, k + 1) == Upto(g, k)[g.order[k] := ToCoef(Shl(g.zz[k], g.al))]
    ensures Abs(g.zz[k]) <= 1 ==> g.prior[g.order[k]] == 0
    ensures Abs(g.zz[k]) > 1 ==>
              && g.prior[g.order[k]] != 0
              && ToCoef(Corrected(g.prior[g.order[k]], Abs(g.zz[k]) % 2, g.al)) == ToCoef(Shl(g.zz[k], g.al))
  {
    assert Unfolded(Priors, 0);
    DepositAt(g.prior, g.order, g.zz, g.al, g.bd.ss, k - 1, k);
    DepositSnoc(g.prior, g.order, g.zz, g.al, g.bd.ss, k);
    if Abs(g.zz[k]) > 1 {
      CorrectOnce(g.prior[g.order[k]], g.zz[k], g.al);
    } else {
      WasZero(g.prior[g.order[k]], g.zz[k], g.al);
    }
  }

  /** The block is done up to coefficient k, and newnz lists its new coefficients. */
  ghost predicate Reached(g: Target, b: Block, newnz: seq<nat>, k: nat) {
    && GoodTarget(g) && g.bd.refine && g.bd.ss <= k <= g.bd.se + 1
    && b == Upto(g, k) && newnz == NewPositions(g.order, g.zz, g.bd.ss, k)
  }

  /** The decoder is at coefficient k, and the tokens ks are ahead. */
  ghost predicate At(src: HuffSource, script: Script, g: Target, b: Block, newnz: seq<nat>, k: nat, ks: seq<Token>)
    reads src.r
  {
    Reached(g, b, newnz, k) && src.Faces(script, ks)
  }

  /** (folded) */
  ghost predicate Standing(src: HuffSource, script: Script, g: Target, b: Block, newnz: seq<nat>, k: nat,
                           ks: seq<Token>)
    reads src.r
  {
    forall n: nat {:trigger Unfolded(RefineStand, n)} :: Unfolded(RefineStand, n) ==>
        At(src, script, g, b, newnz, k, ks)
  }

  /** The tokens for the correction bits of the coefficients k..t-1, and what is behind them. */
  ghost function Fixes(g: Target, k: nat, t: nat, rest: seq<Token>): seq<Token>
    requires k <= t <= |g.zz|
  {
    BitTokens(Corrections(g.zz, k, t)) + rest
  }

  /** The scan's parameters. */
  predicate Fits(g: Target, order: Order, al: nat, ss: nat, se: nat) {
    g.order == order && g.al == al && g.bd.ss == ss && g.bd.se == se
  }

  /** A coefficient that was nonzero before gets its correction bit. */
  method CorrectCoef(src: HuffSource, b: Block, order: Order, al: nat, k: nat, ghost se: nat, ghost known: bool,
                     ghost g: Target, ghost newnz: seq<nat>, ghost t: nat, ghost rest: seq<Token>, ghost script: Script)
    returns (ok: bool, out: Block)
    requires src.Valid() && k <= se < |order| && b[order[k]] != 0 && Fits(g, order, al, g.bd.ss, se)
    requires known ==> k < t <= |g.zz| && Standing(src, script, g, b, newnz, k, Fixes(g, k, t, rest))
    modifies src.r
    ensures src.r.Kept() && (if ok then src.Valid() else src.r.unreadMarker == 0)
    ensures !ok ==> out == b
    ensures known && src.Complete() ==> ok
    ensures known && ok ==> Standing(src, script, g, out, newnz, k + 1, Fixes(g, k + 1, t, rest))
  {
    assert Unfolded(RefineStand, 0);
    ghost var bit, later := 0, rest;
    if known {
      UptoStep(g, k);
      bit, later := Abs(g.zz[k]) % 2, Fixes(g, k + 1, t, rest);
      FixesHead(g, k, t, rest);
    }
    var v;
    ok, v := src.ReadBits(1, [bit], later, script);
    out := b;
    if ok {
      OneBitValue(bit);
      out := b[order[k] := ToCoef(Corrected(b[order[k]], v, al))];
    }
  }

  lemma OneBitValue(bit: Bit)
    ensures Value([bit]) == bit && Shl(1, 1) == 2
  {
    assert [bit] == [] + [bit];
    ValueSnoc([], bit);
  }

  lemma FixesHead(g: Target, k: nat, t: nat, rest: seq<Token>)
    requires k < t <= |g.zz|
    ensures Abs(g.zz[k]) > 1 ==> Fixes(g, k, t, rest) == [Raw([Abs(g.zz[k]) % 2])] + Fixes(g, k + 1, t, rest)
    ensures Abs(g.zz[k]) <= 1 ==> Fixes(g, k, t, rest) == Fixes(g, k + 1, t, rest)
  {
    CorrectionsFront(g.zz, k, t);
    if Abs(g.zz[k]) > 1 {
      var bit := [Abs(g.zz[k]) % 2];
      BitTokensConcat(bit, Corrections(g.zz, k + 1, t));
      assert BitTokens(bit) == [Raw(bit)] + BitTokens(bit[1..]) == [Raw(bit)];
      Assoc([Raw(bit)], BitTokens(Corrections(g.zz, k + 1, t)), rest);
    } else {
      assert [] + Corrections(g.zz, k + 1, t) == Corrections(g.zz, k + 1, t);
    }
  }

  /** At a coefficient that was zero there is nothing to read. */
  lemma NoCorrection(src: HuffSource, script: Script, g: Target, b: Block, newnz: seq<nat>, k: nat, t: nat,
                     rest: seq<Token>)
    requires k <= t <= |g.zz| && k <= g.bd.se && Standing(src, script, g, b, newnz, k, Fixes(g, k, t, rest))
    ensures k < |g.order| == |g.zz|
    ensures b[g.order[k]] == 0 <==> Abs(g.zz[k]) <= 1
    ensures k < t && g.zz[k] == 0 ==> Standing(src, script, g, b, newnz, k + 1, Fixes(g, k + 1, t, rest))
    ensures k == t ==> Fixes(g, k, t, rest) == rest
  {
    assert Unfolded(RefineStand, 0);
    UptoStep(g, k);
    if k < t {
      FixesHead(g, k, t, rest);
    } else {
      assert [] + rest == rest;
    }
  }

  lemma StandingReached(src: HuffSource, script: Script, g: Target, b: Block, newnz: seq<nat>, k: nat, ks: seq<Token>)
    requires Standing(src, script, g, b, newnz, k, ks)
    ensures Reached(g, b, newnz, k)
  {
    assert Unfolded(RefineStand, 0);
  }

  /** From k on there are r coefficients that were and stay zero before t, which was zero as well. */
  predicate TargetAt(g: Target, k: nat, r: int, t: nat) {
    && k <= t <= g.bd.se && t < |g.zz| && Abs(g.zz[t]) <= 1
    && (forall i :: k <= i < t ==> Abs(g.zz[i]) != 1)
    && r == ZeroCount(g.zz, k, t)
  }

  /** One coefficient on the way to the target. */
  method ScanStep(src: HuffSource, b: Block, order: Order, al: nat, k: nat, r0: int, se: nat, ghost known: bool,
                  ghost g: Target, ghost newnz: seq<nat>, ghost t: nat, ghost rest: seq<Token>, ghost script: Script)
    returns (ok: bool, out: Block, r: int)
    requires src.Valid() && k <= se < |order| && Fits(g, order, al, g.bd.ss, se) && r0 >= 0
    requires known ==> TargetAt(g, k, r0, t) && Standing(src, script, g, b, newnz, k, Fixes(g, k, t, rest))
    modifies src.r
    ensures src.r.Kept() && (if ok then src.Valid() else src.r.unreadMarker == 0)
    ensures r >= -1 && (!ok ==> out == b && r == r0)
    ensures known && src.Complete() ==> ok
    ensures known && ok && r < 0 ==> k == t && Standing(src, script, g, out, newnz, t, rest)
    ensures known && ok && r >= 0 ==>
              TargetAt(g, k + 1, r, t) && Standing(src, script, g, out, newnz, k + 1, Fixes(g, k + 1, t, rest))
  {
    ok, out, r := true, b, r0;
    if known {
      NoCorrection(src, script, g, b, newnz, k, t, rest);
    }
    if b[order[k]] != 0 {
      ok, out := CorrectCoef(src, b, order, al, k, se, known, g, newnz, t, rest, script);
    } else {
      r := r - 1;
    }
  }

  /**
   * Passes r coefficients that were zero, and corrects those that were not, up to the next one that was
   * zero: the encoder's target t.
   */
  method Scan(src: HuffSource, b: Block, order: Order, al: nat, k0: nat, r0: nat, se: nat, ghost known: bool,
              ghost g: Target, ghost newnz: seq<nat>, ghost t: nat, ghost rest: seq<Token>, ghost script: Script)
    returns (ok: bool, out: Block, k: nat)
    requires src.Valid() && k0 <= se < |order| && Fits(g, order, al, g.bd.ss, se)
    requires known ==> TargetAt(g, k0, r0, t) && Standing(src, script, g, b, newnz, k0, Fixes(g, k0, t, rest))
    modifies src.r
    ensures src.r.Kept() && (if ok then src.Valid() else src.r.unreadMarker == 0)
    ensures k0 <= k <= se + 1
    ensures known && src.Complete() ==> ok
    ensures known && ok ==> k == t && Standing(src, script, g, out, newnz, t, rest)
    ensures known && !ok ==> Reached(g, out, newnz, k)
  {
    ok, out, k := true, b, k0;
    var r: int := r0;
    while k <= se && r >= 0 && ok
      invariant k0 <= k <= se + 1 && r >= -1 && (r < 0 ==> k <= se)
      invariant src.r.Kept() && (if ok then src.Valid() else src.r.unreadMarker == 0)
      invariant known && src.Complete() ==> ok
      invariant known && ok && r < 0 ==> k == t && Standing(src, script, g, out, newnz, t, rest)
      invariant known && ok && r >= 0 ==>
                  TargetAt(g, k, r, t) && Standing(src, script, g, out, newnz, k, Fixes(g, k, t, rest))
      invariant known && !ok ==> Reached(g, out, newnz, k)
      decreases se + 1 - k, r, ok
    {
      if known {
        StandingReached(src, script, g, out, newnz, k, Fixes(g, k, t, rest));
      }
      ok, out, r := ScanStep(src, out, order, al, k, r, se, known, g, newnz, t, rest, script);
      if ok && r >= 0 {
        k := k + 1;
      }
    }
  }

  /** No coefficient from k on becomes nonzero. */
  predicate NoNew(g: Target, k: nat, se: nat) {
    se < |g.zz| == |g.order| && forall i :: k <= i <= se ==> Abs(g.zz[i]) != 1
  }

  lemma ZeroInTail(src: HuffSource, script: Script, g: Target, b: Block, newnz: seq<nat>, k: nat, se: nat,
                   rest: seq<Token>)
    requires k <= se == g.bd.se && NoNew(g, k, se) && b[g.order[k]] == 0
    requires Standing(src, script, g, b, newnz, k, Fixes(g, k, se + 1, rest))
    ensures Standing(src, script, g, b, newnz, k + 1, Fixes(g, k + 1, se + 1, rest))
  {
    NoCorrection(src, script, g, b, newnz, k, se + 1, rest);
  }

  method TailStep(src: HuffSource, b: Block, order: Order, al: nat, k: nat, se: nat, ghost known: bool,
                  ghost g: Target, ghost newnz: seq<nat>, ghost rest: seq<Token>, ghost script: Script)
    returns (ok: bool, out: Block)
    requires src.Valid() && k <= se < |order| && Fits(g, order, al, g.bd.ss, se)
    requires known ==> NoNew(g, k, se) && Standing(src, script, g, b, newnz, k, Fixes(g, k, se + 1, rest))
    modifies src.r
    ensures src.r.Kept() && (if ok then src.Valid() else src.r.unreadMarker == 0)
    ensures !ok ==> out == b
    ensures known && src.Complete() ==> ok
    ensures known && ok ==> Standing(src, script, g, out, newnz, k + 1, Fixes(g, k + 1, se + 1, rest))
  {
    ok, out := true, b;
    if b[order[k]] != 0 {
      ok, out := CorrectCoef(src, b, order, al, k, se, known, g, newnz, se + 1, rest, script);
    } else if known {
      ZeroInTail(src, script, g, b, newnz, k, se, rest);
    }
  }

  method TailNext(src: HuffSource, b: Block, order: Order, al: nat, k: nat, se: nat, ghost known: bool,
                  ghost g: Target, ghost newnz: seq<nat>, ghost rest: seq<Token>, ghost script: Script)
    returns (ok: bool, out: Block, next: nat)
    requires src.Valid() && k <= se < |order| && Fits(g, order, al, g.bd.ss, se)
    requires known ==> NoNew(g, k, se) && Standing(src, script, g, b, newnz, k, Fixes(g, k, se + 1, rest))
    modifies src.r
    ensures src.r.Kept() && (if ok then src.Valid() else src.r.unreadMarker == 0)
    ensures next == if ok then k + 1 else k
    ensures known && src.Complete() ==> ok
    ensures known && ok ==> Standing(src, script, g, out, newnz, next, Fixes(g, next, se + 1, rest))
    ensures known && !ok ==> Reached(g, out, newnz, next)
  {
    if known {
      StandingReached(src, script, g, b, newnz, k, Fixes(g, k, se + 1, rest));
    }
    ok, out := TailStep(src, b, order, al, k, se, known, g, newnz, rest, script);
    next := if ok then k + 1 else k;
  }

  /** Corrects what is left of the band behind an end of block. */
  method ScanTail(src: HuffSource, b: Block, order: Order, al: nat, k0: nat, se: nat, ghost known: bool,
                  ghost g: Target, ghost newnz: seq<nat>, ghost rest: seq<Token>, ghost script: Script)
    returns (ok: bool, out: Block, ghost k: nat)
    requires src.Valid() && 0 < k0 <= se + 1 <= |order| && Fits(g, order, al, g.bd.ss, se)
    requires known ==> NoNew(g, k0, se) && Standing(src, script, g, b, newnz, k0, Fixes(g, k0, se + 1, rest))
    modifies src.r
    ensures src.r.Kept() && (if ok then src.Valid() else src.r.unreadMarker == 0)
    ensures known && src.Complete() ==> ok
    ensures known && ok ==> Standing(src, script, g, out, newnz, se + 1, rest)
    ensures known && !ok ==> Reached(g, out, newnz, k)
  {
    ok, out := true, b;
    var i := k0;
    while i <= se && ok
      invariant k0 <= i <= se + 1
      invariant src.r.Kept() && (if ok then src.Valid() else src.r.unreadMarker == 0)
      invariant known && src.Complete() ==> ok
      invariant known && ok ==> Standing(src, script, g, out, newnz, i, Fixes(g, i, se + 1, rest))
      invariant known && !ok ==> Reached(g, out, newnz, i)
      decreases se + 1 - i, ok
    {
      ok, out, i := TailNext(src, out, order, al, i, se, known, g, newnz, rest, script);
    }
    k := i;
    if known && ok {
      TailEnds(src, script, g, out, newnz, i, se, rest);
    }
  }

  lemma TailEnds(src: HuffSource, script: Script, g: Target, b: Block, newnz: seq<nat>, i: nat, se: nat,
                 rest: seq<Token>)
    requires i == se + 1 <= |g.zz| && Standing(src, script, g, b, newnz, i, Fixes(g, i, se + 1, rest))
    ensures Standing(src, script, g, b, newnz, se + 1, rest)
  {
    assert Fixes(g, i, se + 1, rest) == rest;
  }

  // ---- A symbol and what it leads to

  /** Up to coefficient k everything is done; the symbols from there on and the end of the block are ahead. */
  ghost function Ahead(g: Target, k: nat, n: nat, tail: seq<Token>): seq<Token>
    requires GoodTarget(g) && g.bd.refine && 0 < n <= MAX_EOBRUN
  {
    RefineTokens(g.bd.tbl, g.zz, BandEnd(g.bd, g.zz), k, 0, []) + Trail(g, n, tail)
  }

  ghost function Trail(g: Target, n: nat, tail: seq<Token>): seq<Token>
    requires GoodTarget(g) && g.bd.refine && 0 < n <= MAX_EOBRUN
  {
    (if HasEob(g.bd, g.zz) then EobTokens(g.bd.tbl, n) + BitTokens(TailBits(g.bd, g.zz)) else []) + tail
  }

  lemma RefineNext(tbl: nat, zz: seq<int>, e: nat, k: nat) returns (t: nat, q: nat, s: Byte, sign: seq<Token>)
    requires k <= e < |zz| && Abs(zz[e]) == 1
    ensures k <= t <= e && q == ZeroCount(zz, k, t) <= 15 && Abs(zz[t]) <= 1
    ensures forall i :: k <= i < t ==> Abs(zz[i]) != 1
    ensures s == q * 16 + (if zz[t] == 0 then 0 else 1) && (zz[t] == 0 ==> q == 15)
    ensures sign == if zz[t] == 0 then [] else [SignToken(zz[t])]
    ensures RefineTokens(tbl, zz, e, k, 0, [])
            == [Sym(tbl, s)] + sign + BitTokens(Corrections(zz, k, t)) + RefineTokens(tbl, zz, e, t + 1, 0, [])
  {
    RefineFirstSymbol(tbl, zz, e, k, 0, []);
    NoNewBefore(zz, k, 0);
    t := RefineEnd(zz, k, 0);
    q := ZeroCount(zz, k, t);
    assert [] + Corrections(zz, k, t) == Corrections(zz, k, t);
    if zz[t] == 0 {
      s, sign := q * 16, [];
      assert [Sym(tbl, s)] + sign == [Sym(tbl, s)];
    } else {
      s, sign := q * 16 + 1, [SignToken(zz[t])];
      assert [Sym(tbl, s)] + sign == [Sym(tbl, s), SignToken(zz[t])];
    }
  }

  /** The next symbol belongs to target x.t; behind it come the sign and the correction bits. */
  lemma AheadIsSymbol(g: Target, k: nat, n: nat, tail: seq<Token>) returns (x: Next)
    requires GoodTarget(g) && g.bd.refine && 0 < n <= MAX_EOBRUN && g.bd.ss <= k <= BandEnd(g.bd, g.zz)
    ensures IsCoef(g, k, n, x)
    ensures Ahead(g, k, n, tail) == [Sym(g.bd.tbl, x.s)] + (x.sign + Later(g, k, n, tail, x))
  {
    var tbl, zz, e := g.bd.tbl, g.zz, BandEnd(g.bd, g.zz);
    var t, q, s, sign := RefineNext(tbl, zz, e, k);
    AheadSplits(g, k, n, tail, tbl, zz, e, t, q, s, sign);
    x := Coef(t, q, s, sign);
  }

  lemma AheadSplits(g: Target, k: nat, n: nat, tail: seq<Token>, tbl: nat, zz: seq<int>, e: nat, t: nat, q: nat,
                    s: Byte, sign: seq<Token>)
    requires GoodTarget(g) && g.bd.refine && 0 < n <= MAX_EOBRUN && tbl == g.bd.tbl && zz == g.zz
             && e == BandEnd(g.bd, g.zz)
    requires k <= t <= e
    requires RefineTokens(tbl, zz, e, k, 0, [])
             == [Sym(tbl, s)] + sign + BitTokens(Corrections(zz, k, t)) + RefineTokens(tbl, zz, e, t + 1, 0, [])
    ensures Ahead(g, k, n, tail) == [Sym(tbl, s)] + (sign + Later(g, k, n, tail, Coef(t, q, s, sign)))
  {
    HeadParts([Sym(tbl, s)], sign, BitTokens(Corrections(zz, k, t)), RefineTokens(tbl, zz, e, t + 1, 0, []),
        Trail(g, n, tail));
  }

  lemma HeadParts<T>(a: seq<T>, b: seq<T>, c: seq<T>, d: seq<T>, e: seq<T>)
    ensures a + b + c + d + e == a + (b + (c + (d + e)))
  {
    Assoc(a, b, c);
    Assoc(a, b + c, d);
    Assoc(a, b + c + d, e);
    Assoc(b, c, d);
    Assoc(b, c + d, e);
    Assoc(c, d, e);
  }

  lemma {:induction false} NoNewBefore(zz: seq<int>, k: nat, r: nat)
    requires k < |zz| && r <= 15
    ensures forall i :: k <= i < RefineEnd(zz, k, r) ==> Abs(zz[i]) != 1
    decreases |zz| - k
  {
    if !(Abs(zz[k]) == 1 || (zz[k] == 0 && r == 15)) && k + 1 < |zz| {
      NoNewBefore(zz, k + 1, if zz[k] == 0 then r + 1 else r);
    }
  }

  /** Where the end of block stands: behind the last coefficient with a symbol. */
  ghost predicate AtSymbol(g: Target, k: nat)
    requires GoodTarget(g)
  {
    k <= BandEnd(g.bd, g.zz) || k == if Silent(g.bd, g.zz) then g.bd.ss else BandEnd(g.bd, g.zz) + 1
  }

  /** Facing the symbol at coefficient k. (folded) */
  ghost predicate Facing(src: HuffSource, script: Script, g: Target, b: Block, newnz: seq<nat>, k: nat, n: nat,
                         tail: seq<Token>)
    reads src.r
  {
    forall i: nat {:trigger Unfolded(RefineFace, i)} :: Unfolded(RefineFace, i) ==>
      && GoodTarget(g) && g.bd.refine && 0 < n <= MAX_EOBRUN && g.bd.ss <= k && AtSymbol(g, k)
      && Standing(src, script, g, b, newnz, k, Ahead(g, k, n, tail))
  }

  /** What the decoder is about to read, if it faces a symbol. */
  datatype Next = Nothing | Coef(t: nat, q: nat, s: Byte, sign: seq<Token>) | EndOfBlock

  ghost function Later(g: Target, k: nat, n: nat, tail: seq<Token>, x: Next): seq<Token>
    requires x.Coef? ==> GoodTarget(g) && g.bd.refine && 0 < n <= MAX_EOBRUN && k <= x.t <= |g.zz|
  {
    if x.Coef? then Fixes(g, k, x.t, Ahead(g, x.t + 1, n, tail)) else tail
  }

  /** The symbol of a coefficient or of sixteen zeros, at k. */
  ghost predicate IsCoef(g: Target, k: nat, n: nat, x: Next) {
    && x.Coef? && GoodTarget(g) && g.bd.refine && 0 < n <= MAX_EOBRUN && g.bd.ss <= k
    && TargetAt(g, k, x.q, x.t) && x.q <= 15 && x.t <= BandEnd(g.bd, g.zz)
    && x.s == x.q * 16 + (if g.zz[x.t] == 0 then 0 else 1) && (g.zz[x.t] == 0 ==> x.q == 15)
    && x.sign == if g.zz[x.t] == 0 then [] else [SignToken(g.zz[x.t])]
  }

  /** Which symbol is next, and what follows it. */
  lemma NextSymbol(src: HuffSource, script: Script, g: Target, b: Block, newnz: seq<nat>, k: nat, n: nat,
                   tail: seq<Token>)
    returns (x: Next)
    requires Facing(src, script, g, b, newnz, k, n, tail) && k <= g.bd.se
    ensures Reached(g, b, newnz, k) && GoodTarget(g) && g.bd.refine && 0 < n <= MAX_EOBRUN
    ensures x.EndOfBlock? || IsCoef(g, k, n, x)
    ensures x.Coef? ==> src.Faces(script, [Sym(g.bd.tbl, x.s)] + (x.sign + Later(g, k, n, tail, x)))
    ensures x.EndOfBlock? ==>
              && src.Faces(script, EobTokens(g.bd.tbl, n) + Fixes(g, k, g.bd.se + 1, tail))
              && NoNew(g, k, g.bd.se) && HasEob(g.bd, g.zz)
  {
    assert Unfolded(RefineFace, 0) && Unfolded(RefineStand, 0);
    if k <= BandEnd(g.bd, g.zz) {
      x := AheadIsSymbol(g, k, n, tail);
      SameTokens(src, script, Ahead(g, k, n, tail), [Sym(g.bd.tbl, x.s)] + (x.sign + Later(g, k, n, tail, x)));
    } else {
      x := EndOfBlock;
      AheadIsEob(g, k, n, tail);
      SameTokens(src, script, Ahead(g, k, n, tail), EobTokens(g.bd.tbl, n) + Fixes(g, k, g.bd.se + 1, tail));
    }
  }

  lemma AheadIsEob(g: Target, k: nat, n: nat, tail: seq<Token>)
    requires GoodTarget(g) && g.bd.refine && 0 < n <= MAX_EOBRUN && g.bd.ss <= k <= g.bd.se
    requires AtSymbol(g, k) && BandEnd(g.bd, g.zz) < k
    ensures Ahead(g, k, n, tail) == EobTokens(g.bd.tbl, n) + Fixes(g, k, g.bd.se + 1, tail)
    ensures NoNew(g, k, g.bd.se) && HasEob(g.bd, g.zz)
  {
    assert [] + Trail(g, n, tail) == Trail(g, n, tail);
    Assoc(EobTokens(g.bd.tbl, n), BitTokens(Corrections(g.zz, k, g.bd.se + 1)), tail);
    forall i | k <= i <= g.bd.se ensures Abs(g.zz[i]) != 1 {
      if Abs(g.zz[i]) == 1 {
        NewIsNotAfterLast(g.zz, g.bd.ss, g.bd.se, i);
      }
    }
  }

  /** The sign of a new coefficient, if the symbol announces one. */
  method ReadSign(src: HuffSource, size: nat, ghost z: int, ghost rest: seq<Token>, ghost script: Script)
    returns (ok: bool, positive: bool)
    requires src.Valid()
    modifies src.r
    ensures src.r.Kept() && (if ok then src.Valid() else src.r.unreadMarker == 0)
    ensures old(src.Faces(script, (if size == 0 then [] else [SignToken(z)]) + rest)) ==>
              (src.Complete() ==> ok) && (ok ==> src.Faces(script, rest) && (size != 0 ==> positive == (z >= 0)))
  {
    ok, positive := true, false;
    assert [] + rest == rest;
    if size != 0 {
      var v;
      ok, v := src.ReadBits(1, [if z < 0 then 0 else 1], rest, script);
      OneBitValue(if z < 0 then 0 else 1);
      positive := v == 1;
    }
  }

  /** A coefficient that becomes nonzero is stored, and its position noted. */
  lemma NewStored(g: Target, b: Block, newnz: seq<nat>, t: nat)
    requires Reached(g, b, newnz, t) && t <= g.bd.se && Abs(g.zz[t]) == 1
    ensures Reached(g, b[g.order[t] := ToCoef(if g.zz[t] >= 0 then Shl(1, g.al) else Shl(-1, g.al))],
                    newnz + [g.order[t]], t + 1)
  {
    UptoStep(g, t);
  }

  lemma ZeroPassed(g: Target, b: Block, newnz: seq<nat>, t: nat)
    requires Reached(g, b, newnz, t) && t <= g.bd.se && g.zz[t] == 0
    ensures Reached(g, b, newnz, t + 1)
  {
    UptoStep(g, t);
    assert newnz + [] == newnz;
  }

  /** Behind the target the decoder faces the next symbol. */
  lemma FacesNext(src: HuffSource, script: Script, g: Target, b: Block, newnz: seq<nat>, k: nat, n: nat,
                  tail: seq<Token>, x: Next,
                  next: nat, after: seq<Token>)
    requires IsCoef(g, k, n, x) && next == x.t + 1 && after == Ahead(g, next, n, tail)
    requires Reached(g, b, newnz, next) && src.Faces(script, after)
    ensures Facing(src, script, g, b, newnz, next, n, tail)
  {
  }

  /** The symbol x has been read at k, with run r and a size of zero or not. */
  ghost predicate Announced(g: Target, b: Block, newnz: seq<nat>, k: nat, n: nat, x: Next, r: nat, size: nat) {
    IsCoef(g, k, n, x) && Reached(g, b, newnz, k) && r == x.q && (size == 0 <==> g.zz[x.t] == 0)
  }

  /** The tokens ks follow. (folded) */
  ghost predicate Called(src: HuffSource, script: Script, g: Target, b: Block, newnz: seq<nat>, k: nat, n: nat, x: Next,
                         r: nat, size: nat, ks: seq<Token>)
    reads src.r
  {
    forall i: nat {:trigger Unfolded(RefineCall, i)} :: Unfolded(RefineCall, i) ==>
      Announced(g, b, newnz, k, n, x, r, size) && src.Faces(script, ks)
  }

  lemma CalledIs(src: HuffSource, script: Script, g: Target, b: Block, newnz: seq<nat>, k: nat, n: nat, x: Next,
                 r: nat, size: nat, ks: seq<Token>)
    requires Called(src, script, g, b, newnz, k, n, x, r, size, ks)
    ensures Announced(g, b, newnz, k, n, x, r, size) && IsCoef(g, k, n, x) && Reached(g, b, newnz, k)
    ensures src.Faces(script, ks)
  {
    assert Unfolded(RefineCall, 0);
  }

  lemma StillCalled(src: HuffSource, script: Script, g: Target, b: Block, newnz: seq<nat>, k: nat, n: nat, x: Next,
                    r: nat, size: nat, ks: seq<Token>)
    requires Announced(g, b, newnz, k, n, x, r, size) && src.Faces(script, ks)
    ensures Called(src, script, g, b, newnz, k, n, x, r, size, ks)
  {
  }

  /** What a symbol with size or with fifteen zeros calls for: first the sign of a new coefficient. */
  method RefineCoef(src: HuffSource, b: Block, order: Order, al: nat, k0: nat, r: nat, size: nat, se: nat,
                    newnz0: seq<nat>,
                    ghost g: Target, ghost n: nat, ghost tail: seq<Token>, ghost script: Script, ghost x: Next)
    returns (ok: bool, out: Block, newnz: seq<nat>, k: nat, ghost at: nat)
    requires src.Valid() && k0 <= se < |order| && Fits(g, order, al, g.bd.ss, se)
    modifies src.r
    ensures src.r.Kept() && (if ok then src.Valid() else src.r.unreadMarker == 0)
    ensures k0 < k <= se + 2
    ensures IsCoef(g, k0, n, x)
            && old(Called(src, script, g, b, newnz0, k0, n, x, r, size, x.sign + Later(g, k0, n, tail, x))) ==>
              && (src.Complete() ==> ok)
              && (if ok then Facing(src, script, g, out, newnz, k, n, tail) else Reached(g, out, newnz, at))
  {
    ghost var known := IsCoef(g, k0, n, x)
                       && Called(src, script, g, b, newnz0, k0, n, x, r, size, x.sign + Later(g, k0, n, tail, x));
    ghost var z, later := 0, [];
    if known {
      z, later := g.zz[x.t], Later(g, k0, n, tail, x);
      CalledIs(src, script, g, b, newnz0, k0, n, x, r, size, x.sign + later);
    }
    out, newnz, k, at := b, newnz0, k0 + 1, k0;
    var positive;
    ok, positive := ReadSign(src, size, z, later, script);
    if ok {
      if known {
        StillCalled(src, script, g, b, newnz0, k0, n, x, r, size, later);
      }
      ok, out, newnz, k, at := RefineTarget(src, b, order, al, k0, r, size, positive, se, newnz0, known, g, n, tail,
          script, x);
    }
  }

  /** Then the corrections up to the target, and the new coefficient itself. */
  method RefineTarget(src: HuffSource, b: Block, order: Order, al: nat, k0: nat, r: nat, size: nat, positive: bool,
                      se: nat,
                      newnz0: seq<nat>, ghost known: bool, ghost g: Target, ghost n: nat, ghost tail: seq<Token>,
                      ghost script: Script, ghost x: Next)
    returns (ok: bool, out: Block, newnz: seq<nat>, k: nat, ghost at: nat)
    requires src.Valid() && k0 <= se < |order| && Fits(g, order, al, g.bd.ss, se)
    requires known ==>
               IsCoef(g, k0, n, x) && (size != 0 ==> positive == (g.zz[x.t] >= 0))
               && Called(src, script, g, b, newnz0, k0, n, x, r, size, Later(g, k0, n, tail, x))
    modifies src.r
    ensures src.r.Kept() && (if ok then src.Valid() else src.r.unreadMarker == 0)
    ensures k0 < k <= se + 2
    ensures known && src.Complete() ==> ok
    ensures known ==> if ok then Facing(src, script, g, out, newnz, k, n, tail) else Reached(g, out, newnz, at)
  {
    ghost var t, after := 0, [];
    if known {
      t, after := x.t, Ahead(g, x.t + 1, n, tail);
      CalledStands(src, script, g, b, newnz0, k0, n, tail, x, r, size, t, after);
    }
    newnz := newnz0;
    ok, out, k := Scan(src, b, order, al, k0, r, se, known, g, newnz, t, after, script);
    var pos := k;
    at := pos;
    k := k + 1;
    if ok {
      ghost var was := out;
      if size != 0 {
        out, newnz := StoreNew(out, order, al, pos, positive), newnz + [Position(order, pos)];
      }
      if known {
        AtTarget(src, script, g, was, newnz0, k0, n, tail, x, out, newnz, size, positive, at, k, t, after);
      }
    }
  }

  /** A new coefficient. */
  function StoreNew(b: Block, order: Order, al: nat, k: nat, positive: bool): Block {
    b[Position(order, k) := ToCoef(if positive then Shl(1, al) else Shl(-1, al))]
  }

  lemma CalledStands(src: HuffSource, script: Script, g: Target, b: Block, newnz: seq<nat>, k: nat, n: nat,
                     tail: seq<Token>,
                     x: Next, r: nat, size: nat, t: nat, after: seq<Token>)
    requires IsCoef(g, k, n, x) && Called(src, script, g, b, newnz, k, n, x, r, size, Later(g, k, n, tail, x))
    requires t == x.t && after == Ahead(g, x.t + 1, n, tail)
    ensures TargetAt(g, k, r, t) && (size == 0 <==> g.zz[t] == 0)
    ensures Standing(src, script, g, b, newnz, k, Fixes(g, k, t, after))
  {
    assert Unfolded(RefineCall, 0);
  }

  /** The target is passed: a zero, or a new coefficient that has been stored. */
  lemma TargetPassed(g: Target, b: Block, newnz: seq<nat>, out: Block, newnz': seq<nat>, size: nat, positive: bool,
                     at: nat, next: nat)
    requires Reached(g, b, newnz, at) && at <= g.bd.se && next == at + 1 && Abs(g.zz[at]) <= 1
    requires (size == 0 <==> g.zz[at] == 0) && (size != 0 ==> positive == (g.zz[at] >= 0))
    requires size == 0 ==> out == b && newnz' == newnz
    requires size != 0 ==> out == StoreNew(b, g.order, g.al, at, positive) && newnz' == newnz + [Position(g.order, at)]
    ensures Reached(g, out, newnz', next)
  {
    if size == 0 {
      ZeroPassed(g, b, newnz, at);
    } else {
      NewStored(g, b, newnz, at);
    }
  }

  lemma AtTarget(src: HuffSource, script: Script, g: Target, b: Block, newnz: seq<nat>, k: nat, n: nat,
                 tail: seq<Token>,
                 x: Next, out: Block, newnz': seq<nat>, size: nat, positive: bool, at: nat, next: nat, t: nat,
                     after: seq<Token>)
    requires IsCoef(g, k, n, x) && at == t == x.t && next == at + 1 && after == Ahead(g, x.t + 1, n, tail)
    requires Standing(src, script, g, b, newnz, t, after)
    requires (size == 0 <==> g.zz[at] == 0) && (size != 0 ==> positive == (g.zz[at] >= 0))
    requires size == 0 ==> out == b && newnz' == newnz
    requires size != 0 ==> out == StoreNew(b, g.order, g.al, at, positive) && newnz' == newnz + [Position(g.order, at)]
    ensures Facing(src, script, g, out, newnz', next, n, tail)
  {
    StandingReached(src, script, g, b, newnz, t, after);
    StandingFaces(src, script, g, b, newnz, t, after);
    TargetPassed(g, b, newnz, out, newnz', size, positive, at, next);
    FacesNext(src, script, g, out, newnz', k, n, tail, x, next, after);
  }

  lemma StandingFaces(src: HuffSource, script: Script, g: Target, b: Block, newnz: seq<nat>, k: nat, ks: seq<Token>)
    requires Standing(src, script, g, b, newnz, k, ks)
    ensures src.Faces(script, ks)
  {
    assert Unfolded(RefineStand, 0);
  }

  // ---- A whole block

  /** Inside the loop over symbols, or behind the end of block that ends it. */
  ghost predicate Middle(src: HuffSource, script: Script, g: Target, b: Block, newnz: seq<nat>, k: nat, eobrun: nat,
                         n: nat,
                         tail: seq<Token>)
    reads src.r
  {
    if eobrun == 0 then Facing(src, script, g, b, newnz, k, n, tail)
    else Tail(src, script, g, b, newnz, k, eobrun, n, tail)
  }

  ghost predicate Tail(src: HuffSource, script: Script, g: Target, b: Block, newnz: seq<nat>, k: nat, eobrun: nat,
                       n: nat,
                       tail: seq<Token>)
    reads src.r
  {
    && eobrun == n && GoodBand(g.bd, g.zz) && HasEob(g.bd, g.zz) && NoNew(g, k, g.bd.se) && k <= g.bd.se + 1
    && Standing(src, script, g, b, newnz, k, Fixes(g, k, g.bd.se + 1, tail))
  }

  function HighDigit(sym: Byte): (r: nat)
    ensures r <= 15
  {
    sym / 16
  }

  function LowDigit(sym: Byte): (r: nat)
    ensures r <= 15
  {
    sym % 16
  }

  lemma DigitsOf(q: nat, l: nat)
    requires q <= 15 && l <= 15
    ensures HighDigit(q * 16 + l) == q && LowDigit(q * 16 + l) == l
  {
  }

  /** The next symbol and the tokens behind it. */
  lemma SymbolOf(src: HuffSource, script: Script, g: Target, k: nat, n: nat, tail: seq<Token>, x: Next)
    returns (s: Byte, rest: seq<Token>)
    requires GoodTarget(g) && g.bd.refine && 0 < n <= MAX_EOBRUN && k <= g.bd.se
    requires x.EndOfBlock? || IsCoef(g, k, n, x)
    requires x.Coef? ==> src.Faces(script, [Sym(g.bd.tbl, x.s)] + (x.sign + Later(g, k, n, tail, x)))
    requires x.EndOfBlock? ==> src.Faces(script, EobTokens(g.bd.tbl, n) + Fixes(g, k, g.bd.se + 1, tail))
    ensures src.Faces(script, [Sym(g.bd.tbl, s)] + rest)
    ensures x.Coef? ==> rest == x.sign + Later(g, k, n, tail, x)
                        && HighDigit(s) == x.q && LowDigit(s) == if g.zz[x.t] == 0 then 0 else 1
    ensures x.EndOfBlock? ==>
              && HighDigit(s) == Size(n) - 1 <= 14 && LowDigit(s) == 0
              && rest == (if Size(n) == 1 then [] else [Raw(Low(n, Size(n) - 1))]) + Fixes(g, k, g.bd.se + 1, tail)
  {
    if x.EndOfBlock? {
      EobSize(n);
      s := EobSymbol(n);
      DigitsOf(Size(n) - 1, 0);
      var bits := if Size(n) == 1 then [] else [Raw(Low(n, Size(n) - 1))];
      Assoc([Sym(g.bd.tbl, s)], bits, Fixes(g, k, g.bd.se + 1, tail));
      rest := bits + Fixes(g, k, g.bd.se + 1, tail);
    } else {
      s, rest := x.s, x.sign + Later(g, k, n, tail, x);
      DigitsOf(x.q, if g.zz[x.t] == 0 then 0 else 1);
    }
  }

  /** An end of block for n blocks has been read at k, but not all of its count. (folded) */
  ghost predicate Counting(src: HuffSource, script: Script, g: Target, b: Block, newnz: seq<nat>, k: nat, n: nat,
                           tail: seq<Token>, r: nat)
    reads src.r
  {
    forall i: nat {:trigger Unfolded(RefineCount, i)} :: Unfolded(RefineCount, i) ==>
      && GoodTarget(g) && g.bd.refine && k <= g.bd.se && Reached(g, b, newnz, k) && NoNew(g, k, g.bd.se)
      && HasEob(g.bd, g.zz) && 0 < n <= MAX_EOBRUN && r == Size(n) - 1
      && src.Faces(script, (if r == 0 then [] else [Raw(Low(n, r))]) + Fixes(g, k, g.bd.se + 1, tail))
  }

  /** The end of block that closes the loop. */
  method RefineEob(src: HuffSource, r: nat, b: Block, k: nat, ghost newnz: seq<nat>, ghost g: Target, ghost n: nat,
                   ghost tail: seq<Token>, ghost script: Script) returns (ok: bool, eobrun: nat)
    requires src.Valid() && r <= 14
    modifies src.r
    ensures src.r.Kept() && (if ok then src.Valid() else src.r.unreadMarker == 0)
    ensures ok ==> eobrun > 0
    ensures old(Counting(src, script, g, b, newnz, k, n, tail, r)) ==>
              && (src.Complete() ==> ok)
              && (if ok then Tail(src, script, g, b, newnz, k, eobrun, n, tail) else Reached(g, b, newnz, k))
  {
    assert Unfolded(RefineCount, 0);
    ghost var rest := [];
    if Counting(src, script, g, b, newnz, k, n, tail, r) {
      rest := Fixes(g, k, g.bd.se + 1, tail);
    }
    ok, eobrun := ReadCount(src, r, n, rest, script);
  }

  /** A symbol's digits say what it is and what follows it. */
  lemma SymbolRead(src: HuffSource, script: Script, g: Target, b: Block, newnz: seq<nat>, k: nat, n: nat,
                   tail: seq<Token>, x: Next, r: nat, size: nat, rest: seq<Token>)
    requires Reached(g, b, newnz, k) && 0 < n <= MAX_EOBRUN && k <= g.bd.se && src.Faces(script, rest)
    requires x.EndOfBlock? || IsCoef(g, k, n, x)
    requires x.Coef? ==> rest == x.sign + Later(g, k, n, tail, x) && r == x.q && size == if g.zz[x.t] == 0 then 0 else 1
    requires x.EndOfBlock? ==> NoNew(g, k, g.bd.se) && HasEob(g.bd, g.zz) && r == Size(n) - 1 <= 14 && size == 0
    requires x.EndOfBlock? ==> rest == (if r == 0 then [] else [Raw(Low(n, r))]) + Fixes(g, k, g.bd.se + 1, tail)
    ensures if size == 0 && r != 15 then Counting(src, script, g, b, newnz, k, n, tail, r)
            else IsCoef(g, k, n, x)
                 && Called(src, script, g, b, newnz, k, n, x, r, size, x.sign + Later(g, k, n, tail, x))
  {
  }

  /** The next symbol's digits; x says which symbol it is if the decoder faces one. */
  method RefineSymbol(src: HuffSource, tbl: nat, ghost b: Block, k: nat, ghost newnz: seq<nat>,
                      ghost g: Target, ghost n: nat, ghost tail: seq<Token>, ghost script: Script)
    returns (ok: bool, r: nat, size: nat, ghost x: Next)
    requires src.Valid() && k <= g.bd.se && tbl < |src.tables| && g.bd.tbl == tbl
    modifies src.r
    ensures src.r.Kept() && (if ok then src.Valid() else src.r.unreadMarker == 0)
    ensures r <= 15 && size <= 15
    ensures old(Facing(src, script, g, b, newnz, k, n, tail)) ==>
              && (src.Complete() ==> ok) && Reached(g, b, newnz, k)
              && (ok ==> if size == 0 && r != 15 then Counting(src, script, g, b, newnz, k, n, tail, r)
                         else IsCoef(g, k, n, x) && Called(src, script, g, b, newnz, k, n, x, r, size,
                                                           x.sign + Later(g, k, n, tail, x)))
  {
    ghost var s, rest := 0, [];
    ghost var known := Facing(src, script, g, b, newnz, k, n, tail);
    x := Nothing;
    if known {
      x := NextSymbol(src, script, g, b, newnz, k, n, tail);
      s, rest := SymbolOf(src, script, g, k, n, tail, x);
    }
    var sym;
    ok, sym := src.ReadSymbol(tbl, s, rest, script);
    r, size := HighDigit(sym), LowDigit(sym);
    if known && ok {
      SymbolRead(src, script, g, b, newnz, k, n, tail, x, r, size, rest);
    }
  }

  /** One turn of the loop: a symbol and what it calls for. */
  method RefineTurn(src: HuffSource, tbl: nat, b: Block, order: Order, al: nat, k0: nat, se: nat, newnz0: seq<nat>,
                    ghost g: Target, ghost n: nat, ghost tail: seq<Token>, ghost script: Script)
    returns (ok: bool, out: Block, newnz: seq<nat>, k: nat, eobrun: nat, ghost at: nat)
    requires src.Valid() && k0 <= se < |order| && Fits(g, order, al, g.bd.ss, se) && tbl < |src.tables|
             && g.bd.tbl == tbl
    modifies src.r
    ensures src.r.Kept() && (if ok then src.Valid() else src.r.unreadMarker == 0)
    ensures k0 <= k <= se + 2 && (ok && eobrun == 0 ==> k0 < k) && (eobrun > 0 ==> k <= se)
    ensures old(Facing(src, script, g, b, newnz0, k0, n, tail)) ==>
              && (src.Complete() ==> ok)
              && (if ok then Middle(src, script, g, out, newnz, k, eobrun, n, tail) else Reached(g, out, newnz, at))
  {
    out, newnz, k, eobrun, at := b, newnz0, k0, 0, k0;
    var r, size;
    ghost var x;
    ok, r, size, x := RefineSymbol(src, tbl, b, k0, newnz0, g, n, tail, script);
    if ok {
      if size == 0 && r != 15 {
        var count;
        ok, count := RefineEob(src, r, b, k0, newnz0, g, n, tail, script);
        eobrun := if ok then count else 0;
      } else {
        ok, out, newnz, k, at := RefineCoef(src, b, order, al, k0, r, size, se, newnz0, g, n, tail, script, x);
      }
    }
  }

  /** Re-zeroes the coefficients at these positions. */
  function Zeroed(b: Block, positions: seq<nat>): Block
    decreases |positions|
  {
    if positions == [] then b
    else
      var p := positions[|positions| - 1];
      Zeroed(if p < DCTSIZE2 then b[p := 0] else b, positions[..|positions| - 1])
  }

  /** The end of decode_mcu_AC_refine when it has to suspend. */
  method Undo(b: Block, newnz: seq<nat>) returns (out: Block)
    ensures out == Zeroed(b, newnz)
  {
    out := b;
    var num := |newnz|;
    assert newnz[..num] == newnz;
    while num > 0
      invariant 0 <= num <= |newnz| && Zeroed(out, newnz[..num]) == Zeroed(b, newnz)
    {
      assert newnz[..num][..num - 1] == newnz[..num - 1];
      num := num - 1;
      if newnz[num] < DCTSIZE2 {
        out := out[newnz[num] := 0];
      }
    }
  }

  lemma {:induction false} ZeroedAt(b: Block, positions: seq<nat>, i: nat)
    requires i < DCTSIZE2
    ensures Zeroed(b, positions)[i] == if i in positions then 0 else b[i]
    decreases |positions|
  {
    if positions != [] {
      var m := |positions| - 1;
      var p := positions[m];
      ZeroedAt(if p < DCTSIZE2 then b[p := 0] else b, positions[..m], i);
      assert positions == positions[..m] + [p];
    }
  }

  lemma {:induction false} NewPositionsAre(order: Order, zz: seq<int>, ss: nat, k: nat, i: nat)
    requires |zz| == |order| && k <= |zz| && i < |order|
    ensures order[i] in NewPositions(order, zz, ss, k) <==> ss <= i < k && Abs(zz[i]) == 1
    decreases k
  {
    if k > ss {
      NewPositionsAre(order, zz, ss, k - 1, i);
      assert i != k - 1 ==> order[i] != order[k - 1];
    }
  }

  lemma {:induction false} NewPositionsInside(order: Order, zz: seq<int>, ss: nat, k: nat, i: nat)
    requires |zz| == |order| && k <= |zz| && Outside(order, i)
    ensures i !in NewPositions(order, zz, ss, k)
    decreases k
  {
    if k > ss {
      NewPositionsInside(order, zz, ss, k - 1, i);
    }
  }

  /** After an attempt that was given up, the block is still one from which the next attempt leads to the same end. */
  ghost predicate Retryable(g: Target, b: Block) {
    && |g.zz| == |g.order| && GoodBand(g.bd, g.zz)
    && (g.bd.refine ==> BandPending(g.bd, g.order, g.al, g.zz, b))
    && Deposit(b, g.order, g.zz, g.al, g.bd.ss, g.bd.se) == Deposit(g.prior, g.order, g.zz, g.al, g.bd.ss, g.bd.se)
  }

  lemma UndoneAt(g: Target, b: Block, newnz: seq<nat>, k: nat, i: nat)
    requires Reached(g, b, newnz, k) && i < |g.order|
    ensures var c := Zeroed(b, newnz)[g.order[i]];
            if g.bd.ss <= i < k && Abs(g.zz[i]) > 1 then c == ToCoef(Shl(g.zz[i], g.al)) else c == g.prior[g.order[i]]
  {
    ZeroedAt(b, newnz, g.order[i]);
    NewPositionsAre(g.order, g.zz, g.bd.ss, k, i);
    DepositAt(g.prior, g.order, g.zz, g.al, g.bd.ss, k - 1, i);
    if g.bd.ss <= i < k && Abs(g.zz[i]) == 1 {
      UptoStep(g, i);
    }
  }

  lemma UndoneOutside(g: Target, b: Block, newnz: seq<nat>, k: nat, i: nat)
    requires Reached(g, b, newnz, k) && i < DCTSIZE2 && Outside(g.order, i)
    ensures Zeroed(b, newnz)[i] == g.prior[i]
  {
    ZeroedAt(b, newnz, i);
    NewPositionsInside(g.order, g.zz, g.bd.ss, k, i);
    DepositOutside(g.prior, g.order, g.zz, g.al, g.bd.ss, k - 1, i);
  }

  /** The coefficients the encoder had fit the receiver's type. */
  predicate FitsCoef(zz: seq<int>, al: nat) {
    forall i :: 0 <= i < |zz| ==> -0x8000 <= Shl(zz[i], al) < 0x8000
  }

  lemma UndoneCanRetry(g: Target, b: Block, newnz: seq<nat>, k: nat)
    requires Reached(g, b, newnz, k) && FitsCoef(g.zz, g.al)
    ensures Retryable(g, Zeroed(b, newnz))
  {
    var u := Zeroed(b, newnz);
    assert BandPending(g.bd, g.order, g.al, g.zz, u) by {
      assert Unfolded(Priors, 0);
      forall i | g.bd.ss <= i <= g.bd.se ensures Pending(u[g.order[i]], g.zz[i], g.al) {
        UndoneAt(g, b, newnz, k, i);
      }
    }
    var d, e := Deposit(u, g.order, g.zz, g.al, g.bd.ss, g.bd.se), Upto(g, g.bd.se + 1);
    forall i | 0 <= i < DCTSIZE2 ensures d[i] == e[i] {
      if Outside(g.order, i) {
        UndoneOutside(g, b, newnz, k, i);
        DepositOutside(u, g.order, g.zz, g.al, g.bd.ss, g.bd.se, i);
        DepositOutside(g.prior, g.order, g.zz, g.al, g.bd.ss, g.bd.se, i);
      } else {
        var j :| 0 <= j < |g.order| && g.order[j] == i;
        UndoneAt(g, b, newnz, k, j);
        DepositAt(u, g.order, g.zz, g.al, g.bd.ss, g.bd.se, j);
        DepositAt(g.prior, g.order, g.zz, g.al, g.bd.ss, g.bd.se, j);
      }
    }
  }

  // ---- decode_mcu_AC_refine

  /** The decoder faces the encoder's tokens for a block. (folded) */
  ghost predicate FacesBlock(src: HuffSource, script: Script, g: Target, before: nat, n: nat, tail: seq<Token>)
    reads src.r
  {
    forall i: nat {:trigger Unfolded(RefineBlock, i)} :: Unfolded(RefineBlock, i) ==>
      && GoodTarget(g) && g.bd.refine && 0 < n <= MAX_EOBRUN && FitsCoef(g.zz, g.al)
      && (before > 0 ==> Silent(g.bd, g.zz))
      && src.Faces(script, Parcel(g.bd, g.zz, before, n) + tail)
  }

  lemma BlockStarts(src: HuffSource, script: Script, g: Target, before: nat, n: nat, tail: seq<Token>)
    requires FacesBlock(src, script, g, before, n, tail)
    ensures before == 0 ==> Facing(src, script, g, g.prior, [], g.bd.ss, n, tail)
    ensures before > 0 ==> Tail(src, script, g, g.prior, [], g.bd.ss, before, before, tail) && HasEob(g.bd, g.zz)
  {
    assert Unfolded(RefineBlock, 0);
    assert Reached(g, g.prior, [], g.bd.ss);
    if before == 0 {
      Assoc(Coded(g.bd, g.zz),
          if HasEob(g.bd, g.zz) then EobTokens(g.bd.tbl, n) + BitTokens(TailBits(g.bd, g.zz)) else [], tail);
      if Silent(g.bd, g.zz) {
        assert AtSymbol(g, g.bd.ss);
      }
    } else {
      forall i | g.bd.ss <= i <= g.bd.se ensures Abs(g.zz[i]) != 1 {
        if Abs(g.zz[i]) == 1 {
          NewIsNotAfterLast(g.zz, g.bd.ss, g.bd.se, i);
        }
      }
    }
  }

  /** The loop over symbols ends behind the band, or with an end of block. */
  lemma SymbolsEnd(src: HuffSource, script: Script, g: Target, b: Block, newnz: seq<nat>, k: nat, n: nat,
                   tail: seq<Token>)
    requires Facing(src, script, g, b, newnz, k, n, tail) && k > g.bd.se
    ensures GoodTarget(g) && !HasEob(g.bd, g.zz) && b == Upto(g, g.bd.se + 1) && src.Faces(script, tail)
  {
    assert Unfolded(RefineFace, 0) && Unfolded(RefineStand, 0);
    assert [] + tail == tail && [] + ([] + tail) == tail;
  }

  /** The block is the one the encoder had, the run is counted, and the next block is ahead. */
  ghost predicate BlockReceived(src: HuffSource, script: Script, g: Target, before: nat, n: nat, tail: seq<Token>,
                                out: Block, eobrun: nat)
    reads src.r
  {
    && GoodTarget(g) && out == Upto(g, g.bd.se + 1) && 0 < n && eobrun == After(g.bd, g.zz, before, n)
    && src.Faces(script, tail)
  }

  lemma Countable(src: HuffSource, script: Script, g: Target, before: nat, n: nat, tail: seq<Token>)
    requires FacesBlock(src, script, g, before, n, tail)
    ensures GoodTarget(g) && 0 < n && FitsCoef(g.zz, g.al)
  {
    assert Unfolded(RefineBlock, 0);
  }

  /** In front of the corrections behind an end of block, of which eobrun are to be counted. (folded) */
  ghost predicate Counted(src: HuffSource, script: Script, g: Target, b: Block, newnz: seq<nat>, k: nat, eobrun: nat,
                          before: nat, n: nat, tail: seq<Token>)
    reads src.r
  {
    forall i: nat {:trigger Unfolded(RefineTail, i)} :: Unfolded(RefineTail, i) ==>
      && Tail(src, script, g, b, newnz, k, eobrun, if before > 0 then before else n, tail)
      && GoodTarget(g) && 0 < n
  }

  /** The loop over symbols, unless ends of block are still pending. */
  method RefineSymbols(src: HuffSource, tbl: nat, b: Block, order: Order, al: nat, ss: nat, se: nat, eobrun0: nat,
                       ghost g: Target, ghost n: nat, ghost tail: seq<Token>, ghost script: Script)
    returns (ok: bool, out: Block, newnz: seq<nat>, k: nat, eobrun: nat, ghost at: nat)
    requires src.Valid() && ss <= se < |order| && Fits(g, order, al, ss, se) && tbl < |src.tables| && g.bd.tbl == tbl
    modifies src.r
    ensures src.r.Kept() && (if ok then src.Valid() else src.r.unreadMarker == 0)
    ensures ss <= k <= se + 2 && (eobrun > 0 ==> k <= se + 1)
    ensures g.prior == b && old(FacesBlock(src, script, g, eobrun0, n, tail)) ==>
              && (src.Complete() ==> ok)
              && (if !ok then Reached(g, out, newnz, at)
                  else if eobrun == 0 then BlockReceived(src, script, g, eobrun0, n, tail, out, 0)
                  else Counted(src, script, g, out, newnz, k, eobrun, eobrun0, n, tail))
  {
    ok, out, newnz, k, eobrun, at := true, b, [], ss, eobrun0, ss;
    ghost var known := g.prior == b && FacesBlock(src, script, g, eobrun0, n, tail);
    if known {
      BlockStarts(src, script, g, eobrun0, n, tail);
      Countable(src, script, g, eobrun0, n, tail);
    }
    while k <= se && eobrun == 0 && ok
      invariant ss <= k <= se + 2 && (eobrun > 0 ==> k <= se + 1)
      invariant src.r.Kept() && (if ok then src.Valid() else src.r.unreadMarker == 0)
      invariant known ==> src.Complete() ==> ok
      invariant known && !ok ==> Reached(g, out, newnz, at)
      invariant known && ok && eobrun0 > 0 ==>
                  eobrun == eobrun0 && Tail(src, script, g, out, newnz, k, eobrun, eobrun0, tail)
      invariant known && ok && eobrun0 == 0 ==> Middle(src, script, g, out, newnz, k, eobrun, n, tail)
      decreases se + 2 - k, eobrun == 0, ok
    {
      ok, out, newnz, k, eobrun, at := RefineTurn(src, tbl, out, order, al, k, se, newnz, g, n, tail, script);
    }
    if known && ok && eobrun == 0 {
      SymbolsEnd(src, script, g, out, newnz, k, n, tail);
    }
  }

  /** The corrections behind an end of block. */
  method FinishTail(src: HuffSource, b: Block, order: Order, al: nat, k: nat, se: nat, eobrun0: nat,
                    ghost newnz: seq<nat>, ghost before: nat, ghost g: Target, ghost n: nat, ghost tail: seq<Token>,
                        ghost script: Script)
    returns (ok: bool, out: Block, eobrun: nat, ghost at: nat)
    requires src.Valid() && 0 < k <= se + 1 <= |order| && Fits(g, order, al, g.bd.ss, se) && eobrun0 > 0
    modifies src.r
    ensures src.r.Kept() && (if ok then src.Valid() else src.r.unreadMarker == 0)
    ensures old(Counted(src, script, g, b, newnz, k, eobrun0, before, n, tail)) ==>
              && (src.Complete() ==> ok)
              && (if ok then BlockReceived(src, script, g, before, n, tail, out, eobrun) else Reached(g, out, newnz,
                   at))
  {
    ghost var known := Counted(src, script, g, b, newnz, k, eobrun0, before, n, tail);
    assert Unfolded(RefineTail, 0);
    ok, out, at := ScanTail(src, b, order, al, k, se, known, g, newnz, tail, script);
    eobrun := eobrun0 - 1;
    if ok && known {
      TailReceived(src, script, g, out, newnz, tail);
    }
  }

  /** Symbols, then the corrections behind an end of block, which is counted. */
  method RefineBand(src: HuffSource, tbl: nat, b: Block, order: Order, al: nat, ss: nat, se: nat, eobrun0: nat,
                    ghost g: Target, ghost n: nat, ghost tail: seq<Token>, ghost script: Script)
    returns (ok: bool, out: Block, newnz: seq<nat>, eobrun: nat, ghost at: nat)
    requires src.Valid() && 0 < ss <= se < |order| && Fits(g, order, al, ss, se) && tbl < |src.tables|
             && g.bd.tbl == tbl
    modifies src.r
    ensures src.r.Kept() && (if ok then src.Valid() else src.r.unreadMarker == 0)
    ensures g.prior == b && old(FacesBlock(src, script, g, eobrun0, n, tail)) ==>
              && (src.Complete() ==> ok)
              && (if ok then BlockReceived(src, script, g, eobrun0, n, tail, out, eobrun) else Reached(g, out, newnz,
                   at))
  {
    var k;
    ok, out, newnz, k, eobrun, at := RefineSymbols(src, tbl, b, order, al, ss, se, eobrun0, g, n, tail, script);
    if ok && eobrun > 0 {
      ok, out, eobrun, at := FinishTail(src, out, order, al, k, se, eobrun, newnz, eobrun0, g, n, tail, script);
    }
  }

  lemma TailReceived(src: HuffSource, script: Script, g: Target, b: Block, newnz: seq<nat>, tail: seq<Token>)
    requires Standing(src, script, g, b, newnz, g.bd.se + 1, tail)
    ensures GoodTarget(g) && b == Upto(g, g.bd.se + 1) && src.Faces(script, tail)
  {
    assert Unfolded(RefineStand, 0);
  }

  /**
   * decode_mcu_AC_refine without restarts: with enough input the block gains its next bits; otherwise
   * everything goes back to where it was, except correction bits that are already in.
   */
  method DecodeRefine(src: HuffSource, tbl: nat, b: Block, order: Order, al: nat, ss: nat, se: nat, eobrun0: nat,
                      ghost known: bool, ghost g: Target, ghost n: nat, ghost tail: seq<Token>, ghost script: Script)
    returns (ok: bool, out: Block, eobrun: nat)
    requires src.Valid() && 0 < ss <= se < |order| && Fits(g, order, al, ss, se) && tbl < |src.tables|
             && g.bd.tbl == tbl
    requires known ==> g.prior == b && FacesBlock(src, script, g, eobrun0, n, tail)
    modifies src.r
    ensures src.Valid() && src.r.Kept() && (!ok ==> src.r.Restored() && eobrun == eobrun0)
    ensures known && src.Complete() ==> ok
    ensures known && ok ==> BandReceived(src, script, g, eobrun0, n, tail, out, eobrun)
    ensures known && !ok ==> Retryable(g, out)
  {
    var p, buf, bits := src.r.pos, src.r.getBuffer, src.r.bitsLeft;
    ghost var source, data, left := src.r.source, src.r.data, src.r.left;
    assert Unfolded(SourceState, 0);
    if src.r.unreadMarker == 0 {
      src.r.CanComeBack();
    }
    if known {
      Countable(src, script, g, eobrun0, n, tail);
    }
    var newnz;
    ghost var at;
    ok, out, newnz, eobrun, at := RefineBand(src, tbl, b, order, al, ss, se, eobrun0, g, n, tail, script);
    if !ok {
      if known {
        UndoneCanRetry(g, out, newnz, at);
      }
      out := Undo(out, newnz);
      src.r.Restore(p, buf, bits, source, data, left);
      eobrun := eobrun0;
    }
  }

  // ---- decode_mcu_AC_first

  /** The block is done up to coefficient k. */
  ghost predicate FilledTo(g: Target, b: Block, k: nat) {
    && |g.zz| == |g.order| && FitBand(g.bd, g.zz) && !g.bd.refine && g.bd.ss <= k <= g.bd.se + 1
    && b == Deposit(g.prior, g.order, g.zz, g.al, g.bd.ss, k - 1)
  }

  ghost function AcTrail(g: Target, n: nat, tail: seq<Token>): seq<Token>
    requires GoodBand(g.bd, g.zz) && 0 < n <= MAX_EOBRUN
  {
    (if HasEob(g.bd, g.zz) then EobTokens(g.bd.tbl, n) else []) + tail
  }

  /** What is left of the block when its coefficients before k are done. */
  ghost function AcAhead(g: Target, k: nat, n: nat, tail: seq<Token>): seq<Token>
    requires FitBand(g.bd, g.zz) && !g.bd.refine && g.bd.ss <= k && 0 < n <= MAX_EOBRUN
  {
    AcTokens(g.bd.tbl, g.zz, BandEnd(g.bd, g.zz), k, 0) + AcTrail(g, n, tail)
  }

  /** At coefficient k, facing its symbol or the end of the block. (folded) */
  ghost predicate Filling(src: HuffSource, script: Script, g: Target, b: Block, k: nat, n: nat, tail: seq<Token>)
    reads src.r
  {
    forall i: nat {:trigger Unfolded(FirstFill, i)} :: Unfolded(FirstFill, i) ==>
      && FilledTo(g, b, k) && 0 < n <= MAX_EOBRUN
      && (k <= BandEnd(g.bd, g.zz) || k == if Silent(g.bd, g.zz) then g.bd.ss else BandEnd(g.bd, g.zz) + 1)
      && src.Faces(script, AcAhead(g, k, n, tail))
  }

  lemma {:induction false} ZerosFill(g: Target, k: nat, t: nat)
    requires |g.zz| == |g.order| && 0 < g.bd.ss <= k <= t <= |g.zz| && forall j :: k <= j < t ==> g.zz[j] == 0
    ensures Deposit(g.prior, g.order, g.zz, g.al, g.bd.ss, t - 1) == Deposit(g.prior, g.order, g.zz, g.al, g.bd.ss,
              k - 1)
    decreases t - k
  {
    if k < t {
      DepositSnoc(g.prior, g.order, g.zz, g.al, g.bd.ss, t - 1);
      ZerosFill(g, k, t - 1);
    }
  }

  /** The next symbol of a band that is sent for the first time, and what it leads to. */
  datatype AcNext = AcZrl(t: nat) | AcCoef(t: nat) | AcEob

  ghost predicate IsAcNext(src: HuffSource, script: Script, g: Target, b: Block, k: nat, n: nat, tail: seq<Token>,
                           x: AcNext)
    reads src.r
  {
    && FilledTo(g, b, k) && k <= g.bd.se && 0 < n <= MAX_EOBRUN
    && match x
       case AcZrl(t) => ZrlIsNext(src, script, g, b, k, n, tail, t)
       case AcCoef(t) => CoefIsNext(src, script, g, b, k, n, tail, t)
       case AcEob => EobIsNext(src, script, g, b, n, tail)
  }

  ghost predicate ZrlIsNext(src: HuffSource, script: Script, g: Target, b: Block, k: nat, n: nat, tail: seq<Token>,
                            t: nat)
    requires GoodBand(g.bd, g.zz) && FitBand(g.bd, g.zz) && !g.bd.refine && g.bd.ss <= k && 0 < n <= MAX_EOBRUN
    reads src.r
  {
    && k <= t <= BandEnd(g.bd, g.zz) && FilledTo(g, b, t) && t == k + 15 && g.zz[t] == 0
    && src.Faces(script, [Sym(g.bd.tbl, ZRL)] + AcAhead(g, t + 1, n, tail))
  }

  ghost function CoefAhead(g: Target, k: nat, n: nat, tail: seq<Token>, t: nat): seq<Token>
    requires FitBand(g.bd, g.zz) && !g.bd.refine && g.bd.ss <= k <= t < |g.zz| && 0 < n <= MAX_EOBRUN
    requires t - k <= 15 && Size(Abs(g.zz[t])) <= 15
  {
    [Sym(g.bd.tbl, RunSize(t - k, g.zz[t]))] + ([Raw(Extra(g.zz[t]))] + AcAhead(g, t + 1, n, tail))
  }

  ghost predicate CoefIsNext(src: HuffSource, script: Script, g: Target, b: Block, k: nat, n: nat, tail: seq<Token>,
                             t: nat)
    requires GoodBand(g.bd, g.zz) && FitBand(g.bd, g.zz) && !g.bd.refine && g.bd.ss <= k && 0 < n <= MAX_EOBRUN
    reads src.r
  {
    && k <= t <= BandEnd(g.bd, g.zz) && FilledTo(g, b, t)
    && t - k <= 15 && g.zz[t] != 0 && 0 < Size(Abs(g.zz[t])) <= MAX_COEF_BITS
    && src.Faces(script, CoefAhead(g, k, n, tail, t))
  }

  ghost predicate EobIsNext(src: HuffSource, script: Script, g: Target, b: Block, n: nat, tail: seq<Token>)
    requires GoodBand(g.bd, g.zz) && 0 < n <= MAX_EOBRUN && |g.zz| == |g.order|
    reads src.r
  {
    && HasEob(g.bd, g.zz) && b == Deposit(g.prior, g.order, g.zz, g.al, g.bd.ss, g.bd.se)
    && src.Faces(script, EobTokens(g.bd.tbl, n) + tail)
  }

  /** The tokens of an unfinished band split behind the first symbol. */
  lemma AcHead(tbl: nat, zz: seq<int>, e: nat, k: nat, trail: seq<Token>) returns (t: nat)
    requires k <= e < |zz| && SmallBand(zz, k, e) && zz[e] != 0
    ensures k <= t <= e && (forall j :: k <= j < t ==> zz[j] == 0)
    ensures zz[t] == 0 ==>
              && t == k + 15
              && AcTokens(tbl, zz, e, k, 0) + trail == [Sym(tbl, ZRL)] + (AcTokens(tbl, zz, e, t + 1, 0) + trail)
    ensures zz[t] != 0 ==>
              && t - k <= 15 && 0 < Size(Abs(zz[t])) <= MAX_COEF_BITS
              && AcTokens(tbl, zz, e, k, 0) + trail
                 == [Sym(tbl, RunSize(t - k, zz[t]))] + ([Raw(Extra(zz[t]))] + (AcTokens(tbl, zz, e, t + 1, 0) + trail))
  {
    AcFirstSymbol(tbl, zz, e, k, 0);
    t := RunEnd(zz, k, 0);
    var later := AcTokens(tbl, zz, e, t + 1, 0);
    if zz[t] == 0 {
      Assoc([Sym(tbl, ZRL)], later, trail);
    } else {
      var s, v := [Sym(tbl, RunSize(t - k, zz[t]))], [Raw(Extra(zz[t]))];
      assert s + v == [Sym(tbl, RunSize(t - k, zz[t])), Raw(Extra(zz[t]))];
      Assoc(s + v, later, trail);
      Assoc(s, v, later + trail);
    }
  }

  lemma SymbolIsNext(src: HuffSource, script: Script, g: Target, b: Block, k: nat, n: nat,
                     tail: seq<Token>) returns (t: nat)
    requires FilledTo(g, b, k) && 0 < n <= MAX_EOBRUN && k <= BandEnd(g.bd, g.zz)
    requires src.Faces(script, AcAhead(g, k, n, tail))
    ensures t < |g.zz| && FilledTo(g, b, t)
    ensures g.zz[t] == 0 ==> ZrlIsNext(src, script, g, b, k, n, tail, t)
    ensures g.zz[t] != 0 ==> CoefIsNext(src, script, g, b, k, n, tail, t)
  {
    t := AcHead(g.bd.tbl, g.zz, BandEnd(g.bd, g.zz), k, AcTrail(g, n, tail));
    ZerosFill(g, k, t);
  }

  lemma NextAc(src: HuffSource, script: Script, g: Target, b: Block, k: nat, n: nat,
               tail: seq<Token>) returns (x: AcNext)
    requires Filling(src, script, g, b, k, n, tail) && k <= g.bd.se
    ensures IsAcNext(src, script, g, b, k, n, tail, x) && AcFact(g, b, k, n, x)
  {
    assert Unfolded(FirstFill, 0);
    if k <= BandEnd(g.bd, g.zz) {
      var t := SymbolIsNext(src, script, g, b, k, n, tail);
      x := if g.zz[t] == 0 then AcZrl(t) else AcCoef(t);
    } else {
      x := AcEob;
      assert [] + AcTrail(g, n, tail) == AcTrail(g, n, tail);
      NothingAfterEnd(g, k);
    }
  }

  lemma NothingAfterEnd(g: Target, k: nat)
    requires |g.zz| == |g.order| && GoodBand(g.bd, g.zz) && !g.bd.refine && BandEnd(g.bd, g.zz) < k
             && g.bd.ss <= k <= g.bd.se + 1
    ensures Deposit(g.prior, g.order, g.zz, g.al, g.bd.ss, g.bd.se) == Deposit(g.prior, g.order, g.zz, g.al, g.bd.ss,
              k - 1)
  {
    forall j | k <= j < g.bd.se + 1 ensures g.zz[j] == 0 {
      if g.zz[j] != 0 {
        NonzeroIsNotAfterLast(g.zz, g.bd.ss, g.bd.se, j);
      }
    }
    ZerosFill(g, k, g.bd.se + 1);
  }

  /** The band is done, and so is its end of block. */
  ghost predicate Filled(src: HuffSource, script: Script, g: Target, b: Block, tail: seq<Token>)
    reads src.r
  {
    && |g.zz| == |g.order| && FitBand(g.bd, g.zz) && !g.bd.refine
    && b == Deposit(g.prior, g.order, g.zz, g.al, g.bd.ss, g.bd.se) && src.Faces(script, tail)
  }

  /** The value behind a symbol with a size is stored. */
  method FillCoef(src: HuffSource, b: Block, order: Order, al: nat, k: nat, size: nat, ghost known: bool,
                  ghost g: Target, ghost n: nat, ghost tail: seq<Token>, ghost script: Script)
    returns (ok: bool, out: Block)
    requires src.Valid() && 0 < size <= 15 && Fits(g, order, al, g.bd.ss, g.bd.se)
    requires known ==>
               && FilledTo(g, b, k) && k <= BandEnd(g.bd, g.zz) && g.zz[k] != 0 && size == Size(Abs(g.zz[k]))
               && 0 < n <= MAX_EOBRUN && src.Faces(script, [Raw(Extra(g.zz[k]))] + AcAhead(g, k + 1, n, tail))
    modifies src.r
    ensures src.r.Kept() && (if ok then src.Valid() else src.r.unreadMarker == 0)
    ensures !ok ==> out == b
    ensures known && src.Complete() ==> ok
    ensures known && ok ==> Filling(src, script, g, out, k + 1, n, tail)
  {
    ghost var bits, rest := Low(0, size), [];
    if known {
      bits, rest := Extra(g.zz[k]), AcAhead(g, k + 1, n, tail);
    }
    var v;
    ok, v := src.ReadBits(size, bits, rest, script);
    out := b;
    if ok {
      out := b[Position(order, k) := ToCoef(Shl(Extend(v, size), al))];
      if known {
        CoefFilled(g, b, out, k, v, size);
      }
    }
  }

  lemma CoefFilled(g: Target, b: Block, out: Block, k: nat, v: nat, size: nat)
    requires FilledTo(g, b, k) && k <= g.bd.se && g.zz[k] != 0 && size == Size(Abs(g.zz[k]))
             && v == Value(Extra(g.zz[k]))
    requires out == b[Position(g.order, k) := ToCoef(Shl(Extend(v, size), g.al))]
    ensures FilledTo(g, out, k + 1)
  {
    ExtendsBack(g.zz[k]);
    DepositSnoc(g.prior, g.order, g.zz, g.al, g.bd.ss, k);
  }

  /** What is known once the symbol of x has been read. (folded) */
  ghost predicate Told(src: HuffSource, script: Script, g: Target, b: Block, k: nat, n: nat, tail: seq<Token>,
                       x: AcNext,
                       r: nat, size: nat)
    reads src.r
  {
    forall i: nat {:trigger Unfolded(FirstTold, i)} :: Unfolded(FirstTold, i) ==>
      && FilledTo(g, b, k) && k <= g.bd.se && 0 < n <= MAX_EOBRUN
      && match x
         case AcZrl(t) => r == 15 && size == 0 && t == k + 15 && Filling(src, script, g, b, t + 1, n, tail)
         case AcCoef(t) =>
           && k <= t <= BandEnd(g.bd, g.zz) && r == t - k && g.zz[t] != 0 && size == Size(Abs(g.zz[t])) && size > 0
           && FilledTo(g, b, t)
           && src.Faces(script, [Raw(Extra(g.zz[t]))]
                + AcAhead(g, t + 1, n, tail))
         case AcEob =>
           && r == Size(n) - 1 && size == 0 && HasEob(g.bd, g.zz)
           && b == Deposit(g.prior, g.order, g.zz, g.al, g.bd.ss, g.bd.se)
           && src.Faces(script, (if r == 0 then [] else [Raw(Low(n, r))]) + tail)
  }

  /** The symbol that is next, and the tokens behind it. */
  ghost function AcSymbol(g: Target, k: nat, n: nat, x: AcNext): Byte
    requires GoodBand(g.bd, g.zz) && 0 < n <= MAX_EOBRUN
  {
    match x
    case AcZrl(_) => ZRL
    case AcCoef(t) =>
      if k <= t < |g.zz| && t - k <= 15 && Size(Abs(g.zz[t])) <= 15 then RunSize(t - k, g.zz[t]) else 0
    case AcEob => EobSymbol(n)
  }

  ghost function AcBehind(g: Target, n: nat, tail: seq<Token>, x: AcNext): seq<Token>
    requires FitBand(g.bd, g.zz) && !g.bd.refine && 0 < n <= MAX_EOBRUN
    requires !x.AcEob? ==> g.bd.ss <= x.t <= BandEnd(g.bd, g.zz)
  {
    match x
    case AcZrl(t) => AcAhead(g, t + 1, n, tail)
    case AcCoef(t) =>
      [Raw(Extra(g.zz[t]))] + AcAhead(g, t + 1, n, tail)
    case AcEob => (if Size(n) == 1 then [] else [Raw(Low(n, Size(n) - 1))]) + tail
  }

  lemma FacesSymbol(src: HuffSource, script: Script, g: Target, b: Block, k: nat, n: nat, tail: seq<Token>, x: AcNext)
    requires IsAcNext(src, script, g, b, k, n, tail, x)
    ensures !x.AcEob? ==> g.bd.ss <= x.t <= BandEnd(g.bd, g.zz)
    ensures src.Faces(script, [Sym(g.bd.tbl, AcSymbol(g, k, n, x))] + AcBehind(g, n, tail, x))
  {
    if x.AcZrl? {
      FacesZrl(src, script, g, b, k, n, tail, x);
    } else if x.AcCoef? {
      FacesCoef(src, script, g, b, k, n, tail, x);
    } else {
      FacesEob(src, script, g, b, k, n, tail, x);
    }
  }

  lemma ZrlIsAhead(g: Target, k: nat, n: nat, tail: seq<Token>, x: AcNext)
    requires FitBand(g.bd, g.zz) && !g.bd.refine && 0 < n <= MAX_EOBRUN && x.AcZrl?
             && g.bd.ss <= x.t <= BandEnd(g.bd, g.zz)
    ensures [Sym(g.bd.tbl, AcSymbol(g, k, n, x))] + AcBehind(g, n, tail, x)
            == [Sym(g.bd.tbl, ZRL)] + AcAhead(g, x.t + 1, n, tail)
  {
  }

  lemma FacesZrl(src: HuffSource, script: Script, g: Target, b: Block, k: nat, n: nat, tail: seq<Token>, x: AcNext)
    requires IsAcNext(src, script, g, b, k, n, tail, x) && x.AcZrl?
    ensures g.bd.ss <= x.t <= BandEnd(g.bd, g.zz)
    ensures src.Faces(script, [Sym(g.bd.tbl, AcSymbol(g, k, n, x))] + AcBehind(g, n, tail, x))
  {
    ZrlIsAhead(g, k, n, tail, x);
    SameTokens(src, script, [Sym(g.bd.tbl, ZRL)] + AcAhead(g, x.t + 1, n, tail),
               [Sym(g.bd.tbl, AcSymbol(g, k, n, x))] + AcBehind(g, n, tail, x));
  }

  lemma FacesCoef(src: HuffSource, script: Script, g: Target, b: Block, k: nat, n: nat, tail: seq<Token>, x: AcNext)
    requires IsAcNext(src, script, g, b, k, n, tail, x) && x.AcCoef?
    ensures g.bd.ss <= x.t <= BandEnd(g.bd, g.zz)
    ensures src.Faces(script, [Sym(g.bd.tbl, AcSymbol(g, k, n, x))] + AcBehind(g, n, tail, x))
  {
    CoefIsAhead(g, k, n, tail, x);
    SameTokens(src, script, CoefAhead(g, k, n, tail, x.t),
               [Sym(g.bd.tbl, AcSymbol(g, k, n, x))] + AcBehind(g, n, tail, x));
  }

  lemma SameTokens(src: HuffSource, script: Script, ks: seq<Token>, ls: seq<Token>)
    requires src.Faces(script, ks) && ks == ls
    ensures src.Faces(script, ls)
  {
  }

  lemma FacesEob(src: HuffSource, script: Script, g: Target, b: Block, k: nat, n: nat, tail: seq<Token>, x: AcNext)
    requires IsAcNext(src, script, g, b, k, n, tail, x) && x.AcEob?
    ensures src.Faces(script, [Sym(g.bd.tbl, AcSymbol(g, k, n, x))] + AcBehind(g, n, tail, x))
  {
    EobAhead(g, k, n, tail);
  }

  lemma CoefIsAhead(g: Target, k: nat, n: nat, tail: seq<Token>, x: AcNext)
    requires FitBand(g.bd, g.zz) && !g.bd.refine && 0 < n <= MAX_EOBRUN
    requires x.AcCoef? && g.bd.ss <= k <= x.t <= BandEnd(g.bd, g.zz)
    requires x.t - k <= 15 && 0 < Size(Abs(g.zz[x.t])) <= MAX_COEF_BITS
    ensures [Sym(g.bd.tbl, AcSymbol(g, k, n, x))] + AcBehind(g, n, tail, x) == CoefAhead(g, k, n, tail, x.t)
  {
  }

  lemma EobAhead(g: Target, k: nat, n: nat, tail: seq<Token>)
    requires FitBand(g.bd, g.zz) && !g.bd.refine && 0 < n <= MAX_EOBRUN
    ensures [Sym(g.bd.tbl, AcSymbol(g, k, n, AcEob))] + AcBehind(g, n, tail, AcEob) == EobTokens(g.bd.tbl, n) + tail
  {
    EobFirst(g.bd.tbl, n, tail);
  }

  lemma EobFirst(tbl: nat, n: nat, tail: seq<Token>)
    requires 0 < n <= MAX_EOBRUN
    ensures EobTokens(tbl, n) + tail
            == [Sym(tbl, EobSymbol(n))] + ((if Size(n) == 1 then [] else [Raw(Low(n, Size(n) - 1))]) + tail)
  {
    Assoc([Sym(tbl, EobSymbol(n))], if Size(n) == 1 then [] else [Raw(Low(n, Size(n) - 1))], tail);
  }

  /** What a symbol says about the block. */
  ghost predicate AcFact(g: Target, b: Block, k: nat, n: nat, x: AcNext) {
    && FilledTo(g, b, k) && k <= g.bd.se && 0 < n <= MAX_EOBRUN
    && (!x.AcEob? ==> k <= x.t <= BandEnd(g.bd, g.zz) && FilledTo(g, b, x.t))
    && (x.AcZrl? ==> x.t == k + 15 && g.zz[x.t] == 0)
    && (x.AcCoef? ==> x.t - k <= 15 && g.zz[x.t] != 0 && 0 < Size(Abs(g.zz[x.t])) <= MAX_COEF_BITS)
    && (x.AcEob? ==> HasEob(g.bd, g.zz) && b == Deposit(g.prior, g.order, g.zz, g.al, g.bd.ss, g.bd.se))
  }

  lemma ToldZrl(src: HuffSource, script: Script, g: Target, b: Block, k: nat, n: nat, tail: seq<Token>, x: AcNext)
    requires AcFact(g, b, k, n, x) && x.AcZrl? && src.Faces(script, AcBehind(g, n, tail, x))
    ensures var s := AcSymbol(g, k, n, x); Told(src, script, g, b, k, n, tail, x, HighDigit(s), LowDigit(s))
  {
    DigitsOf(15, 0);
    ZrlFilling(src, script, g, b, k, n, tail, x);
  }

  lemma ZrlFilling(src: HuffSource, script: Script, g: Target, b: Block, k: nat, n: nat, tail: seq<Token>, x: AcNext)
    requires AcFact(g, b, k, n, x) && x.AcZrl? && src.Faces(script, AcBehind(g, n, tail, x))
    ensures Filling(src, script, g, b, x.t + 1, n, tail)
  {
    ZeroFilled(g, b, x.t);
    SameTokens(src, script, AcBehind(g, n, tail, x), AcAhead(g, x.t + 1, n, tail));
  }

  lemma ZeroFilled(g: Target, b: Block, t: nat)
    requires FilledTo(g, b, t) && t <= g.bd.se && g.zz[t] == 0
    ensures FilledTo(g, b, t + 1)
  {
    ZerosFill(g, t, t + 1);
  }

  lemma ToldCoef(src: HuffSource, script: Script, g: Target, b: Block, k: nat, n: nat, tail: seq<Token>, x: AcNext)
    requires AcFact(g, b, k, n, x) && x.AcCoef? && src.Faces(script, AcBehind(g, n, tail, x))
    ensures var s := AcSymbol(g, k, n, x); Told(src, script, g, b, k, n, tail, x, HighDigit(s), LowDigit(s))
  {
    DigitsOf(x.t - k, Size(Abs(g.zz[x.t])));
  }

  lemma ToldEob(src: HuffSource, script: Script, g: Target, b: Block, k: nat, n: nat, tail: seq<Token>, x: AcNext)
    requires AcFact(g, b, k, n, x) && x.AcEob? && src.Faces(script, AcBehind(g, n, tail, x))
    ensures var s := AcSymbol(g, k, n, x); Told(src, script, g, b, k, n, tail, x, HighDigit(s), LowDigit(s))
  {
    EobSize(n);
    DigitsOf(Size(n) - 1, 0);
  }

  /** With the symbol read, its digits say which of the three it was. */
  lemma ToldBySymbol(src: HuffSource, script: Script, g: Target, b: Block, k: nat, n: nat, tail: seq<Token>, x: AcNext)
    requires AcFact(g, b, k, n, x) && src.Faces(script, AcBehind(g, n, tail, x))
    ensures var s := AcSymbol(g, k, n, x); Told(src, script, g, b, k, n, tail, x, HighDigit(s), LowDigit(s))
  {
    if x.AcZrl? {
      ToldZrl(src, script, g, b, k, n, tail, x);
    } else if x.AcCoef? {
      ToldCoef(src, script, g, b, k, n, tail, x);
    } else {
      ToldEob(src, script, g, b, k, n, tail, x);
    }
  }

  method FillSymbol(src: HuffSource, tbl: nat, ghost b: Block, ghost k: nat, ghost g: Target, ghost n: nat,
                    ghost tail: seq<Token>, ghost script: Script)
    returns (ok: bool, r: nat, size: nat, ghost x: AcNext)
    requires src.Valid() && k <= g.bd.se && tbl < |src.tables| && g.bd.tbl == tbl
    modifies src.r
    ensures src.r.Kept() && (if ok then src.Valid() else src.r.unreadMarker == 0)
    ensures r <= 15 && size <= 15
    ensures old(Filling(src, script, g, b, k, n, tail)) ==>
              (src.Complete() ==> ok) && (ok ==> Told(src, script, g, b, k, n, tail, x, r, size))
  {
    ghost var s, rest := 0, [];
    ghost var known := Filling(src, script, g, b, k, n, tail);
    x := AcEob;
    if known {
      x := NextAc(src, script, g, b, k, n, tail);
      FacesSymbol(src, script, g, b, k, n, tail, x);
      s, rest := AcSymbol(g, k, n, x), AcBehind(g, n, tail, x);
    }
    var sym;
    ok, sym := src.ReadSymbol(tbl, s, rest, script);
    r, size := HighDigit(sym), LowDigit(sym);
    if known && ok {
      ToldBySymbol(src, script, g, b, k, n, tail, x);
    }
  }

  /** After a turn: at another symbol, or done, with the other ends of block of the run still to come. */
  ghost predicate Turned(src: HuffSource, script: Script, g: Target, b: Block, k: nat, n: nat, tail: seq<Token>,
                         finished: bool, eobrun: nat)
    reads src.r
  {
    if finished then Filled(src, script, g, b, tail) && HasEob(g.bd, g.zz) && eobrun + 1 == n
    else eobrun == 0 && Filling(src, script, g, b, k, n, tail)
  }

  /** One turn of the loop. An end of block stands for one block only, unless there are runs. */
  method FillTurn(src: HuffSource, tbl: nat, b: Block, order: Order, al: nat, k0: nat, se: nat, runs: bool,
                  ghost g: Target, ghost n: nat, ghost tail: seq<Token>, ghost script: Script)
    returns (ok: bool, out: Block, k: nat, finished: bool, eobrun: nat)
    requires src.Valid() && k0 <= se < |order| && Fits(g, order, al, g.bd.ss, se) && tbl < |src.tables|
             && g.bd.tbl == tbl
    modifies src.r
    ensures src.r.Kept() && (if ok then src.Valid() else src.r.unreadMarker == 0)
    ensures (finished || k0 < k) && (!ok ==> out == b)
    ensures (runs || n == 1) && old(Filling(src, script, g, b, k0, n, tail)) ==>
              (src.Complete() ==> ok) && (ok ==> Turned(src, script, g, out, k, n, tail, finished, eobrun))
  {
    var r, size;
    ghost var x;
    ghost var known := (runs || n == 1) && Filling(src, script, g, b, k0, n, tail);
    ok, r, size, x := FillSymbol(src, tbl, b, k0, g, n, tail, script);
    out, k, finished, eobrun := b, k0 + 1, false, 0;
    if ok {
      if size != 0 {
        k := k0 + r + 1;
        ok, out := FillNext(src, b, order, al, k0, r, size, known, k, g, n, tail, script, x);
      } else if r == 15 {
        k := k0 + 16;
        ZrlTold(src, script, g, b, k0, n, tail, x, r, k);
      } else {
        finished := true;
        ok, eobrun := FillEob(src, b, k0, r, runs, k, g, n, tail, script, x);
      }
    }
  }

  lemma ZrlTold(src: HuffSource, script: Script, g: Target, b: Block, k: nat, n: nat, tail: seq<Token>, x: AcNext,
                r: nat,
                k': nat)
    requires r == 15 && k' == k + 16
    ensures Told(src, script, g, b, k, n, tail, x, r, 0) ==> Turned(src, script, g, b, k', n, tail, false, 0)
  {
    if Told(src, script, g, b, k, n, tail, x, r, 0) {
      assert Unfolded(FirstTold, 0);
      match x
      case AcZrl(t) =>
        assert t + 1 == k' && Filling(src, script, g, b, k', n, tail);
      case AcCoef(_) =>
      case AcEob =>
        EobSize(n);
    }
  }

  method FillNext(src: HuffSource, b: Block, order: Order, al: nat, k: nat, r: nat, size: nat, ghost known: bool,
                  ghost k': nat, ghost g: Target, ghost n: nat, ghost tail: seq<Token>, ghost script: Script,
                      ghost x: AcNext)
    returns (ok: bool, out: Block)
    requires src.Valid() && 0 < size <= 15 && Fits(g, order, al, g.bd.ss, g.bd.se) && k' == k + r + 1
    requires known ==> Told(src, script, g, b, k, n, tail, x, r, size)
    modifies src.r
    ensures src.r.Kept() && (if ok then src.Valid() else src.r.unreadMarker == 0)
    ensures !ok ==> out == b
    ensures known && src.Complete() ==> ok
    ensures known && ok ==> Turned(src, script, g, out, k', n, tail, false, 0)
  {
    var at := k + r;
    if known {
      CoefTold(src, script, g, b, k, n, tail, x, r, size, at);
    }
    ok, out := FillCoef(src, b, order, al, at, size, known, g, n, tail, script);
  }

  lemma CoefTold(src: HuffSource, script: Script, g: Target, b: Block, k: nat, n: nat, tail: seq<Token>, x: AcNext,
                 r: nat, size: nat, at: nat)
    requires Told(src, script, g, b, k, n, tail, x, r, size) && size > 0 && at == k + r
    ensures x.AcCoef? && at == x.t && 0 < n <= MAX_EOBRUN
    ensures FilledTo(g, b, x.t) && x.t <= BandEnd(g.bd, g.zz) && g.zz[x.t] != 0 && size == Size(Abs(g.zz[x.t]))
    ensures src.Faces(script, [Raw(Extra(g.zz[x.t]))] + AcAhead(g, x.t + 1, n, tail))
  {
    assert Unfolded(FirstTold, 0);
  }

  /** The end of block: in a run it stands for more blocks to come. */
  method FillEob(src: HuffSource, ghost b: Block, ghost k: nat, r: nat, runs: bool, ghost k': nat, ghost g: Target,
                 ghost n: nat,
                 ghost tail: seq<Token>, ghost script: Script, ghost x: AcNext)
    returns (ok: bool, eobrun: nat)
    requires src.Valid() && r <= 14
    modifies src.r
    ensures src.r.Kept() && (if ok then src.Valid() else src.r.unreadMarker == 0)
    ensures (runs || n == 1) && old(Told(src, script, g, b, k, n, tail, x, r, 0)) ==>
              (src.Complete() ==> ok)
              && (ok ==> Turned(src, script, g, b, k', n, tail, true, eobrun))
  {
    assert Unfolded(FirstTold, 0);
    assert [] + tail == tail;
    ok, eobrun := true, 0;
    if runs {
      var count;
      ok, count := ReadCount(src, r, n, tail, script);
      eobrun := if ok then count - 1 else 0;
    }
  }

  /** The decoder faces the tokens of a block that is sent for the first time. (folded) */
  ghost predicate FacesFirst(src: HuffSource, script: Script, g: Target, before: nat, n: nat, tail: seq<Token>)
    reads src.r
  {
    forall i: nat {:trigger Unfolded(FirstBlock, i)} :: Unfolded(FirstBlock, i) ==>
      && |g.zz| == |g.order| && FitBand(g.bd, g.zz) && !g.bd.refine && 0 < n <= MAX_EOBRUN
      && (before > 0 ==> Silent(g.bd, g.zz))
      && src.Faces(script, Parcel(g.bd, g.zz, before, n) + tail)
  }

  lemma FirstStarts(src: HuffSource, script: Script, g: Target, before: nat, n: nat, tail: seq<Token>)
    requires FacesFirst(src, script, g, before, n, tail)
    ensures before == 0 ==> Filling(src, script, g, g.prior, g.bd.ss, n, tail)
    ensures before > 0 ==> Filled(src, script, g, g.prior, tail)
    ensures 0 < n && GoodBand(g.bd, g.zz)
  {
    assert Unfolded(FirstBlock, 0);
    if before == 0 {
      var e := if HasEob(g.bd, g.zz) then EobTokens(g.bd.tbl, n) else [];
      assert e + BitTokens([]) == e;
      Assoc(Coded(g.bd, g.zz), e, tail);
    } else {
      assert [] + tail == tail;
      NothingAfterEnd(g, g.bd.ss);
    }
  }

  lemma FillingEnds(src: HuffSource, script: Script, g: Target, b: Block, k: nat, n: nat, tail: seq<Token>)
    requires Filling(src, script, g, b, k, n, tail) && k > g.bd.se
    ensures Filled(src, script, g, b, tail) && GoodBand(g.bd, g.zz) && !HasEob(g.bd, g.zz)
  {
    assert Unfolded(FirstFill, 0);
    assert [] + tail == tail && [] + ([] + tail) == tail;
  }

  /** The block and the pending ends of block behind it. */
  ghost predicate FirstReceived(src: HuffSource, script: Script, g: Target, before: nat, n: nat, tail: seq<Token>,
                                out: Block, eobrun: nat)
    reads src.r
  {
    Filled(src, script, g, out, tail) && 0 < n && eobrun == After(g.bd, g.zz, before, n)
  }

  /** The band's symbols, unless an end of block is pending; the AC part of decode_mcu, where there are no runs. */
  method FillBlock(src: HuffSource, tbl: nat, b: Block, order: Order, al: nat, ss: nat, se: nat, runs: bool,
                   eobrun0: nat,
                   ghost known: bool, ghost g: Target, ghost n: nat, ghost tail: seq<Token>, ghost script: Script)
    returns (ok: bool, out: Block, eobrun: nat, ghost at: nat)
    requires src.Valid() && 0 < ss <= se < |order| && Fits(g, order, al, ss, se) && tbl < |src.tables|
             && g.bd.tbl == tbl
    requires !runs ==> eobrun0 == 0
    requires known ==> g.prior == b && (runs || n == 1) && FacesFirst(src, script, g, eobrun0, n, tail)
    modifies src.r
    ensures src.r.Kept() && (if ok then src.Valid() else src.r.unreadMarker == 0)
    ensures known && src.Complete() ==> ok
    ensures known && ok ==> FirstReceived(src, script, g, eobrun0, n, tail, out, eobrun)
    ensures known && !ok ==> FilledTo(g, out, at)
  {
    ok, out, eobrun, at := true, b, 0, ss;
    if known {
      FirstStarts(src, script, g, eobrun0, n, tail);
    }
    if eobrun0 > 0 {
      eobrun := eobrun0 - 1;
    } else {
      ok, out, eobrun, at := FillBand(src, tbl, b, order, al, ss, se, runs, known, g, n, tail, script);
    }
  }

  method FillBand(src: HuffSource, tbl: nat, b: Block, order: Order, al: nat, ss: nat, se: nat, runs: bool,
                  ghost known: bool, ghost g: Target, ghost n: nat, ghost tail: seq<Token>, ghost script: Script)
    returns (ok: bool, out: Block, eobrun: nat, ghost at: nat)
    requires src.Valid() && 0 < ss <= se < |order| && Fits(g, order, al, ss, se) && tbl < |src.tables|
             && g.bd.tbl == tbl
    requires known ==> (runs || n == 1) && Filling(src, script, g, b, ss, n, tail)
    modifies src.r
    ensures src.r.Kept() && (if ok then src.Valid() else src.r.unreadMarker == 0)
    ensures known && src.Complete() ==> ok
    ensures known && ok ==> Filled(src, script, g, out, tail) && eobrun == if HasEob(g.bd, g.zz) then n - 1 else 0
    ensures known && !ok ==> FilledTo(g, out, at)
  {
    ok, out, eobrun, at := true, b, 0, ss;
    var k, finished := ss, false;
    while k <= se && !finished && ok
      invariant ss <= k
      invariant src.r.Kept() && (if ok then src.Valid() else src.r.unreadMarker == 0)
      invariant known && src.Complete() ==> ok
      invariant known && ok ==> Turned(src, script, g, out, k, n, tail, finished, eobrun)
      invariant known && !ok ==> FilledTo(g, out, at)
      decreases se + 1 - k, !finished, ok
    {
      var k0 := k;
      at := k0;
      if known {
        FillingIs(src, script, g, out, k0, n, tail);
      }
      ok, out, k, finished, eobrun := FillTurn(src, tbl, out, order, al, k0, se, runs, g, n, tail, script);
      if finished {
        k := k0;
      }
    }
    if known && ok && !finished {
      FillingEnds(src, script, g, out, k, n, tail);
    }
  }

  lemma FillingIs(src: HuffSource, script: Script, g: Target, b: Block, k: nat, n: nat, tail: seq<Token>)
    requires Filling(src, script, g, b, k, n, tail)
    ensures FilledTo(g, b, k)
  {
    assert Unfolded(FirstFill, 0);
  }

  /** Coefficients that have been stored already are stored again by the next attempt. */
  lemma FilledCanRetry(g: Target, b: Block, k: nat)
    requires FilledTo(g, b, k)
    ensures Deposit(b, g.order, g.zz, g.al, g.bd.ss, g.bd.se) == Deposit(g.prior, g.order, g.zz, g.al, g.bd.ss, g.bd.se)
  {
    DepositAgain(g.prior, g.order, g.zz, g.al, g.bd.ss, k - 1, g.bd.se);
  }

  // ---- decode_mcu_AC_first and decode_mcu_AC_refine, with suspension

  /** The decoder faces the encoder's tokens for a block of either kind. */
  ghost predicate FacesBand(src: HuffSource, script: Script, g: Target, before: nat, n: nat, tail: seq<Token>)
    reads src.r
  {
    if g.bd.refine then FacesBlock(src, script, g, before, n, tail) else FacesFirst(src, script, g, before, n, tail)
  }

  /** What the encoder's block and the receiver's have in common, wherever the decoder is. */
  ghost predicate BandFact(g: Target, before: nat, n: nat) {
    && |g.zz| == |g.order| && FitBand(g.bd, g.zz) && 0 < n <= MAX_EOBRUN && (before > 0 ==> Silent(g.bd, g.zz))
    && (g.bd.refine ==> BandPending(g.bd, g.order, g.al, g.zz, g.prior) && FitsCoef(g.zz, g.al))
  }

  lemma BandIsFaced(src: HuffSource, script: Script, g: Target, before: nat, n: nat, tail: seq<Token>)
    requires BandFact(g, before, n) && src.Faces(script, Parcel(g.bd, g.zz, before, n) + tail)
    ensures FacesBand(src, script, g, before, n, tail)
  {
  }

  /** The whole band has been received, the run is counted, and the next block is ahead. */
  ghost predicate BandReceived(src: HuffSource, script: Script, g: Target, before: nat, n: nat, tail: seq<Token>,
                               out: Block, eobrun: nat)
    reads src.r
  {
    && |g.zz| == |g.order| && GoodBand(g.bd, g.zz) && 0 < n
    && out == Deposit(g.prior, g.order, g.zz, g.al, g.bd.ss, g.bd.se)
    && eobrun == After(g.bd, g.zz, before, n) && src.Faces(script, tail)
  }

  /**
   * decode_mcu_AC_first without restarts: with enough input the block receives its band; otherwise the reader
   * goes back to where it was, and coefficients that are already stored stay.
   */
  method DecodeFirst(src: HuffSource, tbl: nat, b: Block, order: Order, al: nat, ss: nat, se: nat, eobrun0: nat,
                     ghost known: bool, ghost g: Target, ghost n: nat, ghost tail: seq<Token>, ghost script: Script)
    returns (ok: bool, out: Block, eobrun: nat)
    requires src.Valid() && 0 < ss <= se < |order| && Fits(g, order, al, ss, se) && tbl < |src.tables|
             && g.bd.tbl == tbl
    requires known ==> g.prior == b && FacesFirst(src, script, g, eobrun0, n, tail)
    modifies src.r
    ensures src.Valid() && src.r.Kept() && (!ok ==> src.r.Restored() && eobrun == eobrun0)
    ensures known && src.Complete() ==> ok
    ensures known && ok ==> BandReceived(src, script, g, eobrun0, n, tail, out, eobrun)
    ensures known && !ok ==> Retryable(g, out)
  {
    var p, buf, bits := src.r.pos, src.r.getBuffer, src.r.bitsLeft;
    ghost var source, data, left := src.r.source, src.r.data, src.r.left;
    assert Unfolded(SourceState, 0);
    if src.r.unreadMarker == 0 {
      src.r.CanComeBack();
    }
    ghost var at;
    ok, out, eobrun, at := FillBlock(src, tbl, b, order, al, ss, se, true, eobrun0, known, g, n, tail, script);
    if !ok {
      if known {
        FilledCanRetry(g, out, at);
      }
      src.r.Restore(p, buf, bits, source, data, left);
      eobrun := eobrun0;
    }
  }

  /** One attempt at the next block of an AC scan. */
  method DecodeBand(src: HuffSource, refine: bool, tbl: nat, b: Block, order: Order, al: nat, ss: nat, se: nat,
                    eobrun0: nat,
                    ghost known: bool, ghost g: Target, ghost n: nat, ghost tail: seq<Token>, ghost script: Script)
    returns (ok: bool, out: Block, eobrun: nat)
    requires src.Valid() && 0 < ss <= se < |order| && Fits(g, order, al, ss, se) && tbl < |src.tables|
             && g.bd.tbl == tbl
    requires g.bd.refine == refine
    requires known ==> g.prior == b && FacesBand(src, script, g, eobrun0, n, tail)
    modifies src.r
    ensures src.Valid() && src.r.Kept() && (!ok ==> src.r.Restored() && eobrun == eobrun0)
    ensures known && src.Complete() ==> ok
    ensures known && ok ==> BandReceived(src, script, g, eobrun0, n, tail, out, eobrun)
    ensures known && !ok ==> Retryable(g, out)
  {
    if refine {
      ok, out, eobrun := DecodeRefine(src, tbl, b, order, al, ss, se, eobrun0, known, g, n, tail, script);
    } else {
      ok, out, eobrun := DecodeFirst(src, tbl, b, order, al, ss, se, eobrun0, known, g, n, tail, script);
    }
  }
}
