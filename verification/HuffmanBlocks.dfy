/** The tokens of one block: sections F.1.2 and G.1.2 of T.81. */
module HuffmanBlocks {
  import opened Numbers
  import opened BitStrings
  import opened Blocks
  import opened HuffmanStream

  const MAX_COEF_BITS := 10
  const ZRL := 0xF0

  /** The number of bits of a magnitude. */
  function Size(m: nat): nat {
    if m == 0 then 0 else 1 + Size(m / 2)
  }

  lemma {:induction false} SizeBound(m: nat)
    ensures m < Shl(1, Size(m))
    ensures m > 0 ==> Shl(1, Size(m) - 1) <= m
    decreases m
  {
    if m > 0 {
      SizeBound(m / 2);
      ShlShl(1, Size(m / 2), 1);
      if m > 1 {
        ShlShl(1, Size(m / 2) - 1, 1);
      }
    }
  }

  /** The bits that tell a value from the others of its size: negative ones are complemented. */
  function ExtraValue(v: int): int {
    if v >= 0 then v else v - 1 + Shl(1, Size(-v))
  }

  function Extra(v: int): Bits {
    Low(if ExtraValue(v) >= 0 then ExtraValue(v) else 0, Size(Abs(v)))
  }

  /** Figure F.12: EXTEND. */
  function Extend(x: nat, s: nat): int {
    if s > 0 && x < Shl(1, s - 1) then x - (Shl(1, s) - 1) else x
  }

  lemma ExtendsBack(v: int)
    requires v != 0
    ensures 0 <= ExtraValue(v) < Shl(1, Size(Abs(v)))
    ensures Value(Extra(v)) == ExtraValue(v) && Extend(Value(Extra(v)), Size(Abs(v))) == v
  {
    var n := Size(Abs(v));
    SizeBound(Abs(v));
    ShlShl(1, n - 1, 1);
    ValueOfLow(ExtraValue(v), n);
  }

  /** Among the values of one size the additional bits are in the order of the values. */
  lemma ExtraKeepsOrder(v: int, w: int)
    requires v != 0 && w != 0 && v < w && Size(Abs(v)) == Size(Abs(w))
    ensures Value(Extra(v)) < Value(Extra(w))
  {
    ExtendsBack(v);
    ExtendsBack(w);
    SizeBound(Abs(v));
    SizeBound(Abs(w));
    ShlShl(1, Size(Abs(v)) - 1, 1);
  }

  /** The first of them is 1 for positive values. */
  lemma ExtraStartsWithSign(v: int)
    requires v != 0
    ensures Extra(v) != [] && (Extra(v)[0] == 1 <==> v > 0)
  {
    var n := Size(Abs(v));
    ExtendsBack(v);
    SizeBound(Abs(v));
    ShlShl(1, n - 1, 1);
    TopOfValue(Extra(v));
  }

  lemma {:induction false} TopOfValue(s: Bits)
    requires s != []
    ensures s[0] == 1 <==> Value(s) >= Shl(1, |s| - 1)
    decreases |s|
  {
    if |s| > 1 {
      ShlShl(1, |s| - 2, 1);
      TopOfValue(s[..|s| - 1]);
    }
  }

  /** The DC difference: a size and that many bits. */
  function DcTokens(tbl: nat, diff: int): seq<Token>
    requires Size(Abs(diff)) < 256
  {
    [Sym(tbl, Size(Abs(diff)))] + if diff == 0 then [] else [Raw(Extra(diff))]
  }

  // ---- AC coefficients sent for the first time

  /** The symbol for r zeros and a nonzero coefficient of this size. */
  function RunSize(r: nat, v: int): (s: Byte)
    requires r <= 15 && Size(Abs(v)) <= 15
    ensures s / 16 == r && s % 16 == Size(Abs(v))
  {
    r * 16 + Size(Abs(v))
  }

  ghost predicate SmallBand(zz: seq<int>, ss: nat, se: nat) {
    forall k :: ss <= k <= se && k < |zz| ==> Size(Abs(zz[k])) <= MAX_COEF_BITS
  }

  /** Coefficients k..last, the last of which is nonzero, when r zeros precede them. */
  function AcTokens(tbl: nat, zz: seq<int>, last: nat, k: nat, r: nat): seq<Token>
    requires last < |zz| && SmallBand(zz, k, last)
    decreases last + 1 - k, r
  {
    if k > last then []
    else if zz[k] == 0 then AcTokens(tbl, zz, last, k + 1, r + 1)
    else if r > 15 then [Sym(tbl, ZRL)] + AcTokens(tbl, zz, last, k, r - 16)
    else [Sym(tbl, RunSize(r, zz[k])), Raw(Extra(zz[k]))] + AcTokens(tbl, zz, last, k + 1, 0)
  }

  /** The last nonzero coefficient of a band; ss - 1 if there is none. */
  function LastNonzero(zz: seq<int>, ss: nat, k: nat): (j: nat)
    requires 0 < ss && k < |zz|
    ensures j == ss - 1 || (ss <= j <= k && zz[j] != 0)
  {
    if k < ss then ss - 1 else if zz[k] != 0 then k else LastNonzero(zz, ss, k - 1)
  }

  lemma {:induction false} AcSkipsSixteen(tbl: nat, zz: seq<int>, last: nat, k: nat, r: nat)
    requires k <= last < |zz| && SmallBand(zz, k, last) && zz[last] != 0
    ensures AcTokens(tbl, zz, last, k, r + 16) == [Sym(tbl, ZRL)] + AcTokens(tbl, zz, last, k, r)
    decreases last - k
  {
    if zz[k] == 0 {
      AcSkipsSixteen(tbl, zz, last, k + 1, r + 1);
    }
  }

  /** Where the run of zeros from k on ends: at a nonzero coefficient, or at the sixteenth zero. */
  function RunEnd(zz: seq<int>, k: nat, r: nat): (t: nat)
    requires k < |zz| && r <= 15
    ensures k <= t < |zz| || t == |zz|
    ensures t < |zz| ==> zz[t] != 0 || t == k + 15 - r
    ensures t <= k + 15 - r
    decreases |zz| - k
  {
    if zz[k] != 0 || r == 15 then k else if k + 1 == |zz| then |zz| else RunEnd(zz, k + 1, r + 1)
  }

  /** A zero that does not complete sixteen. */
  lemma AcGoesOn(tbl: nat, zz: seq<int>, last: nat, k: nat, r: nat, k': nat, r': nat)
    requires k < last < |zz| && SmallBand(zz, k, last) && zz[k] == 0 && r < 15 && k' == k + 1 && r' == r + 1
    ensures AcTokens(tbl, zz, last, k, r) == AcTokens(tbl, zz, last, k', r') && RunEnd(zz, k, r) == RunEnd(zz, k', r')
  {
  }

  /** The first symbol, which accounts for the coefficients k..t and r zeros before them. */
  function AcOpening(tbl: nat, zz: seq<int>, k: nat, t: nat, r: nat): seq<Token>
    requires k <= t < |zz|
  {
    if zz[t] == 0 then [Sym(tbl, ZRL)]
    else if r + t - k > 15 || Size(Abs(zz[t])) > 15 then []
    else [Sym(tbl, RunSize(r + t - k, zz[t])), Raw(Extra(zz[t]))]
  }

  lemma OpeningMoves(tbl: nat, zz: seq<int>, k: nat, t: nat, r: nat, k': nat, r': nat)
    requires k' == k + 1 && r' == r + 1 && k' <= t < |zz|
    ensures AcOpening(tbl, zz, k, t, r) == AcOpening(tbl, zz, k', t, r')
  {
  }

  lemma AcOpeningHere(tbl: nat, zz: seq<int>, last: nat, k: nat, r: nat)
    requires k <= last < |zz| && SmallBand(zz, k, last) && zz[last] != 0 && r <= 15 && (zz[k] != 0 || r == 15)
    ensures RunEnd(zz, k, r) == k
    ensures AcTokens(tbl, zz, last, k, r) == AcOpening(tbl, zz, k, k, r) + AcTokens(tbl, zz, last, k + 1, 0)
  {
    if zz[k] == 0 {
      AcSkipsSixteen(tbl, zz, last, k + 1, 0);
    }
  }

  lemma {:induction false} AcStartsWithOpening(tbl: nat, zz: seq<int>, last: nat, k: nat, r: nat, t: nat)
    requires k <= last < |zz| && SmallBand(zz, k, last) && zz[last] != 0 && r <= 15 && t == RunEnd(zz, k, r)
    ensures t <= last && forall j :: k <= j < t ==> zz[j] == 0
    ensures AcTokens(tbl, zz, last, k, r) == AcOpening(tbl, zz, k, t, r) + AcTokens(tbl, zz, last, t + 1, 0)
    decreases last - k
  {
    if zz[k] == 0 && r < 15 {
      AcGoesOn(tbl, zz, last, k, r, k + 1, r + 1);
      AcStartsWithOpening(tbl, zz, last, k + 1, r + 1, t);
      OpeningMoves(tbl, zz, k, t, r, k + 1, r + 1);
    } else {
      AcOpeningHere(tbl, zz, last, k, r);
    }
  }

  /** The first symbol of a band that is not finished, and what is behind it. */
  lemma AcFirstSymbol(tbl: nat, zz: seq<int>, last: nat, k: nat, r: nat)
    requires k <= last < |zz| && SmallBand(zz, k, last) && zz[last] != 0 && r <= 15
    ensures RunEnd(zz, k, r) <= last
    ensures var t := RunEnd(zz, k, r);
            AcTokens(tbl, zz, last, k, r)
            == if zz[t] == 0 then [Sym(tbl, ZRL)] + AcTokens(tbl, zz, last, t + 1, 0)
               else [Sym(tbl, RunSize(r + t - k, zz[t])), Raw(Extra(zz[t]))] + AcTokens(tbl, zz, last, t + 1, 0)
    ensures forall j :: k <= j < RunEnd(zz, k, r) ==> zz[j] == 0
  {
    AcStartsWithOpening(tbl, zz, last, k, r, RunEnd(zz, k, r));
  }

  // ---- AC refinement; zz holds the values at the new precision

  /** The last coefficient that becomes nonzero in this scan; 0 if there is none. */
  function LastNew(zz: seq<int>, ss: nat, k: nat): (j: nat)
    requires 0 < ss && k < |zz|
    ensures j == 0 || (ss <= j <= k && Abs(zz[j]) == 1)
  {
    if k < ss then 0 else if Abs(zz[k]) == 1 then k else LastNew(zz, ss, k - 1)
  }

  /** The next bits of the coefficients j..k-1 that were nonzero before. */
  function Corrections(zz: seq<int>, j: nat, k: nat): Bits
    requires j <= k <= |zz|
  {
    if j == k then []
    else Corrections(zz, j, k - 1) + if Abs(zz[k - 1]) > 1 then [Abs(zz[k - 1]) % 2] else []
  }

  function BitTokens(bits: Bits): seq<Token> {
    if bits == [] then [] else [Raw([bits[0]])] + BitTokens(bits[1..])
  }

  /** The sign of a coefficient that becomes nonzero. */
  function SignToken(v: int): Token {
    Raw([if v < 0 then 0 else 1])
  }

  /** It is the additional bit of a coefficient of size one. */
  lemma SignIsExtra(v: int)
    requires Abs(v) == 1
    ensures SignToken(v) == Raw(Extra(v))
  {
    ExtraStartsWithSign(v);
  }

  /**
   * Figure G.7 up to the last coefficient that becomes nonzero: r zeros and the correction bits br are
   * still to be accounted for.
   */
  function RefineTokens(tbl: nat, zz: seq<int>, eob: nat, k: nat, r: nat, br: Bits): seq<Token>
    requires eob < |zz|
    decreases eob + 1 - k, r
  {
    if k > eob then []
    else if zz[k] == 0 then RefineTokens(tbl, zz, eob, k + 1, r + 1, br)
    else if r > 15 then [Sym(tbl, ZRL)] + BitTokens(br) + RefineTokens(tbl, zz, eob, k, r - 16, [])
    else if Abs(zz[k]) > 1 then RefineTokens(tbl, zz, eob, k + 1, r, br + [Abs(zz[k]) % 2])
    else [Sym(tbl, r * 16 + 1), SignToken(zz[k])] + BitTokens(br) + RefineTokens(tbl, zz, eob, k + 1, 0, [])
  }

  /** How many of the coefficients k..t-1 are zero. */
  function ZeroCount(zz: seq<int>, k: nat, t: nat): nat
    requires k <= t <= |zz|
    decreases t - k
  {
    if k == t then 0 else (if zz[k] == 0 then 1 else 0) + ZeroCount(zz, k + 1, t)
  }

  lemma {:induction false} CorrectionsFront(zz: seq<int>, j: nat, k: nat)
    requires j < k <= |zz|
    ensures Corrections(zz, j, k) == (if Abs(zz[j]) > 1 then [Abs(zz[j]) % 2] else []) + Corrections(zz, j + 1, k)
    decreases k - j
  {
    var one := if Abs(zz[j]) > 1 then [Abs(zz[j]) % 2] else [];
    if j + 1 == k {
      assert Corrections(zz, j, j) == [] && [] + one == one == one + [];
    } else {
      CorrectionsFront(zz, j, k - 1);
      Assoc(one, Corrections(zz, j + 1, k - 1), if Abs(zz[k - 1]) > 1 then [Abs(zz[k - 1]) % 2] else []);
    }
  }

  lemma {:induction false} BitTokensConcat(a: Bits, b: Bits)
    ensures BitTokens(a + b) == BitTokens(a) + BitTokens(b)
    decreases |a|
  {
    if a == [] {
      assert a + b == b;
      assert [] + BitTokens(b) == BitTokens(b);
    } else {
      assert (a + b)[1..] == a[1..] + b;
      BitTokensConcat(a[1..], b);
      Assoc([Raw([a[0]])], BitTokens(a[1..]), BitTokens(b));
    }
  }

  /** Where the first symbol of a refinement leads: to a new coefficient, or to the sixteenth zero. */
  function RefineEnd(zz: seq<int>, k: nat, r: nat): (t: nat)
    requires k < |zz| && r <= 15
    ensures k <= t <= |zz|
    ensures t < |zz| ==> Abs(zz[t]) <= 1
    decreases |zz| - k
  {
    if Abs(zz[k]) == 1 || (zz[k] == 0 && r == 15) then k
    else if k + 1 == |zz| then |zz|
    else RefineEnd(zz, k + 1, if zz[k] == 0 then r + 1 else r)
  }

  lemma {:induction false} RefineSkipsSixteen(tbl: nat, zz: seq<int>, eob: nat, k: nat, r: nat, br: Bits)
    requires k <= eob < |zz| && Abs(zz[eob]) == 1
    ensures RefineTokens(tbl, zz, eob, k, r + 16, br)
            == [Sym(tbl, ZRL)] + BitTokens(br) + RefineTokens(tbl, zz, eob, k, r, [])
    decreases eob - k
  {
    if zz[k] == 0 {
      RefineSkipsSixteen(tbl, zz, eob, k + 1, r + 1, br);
    }
  }

  /** The symbol a decoder meets at position k, and for a new coefficient its sign. */
  function RefineHead(tbl: nat, zz: seq<int>, k: nat, t: nat, r: nat): seq<Token>
    requires k <= t < |zz|
  {
    if zz[t] == 0 then [Sym(tbl, ZRL)]
    else if r + ZeroCount(zz, k, t) > 15 then []
    else [Sym(tbl, (r + ZeroCount(zz, k, t)) * 16 + 1), SignToken(zz[t])]
  }

  /** A coefficient in front of where the first symbol leads. */
  lemma RefineGoesOn(tbl: nat, zz: seq<int>, eob: nat, k: nat, r: nat, br: Bits, t: nat, r': nat, bit: Bits)
    requires k < eob < |zz| && r <= 15 && t == RefineEnd(zz, k, r) != k
    requires r' == (if zz[k] == 0 then r + 1 else r) && bit == if Abs(zz[k]) > 1 then [Abs(zz[k]) % 2] else []
    ensures k < t && r' <= 15 && t == RefineEnd(zz, k + 1, r')
    ensures RefineTokens(tbl, zz, eob, k, r, br) == RefineTokens(tbl, zz, eob, k + 1, r', br + bit)
    ensures t < |zz| ==> r + ZeroCount(zz, k, t) == r' + ZeroCount(zz, k + 1, t)
    ensures t < |zz| ==> RefineHead(tbl, zz, k, t, r) == RefineHead(tbl, zz, k + 1, t, r')
  {
    assert br + [] == br;
  }

  /**
   * The first symbol of a band with new coefficients: the correction bits behind it are those of the
   * coefficients up to where it leads, however late the encoder noticed that a symbol was due.
   */
  lemma {:induction false} RefineFirstSymbol(tbl: nat, zz: seq<int>, eob: nat, k: nat, r: nat, br: Bits)
    requires k <= eob < |zz| && Abs(zz[eob]) == 1 && r <= 15
    ensures var t := RefineEnd(zz, k, r);
            && t <= eob && r + ZeroCount(zz, k, t) <= 15
            && (zz[t] == 0 ==> r + ZeroCount(zz, k, t) == 15)
            && RefineTokens(tbl, zz, eob, k, r, br)
               == RefineHead(tbl, zz, k, t, r) + BitTokens(br + Corrections(zz, k, t))
                  + RefineTokens(tbl, zz, eob, t + 1, 0, [])
    decreases eob - k
  {
    var t := RefineEnd(zz, k, r);
    if t == k {
      assert br + Corrections(zz, k, k) == br;
      if zz[k] == 0 {
        RefineSkipsSixteen(tbl, zz, eob, k + 1, 0, br);
      }
    } else {
      var bit := if Abs(zz[k]) > 1 then [Abs(zz[k]) % 2] else [];
      var r' := if zz[k] == 0 then r + 1 else r;
      RefineGoesOn(tbl, zz, eob, k, r, br, t, r', bit);
      RefineFirstSymbol(tbl, zz, eob, k + 1, r', br + bit);
      CorrectionsFront(zz, k, t);
      Assoc(br, bit, Corrections(zz, k + 1, t));
    }
  }

  lemma {:induction false} NewIsNotAfterLast(zz: seq<int>, ss: nat, k: nat, j: nat)
    requires 0 < ss <= j <= k < |zz| && Abs(zz[j]) == 1
    ensures j <= LastNew(zz, ss, k)
  {
    if j < k && Abs(zz[k]) != 1 {
      NewIsNotAfterLast(zz, ss, k - 1, j);
    }
  }

  lemma {:induction false} NonzeroIsNotAfterLast(zz: seq<int>, ss: nat, k: nat, j: nat)
    requires 0 < ss <= j <= k < |zz| && zz[j] != 0
    ensures j <= LastNonzero(zz, ss, k)
  {
    if j < k && zz[k] == 0 {
      NonzeroIsNotAfterLast(zz, ss, k - 1, j);
    }
  }
}
