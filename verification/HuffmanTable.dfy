/** Canonical Huffman tables: how codes are derived from lengths, and when they can be told apart. */
module HuffmanTable {
  import opened Numbers

  /** JHUFF_TBL: bits[l] codes of length l, and the symbols in order of increasing length. */
  datatype HuffTable = HuffTable(bits: seq<Byte>, huffval: seq<Byte>)

  predicate Shape(bits: seq<Byte>) {
    |bits| == 17
  }

  predicate GoodShape(t: HuffTable) {
    Shape(t.bits) && |t.huffval| == 256
  }

  /** Figure C.2: the first code of length l. */
  function First(bits: seq<Byte>, l: nat): nat
    requires Shape(bits) && l <= 17
  {
    if l <= 1 then 0 else 2 * (First(bits, l - 1) + bits[l - 1])
  }

  /** How many codes are shorter than l. */
  function Offset(bits: seq<Byte>, l: nat): nat
    requires Shape(bits) && l <= 17
  {
    if l <= 1 then 0 else Offset(bits, l - 1) + bits[l - 1]
  }

  /** One more than the last code of length l. */
  function End(bits: seq<Byte>, l: nat): nat
    requires Shape(bits) && 1 <= l <= 16
  {
    First(bits, l) + bits[l]
  }

  /** The counts describe a code tree in which no code of all ones is used. */
  predicate LegalTree(bits: seq<Byte>)
    requires Shape(bits)
  {
    forall l :: 1 <= l <= 16 ==> End(bits, l) < Shl(1, l)
  }

  predicate Legal(bits: seq<Byte>)
    requires Shape(bits)
  {
    Offset(bits, 17) <= 256 && LegalTree(bits)
  }

  /** The length of the p-th code, looked for from l on. */
  function LengthFrom(bits: seq<Byte>, p: nat, l: nat): (r: nat)
    requires Shape(bits) && 1 <= l <= 16 && Offset(bits, l) <= p < Offset(bits, 17)
    ensures l <= r <= 16 && Offset(bits, r) <= p < Offset(bits, r + 1)
    decreases 17 - l
  {
    if p < Offset(bits, l + 1) then l else LengthFrom(bits, p, l + 1)
  }

  /** Figure C.1: HUFFSIZE. */
  function SizeOf(bits: seq<Byte>, p: nat): (r: nat)
    requires Shape(bits) && p < Offset(bits, 17)
    ensures 1 <= r <= 16 && Offset(bits, r) <= p < Offset(bits, r + 1)
  {
    LengthFrom(bits, p, 1)
  }

  /** Figure C.2: HUFFCODE. */
  function CodeOf(bits: seq<Byte>, p: nat): (c: nat)
    requires Shape(bits) && p < Offset(bits, 17)
    ensures First(bits, SizeOf(bits, p)) <= c < End(bits, SizeOf(bits, p))
  {
    First(bits, SizeOf(bits, p)) + (p - Offset(bits, SizeOf(bits, p)))
  }

  lemma {:induction false} OffsetOrder(bits: seq<Byte>, j: nat, l: nat)
    requires Shape(bits) && j <= l <= 17
    ensures Offset(bits, j) <= Offset(bits, l)
  {
    if j < l {
      OffsetOrder(bits, j, l - 1);
    }
  }

  lemma LengthIsUnique(bits: seq<Byte>, p: nat, l: nat, r: nat)
    requires Shape(bits) && 1 <= l <= 16 && 1 <= r <= 16
    requires Offset(bits, l) <= p < Offset(bits, l + 1) && Offset(bits, r) <= p < Offset(bits, r + 1)
    ensures l == r
  {
    if r < l {
      OffsetOrder(bits, r + 1, l);
    } else if l < r {
      OffsetOrder(bits, l + 1, r);
    }
  }

  /** Where the p-th code lies says how long it is. */
  lemma SizeIs(bits: seq<Byte>, p: nat, l: nat)
    requires Shape(bits) && 1 <= l <= 16 && Offset(bits, l) <= p < Offset(bits, l + 1)
    ensures p < Offset(bits, 17) && SizeOf(bits, p) == l
  {
    OffsetOrder(bits, l + 1, 17);
    LengthIsUnique(bits, p, l, SizeOf(bits, p));
  }

  // ---- Telling codes apart

  /**
   * The length of the code at the front of an n-bit string of value v, looked for from length l on as
   * Figure F.16 does; n + 1 if there is none.
   */
  function Match(bits: seq<Byte>, v: nat, n: nat, l: nat): (r: nat)
    requires Shape(bits) && 1 <= l <= n + 1 && n <= 16
    ensures l <= r <= n + 1
    decreases n + 1 - l
  {
    if l > n then n + 1 else if Shr(v, n - l) < End(bits, l) then l else Match(bits, v, n, l + 1)
  }

  /** A value that is not below the first code of length l does not start with any shorter code. */
  lemma {:induction false} NoShorterCode(bits: seq<Byte>, v: nat, l: nat, k: nat)
    requires Shape(bits) && 1 <= k < l <= 16 && First(bits, l) <= v
    ensures End(bits, k) <= Shr(v, l - k)
    decreases l
  {
    if k < l - 1 {
      NoShorterCode(bits, v / 2, l - 1, k);
    }
  }

  /** Matching skips lengths that do not match. */
  lemma {:induction false} MatchSkips(bits: seq<Byte>, v: nat, n: nat, j: nat, l: nat)
    requires Shape(bits) && 1 <= j <= l <= n + 1 && n <= 16
    requires forall k :: j <= k < l ==> End(bits, k) <= Shr(v, n - k)
    ensures Match(bits, v, n, j) == Match(bits, v, n, l)
    decreases l - j
  {
    if j < l {
      MatchSkips(bits, v, n, j + 1, l);
    }
  }

  lemma {:induction false} ShrShr(v: nat, j: nat, k: nat)
    ensures Shr(Shr(v, j), k) == Shr(v, j + k)
    decreases j
  {
    if j > 0 {
      ShrShr(v / 2, j - 1, k);
    }
  }

  lemma ShrOfShr(v: nat, n: nat, n': nat, l: nat)
    requires l <= n <= n'
    ensures Shr(Shr(v, n' - n), n - l) == Shr(v, n' - l)
  {
    ShrShr(v, n' - n, n - l);
  }

  /** Whatever n - l bits follow it, the code of length l at the front is the one that is found. */
  lemma MatchFinds(bits: seq<Byte>, v: nat, n: nat, l: nat)
    requires Shape(bits) && 1 <= l <= n <= 16
    requires First(bits, l) <= Shr(v, n - l) < End(bits, l)
    ensures Match(bits, v, n, 1) == l
  {
    forall k | 1 <= k < l ensures End(bits, k) <= Shr(v, n - k) {
      NoShorterCode(bits, Shr(v, n - l), l, k);
      ShrOfShr(v, l, n, k);
    }
    MatchSkips(bits, v, n, 1, l);
  }

  /** What is found does not depend on the bits behind it. */
  lemma {:induction false} MatchIsLocal(bits: seq<Byte>, v: nat, n: nat, n': nat, l: nat)
    requires Shape(bits) && 1 <= l <= n + 1 && n <= n' <= 16
    ensures Match(bits, Shr(v, n' - n), n, l) <= n ==>
              Match(bits, v, n', l) == Match(bits, Shr(v, n' - n), n, l)
    ensures Match(bits, Shr(v, n' - n), n, l) > n ==> Match(bits, v, n', l) > n
    decreases n + 1 - l
  {
    if l <= n {
      ShrOfShr(v, n, n', l);
      MatchIsLocal(bits, v, n, n', l + 1);
    }
  }

  /** The index of a code of length l and value c. */
  function IndexOf(bits: seq<Byte>, l: nat, c: nat): nat
    requires Shape(bits) && 1 <= l <= 16 && First(bits, l) <= c < End(bits, l)
  {
    c - First(bits, l) + Offset(bits, l)
  }

  /** A match lies between the first and the last code of its length. */
  lemma {:induction false} MatchIsCode(bits: seq<Byte>, v: nat, n: nat, l: nat)
    requires Shape(bits) && 1 <= l <= n + 1 && n <= 16
    requires l <= n ==> First(bits, l) <= Shr(v, n - l)
    ensures Match(bits, v, n, l) <= n ==>
              First(bits, Match(bits, v, n, l)) <= Shr(v, n - Match(bits, v, n, l)) < End(bits, Match(bits, v, n, l))
    decreases n + 1 - l
  {
    if l <= n && Shr(v, n - l) >= End(bits, l) {
      ShrLast(v, n - l);
      MatchIsCode(bits, v, n, l + 1);
    }
  }

  lemma {:induction false} ShrLast(v: nat, k: nat)
    ensures k > 0 ==> 2 * Shr(v, k) <= Shr(v, k - 1)
    decreases k
  {
    if k > 1 {
      ShrLast(v / 2, k - 1);
    }
  }

  /** The index of the code at the front of an n-bit string; 256 if there is none. */
  function FrontIndex(bits: seq<Byte>, v: nat, n: nat): (p: nat)
    requires Shape(bits) && n <= 16
    ensures Match(bits, v, n, 1) <= n ==> p < Offset(bits, 17) && SizeOf(bits, p) == Match(bits, v, n, 1)
  {
    var l := Match(bits, v, n, 1);
    if l > n then 256
    else
      MatchIsCode(bits, v, n, 1);
      var p := IndexOf(bits, l, Shr(v, n - l));
      SizeIs(bits, p, l);
      p
  }

  /** Distinct codes: no code is the front of another, and the index comes back. */
  lemma CodeIsFound(bits: seq<Byte>, p: nat, v: nat, n: nat)
    requires Shape(bits) && p < Offset(bits, 17) && SizeOf(bits, p) <= n <= 16
    requires Shr(v, n - SizeOf(bits, p)) == CodeOf(bits, p)
    ensures Match(bits, v, n, 1) == SizeOf(bits, p) && FrontIndex(bits, v, n) == p
    ensures IndexOf(bits, SizeOf(bits, p), Shr(v, n - SizeOf(bits, p))) == p
  {
    MatchFinds(bits, v, n, SizeOf(bits, p));
  }

  lemma OneLength(bits: seq<Byte>, c: nat, n: nat, l: nat)
    requires Shape(bits) && 1 <= l <= n <= 16
    requires First(bits, l) <= Shr(c, n - l) < End(bits, l) && First(bits, n) <= c < End(bits, n)
    ensures l == n
  {
    MatchFinds(bits, c, n, l);
    MatchFinds(bits, c, n, n);
  }

  lemma SameCode(bits: seq<Byte>, p: nat, q: nat)
    requires Shape(bits) && p < Offset(bits, 17) && q < Offset(bits, 17)
    requires SizeOf(bits, p) == SizeOf(bits, q) && CodeOf(bits, p) == CodeOf(bits, q)
    ensures p == q
  {
  }

  lemma FrontIsWhole(bits: seq<Byte>, p: nat, q: nat, l: nat, n: nat, c: nat)
    requires Shape(bits) && p < Offset(bits, 17) && q < Offset(bits, 17)
    requires l == SizeOf(bits, p) <= n == SizeOf(bits, q) && c == CodeOf(bits, q) && Shr(c, n - l) == CodeOf(bits, p)
    ensures p == q
  {
    OneLength(bits, c, n, l);
    SameCode(bits, p, q);
  }

  /** No code is the front of another. */
  lemma PrefixFree(bits: seq<Byte>, p: nat, q: nat)
    requires Shape(bits) && p < Offset(bits, 17) && q < Offset(bits, 17) && p != q
    ensures SizeOf(bits, p) <= SizeOf(bits, q) ==>
              Shr(CodeOf(bits, q), SizeOf(bits, q) - SizeOf(bits, p)) != CodeOf(bits, p)
  {
    if SizeOf(bits, p) <= SizeOf(bits, q)
      && Shr(CodeOf(bits, q), SizeOf(bits, q) - SizeOf(bits, p)) == CodeOf(bits, p) {
      FrontIsWhole(bits, p, q, SizeOf(bits, p), SizeOf(bits, q), CodeOf(bits, q));
      assert false;
    }
  }

  /** A legal table leaves the code of all ones unused at every length. */
  lemma NotAllOnes(bits: seq<Byte>, p: nat)
    requires Shape(bits) && LegalTree(bits) && p < Offset(bits, 17)
    ensures CodeOf(bits, p) + 1 < Shl(1, SizeOf(bits, p))
  {
    assert End(bits, SizeOf(bits, p)) < Shl(1, SizeOf(bits, p));
  }

  lemma FrontIsLocal(bits: seq<Byte>, v: nat, n: nat, n': nat)
    requires Shape(bits) && n <= n' <= 16 && Match(bits, Shr(v, n' - n), n, 1) <= n
    ensures Match(bits, v, n', 1) == Match(bits, Shr(v, n' - n), n, 1)
    ensures FrontIndex(bits, v, n') == FrontIndex(bits, Shr(v, n' - n), n)
  {
    var w := Shr(v, n' - n);
    var l := Match(bits, w, n, 1);
    MatchIsLocal(bits, v, n, n', 1);
    FrontIs(bits, w, n, l);
    FrontIs(bits, v, n', l);
    ShrOfShr(v, n, n', l);
  }

  lemma FrontIs(bits: seq<Byte>, v: nat, n: nat, l: nat)
    requires Shape(bits) && l <= n <= 16 && l == Match(bits, v, n, 1)
    ensures First(bits, l) <= Shr(v, n - l) < End(bits, l) && FrontIndex(bits, v, n) == IndexOf(bits, l, Shr(v, n - l))
  {
    MatchIsCode(bits, v, n, 1);
  }
}
