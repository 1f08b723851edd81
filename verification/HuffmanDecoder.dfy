/** Decoding of Huffman codes: the lookahead table and the bit-by-bit search of Figure F.16. */
module HuffmanDecoder {
  import opened Numbers
  import opened BitStrings
  import opened HuffmanTable
  import opened HuffmanBuilder
  import opened BitReader

  /** The code of the p-th symbol. */
  function CodeBits(t: HuffTable, p: nat): (s: Bits)
    requires Shape(t.bits) && p < Offset(t.bits, 17)
    ensures |s| == SizeOf(t.bits, p)
  {
    Low(CodeOf(t.bits, p), SizeOf(t.bits, p))
  }

  lemma {:induction false} ShrBelow(v: nat, n: nat, k: nat)
    requires v < Shl(1, n + k)
    ensures Shr(v, k) < Shl(1, n)
    decreases k
  {
    if k > 0 {
      ShlShl(1, n + k - 1, 1);
      ShrBelow(v / 2, n, k - 1);
    }
  }

  lemma FrontValue(s: Bits, c: nat, n: nat, l: nat)
    requires s == Low(c, n) && c < Shl(1, n) && l <= n
    ensures Value(s[..l]) == Shr(c, n - l)
  {
    LowShifted(c, l, n - l);
    ShrBelow(c, l, n - l);
    ValueOfLow(Shr(c, n - l), l);
  }

  /** The first l bits of a code as a number. */
  lemma CodePrefix(t: HuffTable, p: nat, l: nat)
    requires Shape(t.bits) && LegalTree(t.bits) && p < Offset(t.bits, 17) && l <= SizeOf(t.bits, p)
    ensures Value(CodeBits(t, p)[..l]) == Shr(CodeOf(t.bits, p), SizeOf(t.bits, p) - l)
  {
    NotAllOnes(t.bits, p);
    FrontValue(CodeBits(t, p), CodeOf(t.bits, p), SizeOf(t.bits, p), l);
  }

  lemma PrefixGoesOn(bits: seq<Byte>, p: nat, l: nat, c: nat, n: nat, v: nat)
    requires Shape(bits) && p < Offset(bits, 17) && c == CodeOf(bits, p) && n == SizeOf(bits, p)
    requires 1 <= l <= n && v == Shr(c, n - l)
    ensures l < n ==> End(bits, l) <= v
    ensures l == n ==> First(bits, l) <= v < End(bits, l) && IndexOf(bits, l, v) == p
  {
    if l < n {
      NoShorterCode(bits, c, n, l);
    }
  }

  /** Short of its full length, a code is beyond the last code of that length. */
  lemma CodeGoesOn(t: HuffTable, p: nat, l: nat)
    requires Shape(t.bits) && LegalTree(t.bits) && p < Offset(t.bits, 17) && 1 <= l <= SizeOf(t.bits, p)
    ensures l < SizeOf(t.bits, p) ==> End(t.bits, l) <= Value(CodeBits(t, p)[..l])
    ensures l == SizeOf(t.bits, p) ==>
              && First(t.bits, l) <= Value(CodeBits(t, p)[..l]) < End(t.bits, l)
              && IndexOf(t.bits, l, Value(CodeBits(t, p)[..l])) == p
  {
    CodePrefix(t, p, l);
    PrefixGoesOn(t.bits, p, l, CodeOf(t.bits, p), SizeOf(t.bits, p), Value(CodeBits(t, p)[..l]));
  }

  /** What follows a code in the lookahead bits does not matter. */
  lemma LookFront(s: Bits, c: nat, n: nat, tail: Bits, look: nat)
    requires s == Low(c, n) && c < Shl(1, n) && n <= 8 <= n + |tail| && look == Value((s + tail)[..8])
    ensures Shr(look, 8 - n) == c
  {
    var u := tail[..8 - n];
    assert (s + tail)[..8] == s + u;
    ValueConcat(s, u);
    ValueBound(u);
    ValueOfLow(c, n);
    ShlAdd(c, 1, 8 - n);
    ShrOfRange(look, c, 8 - n);
  }

  lemma LookIsShort(t: HuffTable, p: nat, tail: Bits)
    requires Shape(t.bits) && LegalTree(t.bits) && p < Offset(t.bits, 17) && SizeOf(t.bits, p) <= 8
    requires |CodeBits(t, p) + tail| >= 8
    ensures var look := Value((CodeBits(t, p) + tail)[..8]);
            Match(t.bits, look, 8, 1) == SizeOf(t.bits, p) && FrontIndex(t.bits, look, 8) == p
  {
    var look := Value((CodeBits(t, p) + tail)[..8]);
    NotAllOnes(t.bits, p);
    LookFront(CodeBits(t, p), CodeOf(t.bits, p), SizeOf(t.bits, p), tail, look);
    CodeIsFound(t.bits, p, look, 8);
  }

  lemma LookIsLong(t: HuffTable, p: nat, tail: Bits)
    requires Shape(t.bits) && LegalTree(t.bits) && p < Offset(t.bits, 17) && SizeOf(t.bits, p) > 8
    ensures Match(t.bits, Value((CodeBits(t, p) + tail)[..8]), 8, 1) == 9
  {
    var n, s := SizeOf(t.bits, p), CodeBits(t, p);
    assert (s + tail)[..8] == s[..8];
    CodePrefix(t, p, 8);
    forall k | 1 <= k < 9 ensures End(t.bits, k) <= Shr(Value(s[..8]), 8 - k) {
      ShrShr(CodeOf(t.bits, p), n - 8, 8 - k);
      NoShorterCode(t.bits, CodeOf(t.bits, p), n, k);
    }
    MatchSkips(t.bits, Value(s[..8]), 8, 1, 9);
  }

  /** With a short code in front, the lookahead table gives its length and symbol; with a long one, nothing. */
  lemma LookFinds(t: HuffTable, p: nat, tail: Bits, look: nat, nbits: nat, sym: Byte)
    requires GoodShape(t) && Legal(t.bits) && p < Offset(t.bits, 17) && look < 256 && |CodeBits(t, p) + tail| >= 8
    requires look == Value((CodeBits(t, p) + tail)[..8]) && LooksRight(t, nbits, sym, look)
    ensures SizeOf(t.bits, p) <= 8 ==> nbits == SizeOf(t.bits, p) && sym == t.huffval[p]
    ensures SizeOf(t.bits, p) > 8 ==> nbits == 0
  {
    assert Unfolded(LookEntry, 0);
    if SizeOf(t.bits, p) <= 8 {
      LookIsShort(t, p, tail);
    } else {
      LookIsLong(t, p, tail);
    }
  }

  lemma LookBound(t: HuffTable, look: nat, nbits: nat, sym: Byte)
    requires GoodShape(t) && Legal(t.bits) && look < 256 && LooksRight(t, nbits, sym, look)
    ensures nbits <= 8 && (nbits == 0 ==> look >= End(t.bits, 8))
  {
    assert Unfolded(LookEntry, 0);
    if nbits == 0 {
      MatchMisses(t.bits, look, 8, 1);
    }
  }

  lemma {:induction false} MatchMisses(bits: seq<Byte>, v: nat, n: nat, l: nat)
    requires Shape(bits) && 1 <= l <= n <= 16 && Match(bits, v, n, l) > n
    ensures v >= End(bits, n)
    decreases n - l
  {
    if l < n {
      MatchMisses(bits, v, n, l + 1);
    }
  }

  /** The decoder's test for a code of length l. */
  lemma WithinLimit(d: DecoderTable, t: HuffTable, code: nat, l: nat)
    requires Decodes(d, t) && 1 <= l <= 17 && code < Shl(1, l) && (l <= 16 ==> First(t.bits, l) <= code)
    ensures l <= 16 ==> (code > d.maxcode[l] <==> code >= End(t.bits, l))
    ensures l <= 16 && code <= d.maxcode[l] ==>
              0 <= code + d.valoffset[l] < 256 && code + d.valoffset[l] == IndexOf(t.bits, l, code)
    ensures l == 17 ==> code <= d.maxcode[l]
    ensures d.huffval == t.huffval
  {
    assert Unfolded(DecoderTables, 0);
    if l <= 16 {
      OffsetOrder(t.bits, l + 1, 17);
    } else {
      ShlShl(1, 16, 1);
      ShlTable(1);
    }
  }

  /** The reader is l bits into the code of the p-th symbol. */
  ghost predicate Inside(r: BitReader, src: Source, t: HuffTable, p: nat, l: nat, code: nat, tail: Bits)
    reads r
  {
    && Shape(t.bits) && p < Offset(t.bits, 17) && 1 <= l <= SizeOf(t.bits, p)
    && code == Value(CodeBits(t, p)[..l]) && r.Faces(src, CodeBits(t, p)[l..] + tail)
  }

  lemma NextOf(s: Bits, l: nat, tail: Bits)
    requires l < |s|
    ensures s[l..] + tail == [s[l]] + (s[l + 1..] + tail)
  {
    assert s[l..] == [s[l]] + s[l + 1..];
    Assoc([s[l]], s[l + 1..], tail);
  }

  lemma NextValue(s: Bits, l: nat)
    requires l < |s|
    ensures Value(s[..l + 1]) == 2 * Value(s[..l]) + s[l] && Value([s[l]]) == s[l]
  {
    TakeSnoc(s, l);
    ValueSnoc(s[..l], s[l]);
    assert [s[l]] == [] + [s[l]];
    ValueSnoc([], s[l]);
  }

  /** The next bit of a code. */
  method NextBit(r: BitReader, code: nat, l: nat, ghost t: HuffTable, ghost p: nat, ghost tail: Bits)
    returns (ok: bool, c: nat)
    requires r.Valid() && code < Shl(1, l)
    modifies r
    ensures r.Kept() && (if ok then r.Valid() else r.unreadMarker == 0)
    ensures c < Shl(1, l + 1) && 2 * code <= c
    ensures var src := old(r.source);
            old(Inside(r, src, t, p, l, code, tail)) && l < SizeOf(t.bits, p) ==>
              (r.available == |r.input| ==> ok) && (ok ==> Inside(r, src, t, p, l + 1, c, tail))
  {
    ghost var want, rest := [0], [];
    if Inside(r, r.source, t, p, l, code, tail) && l < SizeOf(t.bits, p) {
      NextOf(CodeBits(t, p), l, tail);
      NextValue(CodeBits(t, p), l);
      want, rest := [CodeBits(t, p)[l]], CodeBits(t, p)[l + 1..] + tail;
    }
    var bit;
    ok, bit := r.GetBits(1, want, rest);
    c := 2 * code + bit;
    assert bit < 2;
    ShlShl(1, l, 1);
  }

  lemma SplitFront(s: Bits, k: nat, tail: Bits)
    requires k <= |s|
    ensures s + tail == s[..k] + (s[k..] + tail)
  {
    Assoc(s[..k], s[k..], tail);
    assert s[..k] + s[k..] == s;
  }

  /** The first bits of a code, as many as it is known to have. */
  method FirstBits(r: BitReader, minBits: nat, ghost t: HuffTable, ghost p: nat, ghost tail: Bits)
    returns (ok: bool, code: nat)
    requires r.Valid() && 1 <= minBits <= 9 && Shape(t.bits)
    modifies r
    ensures r.Kept() && (if ok then r.Valid() else r.unreadMarker == 0)
    ensures code < Shl(1, minBits)
    ensures ok && minBits <= old(r.bitsLeft) + 1 ==> code / 2 == Value(old(r.Front())[..minBits - 1])
    ensures var src := old(r.source);
            p < Offset(t.bits, 17) && minBits <= SizeOf(t.bits, p) && old(r.Faces(src, CodeBits(t, p) + tail)) ==>
              (r.available == |r.input| ==> ok) && (ok ==> Inside(r, src, t, p, minBits, code, tail))
  {
    ghost var want, rest := Low(0, minBits), [];
    if p < Offset(t.bits, 17) && minBits <= SizeOf(t.bits, p) {
      want, rest := CodeBits(t, p)[..minBits], CodeBits(t, p)[minBits..] + tail;
      SplitFront(CodeBits(t, p), minBits, tail);
    }
    ok, code := r.GetBits(minBits, want, rest);
  }

  lemma InsideIsShort(r: BitReader, src: Source, t: HuffTable, p: nat, l: nat, code: nat, tail: Bits)
    requires Inside(r, src, t, p, l, code, tail)
    ensures l <= 16
  {
  }

  /** The code is longer than l bits. */
  method SearchStep(r: BitReader, d: DecoderTable, code: nat, l: nat, ghost t: HuffTable, ghost p: nat,
                    ghost tail: Bits)
    returns (ok: bool, c: nat)
    requires r.Valid() && Decodes(d, t) && 1 <= l <= 17 && code < Shl(1, l) && (l <= 16 ==> First(t.bits, l) <= code)
    requires code > d.maxcode[l]
    modifies r
    ensures r.Kept() && (if ok then r.Valid() else r.unreadMarker == 0)
    ensures l <= 16 && c < Shl(1, l + 1) && (l < 16 ==> First(t.bits, l + 1) <= c)
    ensures var src := old(r.source);
            old(Inside(r, src, t, p, l, code, tail)) ==>
              (r.available == |r.input| ==> ok) && (ok ==> Inside(r, src, t, p, l + 1, c, tail))
  {
    WithinLimit(d, t, code, l);
    if Inside(r, r.source, t, p, l, code, tail) {
      CodeGoesOn(t, p, l);
    }
    ok, c := NextBit(r, code, l, t, p, tail);
  }

  /** The code is exactly l bits long. */
  method Found(r: BitReader, d: DecoderTable, code: nat, l: nat, ghost t: HuffTable, ghost p: nat, ghost tail: Bits,
               ghost src: Source)
    returns (sym: Byte)
    requires Decodes(d, t) && 1 <= l <= 16 && code < Shl(1, l) && First(t.bits, l) <= code <= d.maxcode[l]
    ensures Inside(r, src, t, p, l, code, tail) ==> sym == t.huffval[p] && r.Faces(src, tail)
  {
    WithinLimit(d, t, code, l);
    sym := d.huffval[code + d.valoffset[l]];
    if Inside(r, src, t, p, l, code, tail) {
      CodeGoesOn(t, p, l);
      assert CodeBits(t, p)[l..] + tail == tail;
    }
  }

  /** The bits are taken one by one until the code is within the limit of its length. */
  method Search(r: BitReader, d: DecoderTable, code0: nat, l0: nat, ghost known: bool,
                ghost t: HuffTable, ghost p: nat, ghost tail: Bits, ghost src: Source)
    returns (ok: bool, code: nat, l: nat)
    requires r.Valid() && Decodes(d, t) && 1 <= l0 <= 17 && code0 < Shl(1, l0) && (l0 <= 16 ==>
               First(t.bits, l0) <= code0)
    requires known ==> r.source == src && Inside(r, src, t, p, l0, code0, tail)
    modifies r
    ensures r.Kept() && (if ok then r.Valid() else r.unreadMarker == 0)
    ensures 1 <= l <= 17 && code < Shl(1, l) && (ok && l <= 16 ==> First(t.bits, l) <= code) && (ok ==>
              code <= d.maxcode[l])
    ensures known ==> (r.available == |r.input| ==> ok) && (ok ==> Inside(r, src, t, p, l, code, tail))
  {
    ok, code, l := true, code0, l0;
    while ok && code > d.maxcode[l]
      invariant 1 <= l <= 17 && code < Shl(1, l) && r.Kept()
      invariant if ok then r.Valid() else r.unreadMarker == 0
      invariant ok && l <= 16 ==> First(t.bits, l) <= code
      invariant known ==> (r.available == |r.input| ==> ok) && (ok ==> Inside(r, src, t, p, l, code, tail))
      decreases 17 - l, ok
    {
      ok, code := SearchStep(r, d, code, l, t, p, tail);
      l := l + 1;
    }
  }

  /** jpeg_huff_decode: the code is known to be at least minBits long. */
  method SlowDecode(r: BitReader, d: DecoderTable, minBits: nat, ghost t: HuffTable, ghost p: nat, ghost tail: Bits)
    returns (ok: bool, sym: Byte)
    requires r.Valid() && Decodes(d, t) && (minBits == 1 || minBits == 9)
    requires minBits == 9 ==> r.bitsLeft >= 8 && Value(r.Front()[..8]) >= End(t.bits, 8)
    modifies r
    ensures r.Kept() && (if ok then r.Valid() else r.unreadMarker == 0)
    ensures var src := old(r.source);
            p < Offset(t.bits, 17) && minBits <= SizeOf(t.bits, p) && old(r.Faces(src, CodeBits(t, p) + tail)) ==>
              (r.available == |r.input| ==> ok) && (ok ==> sym == t.huffval[p] && r.Faces(src, tail))
  {
    sym := 0;
    ghost var src := r.source;
    ghost var known := p < Offset(t.bits, 17) && minBits <= SizeOf(t.bits, p) && r.Faces(src, CodeBits(t, p) + tail);
    var code: nat;
    ok, code := FirstBits(r, minBits, t, p, tail);
    var l := minBits;
    if ok {
      WithinLimit(d, t, code, l);
      ok, code, l := Search(r, d, code, l, known, t, p, tail, src);
    }
    if ok && known {
      InsideIsShort(r, src, t, p, l, code, tail);
    }
    if ok && l <= 16 {
      sym := Found(r, d, code, l, t, p, tail, src);
    }
  }

  /**
   * HUFF_DECODE: the next symbol, by lookahead when eight bits can be had and the code is short, otherwise
   * bit by bit. Either way the symbol is that of the code at the front, whatever follows it.
   */
  method HuffDecode(r: BitReader, d: DecoderTable, ghost t: HuffTable, ghost p: nat, ghost tail: Bits)
    returns (ok: bool, sym: Byte)
    requires r.Valid() && Decodes(d, t)
    modifies r
    ensures r.Kept() && (if ok then r.Valid() else r.unreadMarker == 0)
    ensures var src := old(r.source);
            p < Offset(t.bits, 17) && old(r.Faces(src, CodeBits(t, p) + tail)) ==>
              (r.available == |r.input| ==> ok) && (ok ==> sym == t.huffval[p] && r.Faces(src, tail))
  {
    sym := 0;
    ok := true;
    if r.bitsLeft < HUFF_LOOKAHEAD {
      ok := r.FillBitBuffer(0);
    }
    if ok {
      if r.bitsLeft < HUFF_LOOKAHEAD {
        ok, sym := SlowDecode(r, d, 1, t, p, tail);
      } else {
        ok, sym := LookDecode(r, d, t, p, tail);
      }
    }
  }

  /** The case that eight bits are there. */
  method LookDecode(r: BitReader, d: DecoderTable, ghost t: HuffTable, ghost p: nat, ghost tail: Bits)
    returns (ok: bool, sym: Byte)
    requires r.Valid() && Decodes(d, t) && r.bitsLeft >= 8
    modifies r
    ensures r.Kept() && (if ok then r.Valid() else r.unreadMarker == 0)
    ensures var src := old(r.source);
            p < Offset(t.bits, 17) && old(r.Faces(src, CodeBits(t, p) + tail)) ==>
              (r.available == |r.input| ==> ok) && (ok ==> sym == t.huffval[p] && r.Faces(src, tail))
  {
    var look := r.Look();
    ghost var known := p < Offset(t.bits, 17) && r.Faces(r.source, CodeBits(t, p) + tail);
    assert Unfolded(DecoderTables, 0);
    if known {
      r.LookIsAhead();
      LookFinds(t, p, tail, look, d.lookNbits[look], d.lookSym[look]);
    }
    var nb := d.lookNbits[look];
    LookBound(t, look, nb, d.lookSym[look]);
    if nb != 0 {
      ok := true;
      r.DropBits(nb, if known then CodeBits(t, p) else [], tail);
      sym := d.lookSym[look];
    } else {
      ok, sym := SlowDecode(r, d, 9, t, p, tail);
    }
  }

  /**
   * For any sixteen bits, valid code or not: what the lookahead table says about the first eight of them is
   * what the bit-by-bit search finds, and where it says nothing the search goes on past eight bits.
   */
  lemma LookaheadIsSearch(t: HuffTable, v: nat, nbits: nat, sym: Byte)
    requires GoodShape(t) && Legal(t.bits) && v < 0x10000 && Shr(v, 8) < 256 && LooksRight(t, nbits, sym, Shr(v, 8))
    ensures nbits != 0 ==>
              && Match(t.bits, v, 16, 1) == nbits && FrontIndex(t.bits, v, 16) < 256
              && sym == t.huffval[FrontIndex(t.bits, v, 16)]
    ensures nbits == 0 ==> Match(t.bits, v, 16, 1) > 8
  {
    assert Unfolded(LookEntry, 0);
    if nbits != 0 {
      FrontIsLocal(t.bits, v, 8, 16);
    } else {
      MatchIsLocal(t.bits, v, 8, 16, 1);
    }
  }
}
