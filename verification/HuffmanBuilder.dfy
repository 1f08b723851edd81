/** Derived Huffman tables: the encoder's codes by symbol, the decoder's code limits and lookahead table. */
module HuffmanBuilder {
  import opened Numbers
  import opened HuffmanTable

  /** The first p entries of huffsize are in place. */
  ghost predicate HasSizes(huffsize: array<int>, bits: seq<Byte>, p: nat)
    reads huffsize
  {
    && Shape(bits) && huffsize.Length == 257 && p <= Offset(bits, 17) <= 256
    && forall j :: 0 <= j < p ==> huffsize[j] == SizeOf(bits, j)
  }

  ghost predicate HasCodes(huffcode: array<int>, bits: seq<Byte>, p: nat)
    reads huffcode
  {
    && Shape(bits) && huffcode.Length == 257 && p <= Offset(bits, 17) <= 256
    && forall j :: 0 <= j < p ==> huffcode[j] == CodeOf(bits, j)
  }

  /** The codes of one length. */
  method AddSizes(bits: seq<Byte>, l: nat, p0: nat, huffsize: array<int>) returns (p: nat)
    requires Shape(bits) && 1 <= l <= 16 && Offset(bits, l + 1) <= 256 && p0 == Offset(bits, l)
    requires huffsize.Length == 257
    modifies huffsize
    ensures p == Offset(bits, l + 1)
    ensures forall j :: 0 <= j < p0 ==> huffsize[j] == old(huffsize[j])
    ensures forall j :: p0 <= j < p ==> huffsize[j] == l
  {
    p := p0;
    var i: int := bits[l];
    while i > 0
      invariant 0 <= i && p + i == Offset(bits, l + 1) && p0 <= p
      invariant forall j :: 0 <= j < p0 ==> huffsize[j] == old(huffsize[j])
      invariant forall j :: p0 <= j < p ==> huffsize[j] == l
    {
      i := i - 1;
      huffsize[p] := l;
      p := p + 1;
    }
  }

  /** Figure C.1, with the check against table overrun. */
  method MakeSizes(bits: seq<Byte>) returns (ok: bool, huffsize: array<int>, p: nat)
    requires Shape(bits)
    ensures ok <==> Offset(bits, 17) <= 256
    ensures fresh(huffsize) && huffsize.Length == 257
    ensures ok ==> p == Offset(bits, 17) && HasSizes(huffsize, bits, p) && huffsize[p] == 0
  {
    huffsize := new int[257];
    p := 0;
    ok := true;
    var l := 1;
    while l <= 16 && ok
      invariant 1 <= l <= 17 && huffsize.Length == 257 && fresh(huffsize)
      invariant ok ==> p == Offset(bits, l) <= 256
      invariant ok ==> forall j :: 0 <= j < p ==> j < Offset(bits, 17) && huffsize[j] == SizeOf(bits, j)
      invariant !ok ==> Offset(bits, 17) > 256
      decreases 17 - l, ok
    {
      OffsetOrder(bits, l + 1, 17);
      if p + bits[l] > 256 {
        ok := false;
      } else {
        ghost var p0 := p;
        p := AddSizes(bits, l, p, huffsize);
        forall j | p0 <= j < p ensures j < Offset(bits, 17) && SizeOf(bits, j) == l {
          SizeIs(bits, j, l);
        }
        l := l + 1;
      }
    }
    if ok {
      huffsize[p] := 0;
    }
  }

  lemma {:induction false} StillFits(bits: seq<Byte>, l: nat, k: nat)
    requires Shape(bits) && 1 <= l <= k <= 16 && Offset(bits, l) == Offset(bits, 17)
    requires l == 1 || End(bits, l - 1) < Shl(1, l - 1)
    ensures End(bits, k) < Shl(1, k)
  {
    OffsetOrder(bits, l, k);
    OffsetOrder(bits, k + 1, 17);
    if l == 1 || k > l {
      ShlShl(1, k - 1, 1);
      if k > l {
        StillFits(bits, l, k - 1);
      } else {
        ShlZero(1);
      }
    } else {
      ShlShl(1, l - 1, 1);
    }
  }

  lemma {:induction false} NoShortCodes(bits: seq<Byte>, l: nat)
    requires Shape(bits) && 1 <= l <= 17 && Offset(bits, l) == 0
    ensures First(bits, l) == 0
    ensures forall k :: 1 <= k < l ==> End(bits, k) < Shl(1, k)
  {
    if l > 1 {
      NoShortCodes(bits, l - 1);
      ShlZero(l - 1);
      ShlOrder(0, 1, l - 1);
    }
  }

  /** Checked below length si; no codes from si on. */
  lemma TreeIsLegal(bits: seq<Byte>, si: nat)
    requires Shape(bits) && 1 <= si <= 17 && (si <= 16 ==> Offset(bits, si) == Offset(bits, 17))
    requires forall l :: 1 <= l < si ==> End(bits, l) < Shl(1, l)
    ensures LegalTree(bits)
  {
    forall l | 1 <= l <= 16 ensures End(bits, l) < Shl(1, l) {
      if l >= si {
        StillFits(bits, si, l);
      }
    }
  }

  /** The codes of length si in order. */
  method AddCodes(bits: seq<Byte>, si: nat, p0: nat, code0: nat, huffsize: array<int>, huffcode: array<int>)
    returns (p: nat, code: nat)
    requires Shape(bits) && HasSizes(huffsize, bits, Offset(bits, 17)) && huffsize[Offset(bits, 17)] == 0
    requires 1 <= si <= 16 && p0 == Offset(bits, si) && code0 == First(bits, si)
    requires HasCodes(huffcode, bits, p0) && huffcode != huffsize
    modifies huffcode
    ensures p == Offset(bits, si + 1) && code == End(bits, si) && HasCodes(huffcode, bits, p)
  {
    OffsetOrder(bits, si + 1, 17);
    p, code := p0, code0;
    while huffsize[p] == si
      invariant p0 <= p <= Offset(bits, si + 1) && code == First(bits, si) + (p - p0)
      invariant HasCodes(huffcode, bits, p)
      decreases 256 - p
    {
      huffcode[p] := code;
      p := p + 1;
      code := code + 1;
    }
    if p < Offset(bits, si + 1) {
      SizeIs(bits, p, si);
    }
  }

  /** Figure C.2, with the check that the counts form a legal code tree. */
  method MakeCodes(bits: seq<Byte>, huffsize: array<int>) returns (ok: bool, huffcode: array<int>)
    requires Shape(bits) && Offset(bits, 17) <= 256
    requires HasSizes(huffsize, bits, Offset(bits, 17)) && huffsize[Offset(bits, 17)] == 0
    ensures ok <==> LegalTree(bits)
    ensures fresh(huffcode) && (ok ==> HasCodes(huffcode, bits, Offset(bits, 17)))
  {
    huffcode := new int[257];
    ok := true;
    var code, si, p := 0, huffsize[0], 0;
    if huffsize[0] == 0 {
      OffsetOrder(bits, 1, 17);
      TreeIsLegal(bits, 1);
    } else {
      NoShortCodes(bits, si);
    }
    while huffsize[p] != 0 && ok
      invariant fresh(huffcode) && p <= Offset(bits, 17)
      invariant ok && huffsize[0] != 0 ==>
                  && 1 <= si <= 17 && p == Offset(bits, si) && code == First(bits, si) && HasCodes(huffcode, bits, p)
                  && forall l :: 1 <= l < si ==> End(bits, l) < Shl(1, l)
      invariant huffsize[0] == 0 ==> ok && p == 0
      invariant !ok ==> !LegalTree(bits)
      decreases 256 - p, 17 - si, ok
    {
      p, code := AddCodes(bits, si, p, code, huffsize, huffcode);
      if code >= Shl(1, si) {
        ok := false;
      } else {
        code := 2 * code;
        si := si + 1;
      }
    }
    if ok && huffsize[0] != 0 {
      assert p == Offset(bits, 17);
      TreeIsLegal(bits, si);
    }
  }

  // ---- The encoder's table

  /** c_derived_tbl; a size of zero means that the symbol has no code. */
  datatype EncoderTable = EncoderTable(code: seq<nat>, size: seq<nat>)

  predicate GoodEncoderTable(e: EncoderTable) {
    |e.code| == |e.size| == 256
  }

  /** What jpeg_make_c_derived_tbl accepts: every symbol is in range and has one code only. */
  ghost predicate Encodable(t: HuffTable, maxsymbol: nat)
    requires GoodShape(t)
  {
    && Legal(t.bits)
    && (forall p :: 0 <= p < Offset(t.bits, 17) ==> t.huffval[p] <= maxsymbol)
    && (forall p, q :: 0 <= p < q < Offset(t.bits, 17) ==> t.huffval[p] != t.huffval[q])
  }

  /** The table gives each listed symbol its canonical code, and no code to any other symbol. */
  ghost predicate Encodes(e: EncoderTable, t: HuffTable, n: nat)
    requires GoodShape(t) && Legal(t.bits) && n <= Offset(t.bits, 17)
  {
    && GoodEncoderTable(e)
    && (forall p :: 0 <= p < n ==>
         e.size[t.huffval[p]] == SizeOf(t.bits, p) && e.code[t.huffval[p]] == CodeOf(t.bits, p))
    && (forall s :: 0 <= s < 256 && e.size[s] != 0 ==> exists p :: 0 <= p < n && t.huffval[p] == s)
  }

  /** The first n symbols have their codes, and are in order. (folded) */
  ghost predicate AssignedTo(e: EncoderTable, t: HuffTable, maxsymbol: nat, n: nat)
    requires GoodShape(t) && Legal(t.bits)
  {
    forall k: nat {:trigger Unfolded(CodesAssigned, k)} :: Unfolded(CodesAssigned, k) ==>
      && n <= Offset(t.bits, 17) && Encodes(e, t, n)
      && (forall q, r :: 0 <= q < r < n ==> t.huffval[q] != t.huffval[r])
      && (forall q :: 0 <= q < n ==> t.huffval[q] <= maxsymbol)
  }

  lemma FreshSymbol(e: EncoderTable, t: HuffTable, p: nat, i: Byte)
    requires GoodShape(t) && Legal(t.bits) && p < Offset(t.bits, 17) && Encodes(e, t, p) && e.size[i] == 0
    ensures forall q :: 0 <= q < p ==> t.huffval[q] != i
  {
  }

  lemma OneEncoded(e: EncoderTable, t: HuffTable, p: nat, i: Byte, e': EncoderTable)
    requires GoodShape(t) && Legal(t.bits) && p < Offset(t.bits, 17) && Encodes(e, t, p) && i == t.huffval[p]
    requires forall q :: 0 <= q < p ==> t.huffval[q] != i
    requires e' == EncoderTable(e.code[i := CodeOf(t.bits, p)], e.size[i := SizeOf(t.bits, p)])
    ensures Encodes(e', t, p + 1)
  {
    forall s | 0 <= s < 256 && e'.size[s] != 0 ensures exists q :: 0 <= q < p + 1 && t.huffval[q] == s {
      if s != i {
        var q :| 0 <= q < p && t.huffval[q] == s;
      }
    }
  }

  lemma OneAssigned(e: EncoderTable, t: HuffTable, maxsymbol: nat, p: nat, i: Byte, code: nat, size: nat)
    requires GoodShape(t) && Legal(t.bits) && AssignedTo(e, t, maxsymbol, p) && p < Offset(t.bits, 17)
             && GoodEncoderTable(e)
    requires i == t.huffval[p] <= maxsymbol && e.size[i] == 0 && code == CodeOf(t.bits, p) && size == SizeOf(t.bits, p)
    ensures AssignedTo(EncoderTable(e.code[i := code], e.size[i := size]), t, maxsymbol, p + 1)
  {
    assert Unfolded(CodesAssigned, 0);
    FreshSymbol(e, t, p, i);
    OneEncoded(e, t, p, i, EncoderTable(e.code[i := code], e.size[i := size]));
  }

  lemma NotAssignable(e: EncoderTable, t: HuffTable, maxsymbol: nat, p: nat, i: Byte)
    requires GoodShape(t) && Legal(t.bits) && AssignedTo(e, t, maxsymbol, p) && p < Offset(t.bits, 17)
             && GoodEncoderTable(e)
    requires i == t.huffval[p] && (i > maxsymbol || e.size[i] != 0)
    ensures !Encodable(t, maxsymbol)
  {
    assert Unfolded(CodesAssigned, 0);
    if i <= maxsymbol {
      var q :| 0 <= q < p && t.huffval[q] == i;
    }
  }

  lemma AllAssigned(e: EncoderTable, t: HuffTable, maxsymbol: nat)
    requires GoodShape(t) && Legal(t.bits) && AssignedTo(e, t, maxsymbol, Offset(t.bits, 17))
    ensures Encodable(t, maxsymbol) && Encodes(e, t, Offset(t.bits, 17))
  {
    assert Unfolded(CodesAssigned, 0);
  }

  /** Figure C.3. */
  method AssignCodes(t: HuffTable, maxsymbol: nat, lastp: nat, huffsize: array<int>, huffcode: array<int>)
    returns (ok: bool, e: EncoderTable)
    requires GoodShape(t) && Legal(t.bits) && lastp == Offset(t.bits, 17)
    requires HasSizes(huffsize, t.bits, Offset(t.bits, 17)) && HasCodes(huffcode, t.bits, Offset(t.bits, 17))
    ensures ok <==> Encodable(t, maxsymbol)
    ensures ok ==> Encodes(e, t, Offset(t.bits, 17))
  {
    ok := true;
    e := EncoderTable(seq(256, _ => 0), seq(256, _ => 0));
    var p := 0;
    while p < lastp && ok
      invariant 0 <= p <= lastp && GoodEncoderTable(e) && AssignedTo(e, t, maxsymbol, p)
      invariant !ok ==> !Encodable(t, maxsymbol)
      decreases lastp - p, ok
    {
      var i := t.huffval[p];
      if i > maxsymbol || e.size[i] != 0 {
        NotAssignable(e, t, maxsymbol, p, i);
        ok := false;
      } else {
        OneAssigned(e, t, maxsymbol, p, i, huffcode[p], huffsize[p]);
        e := EncoderTable(e.code[i := huffcode[p]], e.size[i := huffsize[p]]);
        p := p + 1;
      }
    }
    if ok {
      AllAssigned(e, t, maxsymbol);
    }
  }

  /** jpeg_make_c_derived_tbl */
  method MakeEncoderTable(t: HuffTable, isDc: bool) returns (ok: bool, e: EncoderTable)
    requires GoodShape(t)
    ensures ok <==> Encodable(t, if isDc then 15 else 255)
    ensures ok ==> Encodes(e, t, Offset(t.bits, 17))
  {
    e := EncoderTable([], []);
    var huffsize, lastp, huffcode;
    ok, huffsize, lastp := MakeSizes(t.bits);
    if ok {
      ok, huffcode := MakeCodes(t.bits, huffsize);
      if ok {
        ok, e := AssignCodes(t, if isDc then 15 else 255, lastp, huffsize, huffcode);
      }
    }
  }

  // ---- The decoder's tables

  const HUFF_LOOKAHEAD := 8

  /** d_derived_tbl */
  datatype DecoderTable = DecoderTable(maxcode: seq<int>, valoffset: seq<int>, huffval: seq<Byte>,
                                       lookNbits: seq<nat>, lookSym: seq<Byte>)

  /** What jpeg_make_d_derived_tbl accepts. */
  ghost predicate Decodable(t: HuffTable, isDc: bool)
    requires GoodShape(t)
  {
    Legal(t.bits) && (isDc ==> forall p :: 0 <= p < Offset(t.bits, 17) ==> t.huffval[p] <= 15)
  }

  /** Any table the encoder can use, the decoder can use. */
  lemma EncodableIsDecodable(t: HuffTable, isDc: bool)
    requires GoodShape(t) && Encodable(t, if isDc then 15 else 255)
    ensures Decodable(t, isDc)
  {
  }

  /** Figure F.15, up to length l. */
  ghost predicate HasLimits(maxcode: seq<int>, valoffset: seq<int>, bits: seq<Byte>, l: nat)
    requires Shape(bits) && l <= 17
  {
    && |maxcode| == 18 && |valoffset| == 17
    && forall k :: 1 <= k < l ==>
         && maxcode[k] == (if bits[k] == 0 then -1 else End(bits, k) - 1)
         && (bits[k] != 0 ==> valoffset[k] == Offset(bits, k) - First(bits, k))
  }

  /** The limits of one length; p is the index of its first code. */
  method LengthLimits(bits: seq<Byte>, l: nat, p: nat, huffcode: array<int>) returns (maxcode: int, valoffset: int)
    requires Shape(bits) && HasCodes(huffcode, bits, Offset(bits, 17)) && 1 <= l <= 16 && p == Offset(bits, l)
    ensures maxcode == (if bits[l] == 0 then -1 else End(bits, l) - 1)
    ensures bits[l] != 0 ==> valoffset == Offset(bits, l) - First(bits, l)
  {
    maxcode, valoffset := -1, 0;
    if bits[l] != 0 {
      SizeIs(bits, p, l);
      SizeIs(bits, p + bits[l] - 1, l);
      valoffset := p - huffcode[p];
      maxcode := huffcode[p + bits[l] - 1];
    }
  }

  method MakeLimits(bits: seq<Byte>, huffcode: array<int>) returns (maxcode: seq<int>, valoffset: seq<int>)
    requires Shape(bits) && Legal(bits) && HasCodes(huffcode, bits, Offset(bits, 17))
    ensures HasLimits(maxcode, valoffset, bits, 17) && maxcode[17] == 0xFFFFF
  {
    maxcode, valoffset := seq(18, _ => 0), seq(17, _ => 0);
    var p: nat := 0;
    var l := 1;
    while l <= 16
      invariant 1 <= l <= 17 && p == Offset(bits, l) && HasLimits(maxcode, valoffset, bits, l)
    {
      var m, o := LengthLimits(bits, l, p, huffcode);
      maxcode, valoffset := maxcode[l := m], valoffset[l := o];
      p := p + bits[l];
      l := l + 1;
    }
    maxcode := maxcode[17 := 0xFFFFF];
  }

  /** The lookahead entry for the next eight bits: the code at their front, if it is that short. */
  predicate LookAgrees(t: HuffTable, nbits: nat, sym: Byte, look: nat)
    requires GoodShape(t) && Legal(t.bits) && look < 256
  {
    var l := Match(t.bits, look, HUFF_LOOKAHEAD, 1);
    if l > HUFF_LOOKAHEAD then nbits == 0
    else nbits == l && FrontIndex(t.bits, look, HUFF_LOOKAHEAD) < 256
         && sym == t.huffval[FrontIndex(t.bits, look, HUFF_LOOKAHEAD)]
  }

  /** (folded) */
  ghost predicate LooksRight(t: HuffTable, nbits: nat, sym: Byte, look: nat)
    requires GoodShape(t) && Legal(t.bits) && look < 256
  {
    forall k: nat {:trigger Unfolded(LookEntry, k)} :: Unfolded(LookEntry, k) ==> LookAgrees(t, nbits, sym, look)
  }

  /** The tables are right below `end` and empty from there on. */
  ghost predicate LookFilled(t: HuffTable, nbits: array<nat>, sym: array<Byte>, end: int)
    requires GoodShape(t) && Legal(t.bits)
    reads nbits, sym
  {
    && nbits.Length == sym.Length == 256 && nbits != sym as object && 0 <= end <= 256
    && (forall x :: 0 <= x < end ==> LooksRight(t, nbits[x], sym[x], x))
    && (forall x :: end <= x < 256 ==> nbits[x] == 0)
  }

  lemma {:induction false} ShrOfRange(x: nat, c: nat, k: nat)
    requires Shl(c, k) <= x < Shl(c + 1, k)
    ensures Shr(x, k) == c
    decreases k
  {
    if k > 0 {
      ShlAdd(c, c, k - 1);
      ShlAdd(c + 1, c + 1, k - 1);
      ShrOfRange(x / 2, c, k - 1);
    }
  }

  lemma LooksRightFor(t: HuffTable, l: nat, p: nat, x: nat)
    requires GoodShape(t) && Legal(t.bits) && 1 <= l <= 8 && Offset(t.bits, l) <= p < Offset(t.bits, l + 1) && x < 256
    requires p < Offset(t.bits, 17) && Shl(CodeOf(t.bits, p), 8 - l) <= x < Shl(CodeOf(t.bits, p) + 1, 8 - l)
    ensures LooksRight(t, l, t.huffval[p], x)
  {
    CodeInFront(t.bits, l, p, x);
  }

  lemma CodeInFront(bits: seq<Byte>, l: nat, p: nat, x: nat)
    requires Shape(bits) && 1 <= l <= 8 && Offset(bits, l) <= p < Offset(bits, l + 1) && p < Offset(bits, 17)
    requires Shl(CodeOf(bits, p), 8 - l) <= x < Shl(CodeOf(bits, p) + 1, 8 - l)
    ensures Match(bits, x, 8, 1) == l && FrontIndex(bits, x, 8) == p
  {
    SizeIs(bits, p, l);
    ShrOfRange(x, CodeOf(bits, p), 8 - l);
    CodeIsFound(bits, p, x, 8);
    FrontIs(bits, x, 8, l);
  }

  /** No code below the table's end is longer than eight bits, so nothing is found beyond it. */
  lemma LooksRightBeyond(t: HuffTable, x: nat, sym: Byte)
    requires GoodShape(t) && Legal(t.bits) && End(t.bits, 8) <= x < 256
    ensures LooksRight(t, 0, sym, x)
  {
    forall k | 1 <= k < 9 ensures End(t.bits, k) <= Shr(x, 8 - k) {
      if k < 8 {
        NoShorterCode(t.bits, x, 8, k);
      }
    }
    MatchSkips(t.bits, x, 8, 1, 9);
  }

  method SetEntry(t: HuffTable, nbits: array<nat>, sym: array<Byte>, x: nat, l: nat, s: Byte)
    requires GoodShape(t) && Legal(t.bits) && LookFilled(t, nbits, sym, x) && x < 256 && LooksRight(t, l, s, x)
    modifies nbits, sym
    ensures LookFilled(t, nbits, sym, x + 1)
  {
    nbits[x] := l;
    sym[x] := s;
  }

  /** The entries that start with the p-th code. */
  method FillCode(t: HuffTable, l: nat, p: nat, code: nat, nbits: array<nat>, sym: array<Byte>)
    requires GoodShape(t) && Legal(t.bits) && 1 <= l <= 8 && Offset(t.bits, l) <= p < Offset(t.bits, l + 1)
    requires p < Offset(t.bits, 17) && code == CodeOf(t.bits, p) && Shl(code + 1, 8 - l) <= 256
    requires LookFilled(t, nbits, sym, Shl(code, 8 - l))
    modifies nbits, sym
    ensures LookFilled(t, nbits, sym, Shl(code + 1, 8 - l))
  {
    ShlAdd(code, 1, 8 - l);
    ghost var end := Shl(code + 1, 8 - l);
    var lookbits: int := Shl(code, 8 - l);
    var ctr := Shl(1, 8 - l);
    assert ctr >= 0 by {
      ShlZero(8 - l);
      ShlOrder(0, 1, 8 - l);
    }
    while ctr > 0
      invariant 0 <= ctr && lookbits + ctr == end && Shl(code, 8 - l) <= lookbits
      invariant LookFilled(t, nbits, sym, lookbits)
    {
      LooksRightFor(t, l, p, lookbits);
      SetEntry(t, nbits, sym, lookbits, l, t.huffval[p]);
      lookbits := lookbits + 1;
      ctr := ctr - 1;
    }
  }

  lemma EndFits(bits: seq<Byte>, l: nat, c: nat)
    requires Shape(bits) && LegalTree(bits) && 1 <= l <= 8 && c <= End(bits, l)
    ensures Shl(c, 8 - l) <= 256
  {
    ShlOrder(c, Shl(1, l), 8 - l);
    ShlShl(1, l, 8 - l);
    ShlTable(1);
  }

  lemma CodeAt(bits: seq<Byte>, l: nat, p: nat, code: nat)
    requires Shape(bits) && 1 <= l <= 16 && Offset(bits, l) <= p < Offset(bits, l + 1)
    requires code == First(bits, l) + (p - Offset(bits, l))
    ensures p < Offset(bits, 17) && CodeOf(bits, p) == code < End(bits, l)
  {
    SizeIs(bits, p, l);
  }

  /** All codes of length l. */
  method FillLength(t: HuffTable, l: nat, p0: nat, huffcode: array<int>, nbits: array<nat>, sym: array<Byte>)
    returns (p: nat)
    requires GoodShape(t) && Legal(t.bits) && HasCodes(huffcode, t.bits, Offset(t.bits, 17))
    requires 1 <= l <= 8 && p0 == Offset(t.bits, l) && LookFilled(t, nbits, sym, Shl(First(t.bits, l), 8 - l))
    requires huffcode != nbits as object && huffcode != sym as object
    modifies nbits, sym
    ensures p == Offset(t.bits, l + 1) && LookFilled(t, nbits, sym, Shl(End(t.bits, l), 8 - l))
  {
    OffsetOrder(t.bits, l + 1, 17);
    p := p0;
    var i: int := 1;
    ghost var code := First(t.bits, l);
    while i <= t.bits[l]
      invariant 1 <= i <= (t.bits[l] as int) + 1 && p == p0 + i - 1 && code == First(t.bits, l) + i - 1
      invariant LookFilled(t, nbits, sym, Shl(code, 8 - l))
    {
      CodeAt(t.bits, l, p, code);
      EndFits(t.bits, l, code + 1);
      FillCode(t, l, p, huffcode[p], nbits, sym);
      code := code + 1;
      i := i + 1;
      p := p + 1;
    }
  }

  /** Where the entries of codes shorter than l end. */
  function LookEnd(bits: seq<Byte>, l: nat): nat
    requires Shape(bits) && 1 <= l <= 9
  {
    ShlNat(First(bits, l), if l < 8 then 8 - l else 0);
    if l == 9 then End(bits, 8) else Shl(First(bits, l), 8 - l)
  }

  lemma LookGrows(bits: seq<Byte>, l: nat)
    requires Shape(bits) && 1 <= l <= 8
    ensures LookEnd(bits, l) == Shl(First(bits, l), 8 - l) && LookEnd(bits, l + 1) == Shl(End(bits, l), 8 - l)
  {
  }

  lemma WholeLookahead(t: HuffTable, nbits: array<nat>, sym: array<Byte>)
    requires GoodShape(t) && Legal(t.bits) && LookFilled(t, nbits, sym, End(t.bits, 8))
    ensures forall x :: 0 <= x < 256 ==> LooksRight(t, nbits[x], sym[x], x)
  {
    forall x | End(t.bits, 8) <= x < 256 ensures LooksRight(t, nbits[x], sym[x], x) {
      LooksRightBeyond(t, x, sym[x]);
    }
  }

  /** The lookahead table answers for all 256 next bytes. */
  method MakeLookahead(t: HuffTable, huffcode: array<int>) returns (lookNbits: seq<nat>, lookSym: seq<Byte>)
    requires GoodShape(t) && Legal(t.bits) && HasCodes(huffcode, t.bits, Offset(t.bits, 17))
    ensures |lookNbits| == |lookSym| == 256
    ensures forall x :: 0 <= x < 256 ==> LooksRight(t, lookNbits[x], lookSym[x], x)
  {
    var nbits := new nat[256](_ => 0);
    var sym := new Byte[256](_ => 0);
    ShlZero(7);
    var p, l := 0, 1;
    while l <= HUFF_LOOKAHEAD
      invariant 1 <= l <= 9 && p == Offset(t.bits, l) && fresh(nbits) && fresh(sym)
      invariant LookFilled(t, nbits, sym, LookEnd(t.bits, l))
    {
      LookGrows(t.bits, l);
      p := FillLength(t, l, p, huffcode, nbits, sym);
      l := l + 1;
    }
    WholeLookahead(t, nbits, sym);
    lookNbits, lookSym := nbits[..], sym[..];
  }

  predicate GoodDecoderTable(d: DecoderTable) {
    |d.maxcode| == 18 && |d.valoffset| == 17 && |d.huffval| == 256 && |d.lookNbits| == |d.lookSym| == 256
  }

  /** The decoder's tables belong to t. */
  ghost predicate Decodes(d: DecoderTable, t: HuffTable) {
    GoodDecoderTable(d) && GoodShape(t) && Legal(t.bits) && TablesOf(d, t)
  }

  /** (folded) */
  ghost predicate TablesOf(d: DecoderTable, t: HuffTable)
    requires GoodDecoderTable(d) && GoodShape(t) && Legal(t.bits)
  {
    forall k: nat {:trigger Unfolded(DecoderTables, k)} :: Unfolded(DecoderTables, k) ==>
      && d.huffval == t.huffval
      && HasLimits(d.maxcode, d.valoffset, t.bits, 17) && d.maxcode[17] == 0xFFFFF
      && forall x :: 0 <= x < 256 ==> LooksRight(t, d.lookNbits[x], d.lookSym[x], x)
  }

  method CheckDcSymbols(t: HuffTable, numsymbols: nat) returns (ok: bool)
    requires GoodShape(t) && numsymbols <= 256
    ensures ok <==> forall p :: 0 <= p < numsymbols ==> t.huffval[p] <= 15
  {
    ok := true;
    var i := 0;
    while i < numsymbols && ok
      invariant 0 <= i <= numsymbols
      invariant ok ==> forall p :: 0 <= p < i ==> t.huffval[p] <= 15
      invariant !ok ==> i < numsymbols && t.huffval[i] > 15
      decreases numsymbols - i, ok
    {
      if t.huffval[i] > 15 {
        ok := false;
      } else {
        i := i + 1;
      }
    }
  }

  /** jpeg_make_d_derived_tbl */
  method MakeDecoderTable(t: HuffTable, isDc: bool) returns (ok: bool, d: DecoderTable)
    requires GoodShape(t)
    ensures ok <==> Decodable(t, isDc)
    ensures ok ==> Decodes(d, t)
  {
    d := DecoderTable([], [], [], [], []);
    var huffsize, numsymbols, huffcode;
    ok, huffsize, numsymbols := MakeSizes(t.bits);
    if ok {
      ok, huffcode := MakeCodes(t.bits, huffsize);
      if ok {
        var maxcode, valoffset := MakeLimits(t.bits, huffcode);
        var lookNbits, lookSym := MakeLookahead(t, huffcode);
        d := DecoderTable(maxcode, valoffset, t.huffval, lookNbits, lookSym);
        if isDc {
          ok := CheckDcSymbols(t, numsymbols);
        }
      }
    }
  }
}
