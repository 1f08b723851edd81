/** The progressive Huffman encoder for AC bands: pending ends of block and buffered correction bits. */
module HuffmanRunEncoder {
  import opened Numbers
  import opened BitStrings
  import opened Blocks
  import opened HuffmanStream
  import opened HuffmanBlocks
  import opened HuffmanRuns

  lemma ZrlFirst(tbl: nat, zz: seq<int>, eob: nat, k: nat, r: nat, br: Bits)
    requires k <= eob < |zz| && zz[k] != 0
    ensures RefineTokens(tbl, zz, eob, k, r + 16, br)
            == [Sym(tbl, ZRL)] + (BitTokens(br) + RefineTokens(tbl, zz, eob, k, r, []))
  {
    Assoc([Sym(tbl, ZRL)], BitTokens(br), RefineTokens(tbl, zz, eob, k, r, []));
  }

  lemma NewFirst(tbl: nat, zz: seq<int>, eob: nat, k: nat, r: nat, br: Bits)
    requires k <= eob < |zz| && Abs(zz[k]) == 1 && r <= 15
    ensures RefineTokens(tbl, zz, eob, k, r, br)
            == [Sym(tbl, r * 16 + 1)] + ([SignToken(zz[k])] + BitTokens(br) + RefineTokens(tbl, zz, eob, k + 1, 0, []))
  {
    var s, v := [Sym(tbl, r * 16 + 1)], [SignToken(zz[k])];
    assert s + v == [Sym(tbl, r * 16 + 1), SignToken(zz[k])];
    Assoc(s, v, BitTokens(br));
    Assoc(s, v + BitTokens(br), RefineTokens(tbl, zz, eob, k + 1, 0, []));
  }

  lemma OneBit(t: seq<Token>, bits: Bits, i: nat)
    requires i < |bits|
    ensures t + [Raw(Low(bits[i], 1))] + BitTokens(bits[i + 1..]) == t + BitTokens(bits[i..])
  {
    assert bits[i..][1..] == bits[i + 1..];
    assert Low(bits[i], 1) == Low(0, 0) + [bits[i] % 2] == [bits[i]];
    Assoc(t, [Raw([bits[i]])], BitTokens(bits[i + 1..]));
  }

  lemma EobParts(t: seq<Token>, tbl: nat, n: nat)
    requires 0 < n <= MAX_EOBRUN && Size(n) > 1
    ensures t + [Sym(tbl, EobSymbol(n))] + [Raw(Low(n, Size(n) - 1))] == t + EobTokens(tbl, n)
  {
    Assoc(t, [Sym(tbl, EobSymbol(n))], [Raw(Low(n, Size(n) - 1))]);
  }

  lemma ThreeParts<T>(a: seq<T>, b: seq<T>, c: seq<T>, d: seq<T>)
    ensures a + b + c + d == a + (b + c + d)
  {
    Assoc(a, b, c);
    Assoc(a, b + c, d);
  }

  lemma NewParts(was: seq<Token>, tbl: nat, zz: seq<int>, eob: nat, k: nat, r: nat, br: Bits)
    requires k <= eob < |zz| && Abs(zz[k]) == 1 && r <= 15
    ensures was + [Sym(tbl, r * 16 + 1)] + [Raw(Low(if zz[k] < 0 then 0 else 1, 1))] + BitTokens(br)
            + RefineTokens(tbl, zz, eob, k + 1, 0, []) == was + RefineTokens(tbl, zz, eob, k, r, br)
  {
    var sign := if zz[k] < 0 then 0 else 1;
    assert Low(sign, 1) == Low(0, 0) + [sign % 2] == [sign];
    Assoc(was, [Sym(tbl, r * 16 + 1)], [SignToken(zz[k])]);
    ThreeParts(was, [Sym(tbl, r * 16 + 1), SignToken(zz[k])], BitTokens(br), RefineTokens(tbl, zz, eob, k + 1, 0, []));
    assert [Sym(tbl, r * 16 + 1)] + [SignToken(zz[k])] == [Sym(tbl, r * 16 + 1), SignToken(zz[k])];
  }

  /** The number of bits of a magnitude, one shift at a time. */
  method NumBits(m: nat) returns (nbits: nat)
    ensures nbits == Size(m)
  {
    var temp := m;
    nbits := 0;
    while temp != 0
      invariant nbits + Size(temp) == Size(m)
      decreases temp
    {
      nbits := nbits + 1;
      temp := temp / 2;
    }
  }

  lemma CoefParts(was: seq<Token>, tbl: nat, zz: seq<int>, last: nat, k: nat, r: nat)
    requires k <= last < |zz| && SmallBand(zz, k, last) && zz[k] != 0 && r <= 15
    ensures AcTokens(tbl, zz, last, k, r)
            == [Sym(tbl, RunSize(r, zz[k]))] + ([Raw(Extra(zz[k]))] + AcTokens(tbl, zz, last, k + 1, 0))
    ensures was + [Sym(tbl, RunSize(r, zz[k]))] + [Raw(Extra(zz[k]))] + AcTokens(tbl, zz, last, k + 1, 0)
            == was + AcTokens(tbl, zz, last, k, r)
  {
    var a, b := [Sym(tbl, RunSize(r, zz[k]))], [Raw(Extra(zz[k]))];
    assert a + b == [Sym(tbl, RunSize(r, zz[k])), Raw(Extra(zz[k]))];
    Assoc(was, a, b);
    Assoc(was, a + b, AcTokens(tbl, zz, last, k + 1, 0));
    Assoc(a, b, AcTokens(tbl, zz, last, k + 1, 0));
  }

  /** A run length with a size, and the bits that follow it. */
  lemma CoefSplits(was: seq<Token>, bd: BandScan, zz: seq<int>, k: nat, r: nat, t0: seq<Token>, s: seq<Token>,
                   v: seq<Token>)
    requires FitBand(bd, zz) && !bd.refine && bd.ss <= k <= BandEnd(bd, zz) && zz[k] != 0 && r <= 15
    requires was + AcTokens(bd.tbl, zz, BandEnd(bd, zz), k, r) == t0 + Coded(bd, zz)
    requires s == [Sym(bd.tbl, RunSize(r, zz[k]))] && v == [Raw(Extra(zz[k]))]
    ensures was + s + (v + AcTokens(bd.tbl, zz, BandEnd(bd, zz), k + 1, 0)) == t0 + Coded(bd, zz)
    ensures was + s + v + AcTokens(bd.tbl, zz, BandEnd(bd, zz), k + 1, 0) == t0 + Coded(bd, zz)
  {
    CoefParts(was, bd.tbl, zz, BandEnd(bd, zz), k, r);
    Assoc(was + s, v, AcTokens(bd.tbl, zz, BandEnd(bd, zz), k + 1, 0));
  }

  /** In a block of its own an end of block is the symbol 0. */
  lemma EobIsOne(bd: BandScan, zz: seq<int>)
    requires FitBand(bd, zz) && !bd.refine
    ensures Parcel(bd, zz, 0, 1) == Coded(bd, zz) + if HasEob(bd, zz) then [Sym(bd.tbl, 0)] else []
  {
    assert Size(1) == 1;
    assert [Sym(bd.tbl, 0)] + [] == [Sym(bd.tbl, 0)];
  }

  lemma {:induction false} LastIsNonzero(zz: seq<int>, ss: nat, k: nat)
    requires 0 < ss <= k < |zz|
    ensures LastNonzero(zz, ss, k) == k <==> zz[k] != 0
  {
    if zz[k] == 0 && k > ss {
      LastIsNonzero(zz, ss, k - 1);
    }
  }

  lemma Behind<T>(f: seq<T>, a: seq<T>, c: seq<T>)
    ensures f + a + [] + c == f + (a + c) + [] && f + a + c == f + (a + c) + []
  {
    Assoc(f, a, c);
    Nils(f + a, c, c);
    Nils(f + (a + c), [], []);
  }

  class RunEncoder {
    const sink: HuffSink
    const bd: BandScan
    var eobrun: nat
    var bitBuffer: Bits                    // its length is BE

    ghost var front: seq<Token>            // tokens of earlier restart intervals
    ghost var p: Progress
    ghost var partial: seq<Token>          // tokens of the current block that are out

    /** At any time, even when the run is about to be forced out. */
    ghost predicate Consistent()
      reads this, sink, sink.w
    {
      && sink.Valid() && bd.tbl < sink.numTables && Sound(bd, p)
      && eobrun == |p.open| <= MAX_EOBRUN && bitBuffer == Held(bd, p) && |bitBuffer| <= MAX_CORR_BITS
      && sink.tokens == front + Put(bd, p) + partial && (partial != [] ==> p.open == [])
    }

    /** Between steps: neither the counter nor the bit buffer can overflow during the next block. */
    ghost predicate Invariant()
      reads this, sink, sink.w
    {
      Consistent() && !Overfull(bd, p)
    }

    /** (folded) */
    ghost predicate Valid()
      reads this, sink, sink.w
    {
      forall k: nat {:trigger Unfolded(RunOutput, k)} :: Unfolded(RunOutput, k) ==> Invariant()
    }

    constructor (s: HuffSink, band: BandScan)
      requires s.Valid() && band.tbl < s.numTables
      ensures Valid() && sink == s && bd == band && p == Progress([], [], []) && partial == [] && front == s.tokens
    {
      sink, bd, eobrun, bitBuffer := s, band, 0, [];
      p, partial, front := Progress([], [], []), [], s.tokens;
      new;
      Start(bd);
      Nils(front, [], []);
    }

    /** The part of emit_restart_e that concerns AC scans: nothing is pending any more. */
    method Reset()
      requires sink.Valid() && bd.tbl < sink.numTables
      modifies this
      ensures Valid() && p == Progress([], [], []) && partial == [] && front == sink.tokens
    {
      eobrun, bitBuffer := 0, [];
      p, partial, front := Progress([], [], []), [], sink.tokens;
      Start(bd);
      Nils(front, [], []);
    }

    /** emit_buffered_bits */
    method EmitBufferedBits(bits: Bits)
      requires sink.Valid()
      modifies sink`tokens, sink.w
      ensures sink.Valid() && sink.tokens == old(sink.tokens) + BitTokens(bits)
    {
      var i := 0;
      while i < |bits|
        invariant 0 <= i <= |bits| && sink.Valid()
        invariant sink.tokens + BitTokens(bits[i..]) == old(sink.tokens) + BitTokens(bits)
      {
        OneBit(sink.tokens, bits, i);
        var ok := sink.EmitBits(bits[i], 1);
        i := i + 1;
      }
    }

    /** The symbol for n ends of block, and the bits that say how many more than a power of two. */
    method EmitCount(n: nat) returns (ok: bool)
      requires sink.Valid() && 0 < n <= MAX_EOBRUN && bd.tbl < sink.numTables
      modifies sink`counts, sink`tokens, sink.w
      ensures ok ==> sink.Valid() && sink.tokens == old(sink.tokens) + EobTokens(bd.tbl, n)
      ensures !ok ==> sink.Fails(EobTokens(bd.tbl, n))
    {
      var temp, nbits := n, 0;
      while temp / 2 != 0
        invariant temp > 0 && nbits + Size(temp) == Size(n)
        decreases temp
      {
        temp := temp / 2;
        nbits := nbits + 1;
      }
      EobSize(n);
      ok := nbits <= 14;
      if ok {
        ok := sink.EmitSymbol(bd.tbl, nbits * 16);
        if !ok {
          LacksInside(sink.ts, [], [Sym(bd.tbl, EobSymbol(n))],
              if Size(n) == 1 then [] else [Raw(Low(n, Size(n) - 1))]);
        } else if nbits != 0 {
          var done := sink.EmitBits(n, nbits);
          EobParts(old(sink.tokens), bd.tbl, n);
        }
      }
    }

    /** The count and the buffered bits of the pending run. */
    method EmitPending() returns (ok: bool)
      requires Consistent() && eobrun > 0
      modifies sink`counts, sink`tokens, sink.w
      ensures ok ==> sink.Valid() && sink.tokens == old(sink.tokens) + RunOut(bd, p)
      ensures !ok ==> sink.Fails(RunOut(bd, p))
    {
      var e, b := EobTokens(bd.tbl, eobrun), BitTokens(bitBuffer);
      ok := EmitCount(eobrun);
      if ok {
        Assoc(old(sink.tokens), e, b);
        EmitBufferedBits(bitBuffer);
      } else {
        LacksInside(sink.ts, [], e, b);
      }
    }

    /** The part of emit_eobrun that is executed if there is a pending run. */
    method EmitRun() returns (ok: bool)
      requires Consistent() && eobrun > 0
      modifies this`eobrun, this`bitBuffer, this`p, sink`counts, sink`tokens, sink.w
      ensures ok ==> Invariant() && p == Flushed(old(p)) && eobrun == 0
      ensures !ok ==> sink.Fails(RunOut(bd, old(p)))
    {
      ghost var q := p;
      ok := EmitPending();
      if ok {
        Flushes(bd, q);
        Behind(front, Put(bd, q), RunOut(bd, q));
        p := Flushed(q);
        eobrun, bitBuffer := 0, [];
      }
    }

    /** emit_eobrun: the pending run and its correction bits go out. */
    method EmitEobrun() returns (ok: bool)
      requires Valid()
      modifies this`eobrun, this`bitBuffer, this`p, sink`counts, sink`tokens, sink.w
      ensures ok ==> Valid() && p == Flushed(old(p)) && eobrun == 0
      ensures !ok ==> sink.Fails(RunOut(bd, old(p)))
    {
      assert Unfolded(RunOutput, 0);
      Flushes(bd, p);
      ok := true;
      if eobrun > 0 {
        ok := EmitRun();
      }
    }

    /** A symbol of the current block. */
    method PutSymbol(s: Byte) returns (ok: bool)
      requires Valid() && p.open == []
      modifies this`partial, sink`counts, sink`tokens, sink.w
      ensures ok ==> Valid() && partial == old(partial) + [Sym(bd.tbl, s)]
      ensures !ok ==> sink.Fails([Sym(bd.tbl, s)])
    {
      assert Unfolded(RunOutput, 0);
      Assoc(front + Put(bd, p), partial, [Sym(bd.tbl, s)]);
      ok := sink.EmitSymbol(bd.tbl, s);
      partial := partial + [Sym(bd.tbl, s)];
    }

    /** Raw bits of the current block. */
    method PutBits(v: nat, n: nat)
      requires Valid() && p.open == [] && 0 < n <= 16
      modifies this`partial, sink`counts, sink`tokens, sink.w
      ensures Valid() && partial == old(partial) + [Raw(Low(v, n))]
    {
      assert Unfolded(RunOutput, 0);
      Assoc(front + Put(bd, p), partial, [Raw(Low(v, n))]);
      var ok := sink.EmitBits(v, n);
      partial := partial + [Raw(Low(v, n))];
    }

    /** Correction bits of the current block. */
    method PutBuffered(bits: Bits)
      requires Valid() && p.open == []
      modifies this`partial, sink`counts, sink`tokens, sink.w
      ensures Valid() && partial == old(partial) + BitTokens(bits)
    {
      assert Unfolded(RunOutput, 0);
      Assoc(front + Put(bd, p), partial, BitTokens(bits));
      EmitBufferedBits(bits);
      partial := partial + BitTokens(bits);
    }

    /** Since the block began at p0, the first symbol has pushed the pending run out. */
    ghost predicate InBlock(p0: Progress)
      reads this
    {
      p == if partial == [] then p0 else Flushed(p0)
    }

    /** The pending run goes out in front of a symbol of the block; afterwards nothing is pending. */
    method PushRun(ghost zz: seq<int>, ghost p0: Progress) returns (ok: bool)
      requires Valid() && InBlock(p0) && Sound(bd, p0) && GoodBand(bd, zz) && !Silent(bd, zz)
      modifies this`eobrun, this`bitBuffer, this`p, sink`counts, sink`tokens, sink.w
      ensures ok ==> Valid() && p == Flushed(p0) && p.open == []
      ensures !ok && FitBand(bd, zz) ==> sink.Fails(BlockOut(bd, p0, zz))
    {
      Flushes(bd, p0);
      Flushes(bd, Flushed(p0));
      ok := EmitEobrun();
      if !ok && FitBand(bd, zz) {
        LacksInside(sink.ts, [], RunOut(bd, p0), Coded(bd, zz));
      }
    }

    /** A symbol of the block has no code. */
    lemma SymbolFails(zz: seq<int>, p0: Progress, s: Byte, before: seq<Token>, after: seq<Token>)
      requires FitBand(bd, zz) && sink.Fails([Sym(bd.tbl, s)]) && before + ([Sym(bd.tbl, s)] + after) == Coded(bd, zz)
      ensures sink.Fails(BlockOut(bd, p0, zz))
    {
      Assoc(before, [Sym(bd.tbl, s)], after);
      LacksInside(sink.ts, before, [Sym(bd.tbl, s)], after);
      LacksInside(sink.ts, if Silent(bd, zz) then [] else RunOut(bd, p0), Coded(bd, zz), []);
    }

    // ---- AC refinement

    /** The absolute values' last 1: the last coefficient that becomes nonzero. */
    method FindLastNew(zz: seq<int>) returns (eob: nat)
      requires GoodBand(bd, zz)
      ensures eob == LastNew(zz, bd.ss, bd.se)
    {
      eob := 0;
      var k := bd.ss;
      while k <= bd.se
        invariant bd.ss <= k <= bd.se + 1 && eob == LastNew(zz, bd.ss, k - 1)
      {
        if Abs(zz[k]) == 1 {
          eob := k;
        }
        k := k + 1;
      }
    }

    /** The encoder stands at coefficient k, with r zeros and the bits br not accounted for. */
    ghost predicate Refines(zz: seq<int>, eob: nat, k: nat, r: nat, br: Bits, p0: Progress)
      reads this
    {
      && bd.refine && FitBand(bd, zz) && eob == BandEnd(bd, zz) && bd.ss <= k <= bd.se + 1
      && partial + RefineTokens(bd.tbl, zz, eob, k, r, br) == Coded(bd, zz)
      && InBlock(p0) && Sound(bd, p0)
      && |br| <= k - bd.ss
      && (k > eob ==> r + |br| <= k && br == Corrections(zz, if eob < bd.ss then bd.ss else eob + 1, k)
                      && (r > 0 || |br| > 0 <==> k > (if eob < bd.ss then bd.ss else eob + 1)))
    }

    /** (folded) */
    ghost predicate Refining(zz: seq<int>, eob: nat, k: nat, r: nat, br: Bits, p0: Progress)
      reads this
    {
      forall n: nat {:trigger Unfolded(RefineOutput, n)} :: Unfolded(RefineOutput, n) ==> Refines(zz, eob, k, r, br, p0)
    }

    /** In front of a symbol: what is out, what follows it, and that nothing is pending. */
    ghost predicate Pushed(zz: seq<int>, p0: Progress, ahead: seq<Token>)
      reads this
    {
      FitBand(bd, zz) && p == Flushed(p0) && p.open == [] && partial + ahead == Coded(bd, zz)
    }

    method PushForRefine(ghost zz: seq<int>, ghost eob: nat, ghost k: nat, ghost r: nat, ghost br: Bits,
                         ghost p0: Progress)
      returns (ok: bool)
      requires Valid() && Refining(zz, eob, k, r, br, p0) && FitBand(bd, zz) && k <= eob < |zz|
      modifies this`eobrun, this`bitBuffer, this`p, sink`counts, sink`tokens, sink.w
      ensures ok ==> Valid() && Pushed(zz, p0, RefineTokens(bd.tbl, zz, eob, k, r, br))
      ensures !ok ==> sink.Fails(BlockOut(bd, p0, zz))
    {
      assert Unfolded(RefineOutput, 0);
      ok := PushRun(zz, p0);
    }

    /** The symbols for sixteen zeros that are due before coefficient k. */
    method EmitZrls(zz: seq<int>, eob: nat, k: nat, r0: nat, br0: Bits, ghost p0: Progress)
      returns (ok: bool, r: nat, br: Bits)
      requires Valid() && Refining(zz, eob, k, r0, br0, p0) && FitBand(bd, zz) && k <= bd.se && zz[k] != 0
      modifies this`eobrun, this`bitBuffer, this`p, this`partial, sink`counts, sink`tokens, sink.w
      ensures ok ==> Valid() && Refining(zz, eob, k, r, br, p0) && (k <= eob ==> r <= 15)
      ensures !ok ==> sink.Fails(BlockOut(bd, p0, zz))
    {
      ok, r, br := true, r0, br0;
      while ok && r > 15 && k <= eob
        invariant ok ==> Valid() && Refining(zz, eob, k, r, br, p0)
        invariant !ok ==> sink.Fails(BlockOut(bd, p0, zz))
        decreases r, ok
      {
        ok, r, br := EmitZrl(zz, eob, k, r, br, p0);
      }
    }

    method EmitZrl(zz: seq<int>, eob: nat, k: nat, r0: nat, br0: Bits, ghost p0: Progress)
      returns (ok: bool, r: nat, br: Bits)
      requires Valid() && Refining(zz, eob, k, r0, br0, p0) && FitBand(bd, zz) && k <= bd.se && zz[k] != 0
      requires r0 > 15 && k <= eob
      modifies this`eobrun, this`bitBuffer, this`p, this`partial, sink`counts, sink`tokens, sink.w
      ensures r < r0
      ensures ok ==> Valid() && Refining(zz, eob, k, r, br, p0)
      ensures !ok ==> sink.Fails(BlockOut(bd, p0, zz))
    {
      RefiningIs(zz, eob, k, r0, br0, p0);
      r, br := r0 - 16, [];
      ok := PushForRefine(zz, eob, k, r0, br0, p0);
      if ok {
        ghost var was, later := partial, BitTokens(br0) + RefineTokens(bd.tbl, zz, eob, k, r, br);
        ZrlFirst(bd.tbl, zz, eob, k, r, br0);
        ok := PutSymbol(ZRL);
        if ok {
          PutBuffered(br0);
          ThreeParts(was, [Sym(bd.tbl, ZRL)], BitTokens(br0), RefineTokens(bd.tbl, zz, eob, k, r, br));
        } else {
          SymbolFails(zz, p0, ZRL, was, later);
        }
      }
    }

    lemma RefiningIs(zz: seq<int>, eob: nat, k: nat, r: nat, br: Bits, p0: Progress)
      requires Refining(zz, eob, k, r, br, p0)
      ensures bd.refine && FitBand(bd, zz) && eob == BandEnd(bd, zz) && bd.ss <= k <= bd.se + 1 && Sound(bd, p0)
    {
      assert Unfolded(RefineOutput, 0);
    }

    /** A coefficient that becomes nonzero. */
    method EmitNew(zz: seq<int>, eob: nat, k: nat, r: nat, br: Bits, ghost p0: Progress) returns (ok: bool)
      requires Valid() && Refining(zz, eob, k, r, br, p0) && FitBand(bd, zz) && k <= bd.se && Abs(zz[k]) == 1
      requires r <= 15 && k <= eob
      modifies this`eobrun, this`bitBuffer, this`p, this`partial, sink`counts, sink`tokens, sink.w
      ensures ok ==> Valid() && Refining(zz, eob, k + 1, 0, [], p0)
      ensures !ok ==> sink.Fails(BlockOut(bd, p0, zz))
    {
      RefiningIs(zz, eob, k, r, br, p0);
      ok := PushForRefine(zz, eob, k, r, br, p0);
      if ok {
        ghost var was := partial;
        NewFirst(bd.tbl, zz, eob, k, r, br);
        ok := PutSymbol(r * 16 + 1);
        if ok {
          PutBits(if zz[k] < 0 then 0 else 1, 1);
          PutBuffered(br);
          NewParts(was, bd.tbl, zz, eob, k, r, br);
        } else {
          SymbolFails(zz, p0, r * 16 + 1, was,
                      [SignToken(zz[k])] + BitTokens(br) + RefineTokens(bd.tbl, zz, eob, k + 1, 0, []));
        }
      }
    }

    /** One coefficient of the band. */
    method RefineStep(zz: seq<int>, eob: nat, k: nat, r0: nat, br0: Bits, ghost p0: Progress)
      returns (ok: bool, r: nat, br: Bits)
      requires Valid() && Refining(zz, eob, k, r0, br0, p0) && FitBand(bd, zz) && k <= bd.se
      modifies this`eobrun, this`bitBuffer, this`p, this`partial, sink`counts, sink`tokens, sink.w
      ensures ok ==> Valid() && Refining(zz, eob, k + 1, r, br, p0)
      ensures !ok ==> sink.Fails(BlockOut(bd, p0, zz))
    {
      ok, r, br := true, r0, br0;
      if zz[k] == 0 {
        r := r + 1;
        StillZero(zz, eob, k, r0, br0, p0);
      } else {
        ok, r, br := EmitZrls(zz, eob, k, r, br, p0);
        if ok {
          if Abs(zz[k]) > 1 {
            OneCorrection(zz, eob, k, r, br, p0);
            br := br + [Abs(zz[k]) % 2];
          } else {
            NewIsBeforeEob(zz, eob, k, r, br, p0);
            ok := EmitNew(zz, eob, k, r, br, p0);
            r, br := 0, [];
          }
        }
      }
    }

    lemma StillZero(zz: seq<int>, eob: nat, k: nat, r: nat, br: Bits, p0: Progress)
      requires Refining(zz, eob, k, r, br, p0) && k <= bd.se < |zz| && zz[k] == 0
      ensures Refining(zz, eob, k + 1, r + 1, br, p0)
    {
      assert Unfolded(RefineOutput, 0);
    }

    lemma OneCorrection(zz: seq<int>, eob: nat, k: nat, r: nat, br: Bits, p0: Progress)
      requires Refining(zz, eob, k, r, br, p0) && k <= bd.se < |zz| && Abs(zz[k]) > 1 && (k <= eob ==> r <= 15)
      ensures Refining(zz, eob, k + 1, r, br + [Abs(zz[k]) % 2], p0)
    {
      assert Unfolded(RefineOutput, 0);
    }

    lemma NewIsBeforeEob(zz: seq<int>, eob: nat, k: nat, r: nat, br: Bits, p0: Progress)
      requires Refining(zz, eob, k, r, br, p0) && k <= bd.se < |zz| && Abs(zz[k]) == 1
      ensures k <= eob
    {
      assert Unfolded(RefineOutput, 0);
      NewIsNotAfterLast(zz, bd.ss, bd.se, k);
    }

    lemma RefineStart(zz: seq<int>, eob: nat)
      requires bd.refine && FitBand(bd, zz) && eob == BandEnd(bd, zz) && partial == [] && Sound(bd, p)
      ensures Refining(zz, eob, bd.ss, 0, [], p)
    {
      assert [] + Coded(bd, zz) == Coded(bd, zz);
    }

    /** Behind the last coefficient: the symbols are out, and what is left is an end of block. */
    lemma RefineDone(zz: seq<int>, eob: nat, r: nat, br: Bits, p0: Progress)
      requires Refining(zz, eob, bd.se + 1, r, br, p0)
      ensures FitBand(bd, zz) && partial == Coded(bd, zz) && InBlock(p0)
      ensures r > 0 || |br| > 0 <==> HasEob(bd, zz)
      ensures HasEob(bd, zz) ==> br == TailBits(bd, zz)
      ensures |br| <= DCTSIZE2 - 1
    {
      assert Unfolded(RefineOutput, 0);
      assert partial + [] == partial;
    }

    // ---- The end of a block

    /** What is in front of the end of block decides where the block began. */
    lemma BlockBegan(zz: seq<int>, p0: Progress)
      requires FitBand(bd, zz) && partial == Coded(bd, zz) && InBlock(p0)
      ensures p == if Silent(bd, zz) then p0 else Flushed(p0)
    {
      CodedIsSymbols(bd, zz);
    }

    /** The end of a block is counted. */
    method CountEob(zz: seq<int>, br: Bits, eob: bool)
      requires Invariant() && FitBand(bd, zz) && partial == Coded(bd, zz) && eob == HasEob(bd, zz)
      requires eob ==> br == TailBits(bd, zz) && |br| <= DCTSIZE2 - 1
      modifies this`eobrun, this`bitBuffer, this`p, this`partial
      ensures Consistent() && p == Joined(bd, old(p), zz) && partial == [] && (eob ==> eobrun > 0)
      ensures !eob ==> !Overfull(bd, p)
    {
      CodedIsSymbols(bd, zz);
      Joins(bd, p, zz);
      Behind(front, Put(bd, p), partial);
      p, partial := Joined(bd, p, zz), [];
      if eob {
        eobrun := eobrun + 1;
        bitBuffer := bitBuffer + br;
      }
    }

    /** Counts the end of the block; the run is forced out before anything can overflow. */
    method EndBlock(zz: seq<int>, br: Bits, eob: bool) returns (ok: bool)
      requires Valid() && FitBand(bd, zz) && partial == Coded(bd, zz) && eob == HasEob(bd, zz)
      requires eob ==> br == TailBits(bd, zz) && |br| <= DCTSIZE2 - 1
      modifies this`eobrun, this`bitBuffer, this`p, this`partial, sink`counts, sink`tokens, sink.w
      ensures ok ==> Valid() && partial == []
      ensures ok ==> p == var q := Joined(bd, old(p), zz); if Overfull(bd, q) then Flushed(q) else q
      ensures !ok ==> sink.Fails(OverflowOut(bd, Joined(bd, old(p), zz)))
    {
      assert Unfolded(RunOutput, 0);
      CountEob(zz, br, eob);
      ok := true;
      if eob && (eobrun == MAX_EOBRUN || |bitBuffer| > MAX_CORR_BITS - DCTSIZE2 + 1) {
        ok := EmitRun();
      }
    }

    /** encode_mcu_AC_refine: the values zz are those after the point transform. */
    method EncodeRefine(zz: seq<int>) returns (ok: bool)
      requires Valid() && partial == [] && bd.refine && GoodBand(bd, zz)
      modifies this`eobrun, this`bitBuffer, this`p, this`partial, sink`counts, sink`tokens, sink.w
      ensures ok ==> Valid() && partial == [] && p == Step(bd, old(p), zz)
      ensures !ok ==> sink.Fails(StepOut(bd, old(p), zz))
    {
      ghost var p0 := p;
      var eob := FindLastNew(zz);
      ValidIsSound();
      RefineStart(zz, eob);
      var r, br, k := 0, [], bd.ss;
      ok := true;
      while k <= bd.se && ok
        invariant k <= bd.se + 1
        invariant ok ==> Valid() && Refining(zz, eob, k, r, br, p0)
        invariant !ok ==> sink.Fails(BlockOut(bd, p0, zz))
        decreases bd.se + 1 - k, ok
      {
        ok, r, br := RefineStep(zz, eob, k, r, br, p0);
        k := k + 1;
      }
      if ok {
        RefineDone(zz, eob, r, br, p0);
        BlockBegan(zz, p0);
        ok := EndBlock(zz, br, r > 0 || |br| > 0);
      }
      if !ok {
        StepFails(zz, p0);
      }
    }

    lemma ValidIsSound()
      requires Valid()
      ensures Sound(bd, p)
    {
      assert Unfolded(RunOutput, 0);
    }

    lemma StepFails(zz: seq<int>, p0: Progress)
      requires FitBand(bd, zz)
      requires sink.Fails(BlockOut(bd, p0, zz))
               || sink.Fails(OverflowOut(bd, Joined(bd, if Silent(bd, zz) then p0 else Flushed(p0), zz)))
      ensures sink.Fails(StepOut(bd, p0, zz))
    {
      var o := OverflowOut(bd, Joined(bd, if Silent(bd, zz) then p0 else Flushed(p0), zz));
      if sink.Fails(o) {
        LacksInside(sink.ts, BlockOut(bd, p0, zz), o, []);
      } else {
        LacksInside(sink.ts, [], BlockOut(bd, p0, zz), o);
      }
    }

    // ---- AC coefficients sent for the first time

    /** The encoder stands at coefficient k, with r zeros not accounted for; all is well if the band fits. */
    ghost predicate Sends(zz: seq<int>, k: nat, r: nat, p0: Progress)
      reads this
    {
      && !bd.refine && GoodBand(bd, zz) && bd.ss <= k <= bd.se + 1 && SmallBand(zz, bd.ss, k - 1)
      && (SmallBand(zz, bd.ss, bd.se) ==> partial + AcTokens(bd.tbl, zz, BandEnd(bd, zz), k, r) == Coded(bd, zz))
      && InBlock(p0) && Sound(bd, p0)
      && (r > 0 <==> k > bd.ss && zz[k - 1] == 0)
    }

    /** (folded) */
    ghost predicate Sending(zz: seq<int>, k: nat, r: nat, p0: Progress)
      reads this
    {
      forall n: nat {:trigger Unfolded(FirstOutput, n)} :: Unfolded(FirstOutput, n) ==> Sends(zz, k, r, p0)
    }

    /** In front of a nonzero coefficient, when nothing is pending. */
    ghost predicate SendsSymbol(zz: seq<int>, k: nat, r: nat, p0: Progress)
      reads this
    {
      && !bd.refine && GoodBand(bd, zz) && bd.ss <= k <= bd.se && zz[k] != 0 && SmallBand(zz, bd.ss, k - 1)
      && k <= BandEnd(bd, zz) && p == Flushed(p0) && p.open == [] && Sound(bd, p0)
      && (SmallBand(zz, bd.ss, bd.se) ==> partial + AcTokens(bd.tbl, zz, BandEnd(bd, zz), k, r) == Coded(bd, zz))
    }

    /** The pending run goes out in front of a nonzero coefficient. */
    method PushForSend(ghost zz: seq<int>, ghost k: nat, ghost r: nat, ghost p0: Progress) returns (ok: bool)
      requires Valid() && Sending(zz, k, r, p0) && k <= bd.se < |zz| && zz[k] != 0
      modifies this`eobrun, this`bitBuffer, this`p, sink`counts, sink`tokens, sink.w
      ensures ok ==> Valid() && SendsSymbol(zz, k, r, p0)
      ensures !ok && FitBand(bd, zz) ==> sink.Fails(BlockOut(bd, p0, zz))
    {
      assert Unfolded(FirstOutput, 0);
      NonzeroIsNotAfterLast(zz, bd.ss, bd.se, k);
      ok := PushRun(zz, p0);
    }

    /** The symbols for sixteen zeros in front of a nonzero coefficient. */
    method SendZrls(zz: seq<int>, k: nat, r0: nat, ghost p0: Progress) returns (ok: bool, r: nat)
      requires Valid() && SendsSymbol(zz, k, r0, p0)
      modifies this`partial, sink`counts, sink`tokens, sink.w
      ensures ok ==> r <= 15 && Valid() && SendsSymbol(zz, k, r, p0)
      ensures !ok && FitBand(bd, zz) ==> sink.Fails(BlockOut(bd, p0, zz))
    {
      ok, r := true, r0;
      while r > 15 && ok
        invariant ok ==> Valid() && SendsSymbol(zz, k, r, p0)
        invariant !ok && FitBand(bd, zz) ==> sink.Fails(BlockOut(bd, p0, zz))
        decreases r, ok
      {
        ok := SendZrl(zz, k, r, p0);
        r := r - 16;
      }
    }

    method SendZrl(ghost zz: seq<int>, ghost k: nat, ghost r: nat, ghost p0: Progress) returns (ok: bool)
      requires Valid() && SendsSymbol(zz, k, r, p0) && r > 15
      modifies this`partial, sink`counts, sink`tokens, sink.w
      ensures ok ==> Valid() && SendsSymbol(zz, k, r - 16, p0)
      ensures !ok && FitBand(bd, zz) ==> sink.Fails(BlockOut(bd, p0, zz))
    {
      ghost var was := partial;
      ok := PutSymbol(ZRL);
      if FitBand(bd, zz) {
        var later := AcTokens(bd.tbl, zz, BandEnd(bd, zz), k, r - 16);
        Assoc(was, [Sym(bd.tbl, ZRL)], later);
        if !ok {
          SymbolFails(zz, p0, ZRL, was, later);
        }
      }
    }

    /** A nonzero coefficient: run length and size, then its bits. */
    method SendCoef(zz: seq<int>, k: nat, r: nat, ghost p0: Progress) returns (ok: bool)
      requires Valid() && SendsSymbol(zz, k, r, p0) && r <= 15
      modifies this`partial, sink`counts, sink`tokens, sink.w
      ensures ok ==> Valid() && Sending(zz, k + 1, 0, p0)
      ensures !ok && FitBand(bd, zz) ==> sink.Fails(BlockOut(bd, p0, zz))
    {
      var nbits := NumBits(Abs(zz[k]));
      SizeBound(Abs(zz[k]));
      ok := nbits <= MAX_COEF_BITS;
      if ok {
        ok := SendValue(zz, k, r, nbits, p0);
      }
    }

    method SendValue(zz: seq<int>, k: nat, r: nat, nbits: nat, ghost p0: Progress) returns (ok: bool)
      requires Valid() && SendsSymbol(zz, k, r, p0) && r <= 15 && 0 < nbits == Size(Abs(zz[k])) <= MAX_COEF_BITS
      modifies this`partial, sink`counts, sink`tokens, sink.w
      ensures ok ==> Valid() && Sending(zz, k + 1, 0, p0)
      ensures !ok && FitBand(bd, zz) ==> sink.Fails(BlockOut(bd, p0, zz))
    {
      ghost var was := partial;
      ExtendsBack(zz[k]);
      ok := PutSymbol(RunSize(r, zz[k]));
      if ok {
        PutBits(ExtraValue(zz[k]), nbits);
        ValueSent(zz, k, r, p0, was);
      } else if FitBand(bd, zz) {
        CoefParts(was, bd.tbl, zz, BandEnd(bd, zz), k, r);
        SymbolFails(zz, p0, RunSize(r, zz[k]), was,
                    [Raw(Extra(zz[k]))] + AcTokens(bd.tbl, zz, BandEnd(bd, zz), k + 1, 0));
      }
    }

    lemma ValueSent(zz: seq<int>, k: nat, r: nat, p0: Progress, was: seq<Token>)
      requires !bd.refine && GoodBand(bd, zz) && bd.ss <= k <= bd.se && zz[k] != 0 && SmallBand(zz, bd.ss, k - 1)
      requires k <= BandEnd(bd, zz) && p == Flushed(p0) && Sound(bd, p0) && r <= 15 && Size(Abs(zz[k])) <= MAX_COEF_BITS
      requires SmallBand(zz, bd.ss, bd.se) ==> was + AcTokens(bd.tbl, zz, BandEnd(bd, zz), k, r) == Coded(bd, zz)
      requires partial == was + [Sym(bd.tbl, RunSize(r, zz[k]))] + [Raw(Extra(zz[k]))]
      ensures Sending(zz, k + 1, 0, p0)
    {
      if SmallBand(zz, bd.ss, bd.se) {
        CoefParts(was, bd.tbl, zz, BandEnd(bd, zz), k, r);
      }
    }

    method SendStep(zz: seq<int>, k: nat, r0: nat, ghost p0: Progress) returns (ok: bool, r: nat)
      requires Valid() && Sending(zz, k, r0, p0) && k <= bd.se < |zz|
      modifies this`eobrun, this`bitBuffer, this`p, this`partial, sink`counts, sink`tokens, sink.w
      ensures ok ==> Valid() && Sending(zz, k + 1, r, p0)
      ensures !ok && FitBand(bd, zz) ==> sink.Fails(BlockOut(bd, p0, zz))
    {
      ok, r := true, r0;
      if zz[k] == 0 {
        r := r + 1;
        AnotherZero(zz, k, r0, p0);
      } else {
        ok := PushForSend(zz, k, r, p0);
        if ok {
          ok, r := SendZrls(zz, k, r, p0);
          if ok {
            ok := SendCoef(zz, k, r, p0);
            r := 0;
          }
        }
      }
    }

    lemma AnotherZero(zz: seq<int>, k: nat, r: nat, p0: Progress)
      requires Sending(zz, k, r, p0) && k <= bd.se < |zz| && zz[k] == 0
      ensures Sending(zz, k + 1, r + 1, p0)
    {
      assert Unfolded(FirstOutput, 0);
      LastIsNonzero(zz, bd.ss, bd.se);
    }

    lemma SendStart(zz: seq<int>)
      requires !bd.refine && GoodBand(bd, zz) && partial == [] && Sound(bd, p)
      ensures Sending(zz, bd.ss, 0, p)
    {
      if SmallBand(zz, bd.ss, bd.se) {
        assert [] + Coded(bd, zz) == Coded(bd, zz);
      }
    }

    lemma SendDone(zz: seq<int>, r: nat, p0: Progress)
      requires Sending(zz, bd.se + 1, r, p0)
      ensures FitBand(bd, zz) && partial == Coded(bd, zz) && InBlock(p0)
      ensures (r > 0 <==> HasEob(bd, zz)) && TailBits(bd, zz) == []
    {
      assert Unfolded(FirstOutput, 0);
      assert partial + [] == partial;
      LastIsNonzero(zz, bd.ss, bd.se);
    }

    /** encode_mcu_AC_first, on the values after the point transform. */
    method EncodeFirst(zz: seq<int>) returns (ok: bool)
      requires Valid() && partial == [] && !bd.refine && GoodBand(bd, zz)
      modifies this`eobrun, this`bitBuffer, this`p, this`partial, sink`counts, sink`tokens, sink.w
      ensures ok ==> Valid() && partial == [] && FitBand(bd, zz) && p == Step(bd, old(p), zz)
      ensures !ok && FitBand(bd, zz) ==> sink.Fails(StepOut(bd, old(p), zz))
    {
      ghost var p0 := p;
      ValidIsSound();
      SendStart(zz);
      var r, k := 0, bd.ss;
      ok := true;
      while k <= bd.se && ok
        invariant bd.ss <= k <= bd.se + 1
        invariant ok ==> Valid() && Sending(zz, k, r, p0)
        invariant !ok && FitBand(bd, zz) ==> sink.Fails(BlockOut(bd, p0, zz))
        decreases bd.se + 1 - k, ok
      {
        ok, r := SendStep(zz, k, r, p0);
        k := k + 1;
      }
      if ok {
        SendDone(zz, r, p0);
        BlockBegan(zz, p0);
        ok := EndBlock(zz, [], r > 0);
      }
      if !ok && FitBand(bd, zz) {
        StepFails(zz, p0);
      }
    }
  }
}
