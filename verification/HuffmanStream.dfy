/** Streams of Huffman symbols and raw bits: what the entropy coders write and read. */
module HuffmanStream {
  import opened Numbers
  import opened BitStrings
  import opened HuffmanTable
  import opened HuffmanBuilder
  import opened HuffmanDecoder
  import opened BitWriter
  import opened BitReader
  import opened ByteStuffing
  import opened IntervalCoder

  /** A symbol of table tbl, or bits that follow it. */
  datatype Token = Sym(tbl: nat, s: Byte) | Raw(bits: Bits)

  type Tables = seq<HuffTable>

  predicate GoodTables(ts: Tables) {
    forall i :: 0 <= i < |ts| ==> GoodShape(ts[i]) && Legal(ts[i].bits)
  }

  /** Where symbol s is listed, from index p on; the number of codes if it is not. */
  function Find(t: HuffTable, s: Byte, p: nat): (q: nat)
    requires GoodShape(t) && p <= Offset(t.bits, 17) <= 256
    ensures p <= q <= Offset(t.bits, 17) && (q < Offset(t.bits, 17) ==> t.huffval[q] == s)
    decreases Offset(t.bits, 17) - p
  {
    if p == Offset(t.bits, 17) || t.huffval[p] == s then p else Find(t, s, p + 1)
  }

  lemma {:induction false} FindsFirst(t: HuffTable, s: Byte, p: nat, q: nat)
    requires GoodShape(t) && p <= q < Offset(t.bits, 17) <= 256 && t.huffval[q] == s
    ensures Find(t, s, p) <= q
    decreases q - p
  {
    if p < q && t.huffval[p] != s {
      FindsFirst(t, s, p + 1, q);
    }
  }

  predicate HasCode(ts: Tables, tbl: nat, s: Byte)
    requires GoodTables(ts)
  {
    tbl < |ts| && Find(ts[tbl], s, 0) < Offset(ts[tbl].bits, 17)
  }

  function TokenBits(ts: Tables, k: Token): Bits
    requires GoodTables(ts)
  {
    match k
    case Raw(bits) => bits
    case Sym(tbl, s) => if HasCode(ts, tbl, s) then CodeBits(ts[tbl], Find(ts[tbl], s, 0)) else []
  }

  predicate TokenCoded(ts: Tables, k: Token)
    requires GoodTables(ts)
  {
    k.Sym? ==> HasCode(ts, k.tbl, k.s)
  }

  function StreamBits(ts: Tables, ks: seq<Token>): Bits
    requires GoodTables(ts)
  {
    if ks == [] then [] else TokenBits(ts, ks[0]) + StreamBits(ts, ks[1..])
  }

  /** Every symbol has a code. */
  predicate AllCoded(ts: Tables, ks: seq<Token>)
    requires GoodTables(ts)
  {
    ks != [] ==> TokenCoded(ts, ks[0]) && AllCoded(ts, ks[1..])
  }

  lemma {:induction false} StreamConcat(ts: Tables, ks: seq<Token>, ls: seq<Token>)
    requires GoodTables(ts)
    ensures StreamBits(ts, ks + ls) == StreamBits(ts, ks) + StreamBits(ts, ls)
    ensures AllCoded(ts, ks + ls) <==> AllCoded(ts, ks) && AllCoded(ts, ls)
    decreases |ks|
  {
    if ks == [] {
      assert ks + ls == ls;
      assert [] + StreamBits(ts, ls) == StreamBits(ts, ls);
    } else {
      assert (ks + ls)[1..] == ks[1..] + ls;
      StreamConcat(ts, ks[1..], ls);
      Assoc(TokenBits(ts, ks[0]), StreamBits(ts, ks[1..]), StreamBits(ts, ls));
    }
  }

  lemma StreamOne(ts: Tables, k: Token)
    requires GoodTables(ts)
    ensures StreamBits(ts, [k]) == TokenBits(ts, k) && (AllCoded(ts, [k]) <==> TokenCoded(ts, k))
  {
    assert [k][1..] == [];
    assert StreamBits(ts, [k]) == TokenBits(ts, k) + [];
  }

  /** Some symbol has no code. */
  ghost predicate Lacks(ts: Tables, ks: seq<Token>) {
    GoodTables(ts) && !AllCoded(ts, ks)
  }

  lemma LacksInside(ts: Tables, a: seq<Token>, b: seq<Token>, c: seq<Token>)
    requires Lacks(ts, b)
    ensures Lacks(ts, a + b) && Lacks(ts, b + c) && Lacks(ts, a + b + c)
  {
    StreamConcat(ts, a, b);
    StreamConcat(ts, b, c);
    StreamConcat(ts, a + b, c);
  }

  /** How often symbol s of table tbl occurs. */
  function Count(ks: seq<Token>, tbl: nat, s: Byte): nat {
    if ks == [] then 0
    else Count(ks[..|ks| - 1], tbl, s) + if ks[|ks| - 1] == Sym(tbl, s) then 1 else 0
  }

  /** Tables in which every symbol that occurs has a code are enough. */
  lemma {:induction false} CountedIsCoded(ts: Tables, ks: seq<Token>)
    requires GoodTables(ts)
    requires forall tbl, s :: Count(ks, tbl, s) > 0 ==> HasCode(ts, tbl, s)
    ensures AllCoded(ts, ks)
    decreases |ks|
  {
    if ks != [] {
      var init, k := ks[..|ks| - 1], ks[|ks| - 1];
      CountedIsCoded(ts, init);
      StreamConcat(ts, init, [k]);
      StreamOne(ts, k);
      assert ks == init + [k];
      if k.Sym? {
        assert Count(ks, k.tbl, k.s) > 0;
      }
    }
  }

  // ---- Writing

  /** (folded) */
  ghost predicate EncodesTable(e: EncoderTable, t: HuffTable)
    requires GoodShape(t) && Legal(t.bits)
  {
    forall k: nat {:trigger Unfolded(EncoderCodes, k)} :: Unfolded(EncoderCodes, k) ==>
      (exists m: nat :: Encodable(t, m)) && Encodes(e, t, Offset(t.bits, 17))
  }

  lemma CodeOfSymbol(e: EncoderTable, t: HuffTable, s: Byte)
    requires GoodShape(t) && Legal(t.bits) && GoodEncoderTable(e) && EncodesTable(e, t)
    ensures e.size[s] != 0 ==>
              var p := Find(t, s, 0);
              p < Offset(t.bits, 17) && e.size[s] == SizeOf(t.bits, p) && e.code[s] == CodeOf(t.bits, p)
    ensures e.size[s] == 0 ==> Find(t, s, 0) == Offset(t.bits, 17)
  {
    assert Unfolded(EncoderCodes, 0);
    if e.size[s] != 0 {
      var p :| 0 <= p < Offset(t.bits, 17) && t.huffval[p] == s;
      FindsFirst(t, s, 0, p);
    }
  }

  type Counts = seq<seq<nat>>

  /** The counts are those of the symbols in ks. */
  ghost predicate CountsOf(counts: Counts, ks: seq<Token>) {
    && (forall i :: 0 <= i < |counts| ==> |counts[i]| == 257)
    && (forall i: nat, s: Byte :: i < |counts| ==> counts[i][s] == Count(ks, i, s))
    && (forall i: nat, s: Byte :: i >= |counts| ==> Count(ks, i, s) == 0)
  }

  lemma CountsSnoc(counts: Counts, ks: seq<Token>, k: Token, counts': Counts)
    requires CountsOf(counts, ks) && (k.Sym? ==> k.tbl < |counts|)
    requires counts' == if k.Sym? then counts[k.tbl := counts[k.tbl][k.s := counts[k.tbl][k.s] + 1]] else counts
    ensures CountsOf(counts', ks + [k])
  {
    assert (ks + [k])[..|ks|] == ks;
  }

  /** The bits written are those of the tokens ks. */
  ghost predicate Written(w: BitWriter, ts: Tables, ks: seq<Token>)
    reads w
  {
    GoodTables(ts) && w.Valid() && AllCoded(ts, ks) && w.Written() == StreamBits(ts, ks)
  }

  lemma StreamSnoc(ts: Tables, ks: seq<Token>, k: Token)
    requires GoodTables(ts) && AllCoded(ts, ks) && TokenCoded(ts, k)
    ensures AllCoded(ts, ks + [k]) && StreamBits(ts, ks + [k]) == StreamBits(ts, ks) + TokenBits(ts, k)
  {
    StreamConcat(ts, ks, [k]);
    StreamOne(ts, k);
  }

  /** What a sink has written in the interval that started behind `start`. */
  datatype Record = Record(start: seq<Byte>, tokens: seq<Token>, emitted: seq<Byte>, pending: Bits)

  /** Emits symbols and raw bits, or counts the symbols instead when statistics are gathered. */
  class HuffSink {
    const w: BitWriter
    const tables: seq<EncoderTable>
    const gather: bool
    const numTables: nat
    var counts: Counts

    ghost const ts: Tables
    ghost var start: seq<Byte>         // output before the interval
    ghost var tokens: seq<Token>

    ghost predicate Shapes() {
      && GoodTables(ts) && |tables| == |ts|
      && forall i :: 0 <= i < |ts| ==> GoodEncoderTable(tables[i]) && EncodesTable(tables[i], ts[i])
    }

    ghost predicate Invariant()
      reads this, w
    {
      if gather then |counts| == numTables && CountsOf(counts, tokens)
      else |tables| == numTables && Shapes() && Written(w, ts, tokens) && w.prefix == start
    }

    /** (folded) */
    ghost predicate Valid()
      reads this, w
    {
      forall k: nat {:trigger Unfolded(SinkState, k)} :: Unfolded(SinkState, k) ==> Invariant()
    }

    /** For the output of one restart interval. */
    constructor Output(writer: BitWriter, encoders: seq<EncoderTable>, ghost specs: Tables)
      requires GoodTables(specs) && |encoders| == |specs|
      requires forall i :: 0 <= i < |specs| ==> GoodEncoderTable(encoders[i]) && EncodesTable(encoders[i], specs[i])
      modifies writer
      ensures Valid() && !gather && tokens == [] && ts == specs && w == writer && numTables == |encoders|
      ensures start == old(writer.output) && writer.suspends == old(writer.suspends) && writer.free == old(writer.free)
    {
      w, tables, gather, numTables, counts := writer, encoders, false, |encoders|, [];
      ts, tokens, start := specs, [], writer.output;
      new;
      writer.Reset();
    }

    /** For a statistics pass over n tables. */
    constructor Gather(writer: BitWriter, n: nat)
      ensures Valid() && gather && tokens == [] && numTables == n && w == writer
    {
      w, tables, gather, numTables, counts := writer, [], true, n, seq(n, _ => seq(257, _ => 0));
      ts, tokens, start := [], [], [];
    }

    /** The end of an interval: the last byte is filled up with ones. */
    method Flush() returns (ghost pad: nat)
      requires Valid() && !gather
      modifies w
      ensures Shapes() && |tables| == numTables && AllCoded(ts, tokens) && pad < 8
      ensures w.output == start + Stuff(w.emitted) && BitsOf(w.emitted) == StreamBits(ts, tokens) + Ones(pad)
    {
      assert Unfolded(SinkState, 0);
      pad := w.FlushBits();
      assert Unfolded(BitOutput, 0);
    }

    /** Another interval begins behind what has been written. */
    method Begin()
      requires !gather && Shapes() && |tables| == numTables
      modifies this`start, this`tokens, w
      ensures Valid() && tokens == [] && start == w.output == old(w.output)
      ensures w.suspends == old(w.suspends) && w.free == old(w.free)
    {
      start, tokens := w.output, [];
      w.Reset();
    }

    /** The tables in use cannot code these tokens. */
    ghost predicate Fails(ks: seq<Token>) {
      !gather && Lacks(ts, ks)
    }

    /** emit_dc_symbol, emit_ac_symbol: a missing code is an error. */
    method EmitSymbol(tbl: nat, s: Byte) returns (ok: bool)
      requires Valid() && tbl < numTables
      modifies this`counts, this`tokens, w
      ensures ok ==> Valid() && tokens == old(tokens) + [Sym(tbl, s)]
      ensures !ok ==> Fails([Sym(tbl, s)])
    {
      assert Unfolded(SinkState, 0);
      if gather {
        CountsSnoc(counts, tokens, Sym(tbl, s), counts[tbl := counts[tbl][s := counts[tbl][s] + 1]]);
        counts := counts[tbl := counts[tbl][s := counts[tbl][s] + 1]];
        ok := true;
      } else {
        CodeOfSymbol(tables[tbl], ts[tbl], s);
        StreamOne(ts, Sym(tbl, s));
        ok := w.EmitBits(tables[tbl].code[s], tables[tbl].size[s]);
        if ok {
          StreamSnoc(ts, tokens, Sym(tbl, s));
        }
      }
      tokens := tokens + [Sym(tbl, s)];
    }

    /** emit_bits */
    method EmitBits(v: nat, n: nat) returns (ok: bool)
      requires Valid() && n <= 16
      modifies this`tokens, w
      ensures ok == (n > 0)
      ensures ok ==> Valid() && tokens == old(tokens) + [Raw(Low(v, n))]
    {
      assert Unfolded(SinkState, 0);
      ok := n > 0;
      if ok {
        if gather {
          CountsSnoc(counts, tokens, Raw(Low(v, n)), counts);
        } else {
          var done := w.EmitBits(v, n);
          StreamSnoc(ts, tokens, Raw(Low(v, n)));
        }
        tokens := tokens + [Raw(Low(v, n))];
      }
    }

    // ---- With a destination that may suspend

    /** Of these tokens, counted from the beginning of the interval, one has no code, or there is no room for all. */
    ghost predicate Stopped(r: Outcome, ks: seq<Token>)
      reads w
    {
      && (r.Error? ==> Lacks(ts, ks))
      && (r.Full? ==> GoodTables(ts) && w.StuckIn(StreamBits(ts, ks)))
    }

    lemma StoppedLater(r: Outcome, ks: seq<Token>, more: seq<Token>)
      requires Stopped(r, ks)
      ensures Stopped(r, ks + more)
    {
      if GoodTables(ts) {
        StreamConcat(ts, ks, more);
        WholePrefix(StreamBits(ts, ks), StreamBits(ts, ks + more));
        StuffPrefix(Whole(StreamBits(ts, ks)), Whole(StreamBits(ts, ks + more)));
      }
    }

    lemma SymbolBits(ks: seq<Token>, tbl: nat, s: Byte)
      requires Shapes() && AllCoded(ts, ks) && tbl < |tables|
      ensures tables[tbl].size[s] <= 16
      ensures tables[tbl].size[s] != 0 ==>
                && AllCoded(ts, ks + [Sym(tbl, s)])
                && StreamBits(ts, ks + [Sym(tbl, s)])
                   == StreamBits(ts, ks) + Low(tables[tbl].code[s], tables[tbl].size[s])
      ensures tables[tbl].size[s] == 0 ==> Lacks(ts, ks + [Sym(tbl, s)])
    {
      CodeOfSymbol(tables[tbl], ts[tbl], s);
      StreamOne(ts, Sym(tbl, s));
      StreamConcat(ts, ks, [Sym(tbl, s)]);
    }

    /** A symbol in a sequential scan. */
    method TrySymbol(tbl: nat, s: Byte) returns (r: Outcome)
      requires Valid() && !gather && w.HasRoom() && tbl < numTables
      modifies this`tokens, w
      ensures w.SameBuffer() && tokens == old(tokens) + [Sym(tbl, s)]
      ensures r.Done? ==> Valid() && w.HasRoom()
      ensures !r.Done? ==> Stopped(r, tokens)
    {
      assert Unfolded(SinkState, 0);
      SymbolBits(tokens, tbl, s);
      r := w.TryBits(tables[tbl].code[s], tables[tbl].size[s]);
      tokens := tokens + [Sym(tbl, s)];
    }

    /** Raw bits in a sequential scan. */
    method TryRaw(v: nat, n: nat) returns (r: Outcome)
      requires Valid() && !gather && w.HasRoom() && 0 < n <= 16
      modifies this`tokens, w
      ensures w.SameBuffer() && tokens == old(tokens) + [Raw(Low(v, n))]
      ensures r.Done? ==> Valid() && w.HasRoom()
      ensures !r.Done? ==> Stopped(r, tokens) && r.Full?
    {
      assert Unfolded(SinkState, 0);
      StreamSnoc(ts, tokens, Raw(Low(v, n)));
      r := w.TryBits(v, n);
      tokens := tokens + [Raw(Low(v, n))];
    }

    /** The end of an interval, if there is room for its last byte. */
    method TryFlush() returns (ok: bool, ghost pad: nat)
      requires Valid() && !gather && w.HasRoom()
      modifies w
      ensures Shapes() && |tables| == numTables && AllCoded(ts, tokens) && pad < 8 && w.SameBuffer()
      ensures ok ==> w.HasRoom() && w.output == start + Stuff(w.emitted)
      ensures ok ==> BitsOf(w.emitted) == StreamBits(ts, tokens) + Ones(pad)
      ensures !ok ==> w.StuckIn(StreamBits(ts, tokens) + Ones(7))
    {
      assert Unfolded(SinkState, 0);
      ok, pad := w.TryFlush();
      assert Unfolded(BitOutput, 0);
    }

    /** A state to which the sink can go back. */
    ghost predicate CanRestore(b: Buffer, rec: Record) {
      && !gather && |tables| == numTables && Shapes() && AllCoded(ts, rec.tokens)
      && WriterState(b.putBuffer, b.putBits, b.output, rec.start, rec.emitted, rec.pending)
      && BitsOf(rec.emitted) + rec.pending == StreamBits(ts, rec.tokens)
    }

    ghost function Here(): Record
      reads this, w
    {
      Record(start, tokens, w.emitted, w.pending)
    }

    lemma CanComeBack()
      requires Valid() && !gather
      ensures CanRestore(Buffer(w.putBuffer, w.putBits, w.output, w.free), Here())
    {
      assert Unfolded(SinkState, 0) && Unfolded(BitOutput, 0);
    }

    method Restore(b: Buffer, ghost rec: Record)
      requires CanRestore(b, rec)
      modifies this`tokens, this`start, w
      ensures Valid() && tokens == rec.tokens && start == rec.start && w.suspends == old(w.suspends)
      ensures b == Buffer(w.putBuffer, w.putBits, w.output, w.free)
    {
      w.Restore(b, rec.start, rec.emitted, rec.pending);
      tokens, start := rec.tokens, rec.start;
    }

    /** The application makes room. */
    method Drain(room: nat)
      requires Valid() && !gather
      modifies w`free, w`suspends
      ensures Valid() && w.HasRoom() && (w.suspends <==> room > 0 && old(w.suspends)) && w.free == room
    {
      assert Unfolded(SinkState, 0);
      w.Drain(room);
    }
  }

  // ---- Reading

  /** A writer's segment and the padding behind its last token. */
  datatype Script = Script(src: Source, pad: Bits)

  /** The token in front and what is behind it. */
  lemma StreamHead(ts: Tables, k: Token, rest: seq<Token>, pad: Bits)
    requires GoodTables(ts)
    ensures StreamBits(ts, [k] + rest) + pad == TokenBits(ts, k) + (StreamBits(ts, rest) + pad)
    ensures AllCoded(ts, [k] + rest) <==> TokenCoded(ts, k) && AllCoded(ts, rest)
  {
    StreamConcat(ts, [k], rest);
    StreamOne(ts, k);
    Assoc(TokenBits(ts, k), StreamBits(ts, rest), pad);
  }

  /** What is left of a segment, if it is known. */
  datatype Rest = Unused(bits: Bits) | Lost | Uncoded

  ghost function TokensAndPad(ts: Tables, ks: seq<Token>, pad: Bits): Rest {
    if GoodTables(ts) && AllCoded(ts, ks) then Unused(StreamBits(ts, ks) + pad) else Uncoded
  }

  class HuffSource {
    const r: BitReader
    const tables: seq<DecoderTable>
    ghost const ts: Tables

    ghost predicate Shapes() {
      && GoodTables(ts) && |tables| == |ts|
      && forall i :: 0 <= i < |ts| ==> Decodes(tables[i], ts[i])
    }

    ghost predicate Invariant()
      reads this, r
    {
      Shapes() && r.Valid()
    }

    /** (folded) */
    ghost predicate Valid()
      reads this, r
    {
      forall k: nat {:trigger Unfolded(SourceState, k)} :: Unfolded(SourceState, k) ==> Invariant()
    }

    /** The whole input has arrived. */
    predicate Complete()
      reads r
    {
      r.available == |r.input|
    }

    /** The bits of the writer's segment that have not been used. */
    ghost function Unread(src: Source): Rest
      reads r
    {
      if r.source == src && src.Known? && !r.insufficientData then Unused(r.Ahead()) else Lost
    }

    /** Of the writer's tokens exactly ks are ahead. */
    ghost predicate Faces(script: Script, ks: seq<Token>)
      reads r
    {
      Unread(script.src) == TokensAndPad(ts, ks, script.pad)
    }

    constructor (reader: BitReader, decoders: seq<DecoderTable>, ghost specs: Tables)
      requires reader.Valid() && GoodTables(specs) && |decoders| == |specs|
      requires forall i :: 0 <= i < |specs| ==> Decodes(decoders[i], specs[i])
      ensures Valid() && r == reader && ts == specs && tables == decoders
    {
      r, tables, ts := reader, decoders, specs;
    }

    /** HUFF_DECODE; s is the symbol that is known to be next. */
    method ReadSymbol(tbl: nat, ghost s: Byte, ghost tail: seq<Token>, ghost script: Script)
      returns (ok: bool, sym: Byte)
      requires Valid() && tbl < |tables|
      modifies r
      ensures r.Kept() && (if ok then Valid() else r.unreadMarker == 0)
      ensures old(Faces(script, [Sym(tbl, s)] + tail)) ==>
                (Complete() ==> ok) && (ok ==> sym == s && Faces(script, tail))
    {
      assert Unfolded(SourceState, 0);
      ghost var p, rest := 0, [];
      if Faces(script, [Sym(tbl, s)] + tail) {
        StreamHead(ts, Sym(tbl, s), tail, script.pad);
        p, rest := Find(ts[tbl], s, 0), StreamBits(ts, tail) + script.pad;
      }
      ok, sym := HuffDecode(r, tables[tbl], ts[tbl], p, rest);
    }

    /** CHECK_BIT_BUFFER and GET_BITS; `bits` are those that are known to be next. */
    method ReadBits(n: nat, ghost bits: Bits, ghost tail: seq<Token>, ghost script: Script)
      returns (ok: bool, v: nat)
      requires Valid() && n <= 16
      modifies r
      ensures r.Kept() && (if ok then Valid() else r.unreadMarker == 0)
      ensures v < Shl(1, n)
      ensures old(Faces(script, [Raw(bits)] + tail)) && |bits| == n ==>
                (Complete() ==> ok) && (ok ==> v == Value(bits) && Faces(script, tail))
    {
      assert Unfolded(SourceState, 0);
      ghost var want, rest := Low(0, n), [];
      if Faces(script, [Raw(bits)] + tail) && |bits| == n {
        StreamHead(ts, Raw(bits), tail, script.pad);
        want, rest := bits, StreamBits(ts, tail) + script.pad;
      }
      ok, v := r.GetBits(n, want, rest);
    }
  }
}
