/** Output of Huffman codes and raw bits: bit packing, zero stuffing and padding. */
module BitWriter {
  import opened Numbers
  import opened BitStrings
  import opened IntervalCoder
  import opened ByteStuffing

  /** The low 24 bits of the buffer are the pending bits, left-justified; those above are leftovers. */
  ghost predicate Holds(buf: nat, pending: Bits) {
    && buf < 0x1_0000_0000 && |pending| <= 24
    && buf % 0x100_0000 == Shl(Value(pending), 24 - |pending|)
  }

  /** code & ((1 << size) - 1) */
  function Mask(code: nat, size: nat): (m: nat)
    ensures m == Value(Low(code, size))
  {
    Value(Low(code, size))
  }

  lemma {:induction false} ShlMono(u: int, v: int, k: nat)
    requires u <= v
    ensures Shl(u, k) <= Shl(v, k)
  {
    ShlOrder(v, u, k);
  }

  /** Left-justified in 24 bits, a concatenation is a sum. */
  lemma LeftJustified(s: Bits, t: Bits)
    requires |s| + |t| <= 24
    ensures var k := 24 - |s| - |t|;
            && 0 <= Shl(Value(t), k) && Shl(Value(s + t), k) < 0x100_0000
            && Shl(Value(s), 24 - |s|) + Shl(Value(t), k) == Shl(Value(s + t), k)
  {
    var k := 24 - |s| - |t|;
    ShlZero(k);
    ShlMono(0, Value(t), k);
    ShlConcat(s, t, k);
    FitsIn24(s + t, k);
  }

  lemma ShlConcat(s: Bits, t: Bits, k: nat)
    ensures Shl(Value(s), |t| + k) + Shl(Value(t), k) == Shl(Value(s + t), k)
  {
    ValueConcat(s, t);
    ShlShl(Value(s), |t|, k);
    ShlAdd(Shl(Value(s), |t|), Value(t), k);
  }

  lemma FitsIn24(u: Bits, k: nat)
    requires |u| + k == 24
    ensures Shl(Value(u), k) < 0x100_0000
  {
    ValueBound(u);
    ShlShl(1, |u|, k);
    ShlOrder(Value(u), Shl(1, |u|), k);
    TwoToThe24();
  }

  lemma AddBelow(buf: nat, x: nat)
    requires buf < 0x1_0000_0000 && buf % 0x100_0000 + x < 0x100_0000
    ensures buf + x < 0x1_0000_0000 && (buf + x) % 0x100_0000 == buf % 0x100_0000 + x
  {
    var h := buf / 0x100_0000;
    assert buf + x == h * 0x100_0000 + (buf % 0x100_0000 + x);
  }

  /** The incoming bits fit below the pending ones, so that merging them is an addition. */
  lemma Merge(buf: nat, pending: Bits, more: Bits)
    requires Holds(buf, pending) && |pending| + |more| <= 24
    ensures var k := 24 - |pending| - |more|;
            Shl(Value(more), k) >= 0 && Holds(buf + Shl(Value(more), k), pending + more)
  {
    LeftJustified(pending, more);
    AddBelow(buf, Shl(Value(more), 24 - |pending| - |more|));
  }

  lemma TwoToThe24()
    ensures Shl(1, 24) == 0x100_0000
  {
    ShlShl(1, 8, 16);
    ShlTable(1);
    ShlTable(0x100);
  }

  /** (put_buffer >> 16) & 0xFF */
  function TopByte(buf: nat): Byte {
    buf / 0x10000 % 0x100
  }

  /** put_buffer <<= 8, in 32 bits */
  function ShiftLeft8(buf: nat): nat {
    buf * 0x100 % 0x1_0000_0000
  }

  /** The top byte of the buffer is the first eight pending bits; shifting left drops them. */
  lemma TakeByte(buf: nat, pending: Bits)
    requires Holds(buf, pending) && |pending| >= 8
    ensures TopByte(buf) == Value(pending[..8])
    ensures Holds(ShiftLeft8(buf), pending[8..])
  {
    var q, r := pending[..8], pending[8..];
    var k := 24 - |pending|;
    assert pending == q + r;
    ValueConcat(q, r);
    ShlShl(Value(q), |r|, k);
    ShlAdd(Shl(Value(q), |r|), Value(r), k);
    assert |r| + k == 16;
    ShlTable(Value(q));
    ValueBound(r);
    ValueBound(q);
    ShlTable(1);
    ShlShl(1, |r|, k);
    ShlOrder(Value(r), Shl(1, |r|), k);
    ShlZero(k);
    ShlMono(0, Value(r), k);
    var rest := Shl(Value(r), k);
    ShlShl(Value(r), k, 8);
    ShlTable(rest);
    SplitWord24(buf, Value(q), rest);
  }

  /** Written() does not change when a byte leaves the buffer. */
  lemma ByteLeaves(emitted: seq<Byte>, pending: Bits, c: Byte)
    requires |pending| >= 8 && c == Value(pending[..8])
    ensures BitsOf(emitted + [c]) + pending[8..] == BitsOf(emitted) + pending
  {
    var q, r := pending[..8], pending[8..];
    LowOfValue(q);
    BitsOfSnoc(emitted, c);
    Assoc(BitsOf(emitted), q, r);
    assert q + r == pending;
  }

  lemma SplitWord24(buf: nat, q: nat, rest: nat)
    requires buf < 0x1_0000_0000 && buf % 0x100_0000 == q * 0x10000 + rest && q < 0x100 && rest < 0x10000
    ensures buf / 0x10000 % 0x100 == q
    ensures buf * 0x100 % 0x1_0000_0000 % 0x100_0000 == rest * 0x100
  {
    var h := buf / 0x100_0000;
    assert buf == h * 0x100_0000 + q * 0x10000 + rest;
    assert buf / 0x10000 == h * 0x100 + q;
    assert buf * 0x100 == (h * 0x100_0000 + q * 0x10000) * 0x100 + rest * 0x100;
    var t := buf * 0x100 % 0x1_0000_0000;
    var g := buf * 0x100 / 0x1_0000_0000;
    assert buf * 0x100 == g * 0x1_0000_0000 + t;
    assert t == (h * 0x100 + q - g * 0x100) * 0x100_0000 + rest * 0x100;
  }

  lemma SevenOnes()
    ensures Low(0x7F, 7) == Ones(7)
  {
    assert Low(0, 0) == [];
    assert Low(1, 1) == [1];
    assert Low(3, 2) == [1, 1];
    assert Low(7, 3) == [1, 1, 1];
    assert Low(15, 4) == [1, 1, 1, 1];
    assert Low(31, 5) == [1, 1, 1, 1, 1];
  }

  /** Dropping the last bits of w + Ones(7) leaves some of the ones. */
  lemma DropTail(a: Bits, t: Bits, w: Bits, pad: nat)
    requires a + t == w + Ones(7) && |t| + pad == 7
    ensures a == w + Ones(pad)
  {
    assert |a| == |w| + pad;
    forall i | 0 <= i < |a| ensures a[i] == (w + Ones(pad))[i] {
      assert (a + t)[i] == (w + Ones(7))[i];
    }
  }

  /** How an attempt to write something ends: the bytes are out, it is an error, or there is no room for them. */
  datatype Outcome = Done | Error | Full

  /** The next byte to leave the buffer is one of those that the bits fill. */
  lemma NextWhole(emitted: seq<Byte>, pending: Bits, c: Byte)
    requires |pending| >= 8 && c == Value(pending[..8])
    ensures emitted + [c] <= Whole(BitsOf(emitted) + pending)
  {
    ByteLeaves(emitted, pending, c);
    var mine := BitsOf(emitted + [c]);
    assert mine + [] == mine;
    WholeOf(emitted + [c], []);
    WholePrefix(mine, mine + pending[8..]);
  }

  /** put_buffer and put_bits, and where the destination's buffer was. */
  datatype Buffer = Buffer(putBuffer: nat, putBits: nat, output: seq<Byte>, free: nat)

  /** What a writer knows between calls. */
  ghost predicate WriterState(buf: nat, n: nat, output: seq<Byte>, prefix: seq<Byte>, emitted: seq<Byte>, pending: Bits)
  {
    output == prefix + Stuff(emitted) && Holds(buf, pending) && |pending| == n < 8
  }

  class BitWriter {
    var putBuffer: nat
    var putBits: nat
    var output: seq<Byte>
    var suspends: bool             // whether the destination refuses to empty a full buffer
    var free: nat                  // free_in_buffer, as long as it does

    ghost var prefix: seq<Byte>    // output before the current segment
    ghost var emitted: seq<Byte>   // data bytes of this segment already written
    ghost var pending: Bits        // bits that do not fill a byte yet

    ghost predicate Invariant()
      reads this
    {
      WriterState(putBuffer, putBits, output, prefix, emitted, pending)
    }

    /** (folded) */
    ghost predicate Valid()
      reads this
    {
      forall k: nat {:trigger Unfolded(BitOutput, k)} :: Unfolded(BitOutput, k) ==> Invariant()
    }

    /** Everything written since the segment began. */
    ghost function Written(): Bits
      reads this
    {
      BitsOf(emitted) + pending
    }

    /** A destination that empties its buffer whenever it is full, or one that first has room for `room` bytes. */
    constructor (bytes: seq<Byte>, suspending: bool, room: nat)
      ensures output == bytes && suspends == suspending && free == room
    {
      putBuffer, putBits, output, suspends, free := 0, 0, bytes, suspending, room;
      prefix, emitted, pending := bytes, [], [];
    }

    /** start_pass, and the beginning of each restart interval. */
    method Reset()
      modifies this
      ensures Valid() && Written() == [] && prefix == output == old(output)
      ensures suspends == old(suspends) && free == old(free)
    {
      putBuffer, putBits := 0, 0;
      prefix, emitted, pending := output, [], [];
      ShlZero(24);
    }

    method EmitByte(val: Byte)
      modifies this`output
      ensures output == old(output) + [val]
    {
      output := output + [val];
    }

    /** A marker. */
    method EmitMarker(m: Byte)
      modifies this`output
      ensures output == old(output) + [0xFF, m]
    {
      EmitByte(0xFF);
      EmitByte(m);
    }

    /** A data byte and, if it is 0xFF, the zero that must follow it. */
    method EmitData(c: Byte)
      requires output == prefix + Stuff(emitted)
      modifies this`output, this`emitted
      ensures output == prefix + Stuff(emitted) && emitted == old(emitted) + [c]
    {
      StuffByte(emitted, c);
      EmitByte(c);
      if c == 0xFF {
        EmitByte(0);
      }
      emitted := emitted + [c];
    }

    /** Eight bits leave the buffer. */
    method ShiftOutByte()
      requires output == prefix + Stuff(emitted) && Holds(putBuffer, pending) && |pending| == putBits >= 8
      modifies this
      ensures output == prefix + Stuff(emitted) && Holds(putBuffer, pending) && |pending| == putBits == old(putBits) - 8
      ensures prefix == old(prefix) && Written() == old(Written())
    {
      TakeByte(putBuffer, pending);
      var c := TopByte(putBuffer);
      ByteLeaves(emitted, pending, c);
      EmitData(c);
      putBuffer := ShiftLeft8(putBuffer);
      putBits := putBits - 8;
      pending := pending[8..];
    }

    /** More bits go into the buffer, below those that are pending. */
    method PushBits(code: nat, size: nat)
      requires Holds(putBuffer, pending) && |pending| == putBits < 8 && 0 < size <= 16
      modifies this`putBits, this`putBuffer, this`pending
      ensures Holds(putBuffer, pending) && |pending| == putBits && Written() == old(Written()) + Low(code, size)
    {
      ghost var more := Low(code, size);
      Merge(putBuffer, pending, more);
      Assoc(BitsOf(emitted), pending, more);
      putBits := putBits + size;
      putBuffer := putBuffer + Shl(Mask(code, size), 24 - putBits);
      pending := pending + more;
    }

    /** emit_bits: the low `size` bits of code; a size of zero means a symbol without a code. */
    method EmitBits(code: nat, size: nat) returns (ok: bool)
      requires Valid() && size <= 16
      modifies this
      ensures ok == (size > 0) && Valid() && prefix == old(prefix)
      ensures Written() == old(Written()) + Low(code, size)
    {
      assert Unfolded(BitOutput, 0);
      ok := size > 0;
      if ok {
        ghost var more := Low(code, size);
        PushBits(code, size);
        while putBits >= 8
          invariant output == prefix + Stuff(emitted) && Holds(putBuffer, pending) && |pending| == putBits
          invariant prefix == old(prefix) && Written() == old(Written()) + more
        {
          ShiftOutByte();
        }
      }
    }

    /** flush_bits: fills up the last byte with ones. */
    method FlushBits() returns (ghost pad: nat)
      requires Valid()
      modifies this
      ensures Valid() && prefix == old(prefix) && pending == [] && pad < 8
      ensures BitsOf(emitted) == old(Written()) + Ones(pad)
    {
      var ok := EmitBits(0x7F, 7);
      assert Unfolded(BitOutput, 0);
      SevenOnes();
      ghost var w, k := old(Written()), putBits;
      pad := if k > 7 then 0 else 7 - k;
      DropTail(BitsOf(emitted), pending, w, pad);
      putBuffer, putBits := 0, 0;
      pending := [];
      ShlZero(24);
    }

    // ---- With a destination that may suspend

    /** Between calls there is always room for a byte. */
    predicate HasRoom()
      reads this
    {
      suspends ==> free > 0
    }

    /** Bytes that are out have taken up room. */
    twostate predicate SameBuffer()
      reads this
    {
      suspends == old(suspends) && prefix == old(prefix) && (suspends ==> |output| + free == old(|output| + free))
    }

    /** The buffer is full, and all that is in it is from the bytes that these bits fill. */
    ghost predicate StuckIn(bits: Bits)
      reads this
    {
      suspends && free == 0 && output <= prefix + Stuff(Whole(bits))
    }

    /** emit_byte_s */
    method TryByte(val: Byte) returns (ok: bool)
      requires HasRoom()
      modifies this`output, this`free
      ensures output == old(output) + [val] && SameBuffer() && ok == HasRoom()
    {
      output := output + [val];
      ok := true;
      if suspends {
        free := free - 1;
        ok := free != 0;
      }
    }

    /** A marker. */
    method TryMarker(m: Byte) returns (ok: bool)
      requires HasRoom()
      modifies this`output, this`free
      ensures SameBuffer() && output <= old(output) + [0xFF, m]
      ensures if ok then HasRoom() && output == old(output) + [0xFF, m] else suspends && free == 0
    {
      assert [0xFF, m] == [0xFF] + [m];
      ok := TryByte(0xFF);
      if ok {
        ok := TryByte(m);
      }
    }

    /** A data byte, with a zero behind 0xFF; the last byte of room is not used. */
    method TryData(c: Byte) returns (ok: bool)
      requires output == prefix + Stuff(emitted) && HasRoom()
      modifies this`output, this`free, this`emitted
      ensures SameBuffer()
      ensures ok ==> output == prefix + Stuff(emitted) && emitted == old(emitted) + [c] && HasRoom()
      ensures !ok ==> suspends && free == 0 && output <= prefix + Stuff(emitted + [c]) && emitted == old(emitted)
    {
      StuffByte(emitted, c);
      Assoc(prefix, Stuff(emitted), if c == 0xFF then [0xFF, 0] else [c]);
      ok := TryByte(c);
      if ok && c == 0xFF {
        Assoc(prefix + Stuff(emitted), [0xFF], [0]);
        ok := TryByte(0);
      }
      if ok {
        emitted := emitted + [c];
      }
    }

    lemma StuckHere(c: Byte)
      requires suspends && free == 0 && output <= prefix + Stuff(emitted + [c])
      requires |pending| >= 8 && c == Value(pending[..8])
      ensures StuckIn(Written())
    {
      NextWhole(emitted, pending, c);
      StuffPrefix(emitted + [c], Whole(Written()));
    }

    /** Eight bits leave the buffer. */
    method TryShiftOut() returns (ok: bool)
      requires output == prefix + Stuff(emitted) && Holds(putBuffer, pending) && |pending| == putBits >= 8
      requires HasRoom()
      modifies this
      ensures SameBuffer()
      ensures ok ==> output == prefix + Stuff(emitted) && Holds(putBuffer, pending)
                     && |pending| == putBits == old(putBits) - 8
      ensures ok ==> HasRoom() && Written() == old(Written())
      ensures !ok ==> StuckIn(old(Written())) && putBits == old(putBits)
    {
      TakeByte(putBuffer, pending);
      var c := TopByte(putBuffer);
      ByteLeaves(emitted, pending, c);
      ok := TryData(c);
      if ok {
        putBuffer := ShiftLeft8(putBuffer);
        putBits := putBits - 8;
        pending := pending[8..];
      } else {
        StuckHere(c);
      }
    }

    /** Whole bytes leave the buffer. */
    method TryShiftAll() returns (ok: bool)
      requires output == prefix + Stuff(emitted) && Holds(putBuffer, pending) && |pending| == putBits
      requires HasRoom()
      modifies this
      ensures SameBuffer()
      ensures ok ==> WriterState(putBuffer, putBits, output, prefix, emitted, pending)
      ensures ok ==> HasRoom() && Written() == old(Written())
      ensures !ok ==> StuckIn(old(Written()))
    {
      ok := true;
      while putBits >= 8 && ok
        invariant SameBuffer()
        invariant ok ==> output == prefix + Stuff(emitted) && Holds(putBuffer, pending) && |pending| == putBits
        invariant ok ==> HasRoom() && Written() == old(Written())
        invariant !ok ==> StuckIn(old(Written()))
        decreases putBits, ok
      {
        ok := TryShiftOut();
      }
    }

    /** emit_bits_s */
    method TryBits(code: nat, size: nat) returns (r: Outcome)
      requires Valid() && size <= 16 && HasRoom()
      modifies this
      ensures SameBuffer() && (r.Error? <==> size == 0)
      ensures r.Done? ==> Valid() && HasRoom() && Written() == old(Written()) + Low(code, size)
      ensures r.Full? ==> StuckIn(old(Written()) + Low(code, size))
    {
      assert Unfolded(BitOutput, 0);
      r := if size == 0 then Error else Done;
      if size != 0 {
        PushBits(code, size);
        var ok := TryShiftAll();
        r := if ok then Done else Full;
      }
    }

    /** flush_bits_s */
    method TryFlush() returns (ok: bool, ghost pad: nat)
      requires Valid() && HasRoom()
      modifies this
      ensures SameBuffer() && pad < 8
      ensures ok ==> Valid() && HasRoom() && pending == [] && BitsOf(emitted) == old(Written()) + Ones(pad)
      ensures !ok ==> StuckIn(old(Written()) + Ones(7))
    {
      pad := 0;
      SevenOnes();
      var r := TryBits(0x7F, 7);
      ok := r.Done?;
      if ok {
        assert Unfolded(BitOutput, 0);
        ghost var w, k := old(Written()), putBits;
        pad := if k > 7 then 0 else 7 - k;
        DropTail(BitsOf(emitted), pending, w, pad);
        putBuffer, putBits := 0, 0;
        pending := [];
        ShlZero(24);
      }
    }

    /** The working state is loaded: a writer can come back to this. */
    method Save() returns (b: Buffer)
      ensures b == Buffer(putBuffer, putBits, output, free)
    {
      b := Buffer(putBuffer, putBits, output, free);
    }

    /** The state of a writer that gives up what it was writing: its working copy is not saved. */
    method Restore(b: Buffer, ghost pre: seq<Byte>, ghost e: seq<Byte>, ghost pend: Bits)
      requires WriterState(b.putBuffer, b.putBits, b.output, pre, e, pend)
      modifies this
      ensures Valid() && b == Buffer(putBuffer, putBits, output, free) && suspends == old(suspends)
      ensures prefix == pre && emitted == e && pending == pend
    {
      putBuffer, putBits, output, free := b.putBuffer, b.putBits, b.output, b.free;
      prefix, emitted, pending := pre, e, pend;
    }

    /** The application has emptied the buffer: there is room again, or there always is from now on. */
    method Drain(room: nat)
      requires Valid()
      modifies this`free, this`suspends
      ensures Valid() && HasRoom() && (suspends <==> room > 0 && old(suspends)) && free == room
    {
      assert Unfolded(BitOutput, 0);
      suspends, free := suspends && room > 0, room;
    }
  }
}
