/** Input of Huffman codes and raw bits: prefetching, zero stuffing, markers and suspension. */
module BitReader {
  import opened Numbers
  import opened BitStrings
  import opened IntervalCoder
  import opened CodeSegments
  import opened ByteStuffing
  import opened Markers

  const MIN_GET_BITS := 25

  /** The segment that a writer has put into the input, if there is one. */
  datatype Source = Unknown | Known(segment: seq<Byte>, start: nat, marker: Byte)

  /** Dropping k bits behind the front of a register. */
  lemma FrontBits(buf: nat, n: nat, k: nat)
    requires k <= n
    ensures Low(Shr(buf, n - k), k) == Low(buf, n)[..k]
    ensures Low(buf, n - k) == Low(buf, n)[k..]
  {
    LowShifted(buf, k, n - k);
    LowTail(buf, n, k);
  }

  lemma {:induction false} LowTail(v: nat, n: nat, k: nat)
    requires k <= n
    ensures Low(v, n - k) == Low(v, n)[k..]
    decreases n
  {
    if k < n {
      LowTail(v / 2, n - 1, k);
      var s := Low(v / 2, n - 1);
      assert (s + [v % 2])[k..] == s[k..] + [v % 2];
    } else {
      assert Low(v, n)[k..] == [];
    }
  }

  /** The first k of the n bits in a register and the bits behind it. */
  lemma TakeFront(buf: nat, n: nat, k: nat, rest: Bits, n': nat)
    requires k + n' == n
    ensures Value(Low(Shr(buf, n'), k)) == Value((Low(buf, n) + rest)[..k]) == Value(Low(buf, n)[..k]) < Shl(1, k)
    ensures Low(buf, n') + rest == (Low(buf, n) + rest)[k..]
  {
    var s := Low(buf, n);
    FrontBits(buf, n, k);
    ValueBound(s[..k]);
    assert (s + rest)[..k] == s[..k] && (s + rest)[k..] == s[k..] + rest;
  }

  /** get_buffer << 8 | c */
  lemma AppendByte(buf: nat, n: nat, c: Byte, rest: seq<Byte>, buf': nat, n': nat)
    requires buf' == buf * 0x100 + c && n' == n + 8
    ensures Low(buf, n) <= Low(buf', n')
    ensures Low(buf', n') + BitsOf(rest) == Low(buf, n) + BitsOf([c] + rest)
  {
    AppendedBits(buf, n, c, buf', n');
    BitsOfHead(c, rest);
    Assoc(Low(buf, n), Low(c, 8), BitsOf(rest));
  }

  lemma AppendedBits(buf: nat, n: nat, c: Byte, buf': nat, n': nat)
    requires buf' == buf * 0x100 + c && n' == n + 8
    ensures Low(buf', n') == Low(buf, n) + Low(c, 8)
  {
    ShlTable(buf);
    ShlTable(1);
    LowSplit(buf, c, n, 8);
  }

  lemma FrontGrows(s: Bits, t: Bits, n: nat)
    requires s <= t && n <= |t|
    ensures 1 <= n <= |s| + 1 ==> Value(t[..n]) / 2 == Value(s[..n - 1])
  {
    if 1 <= n <= |s| + 1 {
      assert t[..n] == s[..n - 1] + [t[n - 1]];
      ValueSnoc(s[..n - 1], t[n - 1]);
    }
  }

  lemma ZeroFill(buf: nat, n: nat, k: nat)
    ensures Shl(buf, k) >= 0 && Low(buf, n) <= Low(Shl(buf, k), n + k)
  {
    ShlNat(buf, k);
    ShlNat(1, k);
    LowSplit(buf, 0, n, k);
  }

  /** More input, or all of it when no more pieces are announced. */
  function Arrived(have: nat, all: nat, chunks: seq<nat>): (n: nat)
    requires have <= all
    ensures have <= n <= all && (chunks == [] ==> n == all)
  {
    if chunks == [] || have + chunks[0] > all then all else have + chunks[0]
  }

  /** The state of a reader of the segment behind its next byte c, or behind the marker that it has met. */
  datatype Fetch = Fetch(pos: nat, unread: Byte, c: Byte, data: seq<Byte>, left: seq<Byte>)

  class BitReader {
    var getBuffer: nat
    var bitsLeft: nat
    const input: seq<Byte>
    var available: nat             // how much of the input has arrived
    var pos: nat
    var unreadMarker: Byte
    var insufficientData: bool

    ghost var source: Source
    ghost var data: seq<Byte>      // what a reader of the segment has seen
    ghost var left: seq<Byte>      // bytes of the segment that have not been loaded

    ghost predicate AtData()
      reads this
    {
      source.Known? ==>
        && OnSegment(input, source.start, source.segment, source.marker, pos, unreadMarker, data)
        && (if unreadMarker == 0 then source.segment == data + left else left == [])
    }

    ghost predicate Invariant()
      reads this
    {
      pos <= available <= |input| && bitsLeft <= 32 && AtData()
    }

    /** (folded) */
    ghost predicate Valid()
      reads this
    {
      forall k: nat {:trigger Unfolded(BitInput, k)} :: Unfolded(BitInput, k) ==> Invariant()
    }

    /** What reading never changes: how much has arrived, a marker once it has been met, and the flag before that. */
    twostate predicate Kept()
      reads this
    {
      && available == old(available)
      && (unreadMarker == 0 ==> old(unreadMarker) == 0 && insufficientData == old(insufficientData))
    }

    /** Everything is as it was. */
    twostate predicate Restored()
      reads this
    {
      && available == old(available) && pos == old(pos) && getBuffer == old(getBuffer) && bitsLeft == old(bitsLeft)
      && unreadMarker == old(unreadMarker) && insufficientData == old(insufficientData)
      && source == old(source) && data == old(data) && left == old(left)
    }

    /** The bits in the buffer. */
    ghost function Front(): Bits
      reads this
    {
      Low(getBuffer, bitsLeft)
    }

    /** The bits of the segment that have not been used. */
    ghost function Ahead(): Bits
      reads this
    {
      Front() + BitsOf(left)
    }

    /** Of the writer's segment src exactly these bits are ahead. */
    ghost predicate Faces(src: Source, bits: Bits)
      reads this
    {
      source == src && src.Known? && !insufficientData && Ahead() == bits
    }

    /** At position `at` of the input, of which the first `have` bytes have arrived. */
    constructor (bytes: seq<Byte>, at: nat, have: nat)
      requires at <= have <= |bytes|
      ensures Valid() && source.Unknown? && input == bytes && pos == at && available == have
      ensures unreadMarker == 0 && bitsLeft == 0 && !insufficientData
    {
      input, available, pos, unreadMarker, insufficientData := bytes, have, at, 0, false;
      getBuffer, bitsLeft := 0, 0;
      source, data, left := Unknown, [], [];
    }

    /** Records that a writer's segment starts here. */
    ghost method Attach(segment: seq<Byte>, marker: Byte)
      requires Valid() && unreadMarker == 0 && bitsLeft == 0 && !insufficientData
      requires HoldsSegment(input, pos, segment, marker)
      modifies this`source, this`data, this`left
      ensures Valid() && Faces(Known(segment, pos, marker), BitsOf(segment))
    {
      assert Unfolded(BitInput, 0);
      source, data, left := Known(segment, pos, marker), [], segment;
      assert Padded(segment, 0) == [];
      assert Stuff([]) == [];
      assert [] + segment == segment;
      assert [] + BitsOf(segment) == BitsOf(segment);
    }

    /** With less than a byte ahead every byte has been loaded: the marker is next, or has been met. */
    lemma AtSegmentEnd(src: Source, bits: Bits)
      requires Valid() && Faces(src, bits) && |bits| < 8
      ensures MarkerIsNext(input, pos, unreadMarker, src.marker)
      ensures pos == src.start + |Stuff(src.segment)| + if unreadMarker == 0 then 0 else 2
    {
      assert Unfolded(BitInput, 0);
      assert left == [];
      if unreadMarker == 0 {
        assert data + left == data;
        ByteStuffing.NextByte(input, source.start, source.segment, source.marker, pos, data);
      }
    }

    /**
     * The part of process_restart that concerns the input: bits behind the last MCU are thrown away. If the marker
     * has not arrived yet, it is still the next thing.
     */
    method Restart(nextRestartNum: nat) returns (r: Markers.Restart)
      requires Valid() && nextRestartNum < 8
      modifies this
      ensures available == old(available)
      ensures r == Found ==> Valid() && unreadMarker == 0 && bitsLeft == 0 && !insufficientData
      ensures old(MarkerIsNext(input, pos, unreadMarker, M_RST0 + nextRestartNum)) ==>
                if r == Found then pos == old(pos) + if old(unreadMarker) == 0 then 2 else 0
                else available < |input| && Valid() && pos == old(pos) && unreadMarker == 0 == old(unreadMarker)
    {
      assert Unfolded(BitInput, 0);
      bitsLeft := 0;
      source, data, left := Unknown, [], [];
      var at, unread;
      if MarkerIsNext(input, pos, unreadMarker, M_RST0 + nextRestartNum) {
        MarkerArrives(nextRestartNum);
      }
      r, at, unread := ReadRestartMarker(input[..available], pos, unreadMarker, nextRestartNum);
      pos, unreadMarker := at, unread;
      if r == Found {
        insufficientData := false;
      }
    }

    lemma MarkerArrives(nextRestartNum: nat)
      requires pos <= available <= |input| && nextRestartNum < 8
      requires MarkerIsNext(input, pos, unreadMarker, M_RST0 + nextRestartNum)
      ensures MarkerIsNext(input[..available], pos, unreadMarker, M_RST0 + nextRestartNum)
              || (unreadMarker == 0 && MarkerIsLate(input[..available], pos) && available < |input|)
    {
    }

    method GetByte() returns (ok: bool, b: Byte)
      requires pos <= available <= |input|
      modifies this`pos
      ensures pos <= available && ok == (old(pos) < available)
      ensures ok ==> b == input[old(pos)] && pos == old(pos) + 1
      ensures !ok ==> pos == old(pos)
    {
      b := 0;
      ok := pos < available;
      if ok {
        b := input[pos];
        pos := pos + 1;
      }
    }

    /** Behind a 0xFF: a zero makes it a data byte, anything but more 0xFFs a marker. */
    method AfterFF() returns (ok: bool, c: Byte)
      requires pos <= available <= |input| && unreadMarker == 0
      modifies this`pos, this`unreadMarker
      ensures pos <= available && (ok ==> old(pos) < available) && (!ok ==> unreadMarker == 0)
      ensures var p := old(pos);
              p < available && input[p] != 0xFF ==>
                ok && pos == p + 1 && unreadMarker == input[p] && c == if input[p] == 0 then 0xFF else input[p]
    {
      ok, c := GetByte();
      while ok && c == 0xFF
        invariant pos <= available && (ok ==> old(pos) < available)
        invariant old(pos) < available && input[old(pos)] != 0xFF ==> ok && pos == old(pos) + 1 && c == input[old(pos)]
        modifies this`pos
        decreases |input| - pos, ok
      {
        ok, c := GetByte();
      }
      if ok {
        if c == 0 {
          c := 0xFF;
        } else {
          unreadMarker := c;
        }
      }
    }

    /** What the segment says about the next byte. */
    lemma NextHere() returns (f: Fetch)
      requires AtData() && source.Known? && unreadMarker == 0 && pos <= |input|
      ensures OnSegment(input, source.start, source.segment, source.marker, f.pos, f.unread, f.data)
      ensures if f.unread == 0 then left == [f.c] + f.left
              && source.segment == f.data + f.left else left == [] == f.left
      ensures pos < |input|
      ensures if input[pos] == 0xFF then
                pos + 1 < |input| && input[pos + 1] != 0xFF && f.pos == pos + 2 && f.unread == input[pos + 1]
                && (f.unread == 0 ==> f.c == 0xFF)
              else f.pos == pos + 1 && f.unread == 0 && f.c == input[pos]
    {
      ByteStuffing.NextByte(input, source.start, source.segment, source.marker, pos, data);
      if left != [] {
        HeadNext(data, left);
        assert source.segment[|data|] == left[0];
        f := Fetch(if left[0] == 0xFF then pos + 2 else pos + 1, 0, left[0], data + [left[0]], left[1..]);
        assert [left[0]] + left[1..] == left;
      } else {
        assert data + left == data;
        f := Fetch(pos + 2, source.marker, 0, data + [0], []);
      }
    }

    /** A data byte, or the marker that ends the segment; nothing if the input has not arrived yet. */
    method NextByte() returns (ok: bool, c: Byte)
      requires pos <= available <= |input| && AtData() && unreadMarker == 0
      modifies this`pos, this`unreadMarker, this`data, this`left
      ensures pos <= available
      ensures !ok ==> unreadMarker == 0
      ensures ok ==> AtData()
      ensures ok && source.Known? && unreadMarker == 0 ==> old(left) == [c] + left
      ensures ok && source.Known? && unreadMarker != 0 ==> old(left) == [] == left
      ensures source.Known? && available == |input| ==> ok
    {
      ghost var f := Fetch(pos, 0, 0, data, left);
      if source.Known? {
        f := NextHere();
      }
      ok, c := GetByte();
      if ok && c == 0xFF {
        ok, c := AfterFF();
      }
      if ok {
        data, left := f.data, f.left;
      }
    }

    /** One more byte goes into the buffer, unless the marker is met. */
    method LoadByte() returns (ok: bool)
      requires pos <= available <= |input| && AtData() && unreadMarker == 0 && bitsLeft < MIN_GET_BITS
      modifies this
      ensures Kept() && insufficientData == old(insufficientData) && source == old(source)
      ensures pos <= available && (!ok ==> unreadMarker == 0 && bitsLeft == old(bitsLeft))
      ensures ok ==> AtData() && bitsLeft == old(bitsLeft) + (if unreadMarker == 0 then 8 else 0)
      ensures ok ==> old(Front()) <= Front() && (source.Known? ==> Ahead() == old(Ahead()))
      ensures source.Known? && available == |input| ==> ok
    {
      var c;
      ghost var was := left;
      ok, c := NextByte();
      if ok && unreadMarker == 0 {
        if source.Known? {
          assert was == [c] + left;
        }
        Append(c);
      }
    }

    method Append(c: Byte)
      modifies this`getBuffer, this`bitsLeft
      ensures bitsLeft == old(bitsLeft) + 8 && old(Front()) <= Front()
      ensures Ahead() == old(Front()) + BitsOf([c] + left)
    {
      ghost var buf, n := getBuffer, bitsLeft;
      getBuffer := getBuffer * 0x100 + c;
      bitsLeft := bitsLeft + 8;
      AppendByte(buf, n, c, left, getBuffer, bitsLeft);
    }

    lemma NothingLeft()
      requires AtData() && source.Known? && unreadMarker != 0
      ensures |Ahead()| == bitsLeft
    {
    }

    /** Behind the marker zeros are made up. */
    method MakeUpZeros()
      requires bitsLeft < MIN_GET_BITS
      modifies this`getBuffer, this`bitsLeft, this`source, this`insufficientData
      ensures insufficientData && source.Unknown? && bitsLeft == MIN_GET_BITS && old(Front()) <= Front()
    {
      insufficientData := true;
      ShlNat(getBuffer, MIN_GET_BITS - bitsLeft);
      ZeroFill(getBuffer, bitsLeft, MIN_GET_BITS - bitsLeft);
      getBuffer := Shl(getBuffer, MIN_GET_BITS - bitsLeft);
      bitsLeft := MIN_GET_BITS;
      source := Unknown;
    }

    /** Bytes go into the buffer while they fit and no marker is met. */
    method LoadBytes() returns (ok: bool)
      requires pos <= available <= |input| && AtData() && bitsLeft < MIN_GET_BITS
      modifies this
      ensures Kept() && insufficientData == old(insufficientData) && source == old(source)
      ensures pos <= available && bitsLeft <= 32 && (!ok ==> unreadMarker == 0)
      ensures ok ==> AtData() && (unreadMarker == 0 ==> bitsLeft >= MIN_GET_BITS)
      ensures ok ==> old(Front()) <= Front() && (source.Known? ==> Ahead() == old(Ahead()))
      ensures source.Known? && available == |input| ==> ok
    {
      ok := true;
      while bitsLeft < MIN_GET_BITS && unreadMarker == 0 && ok
        invariant Kept() && available <= |input| && pos <= available && bitsLeft <= 32
        invariant insufficientData == old(insufficientData) && source == old(source)
        invariant ok ==> old(Front()) <= Front()
        invariant ok ==> AtData() && (source.Known? ==> Ahead() == old(Ahead()))
        invariant !ok ==> unreadMarker == 0
        invariant source.Known? && available == |input| ==> ok
        decreases MIN_GET_BITS - bitsLeft, unreadMarker == 0, ok
      {
        ok := LoadByte();
      }
    }

    /** jpeg_fill_bit_buffer: at least nbits bits, of which those behind the marker are made up. */
    method FillBitBuffer(nbits: nat) returns (ok: bool)
      requires Valid() && nbits <= MIN_GET_BITS && bitsLeft < MIN_GET_BITS
      modifies this
      ensures Kept()
      ensures ok ==> Valid() && bitsLeft >= nbits
      ensures !ok ==> unreadMarker == 0
      ensures ok && old(source).Known? && nbits <= |old(Ahead())| ==>
                source == old(source) && Ahead() == old(Ahead()) && insufficientData == old(insufficientData)
      ensures ok ==> old(Front()) <= Front()
      ensures old(source).Known? && available == |input| ==> ok
    {
      assert Unfolded(BitInput, 0);
      ok := LoadBytes();
      if ok && unreadMarker != 0 && nbits > bitsLeft {
        if source.Known? {
          NothingLeft();
        }
        MakeUpZeros();
      }
    }

    /** CHECK_BIT_BUFFER */
    method CheckBitBuffer(nbits: nat) returns (ok: bool)
      requires Valid() && nbits <= MIN_GET_BITS
      modifies this
      ensures Kept()
      ensures ok ==> Valid() && bitsLeft >= nbits
      ensures !ok ==> unreadMarker == 0
      ensures ok && old(source).Known? && nbits <= |old(Ahead())| ==>
                source == old(source) && Ahead() == old(Ahead()) && insufficientData == old(insufficientData)
      ensures ok ==> old(Front()) <= Front()
      ensures old(source).Known? && available == |input| ==> ok
    {
      ok := true;
      if bitsLeft < nbits {
        ok := FillBitBuffer(nbits);
      }
    }

    /** GET_BITS and DROP_BITS: the bits at the front of the buffer. */
    method TakeBits(n: nat) returns (v: nat)
      requires Valid() && n <= bitsLeft
      modifies this`bitsLeft
      ensures Valid() && bitsLeft == old(bitsLeft) - n && v == old(PeekBits(n)) < Shl(1, n)
      ensures v == Value(old(Front())[..n])
      ensures v == Value(old(Ahead())[..n]) && Ahead() == old(Ahead())[n..]
    {
      assert Unfolded(BitInput, 0);
      v := PeekBits(n);
      ghost var was := bitsLeft;
      bitsLeft := bitsLeft - n;
      TakeFront(getBuffer, was, n, BitsOf(left), bitsLeft);
    }

    /** PEEK_BITS(HUFF_LOOKAHEAD) */
    method Look() returns (look: nat)
      requires Valid() && bitsLeft >= 8
      ensures look < 256 && look == Value(Front()[..8])
    {
      look := PeekBits(8);
      TakeFront(getBuffer, bitsLeft, 8, [], bitsLeft - 8);
      ShlTable(1);
    }

    lemma LookIsAhead()
      requires bitsLeft >= 8
      ensures |Ahead()| >= 8 && Front()[..8] == Ahead()[..8]
    {
    }

    /** DROP_BITS; `want` are the bits that are known to be in front. */
    method DropBits(n: nat, ghost want: Bits, ghost tail: Bits)
      requires Valid() && n <= bitsLeft
      modifies this`bitsLeft
      ensures Valid()
      ensures var src := source; |want| == n && old(Faces(src, want + tail)) ==> Faces(src, tail)
    {
      assert |want| == n ==> (want + tail)[n..] == tail;
      var v := TakeBits(n);
    }

    /** PEEK_BITS */
    function PeekBits(n: nat): nat
      reads this
      requires n <= bitsLeft
    {
      Value(Low(Shr(getBuffer, bitsLeft - n), n))
    }

    /** CHECK_BIT_BUFFER and GET_BITS together. */
    method GetBits(n: nat, ghost want: Bits, ghost tail: Bits) returns (ok: bool, v: nat)
      requires Valid() && n <= MIN_GET_BITS && |want| == n
      modifies this
      ensures Kept() && v < Shl(1, n)
      ensures if ok then Valid() else unreadMarker == 0
      ensures var src := old(source);
              old(Faces(src, want + tail)) ==>
                (available == |input| ==> ok) && (ok ==> v == Value(want) && Faces(src, tail))
      ensures ok && 1 <= n <= old(bitsLeft) + 1 ==> v / 2 == Value(old(Front())[..n - 1])
    {
      v := 0;
      ok := CheckBitBuffer(n);
      assert (want + tail)[..n] == want && (want + tail)[n..] == tail;
      if ok {
        FrontGrows(old(Front()), Front(), n);
        v := TakeBits(n);
      } else {
        ShlNat(1, n);
      }
    }

    /** A state from before the marker was met, to which the reader can go back. */
    ghost predicate CanRestore(p: nat, n: nat, src: Source, d: seq<Byte>, l: seq<Byte>)
      reads this
    {
      && unreadMarker == 0 && p <= available <= |input| && n <= 32
      && (src.Known? ==>
            OnSegment(input, src.start, src.segment, src.marker, p, 0, d) && src.segment == d + l)
    }

    /** As long as no marker has been met, the reader can come back to where it is. */
    lemma CanComeBack()
      requires Valid() && unreadMarker == 0
      ensures CanRestore(pos, bitsLeft, source, data, left)
    {
      assert Unfolded(BitInput, 0);
    }

    /** The bit-reading state of a decoder that gives up an MCU: its working copy is not saved. */
    method Restore(p: nat, buf: nat, n: nat, ghost src: Source, ghost d: seq<Byte>, ghost l: seq<Byte>)
      requires CanRestore(p, n, src, d, l)
      modifies this`pos, this`getBuffer, this`bitsLeft, this`source, this`data, this`left
      ensures Valid() && pos == p && getBuffer == buf && bitsLeft == n && source == src && data == d && left == l
    {
      pos, getBuffer, bitsLeft := p, buf, n;
      source, data, left := src, d, l;
    }

    /** More input has arrived. */
    method Arrive(n: nat)
      requires Valid() && available <= n <= |input|
      modifies this`available
      ensures Valid() && available == n && Ahead() == old(Ahead())
    {
      assert Unfolded(BitInput, 0);
      available := n;
    }
  }
}
