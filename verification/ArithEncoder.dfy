/** The adaptive binary arithmetic encoder: registers, deferred carries and byte output. */
module ArithEncoder {
  import opened Numbers
  import opened ProbabilityTable
  import opened IntervalCoder
  import opened CodeSegments
  import opened ByteStuffing

  // ---- The byte string that the register state stands for

  /** What one more output byte `temp` (with a possible carry bit) does to the byte string. */
  lemma CarryValue(p: seq<Byte>, b: Byte, k: nat)
    requires b < 0xFF
    ensures Val(p + [b + 1] + Zeros(k)) == Val(p + [b] + Full(k)) + 1
  {
    ValConcat(p + [b + 1], Zeros(k));
    ValConcat(p + [b], Full(k));
    ValSnoc(p, b);
    ValSnoc(p, b + 1);
    ValZeros(k);
    ValFull(k);
    ShlAdd(Val(p + [b]), 1, 8 * k);
  }

  /**
   * The registers, followed by the bytes `all` already shifted out of them, denote the interval x.
   * The last two clauses leave room for one carry only, and none before the first byte.
   */
  ghost predicate Registers(c: int, a: int, ct: int, all: seq<Byte>, x: Interval) {
    && 0 <= ct <= 11 && 0 <= c
    && 0 < a == x.a <= 0x10000
    && Shl(x.low, ct) == Val(all) * 0x8000000 + Shl(c, ct)
    && x.n + ct == 11 + 8 * |all|
    && (all != [] ==> Shl(c + a, ct) <= 0x9000000)
    && x.low + a <= Shl(1, 16 + x.n)
  }

  lemma InitialRegisters(c: int, a: int, ct: int, all: seq<Byte>, x: Interval)
    requires c == 0 && a == 0x10000 && ct == 11 && all == [] && x == UNIT
    ensures Registers(c, a, ct, all, x)
  {
    ShlZero(11);
    ShlTable(1);
  }

  lemma NarrowRegisters(c: int, a: int, ct: int, all: seq<Byte>, x: Interval, c': int, a': int, y: Interval)
    requires Registers(c, a, ct, all, x)
    requires c <= c' && 0 < a' && c' + a' <= c + a
    requires y == Interval(x.low + (c' - c), a', x.n)
    ensures Registers(c', a', ct, all, y)
  {
    ShlOrder(c' + a', c + a, ct);
    ShlMoves(x.low, c, y.low, c', ct);
  }

  /** Moving both by the same amount keeps the distance. */
  lemma ShlMoves(u: int, v: int, u': int, v': int, k: nat)
    requires u' - u == v' - v
    ensures Shl(u', k) - Shl(u, k) == Shl(v', k) - Shl(v, k)
  {
    ShlAdd(u', v, k);
    ShlAdd(v', u, k);
    assert u' + v == v' + u;
  }

  lemma DoubleRegisters(c: int, a: int, ct: int, all: seq<Byte>, x: Interval)
    requires Registers(c, a, ct, all, x) && ct > 0 && a < 0x8000
    ensures Registers(2 * c, 2 * a, ct - 1, all, Double(x))
  {
    assert 2 * (c + a) == 2 * c + 2 * a;
    ShlShl(1, 16 + x.n, 1);
  }

  /** The carry can only be a single one, and the byte that follows a carry is small. */
  lemma CarryBound(c: int, a: int, all: seq<Byte>, x: Interval)
    requires Registers(c, a, 0, all, x)
    ensures c / 0x80000 < 0x120
    ensures forall k: nat :: all == Full(k) ==> c / 0x80000 < 0x100
  {
    forall k: nat | all == Full(k)
      ensures c / 0x80000 < 0x100
    {
      ValFull(k);
      ShlShl(1, 8 * k, 27);
      ShlTable(Shl(1, 8 * k));
      assert 16 + x.n == 8 * k + 27;
    }
    if all == [] {
      assert all == Full(0);
    }
  }

  lemma ShiftOutByte(c: int, a: int, all: seq<Byte>, x: Interval, all': seq<Byte>)
    requires Registers(c, a, 0, all, x)
    requires |all'| == |all| + 1
    requires Val(all') == Val(all) * 256 + c / 0x80000
    ensures Registers(c % 0x80000, a, 8, all', x)
  {
    var low := c % 0x80000;
    assert c == c / 0x80000 * 0x80000 + low;
    ShlTable(x.low);
    ShlTable(low);
    ShlTable(low + a);
  }

  /** The C register agrees with the unbounded base in its low 16 bits. */
  lemma LowBitsAgree(c: int, a: int, ct: int, all: seq<Byte>, x: Interval)
    requires Registers(c, a, ct, all, x)
    ensures exists y: int :: x.low - c == y * 0x10000
  {
    var y := Shl(Val(all), 11 - ct);
    ShlAdd(c, x.low - c, ct);
    ShlTable(Val(all));
    TwoShifts(Val(all), 11 - ct, ct);
    ShlOrder(x.low - c, y * 0x10000, ct);
    assert x.low - c == y * 0x10000;
  }

  lemma TwoShifts(v: int, j: nat, ct: nat)
    requires j + ct == 11
    ensures Shl(Shl(v, j) * 0x10000, ct) == Shl(v, 27)
  {
    ShlTable(Shl(v, j));
    ShlShl(v, j, 16);
    ShlShl(v, j + 16, ct);
  }

  /** The value section D.1.8 picks, computed from the low bits only. */
  function PickFinal(c: int, a: int): int
  {
    var t := (a - 1 + c) / 0x10000 * 0x10000;
    if t < c then t + 0x8000 else t
  }

  lemma PickFinalAgrees(c: int, a: int, x: Interval, y: int)
    requires Normal(x) && a == x.a && x.low == c + y * 0x10000
    ensures c <= PickFinal(c, a) < c + a && PickFinal(c, a) % 0x8000 == 0
    ensures FinalPoint(x) == x.low + (PickFinal(c, a) - c)
  {
    var p := a - 1 + c;
    assert (p + y * 0x10000) / 0x10000 == p / 0x10000 + y;
    assert p / 0x10000 * 0x10000 <= p < p / 0x10000 * 0x10000 + 0x10000;
  }

  lemma MultipleStays(v: int, k: nat)
    requires v % 0x8000 == 0
    ensures Shl(v, k) % 0x8000 == 0
  {
    assert v == v / 0x8000 * 0x8000;
    ShlMultiple(v / 0x8000, k);
  }

  /** The register form of the final point, and what is left of it after the shift by ct. */
  lemma FinalRegister(c: int, a: int, ct: int, all: seq<Byte>, x: Interval)
    requires Registers(c, a, ct, all, x) && Normal(x)
    ensures c <= PickFinal(c, a) < c + a
    ensures Shl(PickFinal(c, a), ct) % 0x8000 == 0
    ensures Shl(FinalPoint(x), ct) == Val(all) * 0x8000000 + Shl(PickFinal(c, a), ct)
  {
    LowBitsAgree(c, a, ct, all, x);
    var y: int :| x.low - c == y * 0x10000;
    PickFinalAgrees(c, a, x, y);
    var last := PickFinal(c, a);
    MultipleStays(last, ct);
    ShlMoves(x.low, c, FinalPoint(x), last, ct);
  }

  lemma FinalBound(c: int, a: int, ct: int, all: seq<Byte>, x: Interval, last: int)
    requires Registers(c, a, ct, all, x) && c <= last < c + a
    ensures 0 <= Shl(last, ct) < Shl(c + a, ct)
    ensures Shl(c + a, ct) <= 0x9000000
    ensures forall k: nat :: all == Full(k) ==> Shl(c + a, ct) <= 0x8000000
  {
    ShlZero(ct);
    ShlOrder(-1, last, ct);
    ShlOrder(last, 0, ct);
    ShlOrder(last, c + a, ct);
    forall k: nat | all == Full(k)
      ensures Shl(c + a, ct) <= 0x8000000
    {
      NoCarryPastFull(c, a, ct, k, x);
    }
    if all == [] {
      assert all == Full(0);
    }
  }

  lemma NoCarryPastFull(c: int, a: int, ct: int, k: nat, x: Interval)
    requires Registers(c, a, ct, Full(k), x)
    ensures Shl(c + a, ct) <= 0x8000000
  {
    ValFull(k);
    ShlAdd(x.low, a, ct);
    ShlAdd(c, a, ct);
    ShlOrder(Shl(1, 16 + x.n), x.low + a, ct);
    ShlShl(1, 16 + x.n, ct);
    assert 16 + x.n + ct == 8 * k + 27;
    ShlShl(1, 8 * k, 27);
    ShlTable(Shl(1, 8 * k));
  }

  /** The two bytes C still holds at the end: bits 19-26 and 11-18. */
  function FinalPair(w: int): seq<Byte>
  {
    [w / 0x80000 % 0x100, w / 0x800 % 0x100]
  }

  lemma SplitWord(w: int)
    requires w % 0x8000 == 0
    ensures w == w / 0x8000000 * 0x8000000 + (FinalPair(w)[0] as int) * 0x80000 + (FinalPair(w)[1] as int) * 0x800
  {
    var u := w / 0x800;
    assert w == u * 0x800;
    assert w / 0x80000 == u / 0x100;
    assert w / 0x8000000 == u / 0x100 / 0x100;
    assert u == u / 0x100 * 0x100 + u % 0x100;
  }

  /** The held-back bytes and the last two bytes of the C register are exactly the final point. */
  lemma FinalBytes(all: seq<Byte>, all': seq<Byte>, w: int, ct: nat, x: Interval)
    requires Normal(x) && x.n + ct == 11 + 8 * |all| && |all'| == |all|
    requires w >= 0 && w % 0x8000 == 0
    requires Shl(FinalPoint(x), ct) == Val(all) * 0x8000000 + w
    requires Val(all') == Val(all) + w / 0x8000000
    ensures Points(all' + FinalPair(w), FinalPoint(x), 16 + x.n)
  {
    SplitWord(w);
    var d := all' + FinalPair(w);
    AppendPair(all', FinalPair(w));
    ShlTable(Val(d));
    assert Shl(FinalPoint(x), ct) == Shl(Val(d), 11);
    AlignFinal(FinalPoint(x), d, ct, x.n);
  }

  lemma AppendPair(s: seq<Byte>, p: seq<Byte>)
    requires |p| == 2
    ensures Val(s + p) == Val(s) * 0x10000 + (p[0] as int) * 0x100 + p[1]
  {
    assert s + p == (s + [p[0]]) + [p[1]];
    ValSnoc(s, p[0]);
    ValSnoc(s + [p[0]], p[1]);
  }

  lemma AlignFinal(v: nat, d: seq<Byte>, ct: nat, n: nat)
    requires Shl(v, ct) == Shl(Val(d), 11) && 8 * |d| + 11 == 16 + n + ct
    ensures Points(d, v, 16 + n)
  {
    var k := 8 * |d|;
    ShlShl(v, ct, k);
    ShlShl(v, k, ct);
    ShlShl(Val(d), 11, k);
    ShlShl(Val(d), 16 + n, ct);
    ShlOrder(Shl(v, k), Shl(Val(d), 16 + n), ct);
  }

  class ArithEncoder {
    var c: int       // base of the coding interval
    var a: int       // its normalised size
    var sc: int      // stacked 0xFF bytes
    var zc: int      // pending 0x00 bytes
    var ct: int      // shifts left until the next byte
    var buffer: int  // most recent byte that is not 0xFF, or -1
    var output: seq<Byte>
    var stats: Stats

    ghost var prefix: seq<Byte>        // output before the current segment
    ghost var emitted: seq<Byte>       // data bytes of this segment already written
    ghost var history: seq<Decision>   // decisions of this segment
    ghost var now: Coder               // the exact coder after them

    ghost function Pending(): seq<Byte>
      reads this`buffer, this`sc, this`zc
      requires -1 <= buffer < 256 && 0 <= sc && 0 <= zc
    {
      Zeros(zc) + (if buffer >= 0 then [buffer] else []) + Full(sc)
    }

    ghost predicate Layout()
      reads this`buffer, this`sc, this`zc, this`output, this`prefix, this`emitted
    {
      && 0 <= sc && 0 <= zc && -1 <= buffer <= 0xFE
      && output == prefix + Stuff(emitted)
      && NoTrailingZero(emitted)
      && (buffer < 0 ==> emitted == [] && zc == 0)
    }

    ghost predicate Denotes(x: Interval)
      reads this`buffer, this`sc, this`zc, this`output, this`prefix, this`emitted, this`c, this`a, this`ct
    {
      Layout() && Registers(c, a, ct, emitted + Pending(), x)
    }

    ghost predicate Invariant()
      reads this
    {
      && Coded(history, now) && Normal(now.x)
      && Denotes(now.x) && ct > 0
      && stats == now.stats
    }

    ghost predicate Valid()
      reads this
    {
      forall k: nat {:trigger Unfolded(ArithOutput, k)} :: Unfolded(ArithOutput, k) ==> Invariant()
    }

    constructor (bytes: seq<Byte>)
      ensures output == bytes
    {
      c, a, sc, zc, ct, buffer := 0, 0x10000, 0, 0, 11, -1;
      output, stats := bytes, map[];
      prefix, emitted, history, now := bytes, [], [], FRESH;
    }

    /** Start of a code segment. */
    method Reset()
      modifies this
      ensures Valid() && history == [] && emitted == []
      ensures output == old(output) == prefix
    {
      c, a, sc, zc, ct, buffer, stats := 0, 0x10000, 0, 0, 11, -1, map[];
      prefix, emitted, history, now := output, [], [], FRESH;
      FreshIsValid();
    }

    lemma FreshIsValid()
      requires c == sc == zc == 0 && a == 0x10000 && ct == 11 && buffer == -1 && stats == now.stats
      requires emitted == [] && history == [] && now == FRESH && output == prefix
      ensures Valid()
    {
      CodedNothing();
      NothingPending();
      InitialRegisters(c, a, ct, emitted + Pending(), now.x);
    }

    lemma NothingPending()
      requires sc == zc == 0 && buffer == -1 && emitted == []
      ensures emitted + Pending() == [] && prefix + Stuff(emitted) == prefix
    {
      assert prefix + [] == prefix;
    }

    method EmitByte(val: Byte)
      modifies this`output
      ensures output == old(output) + [val]
    {
      output := output + [val];
    }

    /** A data byte with its escape. */
    method EmitData(val: Byte)
      requires output == prefix + Stuff(emitted)
      modifies this`output, this`emitted
      ensures output == prefix + Stuff(emitted)
      ensures emitted == old(emitted) + [val]
    {
      StuffByte(emitted, val);
      EmitByte(val);
      if val == 0xFF {
        EmitByte(0);
      }
      emitted := emitted + [val];
    }

    method EmitPendingZeros()
      requires zc >= 0 && output == prefix + Stuff(emitted)
      modifies this`output, this`emitted, this`zc
      ensures output == prefix + Stuff(emitted)
      ensures emitted == old(emitted) + Zeros(old(zc)) && zc == 0
    {
      while zc > 0
        invariant 0 <= zc <= old(zc)
        invariant output == prefix + Stuff(emitted)
        invariant emitted == old(emitted) + Zeros(old(zc) - zc)
      {
        ZerosSnoc(old(zc) - zc);
        EmitData(0);
        zc := zc - 1;
      }
    }

    method EmitStacked()
      requires sc >= 0 && output == prefix + Stuff(emitted)
      modifies this`output, this`emitted, this`sc
      ensures output == prefix + Stuff(emitted)
      ensures emitted == old(emitted) + Full(old(sc)) && sc == 0
    {
      while sc > 0
        invariant 0 <= sc <= old(sc)
        invariant output == prefix + Stuff(emitted)
        invariant emitted == old(emitted) + Full(old(sc) - sc)
      {
        FullSnoc(old(sc) - sc);
        EmitData(0xFF);
        sc := sc - 1;
      }
    }

    /** The bytes before and after a carry. */
    lemma CarriedBytes(p: seq<Byte>, all: seq<Byte>)
      requires Layout() && buffer >= 0 && p == emitted + Zeros(zc) && all == emitted + Pending()
      ensures all == p + [buffer] + Full(sc)
      ensures Val(p + [buffer + 1] + Zeros(sc)) == Val(all) + 1 && |p + [buffer + 1]| + sc == |all|
    {
      CarryValue(p, buffer, sc);
      assert emitted + Pending() == p + [buffer] + Full(sc);
    }

    /** A carry reaches the bytes that are still held back: the stacked 0xFFs turn into zeros. */
    method PropagateCarry()
      requires Layout() && buffer >= 0
      modifies this`output, this`emitted, this`zc, this`sc
      ensures output == prefix + Stuff(emitted) && NoTrailingZero(emitted)
      ensures emitted != [] && zc == old(sc) && sc == 0
      ensures |emitted| + zc == |old(emitted + Pending())|
      ensures Val(emitted + Zeros(zc)) == Val(old(emitted + Pending())) + 1
    {
      CarriedBytes(emitted + Zeros(zc), emitted + Pending());
      EmitPendingZeros();
      EmitData(buffer + 1);
      zc := zc + sc;
      sc := 0;
    }

    /** No carry can reach the held-back bytes any more: a zero becomes pending, the rest goes out. */
    method ReleaseHeld()
      requires Layout()
      modifies this`output, this`emitted, this`zc, this`sc
      ensures output == prefix + Stuff(emitted) && NoTrailingZero(emitted)
      ensures zc >= 0 && sc == 0
      ensures emitted + Zeros(zc) == old(emitted + Pending())
    {
      if buffer == 0 {
        ZerosSnoc(zc);
        zc := zc + 1;
      } else if buffer >= 0 {
        EmitPendingZeros();
        EmitData(buffer);
      }
      assert emitted + Zeros(zc) + Full(sc) == old(emitted + Pending());
      if sc > 0 {
        EmitPendingZeros();
        EmitStacked();
      }
    }

    /** A carry: the new byte is what is left of temp. */
    method HoldAfterCarry(temp: int)
      requires Layout() && 0x100 <= temp < 0x120 && buffer >= 0
      modifies this`output, this`emitted, this`zc, this`sc, this`buffer
      ensures Layout() && |emitted + Pending()| == |old(emitted + Pending())| + 1
      ensures Val(emitted + Pending()) == Val(old(emitted + Pending())) * 256 + temp
    {
      PropagateCarry();
      ghost var bumped := emitted + Zeros(zc);
      buffer := temp - 0x100;
      assert emitted + Pending() == bumped + [buffer];
      ValSnoc(bumped, buffer);
    }

    /** A byte that could still become 0x100. */
    method StackByte()
      requires Layout()
      modifies this`sc
      ensures Layout() && emitted + Pending() == old(emitted + Pending()) + [0xFF]
    {
      sc := sc + 1;
      FullSnoc(sc - 1);
      assert emitted + Pending() == old(emitted + Pending()) + [0xFF];
    }

    /** A byte that stops any later carry. */
    method ReplaceHeld(temp: int)
      requires Layout() && 0 <= temp < 0xFF
      modifies this`output, this`emitted, this`zc, this`sc, this`buffer
      ensures Layout() && emitted + Pending() == old(emitted + Pending()) + [temp]
    {
      ReleaseHeld();
      buffer := temp;
      assert emitted + Pending() == old(emitted + Pending()) + [temp];
    }

    /** Takes over one output byte `temp`, possibly with a carry in bit 8. */
    method HoldByte(temp: int)
      requires Layout() && 0 <= temp < 0x120 && (buffer < 0 ==> temp < 0x100)
      modifies this`output, this`emitted, this`zc, this`sc, this`buffer
      ensures Layout() && |emitted + Pending()| == |old(emitted + Pending())| + 1
      ensures Val(emitted + Pending()) == Val(old(emitted + Pending())) * 256 + temp
    {
      ghost var all := emitted + Pending();
      if temp > 0xFF {
        HoldAfterCarry(temp);
      } else {
        ValSnoc(all, temp);
        if temp == 0xFF {
          StackByte();
        } else {
          ReplaceHeld(temp);
        }
      }
    }

    /** Another byte is ready for output: c >> 19. */
    method ByteOut(ghost x: Interval)
      requires Denotes(x) && ct == 0
      modifies this`output, this`emitted, this`zc, this`sc, this`buffer, this`c, this`ct
      ensures Denotes(x) && ct == 8
    {
      ghost var all := emitted + Pending();
      CarryBound(c, a, all, x);
      assert buffer < 0 ==> all == Full(sc);
      HoldByte(c / 0x80000);
      ShiftOutByte(c, a, all, x, emitted + Pending());
      c := c % 0x80000;
      ct := ct + 8;
    }

    method ShiftOnce(ghost x: Interval)
      requires Denotes(x) && ct > 0 && a < 0x8000
      modifies this`a, this`output, this`emitted, this`zc, this`sc, this`buffer, this`c, this`ct
      ensures Denotes(Double(x)) && ct > 0
    {
      DoubleRegisters(c, a, ct, emitted + Pending(), x);
      a := a * 2;
      c := c * 2;
      ct := ct - 1;
      if ct == 0 {
        ByteOut(Double(x));
      }
    }

    /** Renormalisation and data output, section D.1.6. */
    method Renormalise(ghost x: Interval)
      requires Denotes(x) && ct > 0
      modifies this`a, this`output, this`emitted, this`zc, this`sc, this`buffer, this`c, this`ct
      ensures Denotes(Renorm(x)) && ct > 0
    {
      ghost var y := x;
      while a < 0x8000
        invariant Denotes(y) && ct > 0 && Renorm(y) == Renorm(x)
        decreases 0x8000 - a
      {
        ShiftOnce(y);
        y := Double(y);
      }
    }

    /** Encode & estimate, sections D.1.4 and D.1.5; the result is the bin's next state. */
    method Subdivide(sv: Stat, val: Bit, ghost x: Interval) returns (next: Stat)
      requires GoodStat(sv) && Normal(x) && Denotes(x)
      modifies this`a, this`c
      ensures Denotes(Narrow(x, sv, val)) && next == Estimate(x, sv, val)
    {
      var qe := RowOf(sv).qe;
      a := a - qe;
      if val != sv.mps {
        // The larger of the two sub-intervals always goes to the more probable symbol.
        if a >= qe {
          c := c + a;
          a := qe;
        }
        next := AfterLps(sv);
      } else if a >= 0x8000 {
        next := sv;
      } else {
        if a < qe {
          c := c + a;
          a := qe;
        }
        next := AfterMps(sv);
      }
      ghost var y := Narrow(x, sv, val);
      assert y == Interval(x.low + (c - old(c)), a, x.n);
      NarrowRegisters(old(c), old(a), ct, emitted + Pending(), x, c, a, y);
    }

    /** Everything but the statistics update. */
    method CodeBit(sv: Stat, val: Bit, ghost x: Interval) returns (next: Stat)
      requires GoodStat(sv) && Normal(x) && Denotes(x) && ct > 0
      modifies this`a, this`output, this`emitted, this`zc, this`sc, this`buffer, this`c, this`ct
      ensures Denotes(Renorm(Narrow(x, sv, val))) && ct > 0
      ensures next == Estimate(x, sv, val)
    {
      next := Subdivide(sv, val, x);
      Renormalise(Narrow(x, sv, val));
    }

    lemma IsValid()
      requires Coded(history, now) && Normal(now.x) && Denotes(now.x) && ct > 0 && stats == now.stats
      ensures Valid()
    {
    }

    /** Codes one binary decision with the statistics bin `st`. */
    method ArithEncode(st: Bin, val: Bit)
      requires Valid() && InArea(st)
      modifies this
      ensures Valid()
      ensures history == old(history) + [Decision(st, val)]
      ensures prefix == old(prefix)
    {
      assert Unfolded(ArithOutput, 0);
      ghost var d, k, y := Decision(st, val), now, Renorm(Narrow(now.x, Lookup(now.stats, st), val));
      var next := CodeBit(Lookup(stats, st), val, now.x);
      stats := stats[st := next];
      CodedSnoc(history, d, k, y, stats);
      now, history := Coder(y, stats), history + [d];
      IsValid();
    }

    /** Moves C to the final point, aligned with the held-back bytes. */
    method PickFinalValue(ghost x: Interval)
      requires Denotes(x) && Normal(x)
      modifies this`c
      ensures Layout() && x.n + ct == 11 + 8 * |emitted + Pending()| && ct >= 0
      ensures 0 <= c < 0x9000000 && c % 0x8000 == 0 && (buffer < 0 ==> c < 0x8000000)
      ensures Shl(FinalPoint(x), ct) == Val(emitted + Pending()) * 0x8000000 + c
    {
      ghost var all := emitted + Pending();
      FinalRegister(c, a, ct, all, x);
      FinalBound(c, a, ct, all, x, PickFinal(c, a));
      assert buffer < 0 ==> all == Full(sc);
      c := Shl(PickFinal(c, a), ct);
    }

    /** Writes the held-back bytes, after one final carry if there is one. */
    method FlushHeld(ghost x: Interval)
      requires Layout() && 0 <= c < 0x9000000 && c % 0x8000 == 0 && (buffer < 0 ==> c < 0x8000000)
      requires Normal(x) && ct >= 0 && x.n + ct == 11 + 8 * |emitted + Pending()|
      requires Shl(FinalPoint(x), ct) == Val(emitted + Pending()) * 0x8000000 + c
      modifies this`output, this`emitted, this`zc, this`sc
      ensures zc >= 0 && output == prefix + Stuff(emitted) && NoTrailingZero(emitted)
      ensures Points(emitted + Zeros(zc) + FinalPair(c), FinalPoint(x), 16 + x.n)
    {
      ghost var all := emitted + Pending();
      if c >= 0x8000000 {
        PropagateCarry();
        assert c / 0x8000000 == 1;
      } else {
        ReleaseHeld();
        assert c / 0x8000000 == 0;
      }
      FinalBytes(all, emitted + Zeros(zc), c, ct, x);
    }

    method FinishAt(ghost x: Interval)
      requires Denotes(x) && Normal(x)
      modifies this`c, this`output, this`emitted, this`zc, this`sc
      ensures output == prefix + Stuff(emitted) && IsSegment(emitted, x)
    {
      PickFinalValue(x);
      FlushHeld(x);
      OutputFinalBytes(FinalPoint(x), 16 + x.n);
    }

    /** Termination of encoding, section D.1.8, with all trailing zero bytes dropped. */
    method FinishPass()
      requires Valid()
      modifies this`c, this`output, this`emitted, this`zc, this`sc
      ensures output == prefix + Stuff(emitted)
      ensures Coded(history, now) && Normal(now.x) && IsSegment(emitted, now.x)
    {
      assert Unfolded(ArithOutput, 0);
      FinishAt(now.x);
    }

    /** Final zero bytes can go without. */
    lemma FinalBytesTrim(d: seq<Byte>, j: nat, p: seq<Byte>, v: nat, bits: nat)
      requires |p| == 2 && Points(d + Zeros(j) + p, v, bits)
      ensures p[1] != 0 ==> Points(d + Zeros(j) + [p[0]] + [p[1]], v, bits)
      ensures p[1] == 0 ==> Points(d + Zeros(j) + [p[0]], v, bits)
      ensures p[0] == p[1] == 0 ==> Points(d, v, bits)
    {
      var whole := d + Zeros(j) + p;
      if p[1] != 0 {
        assert d + Zeros(j) + [p[0]] + [p[1]] == whole;
      } else {
        assert d + Zeros(j) + [p[0]] + Zeros(1) == whole;
        PointsTrim(d + Zeros(j) + [p[0]], 1, v, bits);
        if p[0] == 0 {
          assert d + Zeros(j + 2) == whole;
          PointsTrim(d, j + 2, v, bits);
        }
      }
    }

    /** Output final bytes only if they are not 0x00. */
    method OutputFinalBytes(ghost v: nat, ghost bits: nat)
      requires zc >= 0 && output == prefix + Stuff(emitted) && NoTrailingZero(emitted)
      requires Points(emitted + Zeros(zc) + FinalPair(c), v, bits)
      modifies this`output, this`emitted, this`zc
      ensures output == prefix + Stuff(emitted)
      ensures NoTrailingZero(emitted) && Points(emitted, v, bits)
    {
      var p := FinalPair(c);
      FinalBytesTrim(emitted, zc, p, v, bits);
      if p[0] != 0 || p[1] != 0 {
        EmitPendingZeros();
        EmitData(p[0]);
        if p[1] != 0 {
          EmitData(p[1]);
        }
      }
    }
  }
}
