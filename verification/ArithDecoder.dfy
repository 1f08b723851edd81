/** The adaptive binary arithmetic decoder, with its floating cut point and lazy renormalisation. */
module ArithDecoder {
  import opened Numbers
  import opened ProbabilityTable
  import opened IntervalCoder
  import opened CodeSegments
  import opened ByteStuffing
  import opened Markers

  /**
   * C holds every data byte read so far, less the base of the interval: the base part and the
   * ct look-ahead bits are not kept apart.
   */
  ghost predicate Registers(c: int, a: int, ct: int, data: seq<Byte>, x: Interval) {
    && 0 <= ct <= 7 && 0 < a == x.a <= 0x10000
    && c == Val(data) - Shl(x.low, ct)
    && 0 <= c < Shl(a, ct)
    && 8 * |data| == 16 + x.n + ct
  }

  lemma ShiftInBits(c: int, a: int, ct: int, data: seq<Byte>, x: Interval)
    requires Registers(c, a, ct, data, x) && ct > 0 && a < 0x8000
    ensures Registers(c, 2 * a, ct - 1, data, Double(x))
  {
  }

  lemma ShiftInByte(c: int, a: int, data: seq<Byte>, x: Interval, b: Byte)
    requires Registers(c, a, 0, data, x) && a < 0x8000
    ensures Registers(c * 0x100 + b, 2 * a, 7, data + [b], Double(x))
  {
    ValSnoc(data, b);
    ShlTable(x.low);
    ShlTable(a);
    assert Shl(x.low, 8) == Shl(2 * x.low, 7);
    assert Shl(a, 8) == Shl(2 * a, 7);
  }

  lemma FirstBytes(data: seq<Byte>)
    requires |data| == 2
    ensures Registers(Val(data), 0x10000, 0, data, UNIT)
  {
    ValBound(data);
    ShlTable(1);
  }

  /** Taking the lower sub-interval. */
  lemma ChooseLower(c: int, a: int, ct: int, data: seq<Byte>, x: Interval, rest: int)
    requires Registers(c, a, ct, data, x) && 0 < rest < a && c < Shl(rest, ct)
    ensures Registers(c, rest, ct, data, x.(a := rest))
  {
  }

  /** Taking the upper one. */
  lemma ChooseUpper(c: int, a: int, ct: int, data: seq<Byte>, x: Interval, rest: int, qe: int)
    requires Registers(c, a, ct, data, x) && 0 < rest < a && c >= Shl(rest, ct) && qe == a - rest
    ensures Registers(c - Shl(rest, ct), qe, ct, data, Interval(x.low + rest, qe, x.n))
  {
    ShlAdd(rest, qe, ct);
    ShlAdd(x.low, rest, ct);
  }

  predicate Apart(y: Interval, z: Interval) {
    y.low + y.a <= z.low || z.low + z.a <= y.low
  }

  lemma ChoicesAreApart(x: Interval, s: Stat, b: Bit, b': Bit)
    requires Normal(x) && GoodStat(s)
    ensures b != b' ==> Apart(Narrow(x, s, b), Narrow(x, s, b'))
  {
  }

  /** The bytes read so far tell apart the encoder's choice and any other, however few they are. */
  lemma PrefixDecides(final: Interval, segment: seq<Byte>, y: Interval, z: Interval, data: seq<Byte>, ct: nat)
    requires Normal(final) && IsSegment(segment, final) && data == Padded(segment, |data|)
    requires Within(final, y) && 8 * |data| == 16 + y.n + ct
    requires Shl(z.low, ct) <= Val(data) < Shl(z.low + z.a, ct)
    ensures !Apart(y, z)
  {
    PrefixInside(segment, final, y, |data|, ct);
    ShlOrder(z.low, y.low + y.a, ct);
    ShlOrder(y.low, z.low + z.a, ct);
  }

  lemma ScriptStaysInside(script: seq<Decision>, final: Coder, history: seq<Decision>, k: Coder, d: Decision)
    requires Coded(script, final) && Coded(history, k) && Normal(k.x)
    requires history + [d] <= script
    ensures Within(final.x, Choice(k, d))
  {
    CodedRun(script, final);
    CodedRun(history, k);
    var rest := script[|history| + 1..];
    assert history + [d] + rest == script;
    RunWithinChoice(history, d, rest, Choice(k, d));
  }

  lemma RegistersLocate(c: int, a: int, ct: int, data: seq<Byte>, x: Interval)
    requires Registers(c, a, ct, data, x)
    ensures Shl(x.low, ct) <= Val(data) < Shl(x.low + x.a, ct)
  {
    ShlAdd(x.low, a, ct);
  }

  /** An encoder's run and where its code segment is. */
  datatype Plan = Unknown | Known(script: seq<Decision>, final: Coder, segment: seq<Byte>, start: nat, marker: Byte)

  class ArithDecoder {
    var c: int
    var a: int
    var ct: int  // -16 before the first byte, 0..7 afterwards
    var stats: Stats
    const input: seq<Byte>
    var pos: nat
    var unreadMarker: Byte

    ghost var x: Interval             // what the registers denote, not yet renormalised
    ghost var data: seq<Byte>         // data bytes of this segment inserted into C
    ghost var history: seq<Decision>  // decisions returned
    ghost var now: Coder              // the exact coder after them

    ghost var plan: Plan              // the encoder's run that the input holds, if there is one
    ghost var ahead: seq<Decision>    // its decisions that are still to come

    ghost predicate Primed()
      reads this
    {
      Registers(c, a, ct, data, x)
    }

    /** Reading the initial bytes: A is still zero. */
    ghost predicate Priming()
      reads this
    {
      && a == 0
      && |data| < 2 && c == Val(data) && ct == -16 + 8 * |data|
    }

    /** The registers will denote y once they are renormalised. */
    ghost predicate Denotes(y: Interval)
      reads this
    {
      (Priming() && y == UNIT) || (Primed() && Renorm(x) == y)
    }

    ghost predicate AtData()
      reads this
    {
      plan.Known? ==> OnSegment(input, plan.start, plan.segment, plan.marker, pos, unreadMarker, data)
    }

    ghost predicate OnScript()
      reads this
    {
      plan.Known? ==>
        && Coded(plan.script, plan.final) && Normal(plan.final.x)
        && IsSegment(plan.segment, plan.final.x)
        && history + ahead == plan.script
    }

    ghost predicate Invariant()
      reads this
    {
      && pos <= |input|
      && Coded(history, now) && Normal(now.x)
      && Denotes(now.x)
      && stats == now.stats
      && AtData() && OnScript()
    }

    ghost predicate Valid()
      reads this
    {
      forall k: nat {:trigger Unfolded(ArithInput, k)} :: Unfolded(ArithInput, k) ==> Invariant()
    }

    /** In the encoder's run `plan` exactly the decisions ds follow from here on. */
    ghost predicate Faces(plan: Plan, ds: seq<Decision>)
      reads this
    {
      this.plan == plan && plan.Known? && ahead == ds
    }

    /** The encoder used the same bin for its next decision. */
    ghost predicate Agrees(st: Bin)
      reads this
    {
      plan.Known? && ahead != [] && ahead[0].bin == st
    }

    constructor (bytes: seq<Byte>, at: nat)
      requires at <= |bytes|
      ensures AtStart() && plan.Unknown?
      ensures input == bytes && pos == at && unreadMarker == 0
    {
      input, pos, unreadMarker := bytes, at, 0;
      c, a, ct, stats := 0, 0, -16, map[];
      x, data, history, now, plan, ahead := UNIT, [], [], FRESH, Unknown, [];
      new;
      CodedNothing();
    }

    lemma FreshIsValid()
      requires c == a == 0 && ct == -16 && stats == now.stats && pos <= |input|
      requires x == UNIT && data == [] && history == [] && now == FRESH && plan.Unknown?
      ensures Valid()
    {
      CodedNothing();
    }

    /** Reset for a new code segment: two initial bytes will be read. */
    method Reset()
      requires pos <= |input|
      modifies this
      ensures Valid() && history == [] && data == [] && plan.Unknown?
      ensures pos == old(pos) && unreadMarker == old(unreadMarker)
    {
      c, a, ct, stats := 0, 0, -16, map[];
      x, data, history, now, plan, ahead := UNIT, [], [], FRESH, Unknown, [];
      FreshIsValid();
    }

    /** Where the decoder stands before the first decision of a segment. */
    ghost predicate AtStart()
      reads this
    {
      Valid() && history == [] && unreadMarker == 0 && data == []
    }

    /** Records that the input holds the segment of an encoder's run from here on. */
    ghost method Attach(script: seq<Decision>, final: Coder, segment: seq<Byte>, marker: Byte)
      requires AtStart()
      requires Coded(script, final) && Normal(final.x) && IsSegment(segment, final.x)
      requires HoldsSegment(input, pos, segment, marker)
      modifies this`plan, this`ahead
      ensures Valid() && plan == Known(script, final, segment, pos, marker) && ahead == script
    {
      assert Unfolded(ArithInput, 0);
      plan, ahead := Known(script, final, segment, pos, marker), script;
      assert history + ahead == script;
      assert Padded(segment, 0) == [];
      assert Stuff([]) == [];
    }

    /** After the last decision the decoder is at the marker or just behind it: no byte is left over. */
    lemma AtSegmentEnd()
      requires Valid() && plan.Known? && ahead == []
      ensures MarkerIsNext(input, pos, unreadMarker, plan.marker)
      ensures pos == plan.start + |Stuff(plan.segment)| + if unreadMarker == 0 then 0 else 2
    {
      assert Unfolded(ArithInput, 0);
      assert history + ahead == history;
      CodedRun(history, now);
      CodedRun(plan.script, plan.final);
      if Primed() {
        AllBytesRead(plan.segment, now.x, x, |data|, ct);
      } else {
        UnitSegmentIsEmpty(plan.segment);
      }
      if unreadMarker == 0 {
        NextByte(input, plan.start, plan.segment, plan.marker, pos, data);
        assert data == plan.segment;
      }
    }

    /** Takes the expected restart marker. */
    method TakeRestartMarker(nextRestartNum: nat) returns (r: Restart)
      requires pos <= |input| && nextRestartNum < 8
      modifies this`pos, this`unreadMarker
      ensures pos <= |input|
      ensures r == Found ==> unreadMarker == 0
      ensures old(MarkerIsNext(input, pos, unreadMarker, M_RST0 + nextRestartNum)) ==>
                r == Found && pos == old(pos) + if old(unreadMarker) == 0 then 2 else 0
    {
      var at, unread;
      r, at, unread := ReadRestartMarker(input, pos, unreadMarker, nextRestartNum);
      pos, unreadMarker := at, unread;
    }

    method GetByte() returns (ok: bool, b: Byte)
      modifies this`pos
      requires pos <= |input|
      ensures pos <= |input|
      ensures ok == (old(pos) < |input|)
      ensures ok ==> b == input[old(pos)] && pos == old(pos) + 1
      ensures !ok ==> pos == old(pos)
    {
      b := 0;
      ok := pos < |input|;
      if ok {
        b := input[pos];
        pos := pos + 1;
      }
    }

    /** Behind a 0xFF: a zero makes it a data byte, anything but more 0xFFs a marker. */
    method AfterFF() returns (ok: bool, b: Byte)
      requires pos <= |input| && unreadMarker == 0
      modifies this`pos, this`unreadMarker
      ensures pos <= |input|
      ensures var p := old(pos);
              p < |input| && input[p] != 0xFF ==>
                ok && pos == p + 1 && unreadMarker == input[p] && b == if input[p] == 0 then 0xFF else 0
    {
      ok, b := GetByte();
      while ok && b == 0xFF
        invariant pos <= |input|
        invariant old(pos) < |input| && input[old(pos)] != 0xFF ==> ok && pos == old(pos) + 1 && b == input[old(pos)]
        modifies this`pos
        decreases |input| - pos, ok
      {
        ok, b := GetByte();
      }
      if b == 0 {
        b := 0xFF;
      } else {
        unreadMarker := b;
        b := 0;
      }
    }

    /** What the input says about the next data byte. */
    lemma NextOnSegment()
      requires AtData() && plan.Known?
      ensures unreadMarker == 0 ==>
                && pos < |input|
                && (if input[pos] == 0xFF then
                      && pos + 1 < |input| && input[pos + 1] != 0xFF
                      && OnSegment(input, plan.start, plan.segment, plan.marker, pos + 2, input[pos + 1],
                                   data + [if input[pos + 1] == 0 then 0xFF else 0])
                    else
                      OnSegment(input, plan.start, plan.segment, plan.marker, pos + 1, 0, data + [input[pos]]))
      ensures unreadMarker != 0 ==>
                OnSegment(input, plan.start, plan.segment, plan.marker, pos, unreadMarker, data + [0])
    {
      if unreadMarker == 0 {
        NextByte(input, plan.start, plan.segment, plan.marker, pos, data);
      } else {
        PastMarker(input, plan.start, plan.segment, plan.marker, pos, data);
      }
    }

    /** The next data byte: escapes are undone, and zeros follow once a marker has been met. */
    method NextDataByte() returns (ok: bool, b: Byte)
      requires pos <= |input| && AtData()
      modifies this`pos, this`unreadMarker, this`data
      ensures pos <= |input| && data == old(data) + [b]
      ensures AtData() && (plan.Known? ==> ok)
    {
      b := 0;
      ok := true;
      if plan.Known? {
        NextOnSegment();
      }
      if unreadMarker == 0 {
        ok, b := GetByte();
        if ok && b == 0xFF {
          ok, b := AfterFF();
        }
      }
      data := data + [b];
    }

    ghost function Distance(): int
      reads this
    {
      if a == 0 then 0x20000 - |data| else 0x10000 - a
    }

    /** A data byte goes into C; after the second one of a segment A is set up as well. */
    method InsertByte() returns (ok: bool)
      requires pos <= |input| && AtData()
      requires Priming() || (Primed() && ct == 0 && a < 0x8000)
      modifies this`c, this`a, this`ct, this`pos, this`unreadMarker, this`data, this`x
      ensures pos <= |input| && AtData() && (plan.Known? ==> ok)
      ensures old(Priming()) && ok ==> |data| == |old(data)| + 1
      ensures old(Priming()) && ok && |data| == 1 ==> Priming()
      ensures old(Priming()) && ok && |data| == 2 ==> a == 0x8000 && Registers(c, 0x10000, ct, data, x) && x == UNIT
      ensures !old(Priming()) && ok ==> a == old(a) && Registers(c, 2 * a, ct, data, x) && x == Double(old(x))
    {
      var b: Byte;
      ok, b := NextDataByte();
      if !ok {
        return;
      }
      ValSnoc(old(data), b);
      ct := ct - 1;
      if a > 0 {
        ShiftInByte(c, a, old(data), x, b);
        x := Double(x);
      }
      c := c * 0x100 + b;
      ct := ct + 8;
      if ct < 0 {
        ct := ct + 1;
        if ct == 0 {
          a := 0x8000;
          FirstBytes(data);
          x := UNIT;
        }
      }
    }

    /** One pass of the input loop of section D.2.6. */
    method ShiftOnce(ghost y: Interval) returns (ok: bool)
      requires pos <= |input| && AtData()
      requires Denotes(y) && a < 0x8000
      modifies this`c, this`a, this`ct, this`pos, this`unreadMarker, this`data, this`x
      ensures pos <= |input| && AtData() && (plan.Known? ==> ok)
      ensures ok ==> Denotes(y) && Distance() < old(Distance())
    {
      ok := true;
      if ct <= 0 {
        ok := InsertByte();
        if !ok {
          return;
        }
      } else {
        ShiftInBits(c, a, ct, data, x);
        ct := ct - 1;
        x := Double(x);
      }
      a := a * 2;
    }

    /** Renormalisation and data input; the first call also reads the two initial bytes. */
    method Refill(ghost y: Interval) returns (ok: bool)
      requires pos <= |input| && Denotes(y) && AtData()
      modifies this`c, this`a, this`ct, this`pos, this`unreadMarker, this`data, this`x
      ensures pos <= |input| && AtData() && (plan.Known? ==> ok)
      ensures ok ==> Primed() && x == y && Normal(y)
    {
      ok := true;
      while a < 0x8000
        invariant pos <= |input| && Denotes(y) && AtData()
        decreases Distance()
      {
        ok := ShiftOnce(y);
        if !ok {
          return;
        }
      }
    }

    /** Splits the interval at the code value; the result is the decision and the bin's next state. */
    method Decide(sv: Stat) returns (bit: Bit, next: Stat)
      requires GoodStat(sv) && Primed() && Normal(x)
      modifies this`c, this`a, this`x
      ensures Primed() && x == Narrow(old(x), sv, bit) && next == Estimate(old(x), sv, bit)
    {
      ghost var whole := x;
      var qe := RowOf(sv).qe;
      a := a - qe;
      if c >= Shl(a, ct) {
        ChooseUpper(c, whole.a, ct, data, whole, a, qe);
        bit, next := TakeUpper(sv, qe, whole);
      } else {
        ChooseLower(c, whole.a, ct, data, whole, a);
        bit, next := TakeLower(sv, qe, whole);
      }
    }

    /** c lies in the upper sub-interval, whose size is Qe: the less probable symbol, or a conditional exchange. */
    method TakeUpper(sv: Stat, qe: int, ghost whole: Interval) returns (bit: Bit, next: Stat)
      requires GoodStat(sv) && Normal(whole) && qe == RowOf(sv).qe && a == whole.a - qe > 0 && 0 <= ct
      requires Registers(c - Shl(a, ct), qe, ct, data, Interval(whole.low + a, qe, whole.n))
      modifies this`c, this`a, this`x
      ensures Primed() && x == Narrow(whole, sv, bit) && next == Estimate(whole, sv, bit)
    {
      c := c - Shl(a, ct);
      x := Interval(whole.low + a, qe, whole.n);
      if a < qe {
        bit, next := sv.mps, AfterMps(sv);
      } else {
        bit, next := 1 - sv.mps, AfterLps(sv);
      }
      a := qe;
    }

    method TakeLower(sv: Stat, qe: int, ghost whole: Interval) returns (bit: Bit, next: Stat)
      requires GoodStat(sv) && Normal(whole) && qe == RowOf(sv).qe && a == whole.a - qe > 0 && 0 <= ct
      requires Registers(c, a, ct, data, whole.(a := a))
      modifies this`x
      ensures Primed() && x == Narrow(whole, sv, bit) && next == Estimate(whole, sv, bit)
    {
      x := whole.(a := a);
      bit, next := sv.mps, sv;
      if a < 0x8000 {
        if a < qe {
          bit, next := 1 - sv.mps, AfterLps(sv);
        } else {
          next := AfterMps(sv);
        }
      }
    }

    lemma ExpectedBit(k: Coder, st: Bin, bit: Bit)
      requires Coded(history, k) && Normal(k.x) && Primed() && x == Choice(k, Decision(st, bit))
      requires AtData() && OnScript() && Agrees(st)
      ensures bit == ahead[0].bit
    {
      var d := ahead[0];
      HeadNext(history, ahead);
      ScriptStaysInside(plan.script, plan.final, history, k, d);
      RegistersLocate(c, a, ct, data, x);
      PrefixDecides(plan.final.x, plan.segment, Choice(k, d), x, data, ct);
      ChoicesAreApart(k.x, Lookup(k.stats, st), d.bit, bit);
    }

    /** The decision just taken is the encoder's, if the encoder used the same bin. */
    ghost method Compare(k: Coder, st: Bin, bit: Bit)
      requires Coded(history, k) && Normal(k.x) && Primed() && x == Choice(k, Decision(st, bit))
      requires AtData() && OnScript()
      modifies this`plan, this`history, this`ahead
      ensures AtData() && OnScript()
      ensures history == old(history) + [Decision(st, bit)]
      ensures old(Agrees(st)) ==> bit == old(ahead)[0].bit && plan == old(plan) && ahead == old(ahead)[1..]
    {
      if Agrees(st) {
        ExpectedBit(k, st, bit);
        HeadNext(history, ahead);
        ahead := ahead[1..];
      } else {
        plan := Unknown;
      }
      history := history + [Decision(st, bit)];
    }

    /** Everything but the statistics update. */
    method DecodeBit(st: Bin, sv: Stat, ghost k: Coder) returns (ok: bool, bit: Bit, next: Stat)
      requires Coded(history, k) && Normal(k.x) && pos <= |input| && Denotes(k.x) && AtData() && OnScript()
      requires sv == Lookup(k.stats, st)
      modifies this`c, this`a, this`ct, this`pos, this`unreadMarker, this`data, this`x, this`plan, this`history,
          this`ahead
      ensures GoodStat(next) && (old(plan).Known? ==> ok)
      ensures ok ==> pos <= |input| && AtData() && OnScript() && Primed()
      ensures ok ==> x == Narrow(k.x, sv, bit) && next == Estimate(k.x, sv, bit)
      ensures ok ==> history == old(history) + [Decision(st, bit)]
      ensures old(Agrees(st)) ==> bit == old(ahead)[0].bit && plan == old(plan) && ahead == old(ahead)[1..]
    {
      bit, next := 0, sv;
      ok := Refill(k.x);
      if ok {
        bit, next := Decide(sv);
        Compare(k, st, bit);
      }
    }

    /** Decodes one binary decision with the statistics bin `st`. */
    method ArithDecode(st: Bin) returns (ok: bool, bit: Bit)
      requires Valid() && InArea(st)
      modifies this
      ensures old(plan).Known? ==> ok
      ensures ok ==> Valid() && history == old(history) + [Decision(st, bit)]
      ensures old(Agrees(st)) ==> bit == old(ahead)[0].bit && plan == old(plan) && ahead == old(ahead)[1..]
    {
      assert Unfolded(ArithInput, 0);
      var next: Stat;
      ok, bit, next := DecodeBit(st, Lookup(stats, st), now);
      stats := stats[st := next];
      if ok {
        now := Coder(Renorm(x), stats);
        CodedSnoc(old(history), Decision(st, bit), old(now), now.x, stats);
      }
    }
  }
}
