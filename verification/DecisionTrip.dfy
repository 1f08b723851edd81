/** Any decisions through the arithmetic encoder and decoder: sections D.1 and D.2 of T.81. */
module DecisionTrip {
  import opened Numbers
  import opened IntervalCoder
  import opened CodeSegments
  import opened ByteStuffing
  import opened Markers
  import opened ArithEncoder
  import opened ArithDecoder

  predicate AllInArea(ds: seq<Decision>) {
    forall i :: 0 <= i < |ds| ==> InArea(ds[i].bin)
  }

  /** The states of all bins before each decision and after the last one. */
  ghost predicate StatesOf(states: seq<Stats>, ds: seq<Decision>) {
    |states| == |ds| + 1 && forall k :: 0 <= k <= |ds| ==> states[k] == Run(ds[..k]).stats
  }

  lemma EncoderStates(e: ArithEncoder)
    requires e.Valid()
    ensures e.stats == Run(e.history).stats
  {
    assert Unfolded(ArithOutput, 0);
    CodedRun(e.history, e.now);
  }

  lemma DecoderStates(d: ArithDecoder)
    requires d.Valid()
    ensures d.stats == Run(d.history).stats
  {
    assert Unfolded(ArithInput, 0);
    CodedRun(d.history, d.now);
  }

  lemma StatesSnoc(states: seq<Stats>, ds: seq<Decision>, k: nat, next: Stats)
    requires k < |ds| && StatesOf(states, ds[..k]) && next == Run(ds[..k + 1]).stats
    ensures StatesOf(states + [next], ds[..k + 1])
  {
    forall j | 0 <= j <= k ensures ds[..k + 1][..j] == ds[..k][..j] {
    }
    assert ds[..k + 1][..k + 1] == ds[..k + 1];
  }

  method FirstStates(e: ArithEncoder, ghost ds: seq<Decision>) returns (states: seq<Stats>)
    requires e.Valid() && e.history == []
    ensures e.history == ds[..0] && StatesOf(states, ds[..0])
  {
    EncoderStates(e);
    states := [e.stats];
    assert ds[..0] == [];
  }

  method EncodeNext(e: ArithEncoder, d: Decision, states0: seq<Stats>, ghost ds: seq<Decision>, ghost k: nat)
    returns (states: seq<Stats>)
    requires e.Valid() && k < |ds| && d == ds[k] && InArea(d.bin) && e.history == ds[..k] && StatesOf(states0, ds[..k])
    modifies e
    ensures e.Valid() && e.prefix == old(e.prefix) && e.history == ds[..k + 1] && StatesOf(states, ds[..k + 1])
  {
    TakeSnoc(ds, k);
    e.ArithEncode(d.bin, d.bit);
    EncoderStates(e);
    StatesSnoc(states0, ds, k, e.stats);
    states := states0 + [e.stats];
  }

  method EncodeAll(e: ArithEncoder, ds: seq<Decision>) returns (states: seq<Stats>)
    requires AllInArea(ds)
    modifies e
    ensures e.Valid() && e.history == ds && e.prefix == old(e.output) && StatesOf(states, ds)
  {
    e.Reset();
    states := FirstStates(e, ds);
    var k := 0;
    while k < |ds|
      invariant 0 <= k <= |ds| && e.Valid() && e.history == ds[..k] && e.prefix == old(e.output)
      invariant StatesOf(states, ds[..k])
    {
      states := EncodeNext(e, ds[k], states, ds, k);
      k := k + 1;
    }
    assert ds[..k] == ds;
  }

  /** One code segment: all decisions, then finish_pass. */
  method EncodeDecisions(e: ArithEncoder, ds: seq<Decision>) returns (states: seq<Stats>)
    requires AllInArea(ds)
    modifies e
    ensures e.output == old(e.output) + Stuff(e.emitted)
    ensures Coded(ds, e.now) && Normal(e.now.x) && IsSegment(e.emitted, e.now.x)
    ensures StatesOf(states, ds)
  {
    states := EncodeAll(e, ds);
    e.FinishPass();
  }

  predicate BinsOf(bins: seq<Bin>, ds: seq<Decision>) {
    |bins| == |ds| && forall i :: 0 <= i < |ds| ==> bins[i] == ds[i].bin
  }

  predicate BitsAre(bits: seq<Bit>, ds: seq<Decision>) {
    |bits| == |ds| && forall i :: 0 <= i < |ds| ==> bits[i] == ds[i].bit
  }

  /** As many decisions, asked for in the same bins. */
  method DecodeDecisions(d: ArithDecoder, bins: seq<Bin>, ghost ds: seq<Decision>)
    returns (ok: bool, bits: seq<Bit>, states: seq<Stats>)
    requires d.Valid() && d.plan.Known? && d.history == [] && d.ahead == ds && AllInArea(ds) && BinsOf(bins, ds)
    modifies d
    ensures ok && d.Valid() && d.plan == old(d.plan) && d.ahead == []
    ensures BitsAre(bits, ds) && StatesOf(states, ds)
  {
    ok, bits := true, [];
    DecoderStates(d);
    states := [d.stats];
    assert ds[..0] == [] && ds[0..] == ds;
    var k := 0;
    while k < |bins|
      invariant 0 <= k <= |bins| && ok && d.Valid() && d.plan == old(d.plan)
      invariant d.history == ds[..k] && d.ahead == ds[k..]
      invariant BitsAre(bits, ds[..k]) && StatesOf(states, ds[..k])
    {
      TakeSnoc(ds, k);
      assert ds[k..][0] == ds[k] && ds[k..][1..] == ds[k + 1..];
      var bit;
      ok, bit := d.ArithDecode(bins[k]);
      DecoderStates(d);
      StatesSnoc(states, ds, k, d.stats);
      bits, states := bits + [bit], states + [d.stats];
      k := k + 1;
    }
    assert ds[..k] == ds;
  }

  /**
   * Whatever decisions are coded, in whatever bins, and whatever surrounds the code segment: the decoder
   * returns them, takes every bin through the same states, and has then read every byte up to the marker.
   */
  method DecisionRoundTrip(ds: seq<Decision>, bins: seq<Bin>, before: seq<Byte>, marker: Byte, after: seq<Byte>)
    returns (stream: seq<Byte>, bits: seq<Bit>, sent: seq<Stats>, received: seq<Stats>, pos: nat, unread: Byte)
    requires AllInArea(ds) && BinsOf(bins, ds) && 0 < marker < 0xFF
    ensures before <= stream && BitsAre(bits, ds)
    ensures sent == received && StatesOf(received, ds)
    ensures MarkerIsNext(stream + [0xFF, marker] + after, pos, unread, marker)
    ensures pos == |stream| + if unread == 0 then 0 else 2
  {
    var e := new ArithEncoder(before);
    sent := EncodeDecisions(e, ds);
    stream := e.output;
    SegmentBehind(before, e.emitted, marker, after);
    var d := new ArithDecoder(stream + [0xFF, marker] + after, |before|);
    d.Attach(ds, e.now, e.emitted, marker);
    var ok;
    ok, bits, received := DecodeDecisions(d, bins, ds);
    d.AtSegmentEnd();
    pos, unread := d.pos, d.unreadMarker;
    SameStates(sent, received, ds);
  }

  lemma SameStates(s: seq<Stats>, t: seq<Stats>, ds: seq<Decision>)
    requires StatesOf(s, ds) && StatesOf(t, ds)
    ensures s == t
  {
  }
}
