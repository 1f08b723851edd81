/** Reading an escaped code segment and the marker behind it, as both entropy decoders do. */
module ByteStuffing {
  import opened Numbers
  import opened IntervalCoder
  import opened CodeSegments

  lemma {:induction false} StuffConcat(s: seq<Byte>, t: seq<Byte>)
    ensures Stuff(s + t) == Stuff(s) + Stuff(t)
  {
    if t == [] {
      assert s + t == s;
    } else {
      var u := t[..|t| - 1];
      assert (s + t)[..|s + t| - 1] == s + u;
      StuffConcat(s, u);
    }
  }

  lemma StuffByte(s: seq<Byte>, b: Byte)
    ensures Stuff(s + [b]) == Stuff(s) + (if b == 0xFF then [0xFF, 0] else [b])
  {
    assert (s + [b])[..|s|] == s;
  }

  lemma StuffPrefix(s: seq<Byte>, t: seq<Byte>)
    requires s <= t
    ensures Stuff(s) <= Stuff(t)
  {
    StuffConcat(s, t[|s|..]);
    assert s + t[|s|..] == t;
  }

  /** The input holds the escaped bytes d at `start`, followed by a marker. */
  ghost predicate HoldsSegment(input: seq<Byte>, start: nat, d: seq<Byte>, m: Byte) {
    && 0 < m < 0xFF
    && start <= |input|
    && Stuff(d) + [0xFF, m] <= input[start..]
  }

  /** Where a reader is after `data`: inside d, or behind the marker and making up zeros. */
  ghost predicate OnSegment(input: seq<Byte>, start: nat, d: seq<Byte>, m: Byte,
                            pos: nat, unread: Byte, data: seq<Byte>)
  {
    && HoldsSegment(input, start, d, m)
    && data == Padded(d, |data|)
    && (unread == 0 ==> |data| <= |d| && pos == start + |Stuff(data)|)
    && (unread != 0 ==> unread == m && |data| > |d| && pos == start + |Stuff(d)| + 2)
  }

  /** What a reader inside the segment finds at its position. */
  lemma NextByte(input: seq<Byte>, start: nat, d: seq<Byte>, m: Byte, pos: nat, data: seq<Byte>)
    requires OnSegment(input, start, d, m, pos, 0, data)
    ensures pos < |input|
    ensures |data| < |d| && d[|data|] != 0xFF ==>
              input[pos] == d[|data|] && OnSegment(input, start, d, m, pos + 1, 0, data + [d[|data|]])
    ensures |data| < |d| && d[|data|] == 0xFF ==>
              && pos + 2 <= |input| && input[pos] == 0xFF && input[pos + 1] == 0
              && OnSegment(input, start, d, m, pos + 2, 0, data + [0xFF])
    ensures |data| == |d| ==>
              && pos + 2 <= |input| && input[pos] == 0xFF && input[pos + 1] == m
              && OnSegment(input, start, d, m, pos + 2, m, data + [0])
  {
    var j := |data|;
    var tail := input[start..];
    if j < |d| {
      var b := d[j];
      StuffByte(data, b);
      StuffConcat(data + [b], d[j + 1..]);
      assert data + [b] + d[j + 1..] == d;
      assert tail[|Stuff(data)|] == input[pos];
      assert Stuff(data + [b]) <= tail;
      if b == 0xFF {
        assert tail[|Stuff(data)| + 1] == input[pos + 1];
      }
      assert data + [b] == Padded(d, j + 1);
    } else {
      assert data == d;
      assert tail[|Stuff(d)|] == input[pos] && tail[|Stuff(d)| + 1] == input[pos + 1];
      assert data + [0] == Padded(d, j + 1);
    }
  }

  lemma PastMarker(input: seq<Byte>, start: nat, d: seq<Byte>, m: Byte, pos: nat, data: seq<Byte>)
    requires OnSegment(input, start, d, m, pos, m, data)
    ensures OnSegment(input, start, d, m, pos, m, data + [0])
  {
    assert data + [0] == Padded(d, |data| + 1);
  }

  /** A stream whose end is a code segment, followed by a marker and anything else. */
  lemma SegmentBehind(before: seq<Byte>, d: seq<Byte>, m: Byte, after: seq<Byte>)
    requires 0 < m < 0xFF
    ensures HoldsSegment(before + Stuff(d) + [0xFF, m] + after, |before|, d, m)
  {
    var s := Stuff(d) + [0xFF, m];
    Assoc(before, Stuff(d), [0xFF, m]);
    Assoc(before, s, after);
    DropInside(before, s + after, |before|);
    assert before[|before|..] + (s + after) == s + after;
  }
}
