/** The search for the next marker, and the numbering of restart markers. */
module Markers {
  import opened Numbers

  const M_RST0 := 0xD0

  datatype Restart = Found | MustResync | OutOfInput

  /** The next marker is m, whether or not its two bytes have been read already. */
  predicate MarkerIsNext(input: seq<Byte>, pos: nat, unread: Byte, m: Byte) {
    0 < m < 0xFF &&
    if unread == 0 then pos + 2 <= |input| && input[pos] == 0xFF && input[pos + 1] == m else unread == m
  }

  /** Only the first byte of the marker has arrived, or none. */
  predicate MarkerIsLate(input: seq<Byte>, pos: nat) {
    pos <= |input| <= pos + 1 && (|input| == pos + 1 ==> input[pos] == 0xFF)
  }

  /** Reads on to the first byte that is 0xFF or, behind fill bytes, to the first that is not. */
  method SkipTo(input: seq<Byte>, pos0: nat, fill: bool) returns (ok: bool, b: Byte, pos: nat)
    requires pos0 <= |input|
    ensures pos0 <= pos <= |input| && (ok ==> pos0 < pos && b == input[pos - 1] && (fill <==> b != 0xFF))
    ensures pos0 < |input| && (fill <==> input[pos0] != 0xFF) ==> ok && pos == pos0 + 1
    ensures pos0 == |input| ==> !ok
  {
    ok, b, pos := false, 0, pos0;
    while pos < |input| && !ok
      invariant pos0 <= pos <= |input|
      invariant ok ==> pos0 < pos && b == input[pos - 1] && (fill <==> b != 0xFF)
      invariant pos0 < |input| && (fill <==> input[pos0] != 0xFF) ==> if ok then pos == pos0 + 1 else pos == pos0
      decreases |input| - pos, !ok
    {
      b := input[pos];
      pos := pos + 1;
      ok := fill == (b != 0xFF);
    }
  }

  /**
   * next_marker: on valid data the marker is the very next thing. Without input it stays in front of the 0xFF, so
   * that it can be called again.
   */
  method NextMarker(input: seq<Byte>, pos0: nat) returns (ok: bool, b: Byte, pos: nat)
    requires pos0 <= |input|
    ensures pos0 <= pos <= |input| && (ok ==> 0 < b < 0xFF)
    ensures forall m :: MarkerIsNext(input, pos0, 0, m) ==> ok && b == m && pos == pos0 + 2
    ensures MarkerIsLate(input, pos0) ==> !ok && pos == pos0
  {
    ok, b, pos := true, 0, pos0;
    while ok && b == 0
      invariant pos0 <= pos <= |input| && b != 0xFF
      invariant forall m :: MarkerIsNext(input, pos0, 0, m) ==>
                  ok && if b == 0 then pos == pos0 else pos == pos0 + 2 && b == m
      invariant MarkerIsLate(input, pos0) ==> pos == pos0 && (ok ==> b == 0)
      decreases |input| - pos, b == 0, ok
    {
      var at;
      ok, b, at := SkipTo(input, pos, false);
      pos := if ok then at - 1 else at;
      if ok {
        ok, b, at := SkipTo(input, at, true);
        pos := if ok then at else pos;
      }
      if !ok {
        b := 0;
      }
    }
  }

  /** read_restart_marker: takes the expected marker; anything else is left to the source's resynchronisation. */
  method ReadRestartMarker(input: seq<Byte>, pos0: nat, unread0: Byte, nextRestartNum: nat)
    returns (r: Restart, pos: nat, unread: Byte)
    requires pos0 <= |input| && nextRestartNum < 8
    ensures pos <= |input| && (r == Found ==> unread == 0)
    ensures MarkerIsNext(input, pos0, unread0, M_RST0 + nextRestartNum) ==>
              r == Found && pos == pos0 + if unread0 == 0 then 2 else 0
    ensures unread0 == 0 && MarkerIsLate(input, pos0) ==> r == OutOfInput && pos == pos0 && unread == 0
  {
    var ok := true;
    r, pos, unread := OutOfInput, pos0, unread0;
    if unread == 0 {
      var b;
      ok, b, pos := NextMarker(input, pos);
      unread := if ok then b else 0;
    }
    if ok {
      if unread == M_RST0 + nextRestartNum {
        r, unread := Found, 0;
      } else {
        r := MustResync;
      }
    }
  }

  /** (n + 1) & 7 */
  function Following(n: nat): (m: nat)
    requires n < 8
    ensures m < 8
  {
    if n == 7 then 0 else n + 1
  }
}
