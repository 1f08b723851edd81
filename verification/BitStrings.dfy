/** Bit strings, most significant bit first. */
module BitStrings {
  import opened Numbers

  type Bits = seq<Bit>

  function Value(s: Bits): nat {
    if s == [] then 0 else 2 * Value(s[..|s| - 1]) + s[|s| - 1]
  }

  /** The low n bits of v. */
  function Low(v: nat, n: nat): (s: Bits)
    ensures |s| == n
    decreases n
  {
    if n == 0 then [] else Low(v / 2, n - 1) + [v % 2]
  }

  lemma ValueSnoc(s: Bits, b: Bit)
    ensures Value(s + [b]) == 2 * Value(s) + b
  {
    assert (s + [b])[..|s|] == s;
  }

  lemma {:induction false} ValueOfLow(v: nat, n: nat)
    requires v < Shl(1, n)
    ensures Value(Low(v, n)) == v
    decreases n
  {
    if n > 0 {
      ShlShl(1, n - 1, 1);
      ValueOfLow(v / 2, n - 1);
      ValueSnoc(Low(v / 2, n - 1), v % 2);
    }
  }

  lemma {:induction false} LowOfValue(s: Bits)
    ensures Low(Value(s), |s|) == s
    decreases |s|
  {
    if s != [] {
      LowOfValue(s[..|s| - 1]);
      TakeSnoc(s, |s| - 1);
    }
  }

  lemma {:induction false} ValueBound(s: Bits)
    ensures Value(s) < Shl(1, |s|)
    decreases |s|
  {
    if s != [] {
      ShlShl(1, |s| - 1, 1);
      ValueBound(s[..|s| - 1]);
    }
  }

  /** Low bits of a number shifted right: the front of a longer string. */
  lemma {:induction false} LowShifted(v: nat, n: nat, k: nat)
    ensures Low(Shr(v, k), n) == Low(v, n + k)[..n]
    decreases k
  {
    if k > 0 {
      LowShifted(v / 2, n, k - 1);
      var s := Low(v / 2, n + k - 1);
      assert (s + [v % 2])[..n] == s[..n];
    } else {
      assert Low(v, n)[..n] == Low(v, n);
    }
  }

  lemma {:induction false} ValueConcat(s: Bits, t: Bits)
    ensures Value(s + t) == Shl(Value(s), |t|) + Value(t)
    decreases |t|
  {
    if t == [] {
      assert s + t == s;
    } else {
      var u, b := t[..|t| - 1], t[|t| - 1];
      ValueConcat(s, u);
      assert t == u + [b];
      Assoc(s, u, [b]);
      ValueSnoc(s + u, b);
      ShlAdd(Value(s), Value(s), |u|);
    }
  }

  /** The bits of a byte string. */
  function BitsOf(s: seq<Byte>): (t: Bits)
    ensures |t| == 8 * |s|
  {
    if s == [] then [] else BitsOf(s[..|s| - 1]) + Low(s[|s| - 1], 8)
  }

  lemma BitsOfSnoc(s: seq<Byte>, b: Byte)
    ensures BitsOf(s + [b]) == BitsOf(s) + Low(b, 8)
  {
    assert (s + [b])[..|s|] == s;
  }

  lemma {:induction false} BitsOfConcat(s: seq<Byte>, t: seq<Byte>)
    ensures BitsOf(s + t) == BitsOf(s) + BitsOf(t)
    decreases |t|
  {
    if t == [] {
      assert s + t == s;
    } else {
      var u, b := t[..|t| - 1], t[|t| - 1];
      BitsOfConcat(s, u);
      assert t == u + [b];
      Assoc(s, u, [b]);
      BitsOfSnoc(s + u, b);
      Assoc(BitsOf(s), BitsOf(u), Low(b, 8));
    }
  }

  lemma BitsOfHead(b: Byte, s: seq<Byte>)
    ensures BitsOf([b] + s) == Low(b, 8) + BitsOf(s)
  {
    BitsOfConcat([b], s);
    assert [b] == [] + [b];
    BitsOfSnoc([], b);
    assert [] + Low(b, 8) == Low(b, 8);
  }

  lemma ByteBound(s: Bits)
    requires |s| == 8
    ensures Value(s) < 256
  {
    ValueBound(s);
    ShlTable(1);
  }

  /** The bytes that a bit string fills. */
  function Whole(bits: Bits): (s: seq<Byte>)
    decreases |bits|
  {
    if |bits| < 8 then []
    else
      ByteBound(bits[..8]);
      [Value(bits[..8])] + Whole(bits[8..])
  }

  lemma {:induction false} WholePrefix(a: Bits, b: Bits)
    requires a <= b
    ensures Whole(a) <= Whole(b)
    decreases |a|
  {
    if |a| >= 8 {
      assert a[..8] == b[..8] && a[8..] <= b[8..];
      WholePrefix(a[8..], b[8..]);
    }
  }

  lemma {:induction false} WholeOf(s: seq<Byte>, rest: Bits)
    requires |rest| < 8
    ensures Whole(BitsOf(s) + rest) == s
    decreases |s|
  {
    if s == [] {
      assert [] + rest == rest;
    } else {
      var head := Low(s[0], 8);
      assert s == [s[0]] + s[1..];
      BitsOfHead(s[0], s[1..]);
      Assoc(head, BitsOf(s[1..]), rest);
      assert (BitsOf(s) + rest)[..8] == head && (BitsOf(s) + rest)[8..] == BitsOf(s[1..]) + rest;
      ShlTable(1);
      ValueOfLow(s[0], 8);
      WholeOf(s[1..], rest);
    }
  }

  /** Low bits of a sum: a longer string is a higher part and a lower part. */
  lemma {:induction false} LowSplit(v: nat, w: nat, n: nat, k: nat)
    requires w < Shl(1, k)
    ensures Shl(v, k) >= 0 && Low(Shl(v, k) + w, n + k) == Low(v, n) + Low(w, k)
    decreases k
  {
    ShlZero(k);
    ShlOrder(v, 0, k);
    if k > 0 {
      ShlShl(1, k - 1, 1);
      ShlAdd(v, v, k - 1);
      ShlZero(k - 1);
      ShlOrder(v, 0, k - 1);
      LowSplit(v, w / 2, n, k - 1);
      assert (Shl(v, k) + w) / 2 == Shl(v, k - 1) + w / 2;
      Assoc(Low(v, n), Low(w / 2, k - 1), [w % 2]);
    } else {
      assert Low(v, n) + Low(w, 0) == Low(v, n);
    }
  }

  function Ones(n: nat): (s: Bits)
    ensures |s| == n
  {
    seq(n, _ => 1)
  }
}
