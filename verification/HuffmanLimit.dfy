/** jpeg_gen_optimal_table: optimal code lengths cut down to 16 bits, as a table; section K.2 of T.81. */
module HuffmanLimit {
  import opened Numbers
  import opened HuffmanTable
  import opened HuffmanMerge
  import opened HuffmanListing

  /** How much of the code space of l bits is taken by codes of up to l bits. */
  function Fill(bits: seq<nat>, l: nat): nat
    requires l < |bits|
  {
    if l == 0 then 0 else 2 * Fill(bits, l - 1) + bits[l]
  }

  /** The number of codes of up to l bits. */
  function Total(bits: seq<nat>, l: nat): nat
    requires l < |bits|
  {
    if l == 0 then 0 else Total(bits, l - 1) + bits[l]
  }

  /** UINT8 arithmetic */
  function Wrap(x: int): (r: nat)
    ensures r < 0x100 && (0 <= x < 0x100 ==> r == x)
  {
    x % 0x100
  }

  /** k codes more of length l. */
  predicate HasMore(a: seq<nat>, b: seq<nat>, l: nat, k: nat) {
    0 < l && DifferAt(a, b, l) && b[l] == a[l] + k
  }

  lemma {:induction false} OneMore(a: seq<nat>, b: seq<nat>, l: nat, n: nat)
    requires HasMore(a, b, l, 1) && l <= n < |a|
    ensures Fill(b, n) == Fill(a, n) + Pow2(n - l)
    ensures Total(b, n) == Total(a, n) + 1
    decreases n
  {
    if l < n {
      OneMore(a, b, l, n - 1);
    } else {
      SamePrefix(a, b, n - 1);
    }
  }

  lemma {:induction false} SamePrefix(a: seq<nat>, b: seq<nat>, n: nat)
    requires n < |a| && n < |b| && forall l :: 0 < l <= n ==> a[l] == b[l]
    ensures Fill(a, n) == Fill(b, n) && Total(a, n) == Total(b, n)
    decreases n
  {
    if n > 0 {
      SamePrefix(a, b, n - 1);
    }
  }

  lemma {:induction false} EachBelowTotal(bits: seq<nat>, l: nat, n: nat)
    requires 0 < l <= n < |bits|
    ensures bits[l] <= Total(bits, n)
    decreases n
  {
    if l < n {
      EachBelowTotal(bits, l, n - 1);
    }
  }

  lemma {:induction false} EmptyFill(bits: seq<nat>, n: nat)
    requires n < |bits| && forall l :: 0 < l <= n ==> bits[l] == 0
    ensures Fill(bits, n) == 0
    decreases n
  {
    if n > 0 {
      EmptyFill(bits, n - 1);
    }
  }

  // ---- Counting the lengths

  /** Every symbol that occurs has a code, and no other. */
  predicate Assigned(f: seq<nat>, lens: seq<nat>) {
    |f| == |lens| && forall i :: 0 <= i < |f| ==> (f[i] != 0 <==> lens[i] != 0)
  }

  /** How many symbols that occur have codes of length l. */
  function CodesOf(f: seq<nat>, lens: seq<nat>, l: nat): nat
    requires |f| == |lens|
  {
    if f == [] then 0
    else
      var m := |f| - 1;
      CodesOf(f[..m], lens[..m], l) + if f[m] != 0 && lens[m] == l then 1 else 0
  }

  /** A byte is too small for the number of codes of some length. */
  ghost predicate Crowded(f: seq<nat>, lens: seq<nat>)
    requires |f| == |lens|
  {
    exists l :: 0 < l <= MAX_CLEN && CodesOf(f, lens, l) > 0xFF
  }

  /** The counts, as they would be without a limit, of the first i symbols. */
  ghost predicate CountsTo(bits: seq<nat>, f: seq<nat>, lens: seq<nat>)
    requires |f| == |lens|
  {
    && |bits| == MAX_CLEN + 1 && Fill(bits, 32) == Kraft(f, lens, 32) && Total(bits, 32) == Live(f)
    && forall l :: 0 < l <= MAX_CLEN ==> bits[l] == CodesOf(f, lens, l)
  }

  lemma OneMoreCounted(bits: seq<nat>, f: seq<nat>, lens: seq<nat>, i: nat)
    requires |f| == |lens| && i < |f| && CountsTo(bits, f[..i], lens[..i]) && (f[i] != 0 <==> lens[i] != 0)
    requires lens[i] <= MAX_CLEN
    ensures CountsTo(if lens[i] == 0 then bits else bits[lens[i] := bits[lens[i]] + 1], f[..i + 1], lens[..i + 1])
  {
    PrefixSums(f, lens, i);
    assert f[..i + 1][..i] == f[..i] && lens[..i + 1][..i] == lens[..i];
    if lens[i] != 0 {
      OneMore(bits, bits[lens[i] := bits[lens[i]] + 1], lens[i], 32);
    }
  }

  /** The counts of the code lengths. */
  method CountLengths(codesize: array<nat>, ghost f: seq<nat>) returns (ok: bool, wrapped: bool, bits: array<nat>)
    requires Assigned(f, codesize[..])
    ensures ok ==> forall i :: 0 <= i < codesize.Length ==> codesize[i] <= MAX_CLEN
    ensures !ok ==> exists i :: 0 <= i < codesize.Length && codesize[i] > MAX_CLEN
    ensures fresh(bits) && bits.Length == MAX_CLEN + 1
    ensures ok ==> (wrapped <==> Crowded(f, codesize[..]))
    ensures ok && !wrapped ==> CountsTo(bits[..], f, codesize[..]) && forall l :: 0 < l <= 32 ==> bits[l] < 0x100
  {
    bits := new nat[MAX_CLEN + 1](_ => 0);
    ok, wrapped := true, false;
    ghost var lens, all, w := codesize[..], bits[..], 1;
    EmptyFill(all, 32);
    EmptyTotal(all, 32);
    var i := 0;
    while i < codesize.Length && ok
      invariant 0 <= i <= codesize.Length && fresh(bits) && bits.Length == 33 && codesize[..] == lens
      invariant ok ==> forall j :: 0 <= j < i ==> codesize[j] <= MAX_CLEN
      invariant !ok ==> exists j :: 0 <= j < codesize.Length && codesize[j] > MAX_CLEN
      invariant ok ==> CountsTo(all, f[..i], lens[..i])
      invariant ok && !wrapped ==> bits[..] == all && forall l :: 0 < l <= 32 ==> bits[l] < 0x100
      invariant ok && wrapped ==> 0 < w <= 32 && all[w] > 0xFF
      decreases codesize.Length - i, ok
    {
      if codesize[i] > MAX_CLEN {
        ok := false;
      } else {
        OneMoreCounted(all, f, lens, i);
        if codesize[i] != 0 {
          all := all[codesize[i] := all[codesize[i]] + 1];
          w := if wrapped then w else codesize[i];
          wrapped := wrapped || bits[codesize[i]] == 0xFF;
          bits[codesize[i]] := Wrap(bits[codesize[i]] + 1);
        }
      }
      i := i + 1;
    }
    assert f[..|f|] == f && lens[..|f|] == lens;
    assert ok && wrapped ==> CodesOf(f, lens, w) > 0xFF;
  }

  lemma {:induction false} EmptyTotal(bits: seq<nat>, n: nat)
    requires n < |bits| && forall l :: 0 < l <= n ==> bits[l] == 0
    ensures Total(bits, n) == 0
    decreases n
  {
    if n > 0 {
      EmptyTotal(bits, n - 1);
    }
  }

  lemma PrefixSums(f: seq<nat>, lens: seq<nat>, i: nat)
    requires |f| == |lens| && i < |f|
    ensures Kraft(f[..i + 1], lens[..i + 1], 32) == Kraft(f[..i], lens[..i], 32) + if f[i] != 0 then Share(lens[i],
              32) else 0
    ensures Live(f[..i + 1]) == Live(f[..i]) + (if f[i] != 0 then 1 else 0) <= Live(f)
  {
    assert f[..i + 1][..i] == f[..i] && lens[..i + 1][..i] == lens[..i];
    LivePrefix(f, i + 1);
  }

  lemma {:induction false} LivePrefix(f: seq<nat>, i: nat)
    requires i <= |f|
    ensures Live(f[..i]) <= Live(f)
    decreases |f|
  {
    if i < |f| {
      LivePrefix(f[..|f| - 1], i);
      assert f[..|f| - 1][..i] == f[..i];
    } else {
      assert f[..i] == f;
    }
  }

  // ---- Cutting down to 16 bits

  /** A complete code of at most 257 words, none longer than i; no count is too large for a byte. */
  ghost predicate Complete(bits: seq<nat>, i: nat, total: nat) {
    && |bits| == 33 && i <= 32 && Fill(bits, i) == Pow2(i) && Total(bits, i) == total <= 257
    && (forall l :: i < l <= 32 ==> bits[l] == 0)
    && (forall l :: 0 < l <= 32 ==> bits[l] < 0x100)
  }

  lemma PowTable()
    ensures Pow2(8) == 0x100 && Pow2(17) == 0x20000
  {
    assert Pow2(8) == 2 * Pow2(7) == 4 * Pow2(6) == 8 * Pow2(5) == 16 * Pow2(4)
           == 32 * Pow2(3) == 64 * Pow2(2) == 128 * Pow2(1);
    assert Pow2(17) == 2 * Pow2(16) == 4 * Pow2(15) == 8 * Pow2(14) == 16 * Pow2(13) == 32 * Pow2(12) == 64 * Pow2(11)
                    == 128 * Pow2(10) == 256 * Pow2(9) == 512 * Pow2(8);
  }

  lemma {:induction false} PowOrder(j: nat, k: nat)
    requires j <= k
    ensures Pow2(j) <= Pow2(k)
  {
    if j < k {
      PowOrder(j, k - 1);
    }
  }

  /** Codes of more than 16 bits come in pairs, and there is a shorter code that can be split. */
  lemma SplitExists(bits: seq<nat>, i: nat, total: nat)
    requires Complete(bits, i, total) && i > 16 && bits[i] > 0
    ensures bits[i] >= 2 && exists j :: 0 < j <= i - 2 && bits[j] > 0
  {
    EachBelowTotal(bits, i, i);
    EachBelowTotal(bits, i - 1, i);
    PowTable();
    PowOrder(17, i);
    assert Fill(bits, i) == 2 * Fill(bits, i - 1) + bits[i];
    assert Fill(bits, i - 1) == 2 * Fill(bits, i - 2) + bits[i - 1];
    if forall j :: 0 < j <= i - 2 ==> bits[j] == 0 {
      EmptyFill(bits, i - 2);
      assert false;
    }
    assert Pow2(i) == 2 * Pow2(i - 1);
  }

  /** Two codes of length i become one of length i - 1, and one of length j becomes two of length j + 1. */
  function Moved(bits: seq<nat>, i: nat, j: nat): (b: seq<nat>)
    requires 0 < j <= i - 2 && i < |bits| && bits[i] >= 2 && bits[j] > 0
    ensures |b| == |bits|
  {
    var b1 := bits[i := bits[i] - 2];
    var b2 := b1[i - 1 := b1[i - 1] + 1];
    var b3 := b2[j + 1 := b2[j + 1] + 2];
    b3[j := b3[j] - 1]
  }

  lemma {:induction false} TwoMore(a: seq<nat>, b: seq<nat>, l: nat, n: nat)
    requires HasMore(a, b, l, 2) && l <= n < |a|
    ensures Fill(b, n) == Fill(a, n) + 2 * Pow2(n - l)
    ensures Total(b, n) == Total(a, n) + 2
    decreases n
  {
    if l < n {
      TwoMore(a, b, l, n - 1);
    } else {
      SamePrefix(a, b, n - 1);
    }
  }

  lemma MoveSums(bits: seq<nat>, b1: seq<nat>, b2: seq<nat>, b3: seq<nat>, b4: seq<nat>, i: nat, j: nat)
    requires 0 < j <= i - 2 && i < |bits|
    requires HasMore(b1, bits, i, 2) && HasMore(b1, b2, i - 1, 1) && HasMore(b2, b3, j + 1, 2) && HasMore(b4, b3, j, 1)
    ensures Fill(b4, i) == Fill(bits, i) && Total(b4, i) == Total(bits, i)
  {
    TwoMore(b1, bits, i, i);
    OneMore(b1, b2, i - 1, i);
    TwoMore(b2, b3, j + 1, i);
    OneMore(b4, b3, j, i);
    assert Pow2(0) == 1 && Pow2(1) == 2 * Pow2(0) && Pow2(i - j) == 2 * Pow2(i - (j + 1));
  }

  // In a complete code of at most 257 words 256 of one length leave no room for a long one.

  lemma {:induction false} ManyMore(a: seq<nat>, b: seq<nat>, l: nat, n: nat)
    requires HasMore(a, b, l, 0x100) && l <= n < |a|
    ensures Fill(b, n) == Fill(a, n) + 0x100 * Pow2(n - l)
    ensures Total(b, n) == Total(a, n) + 0x100
    decreases n
  {
    if l < n {
      ManyMore(a, b, l, n - 1);
    } else {
      SamePrefix(a, b, n - 1);
    }
  }

  /** A code of at most one word. */
  lemma {:induction false} FillOfOne(bits: seq<nat>, l: nat, n: nat)
    requires 0 < l <= n < |bits| && Total(bits, n) <= 1
    ensures bits[l] == 1 ==> Fill(bits, n) == Pow2(n - l)
    ensures 2 * Fill(bits, n) <= Pow2(n)
    decreases n
  {
    EachBelowTotal(bits, n, n);
    if l < n {
      FillOfOne(bits, l, n - 1);
      EachBelowTotal(bits, l, n - 1);
      if bits[n] == 1 {
        NoneFill(bits, n - 1);
        PowOrder(1, n);
      }
    } else if n > 1 {
      FillOfOne(bits, n - 1, n - 1);
      if bits[n] == 1 {
        NoneFill(bits, n - 1);
        PowOrder(1, n);
      }
    }
  }

  lemma {:induction false} NoneFill(bits: seq<nat>, n: nat)
    requires n < |bits| && Total(bits, n) == 0
    ensures Fill(bits, n) == 0
    decreases n
  {
    if n > 0 {
      NoneFill(bits, n - 1);
    }
  }

  lemma EightMore(k: nat)
    ensures 0x100 * Pow2(k) == Pow2(k + 8)
  {
    assert Pow2(k + 8) == 2 * Pow2(k + 7) == 4 * Pow2(k + 6) == 8 * Pow2(k + 5) == 16 * Pow2(k + 4);
    assert Pow2(k + 4) == 2 * Pow2(k + 3) == 4 * Pow2(k + 2) == 8 * Pow2(k + 1) == 16 * Pow2(k);
  }

  /** 256 codes of length l, and possibly one of another length: not complete if one has more than 15 bits. */
  lemma CrowdIsIncomplete(bits: seq<nat>, i: nat, l: nat)
    requires |bits| == 33 && 16 < i <= 32 && Total(bits, i) <= 257 && bits[i - 1] > 0 && 0 < l <= i
    requires bits[l] >= 0x100
    ensures Fill(bits, i) != Pow2(i)
  {
    var a := bits[l := bits[l] - 0x100];
    ManyMore(a, bits, l, i);
    FillOfOne(a, i - 1, i);
    PowTable();
    assert Pow2(i) == 2 * Pow2(i - 1) == 4 * Pow2(i - 2) && Pow2(1) == 2 && Pow2(2) == 4;
    if l <= 8 {
      PowOrder(i - 8, i - l);
      EightMore(i - 8);
      EachBelowTotal(a, i - 1, i);
    } else if l == 9 {
      EightMore(i - 9);
      EachBelowTotal(a, i - 1, i);
      PowOrder(2, i - 1);
    } else {
      PowOrder(i - l, i - 10);
      EightMore(i - 10);
    }
  }

  lemma MoveKeeps(bits: seq<nat>, i: nat, j: nat, total: nat)
    requires Complete(bits, i, total) && i > 16 && 0 < j <= i - 2 && bits[i] >= 2 && bits[j] > 0
    ensures Complete(Moved(bits, i, j), i, total) && Moved(bits, i, j)[i] == bits[i] - 2
  {
    var b1 := bits[i := bits[i] - 2];
    var b2 := b1[i - 1 := b1[i - 1] + 1];
    var b3 := b2[j + 1 := b2[j + 1] + 2];
    var b := b3[j := b3[j] - 1];
    MoveSums(bits, b1, b2, b3, b, i, j);
    forall l | 0 < l <= 32 ensures b[l] < 0x100 {
      if l <= i && b[l] >= 0x100 {
        CrowdIsIncomplete(b, i, l);
      }
    }
  }

  /** bits[i] -= 2; bits[i-1]++; bits[j+1] += 2; bits[j]-- */
  method Move(bits: array<nat>, i: nat, j: nat, ghost total: nat)
    requires Complete(bits[..], i, total) && i > 16 && 0 < j <= i - 2 && bits[i] >= 2 && bits[j] > 0
    modifies bits
    ensures Complete(bits[..], i, total) && bits[..] == Moved(old(bits[..]), i, j)
    ensures bits[i] == old(bits[i]) - 2
  {
    ghost var b := Moved(bits[..], i, j);
    MoveKeeps(bits[..], i, j, total);
    bits[i] := Wrap(bits[i] - 2);
    bits[i - 1] := Wrap(bits[i - 1] + 1);
    bits[j + 1] := Wrap(bits[j + 1] + 2);
    bits[j] := Wrap(bits[j] - 1);
    assert bits[..] == b;
  }

  /** The greatest length up to j that is in use; 0 if there is none. */
  function Longest(bits: seq<nat>, j: nat): (k: nat)
    requires j < |bits|
    ensures k <= j && (k > 0 ==> bits[k] > 0) && forall l :: k < l <= j ==> bits[l] == 0
  {
    if j == 0 || bits[j] > 0 then j else Longest(bits, j - 1)
  }

  method FindPrefix(bits: array<nat>, i: nat) returns (j: nat)
    requires bits.Length == 33 && 2 < i <= 32 && exists k :: 0 < k <= i - 2 && bits[k] > 0
    ensures 0 < j <= i - 2 && bits[j] > 0 && j == Longest(bits[..], i - 2)
  {
    j := i - 2;
    while bits[j] == 0
      invariant 0 < j <= i - 2 && (exists k :: 0 < k <= j && bits[k] > 0)
      invariant Longest(bits[..], i - 2) == Longest(bits[..], j)
      decreases j
    {
      j := j - 1;
    }
  }

  /** The code without words of length i: each pair of them takes the prefix it shares and splits a shorter code. */
  ghost function Shortened(bits: seq<nat>, i: nat, total: nat): (b: seq<nat>)
    requires Complete(bits, i, total) && i > 16
    ensures Complete(b, i - 1, total)
    decreases bits[i]
  {
    if bits[i] == 0 then
      assert Pow2(i) == 2 * Pow2(i - 1);
      bits
    else
      SplitExists(bits, i, total);
      var j := Longest(bits, i - 2);
      MoveKeeps(bits, i, j, total);
      Shortened(Moved(bits, i, j), i, total)
  }

  /** The code without words of more than 16 bits. */
  ghost function Limited(bits: seq<nat>, i: nat, total: nat): (b: seq<nat>)
    requires Complete(bits, i, total) && i >= 16
    ensures Complete(b, 16, total)
    decreases i
  {
    if i == 16 then bits else Limited(Shortened(bits, i, total), i - 1, total)
  }

  lemma {:induction false} ShortStays(bits: seq<nat>, i: nat, total: nat)
    requires Complete(bits, i, total) && i >= 16 && forall l :: 16 < l <= i ==> bits[l] == 0
    ensures Limited(bits, i, total) == bits
    decreases i
  {
    if i > 16 {
      ShortStays(bits, i - 1, total);
    }
  }

  /** All codes of length i go; the code stays complete. */
  method Shorten(bits: array<nat>, i: nat, ghost total: nat)
    requires Complete(bits[..], i, total) && i > 16
    modifies bits
    ensures Complete(bits[..], i - 1, total) && bits[..] == Shortened(old(bits[..]), i, total)
  {
    while bits[i] > 0
      invariant Complete(bits[..], i, total)
      invariant Shortened(bits[..], i, total) == Shortened(old(bits[..]), i, total)
      decreases bits[i]
    {
      SplitExists(bits[..], i, total);
      assert exists j :: 0 < j <= i - 2 && bits[j] > 0 by {
        var j :| 0 < j <= i - 2 && bits[..][j] > 0;
        assert bits[j] > 0;
      }
      var j := FindPrefix(bits, i);
      Move(bits, i, j, total);
    }
    assert Pow2(i) == 2 * Pow2(i - 1);
  }

  method LimitLengths(bits: array<nat>, ghost total: nat)
    requires Complete(bits[..], 32, total)
    modifies bits
    ensures Complete(bits[..], 16, total) && bits[..] == Limited(old(bits[..]), 32, total)
  {
    var i := MAX_CLEN;
    while i > 16
      invariant 16 <= i <= 32 && Complete(bits[..], i, total)
      invariant Limited(bits[..], i, total) == Limited(old(bits[..]), 32, total)
    {
      Shorten(bits, i, total);
      i := i - 1;
    }
  }

  // ---- The pseudo-symbol goes

  lemma NotEmpty(bits: seq<nat>, n: nat)
    requires 0 < n < |bits| && Fill(bits, n) == Pow2(n)
    ensures exists l :: 0 < l <= n && bits[l] != 0
  {
    if forall l :: 0 < l <= n ==> bits[l] == 0 {
      EmptyFill(bits, n);
      assert false;
    }
  }

  /** Codes of up to l bits leave room below a longest code. */
  lemma {:induction false} RoomBelow(bits: seq<nat>, l: nat, m: nat)
    requires l < m < |bits| && bits[m] > 0 && Fill(bits, m) <= Pow2(m)
    ensures Fill(bits, l) < Pow2(l)
    decreases m
  {
    assert Pow2(m) == 2 * Pow2(m - 1);
    if l < m - 1 {
      if bits[m - 1] > 0 {
        RoomBelow(bits, l, m - 1);
      } else {
        RoomStep(bits, l, m - 1);
      }
    }
  }

  lemma {:induction false} RoomStep(bits: seq<nat>, l: nat, m: nat)
    requires l <= m < |bits| && Fill(bits, m) < Pow2(m)
    ensures Fill(bits, l) < Pow2(l)
    decreases m
  {
    if l < m {
      assert Pow2(m) == 2 * Pow2(m - 1);
      RoomStep(bits, l, m - 1);
    }
  }

  lemma {:induction false} RoomAbove(bits: seq<nat>, m: nat, l: nat)
    requires m <= l < |bits| && Fill(bits, m) < Pow2(m) && forall k :: m < k <= l ==> bits[k] == 0
    ensures Fill(bits, l) < Pow2(l)
    decreases l
  {
    if m < l {
      RoomAbove(bits, m, l - 1);
    }
  }

  /** Lengths that leave the code of all ones unused. */
  ghost predicate Roomy(bits: seq<nat>) {
    |bits| == 33 && forall l :: 1 <= l <= 16 ==> Fill(bits, l) < Pow2(l)
  }

  lemma WithoutLongest(bits: seq<nat>, m: nat, total: nat)
    requires Complete(bits, 16, total) && 0 < m <= 16 && bits[m] > 0 && forall l :: m < l <= 16 ==> bits[l] == 0
    ensures Roomy(bits[m := bits[m] - 1]) && Total(bits[m := bits[m] - 1], 16) == total - 1
  {
    var b := bits[m := bits[m] - 1];
    OneMore(b, bits, m, 16);
    CompleteBelow(bits, m, 16);
    OneMore(b, bits, m, m);
    assert Pow2(0) == 1;
    forall l | 1 <= l <= 16 ensures Fill(b, l) < Pow2(l) {
      if l < m {
        RoomBelow(bits, l, m);
        SamePrefix(b, bits, l);
      } else {
        RoomAbove(b, m, l);
      }
    }
  }

  lemma {:induction false} CompleteBelow(bits: seq<nat>, m: nat, n: nat)
    requires m <= n < |bits| && Fill(bits, n) == Pow2(n) && forall l :: m < l <= n ==> bits[l] == 0
    ensures Fill(bits, m) == Pow2(m)
    decreases n
  {
    if m < n {
      assert Pow2(n) == 2 * Pow2(n - 1);
      CompleteBelow(bits, m, n - 1);
    }
  }

  /** One of the longest codes of up to 16 bits is gone. */
  function WithoutPseudo(bits: seq<nat>): (b: seq<nat>)
    requires |bits| == 33
    ensures |b| == |bits|
  {
    var m := Longest(bits, 16);
    if m == 0 then bits else bits[m := bits[m] - 1]
  }

  /** Takes the pseudo-symbol's code from the longest ones. */
  method RemovePseudo(bits: array<nat>, ghost total: nat)
    requires Complete(bits[..], 16, total)
    modifies bits
    ensures Roomy(bits[..]) && Total(bits[..], 16) == total - 1
    ensures forall l :: 0 < l <= 16 ==> bits[l] < 0x100
    ensures bits[..] == WithoutPseudo(old(bits[..]))
  {
    ghost var was := bits[..];
    var i := 16;
    while bits[i] == 0
      invariant 0 < i <= 16 && bits[..] == was && forall l :: i < l <= 16 ==> was[l] == 0
      invariant Longest(was, 16) == Longest(was, i)
      decreases i
    {
      if i == 1 {
        NotEmpty(was, 16);
      }
      i := i - 1;
    }
    WithoutLongest(was, i, total);
    bits[i] := Wrap(bits[i] - 1);
    assert bits[..] == was[i := was[i] - 1];
  }

  // ---- The whole table

  lemma {:induction false} ShorterIsLive(f: seq<nat>, lens: seq<nat>, n: nat)
    requires Assigned(f, lens) && n <= |f| && n <= 256 && forall i :: 0 <= i < |lens| ==> lens[i] <= MAX_CLEN
    ensures Shorter(lens, MAX_CLEN + 1, n) == Live(f[..n])
    decreases n
  {
    if n > 0 {
      ShorterIsLive(f, lens, n - 1);
      assert f[..n][..n - 1] == f[..n - 1];
    }
  }

  function ToBytes(bits: seq<nat>): (b: seq<Byte>)
    requires |bits| == 33 && forall l :: 0 < l <= 16 ==> bits[l] < 0x100
    ensures |b| == 17
  {
    seq(17, l requires 0 <= l < 17 => if l == 0 then 0 else bits[l])
  }

  lemma {:induction false} BytesFill(bits: seq<nat>, l: nat)
    requires |bits| == 33 && (forall k :: 0 < k <= 16 ==> bits[k] < 0x100) && 1 <= l <= 16
    ensures End(ToBytes(bits), l) == Fill(bits, l) && Offset(ToBytes(bits), l + 1) == Total(bits, l)
    decreases l
  {
    if l > 1 {
      BytesFill(bits, l - 1);
    } else {
      assert Fill(bits, 0) == 0 && Total(bits, 0) == 0;
    }
  }

  lemma {:induction false} PowIsShl(k: nat)
    ensures Pow2(k) == Shl(1, k)
  {
    if k > 0 {
      PowIsShl(k - 1);
      ShlShl(1, k - 1, 1);
    }
  }

  lemma RoomyIsLegal(bits: seq<nat>)
    requires Roomy(bits) && (forall l :: 0 < l <= 16 ==> bits[l] < 0x100) && Total(bits, 16) <= 256
    ensures Legal(ToBytes(bits)) && Offset(ToBytes(bits), 17) == Total(bits, 16)
  {
    forall l | 1 <= l <= 16 ensures End(ToBytes(bits), l) < Shl(1, l) {
      BytesFill(bits, l);
      PowIsShl(l);
    }
    BytesFill(bits, 16);
  }

  function LongestOf(lens: seq<nat>): (d: nat)
    ensures forall i :: 0 <= i < |lens| ==> lens[i] <= d
  {
    if lens == [] then 0
    else
      var d, l := LongestOf(lens[..|lens| - 1]), lens[|lens| - 1];
      assert forall i :: 0 <= i < |lens| - 1 ==> lens[i] == lens[..|lens| - 1][i];
      if d < l then l else d
  }

  /** With at least two symbols every one of them has a code. */
  lemma AllHaveCodes(f: seq<nat>, lens: seq<nat>)
    requires Optimal(f, lens) && Live(f) >= 2
    ensures Assigned(f, lens)
  {
    forall i | 0 <= i < |f| && f[i] != 0 ensures lens[i] != 0 {
      var d := LongestOf(lens);
      assert Within(f, lens, d);
      KraftOfFreq(f, lens, d, i, 0);
      SumUpdate(f, i, 0);
      KraftCounts(f[i := 0], lens, d);
    }
  }

  /** Exactly the symbols that occur have a code, each of them one. */
  ghost predicate TableFor(t: HuffTable, freq: seq<nat>) {
    && GoodShape(t) && Legal(t.bits) && |freq| >= 256
    && (forall p, q :: 0 <= p < q < Offset(t.bits, 17) ==> t.huffval[p] != t.huffval[q])
    && (forall s: Byte :: freq[s] > 0 <==> s in t.huffval[..Offset(t.bits, 17)])
  }

  lemma TableIsRight(freq: seq<nat>, lens: seq<nat>, bits: seq<nat>, huffval: seq<Byte>)
    requires |freq| == NSYMBOLS && Assigned(freq[256 := 1], lens) && forall i :: 0 <= i < |lens| ==> lens[i] <= MAX_CLEN
    requires Roomy(bits) && (forall l :: 0 < l <= 16 ==>
               bits[l] < 0x100) && Total(bits, 16) == Live(freq[256 := 1]) - 1 <= 256
    requires |huffval| == 256 && |Listed(lens, 33)| <= 256 && huffval[..|Listed(lens, 33)|] == Listed(lens, 33)
    ensures TableFor(HuffTable(ToBytes(bits), huffval), freq)
    ensures Offset(ToBytes(bits), 17) == |Listed(lens, 33)|
  {
    var f := freq[256 := 1];
    RoomyIsLegal(bits);
    ListedSize(lens, 33);
    ShorterIsLive(f, lens, 256);
    assert f[..|f| - 1] == f[..256];
    ListedIs(lens, 33);
    var n := Offset(ToBytes(bits), 17);
    assert n == |Listed(lens, 33)|;
    forall s: Byte ensures freq[s] > 0 <==> s in huffval[..n] {
      assert f[s] == freq[s];
    }
    forall p, q | 0 <= p < q < n ensures huffval[p] != huffval[q] {
      assert huffval[..n][p] == huffval[p] && huffval[..n][q] == huffval[q];
    }
  }

  // ---- Lengths in the table

  /** The symbols are listed in the order of their optimal lengths, so that none that is shorter becomes longer. */
  ghost predicate Sorted(t: HuffTable, lens: seq<nat>) {
    && GoodShape(t) && Offset(t.bits, 17) <= 256 <= |lens|
    && InOrder(lens, t.huffval[..Offset(t.bits, 17)])
  }

  /** If the optimal lengths need no limit, every symbol has a code of that length. */
  ghost predicate Kept(t: HuffTable, lens: seq<nat>) {
    && GoodShape(t) && Offset(t.bits, 17) <= 256 <= |lens|
    && ((forall i :: 0 <= i < |lens| ==> lens[i] <= 16) ==>
         forall p :: 0 <= p < Offset(t.bits, 17) ==> SizeOf(t.bits, p) == lens[t.huffval[p]])
  }

  /** A symbol with a shorter optimal code than another has no longer one in the table. */
  lemma SizesFollow(t: HuffTable, lens: seq<nat>, p: nat, q: nat)
    requires Sorted(t, lens) && p < Offset(t.bits, 17) && q < Offset(t.bits, 17)
    requires lens[t.huffval[p]] < lens[t.huffval[q]]
    ensures SizeOf(t.bits, p) <= SizeOf(t.bits, q)
  {
    var s := t.huffval[..Offset(t.bits, 17)];
    assert s[p] == t.huffval[p] && s[q] == t.huffval[q];
    assert q < p ==> Follows(lens, s[q], s[p]);
    if SizeOf(t.bits, q) < SizeOf(t.bits, p) {
      OffsetOrder(t.bits, SizeOf(t.bits, q) + 1, SizeOf(t.bits, p));
    }
  }

  lemma {:induction false} OfLengthCounts(f: seq<nat>, lens: seq<nat>, l: nat, n: nat)
    requires Assigned(f, lens) && n <= 256 <= |lens| && l > 0
    ensures |OfLength(lens, l, n)| == CodesOf(f[..n], lens[..n], l)
    decreases n
  {
    if n > 0 {
      OfLengthCounts(f, lens, l, n - 1);
      assert f[..n][..n - 1] == f[..n - 1] && lens[..n][..n - 1] == lens[..n - 1];
    }
  }

  lemma {:induction false} NoneOfLength(f: seq<nat>, lens: seq<nat>, l: nat)
    requires |f| == |lens| && forall i :: 0 <= i < |lens| ==> lens[i] < l
    ensures CodesOf(f, lens, l) == 0
    decreases |f|
  {
    if f != [] {
      NoneOfLength(f[..|f| - 1], lens[..|f| - 1], l);
    }
  }

  /** What is counted of a length when the pseudo-symbol does not count. */
  lemma PseudoIsLast(f: seq<nat>, lens: seq<nat>, l: nat)
    requires |f| == NSYMBOLS && Assigned(f, lens) && f[256] != 0 && l > 0
    ensures CodesOf(f, lens, l) == |OfLength(lens, l, 256)| + if lens[256] == l then 1 else 0
  {
    OfLengthCounts(f, lens, l, 256);
    assert f[..|f| - 1] == f[..256] && lens[..|f| - 1] == lens[..256];
  }

  /** The code taken away is the pseudo-symbol's. */
  lemma PseudoGoes(f: seq<nat>, lens: seq<nat>, bits: seq<nat>, l: nat)
    requires |f| == NSYMBOLS && Assigned(f, lens) && f[256] == 1 && LastIsLongest(f, lens) && CountsTo(bits, f, lens)
    requires lens[256] <= 16 && 0 < l <= 16
    ensures WithoutPseudo(bits)[l] == |OfLength(lens, l, 256)|
  {
    var m := lens[256];
    PseudoIsLast(f, lens, l);
    PseudoIsLast(f, lens, m);
    forall k | m < k <= 16 ensures bits[k] == 0 {
      NoneOfLength(f, lens, k);
    }
    assert bits[m] > 0 && Longest(bits, 16) == m;
  }

  lemma {:induction false} OffsetIsListed(bits: seq<Byte>, lens: seq<nat>, l: nat)
    requires |bits| == 17 && 256 <= |lens| && 1 <= l <= 17
    requires forall k :: 1 <= k <= 16 ==> bits[k] == |OfLength(lens, k, 256)|
    ensures Offset(bits, l) == |Listed(lens, l)|
    decreases l
  {
    if l > 1 {
      OffsetIsListed(bits, lens, l - 1);
    }
  }

  lemma SizeIsLength(t: HuffTable, lens: seq<nat>, p: nat)
    requires GoodShape(t) && 256 <= |lens| && p < Offset(t.bits, 17) <= 256
    requires forall k :: 1 <= k <= 16 ==> t.bits[k] == |OfLength(lens, k, 256)|
    requires t.huffval[..Offset(t.bits, 17)] == Listed(lens, 33)
    ensures SizeOf(t.bits, p) == lens[t.huffval[p]]
  {
    var l := SizeOf(t.bits, p);
    OffsetIsListed(t.bits, lens, l);
    OffsetIsListed(t.bits, lens, l + 1);
    ListedAt(lens, l, 33, p);
    assert t.huffval[..Offset(t.bits, 17)][p] == t.huffval[p];
  }

  lemma LengthsAreKept(f: seq<nat>, lens: seq<nat>, counts: seq<nat>, bits: seq<nat>, t: HuffTable)
    requires |f| == NSYMBOLS && Assigned(f, lens) && f[256] == 1 && LastIsLongest(f, lens) && CountsTo(counts, f, lens)
    requires (forall i :: 0 <= i < |lens| ==> lens[i] <= 16) ==> bits == WithoutPseudo(counts)
    requires |bits| == 33 && (forall l :: 0 < l <= 16 ==> bits[l] < 0x100) && t.bits == ToBytes(bits) && GoodShape(t)
    requires Offset(t.bits, 17) <= 256 && t.huffval[..Offset(t.bits, 17)] == Listed(lens, 33)
    ensures Kept(t, lens)
  {
    if forall i :: 0 <= i < |lens| ==> lens[i] <= 16 {
      forall l | 1 <= l <= 16 ensures t.bits[l] == |OfLength(lens, l, 256)| {
        PseudoGoes(f, lens, counts, l);
      }
      forall p | 0 <= p < Offset(t.bits, 17) ensures SizeOf(t.bits, p) == lens[t.huffval[p]] {
        SizeIsLength(t, lens, p);
      }
    }
  }

  /** Without long codes there is nothing to limit. */
  lemma NothingToLimit(f: seq<nat>, lens: seq<nat>, counts: seq<nat>, total: nat)
    requires |f| == |lens| && CountsTo(counts, f, lens) && Complete(counts, 32, total)
    requires forall i :: 0 <= i < |lens| ==> lens[i] <= 16
    ensures Limited(counts, 32, total) == counts
  {
    forall l | 16 < l <= 32 ensures counts[l] == 0 {
      NoneOfLength(f, lens, l);
    }
    ShortStays(counts, 32, total);
  }

  /** The least total of frequencies for which an optimal code can need more than 32 bits. */
  const MANY := 9_227_465

  lemma {:induction false} FibonacciGrows(m: nat, n: nat)
    requires m <= n
    ensures Fibonacci(m) <= Fibonacci(n)
  {
    if m < n {
      FibonacciGrows(m, n - 1);
    }
  }

  lemma FibonacciTable(n: nat)
    requires n == 34
    ensures Fibonacci(n) == MANY
  {
    assert Fibonacci(2) == 2 && Fibonacci(3) == 3 && Fibonacci(4) == 5 && Fibonacci(5) == 8 && Fibonacci(6) == 13;
    assert Fibonacci(7) == 21 && Fibonacci(8) == 34 && Fibonacci(9) == 55 && Fibonacci(10) == 89
           && Fibonacci(11) == 144;
    assert Fibonacci(12) == 233 && Fibonacci(13) == 377 && Fibonacci(14) == 610 && Fibonacci(15) == 987;
    assert Fibonacci(16) == 1597 && Fibonacci(17) == 2584 && Fibonacci(18) == 4181 && Fibonacci(19) == 6765;
    assert Fibonacci(20) == 10946 && Fibonacci(21) == 17711 && Fibonacci(22) == 28657 && Fibonacci(23) == 46368;
    assert Fibonacci(24) == 75025 && Fibonacci(25) == 121393 && Fibonacci(26) == 196418 && Fibonacci(27) == 317811;
    assert Fibonacci(28) == 514229 && Fibonacci(29) == 832040 && Fibonacci(30) == 1346269 && Fibonacci(31) == 2178309;
    assert Fibonacci(32) == 3524578 && Fibonacci(33) == 5702887;
  }

  lemma ManyAhead(n: nat, m: nat)
    requires n == 34 <= m
    ensures Fibonacci(m) >= MANY
  {
    FibonacciTable(n);
    FibonacciGrows(n, m);
  }

  /** The error of a code length overflow needs many symbols. */
  lemma OverflowNeedsMany(f: seq<nat>, lens: seq<nat>, i: nat)
    requires Rare(f, lens) && i < |f| && f[i] != 0 && lens[i] > MAX_CLEN
    ensures Sum(f) >= MANY
  {
    var m := lens[i] + 1;
    assert Sum(f) >= Fibonacci(m);
    ManyAhead(34, m);
  }

  lemma NonemptyOptimal(f: seq<nat>, lens: seq<nat>)
    requires Optimal(f, lens) && |f| == NSYMBOLS && f[256] == 1 && Within(f, lens, 32)
    ensures Kraft(f, lens, 32) == Pow2(32)
  {
  }

  lemma CountsAreComplete(f: seq<nat>, lens: seq<nat>, counts: seq<nat>)
    requires Optimal(f, lens) && |f| == NSYMBOLS && f[256] == 1 && Live(f) <= 257 && CountsTo(counts, f, lens)
    requires (forall i :: 0 <= i < |lens| ==> lens[i] <= MAX_CLEN) && forall l :: 0 < l <= 32 ==> counts[l] < 0x100
    ensures Complete(counts, 32, Live(f))
  {
    assert Within(f, lens, 32);
    NonemptyOptimal(f, lens);
  }

  lemma TableIsFinished(freq: seq<nat>, lens: seq<nat>, counts: seq<nat>, bits: seq<nat>, t: HuffTable)
    requires |freq| == NSYMBOLS && Assigned(freq[256 := 1], lens) && Live(freq[256 := 1]) <= 257
    requires forall i :: 0 <= i < |lens| ==> lens[i] <= MAX_CLEN
    requires LastIsLongest(freq[256 := 1], lens) && CountsTo(counts, freq[256 := 1], lens)
    requires Complete(counts, 32, Live(freq[256 := 1]))
    requires bits == WithoutPseudo(Limited(counts, 32, Live(freq[256 := 1])))
    requires Roomy(bits) && (forall l :: 0 < l <= 16 ==> bits[l] < 0x100) && Total(bits, 16) == Live(freq[256 := 1]) - 1
    requires GoodShape(t) && t.bits == ToBytes(bits)
    requires |Listed(lens, 33)| <= 256 && t.huffval[..|Listed(lens, 33)|] == Listed(lens, 33)
    ensures TableFor(t, freq) && Sorted(t, lens) && Kept(t, lens)
  {
    var f := freq[256 := 1];
    TableIsRight(freq, lens, bits, t.huffval);
    ListedInOrder(lens, 33);
    if forall i :: 0 <= i < |lens| ==> lens[i] <= 16 {
      NothingToLimit(f, lens, counts, Live(f));
    }
    LengthsAreKept(f, lens, counts, bits, t);
  }

  /** The lengths are cut down, the pseudo-symbol goes, and the symbols are listed. */
  method FinishTable(codesize: array<nat>, bits: array<nat>, huffval0: seq<Byte>,
                     ghost freq: seq<nat>) returns (t: HuffTable)
    requires |freq| == NSYMBOLS == codesize.Length && |huffval0| == 256 && bits.Length == 33
    requires Optimal(freq[256 := 1], codesize[..]) && Assigned(freq[256 := 1], codesize[..])
             && Live(freq[256 := 1]) <= 257
    requires LastIsLongest(freq[256 := 1], codesize[..]) && CountsTo(bits[..], freq[256 := 1], codesize[..])
    requires forall i :: 0 <= i < codesize.Length ==> codesize[i] <= MAX_CLEN
    requires forall l :: 0 < l <= 32 ==> bits[l] < 0x100
    requires bits != codesize
    modifies bits
    ensures TableFor(t, freq) && Sorted(t, codesize[..]) && Kept(t, codesize[..])
  {
    ghost var f, lens, counts := freq[256 := 1], codesize[..], bits[..];
    CountsAreComplete(f, lens, counts);
    LimitLengths(bits, Live(f));
    RemovePseudo(bits, Live(f));
    var huffval, p := ListSymbols(codesize, huffval0);
    t := HuffTable(ToBytes(bits[..]), huffval);
    TableIsFinished(freq, lens, counts, bits[..], t);
  }

  /** A table, or an error, or a table that is not right because a count of code lengths has overflowed. */
  datatype Generated = Table(t: HuffTable) | TooLong | Wrapped

  lemma {:induction false} LiveBound(f: seq<nat>)
    ensures Live(f) <= |f|
    decreases |f|
  {
    if f != [] {
      LiveBound(f[..|f| - 1]);
    }
  }

  lemma {:induction false} CodesOfBound(f: seq<nat>, lens: seq<nat>, l: nat)
    requires |f| == |lens|
    ensures CodesOf(f, lens, l) <= Live(f)
    decreases |f|
  {
    if f != [] {
      CodesOfBound(f[..|f| - 1], lens[..|f| - 1], l);
    }
  }

  /** Up to 254 symbols and the pseudo-symbol are not too many for a byte. */
  lemma FewAreNotCrowded(f: seq<nat>, lens: seq<nat>)
    requires |f| == |lens| && Live(f) <= 255
    ensures !Crowded(f, lens)
  {
    forall l | 0 < l <= MAX_CLEN ensures CodesOf(f, lens, l) <= 0xFF {
      CodesOfBound(f, lens, l);
    }
  }

  /**
   * jpeg_gen_optimal_table: the frequencies become a table that both builders accept and that has a code for
   * exactly the symbols that occur, in the order of the optimal lengths found, lens, and of those lengths if none
   * exceeds 16; the pseudo-symbol's is the longest. The error of a length overflow takes more than nine million
   * symbols. The 8-bit counts overflow, which is not noticed, exactly if the optimal lengths are the same for 256
   * codes; that takes 255 symbols.
   */
  method GenOptimalTable(freq: array<nat>, huffval0: seq<Byte>) returns (r: Generated, ghost lens: seq<nat>)
    requires freq.Length == NSYMBOLS && |huffval0| == 256
    requires Sum(freq[..256]) <= 1_000_000_000 && 0 < Live(freq[..256])
    modifies freq
    ensures Optimal(old(freq[..])[256 := 1], lens) && Rare(old(freq[..])[256 := 1], lens)
    ensures LastIsLongest(old(freq[..])[256 := 1], lens)
    ensures r.Table? ==> TableFor(r.t, old(freq[..])) && Sorted(r.t, lens) && Kept(r.t, lens)
    ensures r.TooLong? ==> Sum(old(freq[..256])) + 1 >= MANY
    ensures !r.TooLong? ==> (r.Wrapped? <==> Crowded(old(freq[..])[256 := 1], lens))
    ensures r.Wrapped? ==> old(Live(freq[..256])) >= 255
  {
    ghost var given := freq[..];
    ghost var f := given[256 := 1];
    assert f[..|f| - 1] == given[..256];
    freq[256] := 1;
    var codesize := MergeAll(freq);
    lens := codesize[..];
    AllHaveCodes(f, lens);
    var ok, wrapped, bits := CountLengths(codesize, f);
    r := TooLong;
    if ok {
      r := Wrapped;
      if !wrapped {
        LiveBound(f);
        var t := FinishTable(codesize, bits, huffval0, given);
        r := Table(t);
      } else if Live(f) <= 255 {
        FewAreNotCrowded(f, lens);
      }
    } else {
      var i :| 0 <= i < codesize.Length && codesize[i] > MAX_CLEN;
      OverflowNeedsMany(f, lens, i);
    }
  }

  // ---- The smallest input that is too much

  /** 255 symbols that occur once each. */
  function OnceEach(): (f: seq<nat>)
    ensures |f| == NSYMBOLS
  {
    seq(NSYMBOLS, i => if i < 255 then 1 else 0)
  }

  /** 2^24 */
  const UNIT := 0x100_0000

  lemma PowersTo32()
    ensures Pow2(24) == UNIT
  {
    PowTable();
    EightMore(8);
    EightMore(16);
  }

  /** 2^(32 - l) is above the line through its values at 8 and near it. */
  lemma ShareLine(l: nat)
    requires l <= 32
    ensures 4 * Share(l, 32) + 3 * UNIT * l >= 28 * UNIT
    ensures l != 8 ==> 4 * Share(l, 32) + 3 * UNIT * l > 28 * UNIT
  {
    PowersTo32();
    assert Pow2(25) == 2 * Pow2(24) && Pow2(26) == 2 * Pow2(25) && Pow2(23) * 2 == Pow2(24);
    if l <= 6 {
      PowOrder(26, 32 - l);
    }
  }

  /** How far lengths are from all being eight. */
  function Excess(kraft: nat, cost: nat, live: nat): int {
    4 * kraft + 3 * UNIT * cost - 28 * UNIT * live
  }

  lemma ExcessGrows(kraft: nat, cost: nat, live: nat, share: nat, l: nat)
    ensures Excess(kraft + share, cost + l, live + 1)
            == Excess(kraft, cost, live) + (4 * share + 3 * UNIT * l - 28 * UNIT)
    ensures Times(1, l) == l && Times(0, l) == 0
  {
  }

  /** Lengths that add up to no more than eight a code make a complete code only if all of them are eight. */
  lemma {:induction false} EightIsBest(f: seq<nat>, lens: seq<nat>)
    requires |lens| == |f| && Within(f, lens, 32) && forall i :: 0 <= i < |f| ==> f[i] <= 1
    ensures Excess(Kraft(f, lens, 32), Cost(f, lens), Live(f)) >= 0
    ensures Excess(Kraft(f, lens, 32), Cost(f, lens), Live(f)) == 0 ==> CodesOf(f, lens, 8) == Live(f)
    decreases |f|
  {
    if f != [] {
      var m := |f| - 1;
      EightIsBest(f[..m], lens[..m]);
      if f[m] == 1 {
        ShareLine(lens[m]);
        ExcessGrows(Kraft(f[..m], lens[..m], 32), Cost(f[..m], lens[..m]), Live(f[..m]), Share(lens[m], 32), lens[m]);
      }
    }
  }

  lemma {:induction false} CostOfEight(f: seq<nat>, n: nat)
    requires n == |f| && forall i :: 0 <= i < |f| ==> f[i] <= 1
    ensures Cost(f, seq(n, _ => 8)) == 8 * Live(f) && Kraft(f, seq(n, _ => 8), 8) == Live(f)
    decreases n
  {
    if n > 0 {
      var m := n - 1;
      CostOfEight(f[..m], m);
      assert (seq(n, _ => 8))[..m] == seq(m, _ => 8);
      assert Times(f[m], 8) == 8 * f[m] && Pow2(0) == 1;
    }
  }

  lemma {:induction false} OnceEachSums(f: seq<nat>, n: nat)
    requires f == OnceEach()[256 := 1] && n <= 256
    ensures Live(f[..n]) == Sum(f[..n]) == if n < 255 then n else 255
    decreases n
  {
    if n > 0 {
      OnceEachSums(f, n - 1);
      assert f[..n][..n - 1] == f[..n - 1];
    }
  }

  lemma OnceEachLives(f: seq<nat>)
    requires f == OnceEach()[256 := 1]
    ensures Live(f) == Sum(f) == 256 && Live(f[..256]) == Sum(f[..256]) == 255
  {
    OnceEachSums(f, 256);
    assert f[..|f| - 1] == f[..256];
  }

  /** Too few symbols for an overflow of the code length. */
  lemma OnceEachIsShort(f: seq<nat>, lens: seq<nat>)
    requires |f| == NSYMBOLS && |lens| == |f| && Sum(f) == 256 && Rare(f, lens)
    ensures Within(f, lens, 32)
  {
    forall i | 0 <= i < |f| && f[i] != 0 ensures lens[i] <= 32 {
      if lens[i] > 32 {
        OverflowNeedsMany(f, lens, i);
      }
    }
  }

  /** Eight bits for every code would do. */
  lemma EightSuffices(f: seq<nat>, lens: seq<nat>)
    requires |f| == NSYMBOLS && Optimal(f, lens) && Live(f) == 256 && forall i :: 0 <= i < |f| ==> f[i] <= 1
    ensures Cost(f, lens) <= 8 * 256
  {
    var eight: seq<nat> := seq(|f|, _ => 8);
    CostOfEight(f, |f|);
    PowTable();
    assert Within(f, eight, 8);
  }

  /** 2^32, the share of a complete code. */
  lemma PowerOf32()
    ensures Pow2(32) == 256 * UNIT
  {
    PowTable();
    EightMore(8);
    EightMore(16);
    EightMore(24);
  }

  /** The lengths of a complete code for 256 symbols are all eight if they add up to no more. */
  lemma AllAreEight(f: seq<nat>, lens: seq<nat>)
    requires |lens| == |f| && Live(f) == 256 && Within(f, lens, 32) && forall i :: 0 <= i < |f| ==> f[i] <= 1
    requires Kraft(f, lens, 32) == Pow2(32) && Cost(f, lens) <= 8 * 256
    ensures CodesOf(f, lens, 8) == 256
  {
    PowerOf32();
    EightIsBest(f, lens);
  }

  lemma OnceEachIs(f: seq<nat>)
    requires f == OnceEach()[256 := 1]
    ensures |f| == NSYMBOLS && f[256] == 1 && forall i :: 0 <= i < |f| ==> f[i] <= 1
  {
  }

  lemma CrowdedAtEight(f: seq<nat>, lens: seq<nat>)
    requires |lens| == |f| && CodesOf(f, lens, 8) == 256
    ensures Crowded(f, lens)
  {
    assert 0 < 8 <= MAX_CLEN && CodesOf(f, lens, 8) > 0xFF;
  }

  /** The best lengths for 256 symbols of the same frequency are all eight. */
  lemma OnceEachIsCrowded(f: seq<nat>, lens: seq<nat>)
    requires f == OnceEach()[256 := 1] && Optimal(f, lens) && Rare(f, lens)
    ensures Crowded(f, lens)
  {
    OnceEachIs(f);
    OnceEachLives(f);
    OnceEachIsShort(f, lens);
    NonemptyOptimal(f, lens);
    EightSuffices(f, lens);
    AllAreEight(f, lens);
    CrowdedAtEight(f, lens);
  }

  /** 255 symbols that occur once each: the count of eight-bit codes overflows. */
  method OnceEachWraps(huffval0: seq<Byte>) returns (r: Generated)
    requires |huffval0| == 256
    ensures r.Wrapped?
  {
    ghost var f := OnceEach()[256 := 1];
    OnceEachLives(f);
    var freq := new nat[NSYMBOLS](i => if i < 255 then 1 else 0);
    assert freq[..] == OnceEach() && freq[..256] == f[..256];
    ghost var lens;
    r, lens := GenOptimalTable(freq, huffval0);
    OnceEachIsCrowded(f, lens);
  }
}
