/** Optimal code lengths by Huffman's algorithm: section K.2 of T.81, its first part. */
module HuffmanMerge {
  import opened Numbers

  const NSYMBOLS := 257
  const BIG := 1_000_000_000
  const MAX_CLEN := 32

  function Sum(f: seq<nat>): nat {
    if f == [] then 0 else Sum(f[..|f| - 1]) + f[|f| - 1]
  }

  /** How many entries are not zero. */
  function Live(f: seq<nat>): nat {
    if f == [] then 0 else Live(f[..|f| - 1]) + if f[|f| - 1] != 0 then 1 else 0
  }

  lemma {:induction false} SumUpdate(f: seq<nat>, i: nat, v: nat)
    requires i < |f|
    ensures Sum(f[i := v]) == Sum(f) - f[i] + v
    ensures Live(f[i := v]) == Live(f) - (if f[i] != 0 then 1 else 0) + if v != 0 then 1 else 0
    decreases |f|
  {
    var m := |f| - 1;
    if i < m {
      SumUpdate(f[..m], i, v);
      assert f[i := v][..m] == f[..m][i := v];
    } else {
      assert f[i := v][..m] == f[..m];
    }
  }

  lemma {:induction false} EntryBound(f: seq<nat>, i: nat)
    requires i < |f|
    ensures f[i] <= Sum(f)
    decreases |f|
  {
    if i < |f| - 1 {
      EntryBound(f[..|f| - 1], i);
    }
  }

  lemma TwoEntries(f: seq<nat>, i: nat, j: nat)
    requires i < |f| && j < |f| && i != j
    ensures f[i] + f[j] <= Sum(f)
    ensures f[i] != 0 && f[j] != 0 ==> Live(f) >= 2
  {
    SumUpdate(f, i, 0);
    EntryBound(f[i := 0], j);
    SumUpdate(f[i := 0], j, 0);
  }

  // ---- The two smallest frequencies

  /** The smallest nonzero frequency of a symbol below n other than skip; ties go to the larger symbol. */
  function Smallest(f: seq<nat>, skip: int, n: nat): (c: int)
    requires n <= |f|
    ensures -1 <= c < n && (c >= 0 ==> f[c] != 0 && c != skip && f[c] <= BIG)
  {
    if n == 0 then -1
    else
      var c := Smallest(f, skip, n - 1);
      if f[n - 1] != 0 && f[n - 1] <= (if c < 0 then BIG else f[c]) && n - 1 != skip then n - 1 else c
  }

  lemma {:induction false} SmallestIs(f: seq<nat>, skip: int, n: nat, i: nat)
    requires i < n <= |f| && f[i] != 0 && i != skip
    ensures var c := Smallest(f, skip, n); if c < 0 then f[i] > BIG else f[c] <= f[i]
    decreases n
  {
    if i < n - 1 {
      SmallestIs(f, skip, n - 1, i);
    }
  }

  /** Root a is merged before root b. */
  predicate Before(f: seq<nat>, a: int, b: int) {
    0 <= a < |f| && 0 <= b < |f| && (f[a] < f[b] || (f[a] == f[b] && a > b))
  }

  lemma {:induction false} SmallestIsFirst(f: seq<nat>, skip: int, n: nat, i: nat)
    requires i < n <= |f| && f[i] != 0 && i != skip
    ensures var c := Smallest(f, skip, n); c == i || (if c < 0 then f[i] > BIG else Before(f, c, i))
    decreases n
  {
    if i < n - 1 {
      SmallestIsFirst(f, skip, n - 1, i);
    }
  }

  method FindSmallest(freq: array<nat>, skip: int) returns (c: int)
    ensures c == Smallest(freq[..], skip, freq.Length)
  {
    c := -1;
    var v := BIG;
    var i := 0;
    while i < freq.Length
      invariant 0 <= i <= freq.Length && c == Smallest(freq[..], skip, i)
      invariant v == if c < 0 then BIG else freq[c]
    {
      if freq[i] != 0 && freq[i] <= v && i != skip {
        v, c := freq[i], i;
      }
      i := i + 1;
    }
  }

  /** Two frequencies merged into one. */
  function Merged(f: seq<nat>, c1: nat, c2: nat): (g: seq<nat>)
    requires c1 < |f| && c2 < |f|
    ensures |g| == |f|
  {
    f[c1 := f[c1] + f[c2]][c2 := 0]
  }

  lemma MergedLive(f: seq<nat>, c1: nat, c2: nat)
    requires c1 < |f| && c2 < |f| && c1 != c2 && f[c1] != 0 && f[c2] != 0
    ensures Live(Merged(f, c1, c2)) == Live(f) - 1 && Sum(Merged(f, c1, c2)) == Sum(f)
  {
    SumMoved(f, f[c1 := f[c1] + f[c2]], Merged(f, c1, c2), c1, c2);
  }

  /** Two sequences that differ in one entry only. */
  predicate DifferAt(f: seq<nat>, g: seq<nat>, i: nat) {
    i < |f| == |g| && forall j :: 0 <= j < |f| && j != i ==> f[j] == g[j]
  }

  lemma SumDiffers(f: seq<nat>, g: seq<nat>, i: nat)
    requires DifferAt(f, g, i)
    ensures Sum(g) == Sum(f) - f[i] + g[i]
    ensures Live(g) == Live(f) - (if f[i] != 0 then 1 else 0) + if g[i] != 0 then 1 else 0
  {
    SumUpdate(f, i, g[i]);
    assert g == f[i := g[i]];
  }

  lemma SumMoved(f: seq<nat>, g: seq<nat>, h: seq<nat>, c1: nat, c2: nat)
    requires DifferAt(f, g, c1) && DifferAt(g, h, c2) && c1 != c2
    requires g[c1] == f[c1] + f[c2] && h[c2] == 0 && f[c1] != 0 && f[c2] != 0
    ensures Live(h) == Live(f) - 1 && Sum(h) == Sum(f)
  {
    SumDiffers(f, g, c1);
    SumDiffers(g, h, c2);
  }

  /** The sum of all merged frequencies: what Huffman's algorithm adds to the total length on its way. */
  function MergeCost(f: seq<nat>): nat
    decreases Live(f)
  {
    var c1 := Smallest(f, -1, |f|);
    var c2 := Smallest(f, c1, |f|);
    if c1 < 0 || c2 < 0 then 0
    else
      MergedLive(f, c1, c2);
      f[c1] + f[c2] + MergeCost(Merged(f, c1, c2))
  }

  // ---- No prefix code is shorter

  /** A product, named so that proofs meet it as one term. */
  function Times(x: nat, y: nat): nat {
    x * y
  }

  lemma TimesAdd(x: nat, y: nat, z: nat)
    ensures Times(x + y, z) == Times(x, z) + Times(y, z)
    ensures Times(x, y + z) == Times(x, y) + Times(x, z)
    ensures Times(x, 1) == x && Times(0, z) == 0
  {
  }

  lemma TimesOrder(x: nat, y: nat, l: nat, m: nat)
    requires x <= y && l <= m
    ensures Times(x, m) + Times(y, l) <= Times(x, l) + Times(y, m)
  {
    var d, e := y - x, m - l;
    TimesAdd(x, d, m);
    TimesAdd(x, d, l);
    TimesAdd(d, l, e);
  }

  /** The total length of all symbols coded with these lengths. */
  function Cost(f: seq<nat>, lens: seq<nat>): nat
    requires |lens| == |f|
  {
    if f == [] then 0
    else
      var m := |f| - 1;
      Cost(f[..m], lens[..m]) + Times(f[m], lens[m])
  }

  /** 2^(d - l): the share of all d-bit strings that a code of length l takes. */
  function Share(l: nat, d: nat): nat {
    if l <= d then Pow2(d - l) else 0
  }

  function Pow2(k: nat): (r: nat)
    ensures r > 0
  {
    if k == 0 then 1 else 2 * Pow2(k - 1)
  }

  /** The Kraft sum of the symbols that occur, scaled by 2^d. */
  function Kraft(f: seq<nat>, lens: seq<nat>, d: nat): nat
    requires |lens| == |f|
  {
    if f == [] then 0
    else
      var m := |f| - 1;
      Kraft(f[..m], lens[..m], d) + if f[m] != 0 then Share(lens[m], d) else 0
  }

  predicate Within(f: seq<nat>, lens: seq<nat>, d: nat)
    requires |lens| == |f|
  {
    forall i :: 0 <= i < |f| && f[i] != 0 ==> lens[i] <= d
  }

  lemma {:induction false} CostUpdate(f: seq<nat>, lens: seq<nat>, i: nat, l: nat)
    requires i < |f| == |lens|
    ensures Cost(f, lens[i := l]) == Cost(f, lens) - Times(f[i], lens[i]) + Times(f[i], l)
    decreases |f|
  {
    var m := |f| - 1;
    if i < m {
      CostUpdate(f[..m], lens[..m], i, l);
      assert lens[i := l][..m] == lens[..m][i := l];
    } else {
      assert lens[i := l][..m] == lens[..m];
    }
  }

  lemma {:induction false} CostOfFreq(f: seq<nat>, lens: seq<nat>, i: nat, v: nat)
    requires i < |f| == |lens|
    ensures Cost(f[i := v], lens) == Cost(f, lens) - Times(f[i], lens[i]) + Times(v, lens[i])
    decreases |f|
  {
    var m := |f| - 1;
    if i < m {
      CostOfFreq(f[..m], lens[..m], i, v);
      assert f[i := v][..m] == f[..m][i := v];
    } else {
      assert f[i := v][..m] == f[..m];
    }
  }

  lemma {:induction false} KraftUpdate(f: seq<nat>, lens: seq<nat>, d: nat, i: nat, l: nat)
    requires i < |f| == |lens| && f[i] != 0
    ensures Kraft(f, lens[i := l], d) == Kraft(f, lens, d) - Share(lens[i], d) + Share(l, d)
    decreases |f|
  {
    var m := |f| - 1;
    if i < m {
      KraftUpdate(f[..m], lens[..m], d, i, l);
      assert lens[i := l][..m] == lens[..m][i := l];
    } else {
      assert lens[i := l][..m] == lens[..m];
    }
  }

  lemma {:induction false} KraftOfFreq(f: seq<nat>, lens: seq<nat>, d: nat, i: nat, v: nat)
    requires i < |f| == |lens| && f[i] != 0
    ensures Kraft(f[i := v], lens, d) == if v != 0 then Kraft(f, lens, d) else Kraft(f, lens, d) - Share(lens[i], d)
    decreases |f|
  {
    var m := |f| - 1;
    if i < m {
      KraftOfFreq(f[..m], lens[..m], d, i, v);
      assert f[i := v][..m] == f[..m][i := v];
    } else {
      assert f[i := v][..m] == f[..m];
    }
  }

  lemma {:induction false} KraftDouble(f: seq<nat>, lens: seq<nat>, d: nat)
    requires |lens| == |f| && d > 0 && Within(f, lens, d - 1)
    ensures Kraft(f, lens, d) == 2 * Kraft(f, lens, d - 1)
    decreases |f|
  {
    if f != [] {
      var m := |f| - 1;
      KraftDouble(f[..m], lens[..m], d);
    }
  }

  lemma {:induction false} KraftCounts(f: seq<nat>, lens: seq<nat>, d: nat)
    requires |lens| == |f| && Within(f, lens, d)
    ensures Kraft(f, lens, d) >= Live(f)
    decreases |f|
  {
    if f != [] {
      KraftCounts(f[..|f| - 1], lens[..|f| - 1], d);
    }
  }

  /** Exchanging the lengths of two symbols so that the rarer one gets the longer code saves bits. */
  lemma Exchange(f: seq<nat>, lens: seq<nat>, d: nat, x: nat, a: nat) returns (lens': seq<nat>)
    requires |lens| == |f| && x < |f| && a < |f| && f[x] != 0 && f[a] != 0 && x != a
    requires f[x] <= f[a] && lens[x] <= lens[a] == d && Within(f, lens, d)
    ensures lens' == lens[x := d][a := lens[x]] && Within(f, lens', d)
    ensures Cost(f, lens') <= Cost(f, lens) && Kraft(f, lens', d) == Kraft(f, lens, d)
  {
    lens' := lens[x := d][a := lens[x]];
    CostUpdate(f, lens, x, d);
    CostUpdate(f, lens[x := d], a, lens[x]);
    TimesOrder(f[x], f[a], lens[x], d);
    KraftUpdate(f, lens, d, x, d);
    KraftUpdate(f, lens[x := d], d, a, lens[x]);
  }

  /** Two of the symbols with the longest codes may be the two rarest. */
  lemma RarestAreDeepest(f: seq<nat>, lens: seq<nat>, d: nat, c1: nat, c2: nat, a: nat,
                         b: nat) returns (lens': seq<nat>)
    requires |lens| == |f| && Within(f, lens, d)
    requires c1 < |f| && c2 < |f| && c1 != c2 && f[c1] != 0 && f[c2] != 0
    requires forall i :: 0 <= i < |f| && f[i] != 0 ==> f[c1] <= f[i]
    requires forall i :: 0 <= i < |f| && f[i] != 0 && i != c1 ==> f[c2] <= f[i]
    requires a < |f| && b < |f| && a != b && f[a] != 0 && f[b] != 0 && lens[a] == lens[b] == d
    ensures |lens'| == |f| && Within(f, lens', d) && lens'[c1] == lens'[c2] == d
    ensures Cost(f, lens') <= Cost(f, lens) && Kraft(f, lens', d) == Kraft(f, lens, d)
  {
    lens' := lens;
    var other := if a == c1 then b else a;
    if lens[c1] < d {
      lens' := Exchange(f, lens, d, c1, a);
      other := b;
    }
    if lens'[c2] < d {
      lens' := Exchange(f, lens', d, c2, other);
    }
  }

  /** With the two rarest symbols at the end of the tree, merging them shortens the code by their frequencies. */
  lemma MergeDeepest(f: seq<nat>, lens: seq<nat>, d: nat, c1: nat, c2: nat) returns (lens': seq<nat>)
    requires |lens| == |f| && d > 0 && Within(f, lens, d)
    requires c1 < |f| && c2 < |f| && c1 != c2 && f[c1] != 0 && f[c2] != 0 && lens[c1] == lens[c2] == d
    ensures |lens'| == |f| && Within(Merged(f, c1, c2), lens', d)
    ensures Kraft(Merged(f, c1, c2), lens', d) == Kraft(f, lens, d)
    ensures Cost(Merged(f, c1, c2), lens') + (f[c1] + f[c2]) == Cost(f, lens)
  {
    var v, g := f[c1] + f[c2], f[c1 := f[c1] + f[c2]];
    lens' := lens[c1 := d - 1];
    CostOfFreq(f, lens, c1, v);
    CostOfFreq(g, lens, c2, 0);
    CostUpdate(g[c2 := 0], lens, c1, d - 1);
    TimesAdd(f[c1], f[c2], d);
    TimesAdd(v, d - 1, 1);
    TimesAdd(v, d, 0);
    KraftOfFreq(f, lens, d, c1, v);
    KraftOfFreq(g, lens, d, c2, 0);
    KraftUpdate(g[c2 := 0], lens, d, c1, d - 1);
    assert Share(d, d) == 1 && Share(d - 1, d) == 2 by {
      assert Pow2(1) == 2 * Pow2(0);
    }
  }

  /** A single longest code may be one bit shorter. */
  lemma ShortenLonely(f: seq<nat>, lens: seq<nat>, d: nat, a: nat) returns (lens': seq<nat>)
    requires |lens| == |f| && d > 0 && Within(f, lens, d) && Kraft(f, lens, d) <= Pow2(d)
    requires a < |f| && f[a] != 0 && lens[a] == d && forall i :: 0 <= i < |f| && f[i] != 0 && i != a ==> lens[i] < d
    ensures |lens'| == |f| && Within(f, lens', d - 1) && Kraft(f, lens', d) <= Pow2(d)
            && Cost(f, lens') <= Cost(f, lens)
  {
    lens' := lens[a := d - 1];
    KraftUpdate(f, lens, d, a, d - 1);
    KraftOfFreq(f, lens, d, a, 0);
    KraftDouble(f[a := 0], lens, d);
    assert Share(d, d) == 1 && Share(d - 1, d) == 2 by {
      assert Pow2(1) == 2 * Pow2(0);
    }
    CostUpdate(f, lens, a, d - 1);
    TimesAdd(f[a], d - 1, 1);
  }

  /** The next bit string length down. */
  lemma OneBitLess(f: seq<nat>, lens: seq<nat>, d: nat)
    requires |lens| == |f| && d > 0 && Within(f, lens, d - 1) && Kraft(f, lens, d) <= Pow2(d)
    ensures Kraft(f, lens, d - 1) <= Pow2(d - 1)
  {
    KraftDouble(f, lens, d);
  }

  /** No lengths that satisfy the Kraft inequality give a shorter total than Huffman's algorithm. */
  lemma {:induction false} MergeCostIsLeast(f: seq<nat>, lens: seq<nat>, d: nat)
    requires |lens| == |f| && Within(f, lens, d) && Kraft(f, lens, d) <= Pow2(d)
    ensures MergeCost(f) <= Cost(f, lens)
    decreases Live(f), d
  {
    var c1 := Smallest(f, -1, |f|);
    var c2 := Smallest(f, c1, |f|);
    if c1 >= 0 && c2 >= 0 {
      TwoEntries(f, c1, c2);
      KraftCounts(f, lens, d);
      if a, b :| 0 <= a < |f| && 0 <= b < |f| && a != b && f[a] != 0 && f[b] != 0 && lens[a] == d && lens[b] == d {
        LeastWithPair(f, lens, d, c1, c2, a, b);
      } else if a :| 0 <= a < |f| && f[a] != 0 && lens[a] == d {
        var shorter := ShortenLonely(f, lens, d, a);
        OneBitLess(f, shorter, d);
        MergeCostIsLeast(f, shorter, d - 1);
      } else {
        OneBitLess(f, lens, d);
        MergeCostIsLeast(f, lens, d - 1);
      }
    }
  }

  lemma {:induction false} LeastWithPair(f: seq<nat>, lens: seq<nat>, d: nat, c1: nat, c2: nat, a: nat, b: nat)
    requires |lens| == |f| && d > 0 && Within(f, lens, d) && Kraft(f, lens, d) <= Pow2(d)
    requires c1 < |f| && c1 == Smallest(f, -1, |f|) && c2 < |f| && c2 == Smallest(f, c1, |f|)
    requires a < |f| && b < |f| && a != b && f[a] != 0 && f[b] != 0 && lens[a] == lens[b] == d
    ensures MergeCost(f) <= Cost(f, lens)
    decreases Live(f), d, 0
  {
    forall i | 0 <= i < |f| && f[i] != 0 ensures f[c1] <= f[i] && (i != c1 ==> f[c2] <= f[i]) {
      SmallestIs(f, -1, |f|, i);
      if i != c1 {
        SmallestIs(f, c1, |f|, i);
      }
    }
    var deep := RarestAreDeepest(f, lens, d, c1, c2, a, b);
    var less := MergeDeepest(f, deep, d, c1, c2);
    MergedLive(f, c1, c2);
    MergeCostIsLeast(Merged(f, c1, c2), less, d);
  }

  // ---- The algorithm, on linked branches

  /** The sum of g over the symbols that belong to root c. */
  function Owned(owner: seq<int>, c: int, g: seq<nat>): nat
    requires |owner| == |g|
  {
    if g == [] then 0
    else
      var m := |g| - 1;
      Owned(owner[..m], c, g[..m]) + if owner[m] == c then g[m] else 0
  }

  /** The symbols of root c2 now belong to c1. */
  function Joined(owner: seq<int>, c1: int, c2: int): (o: seq<int>)
    ensures |o| == |owner| && forall i :: 0 <= i < |o| ==> o[i] == if owner[i] == c2 then c1 else owner[i]
  {
    seq(|owner|, i requires 0 <= i < |owner| => if owner[i] == c2 then c1 else owner[i])
  }

  lemma {:induction false} OwnedJoined(owner: seq<int>, c1: int, c2: int, c: int, g: seq<nat>)
    requires |owner| == |g| && c1 != c2
    ensures Owned(Joined(owner, c1, c2), c, g)
            == if c == c1 then Owned(owner, c1, g) + Owned(owner, c2, g) else if c == c2 then 0 else Owned(owner, c, g)
    decreases |g|
  {
    if g != [] {
      var m := |g| - 1;
      OwnedJoined(owner[..m], c1, c2, c, g[..m]);
      assert Joined(owner, c1, c2)[..m] == Joined(owner[..m], c1, c2);
    }
  }

  lemma {:induction false} OwnedSame(owner: seq<int>, c: int, g: seq<nat>, h: seq<nat>)
    requires |owner| == |g| == |h| && forall i :: 0 <= i < |g| && owner[i] == c ==> g[i] == h[i]
    ensures Owned(owner, c, g) == Owned(owner, c, h)
    decreases |g|
  {
    if g != [] {
      OwnedSame(owner[..|g| - 1], c, g[..|g| - 1], h[..|g| - 1]);
    }
  }

  lemma {:induction false} OwnedOne(owner: seq<int>, c: nat, g: seq<nat>)
    requires |owner| == |g| && c < |g|
    requires forall i :: 0 <= i < |g| && i != c ==> owner[i] == c ==> g[i] == 0
    ensures Owned(owner, c, g) == if owner[c] == c then g[c] else 0
    decreases |g|
  {
    var m := |g| - 1;
    if c < m {
      OwnedOne(owner[..m], c, g[..m]);
    } else {
      OwnedNone(owner[..m], c, g[..m]);
    }
  }

  lemma {:induction false} OwnedNone(owner: seq<int>, c: int, g: seq<nat>)
    requires |owner| == |g| && forall i :: 0 <= i < |g| && owner[i] == c ==> g[i] == 0
    ensures Owned(owner, c, g) == 0
    decreases |g|
  {
    if g != [] {
      OwnedNone(owner[..|g| - 1], c, g[..|g| - 1]);
    }
  }

  /** The shares of all codes at scale d. */
  function Shares(codesize: seq<nat>, d: nat): (g: seq<nat>)
    ensures |g| == |codesize| && forall i :: 0 <= i < |g| ==> g[i] == Share(codesize[i], d)
  {
    seq(|codesize|, i requires 0 <= i < |codesize| => Share(codesize[i], d))
  }

  predicate Deep(owner: seq<int>, c: int, codesize: seq<nat>, d: nat)
    requires |owner| == |codesize|
  {
    forall i :: 0 <= i < |owner| && owner[i] == c ==> codesize[i] <= d
  }

  /** The entry behind the k-th one; -1 at the end. */
  function Link(chain: seq<nat>, k: nat): int {
    if k + 1 < |chain| then chain[k + 1] else -1
  }

  /** The branch of root c is a chain through `others` that visits each of its symbols once. */
  ghost predicate Chain(others: seq<int>, owner: seq<int>, c: nat, chain: seq<nat>)
    requires |others| == |owner|
  {
    && chain != [] && chain[0] == c
    && (forall k :: 0 <= k < |chain| ==> chain[k] < |owner| && owner[chain[k]] == c)
    && (forall k :: 0 <= k < |chain| ==> others[chain[k]] == Link(chain, k))
    && (forall j, k :: 0 <= j < k < |chain| ==> chain[j] != chain[k])
    && (forall i :: 0 <= i < |owner| && owner[i] == c ==> i in chain)
  }

  /** What the arrays say: f0 is what they started from. */
  datatype Forest = Forest(freq: seq<nat>, codesize: seq<nat>, others: seq<int>, owner: seq<int>, chains: seq<seq<nat>>)

  ghost predicate Shape(w: Forest, f0: seq<nat>) {
    && |f0| == |w.freq| == |w.codesize| == |w.others| == |w.owner| == |w.chains|
    && (forall i :: 0 <= i < |f0| ==> if f0[i] == 0 then w.owner[i] == -1 && w.codesize[i] == 0
                                      else 0 <= w.owner[i] < |f0| && w.freq[w.owner[i]] != 0)
  }

  ghost predicate Branches(w: Forest, f0: seq<nat>)
    requires Shape(w, f0)
  {
    && (forall c :: 0 <= c < |f0| && w.freq[c] != 0 ==> Chain(w.others, w.owner, c, w.chains[c]))
    && (forall c :: 0 <= c < |f0| ==> Owned(w.owner, c, f0) == w.freq[c])
  }

  /** Within each branch the codes are complete. */
  ghost predicate CompleteBranches(w: Forest, f0: seq<nat>)
    requires Shape(w, f0)
  {
    forall c: nat, d: nat :: c < |f0| && w.freq[c] != 0 && Deep(w.owner, c, w.codesize, d) ==>
      Owned(w.owner, c, Shares(w.codesize, d)) == Pow2(d)
  }

  /** 1, 1, 2, 3, 5, ... */
  function Fibonacci(n: nat): (r: nat)
    ensures r > 0
  {
    if n < 2 then 1 else Fibonacci(n - 1) + Fibonacci(n - 2)
  }

  /** How heavy root c has to be on account of a symbol of root o, whose code has n bits. */
  function Due(n: nat, c: int, o: int): nat {
    Fibonacci(if c == o then n + 1 else n)
  }

  /** A branch weighs as much as its depth demands, and every other branch almost as much. (folded) */
  ghost predicate Heavy(w: Forest, f0: seq<nat>)
    requires Shape(w, f0)
  {
    forall k: nat {:trigger Unfolded(BranchWeights, k)} :: Unfolded(BranchWeights, k) ==>
      forall i, c :: 0 <= i < |f0| && f0[i] != 0 && 0 <= c < |f0| && w.freq[c] != 0 ==>
        w.freq[c] >= Due(w.codesize[i], c, w.owner[i])
  }

  /** (folded) */
  ghost predicate Growing(w: Forest, f0: seq<nat>) {
    forall k: nat {:trigger Unfolded(ForestGrows, k)} :: Unfolded(ForestGrows, k) ==>
      && Shape(w, f0) && Branches(w, f0) && CompleteBranches(w, f0) && Heavy(w, f0)
      && Sum(w.freq) == Sum(f0) && Cost(f0, w.codesize) + MergeCost(w.freq) == MergeCost(f0)
  }

  function StartOf(f0: seq<nat>): (w: Forest)
  {
    Forest(f0, seq(|f0|, _ => 0), seq(|f0|, _ => -1),
           seq(|f0|, i requires 0 <= i < |f0| => if f0[i] == 0 then -1 else i), seq(|f0|, i => [i]))
  }

  lemma {:induction false} CostZero(f: seq<nat>, lens: seq<nat>)
    requires |lens| == |f| && forall i :: 0 <= i < |f| ==> lens[i] == 0
    ensures Cost(f, lens) == 0
    decreases |f|
  {
    if f != [] {
      CostZero(f[..|f| - 1], lens[..|f| - 1]);
    }
  }

  lemma OneIsDue(c: int, o: int)
    ensures Due(0, c, o) == 1
  {
  }

  lemma StartIsHeavy(f0: seq<nat>)
    requires Shape(StartOf(f0), f0)
    ensures Heavy(StartOf(f0), f0)
  {
    var w := StartOf(f0);
    forall i, c | 0 <= i < |f0| && f0[i] != 0 && 0 <= c < |f0| && w.freq[c] != 0
      ensures w.freq[c] >= Due(w.codesize[i], c, w.owner[i])
    {
      OneIsDue(c, w.owner[i]);
    }
  }

  lemma LoneChain(others: seq<int>, owner: seq<int>, c: nat)
    requires c < |owner| == |others| && others[c] == -1 && owner[c] == c
    requires forall i :: 0 <= i < |owner| && i != c ==> owner[i] != c
    ensures Chain(others, owner, c, [c])
  {
  }

  lemma StartIsShaped(f0: seq<nat>)
    ensures Shape(StartOf(f0), f0) && Branches(StartOf(f0), f0)
  {
    var w := StartOf(f0);
    forall c | 0 <= c < |f0| ensures Owned(w.owner, c, f0) == w.freq[c] {
      OwnedOne(w.owner, c, f0);
    }
    forall c | 0 <= c < |f0| && w.freq[c] != 0 ensures Chain(w.others, w.owner, c, w.chains[c]) {
      LoneChain(w.others, w.owner, c);
    }
  }

  /** A code of no bits is complete. */
  lemma LoneShare(owner: seq<int>, codesize: seq<nat>, c: nat, d: nat)
    requires c < |owner| == |codesize| && owner[c] == c && codesize[c] == 0
    requires forall i :: 0 <= i < |owner| && i != c ==> owner[i] != c
    ensures Owned(owner, c, Shares(codesize, d)) == Pow2(d)
  {
    OwnedOne(owner, c, Shares(codesize, d));
  }

  lemma ForestStarts(f0: seq<nat>)
    ensures Growing(StartOf(f0), f0)
  {
    var w := StartOf(f0);
    CostZero(f0, w.codesize);
    StartIsShaped(f0);
    StartIsHeavy(f0);
    forall c: nat, d: nat | c < |f0| && w.freq[c] != 0 && Deep(w.owner, c, w.codesize, d)
      ensures Owned(w.owner, c, Shares(w.codesize, d)) == Pow2(d)
    {
      LoneShare(w.owner, w.codesize, c, d);
    }
  }

  // ---- One merge

  /** Every code in the branches of c1 and c2 is one bit longer. */
  function Deepened(codesize: seq<nat>, owner: seq<int>, c1: int, c2: int): (l: seq<nat>)
    requires |owner| == |codesize|
    ensures |l| == |codesize|
    ensures forall i :: 0 <= i < |l| ==> l[i] == codesize[i] + if owner[i] == c1 || owner[i] == c2 then 1 else 0
  {
    seq(|codesize|, i requires 0 <= i < |codesize| => codesize[i] + if owner[i] == c1 || owner[i] == c2 then 1 else 0)
  }

  /** c2's branch is chained onto c1's. */
  ghost function Step(w: Forest, f0: seq<nat>, c1: nat, c2: nat): Forest
    requires Shape(w, f0) && Branches(w, f0) && c1 < |f0| && c2 < |f0| && w.freq[c1] != 0
  {
    var chain := w.chains[c1];
    Forest(Merged(w.freq, c1, c2), Deepened(w.codesize, w.owner, c1, c2), w.others[chain[|chain| - 1] := c2],
           Joined(w.owner, c1, c2), w.chains[c1 := chain + w.chains[c2]])
  }

  /** Two different roots. */
  ghost predicate Roots(w: Forest, f0: seq<nat>, c1: nat, c2: nat) {
    && Shape(w, f0) && Branches(w, f0) && c1 < |f0| && c2 < |f0| && c1 != c2 && w.freq[c1] != 0 && w.freq[c2] != 0
  }

  lemma {:induction false} CostDeepened(f: seq<nat>, lens: seq<nat>, owner: seq<int>, c1: int, c2: int)
    requires |f| == |lens| == |owner| && c1 != c2
    ensures Cost(f, Deepened(lens, owner, c1, c2)) == Cost(f, lens) + Owned(owner, c1, f) + Owned(owner, c2, f)
    decreases |f|
  {
    if f != [] {
      var m := |f| - 1;
      CostDeepened(f[..m], lens[..m], owner[..m], c1, c2);
      assert Deepened(lens, owner, c1, c2)[..m] == Deepened(lens[..m], owner[..m], c1, c2);
      TimesAdd(f[m], lens[m], 1);
    }
  }

  lemma LinksJoin(others: seq<int>, owner: seq<int>, c1: nat, c2: nat, a: seq<nat>, b: seq<nat>)
    requires |others| == |owner| && c1 != c2 && Chain(others, owner, c1, a) && Chain(others, owner, c2, b)
    ensures var o, ch := others[a[|a| - 1] := c2], a + b;
            forall k :: 0 <= k < |ch| ==> ch[k] < |o| && o[ch[k]] == Link(ch, k)
  {
    var last := a[|a| - 1];
    var o, ch := others[last := c2], a + b;
    assert owner[last] == c1 && b[0] == c2;
    forall k | 0 <= k < |ch| ensures ch[k] < |o| && o[ch[k]] == Link(ch, k) {
      if k < |a| {
        assert ch[k] == a[k] && others[a[k]] == Link(a, k) && (k < |a| - 1 ==> a[k] != last);
      } else {
        assert ch[k] == b[k - |a|] && owner[ch[k]] == c2 && others[b[k - |a|]] == Link(b, k - |a|);
      }
    }
  }

  lemma ChainsJoin(others: seq<int>, owner: seq<int>, c1: nat, c2: nat, a: seq<nat>, b: seq<nat>)
    requires |others| == |owner| && c1 != c2 && Chain(others, owner, c1, a) && Chain(others, owner, c2, b)
    ensures a[|a| - 1] < |others| && Chain(others[a[|a| - 1] := c2], Joined(owner, c1, c2), c1, a + b)
  {
    LinksJoin(others, owner, c1, c2, a, b);
    var o := Joined(owner, c1, c2);
    forall i | 0 <= i < |owner| && o[i] == c1 ensures i in a + b {
      assert owner[i] == c1 || owner[i] == c2;
    }
    forall j, k | 0 <= j < k < |a + b| ensures (a + b)[j] != (a + b)[k] {
      if j < |a| <= k {
        assert owner[a[j]] == c1 && owner[b[k - |a|]] == c2;
      }
    }
    forall k | 0 <= k < |a + b| ensures o[(a + b)[k]] == c1 {
      assert if k < |a| then owner[a[k]] == c1 else owner[b[k - |a|]] == c2;
    }
  }

  lemma OtherChains(w: Forest, f0: seq<nat>, c1: nat, c2: nat, c: nat)
    requires Roots(w, f0, c1, c2) && c < |f0| && c != c1 && c != c2 && w.freq[c] != 0
    ensures Chain(Step(w, f0, c1, c2).others, Joined(w.owner, c1, c2), c, w.chains[c])
  {
    var a := w.chains[c1];
    assert w.owner[a[|a| - 1]] == c1;
  }

  lemma StepShape(w: Forest, f0: seq<nat>, c1: nat, c2: nat)
    requires Roots(w, f0, c1, c2)
    ensures Shape(Step(w, f0, c1, c2), f0)
  {
  }

  lemma StepBranches(w: Forest, f0: seq<nat>, c1: nat, c2: nat)
    requires Roots(w, f0, c1, c2) && Shape(Step(w, f0, c1, c2), f0)
    ensures Branches(Step(w, f0, c1, c2), f0)
  {
    var v := Step(w, f0, c1, c2);
    forall c | 0 <= c < |f0| && v.freq[c] != 0 ensures Chain(v.others, v.owner, c, v.chains[c]) {
      if c == c1 {
        ChainsJoin(w.others, w.owner, c1, c2, w.chains[c1], w.chains[c2]);
      } else {
        OtherChains(w, f0, c1, c2, c);
      }
    }
    forall c | 0 <= c < |f0| ensures Owned(v.owner, c, f0) == v.freq[c] {
      OwnedJoined(w.owner, c1, c2, c, f0);
    }
  }

  /** One of the two branches, a bit further down. */
  lemma HalfShare(owner: seq<int>, codesize: seq<nat>, c1: int, c2: int, x: int, d: nat)
    requires |owner| == |codesize| && (x == c1 || x == c2) && d > 0
    requires Deep(Joined(owner, c1, c2), c1, Deepened(codesize, owner, c1, c2), d)
    ensures Deep(owner, x, codesize, d - 1)
    ensures Owned(owner, x, Shares(Deepened(codesize, owner, c1, c2), d)) == Owned(owner, x, Shares(codesize, d - 1))
  {
    var o, l := Joined(owner, c1, c2), Deepened(codesize, owner, c1, c2);
    forall i | 0 <= i < |owner| && owner[i] == x ensures codesize[i] <= d - 1 {
      assert o[i] == c1;
    }
    OwnedSame(owner, x, Shares(l, d), Shares(codesize, d - 1));
  }

  lemma UnchangedShare(owner: seq<int>, codesize: seq<nat>, c1: int, c2: int, c: int, d: nat)
    requires |owner| == |codesize| && c != c1 && c != c2
    requires Deep(Joined(owner, c1, c2), c, Deepened(codesize, owner, c1, c2), d)
    ensures Deep(owner, c, codesize, d)
    ensures Owned(owner, c, Shares(Deepened(codesize, owner, c1, c2), d)) == Owned(owner, c, Shares(codesize, d))
  {
    var o, l := Joined(owner, c1, c2), Deepened(codesize, owner, c1, c2);
    forall i | 0 <= i < |owner| && owner[i] == c ensures codesize[i] <= d {
      assert o[i] == c;
    }
    OwnedSame(owner, c, Shares(l, d), Shares(codesize, d));
  }

  /** Two complete branches side by side make a complete one. */
  lemma StepComplete(w: Forest, f0: seq<nat>, c1: nat, c2: nat, c: nat, d: nat)
    requires Roots(w, f0, c1, c2) && CompleteBranches(w, f0) && c < |f0| && Merged(w.freq, c1, c2)[c] != 0
    requires Deep(Joined(w.owner, c1, c2), c, Deepened(w.codesize, w.owner, c1, c2), d)
    ensures Owned(Joined(w.owner, c1, c2), c, Shares(Deepened(w.codesize, w.owner, c1, c2), d)) == Pow2(d)
  {
    OwnedJoined(w.owner, c1, c2, c, Shares(Deepened(w.codesize, w.owner, c1, c2), d));
    if c == c1 {
      assert w.owner[w.chains[c1][0]] == c1;
      assert Joined(w.owner, c1, c2)[c1] == c1;
      HalfShare(w.owner, w.codesize, c1, c2, c1, d);
      HalfShare(w.owner, w.codesize, c1, c2, c2, d);
    } else {
      UnchangedShare(w.owner, w.codesize, c1, c2, c, d);
    }
  }

  lemma DueGrows(n: nat)
    ensures Fibonacci(n) <= Fibonacci(n + 1) && Fibonacci(n + 2) == Fibonacci(n + 1) + Fibonacci(n)
  {
  }

  /** Two of the lightest branches make one: their parts were no heavier than any other branch. */
  lemma MergedIsHeavy(f: seq<nat>, c1: nat, c2: nat, c: nat, n: nat, o: int)
    requires c1 == Smallest(f, -1, |f|) && c2 == Smallest(f, c1, |f|) && c < |f| && Merged(f, c1, c2)[c] != 0
    requires f[c1] >= Due(n, c1, o) && f[c2] >= Due(n, c2, o) && f[c] >= Due(n, c, o)
    ensures Merged(f, c1, c2)[c]
            >= Due(if o == c1 || o == c2 then n + 1 else n, c, if o == c2 then c1 else o)
  {
    DueGrows(n);
    SmallestIs(f, -1, |f|, c);
    if c != c1 {
      SmallestIs(f, c1, |f|, c);
    }
    SmallestIs(f, -1, |f|, c2);
  }

  lemma HeavyThree(w: Forest, f0: seq<nat>, c1: nat, c2: nat, i: nat, c: nat)
    requires Roots(w, f0, c1, c2) && Heavy(w, f0) && i < |f0| && f0[i] != 0 && c < |f0|
    requires Merged(w.freq, c1, c2)[c] != 0
    ensures w.freq[c1] >= Due(w.codesize[i], c1, w.owner[i]) && w.freq[c2] >= Due(w.codesize[i], c2, w.owner[i])
    ensures w.freq[c] >= Due(w.codesize[i], c, w.owner[i])
  {
    assert Unfolded(BranchWeights, 0);
  }

  lemma HeavyAt(w: Forest, f0: seq<nat>, c1: nat, c2: nat, i: nat, c: nat)
    requires Roots(w, f0, c1, c2) && Heavy(w, f0) && i < |f0| && f0[i] != 0 && c < |f0|
    requires c1 == Smallest(w.freq, -1, |w.freq|) && c2 == Smallest(w.freq, c1, |w.freq|)
    requires Merged(w.freq, c1, c2)[c] != 0
    ensures Merged(w.freq, c1, c2)[c]
            >= Due(Deepened(w.codesize, w.owner, c1, c2)[i], c, Joined(w.owner, c1, c2)[i])
  {
    var n, o := w.codesize[i], w.owner[i];
    HeavyThree(w, f0, c1, c2, i, c);
    MergedIsHeavy(w.freq, c1, c2, c, n, o);
    assert Deepened(w.codesize, w.owner, c1, c2)[i] == if o == c1 || o == c2 then n + 1 else n;
    assert Joined(w.owner, c1, c2)[i] == if o == c2 then c1 else o;
  }

  lemma StepHeavy(w: Forest, f0: seq<nat>, c1: nat, c2: nat)
    requires Roots(w, f0, c1, c2) && Heavy(w, f0) && Shape(Step(w, f0, c1, c2), f0)
    requires c1 == Smallest(w.freq, -1, |w.freq|) && c2 == Smallest(w.freq, c1, |w.freq|)
    ensures Heavy(Step(w, f0, c1, c2), f0)
  {
    var v := Step(w, f0, c1, c2);
    forall i, c | 0 <= i < |f0| && f0[i] != 0 && 0 <= c < |f0| && v.freq[c] != 0
      ensures v.freq[c] >= Due(v.codesize[i], c, v.owner[i])
    {
      HeavyAt(w, f0, c1, c2, i, c);
    }
  }

  lemma StepGrows(w: Forest, f0: seq<nat>, c1: nat, c2: nat)
    requires Growing(w, f0) && c1 == Smallest(w.freq, -1, |w.freq|) && c2 == Smallest(w.freq, c1, |w.freq|)
    ensures Roots(w, f0, c1, c2) && Growing(Step(w, f0, c1, c2), f0)
  {
    assert Unfolded(ForestGrows, 0);
    var v := Step(w, f0, c1, c2);
    StepShape(w, f0, c1, c2);
    StepBranches(w, f0, c1, c2);
    StepHeavy(w, f0, c1, c2);
    forall c: nat, d: nat | c < |f0| && v.freq[c] != 0 && Deep(v.owner, c, v.codesize, d)
      ensures Owned(v.owner, c, Shares(v.codesize, d)) == Pow2(d)
    {
      StepComplete(w, f0, c1, c2, c, d);
    }
    MergedLive(w.freq, c1, c2);
    CostDeepened(f0, w.codesize, w.owner, c1, c2);
  }

  // ---- The last symbol, when it occurs once

  /** No other code is longer, and roots with codes as long are merged later. */
  ghost predicate NoneLonger(w: Forest, f0: seq<nat>, z: nat)
    requires Shape(w, f0) && z < |f0| && f0[z] != 0
  {
    forall i :: 0 <= i < |f0| && f0[i] != 0 ==>
      && w.codesize[i] <= w.codesize[z]
      && (w.codesize[i] == w.codesize[z] ==> w.owner[i] == w.owner[z] || Before(w.freq, w.owner[z], w.owner[i]))
  }

  /** Two roots besides r. */
  predicate Others(w: Forest, r: int, x: int, y: int)
    requires 0 <= x < |w.freq| && 0 <= y < |w.freq|
  {
    x != y && x != r && y != r && w.freq[x] != 0 && w.freq[y] != 0
  }

  /** Two other roots would make one that is merged later. */
  ghost predicate PairsAreLater(w: Forest, f0: seq<nat>, z: nat)
    requires Shape(w, f0) && z < |f0| && f0[z] != 0
  {
    forall x, y :: 0 <= x < |f0| && 0 <= y < |f0| && Others(w, w.owner[z], x, y) ==>
        PairIsLater(w.freq, w.owner[z], x, y)
  }

  predicate PairIsLater(f: seq<nat>, r: int, x: int, y: int)
    requires 0 <= r < |f| && 0 <= x < |f| && 0 <= y < |f|
  {
    f[x] + f[y] > f[r] || (f[x] + f[y] == f[r] && x < r && y < r)
  }

  /** (folded) */
  ghost predicate LastStaysLongest(w: Forest, f0: seq<nat>) {
    forall k: nat {:trigger Unfolded(LastSymbol, k)} :: Unfolded(LastSymbol, k) ==>
      Shape(w, f0) && (OneLast(f0) ==> NoneLonger(w, f0, |f0| - 1) && PairsAreLater(w, f0, |f0| - 1))
  }

  predicate OneLast(f0: seq<nat>) {
    f0 != [] && f0[|f0| - 1] == 1
  }

  lemma LastStarts(f0: seq<nat>)
    ensures LastStaysLongest(StartOf(f0), f0)
  {
    StartIsShaped(f0);
  }

  /** A code in one of the two branches that are merged. */
  lemma MergedIsNotLonger(w: Forest, f0: seq<nat>, z: nat, c1: nat, c2: nat, i: nat)
    requires Roots(w, f0, c1, c2) && z < |f0| && f0[z] != 0 && NoneLonger(w, f0, z) && PairsAreLater(w, f0, z)
    requires c1 == Smallest(w.freq, -1, |w.freq|) && c2 == Smallest(w.freq, c1, |w.freq|)
    requires i < |f0| && f0[i] != 0 && w.owner[z] != c1 && w.owner[z] != c2 && (w.owner[i] == c1 || w.owner[i] == c2)
    ensures w.codesize[i] < w.codesize[z] && Before(Merged(w.freq, c1, c2), w.owner[z], c1)
  {
    SmallestIsFirst(w.freq, -1, |w.freq|, w.owner[z]);
    SmallestIsFirst(w.freq, c1, |w.freq|, w.owner[z]);
    assert Others(w, w.owner[z], c1, c2) && PairIsLater(w.freq, w.owner[z], c1, c2);
  }

  lemma StepNoneLonger(w: Forest, f0: seq<nat>, z: nat, c1: nat, c2: nat)
    requires Roots(w, f0, c1, c2) && Shape(Step(w, f0, c1, c2), f0) && z < |f0| && f0[z] != 0
    requires NoneLonger(w, f0, z) && PairsAreLater(w, f0, z)
    requires c1 == Smallest(w.freq, -1, |w.freq|) && c2 == Smallest(w.freq, c1, |w.freq|)
    ensures NoneLonger(Step(w, f0, c1, c2), f0, z)
  {
    var v := Step(w, f0, c1, c2);
    forall i | 0 <= i < |f0| && f0[i] != 0
      ensures v.codesize[i] <= v.codesize[z]
      ensures v.codesize[i] == v.codesize[z] ==> v.owner[i] == v.owner[z] || Before(v.freq, v.owner[z], v.owner[i])
    {
      if w.owner[z] != c1 && w.owner[z] != c2 && (w.owner[i] == c1 || w.owner[i] == c2) {
        MergedIsNotLonger(w, f0, z, c1, c2, i);
      }
    }
  }

  /** Two roots besides the new one. */
  lemma OthersAreLater(f: seq<nat>, c1: nat, c2: nat, x: nat, y: nat)
    requires c1 == Smallest(f, -1, |f|) && c2 == Smallest(f, c1, |f|) && c1 < |f| && c2 < |f| && c1 != c2
    requires x < |f| && y < |f| && x != y && f[x] != 0 && f[y] != 0 && x != c1 && x != c2 && y != c1 && y != c2
    ensures PairIsLater(Merged(f, c1, c2), c1, x, y)
  {
    SmallestIsFirst(f, -1, |f|, x);
    SmallestIsFirst(f, -1, |f|, y);
    SmallestIsFirst(f, c1, |f|, x);
    SmallestIsFirst(f, c1, |f|, y);
    SmallestIsFirst(f, -1, |f|, c2);
  }

  lemma StepPairsAreLater(w: Forest, f0: seq<nat>, z: nat, c1: nat, c2: nat)
    requires Roots(w, f0, c1, c2) && Shape(Step(w, f0, c1, c2), f0) && z < |f0| && f0[z] != 0
    requires PairsAreLater(w, f0, z)
    requires c1 == Smallest(w.freq, -1, |w.freq|) && c2 == Smallest(w.freq, c1, |w.freq|)
    ensures PairsAreLater(Step(w, f0, c1, c2), f0, z)
  {
    var v := Step(w, f0, c1, c2);
    var r := w.owner[z];
    forall x, y | 0 <= x < |f0| && 0 <= y < |f0| && Others(v, v.owner[z], x, y)
      ensures PairIsLater(v.freq, v.owner[z], x, y)
    {
      if r == c1 || r == c2 {
        OthersAreLater(w.freq, c1, c2, x, y);
      } else {
        assert Others(w, r, c1, c2) && PairIsLater(w.freq, r, c1, c2);
        if x != c1 && y != c1 {
          assert Others(w, r, x, y) && PairIsLater(w.freq, r, x, y);
        }
      }
    }
  }

  lemma LastStaysFolded(v: Forest, f0: seq<nat>)
    requires Shape(v, f0) && (OneLast(f0) ==> NoneLonger(v, f0, |f0| - 1) && PairsAreLater(v, f0, |f0| - 1))
    ensures LastStaysLongest(v, f0)
  {
  }

  lemma LastIs(w: Forest, f0: seq<nat>, z: nat)
    requires LastStaysLongest(w, f0) && OneLast(f0) && z == |f0| - 1
    ensures Shape(w, f0) && NoneLonger(w, f0, z) && PairsAreLater(w, f0, z)
  {
    assert Unfolded(LastSymbol, 0);
  }

  lemma LastStaysAt(w: Forest, f0: seq<nat>, z: nat, c1: nat, c2: nat, v: Forest)
    requires Roots(w, f0, c1, c2) && v == Step(w, f0, c1, c2) && Shape(v, f0)
    requires c1 == Smallest(w.freq, -1, |w.freq|) && c2 == Smallest(w.freq, c1, |w.freq|)
    requires z == |f0| - 1 && f0[z] == 1 && NoneLonger(w, f0, z) && PairsAreLater(w, f0, z)
    ensures LastStaysLongest(v, f0)
  {
    StepNoneLonger(w, f0, z, c1, c2);
    StepPairsAreLater(w, f0, z, c1, c2);
    LastStaysFolded(v, f0);
  }

  lemma LastStays(w: Forest, f0: seq<nat>, c1: nat, c2: nat)
    requires Roots(w, f0, c1, c2) && LastStaysLongest(w, f0)
    requires c1 == Smallest(w.freq, -1, |w.freq|) && c2 == Smallest(w.freq, c1, |w.freq|)
    ensures LastStaysLongest(Step(w, f0, c1, c2), f0)
  {
    var v := Step(w, f0, c1, c2);
    StepShape(w, f0, c1, c2);
    if OneLast(f0) {
      LastIs(w, f0, |f0| - 1);
      LastStaysAt(w, f0, |f0| - 1, c1, c2, v);
    } else {
      LastStaysFolded(v, f0);
    }
  }

  /** A last symbol that occurs once has one of the longest codes. */
  ghost predicate LastIsLongest(f: seq<nat>, lens: seq<nat>) {
    |lens| == |f| && (OneLast(f) ==> forall i :: 0 <= i < |lens| ==> lens[i] <= lens[|f| - 1])
  }

  lemma LastEnds(w: Forest, f0: seq<nat>)
    requires LastStaysLongest(w, f0)
    ensures LastIsLongest(f0, w.codesize)
  {
    assert Unfolded(LastSymbol, 0);
  }

  // ---- The end

  /** Nothing is left to merge. */
  lemma OneRoot(f: seq<nat>, i: nat, j: nat)
    requires Sum(f) <= BIG + 1 && i < |f| && j < |f| && f[i] != 0 && f[j] != 0
    requires Smallest(f, Smallest(f, -1, |f|), |f|) < 0
    ensures i == j
  {
    if i != j {
      TwoEntries(f, i, j);
      SmallestIs(f, -1, |f|, i);
      var c1 := Smallest(f, -1, |f|);
      SmallestIs(f, c1, |f|, if c1 == i then j else i);
    }
  }

  lemma {:induction false} OwnedIsKraft(f: seq<nat>, lens: seq<nat>, owner: seq<int>, c: int, d: nat)
    requires |f| == |lens| == |owner| && forall i :: 0 <= i < |f| ==> (owner[i] == c <==> f[i] != 0)
    ensures Owned(owner, c, Shares(lens, d)) == Kraft(f, lens, d)
    decreases |f|
  {
    if f != [] {
      var m := |f| - 1;
      OwnedIsKraft(f[..m], lens[..m], owner[..m], c, d);
      assert Shares(lens, d)[..m] == Shares(lens[..m], d);
    }
  }

  /** The code lengths form a complete code for the symbols that occur, and none is shorter on the whole. */
  ghost predicate Optimal(f: seq<nat>, lens: seq<nat>) {
    && |lens| == |f|
    && (forall i :: 0 <= i < |f| && f[i] == 0 ==> lens[i] == 0)
    && ((exists i :: 0 <= i < |f| && f[i] != 0) ==> forall d: nat :: Within(f, lens, d) ==>
         Kraft(f, lens, d) == Pow2(d))
    && forall other: seq<nat>, d: nat :: |other| == |f| && Within(f, other, d) && Kraft(f, other, d) <= Pow2(d) ==>
         Cost(f, lens) <= Cost(f, other)
  }

  /** A code of some length is not there unless the frequencies are large. */
  ghost predicate Rare(f: seq<nat>, lens: seq<nat>) {
    |lens| == |f| && forall i :: 0 <= i < |f| && f[i] != 0 ==> Sum(f) >= Fibonacci(lens[i] + 1)
  }

  lemma LongCodesAreRare(w: Forest, f0: seq<nat>)
    requires Growing(w, f0)
    ensures Rare(f0, w.codesize)
  {
    assert Unfolded(ForestGrows, 0);
    assert Unfolded(BranchWeights, 0);
    forall i | 0 <= i < |f0| && f0[i] != 0 ensures Sum(f0) >= Fibonacci(w.codesize[i] + 1) {
      EntryBound(w.freq, w.owner[i]);
      assert w.freq[w.owner[i]] >= Due(w.codesize[i], w.owner[i], w.owner[i]);
    }
  }

  lemma MergeIsOptimal(w: Forest, f0: seq<nat>)
    requires Growing(w, f0) && Sum(f0) <= BIG + 1
    requires Smallest(w.freq, Smallest(w.freq, -1, |w.freq|), |w.freq|) < 0
    ensures Optimal(f0, w.codesize)
  {
    assert Unfolded(ForestGrows, 0);
    forall other: seq<nat>, d: nat | |other| == |f0| && Within(f0, other, d) && Kraft(f0, other, d) <= Pow2(d)
      ensures Cost(f0, w.codesize) <= Cost(f0, other)
    {
      MergeCostIsLeast(f0, other, d);
    }
    forall i, d: nat | 0 <= i < |f0| && f0[i] != 0
      && Within(f0, w.codesize, d) ensures Kraft(f0, w.codesize, d) == Pow2(d) {
      RootIsComplete(w, f0, i, d);
    }
  }

  /** When one root is left it owns every symbol. */
  lemma RootOwnsAll(w: Forest, f0: seq<nat>, c: nat, j: nat)
    requires Shape(w, f0) && Sum(w.freq) <= BIG + 1 && c < |f0| && w.freq[c] != 0 && j < |f0|
    requires Smallest(w.freq, Smallest(w.freq, -1, |w.freq|), |w.freq|) < 0
    ensures w.owner[j] == c <==> f0[j] != 0
  {
    if f0[j] != 0 {
      OneRoot(w.freq, c, w.owner[j]);
    }
  }

  /** Its branch is complete. */
  lemma RootIsComplete(w: Forest, f0: seq<nat>, i: nat, d: nat)
    requires Shape(w, f0) && CompleteBranches(w, f0) && Sum(w.freq) <= BIG + 1
    requires Smallest(w.freq, Smallest(w.freq, -1, |w.freq|), |w.freq|) < 0
    requires i < |f0| && f0[i] != 0 && Within(f0, w.codesize, d)
    ensures Kraft(f0, w.codesize, d) == Pow2(d)
  {
    var c := w.owner[i];
    forall j | 0 <= j < |f0| ensures w.owner[j] == c <==> f0[j] != 0 {
      RootOwnsAll(w, f0, c, j);
    }
    WholeBranch(f0, w.codesize, w.owner, c, d);
  }

  lemma WholeBranch(f: seq<nat>, lens: seq<nat>, owner: seq<int>, c: nat, d: nat)
    requires |f| == |lens| == |owner| && forall j :: 0 <= j < |f| ==> (owner[j] == c <==> f[j] != 0)
    requires Within(f, lens, d)
    ensures Deep(owner, c, lens, d) && Owned(owner, c, Shares(lens, d)) == Kraft(f, lens, d)
  {
    OwnedIsKraft(f, lens, owner, c, d);
  }

  /** The code lengths when the first k symbols of a chain have been visited. */
  function Along(lens: seq<nat>, chain: seq<nat>, k: nat): (l: seq<nat>)
    requires k <= |chain| && forall j :: 0 <= j < |chain| ==> chain[j] < |lens|
    ensures |l| == |lens|
  {
    if k == 0 then lens
    else
      var p := Along(lens, chain, k - 1);
      p[chain[k - 1] := p[chain[k - 1]] + 1]
  }

  lemma {:induction false} AlongIs(lens: seq<nat>, chain: seq<nat>, k: nat, i: nat)
    requires k <= |chain| && forall j :: 0 <= j < |chain| ==> chain[j] < |lens|
    requires forall j, m :: 0 <= j < m < |chain| ==> chain[j] != chain[m]
    requires i < |lens|
    ensures Along(lens, chain, k)[i] == lens[i] + if i in chain[..k] then 1 else 0
    decreases k
  {
    if k > 0 {
      AlongIs(lens, chain, k - 1, i);
      TakeSnoc(chain, k - 1);
      if chain[k - 1] == i {
        assert forall j :: 0 <= j < k - 1 ==> chain[..k - 1][j] == chain[j];
      }
    }
  }

  lemma AlongWhole(lens: seq<nat>, others: seq<int>, owner: seq<int>, c: nat, chain: seq<nat>, i: nat)
    requires |others| == |owner| == |lens| && Chain(others, owner, c, chain) && i < |lens|
    ensures Along(lens, chain, |chain|)[i] == lens[i] + if owner[i] == c then 1 else 0
  {
    AlongIs(lens, chain, |chain|, i);
    assert chain[..|chain|] == chain;
  }

  lemma AlongBoth(lens: seq<nat>, others1: seq<int>, others2: seq<int>, owner: seq<int>, c1: nat, c2: nat,
                  a: seq<nat>, b: seq<nat>, l: seq<nat>, i: nat)
    requires |others1| == |others2| == |owner| == |lens| && c1 != c2 && i < |lens|
    requires Chain(others1, owner, c1, a) && Chain(others2, owner, c2, b) && l == Along(lens, a, |a|)
    ensures Along(l, b, |b|)[i] == lens[i] + if owner[i] == c1 || owner[i] == c2 then 1 else 0
  {
    AlongWhole(lens, others1, owner, c1, a, i);
    AlongWhole(l, others2, owner, c2, b, i);
  }

  lemma AlongBranches(lens: seq<nat>, others1: seq<int>, others2: seq<int>, owner: seq<int>, c1: nat, c2: nat,
                      a: seq<nat>, b: seq<nat>)
    requires |others1| == |others2| == |owner| == |lens| && c1 != c2
    requires Chain(others1, owner, c1, a) && Chain(others2, owner, c2, b)
    ensures Along(Along(lens, a, |a|), b, |b|) == Deepened(lens, owner, c1, c2)
  {
    var l := Along(lens, a, |a|);
    forall i | 0 <= i < |lens| ensures Along(l, b, |b|)[i] == Deepened(lens, owner, c1, c2)[i] {
      AlongBoth(lens, others1, others2, owner, c1, c2, a, b, l, i);
    }
  }

  ghost predicate Linked(others: seq<int>, chain: seq<nat>) {
    && chain != []
    && forall k :: 0 <= k < |chain| ==> chain[k] < |others| && others[chain[k]] == Link(chain, k)
  }

  lemma ChainIsLinked(others: seq<int>, owner: seq<int>, c: nat, chain: seq<nat>)
    requires |others| == |owner| && Chain(others, owner, c, chain)
    ensures Linked(others, chain) && chain[0] == c
  {
  }

  method Increment(codesize: array<nat>, c: nat, ghost lens: seq<nat>, ghost chain: seq<nat>, ghost k: nat)
    requires c < codesize.Length && k < |chain| && c == chain[k] && |lens| == codesize.Length
    requires forall j :: 0 <= j < |chain| ==> chain[j] < |lens|
    requires codesize[..] == Along(lens, chain, k)
    modifies codesize
    ensures codesize[..] == Along(lens, chain, k + 1)
  {
    codesize[c] := codesize[c] + 1;
  }

  /** The codes of one branch become a bit longer; the branch is followed to its end. */
  method Lengthen(codesize: array<nat>, others: array<int>, c0: nat, ghost chain: seq<nat>) returns (c: nat)
    requires codesize.Length == others.Length && Linked(others[..], chain) && chain[0] == c0
    requires codesize != others as object
    modifies codesize
    ensures codesize[..] == Along(old(codesize[..]), chain, |chain|) && c == chain[|chain| - 1] < others.Length
  {
    c := c0;
    ghost var k, links, lens := 0, others[..], codesize[..];
    Increment(codesize, c, lens, chain, k);
    while others[c] >= 0
      invariant 0 <= k < |chain| && c == chain[k] < others.Length && others[..] == links
      invariant codesize[..] == Along(lens, chain, k + 1)
      decreases |chain| - k
    {
      assert links[chain[k]] == Link(chain, k);
      k := k + 1;
      c := others[c];
      Increment(codesize, c, lens, chain, k);
    }
    assert links[chain[k]] == Link(chain, k);
  }

  /** The arrays hold what w says. */
  ghost predicate Holds(freq: array<nat>, codesize: array<nat>, others: array<int>, w: Forest)
    reads freq, codesize, others
  {
    && freq[..] == w.freq && codesize[..] == w.codesize && others[..] == w.others
    && codesize != freq && codesize != others as object && freq != others as object
  }

  method AddFrequencies(freq: array<nat>, c1: nat, c2: nat)
    requires c1 < freq.Length && c2 < freq.Length && c1 != c2
    modifies freq
    ensures freq[..] == Merged(old(freq[..]), c1, c2)
  {
    freq[c1] := freq[c1] + freq[c2];
    freq[c2] := 0;
  }

  /** Both branches become longer, and the second is chained onto the first. */
  method JoinBranches(codesize: array<nat>, others: array<int>, c1: nat, c2: nat, ghost w: Forest, ghost f0: seq<nat>)
    requires codesize[..] == w.codesize && others[..] == w.others && codesize != others as object
             && Roots(w, f0, c1, c2)
    modifies codesize, others
    ensures codesize[..] == Step(w, f0, c1, c2).codesize && others[..] == Step(w, f0, c1, c2).others
  {
    ChainIsLinked(w.others, w.owner, c1, w.chains[c1]);
    var last := Lengthen(codesize, others, c1, w.chains[c1]);
    others[last] := c2;
    SecondChain(w, f0, c1, c2);
    ChainIsLinked(others[..], w.owner, c2, w.chains[c2]);
    var end := Lengthen(codesize, others, c2, w.chains[c2]);
    AlongBranches(w.codesize, w.others, others[..], w.owner, c1, c2, w.chains[c1], w.chains[c2]);
  }

  method MergeRoots(freq: array<nat>, codesize: array<nat>, others: array<int>, c1: nat, c2: nat,
                    ghost w: Forest, ghost f0: seq<nat>)
    requires Holds(freq, codesize, others, w) && Roots(w, f0, c1, c2)
    modifies freq, codesize, others
    ensures Holds(freq, codesize, others, Step(w, f0, c1, c2))
  {
    AddFrequencies(freq, c1, c2);
    JoinBranches(codesize, others, c1, c2, w, f0);
  }

  lemma SecondChain(w: Forest, f0: seq<nat>, c1: nat, c2: nat)
    requires Roots(w, f0, c1, c2)
    ensures Chain(Step(w, f0, c1, c2).others, w.owner, c2, w.chains[c2])
  {
    var a := w.chains[c1];
    assert w.owner[a[|a| - 1]] == c1;
  }

  /** One turn of the loop: it ends when there is no second frequency. */
  method MergeNext(freq: array<nat>, codesize: array<nat>, others: array<int>, ghost w0: Forest, ghost f0: seq<nat>)
    returns (more: bool, ghost w: Forest)
    requires Holds(freq, codesize, others, w0) && Growing(w0, f0) && LastStaysLongest(w0, f0)
    modifies freq, codesize, others
    ensures Holds(freq, codesize, others, w) && Growing(w, f0) && LastStaysLongest(w, f0)
    ensures if more then Live(w.freq) < Live(w0.freq) else w == w0
    ensures !more ==> Smallest(w.freq, Smallest(w.freq, -1, |w.freq|), |w.freq|) < 0
  {
    w := w0;
    var c1 := FindSmallest(freq, -1);
    var c2 := FindSmallest(freq, c1);
    more := c2 >= 0;
    if more {
      StepGrows(w, f0, c1, c2);
      LastStays(w, f0, c1, c2);
      MergedLive(w.freq, c1, c2);
      MergeRoots(freq, codesize, others, c1, c2, w, f0);
      w := Step(w, f0, c1, c2);
    }
  }

  /** The first part of jpeg_gen_optimal_table: repeatedly merges the two smallest frequencies. */
  method MergeAll(freq: array<nat>) returns (codesize: array<nat>)
    requires Sum(freq[..]) <= BIG + 1
    modifies freq
    ensures fresh(codesize) && Optimal(old(freq[..]), codesize[..])
    ensures Rare(old(freq[..]), codesize[..]) && LastIsLongest(old(freq[..]), codesize[..])
  {
    ghost var f0 := freq[..];
    codesize := new nat[freq.Length](_ => 0);
    var others := new int[freq.Length](_ => -1);
    ghost var w := StartOf(f0);
    ForestStarts(f0);
    LastStarts(f0);
    assert codesize[..] == w.codesize && others[..] == w.others;
    var more := true;
    while more
      invariant fresh(codesize) && fresh(others) && Holds(freq, codesize, others, w)
      invariant Growing(w, f0) && LastStaysLongest(w, f0)
      invariant !more ==> Smallest(w.freq, Smallest(w.freq, -1, |w.freq|), |w.freq|) < 0
      decreases Live(w.freq), more
    {
      more, w := MergeNext(freq, codesize, others, w, f0);
    }
    MergeIsOptimal(w, f0);
    LongCodesAreRare(w, f0);
    LastEnds(w, f0);
  }
}
