/** The symbols in order of the lengths of their codes: the end of jpeg_gen_optimal_table. */
module HuffmanListing {
  import opened Numbers
  import opened HuffmanMerge

  /** The symbols below n whose code has length l. */
  function OfLength(lens: seq<nat>, l: nat, n: nat): (s: seq<Byte>)
    requires n <= |lens| && n <= 256
  {
    if n == 0 then [] else OfLength(lens, l, n - 1) + if lens[n - 1] == l then [n - 1] else []
  }

  /** The symbols with codes shorter than l. */
  function Listed(lens: seq<nat>, l: nat): (s: seq<Byte>)
    requires 256 <= |lens|
  {
    if l <= 1 then [] else Listed(lens, l - 1) + OfLength(lens, l - 1, 256)
  }

  /** The first n symbols with codes shorter than l. */
  function Shorter(lens: seq<nat>, l: nat, n: nat): nat
    requires n <= |lens| && n <= 256
  {
    if n == 0 then 0 else Shorter(lens, l, n - 1) + if 0 < lens[n - 1] < l then 1 else 0
  }

  lemma {:induction false} ShorterGrows(lens: seq<nat>, l: nat, n: nat)
    requires n <= |lens| && n <= 256 && l > 0
    ensures Shorter(lens, l + 1, n) == Shorter(lens, l, n) + |OfLength(lens, l, n)|
    decreases n
  {
    if n > 0 {
      ShorterGrows(lens, l, n - 1);
    }
  }

  lemma {:induction false} NoneShorter(lens: seq<nat>, n: nat)
    requires n <= |lens| && n <= 256
    ensures Shorter(lens, 1, n) == 0
    decreases n
  {
    if n > 0 {
      NoneShorter(lens, n - 1);
    }
  }

  lemma {:induction false} ListedSize(lens: seq<nat>, l: nat)
    requires 256 <= |lens| && l >= 1
    ensures |Listed(lens, l)| == Shorter(lens, l, 256)
    decreases l
  {
    if l > 1 {
      ListedSize(lens, l - 1);
      ShorterGrows(lens, l - 1, 256);
    } else {
      NoneShorter(lens, 256);
    }
  }

  lemma {:induction false} OfLengthIs(lens: seq<nat>, l: nat, n: nat)
    requires n <= |lens| && n <= 256
    ensures forall s: Byte :: s in OfLength(lens, l, n) <==> s < n && lens[s] == l
    ensures forall p, q :: 0 <= p < q < |OfLength(lens, l, n)| ==> OfLength(lens, l, n)[p] != OfLength(lens, l, n)[q]
    decreases n
  {
    if n > 0 {
      OfLengthIs(lens, l, n - 1);
      var s := OfLength(lens, l, n - 1);
      forall p | 0 <= p < |s| ensures s[p] != n - 1 {
        assert s[p] in s;
      }
    }
  }

  lemma {:induction false} ListedIs(lens: seq<nat>, l: nat)
    requires 256 <= |lens|
    ensures forall s: Byte :: s in Listed(lens, l) <==> 0 < lens[s] < l
    ensures forall p, q :: 0 <= p < q < |Listed(lens, l)| ==> Listed(lens, l)[p] != Listed(lens, l)[q]
    decreases l
  {
    if l > 1 {
      ListedIs(lens, l - 1);
      OfLengthIs(lens, l - 1, 256);
      DistinctConcat(Listed(lens, l - 1), OfLength(lens, l - 1, 256));
    }
  }

  lemma DistinctConcat(a: seq<Byte>, b: seq<Byte>)
    requires forall p, q :: 0 <= p < q < |a| ==> a[p] != a[q]
    requires forall p, q :: 0 <= p < q < |b| ==> b[p] != b[q]
    requires forall s :: s in a ==> s !in b
    ensures forall p, q :: 0 <= p < q < |a + b| ==> (a + b)[p] != (a + b)[q]
  {
    forall p, q | 0 <= p < q < |a + b| ensures (a + b)[p] != (a + b)[q] {
      if p < |a| <= q {
        assert a[p] in a && b[q - |a|] in b;
      }
    }
  }

  /** The list of symbols sorted by code length; entries behind it stay as they were. */
  method ListSymbols(codesize: array<nat>, huffval0: seq<Byte>) returns (huffval: seq<Byte>, p: nat)
    requires codesize.Length == NSYMBOLS && |huffval0| == 256
    ensures |huffval| == 256 && p == |Listed(codesize[..], MAX_CLEN + 1)| <= 256
    ensures huffval[..p] == Listed(codesize[..], MAX_CLEN + 1)
  {
    ghost var lens := codesize[..];
    huffval, p := huffval0, 0;
    var i := 1;
    while i <= MAX_CLEN
      invariant 1 <= i <= MAX_CLEN + 1 && |huffval| == 256 && p <= 256 && huffval[..p] == Listed(lens, i)
    {
      var j := 0;
      assert huffval[..p] == Listed(lens, i) + OfLength(lens, i, 0);
      while j <= 255
        invariant 0 <= j <= 256 && |huffval| == 256 && p <= 256
                  && huffval[..p] == Listed(lens, i) + OfLength(lens, i, j)
      {
        if codesize[j] == i {
          FitsInTable(lens, i, j);
          huffval := huffval[p := j];
          p := p + 1;
          assert huffval[..p] == huffval[..p - 1] + [j];
        }
        j := j + 1;
      }
      i := i + 1;
    }
  }

  /** There is room for one more symbol. */
  lemma FitsInTable(lens: seq<nat>, l: nat, n: nat)
    requires 256 <= |lens| && n < 256 && l >= 1 && lens[n] == l
    ensures |Listed(lens, l)| + |OfLength(lens, l, n)| < 256
  {
    ListedSize(lens, l);
    ShorterGrows(lens, l, n);
    ShorterBound(lens, l, l, n);
    ShorterBound(lens, l, l + 1, n);
    AtMost(lens, l, n);
  }

  lemma {:induction false} ShorterBound(lens: seq<nat>, l: nat, m: nat, n: nat)
    requires n <= 256 <= |lens| && l <= m
    ensures Shorter(lens, l, n) <= Shorter(lens, m, n) <= n
    decreases n
  {
    if n > 0 {
      ShorterBound(lens, l, m, n - 1);
    }
  }

  /** All symbols with shorter codes, and those of this length before n: n itself is not among them. */
  lemma {:induction false} AtMost(lens: seq<nat>, l: nat, n: nat)
    requires n < 256 <= |lens| && lens[n] == l >= 1
    ensures Shorter(lens, l, 256) + |OfLength(lens, l, n)| < 256
  {
    TailBound(lens, l, n + 1, 256);
    ShorterGrows(lens, l, n);
    ShorterBound(lens, l, l + 1, n);
  }

  lemma {:induction false} TailBound(lens: seq<nat>, l: nat, m: nat, n: nat)
    requires m <= n <= 256 <= |lens|
    ensures Shorter(lens, l, n) <= Shorter(lens, l, m) + (n - m)
    decreases n
  {
    if m < n {
      TailBound(lens, l, m, n - 1);
    }
  }

  // ---- The order of the list

  /** By length, and symbols whose codes have the same length by their number. */
  predicate Follows(lens: seq<nat>, a: Byte, b: Byte)
    requires 256 <= |lens|
  {
    lens[a] < lens[b] || (lens[a] == lens[b] && a < b)
  }

  predicate InOrder(lens: seq<nat>, s: seq<Byte>)
    requires 256 <= |lens|
  {
    forall p, q :: 0 <= p < q < |s| ==> Follows(lens, s[p], s[q])
  }

  lemma {:induction false} OfLengthInOrder(lens: seq<nat>, l: nat, n: nat)
    requires n <= 256 <= |lens|
    ensures InOrder(lens, OfLength(lens, l, n))
    ensures forall p :: 0 <= p < |OfLength(lens, l, n)| ==>
              OfLength(lens, l, n)[p] < n && lens[OfLength(lens, l, n)[p]] == l
    decreases n
  {
    if n > 0 {
      OfLengthInOrder(lens, l, n - 1);
    }
  }

  lemma {:induction false} ListedInOrder(lens: seq<nat>, l: nat)
    requires 256 <= |lens|
    ensures InOrder(lens, Listed(lens, l))
    ensures forall p :: 0 <= p < |Listed(lens, l)| ==> lens[Listed(lens, l)[p]] < l
    decreases l
  {
    if l > 1 {
      ListedInOrder(lens, l - 1);
      OfLengthInOrder(lens, l - 1, 256);
    }
  }

  lemma {:induction false} ListedPrefix(lens: seq<nat>, l: nat, m: nat)
    requires 256 <= |lens| && 1 <= l <= m
    ensures Listed(lens, l) <= Listed(lens, m)
    decreases m
  {
    if l < m {
      ListedPrefix(lens, l, m - 1);
    }
  }

  /** Behind the symbols with shorter codes there are those of length l. */
  lemma ListedAt(lens: seq<nat>, l: nat, m: nat, p: nat)
    requires 256 <= |lens| && 1 <= l < m && |Listed(lens, l)| <= p < |Listed(lens, l + 1)|
    ensures p < |Listed(lens, m)| && lens[Listed(lens, m)[p]] == l
  {
    ListedPrefix(lens, l + 1, m);
    OfLengthInOrder(lens, l, 256);
    assert Listed(lens, l + 1)[p] == OfLength(lens, l, 256)[p - |Listed(lens, l)|];
  }
}
