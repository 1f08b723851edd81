/** Shifts and big-endian byte strings: the arithmetic both entropy coders rest on. */
module Numbers {

  type Byte = x: int | 0 <= x < 256

  type Bit = b: int | 0 <= b < 2

  /** The predicates that proofs carry folded, one name for each. */
  datatype Fold =
    | RunOfCoder | CodedSegment | ScanInput
    | ArithOutput | ArithInput | BandReading | BandRefining | McuOutput | McuInput | ScanPlace
    | BitOutput | BitInput | LookEntry | EncoderCodes | DecoderTables | SinkState | SourceState
    | SoundRuns | RunPlace | RunOutput | RefineOutput | FirstOutput
    | Priors | RefineStand | RefineFace | RefineCall | RefineCount | RefineTail | RefineBlock
    | FirstFill | FirstTold | FirstBlock | HuffInterval | HuffOutput | HuffInput
    | HuffBlocks | HuffPlace | HuffScanInput | HuffOpen | HuffMcu | HuffGathered | HuffPart | HuffFront
    | CodesAssigned | ForestGrows | BranchWeights | LastSymbol
    | CategoryWriting | McuWriting | ArithOpen | BandStepping | BandWriting | RefineWriting

  /** Naming Unfolded(f, 0) in a proof opens the predicate that is folded as f. */
  predicate Unfolded(f: Fold, k: nat) {
    true
  }

  /** Concatenation is associative: proofs about long concatenations name the instances they need. */
  lemma Assoc<T>(a: seq<T>, b: seq<T>, c: seq<T>)
    ensures a + (b + c) == a + b + c
  {
  }

  lemma HeadNext<T>(done: seq<T>, rest: seq<T>)
    requires rest != []
    ensures done + [rest[0]] + rest[1..] == done + rest
    ensures done + [rest[0]] <= done + rest
  {
    assert [rest[0]] + rest[1..] == rest;
  }

  lemma PrefixDrop<T>(a: seq<T>, b: seq<T>, s: seq<T>)
    requires a + b <= s
    ensures |a| <= |s| && b <= s[|a|..]
  {
    assert (a + b)[|a|..] == b;
  }

  lemma DropInside<T>(a: seq<T>, b: seq<T>, k: nat)
    requires k <= |a|
    ensures (a + b)[k..] == a[k..] + b
  {
  }

  lemma TakeSnoc<T>(s: seq<T>, j: nat)
    requires j < |s|
    ensures s[..j] + [s[j]] == s[..j + 1]
  {
  }

  /** Clearing the low 16 bits. */
  lemma Floor16(v: int)
    ensures v / 0x10000 * 0x10000 <= v < v / 0x10000 * 0x10000 + 0x10000
  {
  }

  /** v << k on unbounded integers. */
  function Shl(v: int, k: nat): int
    decreases k
  {
    if k == 0 then v else Shl(2 * v, k - 1)
  }

  /** v >> k, rounding down: the arithmetic shift of a two's complement machine. */
  function Shr(v: int, k: nat): (r: int)
    ensures v >= 0 ==> 0 <= r <= v
    ensures v < 0 ==> v <= r < 0
    decreases k
  {
    if k == 0 then v else Shr(v / 2, k - 1)
  }

  lemma {:induction false} ShlAdd(u: int, v: int, k: nat)
    ensures Shl(u + v, k) == Shl(u, k) + Shl(v, k)
    decreases k
  {
    if k > 0 {
      ShlAdd(2 * u, 2 * v, k - 1);
      assert 2 * (u + v) == 2 * u + 2 * v;
    }
  }

  lemma {:induction false} ShlShl(v: int, j: nat, k: nat)
    ensures Shl(Shl(v, j), k) == Shl(v, j + k)
    decreases j
  {
    if j > 0 {
      ShlShl(2 * v, j - 1, k);
    }
  }

  lemma {:induction false} ShlOrder(u: int, v: int, k: nat)
    ensures Shl(u, k) < Shl(v, k) <==> u < v
    ensures Shl(u, k) == Shl(v, k) <==> u == v
    decreases k
  {
    if k > 0 {
      ShlOrder(2 * u, 2 * v, k - 1);
    }
  }

  lemma {:induction false} ShlNat(v: nat, k: nat)
    ensures Shl(v, k) >= v
    decreases k
  {
    if k > 0 {
      ShlNat(2 * v, k - 1);
    }
  }

  lemma {:induction false} ShlZero(k: nat)
    ensures Shl(0, k) == 0
  {
    if k > 0 {
      ShlZero(k - 1);
    }
  }

  lemma {:induction false} ShrStep(v: int, al: nat)
    ensures Shr(v, al + 1) == Shr(v, al) / 2
    decreases al
  {
    if al > 0 {
      ShrStep(v / 2, al - 1);
    }
  }

  /** A shift to the right undoes what is in the upper part and drops the rest. */
  lemma {:induction false} ShrAddShl(v: int, w: int, k: nat)
    ensures Shr(v + Shl(w, k), k) == Shr(v, k) + w
    decreases k
  {
    if k > 0 {
      ShlAdd(w, w, k - 1);
      assert (v + Shl(w, k)) / 2 == v / 2 + Shl(w, k - 1);
      ShrAddShl(v / 2, w, k - 1);
    }
  }

  lemma {:induction false} ShrUpper(v: int, k: nat)
    ensures v < Shl(Shr(v, k) + 1, k)
    decreases k
  {
    if k > 0 {
      var q := Shr(v, k) + 1;
      ShlAdd(q, q, k - 1);
      ShrUpper(v / 2, k - 1);
    }
  }

  lemma {:induction false} ShrShl(x: int, al: nat)
    ensures Shr(Shl(x, al), al) == x
    decreases al
  {
    if al > 0 {
      ShrStep(Shl(2 * x, al - 1), al - 1);
      ShrShl(2 * x, al - 1);
    }
  }

  lemma {:induction false} ShlNeg(x: int, al: nat)
    ensures Shl(-x, al) == -Shl(x, al)
    decreases al
  {
    if al > 0 {
      ShlNeg(2 * x, al - 1);
    }
  }

  /** The shifts the register layouts use, as multiplications. */
  lemma ShlTable(v: int)
    ensures Shl(v, 8) == v * 0x100 && Shl(v, 11) == v * 0x800 && Shl(v, 16) == v * 0x10000
    ensures Shl(v, 19) == v * 0x80000 && Shl(v, 27) == v * 0x8000000
  {
    ShlTwo(v);
    ShlShl(v, 4, 4);
    ShlShl(v, 8, 3);
    ShlTwo(v * 0x10);
    ShlTwo(v * 0x100);
    ShlShl(v, 8, 8);
    ShlShl(v, 8, 4);
    ShlTwo(v * 0x1000);
    ShlTwo(v * 0x10000);
    ShlShl(v, 12, 4);
    ShlShl(v, 16, 3);
    ShlShl(v, 16, 11);
    ShlShl(v * 0x10000, 8, 3);
    ShlShl(v * 0x10000, 4, 4);
    ShlTwo(v * 0x100000);
    ShlTwo(v * 0x1000000);
  }

  lemma ShlTwo(v: int)
    ensures Shl(v, 3) == v * 8 && Shl(v, 4) == v * 0x10
  {
    assert Shl(v, 4) == Shl(2 * v, 3) == Shl(4 * v, 2) == Shl(8 * v, 1) == Shl(16 * v, 0);
    assert Shl(v, 3) == Shl(2 * v, 2) == Shl(4 * v, 1) == Shl(8 * v, 0);
  }

  /** The number a string of bytes spells, most significant byte first. */
  function Val(s: seq<Byte>): nat
  {
    if s == [] then 0 else Val(s[..|s| - 1]) * 256 + s[|s| - 1]
  }

  function Zeros(n: nat): (s: seq<Byte>)
    ensures |s| == n
    ensures forall i :: 0 <= i < n ==> s[i] == 0
  {
    seq(n, _ => 0)
  }

  function Full(n: nat): (s: seq<Byte>)
    ensures |s| == n
    ensures forall i :: 0 <= i < n ==> s[i] == 0xFF
  {
    seq(n, _ => 0xFF)
  }

  lemma ZerosSnoc(n: nat)
    ensures Zeros(n + 1) == Zeros(n) + [0]
  {
  }

  lemma FullSnoc(n: nat)
    ensures Full(n + 1) == Full(n) + [0xFF]
  {
  }

  lemma ValSnoc(s: seq<Byte>, b: Byte)
    ensures Val(s + [b]) == Val(s) * 256 + b
  {
    assert (s + [b])[..|s|] == s;
  }

  lemma ShlByte(v: int, n: nat)
    ensures Shl(v, 8 * (n + 1)) == Shl(v, 8 * n) * 256
  {
    ShlShl(v, 8 * n, 8);
    ShlTable(Shl(v, 8 * n));
  }

  lemma {:induction false} ValBound(s: seq<Byte>)
    ensures Val(s) < Shl(1, 8 * |s|)
  {
    if s != [] {
      ValBound(s[..|s| - 1]);
      ShlByte(1, |s| - 1);
    }
  }

  lemma {:induction false} ValConcat(s: seq<Byte>, t: seq<Byte>)
    ensures Val(s + t) == Shl(Val(s), 8 * |t|) + Val(t)
  {
    if t == [] {
      assert s + t == s;
    } else {
      var u, b := t[..|t| - 1], t[|t| - 1];
      assert s + t == (s + u) + [b];
      ValSnoc(s + u, b);
      ValConcat(s, u);
      ShlByte(Val(s), |u|);
    }
  }

  lemma {:induction false} ValZeros(n: nat)
    ensures Val(Zeros(n)) == 0
  {
    if n > 0 {
      assert Zeros(n)[..n - 1] == Zeros(n - 1);
      ValZeros(n - 1);
    }
  }

  lemma {:induction false} ValFull(n: nat)
    ensures Val(Full(n)) == Shl(1, 8 * n) - 1
  {
    if n > 0 {
      assert Full(n)[..n - 1] == Full(n - 1);
      ValFull(n - 1);
      ShlByte(1, n - 1);
    }
  }
}
