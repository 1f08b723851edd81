/** Coefficient blocks, zigzag order and the point transforms of the progressive modes. */
module Blocks {
  import opened Numbers

  const DCTSIZE2 := 64

  /** JCOEF is a 16-bit integer. */
  type Coef = x: int | -0x8000 <= x < 0x8000

  type Block = b: seq<Coef> | |b| == DCTSIZE2 witness seq(DCTSIZE2, _ => 0)

  function ZeroBlock(): (b: Block)
    ensures forall i :: 0 <= i < DCTSIZE2 ==> b[i] == 0
  {
    seq(DCTSIZE2, _ => 0)
  }

  /** The blocks of one MCU, in the order of the scan. */
  datatype Mcu = Mcu(blocks: seq<Block>)

  /** order[k] is the natural-order position of the k-th coefficient in zigzag order, k <= lim_Se. */
  ghost predicate GoodOrder(order: seq<nat>) {
    && 0 < |order| <= DCTSIZE2
    && order[0] == 0
    && (forall i :: 0 <= i < |order| ==> order[i] < DCTSIZE2)
    && (forall i, j :: 0 <= i < j < |order| ==> order[i] != order[j])
  }

  type Order = o: seq<nat> | GoodOrder(o) witness [0]

  function Abs(v: int): nat {
    if v < 0 then -v else v
  }

  /** The AC point transform: a shift of the absolute value, so rounding is toward zero. */
  function TowardZero(v: int, al: nat): (r: int)
    ensures Abs(r) <= Abs(v)
  {
    if v >= 0 then Shr(v, al) else -Shr(-v, al)
  }

  /** The point-transformed coefficients of a block in zigzag order. */
  function Zigzag(b: Block, order: Order, al: nat): (zz: seq<int>)
    ensures |zz| == |order|
  {
    seq(|order|, k requires 0 <= k < |order| => TowardZero(b[order[k]], al))
  }

  /** The cast to JCOEF. */
  function ToCoef(v: int): Coef {
    (v + 0x8000) % 0x10000 - 0x8000
  }

  lemma ToCoefIsIdentity(c: Coef)
    ensures ToCoef(c) == c
  {
  }

  /** A block after its zigzag positions k..se have received the nonzero values of zz, scaled by al. */
  function Deposit(b: Block, order: Order, zz: seq<int>, al: nat, k: nat, se: nat): Block
    requires se < |order| && |zz| == |order|
    decreases se + 1 - k
  {
    if k > se then b
    else
      var b' := if zz[k] == 0 then b else b[order[k] := ToCoef(Shl(zz[k], al))];
      Deposit(b', order, zz, al, k + 1, se)
  }

  /** A value at the previous precision, which has one bit less. */
  function Half(z: int): int {
    if z >= 0 then z / 2 else -(-z / 2)
  }

  /** The block holds the previous precision of the values zz at its zigzag positions k..se. */
  ghost predicate Refinable(b: Block, order: Order, zz: seq<int>, al: nat, k: nat, se: nat)
    requires se < |order| && |zz| == |order|
  {
    forall j :: k <= j <= se ==> b[order[j]] == Shl(Half(zz[j]), al + 1)
  }

  /** Appending the next bit to a coefficient of the previous precision. */
  lemma AppendBit(c: int, z: int, al: nat)
    requires c == Shl(Half(z), al + 1)
    ensures c == 0 <==> Abs(z) <= 1
    ensures c < 0 <==> z < -1
    ensures z > 1 ==> Shl(z, al) == c + Shl(Abs(z) % 2, al)
    ensures z < -1 ==> Shl(z, al) == c + Shl(-(Abs(z) % 2), al)
  {
    ShlZero(al + 1);
    ShlOrder(Half(z), 0, al + 1);
    ShlOrder(0, Half(z), al + 1);
    assert c == Shl(2 * Half(z), al);
    if z > 1 {
      ShlAdd(2 * Half(z), Abs(z) % 2, al);
    } else if z < -1 {
      ShlAdd(2 * Half(z), -(Abs(z) % 2), al);
    }
  }

  /** Clearing the low bits of a value rounds down and keeps it above any lower power of two. */
  lemma {:induction false} ShlShrRange(v: int, al: nat, w: nat)
    requires al <= w
    ensures Shl(Shr(v, al), al) <= v
    ensures v >= -Shl(1, w) ==> Shl(Shr(v, al), al) >= -Shl(1, w)
    decreases al
  {
    if al > 0 {
      ShlShrRange(v / 2, al - 1, w - 1);
      ShlAdd(Shr(v, al), Shr(v, al), al - 1);
      ShlAdd(1, 1, w - 1);
    }
  }

  lemma ShlShrCoef(c: Coef, al: nat)
    requires al <= 13
    ensures -0x8000 <= Shl(Shr(c, al), al) <= c
  {
    ShlShrRange(c, al, 15);
    assert Shl(1, 15) == 0x8000 by {
      ShlShl(1, 4, 11);
      ShlTable(16);
    }
  }

  /** Truncated values are coefficients. */
  lemma TruncatedFits(v: Coef, al: nat)
    requires al <= 13
    ensures -0x8000 <= Shl(Shr(v, al), al) < 0x8000
    ensures -0x8000 <= Shl(TowardZero(v, al), al) < 0x8000
    ensures TowardZero(v, al) == 0 ==> Shl(TowardZero(v, al), al) == 0
  {
    ShlShrCoef(v, al);
    ShlZero(al);
    if v >= 0 {
      ShlOrder(Shr(v, al), -1, al);
      ShlShrRange(v, al, al);
      ShlOrder(0, Shr(v, al), al);
    } else {
      ShlShrRange(-(v as int), al, al);
      ShlNeg(Shr(-(v as int), al), al);
      ShlOrder(0, Shr(-(v as int), al), al);
    }
  }

  /** No coefficient of the scan order lies at position i. */
  predicate Outside(order: Order, i: nat) {
    forall k :: 0 <= k < |order| ==> order[k] != i
  }

  lemma {:induction false} DepositAt(b: Block, order: Order, zz: seq<int>, al: nat, k: nat, se: nat, j: nat)
    requires se < |order| && |zz| == |order| && j < |order|
    ensures Deposit(b, order, zz, al, k, se)[order[j]]
            == if k <= j <= se && zz[j] != 0 then ToCoef(Shl(zz[j], al)) else b[order[j]]
    decreases se + 1 - k
  {
    if k <= se {
      var b' := if zz[k] == 0 then b else b[order[k] := ToCoef(Shl(zz[k], al))];
      DepositAt(b', order, zz, al, k + 1, se, j);
    }
  }

  lemma {:induction false} DepositOutside(b: Block, order: Order, zz: seq<int>, al: nat, k: nat, se: nat, i: nat)
    requires se < |order| && |zz| == |order| && i < DCTSIZE2 && Outside(order, i)
    ensures Deposit(b, order, zz, al, k, se)[i] == b[i]
    decreases se + 1 - k
  {
    if k <= se {
      var b' := if zz[k] == 0 then b else b[order[k] := ToCoef(Shl(zz[k], al))];
      DepositOutside(b', order, zz, al, k + 1, se, i);
    }
  }

  /** One more coefficient at the end of a band. */
  lemma {:induction false} DepositSnoc(b: Block, order: Order, zz: seq<int>, al: nat, k: nat, j: nat)
    requires 0 < k <= j < |order| == |zz|
    ensures Deposit(b, order, zz, al, k, j)
            == var d := Deposit(b, order, zz, al, k, j - 1);
               if zz[j] == 0 then d else d[order[j] := ToCoef(Shl(zz[j], al))]
    decreases j - k
  {
    if k < j {
      var b' := if zz[k] == 0 then b else b[order[k] := ToCoef(Shl(zz[k], al))];
      DepositSnoc(b', order, zz, al, k + 1, j);
    }
  }

  /** Coefficients that are there already are put there again. */
  lemma {:induction false} DepositAgain(b: Block, order: Order, zz: seq<int>, al: nat, ss: nat, k: nat, se: nat)
    requires k <= se < |order| == |zz|
    ensures Deposit(Deposit(b, order, zz, al, ss, k), order, zz, al, ss, se) == Deposit(b, order, zz, al, ss, se)
  {
    var c := Deposit(b, order, zz, al, ss, k);
    var d, e := Deposit(c, order, zz, al, ss, se), Deposit(b, order, zz, al, ss, se);
    forall i | 0 <= i < DCTSIZE2 ensures d[i] == e[i] {
      if Outside(order, i) {
        DepositOutside(c, order, zz, al, ss, se, i);
        DepositOutside(b, order, zz, al, ss, se, i);
        DepositOutside(b, order, zz, al, ss, k, i);
      } else {
        var j :| 0 <= j < |order| && order[j] == i;
        DepositAt(c, order, zz, al, ss, se, j);
        DepositAt(b, order, zz, al, ss, se, j);
        DepositAt(b, order, zz, al, ss, k, j);
      }
    }
  }
}
