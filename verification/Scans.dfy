/** The five kinds of scan and what each delivers to the receiver of a block. */
module Scans {
  import opened Numbers
  import opened Blocks

  datatype Mode =
    | Sequential
    | DcFirst(al: nat)
    | AcFirst(ss: nat, se: nat, al: nat)
    | DcRefine(al: nat)
    | AcRefine(ss: nat, se: nat, al: nat)

  /** What a decoder demands of a scan header. */
  predicate GoodMode(mode: Mode, order: Order) {
    && (IsAc(mode) ==> 0 < mode.ss <= mode.se < |order|)
    && (!mode.Sequential? ==> mode.al <= 13)
  }

  /** AC scans have one component and one block in an MCU. */
  predicate IsAc(mode: Mode) {
    mode.AcFirst? || mode.AcRefine?
  }

  predicate SendsDc(mode: Mode) {
    mode.Sequential? || mode.DcFirst?
  }

  /** The DC value a scan transmits. */
  function DcValue(mode: Mode, b: Block): Coef {
    if mode.DcFirst? then Shr(b[0], mode.al) else b[0]
  }

  /** value |= 1 << al */
  function SetBit(c: Coef, al: nat): Coef {
    if Shr(c, al) % 2 == 1 then c else ToCoef(c + Shl(1, al))
  }

  lemma {:induction false} TopBits(al: nat)
    requires al <= 13
    ensures Shl(Shl(1, 15 - al), al) == 0x8000 && Shl(1, 15 - al) % 2 == 0
  {
    ShlShl(1, 15 - al, al);
    ShlShl(1, 4, 11);
    ShlTable(16);
    ShlAdd(1, 1, 14 - al);
  }

  /** A bit that is not set can be added. */
  lemma {:induction false} RoomForBit(c: Coef, al: nat)
    requires al <= 13 && Shr(c, al) % 2 == 0
    ensures 0 < Shl(1, al) && c + Shl(1, al) < 0x8000
  {
    var q, top := Shr(c, al), Shl(1, 15 - al);
    TopBits(al);
    ShlShrRange(c, al, al);
    ShlOrder(top, q, al);
    ShlOrder(q, top, al);
    assert q + 2 <= top;
    ShrUpper(c, al);
    ShlAdd(q + 1, 1, al);
    ShlOrder(top, q + 2, al);
    ShlNat(1, al);
  }

  lemma {:induction false} NextBitIsSet(c: int, al: nat, d: int)
    requires Shr(c, al) % 2 == 0 && d == c + Shl(1, al)
    ensures Shr(d, al) % 2 == 1
  {
    ShrAddShl(c, 1, al);
  }

  /** A bit that has been set is set. */
  lemma {:induction false} SetBitTwice(c: Coef, al: nat)
    requires al <= 13
    ensures SetBit(SetBit(c, al), al) == SetBit(c, al)
  {
    if Shr(c, al) % 2 == 0 {
      RoomForBit(c, al);
      var d: Coef := c + Shl(1, al);
      ToCoefIsIdentity(d);
      NextBitIsSet(c, al, d);
      assert SetBit(c, al) == d;
    }
  }

  /** The receiver's block after the scan: `prior` is what earlier scans have left, b the sender's. */
  function Received(mode: Mode, order: Order, prior: Block, b: Block): Block
    requires GoodMode(mode, order)
  {
    match mode
    case Sequential => Deposit(prior[0 := b[0]], order, Zigzag(b, order, 0), 0, 1, |order| - 1)
    case DcFirst(al) => prior[0 := ToCoef(Shl(Shr(b[0], al), al))]
    case AcFirst(ss, se, al) => Deposit(prior, order, Zigzag(b, order, al), al, ss, se)
    case DcRefine(al) => if Shr(b[0], al) % 2 == 1 then prior[0 := SetBit(prior[0], al)] else prior
    case AcRefine(ss, se, al) => Deposit(prior, order, Zigzag(b, order, al), al, ss, se)
  }

  /** The blocks of an MCU after the scan. */
  function McuReceived(mode: Mode, order: Order, prior: Mcu, mcu: Mcu): (out: Mcu)
    requires GoodMode(mode, order) && |prior.blocks| == |mcu.blocks|
    ensures |out.blocks| == |mcu.blocks|
  {
    Mcu(seq(|mcu.blocks|, j requires 0 <= j < |mcu.blocks| => Received(mode, order, prior.blocks[j], mcu.blocks[j])))
  }

  /** A refinement scan of AC coefficients builds on the precision sent before. */
  ghost predicate Prepared(mode: Mode, order: Order, prior: Block, b: Block)
    requires GoodMode(mode, order)
  {
    mode.AcRefine? ==> Refinable(prior, order, Zigzag(b, order, mode.al), mode.al, mode.ss, mode.se)
  }
}
