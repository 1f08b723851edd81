/** Successive approximation: what the receiver of a scan script knows about every coefficient. */
module Progression {
  import opened Numbers
  import opened Blocks
  import opened Scans
  import opened ScanScript

  /** The MCU routine both coders pick for a scan. */
  function ModeOf(progressive: bool, s: Scan): Mode
    requires s.ss >= 0 && s.se >= 0 && s.al >= 0
  {
    if !progressive then Sequential
    else if s.ah == 0 then
      if s.ss == 0 then DcFirst(s.al) else AcFirst(s.ss, s.se, s.al)
    else
      if s.ss == 0 then DcRefine(s.al) else AcRefine(s.ss, s.se, s.al)
  }

  predicate Decodable(progressive: bool, s: Scan, order: Order) {
    s.ss >= 0 && s.se >= 0 && s.al >= 0 && GoodMode(ModeOf(progressive, s), order)
  }

  ghost predicate Sendable(progressive: bool, script: seq<Scan>, order: Order) {
    forall i :: 0 <= i < |script| ==> Decodable(progressive, script[i], order)
  }

  /** One scan's effect on a block of component c. */
  function Receive(progressive: bool, s: Scan, order: Order, c: int, prior: Block, b: Block): Block
    requires Decodable(progressive, s, order)
  {
    if c in s.comps then Received(ModeOf(progressive, s), order, prior, b) else prior
  }

  /** The receiver's version of block b of component c after a script. */
  function Transmit(progressive: bool, script: seq<Scan>, order: Order, c: int, b: Block): Block
    requires Sendable(progressive, script, order)
  {
    if script == [] then ZeroBlock()
    else Receive(progressive, script[|script| - 1], order, c,
                 Transmit(progressive, script[..|script| - 1], order, c, b), b)
  }

  /** Coefficient k cut off at bit `level`: DC rounds down, AC toward zero; nothing is known at -1. */
  function Truncated(v: Coef, k: nat, level: int): (r: Coef)
  {
    if level < 0 then 0
    else ToCoef(Shl(if k == 0 then Shr(v, level) else TowardZero(v, level), level))
  }

  /** r is b with every coefficient truncated where the script has got to. */
  ghost predicate Knows(r: Block, b: Block, order: Order, script: seq<Scan>, c: int) {
    && (forall k :: 0 <= k < |order| ==> r[order[k]] == Truncated(b[order[k]], k, Level(script, c, k)))
    && (forall i :: 0 <= i < DCTSIZE2 && Outside(order, i) ==> r[i] == 0)
  }

  // ---- Arithmetic of truncation

  lemma HalfIsNextLevel(v: int, al: nat)
    ensures Half(TowardZero(v, al)) == TowardZero(v, al + 1)
  {
    ShrStep(v, al);
    ShrStep(-v, al);
  }

  lemma FullPrecision(v: Coef, k: nat)
    ensures Truncated(v, k, 0) == v
  {
  }

  // ---- One block, one scan

  /** What a first or later pass must find at coefficient k. */
  lemma AcStep(v: Coef, r: Coef, k: nat, level: int, s: Scan)
    requires k > 0 && GoodBand(s) && Takes(level, s) && r == Truncated(v, k, level)
    ensures var z := TowardZero(v, s.al);
            && Truncated(v, k, s.al) == (if z != 0 then ToCoef(Shl(z, s.al)) else r)
            && (s.ah != 0 ==> r == Shl(Half(z), s.al + 1))
  {
    var z := TowardZero(v, s.al);
    ShlZero(s.al);
    ToCoefIsIdentity(0);
    HalfIsNextLevel(v, s.al);
    if s.ah != 0 {
      TruncatedFits(v, s.ah);
      ToCoefIsIdentity(Shl(Half(z), s.al + 1));
      ShlZero(s.al + 1);
    }
  }

  lemma DcStep(v: Coef, r: Coef, level: int, s: Scan)
    requires GoodBand(s) && Takes(level, s) && r == Truncated(v, 0, level)
    ensures Truncated(v, 0, s.al)
            == if s.ah == 0 then ToCoef(Shl(Shr(v, s.al), s.al))
               else if Shr(v, s.al) % 2 == 1 then SetBit(r, s.al) else r
  {
    if s.ah != 0 {
      NextDcBit(v, s.al);
    }
  }

  lemma SetBitOnEven(r: Coef, x: int, al: nat)
    requires r == Shl(x, al) && x % 2 == 0
    ensures SetBit(r, al) == ToCoef(Shl(x + 1, al))
  {
    ShrShl(x, al);
    ShlAdd(x, 1, al);
  }

  /** One more bit of a DC value, from what the previous scans have left of it. */
  lemma NextDcBit(v: Coef, al: nat)
    requires al < 13
    ensures var r := ToCoef(Shl(Shr(v, al + 1), al + 1));
            ToCoef(Shl(Shr(v, al), al)) == if Shr(v, al) % 2 == 1 then SetBit(r, al) else r
  {
    var x, u := Shr(v, al + 1), Shr(v, al);
    ShrStep(v, al);
    TruncatedFits(v, al + 1);
    var r: Coef := Shl(x, al + 1);
    ToCoefIsIdentity(r);
    assert r == Shl(2 * x, al);
    if u % 2 == 1 {
      assert u == 2 * x + 1;
      SetBitOnEven(r, 2 * x, al);
    } else {
      assert u == 2 * x;
    }
  }

  /** One legal progressive scan: the receiver was prepared for it, and knows more afterwards. */
  lemma BandStep(r: Block, b: Block, order: Order, script: seq<Scan>, s: Scan, c: int)
    requires GoodBand(s) && s.se < |order| && Continues(script, s, c) && c in s.comps
    requires Knows(r, b, order, script, c)
    ensures Decodable(true, s, order) && Prepared(ModeOf(true, s), order, r, b)
    ensures Knows(Receive(true, s, order, c, r, b), b, order, script + [s], c)
  {
    LegalSnoc(true, script, s, 0);
    var r', zz := Receive(true, s, order, c, r, b), Zigzag(b, order, s.al);
    if s.ss == 0 {
      DcStep(b[0], r[0], Level(script, c, 0), s);
    } else {
      forall j | s.ss <= j <= s.se
        ensures Truncated(b[order[j]], j, s.al) == if zz[j] != 0 then ToCoef(Shl(zz[j], s.al)) else r[order[j]]
        ensures s.ah != 0 ==> r[order[j]] == Shl(Half(zz[j]), s.al + 1)
      {
        AcStep(b[order[j]], r[order[j]], j, Level(script, c, j), s);
      }
      forall k | 0 <= k < |order| ensures r'[order[k]] == Truncated(b[order[k]], k, Level(script + [s], c, k)) {
        DepositAt(r, order, zz, s.al, s.ss, s.se, k);
      }
      forall i | 0 <= i < DCTSIZE2 && Outside(order, i) ensures r'[i] == 0 {
        DepositOutside(r, order, zz, s.al, s.ss, s.se, i);
      }
    }
  }

  /** A sequential scan delivers the whole block of a component that has not been sent before. */
  lemma FullStep(r: Block, b: Block, order: Order, script: seq<Scan>, s: Scan, c: int)
    requires s.ss == 0 && s.se >= |order| - 1 && s.ah == s.al == 0 && c in s.comps
    requires Knows(r, b, order, script, c) && forall k :: 0 <= k < |order| ==> Level(script, c, k) < 0
    ensures Knows(Receive(false, s, order, c, r, b), b, order, script + [s], c)
  {
    LegalSnoc(false, script, s, 0);
    var r', zz, se := Receive(false, s, order, c, r, b), Zigzag(b, order, 0), |order| - 1;
    forall k | 0 <= k < |order| ensures r'[order[k]] == Truncated(b[order[k]], k, Level(script + [s], c, k)) {
      DepositAt(r[0 := b[0]], order, zz, 0, 1, se, k);
      FullPrecision(b[order[k]], k);
      ToCoefIsIdentity(b[order[k]]);
    }
    forall i | 0 <= i < DCTSIZE2 && Outside(order, i) ensures r'[i] == 0 {
      DepositOutside(r[0 := b[0]], order, zz, 0, 1, se, i);
    }
  }

  /** In sequential mode the coefficients of a component are sent together. */
  lemma {:induction false} SentTogether(script: seq<Scan>, ncomps: int, c: int, k: nat)
    requires Legal(false, script, ncomps) && k < DCTSIZE2
    ensures Level(script, c, k) == Level(script, c, 0) <= 0
  {
    if script != [] {
      SentTogether(script[..|script| - 1], ncomps, c, k);
    }
  }

  lemma OneScan(progressive: bool, r: Block, b: Block, order: Order, script: seq<Scan>, s: Scan, ncomps: int, c: int)
    requires Legal(progressive, script, ncomps) && LegalScan(progressive, script, s, ncomps)
    requires Knows(r, b, order, script, c) && s.ss < |order| && c in s.comps
    ensures var s' := Clip(s, |order| - 1);
            && Decodable(progressive, s', order)
            && Prepared(ModeOf(progressive, s'), order, r, b)
            && Knows(Receive(progressive, s', order, c, r, b), b, order, script + [s'], c)
  {
    var s' := Clip(s, |order| - 1);
    if progressive {
      var i :| 0 <= i < |s.comps| && s.comps[i] == c;
      assert Continues(script, s, s.comps[i]);
      BandStep(r, b, order, script, s', c);
    } else {
      forall k | 0 <= k < |order| ensures Level(script, c, k) < 0 {
        SentTogether(script, ncomps, c, k);
      }
      FullStep(r, b, order, script, s', c);
    }
  }

  lemma TransmitSnoc(progressive: bool, script: seq<Scan>, s: Scan, order: Order, c: int, b: Block)
    requires Sendable(progressive, script, order) && Decodable(progressive, s, order)
    ensures Sendable(progressive, script + [s], order)
    ensures Transmit(progressive, script + [s], order, c, b)
            == Receive(progressive, s, order, c, Transmit(progressive, script, order, c, b), b)
  {
    assert (script + [s])[..|script|] == script;
  }

  lemma ScanIsDecodable(progressive: bool, script: seq<Scan>, s: Scan, order: Order, ncomps: int)
    requires LegalScan(progressive, script, s, ncomps) && s.ss < |order|
    ensures Decodable(progressive, Clip(s, |order| - 1), order)
  {
  }

  /** The scans of a script as they are sent when blocks have |order| coefficients. */
  function Sent(script: seq<Scan>, order: Order): seq<Scan> {
    Reduced(script, |order| - 1)
  }

  lemma {:induction false} SentIsSendable(progressive: bool, script: seq<Scan>, order: Order, ncomps: int)
    requires Legal(progressive, script, ncomps)
    ensures Sendable(progressive, Sent(script, order), order)
  {
    if script != [] {
      var init, s := script[..|script| - 1], script[|script| - 1];
      SentIsSendable(progressive, init, order, ncomps);
      if s.ss < |order| {
        ScanIsDecodable(progressive, init, s, order, ncomps);
      }
    }
  }

  /** Knowledge only depends on the bit positions of the coefficients there are. */
  lemma KnowsByLevel(r: Block, b: Block, order: Order, script: seq<Scan>, script': seq<Scan>, c: int)
    requires Knows(r, b, order, script, c)
    requires forall k :: 0 <= k < |order| ==> Level(script, c, k) == Level(script', c, k)
    ensures Knows(r, b, order, script', c)
  {
  }

  /** One scan more. */
  lemma ScanDelivers(progressive: bool, script: seq<Scan>, order: Order, ncomps: int, c: int, b: Block, init: seq<Scan>,
                     s: Scan, r: Block)
    requires script != [] && init == script[..|script| - 1] && s == script[|script| - 1]
             && Legal(progressive, script, ncomps)
    requires Sendable(progressive, Sent(init, order), order) && Sendable(progressive, Sent(script, order), order)
    requires r == Transmit(progressive, Sent(init, order), order, c, b) && Knows(r, b, order, init, c)
    ensures Knows(Transmit(progressive, Sent(script, order), order, c, b), b, order, script, c)
  {
    if s.ss < |order| {
      var s' := Clip(s, |order| - 1);
      LegalSnoc(progressive, init, s', ncomps);
      ScanIsDecodable(progressive, init, s, order, ncomps);
      TransmitSnoc(progressive, Sent(init, order), s', order, c, b);
      if c in s.comps {
        OneScan(progressive, r, b, order, init, s, ncomps, c);
      }
      KnowsByLevel(Receive(progressive, s', order, c, r, b), b, order, init + [s'], script, c);
    } else {
      KnowsByLevel(r, b, order, init, script, c);
    }
  }

  /**
   * After any legal script the receiver knows every coefficient exactly down to the last bit position the
   * script has sent of it.
   */
  lemma {:induction false} ScriptDelivers(progressive: bool, script: seq<Scan>, order: Order, ncomps: int, c: int,
                                          b: Block)
    requires Legal(progressive, script, ncomps)
    ensures Sendable(progressive, Sent(script, order), order)
    ensures Knows(Transmit(progressive, Sent(script, order), order, c, b), b, order, script, c)
  {
    SentIsSendable(progressive, script, order, ncomps);
    if script != [] {
      var init, s := script[..|script| - 1], script[|script| - 1];
      ScriptDelivers(progressive, init, order, ncomps, c, b);
      ScanDelivers(progressive, script, order, ncomps, c, b, init, s,
          Transmit(progressive, Sent(init, order), order, c, b));
    }
  }

  /** Every scan of a legal script finds what it builds on in the blocks of its components. */
  lemma {:induction false} ScansArePrepared(progressive: bool, script: seq<Scan>, order: Order, ncomps: int, n: nat,
                                            c: int, b: Block)
    requires Legal(progressive, script, ncomps) && n < |Sent(script, order)| && c in Sent(script, order)[n].comps
    ensures Sendable(progressive, Sent(script, order), order)
    ensures var sent := Sent(script, order);
            Prepared(ModeOf(progressive, sent[n]), order, Transmit(progressive, sent[..n], order, c, b), b)
    decreases |script|
  {
    SentIsSendable(progressive, script, order, ncomps);
    var init, s := script[..|script| - 1], script[|script| - 1];
    var done := Sent(init, order);
    assert Sent(script, order)[..|done|] == done;
    if n < |done| {
      assert Sent(script, order)[..n] == done[..n];
      ScansArePrepared(progressive, init, order, ncomps, n, c, b);
    } else {
      ScriptDelivers(progressive, init, order, ncomps, c, b);
      OneScan(progressive, Transmit(progressive, done, order, c, b), b, order, init, s, ncomps, c);
    }
  }

  /** A script that sends every bit of a component is lossless for it. */
  lemma Lossless(progressive: bool, script: seq<Scan>, order: Order, ncomps: int, c: int, b: Block)
    requires Legal(progressive, script, ncomps)
    requires forall k :: 0 <= k < |order| ==> Level(script, c, k) == 0
    requires forall i :: 0 <= i < DCTSIZE2 && Outside(order, i) ==> b[i] == 0
    ensures Sendable(progressive, Sent(script, order), order)
    ensures Transmit(progressive, Sent(script, order), order, c, b) == b
  {
    ScriptDelivers(progressive, script, order, ncomps, c, b);
    var r := Transmit(progressive, Sent(script, order), order, c, b);
    forall i | 0 <= i < DCTSIZE2 ensures r[i] == b[i] {
      if !Outside(order, i) {
        var k :| 0 <= k < |order| && order[k] == i;
        FullPrecision(b[i], k);
      }
    }
  }

  /** Every accepted sequential script is lossless. */
  lemma SequentialIsLossless(script: seq<Scan>, order: Order, ncomps: int, c: int, b: Block)
    requires ValidScript(script, ncomps) && !Progressive(script) && 0 <= c < ncomps
    requires forall i :: 0 <= i < DCTSIZE2 && Outside(order, i) ==> b[i] == 0
    ensures Sendable(false, Sent(script, order), order)
    ensures Transmit(false, Sent(script, order), order, c, b) == b
  {
    forall k | 0 <= k < |order| ensures Level(script, c, k) == 0 {
      SentTogether(script, ncomps, c, k);
    }
    Lossless(false, script, order, ncomps, c, b);
  }
}
