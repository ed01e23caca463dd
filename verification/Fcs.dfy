/**
 The frame check sequence of section C.2 of RFC 1662, computed octet by octet
 with the table that modules/ppp_ahdlc.c and pppd/demand.c share.
 */
module Fcs {
  const INIT: bv16 := 0xffff
  const GOOD: bv16 := 0xf0b8

  // ----- The table, sixteen entries to a row -----

  function Row0(k: bv4): bv16
  {
    match k
    case 0 => 0x0000 case 1 => 0x1189 case 2 => 0x2312 case 3 => 0x329b
    case 4 => 0x4624 case 5 => 0x57ad case 6 => 0x6536 case 7 => 0x74bf
    case 8 => 0x8c48 case 9 => 0x9dc1 case 0xa => 0xaf5a case 0xb => 0xbed3
    case 0xc => 0xca6c case 0xd => 0xdbe5 case 0xe => 0xe97e case 0xf => 0xf8f7
  }

  function Row1(k: bv4): bv16
  {
    match k
    case 0 => 0x1081 case 1 => 0x0108 case 2 => 0x3393 case 3 => 0x221a
    case 4 => 0x56a5 case 5 => 0x472c case 6 => 0x75b7 case 7 => 0x643e
    case 8 => 0x9cc9 case 9 => 0x8d40 case 0xa => 0xbfdb case 0xb => 0xae52
    case 0xc => 0xdaed case 0xd => 0xcb64 case 0xe => 0xf9ff case 0xf => 0xe876
  }

  function Row2(k: bv4): bv16
  {
    match k
    case 0 => 0x2102 case 1 => 0x308b case 2 => 0x0210 case 3 => 0x1399
    case 4 => 0x6726 case 5 => 0x76af case 6 => 0x4434 case 7 => 0x55bd
    case 8 => 0xad4a case 9 => 0xbcc3 case 0xa => 0x8e58 case 0xb => 0x9fd1
    case 0xc => 0xeb6e case 0xd => 0xfae7 case 0xe => 0xc87c case 0xf => 0xd9f5
  }

  function Row3(k: bv4): bv16
  {
    match k
    case 0 => 0x3183 case 1 => 0x200a case 2 => 0x1291 case 3 => 0x0318
    case 4 => 0x77a7 case 5 => 0x662e case 6 => 0x54b5 case 7 => 0x453c
    case 8 => 0xbdcb case 9 => 0xac42 case 0xa => 0x9ed9 case 0xb => 0x8f50
    case 0xc => 0xfbef case 0xd => 0xea66 case 0xe => 0xd8fd case 0xf => 0xc974
  }

  function Row4(k: bv4): bv16
  {
    match k
    case 0 => 0x4204 case 1 => 0x538d case 2 => 0x6116 case 3 => 0x709f
    case 4 => 0x0420 case 5 => 0x15a9 case 6 => 0x2732 case 7 => 0x36bb
    case 8 => 0xce4c case 9 => 0xdfc5 case 0xa => 0xed5e case 0xb => 0xfcd7
    case 0xc => 0x8868 case 0xd => 0x99e1 case 0xe => 0xab7a case 0xf => 0xbaf3
  }

  function Row5(k: bv4): bv16
  {
    match k
    case 0 => 0x5285 case 1 => 0x430c case 2 => 0x7197 case 3 => 0x601e
    case 4 => 0x14a1 case 5 => 0x0528 case 6 => 0x37b3 case 7 => 0x263a
    case 8 => 0xdecd case 9 => 0xcf44 case 0xa => 0xfddf case 0xb => 0xec56
    case 0xc => 0x98e9 case 0xd => 0x8960 case 0xe => 0xbbfb case 0xf => 0xaa72
  }

  function Row6(k: bv4): bv16
  {
    match k
    case 0 => 0x6306 case 1 => 0x728f case 2 => 0x4014 case 3 => 0x519d
    case 4 => 0x2522 case 5 => 0x34ab case 6 => 0x0630 case 7 => 0x17b9
    case 8 => 0xef4e case 9 => 0xfec7 case 0xa => 0xcc5c case 0xb => 0xddd5
    case 0xc => 0xa96a case 0xd => 0xb8e3 case 0xe => 0x8a78 case 0xf => 0x9bf1
  }

  function Row7(k: bv4): bv16
  {
    match k
    case 0 => 0x7387 case 1 => 0x620e case 2 => 0x5095 case 3 => 0x411c
    case 4 => 0x35a3 case 5 => 0x242a case 6 => 0x16b1 case 7 => 0x0738
    case 8 => 0xffcf case 9 => 0xee46 case 0xa => 0xdcdd case 0xb => 0xcd54
    case 0xc => 0xb9eb case 0xd => 0xa862 case 0xe => 0x9af9 case 0xf => 0x8b70
  }

  function Row8(k: bv4): bv16
  {
    match k
    case 0 => 0x8408 case 1 => 0x9581 case 2 => 0xa71a case 3 => 0xb693
    case 4 => 0xc22c case 5 => 0xd3a5 case 6 => 0xe13e case 7 => 0xf0b7
    case 8 => 0x0840 case 9 => 0x19c9 case 0xa => 0x2b52 case 0xb => 0x3adb
    case 0xc => 0x4e64 case 0xd => 0x5fed case 0xe => 0x6d76 case 0xf => 0x7cff
  }

  function Row9(k: bv4): bv16
  {
    match k
    case 0 => 0x9489 case 1 => 0x8500 case 2 => 0xb79b case 3 => 0xa612
    case 4 => 0xd2ad case 5 => 0xc324 case 6 => 0xf1bf case 7 => 0xe036
    case 8 => 0x18c1 case 9 => 0x0948 case 0xa => 0x3bd3 case 0xb => 0x2a5a
    case 0xc => 0x5ee5 case 0xd => 0x4f6c case 0xe => 0x7df7 case 0xf => 0x6c7e
  }

  function RowA(k: bv4): bv16
  {
    match k
    case 0 => 0xa50a case 1 => 0xb483 case 2 => 0x8618 case 3 => 0x9791
    case 4 => 0xe32e case 5 => 0xf2a7 case 6 => 0xc03c case 7 => 0xd1b5
    case 8 => 0x2942 case 9 => 0x38cb case 0xa => 0x0a50 case 0xb => 0x1bd9
    case 0xc => 0x6f66 case 0xd => 0x7eef case 0xe => 0x4c74 case 0xf => 0x5dfd
  }

  function RowB(k: bv4): bv16
  {
    match k
    case 0 => 0xb58b case 1 => 0xa402 case 2 => 0x9699 case 3 => 0x8710
    case 4 => 0xf3af case 5 => 0xe226 case 6 => 0xd0bd case 7 => 0xc134
    case 8 => 0x39c3 case 9 => 0x284a case 0xa => 0x1ad1 case 0xb => 0x0b58
    case 0xc => 0x7fe7 case 0xd => 0x6e6e case 0xe => 0x5cf5 case 0xf => 0x4d7c
  }

  function RowC(k: bv4): bv16
  {
    match k
    case 0 => 0xc60c case 1 => 0xd785 case 2 => 0xe51e case 3 => 0xf497
    case 4 => 0x8028 case 5 => 0x91a1 case 6 => 0xa33a case 7 => 0xb2b3
    case 8 => 0x4a44 case 9 => 0x5bcd case 0xa => 0x6956 case 0xb => 0x78df
    case 0xc => 0x0c60 case 0xd => 0x1de9 case 0xe => 0x2f72 case 0xf => 0x3efb
  }

  function RowD(k: bv4): bv16
  {
    match k
    case 0 => 0xd68d case 1 => 0xc704 case 2 => 0xf59f case 3 => 0xe416
    case 4 => 0x90a9 case 5 => 0x8120 case 6 => 0xb3bb case 7 => 0xa232
    case 8 => 0x5ac5 case 9 => 0x4b4c case 0xa => 0x79d7 case 0xb => 0x685e
    case 0xc => 0x1ce1 case 0xd => 0x0d68 case 0xe => 0x3ff3 case 0xf => 0x2e7a
  }

  function RowE(k: bv4): bv16
  {
    match k
    case 0 => 0xe70e case 1 => 0xf687 case 2 => 0xc41c case 3 => 0xd595
    case 4 => 0xa12a case 5 => 0xb0a3 case 6 => 0x8238 case 7 => 0x93b1
    case 8 => 0x6b46 case 9 => 0x7acf case 0xa => 0x4854 case 0xb => 0x59dd
    case 0xc => 0x2d62 case 0xd => 0x3ceb case 0xe => 0x0e70 case 0xf => 0x1ff9
  }

  function RowF(k: bv4): bv16
  {
    match k
    case 0 => 0xf78f case 1 => 0xe606 case 2 => 0xd49d case 3 => 0xc514
    case 4 => 0xb1ab case 5 => 0xa022 case 6 => 0x92b9 case 7 => 0x8330
    case 8 => 0x7bc7 case 9 => 0x6a4e case 0xa => 0x58d5 case 0xb => 0x495c
    case 0xc => 0x3de3 case 0xd => 0x2c6a case 0xe => 0x1ef1 case 0xf => 0x0f78
  }

  /** fcstab[i] */
  function Fcstab(i: bv8): bv16
  {
    var k := (i & 0xf) as bv4;
    match (i >> 4) as bv4
    case 0 => Row0(k)
    case 1 => Row1(k)
    case 2 => Row2(k)
    case 3 => Row3(k)
    case 4 => Row4(k)
    case 5 => Row5(k)
    case 6 => Row6(k)
    case 7 => Row7(k)
    case 8 => Row8(k)
    case 9 => Row9(k)
    case 0xa => RowA(k)
    case 0xb => RowB(k)
    case 0xc => RowC(k)
    case 0xd => RowD(k)
    case 0xe => RowE(k)
    case 0xf => RowF(k)
  }

  // ----- What the table means -----

  /** One bit through the shift register of the polynomial x^16 + x^12 + x^5 + 1, low bit first. */
  function ShiftBit(v: bv16): bv16
  {
    if v & 1 == 1 then (v >> 1) ^ 0x8408 else v >> 1
  }

  function ShiftNibble(v: bv16): bv16 { ShiftBit(ShiftBit(ShiftBit(ShiftBit(v)))) }

  /** Eight bits through the register. */
  function ShiftOctet(i: bv8): bv16 { ShiftNibble(ShiftNibble(i as bv16)) }

  function Closed(i: bv8): bv16
  {
    var t := (i ^ (i << 4)) as bv16;
    (t << 8) ^ (t << 3) ^ (t >> 4)
  }

  lemma ShiftOctetIs(i: bv8)
    ensures ShiftOctet(i) == Closed(i)
  {
  }

  lemma Row0Is(k: bv4) ensures Row0(k) == Closed((0 << 4) | k as bv8) { }

  lemma Row1Is(k: bv4) ensures Row1(k) == Closed((1 << 4) | k as bv8) { }

  lemma Row2Is(k: bv4) ensures Row2(k) == Closed((2 << 4) | k as bv8) { }

  lemma Row3Is(k: bv4) ensures Row3(k) == Closed((3 << 4) | k as bv8) { }

  lemma Row4Is(k: bv4) ensures Row4(k) == Closed((4 << 4) | k as bv8) { }

  lemma Row5Is(k: bv4) ensures Row5(k) == Closed((5 << 4) | k as bv8) { }

  lemma Row6Is(k: bv4) ensures Row6(k) == Closed((6 << 4) | k as bv8) { }

  lemma Row7Is(k: bv4) ensures Row7(k) == Closed((7 << 4) | k as bv8) { }

  lemma Row8Is(k: bv4) ensures Row8(k) == Closed((8 << 4) | k as bv8) { }

  lemma Row9Is(k: bv4) ensures Row9(k) == Closed((9 << 4) | k as bv8) { }

  lemma RowAIs(k: bv4) ensures RowA(k) == Closed((0xa << 4) | k as bv8) { }

  lemma RowBIs(k: bv4) ensures RowB(k) == Closed((0xb << 4) | k as bv8) { }

  lemma RowCIs(k: bv4) ensures RowC(k) == Closed((0xc << 4) | k as bv8) { }

  lemma RowDIs(k: bv4) ensures RowD(k) == Closed((0xd << 4) | k as bv8) { }

  lemma RowEIs(k: bv4) ensures RowE(k) == Closed((0xe << 4) | k as bv8) { }

  lemma RowFIs(k: bv4) ensures RowF(k) == Closed((0xf << 4) | k as bv8) { }

  lemma Nibbles(i: bv8, r: bv8)
    requires i >> 4 == r
    ensures i == (r << 4) | ((i & 0xf) as bv4) as bv8
  {
  }

  /** Every entry of the table is the eight-bit shift of its index. */
  lemma TableCorrect(i: bv8)
    ensures Fcstab(i) == ShiftOctet(i)
  {
    ShiftOctetIs(i);
    hide Row0, Row1, Row2, Row3, Row4, Row5, Row6, Row7, Row8, Row9, RowA, RowB, RowC, RowD, RowE, RowF, ShiftOctet,
         Closed;
    var k := (i & 0xf) as bv4;
    Nibbles(i, i >> 4);
    match (i >> 4) as bv4
    case 0 => Row0Is(k);
    case 1 => Row1Is(k);
    case 2 => Row2Is(k);
    case 3 => Row3Is(k);
    case 4 => Row4Is(k);
    case 5 => Row5Is(k);
    case 6 => Row6Is(k);
    case 7 => Row7Is(k);
    case 8 => Row8Is(k);
    case 9 => Row9Is(k);
    case 0xa => RowAIs(k);
    case 0xb => RowBIs(k);
    case 0xc => RowCIs(k);
    case 0xd => RowDIs(k);
    case 0xe => RowEIs(k);
    case 0xf => RowFIs(k);
  }

  // ----- One step of the FCS -----

  function Index(fcs: bv16, c: bv8): bv8 { ((fcs ^ c as bv16) & 0xff) as bv8 }

  function HighOctet(fcs: bv16): bv16 { fcs >> 8 }

  /** PPP_FCS(fcs, c) */
  function Step(fcs: bv16, c: bv8): bv16
  {
    HighOctet(fcs) ^ Fcstab(Index(fcs, c))
  }

  lemma TableClosed(i: bv8)
    ensures Fcstab(i) == Closed(i)
  {
  }

  lemma XorSame(h: bv16, x: bv16, y: bv16)
    requires x == y
    ensures h ^ x == h ^ y
  {
  }

  lemma StepIs(fcs: bv16, c: bv8)
    ensures Step(fcs, c) == HighOctet(fcs) ^ Closed(Index(fcs, c))
  {
    hide Fcstab, ShiftOctet, Closed, Index, HighOctet;
    TableClosed(Index(fcs, c));
    XorSame(HighOctet(fcs), Fcstab(Index(fcs, c)), Closed(Index(fcs, c)));
  }

  lemma ClosedHigh(i: bv8, j: bv8, x: bv16, y: bv16)
    requires x < 0x100 && y < 0x100 && x ^ Closed(i) == y ^ Closed(j)
    ensures i == j && x == y
  {
  }

  lemma HighSmall(fcs: bv16)
    ensures HighOctet(fcs) < 0x100
  {
  }

  /** The value a step leads to tells the index and the high octet it came from. */
  lemma StepTells(f: bv16, c: bv8, g: bv16, d: bv8)
    requires Step(f, c) == Step(g, d)
    ensures Index(f, c) == Index(g, d) && HighOctet(f) == HighOctet(g)
  {
    hide Step, Closed, Index, HighOctet;
    StepIs(f, c);
    StepIs(g, d);
    HighSmall(f);
    HighSmall(g);
    ClosedHigh(Index(f, c), Index(g, d), HighOctet(f), HighOctet(g));
  }

  lemma Halves(f: bv16, g: bv16, c: bv8)
    requires HighOctet(f) == HighOctet(g) && Index(f, c) == Index(g, c)
    ensures f == g
  {
  }

  lemma LowOctets(f: bv16, c: bv8, d: bv8)
    requires Index(f, c) == Index(f, d)
    ensures c == d
  {
  }

  /** Different octets lead to different values. */
  lemma StepInjectiveInOctet(f: bv16, c: bv8, d: bv8)
    requires Step(f, c) == Step(f, d)
    ensures c == d
  {
    hide Step, Index, HighOctet;
    StepTells(f, c, f, d);
    LowOctets(f, c, d);
  }

  /** An octet maps different values to different values. */
  lemma StepInjectiveInState(f: bv16, g: bv16, c: bv8)
    requires Step(f, c) == Step(g, c)
    ensures f == g
  {
    hide Step, Index, HighOctet;
    StepTells(f, c, g, c);
    Halves(f, g, c);
  }

  // ----- The FCS of octet strings -----

  function Of(fcs: bv16, data: seq<bv8>): bv16
  {
    if |data| == 0 then fcs else Step(Of(fcs, data[..|data| - 1]), data[|data| - 1])
  }

  lemma {:induction false} OfConcat(fcs: bv16, a: seq<bv8>, b: seq<bv8>)
    ensures Of(fcs, a + b) == Of(Of(fcs, a), b)
  {
    hide Step;
    if |b| == 0 {
      assert a + b == a;
    } else {
      var ab := a + b;
      assert ab[..|ab| - 1] == a + b[..|b| - 1];
      OfConcat(fcs, a, b[..|b| - 1]);
    }
  }

  function LowCheck(fcs: bv16): bv8 { ((fcs ^ 0xffff) & 0xff) as bv8 }

  function HighCheck(fcs: bv16): bv8 { (((fcs ^ 0xffff) >> 8) & 0xff) as bv8 }

  /** The two octets sent after a frame: the complement of the FCS, low octet first. */
  function Trailer(fcs: bv16): (t: seq<bv8>)
    ensures |t| == 2
  {
    [LowCheck(fcs), HighCheck(fcs)]
  }

  lemma TrailerSteps(f: bv16, f1: bv16)
    requires f1 == HighOctet(f) ^ Closed(Index(f, LowCheck(f)))
    ensures HighOctet(f1) ^ Closed(Index(f1, HighCheck(f))) == GOOD
  {
  }

  lemma OfPair(f: bv16, lo: bv8, hi: bv8)
    ensures Of(f, [lo, hi]) == Step(Step(f, lo), hi)
  {
    hide Step;
    assert [lo, hi][..1] == [lo] && [lo][..0] == [];
    assert Of(f, [lo]) == Step(f, lo);
  }

  lemma TrailerGood(f: bv16)
    ensures Of(f, Trailer(f)) == GOOD
  {
    hide Step, Closed, Index, HighOctet, Of, LowCheck, HighCheck;
    var f1 := Step(f, LowCheck(f));
    StepIs(f, LowCheck(f));
    StepIs(f1, HighCheck(f));
    TrailerSteps(f, f1);
    OfPair(f, LowCheck(f), HighCheck(f));
  }

  /** A frame followed by its FCS always gives the good value. */
  lemma FrameGood(frame: seq<bv8>)
    ensures Of(INIT, frame + Trailer(Of(INIT, frame))) == GOOD
  {
    hide Of, Trailer;
    OfConcat(INIT, frame, Trailer(Of(INIT, frame)));
    TrailerGood(Of(INIT, frame));
  }

  lemma {:induction false} OfInjectiveInState(f: bv16, g: bv16, data: seq<bv8>)
    requires f != g
    ensures Of(f, data) != Of(g, data)
  {
    hide Step;
    if |data| > 0 {
      var init, c := data[..|data| - 1], data[|data| - 1];
      OfInjectiveInState(f, g, init);
      if Of(f, data) == Of(g, data) {
        StepInjectiveInState(Of(f, init), Of(g, init), c);
      }
    }
  }

  /** Changing one octet, of the frame or of its FCS, always changes the value. */
  lemma OneOctetChanged(fcs: bv16, data: seq<bv8>, i: nat, c: bv8)
    requires i < |data| && data[i] != c
    ensures Of(fcs, data[i := c]) != Of(fcs, data)
  {
    hide Step;
    var before, after := data[..i], data[i + 1..];
    assert data == before + [data[i]] + after;
    assert data[i := c] == before + [c] + after;
    OfConcat(fcs, before + [data[i]], after);
    OfConcat(fcs, before + [c], after);
    var f := Of(fcs, before);
    OfConcat(fcs, before, [c]);
    OfConcat(fcs, before, [data[i]]);
    assert [c][..0] == [] && [data[i]][..0] == [];
    assert Of(f, [c]) == Step(f, c) && Of(f, [data[i]]) == Step(f, data[i]);
    if Step(f, c) == Step(f, data[i]) {
      StepInjectiveInOctet(f, c, data[i]);
    }
    OfInjectiveInState(Step(f, c), Step(f, data[i]), after);
  }

  /** So a frame in which one octet was damaged is never taken for good. */
  lemma DamageDetected(frame: seq<bv8>, i: nat, c: bv8)
    requires var sent := frame + Trailer(Of(INIT, frame)); i < |sent| && sent[i] != c
    ensures var sent := frame + Trailer(Of(INIT, frame)); Of(INIT, sent[i := c]) != GOOD
  {
    hide Of, Trailer;
    var sent := frame + Trailer(Of(INIT, frame));
    FrameGood(frame);
    OneOctetChanged(INIT, sent, i, c);
  }
}
