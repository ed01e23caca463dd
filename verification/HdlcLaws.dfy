/**
 What is on the line and what is too long for the receiver: when an encoded
 frame is free of control characters, and exactly how long a frame may be.
 */
module HdlcLaws {
  import opened HdlcSpec
  import opened HdlcRoundTrip
  import Fcs

  // ----- Control characters -----

  predicate ControlFree(s: octets) { forall i :: 0 <= i < |s| ==> s[i] >= 0x20 }

  /** An octet leaves without a control character: it is none, or is escaped and does not become one. */
  predicate LeavesPlain(c: bv8, m: AsyncMap) { if InTxMap(c, m) then c < 0x20 || c >= 0x40 else c >= 0x20 }

  lemma OctetPlainIff(c: bv8, m: AsyncMap)
    ensures ControlFree(StuffOctet(c, m)) <==> LeavesPlain(c, m)
  {
    hide InTxMap;
    var s := StuffOctet(c, m);
    if InTxMap(c, m) {
      assert s[0] == ESCAPE && s[1] == c ^ TRANS;
      Flipped(c);
    } else {
      assert s[0] == c;
    }
  }

  lemma Flipped(c: bv8)
    ensures c ^ TRANS >= 0x20 <==> c < 0x20 || c >= 0x40
  {
  }

  lemma ControlFreeConcat(a: octets, b: octets)
    ensures ControlFree(a + b) <==> ControlFree(a) && ControlFree(b)
  {
    forall i | 0 <= i < |b| ensures (a + b)[|a| + i] == b[i] {
    }
    if ControlFree(a + b) {
      forall i | 0 <= i < |a| ensures a[i] >= 0x20 {
        assert (a + b)[i] == a[i];
      }
      forall i | 0 <= i < |b| ensures b[i] >= 0x20 {
        assert (a + b)[|a| + i] == b[i];
      }
    }
  }

  predicate AllPlain(data: octets, m: AsyncMap) { forall i :: 0 <= i < |data| ==> LeavesPlain(data[i], m) }

  lemma {:induction false} StuffPlainIff(data: octets, m: AsyncMap)
    ensures ControlFree(Stuff(data, m)) <==> AllPlain(data, m)
  {
    hide LeavesPlain, StuffOctet, ControlFree;
    if data == [] {
      NoControl();
    } else {
      var init, c := data[..|data| - 1], data[|data| - 1];
      StuffPlainIff(init, m);
      OctetPlainIff(c, m);
      ControlFreeConcat(Stuff(init, m), StuffOctet(c, m));
      assert data == init + [c];
      assert AllPlain(data, m) <==> AllPlain(init, m) && LeavesPlain(c, m) by {
        assert forall i :: 0 <= i < |init| ==> init[i] == data[i];
      }
    }
  }

  lemma NoControl()
    ensures ControlFree([])
  {
  }

  /** An encoded frame is free of control characters exactly if each of its octets leaves plain. */
  lemma EncodePlainIff(frame: octets, m: AsyncMap, lead: bool)
    requires |frame| >= HDRLEN
    ensures ControlFree(Encode(frame, m, lead)) <==> AllPlain(Checked(frame), MapFor(frame, m))
  {
    hide LeavesPlain, StuffOctet, Checked, MapFor, Stuff, ControlFree;
    var stuffed := Stuff(Checked(frame), MapFor(frame, m));
    StuffPlainIff(Checked(frame), MapFor(frame, m));
    FlagPlain();
    ControlFreeConcat(stuffed, [FLAG]);
    EncodeIs(frame, m, lead);
    ControlFreeConcat([FLAG], Body(frame, m));
  }

  lemma FlagPlain()
    ensures ControlFree([FLAG])
  {
  }

  /** No octet of the frame or its FCS is one the map turns into a control character. */
  predicate NoneFlipped(frame: octets, m: AsyncMap) {
    forall i :: 0 <= i < |Checked(frame)| ==>
      !(0x20 <= Checked(frame)[i] < 0x40 && InTxMap(Checked(frame)[i], m))
  }

  /** An LCP frame is sent without control characters exactly if the map makes none of other octets. */
  lemma LcpPlainIff(frame: octets, m: AsyncMap, lead: bool)
    requires IsLcp(frame)
    ensures ControlFree(Encode(frame, m, lead)) <==> NoneFlipped(frame, m)
  {
    EncodePlainIff(frame, m, lead);
    hide Checked, InTxMap, Encode, ControlFree;
    forall i | 0 <= i < |Checked(frame)|
      ensures var c := Checked(frame)[i]; LeavesPlain(c, MapFor(frame, m)) <==> !(0x20 <= c < 0x40 && InTxMap(c, m))
    {
      LcpMap(Checked(frame)[i], m);
    }
  }

  /** So it always is with a map that escapes nothing from 0x20 to 0x3f. */
  lemma LcpPlain(frame: octets, m: AsyncMap, lead: bool)
    requires IsLcp(frame) && m[1] == 0
    ensures ControlFree(Encode(frame, m, lead))
  {
    LcpPlainIff(frame, m, lead);
    hide Checked, InTxMap, Encode, ControlFree, IsLcp;
    forall i | 0 <= i < |Checked(frame)| ensures !(0x20 <= Checked(frame)[i] < 0x40 && InTxMap(Checked(frame)[i], m)) {
      SecondWord(Checked(frame)[i], m);
    }
  }

  lemma SecondWord(c: bv8, m: AsyncMap)
    requires m[1] == 0
    ensures !(0x20 <= c < 0x40 && InTxMap(c, m))
  {
    if 0x20 <= c < 0x40 {
      assert WordOf(c) == 1;
      assert WordOf(c) as int == 1;
    }
  }

  /** With a map that escapes the space, a Configure-Request with a space in it is sent with a NUL. */
  lemma LcpNotPlain(m: AsyncMap, lead: bool)
    requires InTxMap(0x20, m)
    ensures var frame := [0xff, 0x03, 0xc0, 0x21, 1, 0x20]; IsLcp(frame) && !ControlFree(Encode(frame, m, lead))
  {
    var frame := [0xff, 0x03, 0xc0, 0x21, 1, 0x20];
    hide InTxMap, Encode, ControlFree, Fcs.Of, Fcs.Trailer;
    LcpPlainIff(frame, m, lead);
    assert Checked(frame)[5] == 0x20;
  }

  // ----- Frames that are too long -----

  lemma {:induction false} StuffConcat(a: octets, b: octets, m: AsyncMap)
    ensures Stuff(a + b, m) == Stuff(a, m) + Stuff(b, m)
  {
    hide StuffOctet;
    if b == [] {
      assert a + b == a;
    } else {
      var ab := a + b;
      assert ab[..|ab| - 1] == a + b[..|b| - 1];
      StuffConcat(a, b[..|b| - 1], m);
    }
  }

  /** Once a frame is given up, the receiver waits for the next flag. */
  lemma {:induction false} Ignored(s: Rx, input: octets, raccm: bv32, mru: nat)
    requires s.flush && forall i :: 0 <= i < |input| ==> input[i] != FLAG
    ensures RxRun(s, input, raccm, mru) == (s, [])
  {
    if input != [] {
      Ignored(s, input[..|input| - 1], raccm, mru);
      assert RxStep(s, input[|input| - 1], raccm, mru) == (s, []);
      assert RxRun(s, input, raccm, mru).1 == [] + [];
    }
  }

  /** What works for the receiver never contains a flag when stuffed. */
  lemma {:induction false} NoFlags(data: octets, m: AsyncMap, raccm: bv32)
    requires MapOk(m, raccm)
    ensures forall i :: 0 <= i < |Stuff(data, m)| ==> Stuff(data, m)[i] != FLAG
  {
    hide InTxMap, InRxMap;
    if data != [] {
      var init, c := data[..|data| - 1], data[|data| - 1];
      NoFlags(init, m, raccm);
      assert OctetOk(c, m, raccm);
    }
  }

  /** The octet for which there is no room ends the frame. */
  lemma Overflow(s: Rx, data: octets, c: bv8, m: AsyncMap, raccm: bv32, mru: nat)
    requires Gathered(s, data, mru) && |data| == BufferSize(mru) && OctetOk(c, m, raccm)
    ensures var (s', ev) := RxRun(s, StuffOctet(c, m), raccm, mru); s'.flush && s'.buf.None? && ev == []
  {
    hide InTxMap, InRxMap, Fcs.Step, Fcs.Of;
    Untrans(c);
    if InTxMap(c, m) {
      RxRunTwo(s, ESCAPE, c ^ TRANS, raccm, mru);
    } else {
      RxRunOne(s, c, raccm, mru);
    }
  }

  /** Octets of a frame beyond the buffer: all are thrown away, and the receiver waits. */
  lemma TooMuch(s: Rx, data: octets, m: AsyncMap, raccm: bv32, mru: nat)
    requires Clean(s) && |data| > BufferSize(mru) && MapOk(m, raccm)
    ensures var (s', ev) := RxRun(s, Stuff(data, m), raccm, mru); s'.flush && s'.buf.None? && ev == []
  {
    hide RxStep, Stuff, RxRun, Clean, Gathered, OctetOk, StuffOctet;
    var n := BufferSize(mru);
    var fits, c, rest := data[..n], data[n], data[n + 1..];
    GatherAll(s, fits, m, raccm, mru);
    var s1 := RxRun(s, Stuff(fits, m), raccm, mru).0;
    assert OctetOk(c, m, raccm);
    Overflow(s1, fits, c, m, raccm, mru);
    RxRunConcat(s, Stuff(fits, m), StuffOctet(c, m), raccm, mru);
    var s2 := RxRun(s1, StuffOctet(c, m), raccm, mru).0;
    NoFlags(rest, m, raccm);
    Ignored(s2, Stuff(rest, m), raccm, mru);
    RxRunConcat(s, Stuff(fits, m) + StuffOctet(c, m), Stuff(rest, m), raccm, mru);
    assert data == fits + [c] + rest;
    StuffConcat(fits, [c], m);
    StuffConcat(fits + [c], rest, m);
    StuffOne(c, m);
  }

  lemma StuffOne(c: bv8, m: AsyncMap)
    ensures Stuff([c], m) == StuffOctet(c, m)
  {
    hide StuffOctet;
    assert [c][..0] == [];
  }

  /**
   * A frame is delivered exactly if with its FCS it has no more octets than the larger of mru and 1500, and 32 more.
   * A longer one is dropped without a report; either way the receiver is ready for the next frame.
   */
  lemma DeliveredIff(s: Rx, frame: octets, m: AsyncMap, raccm: bv32, mru: nat)
    requires Clean(s) && MapOk(m, raccm) && |frame| >= HDRLEN
    ensures var (s', ev) := RxRun(s, Encode(frame, m, false), raccm, mru);
      && Clean(s')
      && ev == if |frame| + 2 <= mru + 32 || |frame| + 2 <= 1532 then [Frame(frame)] else []
  {
    hide MapOk, RxRun, Encode, Stuff, RxStep, MapFor;
    if Sendable(frame, mru) {
      FrameRoundTrip(s, frame, false, m, raccm, mru);
    } else {
      EncodeIs(frame, m, false);
      MapForOk(frame, m, raccm);
      CheckedLength(frame);
      var stuffed := Stuff(Checked(frame), MapFor(frame, m));
      TooMuch(s, Checked(frame), MapFor(frame, m), raccm, mru);
      var s1 := RxRun(s, stuffed, raccm, mru).0;
      RxRunConcat(s, stuffed, [FLAG], raccm, mru);
      RxRunOne(s1, FLAG, raccm, mru);
      FlagEnds(s1, raccm, mru);
    }
  }

  lemma FlagEnds(s: Rx, raccm: bv32, mru: nat)
    requires s.flush && s.buf.None?
    ensures var (s', ev) := RxStep(s, FLAG, raccm, mru); Clean(s') && ev == []
  {
  }

  lemma CheckedLength(frame: octets)
    ensures |Checked(frame)| == |frame| + 2
  {
  }

  lemma {:induction false} LoopIgnored(s: Loop, input: octets)
    requires s.flush && forall i :: 0 <= i < |input| ==> input[i] != FLAG
    ensures LoopRun(s, input) == (s, [])
  {
    if input != [] {
      LoopIgnored(s, input[..|input| - 1]);
      assert LoopStep(s, input[|input| - 1]) == (s, []);
      assert LoopRun(s, input).1 == [] + [];
    }
  }

  lemma {:induction false} LoopNoFlags(data: octets, m: AsyncMap)
    requires forall c: bv8 :: LoopOctetOk(c, m)
    ensures forall i :: 0 <= i < |Stuff(data, m)| ==> Stuff(data, m)[i] != FLAG
  {
    hide InTxMap;
    if data != [] {
      var init, c := data[..|data| - 1], data[|data| - 1];
      LoopNoFlags(init, m);
      assert LoopOctetOk(c, m);
    }
  }

  lemma LoopOverflow(data: octets, c: bv8, m: AsyncMap)
    requires |data| == FRAMEMAX && LoopOctetOk(c, m)
    ensures var (s', fs) := LoopRun(Gathering(data), StuffOctet(c, m)); s'.flush && fs == []
  {
    hide InTxMap, Fcs.Step, Fcs.Of;
    Untrans(c);
    if InTxMap(c, m) {
      LoopRunTwo(Gathering(data), ESCAPE, c ^ TRANS);
    } else {
      LoopRunOne(Gathering(data), c);
    }
  }

  lemma LoopTooMuch(data: octets, m: AsyncMap)
    requires |data| > FRAMEMAX && forall c: bv8 :: LoopOctetOk(c, m)
    ensures var (s', fs) := LoopRun(Gathering([]), Stuff(data, m)); s'.flush && fs == []
  {
    hide LoopStep, Stuff, LoopRun, Gathering, LoopOctetOk, StuffOctet;
    var fits, c, rest := data[..FRAMEMAX], data[FRAMEMAX], data[FRAMEMAX + 1..];
    LoopGatherAll(fits, m);
    assert LoopOctetOk(c, m);
    LoopOverflow(fits, c, m);
    LoopRunConcat(Gathering([]), Stuff(fits, m), StuffOctet(c, m));
    var s2 := LoopRun(Gathering(fits), StuffOctet(c, m)).0;
    LoopNoFlags(rest, m);
    LoopIgnored(s2, Stuff(rest, m));
    LoopRunConcat(Gathering([]), Stuff(fits, m) + StuffOctet(c, m), Stuff(rest, m));
    assert data == fits + [c] + rest;
    StuffConcat(fits, [c], m);
    StuffConcat(fits + [c], rest, m);
    StuffOne(c, m);
  }

  /** The second receiver delivers frames of up to 1504 octets, whatever the mru. */
  lemma LoopDeliveredIff(frame: octets, m: AsyncMap)
    requires |frame| >= HDRLEN && forall c: bv8 :: LoopOctetOk(c, MapFor(frame, m))
    ensures LoopRun(Gathering([]), Encode(frame, m, false)) == (Gathering([]), if |frame| <= 1504 then [frame] else [])
  {
    hide LoopRun, Encode, Stuff, LoopStep, MapFor, LoopOctetOk, Gathering, Checked;
    if |frame| <= 1504 {
      LoopFrameRoundTrip(frame, false, m);
    } else {
      EncodeIs(frame, m, false);
      CheckedLength(frame);
      var stuffed := Stuff(Checked(frame), MapFor(frame, m));
      LoopTooMuch(Checked(frame), MapFor(frame, m));
      var s1 := LoopRun(Gathering([]), stuffed).0;
      LoopRunConcat(Gathering([]), stuffed, [FLAG]);
      LoopRunOne(s1, FLAG);
      LoopFlagEnds(s1);
      var none: seq<octets> := [];
      assert none + none == none;
    }
  }

  lemma LoopFlagEnds(s: Loop)
    requires s.flush
    ensures LoopStep(s, FLAG) == (Gathering([]), [])
  {
  }

  // ----- The abort sequence of section 4.3 of RFC 1662 -----

  lemma LoopEscapeFlag(s: Loop)
    requires !s.flush && !s.escape
    ensures LoopRun(s, [ESCAPE, FLAG]) == (Gathering([]), [])
  {
    LoopAborts(s.(escape := true));
    hide Gathering, LoopRun;
    LoopRunTwo(s, ESCAPE, FLAG);
    assert LoopStep(s, ESCAPE) == (s.(escape := true), []);
    hide LoopStep;
    var none: seq<octets> := [];
    assert none + none == none;
  }

  lemma LoopAborts(s: Loop)
    requires s.escape
    ensures LoopStep(s, FLAG) == (Gathering([]), [])
  {
  }

  lemma EscapeFlag(s: Rx, raccm: bv32, mru: nat)
    requires !s.flush && s.buf.Some? && |s.buf.value| > 0 && s.fcs == Fcs.GOOD
    ensures RxRun(s, [ESCAPE, FLAG], raccm, mru).1 == [Frame(DropFcs(s.buf.value))]
  {
    hide RxRun;
    RxRunTwo(s, ESCAPE, FLAG, raccm, mru);
  }

  /** An escape before the closing flag aborts the frame for the second receiver, but not for the first. */
  lemma Abort(s: Rx, frame: octets, raccm: bv32, mru: nat)
    requires |frame| >= HDRLEN && Gathered(s, Checked(frame), mru)
    ensures RxRun(s, [ESCAPE, FLAG], raccm, mru).1 == [Frame(frame)]
    ensures LoopRun(Gathering(Checked(frame)), [ESCAPE, FLAG]) == (Gathering([]), [])
  {
    LoopEscapeFlag(Gathering(Checked(frame)));
    hide Fcs.Of, Fcs.Trailer, RxRun, LoopRun;
    Fcs.FrameGood(frame);
    EscapeFlag(s, raccm, mru);
    assert DropFcs(Checked(frame)) == frame;
  }
}
