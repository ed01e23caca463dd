/**
 What the HDLC encoder sends, both receivers turn back into exactly the frames
 that were sent, for the transmit maps for which that is possible at all.
 */
module HdlcRoundTrip {
  import opened Wrappers
  import opened HdlcSpec
  import Fcs

  // ----- Which maps work -----

  /** The receiver gets this octet back from its stuffed form. */
  predicate OctetOk(c: bv8, m: AsyncMap, raccm: bv32)
  {
    if InTxMap(c, m) then c ^ TRANS != FLAG && c ^ TRANS != ESCAPE
    else c != FLAG && c != ESCAPE && !InRxMap(c, raccm)
  }

  ghost predicate MapOk(m: AsyncMap, raccm: bv32)
  {
    forall c: bv8 :: OctetOk(c, m, raccm)
  }

  lemma Untrans(c: bv8)
    ensures c ^ TRANS == FLAG <==> c == 0x5e
    ensures c ^ TRANS == ESCAPE <==> c == 0x5d
    ensures (c ^ TRANS) ^ TRANS == c
  {
  }

  /** A map works if it escapes flag, escape and what the receiver drops, but not 0x5d or 0x5e. */
  lemma MapOkIff(m: AsyncMap, raccm: bv32)
    ensures MapOk(m, raccm) <==>
              && InTxMap(FLAG, m) && InTxMap(ESCAPE, m)
              && !InTxMap(0x5d, m) && !InTxMap(0x5e, m)
              && forall c: bv8 | InRxMap(c, raccm) :: InTxMap(c, m)
  {
    hide InTxMap, InRxMap;
    Untrans(0x5d);
    Untrans(0x5e);
    if MapOk(m, raccm) {
      assert OctetOk(FLAG, m, raccm) && OctetOk(ESCAPE, m, raccm);
      assert OctetOk(0x5d, m, raccm) && OctetOk(0x5e, m, raccm);
      forall c: bv8 | InRxMap(c, raccm)
        ensures InTxMap(c, m)
      {
        assert OctetOk(c, m, raccm);
      }
    } else {
      var c: bv8 :| !OctetOk(c, m, raccm);
      Untrans(c);
    }
  }

  lemma Bv3Values(b: bv3)
    ensures (b as int == 0 <==> b == 0) && (b as int == 2 <==> b == 2) && (b as int == 3 <==> b == 3)
  {
  }

  /** Escaping all control characters as well changes the map below 0x20 only. */
  lemma LcpMap(c: bv8, m: AsyncMap)
    ensures InTxMap(c, m[0 := 0xffffffff]) <==> c < 0x20 || InTxMap(c, m)
  {
  }

  lemma MapForOk(frame: octets, m: AsyncMap, raccm: bv32)
    requires MapOk(m, raccm)
    ensures MapOk(MapFor(frame, m), raccm)
  {
    hide InTxMap, InRxMap;
    if IsLcp(frame) {
      var m' := MapFor(frame, m);
      forall c: bv8
        ensures OctetOk(c, m', raccm)
      {
        assert OctetOk(c, m, raccm);
        LcpMap(c, m);
        Untrans(c);
      }
    }
  }

  /** The ioctl that sets the transmit map: 0x5e is taken out, 0x7d and 0x7e are put in. */
  function SetMap(m: AsyncMap): AsyncMap
  {
    m[2 := m[2] & 0xbfffffff][3 := m[3] | 0x60000000]
  }

  lemma SetMapIs(c: bv8, m: AsyncMap)
    ensures InTxMap(c, SetMap(m)) <==> c == 0x7d || c == 0x7e || (c != 0x5e && InTxMap(c, m))
  {
  }

  /** What the ioctl leaves works exactly if the map given does not escape 0x5d and covers the receiver's map. */
  lemma SetMapOkIff(m: AsyncMap, raccm: bv32)
    ensures MapOk(SetMap(m), raccm) <==> !InTxMap(0x5d, m) && forall c: bv8 | InRxMap(c, raccm) :: InTxMap(c, m)
  {
    var m' := SetMap(m);
    MapOkIff(m', raccm);
    SetMapIs(0x5d, m);
    SetMapIs(0x5e, m);
    SetMapIs(0x7d, m);
    SetMapIs(0x7e, m);
    hide InTxMap, SetMap;
    forall c: bv8 | InRxMap(c, raccm)
      ensures InTxMap(c, m') <==> InTxMap(c, m)
    {
      SetMapIs(c, m);
    }
  }

  // ----- Runs -----

  lemma {:induction false} RxRunConcat(s: Rx, a: octets, b: octets, raccm: bv32, mru: nat)
    ensures var (s1, ev1) := RxRun(s, a, raccm, mru);
            var (s2, ev2) := RxRun(s1, b, raccm, mru);
            RxRun(s, a + b, raccm, mru) == (s2, ev1 + ev2)
  {
    hide RxStep;
    var ab := a + b;
    if |b| == 0 {
      assert ab == a;
      assert RxRun(s, a, raccm, mru).1 + [] == RxRun(s, a, raccm, mru).1;
    } else {
      var init, c := b[..|b| - 1], b[|b| - 1];
      assert ab[..|ab| - 1] == a + init;
      RxRunConcat(s, a, init, raccm, mru);
      var (s1, ev1) := RxRun(s, a, raccm, mru);
      var (s2, ev2) := RxRun(s1, init, raccm, mru);
      var ev3 := RxStep(s2, c, raccm, mru).1;
      assert (ev1 + ev2) + ev3 == ev1 + (ev2 + ev3);
    }
  }

  lemma RxRunOne(s: Rx, c: bv8, raccm: bv32, mru: nat)
    ensures RxRun(s, [c], raccm, mru) == RxStep(s, c, raccm, mru)
  {
    hide RxStep;
    assert [c][..0] == [];
    assert [] + RxStep(s, c, raccm, mru).1 == RxStep(s, c, raccm, mru).1;
  }

  lemma RxRunTwo(s: Rx, c: bv8, d: bv8, raccm: bv32, mru: nat)
    ensures var (s1, ev1) := RxStep(s, c, raccm, mru);
            var (s2, ev2) := RxStep(s1, d, raccm, mru);
            RxRun(s, [c, d], raccm, mru) == (s2, ev1 + ev2)
  {
    hide RxStep;
    assert [c, d] == [c] + [d];
    RxRunConcat(s, [c], [d], raccm, mru);
    RxRunOne(s, c, raccm, mru);
    RxRunOne(RxStep(s, c, raccm, mru).0, d, raccm, mru);
  }

  /** Between frames. */
  predicate Clean(s: Rx) { !s.flush && s.buf.None? }

  /** The receiver has gathered `data` of a frame and is not in the middle of an escape. */
  ghost predicate Gathered(s: Rx, data: octets, mru: nat)
  {
    || (data == [] && Clean(s))
    || (s == Rx(false, false, Some(data), BufferSize(mru), Fcs.Of(Fcs.INIT, data)))
  }

  lemma StoreNext(s: Rx, data: octets, c: bv8, mru: nat)
    requires Gathered(s, data, mru) && |data| < BufferSize(mru)
    ensures Store(Ready(s, mru), c) == Rx(false, false, Some(data + [c]), BufferSize(mru), Fcs.Of(Fcs.INIT, data + [c]))
  {
  }

  /** One octet arrives. */
  lemma GatherOctet(s: Rx, data: octets, c: bv8, m: AsyncMap, raccm: bv32, mru: nat)
    requires Gathered(s, data, mru) && |data| < BufferSize(mru) && OctetOk(c, m, raccm)
    ensures var (s', ev) := RxRun(s, StuffOctet(c, m), raccm, mru);
            Gathered(s', data + [c], mru) && ev == []
  {
    hide InTxMap, InRxMap, Fcs.Step, Fcs.Of;
    StoreNext(s, data, c, mru);
    Untrans(c);
    if InTxMap(c, m) {
      RxRunTwo(s, ESCAPE, c ^ TRANS, raccm, mru);
    } else {
      RxRunOne(s, c, raccm, mru);
    }
  }

  /** Exactly the octets that are OctetOk survive: for any other the receiver does not hold that octet. */
  lemma OctetSurvivesIff(s: Rx, c: bv8, m: AsyncMap, raccm: bv32, mru: nat)
    requires Clean(s)
    ensures Gathered(RxRun(s, StuffOctet(c, m), raccm, mru).0, [c], mru) <==> OctetOk(c, m, raccm)
  {
    if OctetOk(c, m, raccm) {
      assert [] + [c] == [c];
      GatherOctet(s, [], c, m, raccm, mru);
    } else {
      hide InTxMap, InRxMap, Fcs.Step, Fcs.Of;
      if InTxMap(c, m) {
        RxRunTwo(s, ESCAPE, c ^ TRANS, raccm, mru);
      } else {
        RxRunOne(s, c, raccm, mru);
      }
    }
  }

  lemma {:induction false} GatherAll(s: Rx, data: octets, m: AsyncMap, raccm: bv32, mru: nat)
    requires Clean(s) && |data| <= BufferSize(mru) && MapOk(m, raccm)
    ensures var (s', ev) := RxRun(s, Stuff(data, m), raccm, mru);
            Gathered(s', data, mru) && ev == []
  {
    hide OctetOk, StuffOctet, RxStep;
    if |data| > 0 {
      var init, c := data[..|data| - 1], data[|data| - 1];
      GatherAll(s, init, m, raccm, mru);
      var s1 := RxRun(s, Stuff(init, m), raccm, mru).0;
      assert OctetOk(c, m, raccm);
      GatherOctet(s1, init, c, m, raccm, mru);
      RxRunConcat(s, Stuff(init, m), StuffOctet(c, m), raccm, mru);
      assert init + [c] == data;
    }
  }

  /** A closing flag after a whole frame. */
  lemma CloseFrame(s: Rx, frame: octets, raccm: bv32, mru: nat)
    requires Gathered(s, Checked(frame), mru)
    ensures var (s', ev) := RxStep(s, FLAG, raccm, mru); Clean(s') && ev == [Frame(frame)]
  {
    hide Fcs.Of, Fcs.Trailer;
    Fcs.FrameGood(frame);
    assert DropFcs(Checked(frame)) == frame;
  }

  /** A closing flag after a frame in which one octet was damaged: the frame is dropped. */
  lemma DamagedFrame(s: Rx, frame: octets, i: nat, c: bv8, raccm: bv32, mru: nat)
    requires i < |Checked(frame)| && Checked(frame)[i] != c
    requires Gathered(s, Checked(frame)[i := c], mru)
    ensures var (s', ev) := RxStep(s, FLAG, raccm, mru); Clean(s') && ev == [InputError]
  {
    hide Fcs.Of, Fcs.Trailer;
    Fcs.DamageDetected(frame, i, c);
  }

  predicate Sendable(frame: octets, mru: nat) { HDRLEN <= |frame| <= BufferSize(mru) - FCSLEN }

  /** The closed body of an encoded frame. */
  function Body(frame: octets, m: AsyncMap): octets { Stuff(Checked(frame), MapFor(frame, m)) + [FLAG] }

  lemma EncodeIs(frame: octets, m: AsyncMap, lead: bool)
    requires |frame| >= HDRLEN
    ensures Encode(frame, m, lead) == if lead then [FLAG] + Body(frame, m) else Body(frame, m)
  {
    hide Checked, MapFor, Stuff;
    var stuffed := Stuff(Checked(frame), MapFor(frame, m));
    assert [] + stuffed == stuffed;
  }

  lemma BodyRoundTrip(s: Rx, frame: octets, m: AsyncMap, raccm: bv32, mru: nat)
    requires Clean(s) && MapOk(m, raccm) && Sendable(frame, mru)
    ensures var (s', ev) := RxRun(s, Body(frame, m), raccm, mru); Clean(s') && ev == [Frame(frame)]
  {
    var m', data := MapFor(frame, m), Checked(frame);
    MapForOk(frame, m, raccm);
    hide MapOk, MapFor, RxStep, Stuff, Fcs.Trailer, Fcs.Of, Gathered, RxRun, Clean;
    var stuffed := Stuff(data, m');
    GatherAll(s, data, m', raccm, mru);
    var s1 := RxRun(s, stuffed, raccm, mru).0;
    CloseFrame(s1, frame, raccm, mru);
    RxRunOne(s1, FLAG, raccm, mru);
    RxRunConcat(s, stuffed, [FLAG], raccm, mru);
    assert [] + [Frame(frame)] == [Frame(frame)];
  }

  /** One frame, with or without an opening flag. */
  lemma FrameRoundTrip(s: Rx, frame: octets, lead: bool, m: AsyncMap, raccm: bv32, mru: nat)
    requires Clean(s) && MapOk(m, raccm) && Sendable(frame, mru)
    ensures var (s', ev) := RxRun(s, Encode(frame, m, lead), raccm, mru); Clean(s') && ev == [Frame(frame)]
  {
    hide MapOk, Body, Encode, RxRun, Clean;
    EncodeIs(frame, m, lead);
    BodyRoundTrip(s, frame, m, raccm, mru);
    if lead {
      IdleFlag(s, raccm, mru);
      RxRunConcat(s, [FLAG], Body(frame, m), raccm, mru);
      assert [] + [Frame(frame)] == [Frame(frame)];
    }
  }

  lemma IdleFlag(s: Rx, raccm: bv32, mru: nat)
    requires Clean(s)
    ensures RxRun(s, [FLAG], raccm, mru) == (s, [])
  {
    RxRunOne(s, FLAG, raccm, mru);
  }

  /** A frame as handed to the encoder: its octets and whether an opening flag is sent. */
  datatype Outgoing = Outgoing(frame: octets, lead: bool)

  function EncodeAll(fs: seq<Outgoing>, m: AsyncMap): octets
  {
    if |fs| == 0 then [] else EncodeAll(fs[..|fs| - 1], m) + Encode(fs[|fs| - 1].frame, m, fs[|fs| - 1].lead)
  }

  function FramesOf(fs: seq<Outgoing>): seq<Event>
  {
    seq(|fs|, i requires 0 <= i < |fs| => Frame(fs[i].frame))
  }

  /** Any sequence of frames arrives exactly, in order, and nothing else does. */
  lemma {:induction false} StreamRoundTrip(s: Rx, fs: seq<Outgoing>, m: AsyncMap, raccm: bv32, mru: nat)
    requires Clean(s) && MapOk(m, raccm)
    requires forall i | 0 <= i < |fs| :: Sendable(fs[i].frame, mru)
    ensures var (s', ev) := RxRun(s, EncodeAll(fs, m), raccm, mru); Clean(s') && ev == FramesOf(fs)
  {
    hide MapOk, Encode, RxStep, Sendable;
    if |fs| > 0 {
      var init, last := fs[..|fs| - 1], fs[|fs| - 1];
      StreamRoundTrip(s, init, m, raccm, mru);
      var s1 := RxRun(s, EncodeAll(init, m), raccm, mru).0;
      FrameRoundTrip(s1, last.frame, last.lead, m, raccm, mru);
      RxRunConcat(s, EncodeAll(init, m), Encode(last.frame, m, last.lead), raccm, mru);
      assert FramesOf(fs) == FramesOf(init) + [Frame(last.frame)];
    }
  }

  // ----- Maps that do not work -----

  lemma StuffTwo(data: octets, t: octets, m: AsyncMap)
    requires |t| == 2
    ensures Stuff(data + t, m) == Stuff(data, m) + StuffOctet(t[0], m) + StuffOctet(t[1], m)
  {
    hide StuffOctet;
    assert (data + t)[..|data| + 1] == data + [t[0]];
    assert (data + [t[0]])[..|data|] == data;
  }

  /** Nothing of a frame has been stored. */
  predicate Empty(s: Rx) { !s.flush && (s.buf.None? || s.buf.value == []) }

  /** What has arrived so far, all of it copies of an octet that does not survive, left nothing behind. */
  predicate Starved(s: Rx, c: bv8, m: AsyncMap)
  {
    Empty(s) && (InTxMap(c, m) || c == FLAG || c == ESCAPE || s.buf.None? || !s.escaped)
  }

  lemma NothingStored(s: Rx, c: bv8, m: AsyncMap, raccm: bv32, mru: nat)
    requires Starved(s, c, m) && !OctetOk(c, m, raccm)
    ensures var (s', ev) := RxRun(s, StuffOctet(c, m), raccm, mru); Starved(s', c, m) && ev == []
  {
    hide InTxMap, InRxMap, Fcs.Step, Fcs.Of;
    if InTxMap(c, m) {
      RxRunTwo(s, ESCAPE, c ^ TRANS, raccm, mru);
    } else {
      RxRunOne(s, c, raccm, mru);
    }
  }

  function Copies(c: bv8, n: nat): (r: octets)
    ensures |r| == n && forall i :: 0 <= i < n ==> r[i] == c
  {
    seq(n, _ => c)
  }

  lemma {:induction false} AllStarved(s: Rx, c: bv8, n: nat, m: AsyncMap, raccm: bv32, mru: nat)
    requires Clean(s) && !OctetOk(c, m, raccm)
    ensures var (s', ev) := RxRun(s, Stuff(Copies(c, n), m), raccm, mru); Starved(s', c, m) && ev == []
  {
    hide OctetOk, StuffOctet, RxStep, InTxMap;
    if n > 0 {
      var data := Copies(c, n);
      assert data[..n - 1] == Copies(c, n - 1);
      AllStarved(s, c, n - 1, m, raccm, mru);
      var s1 := RxRun(s, Stuff(data[..n - 1], m), raccm, mru).0;
      NothingStored(s1, c, m, raccm, mru);
      RxRunConcat(s, Stuff(data[..n - 1], m), StuffOctet(c, m), raccm, mru);
    }
  }

  function Held(s: Rx): nat { if s.buf.None? then 0 else |s.buf.value| }

  predicate Short(ev: seq<Event>) { forall i :: 0 <= i < |ev| && ev[i].Frame? ==> |ev[i].data| < HDRLEN }

  /** Five octets of input, of which the last may be a flag, do not make a frame of four. */
  lemma {:induction false} FewOctets(s: Rx, input: octets, raccm: bv32, mru: nat)
    requires Held(s) + |input| <= HDRLEN + 1
    ensures var (s', ev) := RxRun(s, input, raccm, mru); Held(s') <= Held(s) + |input| && Short(ev)
  {
    hide Fcs.Step, InRxMap;
    if |input| > 0 {
      FewOctets(s, input[..|input| - 1], raccm, mru);
    }
  }

  predicate Arrives(s: Rx, frame: octets, lead: bool, m: AsyncMap, raccm: bv32, mru: nat)
  {
    RxRun(s, Encode(frame, m, lead), raccm, mru).1 == [Frame(frame)]
  }

  lemma BadBody(s: Rx, c: bv8, m: AsyncMap, raccm: bv32, mru: nat)
    requires Clean(s) && !OctetOk(c, m, raccm)
    ensures Short(RxRun(s, Body(Copies(c, HDRLEN), m), raccm, mru).1)
  {
    hide OctetOk, StuffOctet, RxStep, InTxMap, RxRun, Stuff, Fcs.Of, Fcs.Trailer, Copies, Short, Held;
    var frame := Copies(c, HDRLEN);
    var t := Fcs.Trailer(Fcs.Of(Fcs.INIT, frame));
    StuffTwo(frame, t, m);
    var head, tail := Stuff(frame, m), StuffOctet(t[0], m) + StuffOctet(t[1], m) + [FLAG];
    assert Body(frame, m) == head + tail;
    AllStarved(s, c, HDRLEN, m, raccm, mru);
    TwoStuffed(t[0], t[1], m);
    var (s1, ev) := RxRun(s, head, raccm, mru);
    NoneHeld(s1);
    FewOctets(s1, tail, raccm, mru);
    RxRunConcat(s, head, tail, raccm, mru);
    assert ev + RxRun(s1, tail, raccm, mru).1 == RxRun(s1, tail, raccm, mru).1;
  }

  lemma NoneHeld(s: Rx)
    requires Empty(s)
    ensures Held(s) == 0
  {
  }

  /** Four copies of an octet that does not survive make a frame that is not delivered. */
  lemma NotDelivered(s: Rx, c: bv8, lead: bool, m: AsyncMap, raccm: bv32, mru: nat)
    requires Clean(s) && !OctetOk(c, m, raccm)
    ensures var frame := Copies(c, HDRLEN);
            Sendable(frame, mru) && !IsLcp(frame) && !Arrives(s, frame, lead, m, raccm, mru)
  {
    hide OctetOk, RxRun, Body, Encode, Copies;
    var frame := Copies(c, HDRLEN);
    EncodeIs(frame, m, lead);
    BadBody(s, c, m, raccm, mru);
    var ev := RxRun(s, Body(frame, m), raccm, mru).1;
    if lead {
      IdleFlag(s, raccm, mru);
      RxRunConcat(s, [FLAG], Body(frame, m), raccm, mru);
      assert [] + ev == ev;
    }
    assert [Frame(frame)][0].data == frame;
  }

  lemma TwoStuffed(a: bv8, b: bv8, m: AsyncMap)
    ensures |StuffOctet(a, m) + StuffOctet(b, m) + [FLAG]| <= HDRLEN + 1
  {
  }

  /** A clean receiver gets every frame that fits, LCP aside. */
  ghost predicate FramesArrive(m: AsyncMap, raccm: bv32, mru: nat)
  {
    forall s: Rx, frame: octets, lead: bool | Clean(s) && Sendable(frame, mru) && !IsLcp(frame) ::
      Arrives(s, frame, lead, m, raccm, mru)
  }

  /** Frames arrive if and only if the map lets every octet survive. */
  lemma FramesArriveIff(m: AsyncMap, raccm: bv32, mru: nat)
    ensures FramesArrive(m, raccm, mru) <==> MapOk(m, raccm)
  {
    hide OctetOk, Encode, RxRun, IsLcp;
    if MapOk(m, raccm) {
      forall s: Rx, frame: octets, lead: bool | Clean(s) && Sendable(frame, mru) && !IsLcp(frame)
        ensures Arrives(s, frame, lead, m, raccm, mru)
      {
        FrameRoundTrip(s, frame, lead, m, raccm, mru);
      }
    } else {
      var c: bv8 :| !OctetOk(c, m, raccm);
      var s := Rx(false, false, None, 0, 0);
      NotDelivered(s, c, false, m, raccm, mru);
    }
  }

  /** What the ioctl leaves lets frames arrive exactly if the map given spares 0x5d and covers the receiver's map. */
  lemma SetMapFramesIff(m: AsyncMap, raccm: bv32, mru: nat)
    ensures FramesArrive(SetMap(m), raccm, mru) <==>
              !InTxMap(0x5d, m) && forall c: bv8 | InRxMap(c, raccm) :: InTxMap(c, m)
  {
    hide FramesArrive, MapOk, InTxMap, InRxMap, SetMap;
    FramesArriveIff(SetMap(m), raccm, mru);
    SetMapOkIff(m, raccm);
  }

  // ----- The encoder's buffer -----

  lemma {:induction false} StuffLength(data: octets, m: AsyncMap)
    ensures |data| <= |Stuff(data, m)| <= 2 * |data|
  {
    hide InTxMap;
    if |data| > 0 {
      StuffLength(data[..|data| - 1], m);
    }
  }

  lemma EncodeFits(frame: octets, m: AsyncMap, lead: bool)
    ensures |Encode(frame, m, lead)| <= Allocated(frame)
  {
    hide Fcs.Trailer, Fcs.Of, MapFor;
    StuffLength(Checked(frame), MapFor(frame, m));
  }

  // ----- The second receiver -----

  lemma {:induction false} LoopRunConcat(s: Loop, a: octets, b: octets)
    ensures var (s1, fs1) := LoopRun(s, a);
            var (s2, fs2) := LoopRun(s1, b);
            LoopRun(s, a + b) == (s2, fs1 + fs2)
  {
    hide LoopStep;
    var ab := a + b;
    if |b| == 0 {
      assert ab == a;
      assert LoopRun(s, a).1 + [] == LoopRun(s, a).1;
    } else {
      var init, c := b[..|b| - 1], b[|b| - 1];
      assert ab[..|ab| - 1] == a + init;
      LoopRunConcat(s, a, init);
      var (s1, fs1) := LoopRun(s, a);
      var (s2, fs2) := LoopRun(s1, init);
      var fs3 := LoopStep(s2, c).1;
      assert (fs1 + fs2) + fs3 == fs1 + (fs2 + fs3);
    }
  }

  lemma LoopRunOne(s: Loop, c: bv8)
    ensures LoopRun(s, [c]) == LoopStep(s, c)
  {
    hide LoopStep;
    assert [c][..0] == [];
    assert [] + LoopStep(s, c).1 == LoopStep(s, c).1;
  }

  lemma LoopRunTwo(s: Loop, c: bv8, d: bv8)
    ensures var (s1, fs1) := LoopStep(s, c);
            var (s2, fs2) := LoopStep(s1, d);
            LoopRun(s, [c, d]) == (s2, fs1 + fs2)
  {
    hide LoopStep;
    assert [c, d] == [c] + [d];
    LoopRunConcat(s, [c], [d]);
    LoopRunOne(s, c);
    LoopRunOne(LoopStep(s, c).0, d);
  }

  /** The second receiver gets this octet back: it does not mind an escaped 0x5d. */
  predicate LoopOctetOk(c: bv8, m: AsyncMap)
  {
    if InTxMap(c, m) then c ^ TRANS != FLAG else c != FLAG && c != ESCAPE
  }

  function Gathering(data: octets): Loop { Loop(false, false, data, Fcs.Of(Fcs.INIT, data)) }

  lemma LoopOctetSurvivesIff(data: octets, c: bv8, m: AsyncMap)
    requires |data| < FRAMEMAX
    ensures LoopRun(Gathering(data), StuffOctet(c, m)) == (Gathering(data + [c]), []) <==> LoopOctetOk(c, m)
  {
    hide InTxMap, Fcs.Step;
    assert (data + [c])[..|data|] == data;
    Untrans(c);
    if InTxMap(c, m) {
      LoopRunTwo(Gathering(data), ESCAPE, c ^ TRANS);
    } else {
      LoopRunOne(Gathering(data), c);
    }
  }

  lemma {:induction false} LoopGatherAll(data: octets, m: AsyncMap)
    requires |data| <= FRAMEMAX && forall c: bv8 :: LoopOctetOk(c, m)
    ensures LoopRun(Gathering([]), Stuff(data, m)) == (Gathering(data), [])
  {
    hide StuffOctet, LoopStep, LoopOctetOk, Fcs.Of;
    if |data| > 0 {
      var init, c := data[..|data| - 1], data[|data| - 1];
      LoopGatherAll(init, m);
      assert LoopOctetOk(c, m);
      LoopOctetSurvivesIff(init, c, m);
      LoopRunConcat(Gathering([]), Stuff(init, m), StuffOctet(c, m));
      assert init + [c] == data;
    }
  }

  lemma LoopClose(frame: octets)
    requires |frame| >= HDRLEN
    ensures LoopStep(Gathering(Checked(frame)), FLAG) == (Gathering([]), [frame])
  {
    hide Fcs.Trailer, Fcs.Step;
    Fcs.FrameGood(frame);
    var data := Checked(frame);
    assert data[..|data| - 2] == frame;
  }

  lemma LoopBody(frame: octets, m: AsyncMap)
    requires HDRLEN <= |frame| <= FRAMEMAX - FCSLEN
    requires forall c: bv8 :: LoopOctetOk(c, MapFor(frame, m))
    ensures LoopRun(Gathering([]), Body(frame, m)) == (Gathering([]), [frame])
  {
    var m', data := MapFor(frame, m), Checked(frame);
    hide MapFor, Stuff, Fcs.Trailer, Fcs.Of, LoopOctetOk, LoopRun, LoopStep, Gathering;
    var stuffed := Stuff(data, m');
    LoopGatherAll(data, m');
    LoopClose(frame);
    LoopRunOne(Gathering(data), FLAG);
    LoopRunConcat(Gathering([]), stuffed, [FLAG]);
    assert [] + [frame] == [frame];
  }

  /** The second receiver delivers the same frame from the same stream. */
  lemma LoopFrameRoundTrip(frame: octets, lead: bool, m: AsyncMap)
    requires HDRLEN <= |frame| <= FRAMEMAX - FCSLEN
    requires forall c: bv8 :: LoopOctetOk(c, MapFor(frame, m))
    ensures LoopRun(Gathering([]), Encode(frame, m, lead)) == (Gathering([]), [frame])
  {
    EncodeIs(frame, m, lead);
    LoopBody(frame, m);
    if lead {
      LoopRunOne(Gathering([]), FLAG);
      hide Body, LoopRun, Encode, MapFor;
      LoopRunConcat(Gathering([]), [FLAG], Body(frame, m));
      assert [] + [frame] == [frame];
    }
  }
}
