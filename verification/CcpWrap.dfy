/**
 * What the 16-bit sequence number cannot see: after any nonzero multiple of 65536 lost packets
 * the next compressed packet can be decompressed to something that was never sent.
 */
module CcpWrap {
  import opened Bits
  import opened BsdSpec
  import opened BsdRoundTrip
  import opened PppComp
  import opened CcpLink

  const Z: byte := 0x21
  const P: byte := 0x23
  const Q: byte := 0x25

  /** Codes 257 to 259 stand for two, three and four times Z. */
  const RUNS: Dict := [Entry(Z, Z), Entry(257, Z), Entry(258, Z)]

  function Packet(proto: byte, data: seq<byte>): (pkt: seq<byte>)
    ensures |pkt| == HDRLEN + |data|
  {
    [0xff, 3, 0, proto] + data
  }

  lemma PacketIs(proto: byte, data: seq<byte>, mru: nat)
    requires 0x21 <= proto <= 0xf9 && |data| <= mru
    ensures var pkt := Packet(proto, data);
            Sendable(pkt, mru) && Compressible(pkt) && !IsResetAck(pkt) && pkt[3] == proto && pkt[HDRLEN..] == data
  {
  }

  // ----- What the coder makes of these packets -----

  /** A small dictionary: nine bits are enough for all its codes and it will not be cleared. */
  predicate Small(d: Dict) { |d| < 100 && WellFormed(d) }

  lemma SmallOk(maxbits: nat, d: Dict)
    requires Small(d) && INIT_BITS <= maxbits <= MAX_BITS
    ensures DictOk(maxbits, d) && WidthOk(maxbits, d, INIT_BITS) && MaxEnt(d) < MaxCode(INIT_BITS) <= MaxCode(maxbits)
  {
    assert Pow2(INIT_BITS) == 512;
    Pow2Monotonic(INIT_BITS, maxbits);
  }

  lemma Miss(maxbits: nat, e: Enc, c: byte)
    requires Small(e.dict) && EncOk(maxbits, e) && e.width == INIT_BITS && Entry(e.ent, c) !in e.dict
    ensures e.ent < Pow2(INIT_BITS)
    ensures EncStep(maxbits, e, c) == Enc(e.dict + [Entry(e.ent, c)], INIT_BITS, c, e.bits + ToBits(e.ent, INIT_BITS))
  {
    SmallOk(maxbits, e.dict);
    assert Pow2(INIT_BITS) == 512;
    assert Find(e.dict, e.ent, c).None?;
  }

  lemma Hit(maxbits: nat, e: Enc, c: byte, k: nat)
    requires EncOk(maxbits, e) && k < |e.dict| && e.dict[k] == Entry(e.ent, c)
    requires forall j :: 0 <= j < |e.dict| && j != k ==> e.dict[j] != Entry(e.ent, c)
    ensures EncStep(maxbits, e, c) == e.(ent := FIRST + k)
  {
  }

  lemma RunOne(maxbits: nat, e: Enc, data: seq<byte>, c: byte)
    requires EncOk(maxbits, e)
    ensures EncRun(maxbits, e, data + [c]) == EncStep(maxbits, EncRun(maxbits, e, data), c)
  {
    assert (data + [c])[..|data|] == data;
  }

  lemma {:induction false} RunConcat(maxbits: nat, e: Enc, a: seq<byte>, b: seq<byte>)
    requires EncOk(maxbits, e)
    ensures EncRun(maxbits, e, a + b) == EncRun(maxbits, EncRun(maxbits, e, a), b)
  {
    hide EncStep;
    if b == [] {
      assert a + b == a;
    } else {
      var n := |b| - 1;
      RunConcat(maxbits, e, a, b[..n]);
      assert (a + b)[..|a| + n] == a + b[..n];
    }
  }

  /** Every pair occurs once. */
  predicate Once(d: Dict) { forall i, j :: 0 <= i < j < |d| ==> d[i] != d[j] }

  lemma ThreeSteps(maxbits: nat, e: Enc, e1: Enc, e2: Enc, e3: Enc, a: byte, b: byte, c: byte)
    requires EncOk(maxbits, e) && EncOk(maxbits, e1) && EncOk(maxbits, e2)
    requires EncStep(maxbits, e, a) == e1 && EncStep(maxbits, e1, b) == e2 && EncStep(maxbits, e2, c) == e3
    ensures EncRun(maxbits, e, [a, b, c]) == e3
  {
    hide EncStep, EncOk;
    assert EncRun(maxbits, e, []) == e;
    RunOne(maxbits, e, [], a);
    RunOne(maxbits, e, [a], b);
    RunOne(maxbits, e, [a, b], c);
    assert [] + [a] == [a] && [a] + [b] == [a, b] && [a, b] + [c] == [a, b, c];
  }

  lemma SmallEnc(maxbits: nat, e: Enc)
    requires Small(e.dict) && INIT_BITS <= maxbits <= MAX_BITS && e.width == INIT_BITS && IsCode(e.dict, e.ent)
    ensures EncOk(maxbits, e) && e.ent < Pow2(INIT_BITS)
  {
    SmallOk(maxbits, e.dict);
    assert Pow2(INIT_BITS) == 512;
  }

  /** Four times Z is one code for a coder that knows RUNS. */
  lemma FourZ(maxbits: nat, e: Enc)
    requires Small(e.dict) && EncOk(maxbits, e) && e.width == INIT_BITS && RUNS <= e.dict && Once(e.dict) && e.ent == Z
    ensures EncRun(maxbits, e, [Z, Z, Z]) == e.(ent := 259)
  {
    var e1, e2 := e.(ent := 257), e.(ent := 258);
    SmallEnc(maxbits, e1);
    SmallEnc(maxbits, e2);
    hide EncStep, EncOk, Small;
    Hit(maxbits, e, Z, 0);
    Hit(maxbits, e1, Z, 1);
    Hit(maxbits, e2, Z, 2);
    ThreeSteps(maxbits, e, e1, e2, e.(ent := 259), Z, Z, Z);
  }

  /** The bits of the codes P and 260. */
  function TwoCodes(): seq<bool>
  {
    assert Pow2(INIT_BITS) == 512;
    ToBits(P, INIT_BITS) + ToBits(260, INIT_BITS)
  }

  /** After the code P and a first pair, code 260 follows for its pair, and then Z stands alone. */
  lemma Head(maxbits: nat, e: Enc, d1: Dict, a: byte, b: byte)
    requires INIT_BITS <= maxbits <= MAX_BITS && Small(e.dict) && Small(d1) && |d1| < 99
    requires e == Enc(e.dict, INIT_BITS, P, []) && Entry(P, a) !in e.dict && d1 == e.dict + [Entry(P, a)]
    requires |d1| > 3 && d1[3] == Entry(a, b) && Once(d1) && Entry(260, Z) !in d1
    ensures EncOk(maxbits, e)
    ensures EncRun(maxbits, e, [a, b, Z]) == Enc(d1 + [Entry(260, Z)], INIT_BITS, Z, TwoCodes())
  {
    var code := ToBits(P, INIT_BITS);
    var e1 := Enc(d1, INIT_BITS, a, code);
    var e2 := e1.(ent := 260);
    SmallEnc(maxbits, e);
    SmallEnc(maxbits, e1);
    SmallEnc(maxbits, e2);
    hide EncStep, EncOk, Small, ToBits, Pow2;
    Miss(maxbits, e, a);
    assert [] + code == code;
    Hit(maxbits, e1, b, 3);
    Miss(maxbits, e2, Z);
    ThreeSteps(maxbits, e, e1, e2, Enc(d1 + [Entry(260, Z)], INIT_BITS, Z, TwoCodes()), a, b, Z);
  }

  /** A sender that has given code 260 to the pair of Q and 0 puts it there for that pair. */
  lemma SenderCodes(maxbits: nat)
    requires INIT_BITS <= maxbits <= MAX_BITS
    ensures var d := RUNS + [Entry(Q, 0)];
            var e := Enc(d, INIT_BITS, P, []);
            && EncOk(maxbits, e)
            && EncRun(maxbits, e, [Q, 0, Z] + [Z, Z, Z])
            == Enc(d + [Entry(P, Q)] + [Entry(260, Z)], INIT_BITS, 259, TwoCodes())
  {
    hide EncOk, EncRun, EncStep, ToBits;
    var d := RUNS + [Entry(Q, 0)];
    var e := Enc(d, INIT_BITS, P, []);
    var d1 := d + [Entry(P, Q)];
    Head(maxbits, e, d1, Q, 0);
    var e3 := Enc(d1 + [Entry(260, Z)], INIT_BITS, Z, TwoCodes());
    SmallEnc(maxbits, e3);
    FourZ(maxbits, e3);
    RunConcat(maxbits, e, [Q, 0, Z], [Z, Z, Z]);
  }

  /** A receiver that knows RUNS only would put the same codes there for P three times over. */
  lemma ReceiverCodes(maxbits: nat)
    requires INIT_BITS <= maxbits <= MAX_BITS
    ensures var e := Enc(RUNS, INIT_BITS, P, []);
            && EncOk(maxbits, e)
            && EncRun(maxbits, e, [P, P, Z] + [Z, Z, Z])
            == Enc(RUNS + [Entry(P, P)] + [Entry(260, Z)], INIT_BITS, 259, TwoCodes())
  {
    hide EncOk, EncRun, EncStep, ToBits;
    var e := Enc(RUNS, INIT_BITS, P, []);
    var d1 := RUNS + [Entry(P, P)];
    Head(maxbits, e, d1, P, P);
    var e3 := Enc(d1 + [Entry(260, Z)], INIT_BITS, Z, TwoCodes());
    SmallEnc(maxbits, e3);
    FourZ(maxbits, e3);
    RunConcat(maxbits, e, [P, P, Z], [Z, Z, Z]);
  }

  // ----- What the codecs make of them -----

  /** A codec that knows d, with whatever counters. */
  predicate Knows(db: Db, d: Dict) { DbOk(db) && db.dict == d && db.nBits == INIT_BITS }

  /** Nothing is cleared, so the dictionary is the coder's. */
  lemma Absorbed(db: Db, proto: byte, data: seq<byte>)
    requires DbOk(db) && db.nBits == INIT_BITS
    requires var e := EncRun(db.maxbits, EncStart(db, proto), data); Small(e.dict) && e.width == INIT_BITS
    ensures var e := EncRun(db.maxbits, EncStart(db, proto), data);
            && Knows(Absorb(db, proto, data).0, e.dict)
            && Absorb(db, proto, data).1 == Emit(db.maxbits, e)
  {
    hide EncRun, Emit, Renew, Ratio;
    var e := EncRun(db.maxbits, EncStart(db, proto), data);
    SmallOk(db.maxbits, e.dict);
    ConcludeBits(db, e, |data| + 1);
  }

  lemma Payload(bits: seq<bool>)
    requires |bits| == 27
    ensures |Pack(PadOnes(bits))| == 4
  {
    UnpackPack(PadOnes(bits));
  }

  /** The same bits mean one thing to the sender and another to the receiver. */
  lemma SameBits(tx: Db, rx: Db)
    requires Knows(tx, RUNS + [Entry(Q, 0)]) && Knows(rx, RUNS) && tx.maxbits == rx.maxbits
    ensures Absorb(tx, P, [Q, 0, Z] + [Z, Z, Z]).1 == Absorb(rx, P, [P, P, Z] + [Z, Z, Z]).1
    ensures |Absorb(tx, P, [Q, 0, Z] + [Z, Z, Z]).1| == 27
  {
    hide EncRun, Absorb, ToBits, EncOk;
    KnowsSize(tx, RUNS + [Entry(Q, 0)]);
    SenderCodes(tx.maxbits);
    ReceiverCodes(rx.maxbits);
    Absorbed(tx, P, [Q, 0, Z] + [Z, Z, Z]);
    Absorbed(rx, P, [P, P, Z] + [Z, Z, Z]);
  }

  lemma KnowsSize(db: Db, d: Dict)
    requires Knows(db, d)
    ensures INIT_BITS <= db.maxbits <= MAX_BITS && db.seqno < 0x10000
  {
  }

  /** The packet with the pair of Q and 0 goes out compressed, and comes out with P in their place. */
  lemma TakenWrongly(tx: Db, rx: Db, mtu: nat, mru: nat)
    requires Knows(tx, RUNS + [Entry(Q, 0)]) && Knows(rx, RUNS) && tx.seqno == rx.seqno && tx.maxbits == rx.maxbits
    requires mtu >= 6 && mru >= 6
    ensures var out := Compress(tx, Packet(P, [Q, 0, Z] + [Z, Z, Z]), mtu + HDRLEN).2;
            out.Some? && Decompress(rx, out.value, mru).1 == Ok(Packet(P, [P, P, Z] + [Z, Z, Z]))
  {
    hide Absorb, Decompress, DbOk, Pack, PadOnes;
    var data, data' := [Q, 0, Z] + [Z, Z, Z], [P, P, Z] + [Z, Z, Z];
    PacketIs(P, data, mru);
    SameBits(tx, rx);
    Payload(Absorb(tx, P, data).1);
    KnowsSize(tx, RUNS + [Entry(Q, 0)]);
    var wire := Compress(tx, Packet(P, data), mtu + HDRLEN).2.value;
    DecompressMessage(rx, mru, P, data', wire);
    assert [0xff, 3, 0] + ([P] + data') == Packet(P, data');
  }

  lemma FirstHalf(maxbits: nat, e: Enc)
    requires INIT_BITS <= maxbits <= MAX_BITS && e == Enc([], INIT_BITS, Z, e.bits)
    ensures EncOk(maxbits, e)
    ensures var e3 := EncRun(maxbits, e, [Z, Z, Z]);
            Small(e3.dict) && e3 == Enc([Entry(Z, Z), Entry(257, Z)], INIT_BITS, Z, e3.bits)
  {
    hide EncStep, EncRun, EncOk, ToBits, Pow2;
    SmallEnc(maxbits, e);
    Miss(maxbits, e, Z);
    var e1 := EncStep(maxbits, e, Z);
    assert e1 == Enc([Entry(Z, Z)], INIT_BITS, Z, e1.bits);
    LearnsThree(maxbits, e, e1);
  }

  lemma LearnsThree(maxbits: nat, e: Enc, e1: Enc)
    requires EncOk(maxbits, e) && EncStep(maxbits, e, Z) == e1 == Enc([Entry(Z, Z)], INIT_BITS, Z, e1.bits)
    requires INIT_BITS <= maxbits <= MAX_BITS
    ensures var e3 := EncRun(maxbits, e, [Z, Z, Z]);
            Small(e3.dict) && e3 == Enc([Entry(Z, Z), Entry(257, Z)], INIT_BITS, Z, e3.bits)
  {
    hide EncStep, EncRun, EncOk, ToBits, Pow2;
    SmallEnc(maxbits, e1);
    Hit(maxbits, e1, Z, 0);
    var e2 := EncStep(maxbits, e1, Z);
    SmallEnc(maxbits, e2);
    Miss(maxbits, e2, Z);
    ThreeSteps(maxbits, e, e1, e2, EncStep(maxbits, e2, Z), Z, Z, Z);
  }

  lemma SecondHalf(maxbits: nat, e: Enc)
    requires INIT_BITS <= maxbits <= MAX_BITS && e == Enc([Entry(Z, Z), Entry(257, Z)], INIT_BITS, Z, e.bits)
    ensures EncOk(maxbits, e)
    ensures var e3 := EncRun(maxbits, e, [Z, Z, Z]); Small(e3.dict) && e3 == Enc(RUNS, INIT_BITS, Z, e3.bits)
  {
    hide EncStep, EncRun, EncOk, ToBits;
    SmallEnc(maxbits, e);
    Hit(maxbits, e, Z, 0);
    var e1 := EncStep(maxbits, e, Z);
    SmallEnc(maxbits, e1);
    Hit(maxbits, e1, Z, 1);
    var e2 := EncStep(maxbits, e1, Z);
    SmallEnc(maxbits, e2);
    Miss(maxbits, e2, Z);
    ThreeSteps(maxbits, e, e1, e2, EncStep(maxbits, e2, Z), Z, Z, Z);
  }

  lemma LearnsRuns(db: Db)
    requires Knows(db, [])
    ensures Knows(Absorb(db, Z, [Z, Z, Z] + [Z, Z, Z]).0, RUNS)
  {
    hide EncRun, EncOk, Absorb, Small;
    KnowsSize(db, []);
    var mb, e := db.maxbits, EncStart(db, Z);
    FirstHalf(mb, e);
    SecondHalf(mb, EncRun(mb, e, [Z, Z, Z]));
    RunConcat(mb, e, [Z, Z, Z], [Z, Z, Z]);
    Absorbed(db, Z, [Z, Z, Z] + [Z, Z, Z]);
  }

  lemma LearnsNothing(db: Db, d: Dict)
    requires Knows(db, d) && Small(d)
    ensures Knows(Absorb(db, Z, []).0, d)
  {
    Absorbed(db, Z, []);
  }

  lemma LearnsPair(db: Db)
    requires Knows(db, RUNS)
    ensures Knows(Absorb(db, Q, [0]).0, RUNS + [Entry(Q, 0)])
  {
    var mb, e := db.maxbits, EncStart(db, Q);
    SmallEnc(mb, e);
    Miss(mb, e, 0);
    RunOne(mb, e, [], 0);
    assert [] + [0] == [0];
    hide EncStep, EncOk;
    Absorbed(db, Q, [0]);
  }

  // ----- On the link -----

  lemma {:induction false} RunsJoin(l: Link, a: seq<Event>, b: seq<Event>)
    requires LinkOk(l) && Admissible(l, a) && Admissible(Run(l, a), b)
    ensures Admissible(l, a + b) && Run(l, a + b) == Run(Run(l, a), b)
    decreases |a|
  {
    hide Step, LinkOk, Enabled, CompressedNext, Detectable;
    if a == [] {
      assert a + b == b;
    } else {
      RunsJoin(Step(l, a[0]), a[1..], b);
      assert (a + b)[0] == a[0] && (a + b)[1..] == a[1..] + b;
    }
  }

  lemma OneEvent(l: Link, e: Event)
    requires LinkOk(l) && Enabled(l, e) && !e.Deliver?
    ensures Admissible(l, [e]) && Run(l, [e]) == Step(l, e)
  {
    hide Step, LinkOk, Enabled;
    assert [e][1..] == [];
    assert Admissible(Step(l, e), []);
  }

  /** A packet sent and taken off the link at once. */
  function Exchange(pkt: seq<byte>, lost: bool): seq<Event> { [Send(pkt, lost), Deliver] }

  /** Nothing is under way; the sender's codec is tx and the losses add up to gap. */
  ghost predicate Rests(l: Link, tx: Db, gap: nat)
  {
    Inv(l) && l.chan == [] && !l.b.error && l.a.tx == tx && l.mirror == tx && l.gap == gap
  }

  lemma Exchanged(l: Link, tx: Db, gap: nat, pkt: seq<byte>, lost: bool)
    requires Rests(l, tx, gap) && Sendable(pkt, l.b.mru) && Compressible(pkt) && !IsResetAck(pkt)
    requires lost || gap == 0
    ensures DbOk(tx) && Admissible(l, Exchange(pkt, lost))
    ensures var l' := Run(l, Exchange(pkt, lost));
            && Rests(l', Moved(tx, pkt), if lost then gap + 1 else gap)
            && l'.a.mtu == l.a.mtu && l'.b.mru == l.b.mru
            && (lost ==> l'.b == l.b)
  {
    hide Moved, WireOf, Receive, Tracks, Sendable, IsResetAck, Compressible, Faithful, Transmit, DbOk;
    var e := Send(pkt, lost);
    LinkSays(l);
    TransmitIs(l.a, pkt, l.b.mru);
    SendKeeps(l, pkt, lost);
    var l1 := Step(l, e);
    assert l1.chan == [Item(pkt, WireOf(tx, pkt, l.a.mtu), lost)];
    DeliverKeeps(l1);
    var l2 := Step(l1, Deliver);
    assert l2.chan == [];
    if !lost {
      ReceiveKeeps(l1.b, tx, 0, pkt, l.a.mtu);
    }
    assert Exchange(pkt, lost)[1..] == [Deliver] && [Deliver][1..] == [];
    assert Admissible(l2, []);
  }

  lemma MovedIs(db: Db, proto: byte, data: seq<byte>, mru: nat)
    requires DbOk(db) && 0x21 <= proto <= 0xf9 && |data| <= mru
    ensures var pkt := Packet(proto, data);
            && Sendable(pkt, mru) && Compressible(pkt) && !IsResetAck(pkt)
            && Moved(db, pkt) == Absorb(db, proto, data).0
  {
    hide Absorb;
    PacketIs(proto, data, mru);
  }

  /** n packets without data are lost: the sender learns nothing, and the receiver does not move. */
  lemma {:induction false} LoseMany(l: Link, tx: Db, gap: nat, n: nat) returns (es: seq<Event>, tx': Db)
    requires Rests(l, tx, gap) && Knows(tx, RUNS)
    ensures LinkOk(l) && Admissible(l, es) && Knows(tx', RUNS)
    ensures var l' := Run(l, es); Rests(l', tx', gap + n) && l'.b == l.b && l'.a.mtu == l.a.mtu
    decreases n
  {
    hide Inv, Absorb, Knows, Moved;
    InvLinkOk(l);
    if n == 0 {
      es, tx' := [], tx;
    } else {
      KnowsOk(tx, RUNS);
      MovedIs(tx, Z, [], l.b.mru);
      LearnsNothing(tx, RUNS);
      var pkt := Packet(Z, []);
      Exchanged(l, tx, gap, pkt, true);
      var more;
      more, tx' := LoseMany(Run(l, Exchange(pkt, true)), Moved(tx, pkt), gap + 1, n - 1);
      RunsJoin(l, Exchange(pkt, true), more);
      es := Exchange(pkt, true) + more;
    }
  }

  lemma KnowsOk(db: Db, d: Dict)
    requires Knows(db, d)
    ensures DbOk(db)
  {
  }

  lemma KnowsNothing(maxbits: nat)
    requires INIT_BITS <= maxbits <= MAX_BITS
    ensures Knows(Initial(maxbits), []) && DbOk(Initial(maxbits))
  {
    InitialOk(maxbits);
  }

  /** Both ends learn RUNS, and then 65536 * k packets are lost, the last of which gives the sender code 260. */
  lemma Diverged(maxbits: nat, mtu: nat, mru: nat, k: nat) returns (es: seq<Event>, tx: Db)
    requires INIT_BITS <= maxbits <= MAX_BITS && mru >= 6 && k > 0
    ensures Inv(Start(maxbits, mtu, mru)) && Admissible(Start(maxbits, mtu, mru), es)
    ensures var l := Run(Start(maxbits, mtu, mru), es);
            && Rests(l, tx, 0x10000 * k) && Knows(tx, RUNS + [Entry(Q, 0)]) && Knows(l.b.rx, RUNS)
            && l.a.mtu == mtu && l.b.mru == mru
  {
    hide Inv, Absorb, Moved, Knows;
    var l0, tx0 := Start(maxbits, mtu, mru), Initial(maxbits);
    StartOk(maxbits, mtu, mru);
    InvLinkOk(l0);
    KnowsNothing(maxbits);
    var p0 := Packet(Z, [Z, Z, Z] + [Z, Z, Z]);
    MovedIs(tx0, Z, [Z, Z, Z] + [Z, Z, Z], mru);
    LearnsRuns(tx0);
    Exchanged(l0, tx0, 0, p0, false);
    var l1, tx1 := Run(l0, Exchange(p0, false)), Moved(tx0, p0);
    InStepAtRest(l1, tx1);
    var lost, tx2 := LoseMany(l1, tx1, 0, 0x10000 * k - 1);
    var l2 := Run(l1, lost);
    var p1 := Packet(Q, [0]);
    KnowsOk(tx2, RUNS);
    MovedIs(tx2, Q, [0], mru);
    LearnsPair(tx2);
    Exchanged(l2, tx2, 0x10000 * k - 1, p1, true);
    RunsJoin(l0, Exchange(p0, false), lost);
    RunsJoin(l0, Exchange(p0, false) + lost, Exchange(p1, true));
    es, tx := Exchange(p0, false) + lost + Exchange(p1, true), Moved(tx2, p1);
  }

  /** Without losses the receiver at rest has the sender's codec. */
  lemma InStepAtRest(l: Link, tx: Db)
    requires Rests(l, tx, 0)
    ensures l.b.rx == tx
  {
  }

  /**
   * After any nonzero multiple of 65536 losses there is a run in which the next packet is handed
   * up as decompressed although it is not what was sent.
   */
  lemma WrongAfterWrap(maxbits: nat, mtu: nat, mru: nat, k: nat) returns (es: seq<Event>)
    requires INIT_BITS <= maxbits <= MAX_BITS && mtu >= 6 && mru >= 6 && k > 0
    ensures Inv(Start(maxbits, mtu, mru)) && Admissible(Start(maxbits, mtu, mru), es)
    ensures var l := Run(Start(maxbits, mtu, mru), es);
            && Inv(l) && CompressedNext(l) && l.gap == 0x10000 * k
            && Step(l, Deliver).log == l.log + [Delivery(Packet(P, [Q, 0, Z] + [Z, Z, Z]),
                                                         Decompressed(Packet(P, [P, P, Z] + [Z, Z, Z])))]
  {
    hide Inv, Start, Step, Knows;
    var l0 := Start(maxbits, mtu, mru);
    var es1, tx := Diverged(maxbits, mtu, mru, k);
    InvLinkOk(l0);
    var l1 := Run(l0, es1);
    SameCount(l1, tx, k);
    LastPacket(l1, tx, 0x10000 * k);
    var last := Send(Packet(P, [Q, 0, Z] + [Z, Z, Z]), false);
    OneEvent(l1, last);
    RunsJoin(l0, es1, [last]);
    es := es1 + [last];
  }

  lemma LastPacket(l: Link, tx: Db, gap: nat)
    requires Rests(l, tx, gap) && Knows(tx, RUNS + [Entry(Q, 0)]) && Knows(l.b.rx, RUNS)
    requires l.b.rx.seqno == tx.seqno && l.b.rx.maxbits == tx.maxbits && l.a.mtu >= 6 && l.b.mru >= 6
    ensures var pkt := Packet(P, [Q, 0, Z] + [Z, Z, Z]);
            && LinkOk(l) && Enabled(l, Send(pkt, false))
            && var l' := Step(l, Send(pkt, false));
               && Inv(l') && CompressedNext(l') && l'.gap == gap
               && Step(l', Deliver).log == l'.log + [Delivery(pkt, Decompressed(Packet(P, [P, P, Z] + [Z, Z, Z])))]
  {
    hide Absorb, Moved, Chain, Faithful, Knows, Compress, Decompress, Packet, Tracks, IsResetAck, Transmit, Protocol;
    var pkt, mtu := Packet(P, [Q, 0, Z] + [Z, Z, Z]), l.a.mtu;
    TakenWrongly(tx, l.b.rx, mtu, l.b.mru);
    KnowsOk(tx, RUNS + [Entry(Q, 0)]);
    MovedIs(tx, P, [Q, 0, Z] + [Z, Z, Z], l.b.mru);
    TransmitIs(l.a, pkt, l.b.mru);
    SendKeeps(l, pkt, false);
    CompressedForm(tx, pkt, mtu + HDRLEN);
    WireDiffers(tx, pkt, mtu);
  }

  /** After a multiple of 65536 losses the numbers agree again. */
  lemma SameCount(l: Link, tx: Db, k: nat)
    requires Rests(l, tx, 0x10000 * k)
    ensures l.b.rx.seqno == tx.seqno && l.b.rx.maxbits == tx.maxbits
  {
    hide Chain, Behind, Faithful, DbOk;
    LinkSays(l);
    BoundedNumber(tx);
    WholeTurns(k);
    SameNumber(l.b.rx, tx.seqno, 0x10000 * k);
  }

  lemma WholeTurns(k: nat)
    ensures 0x10000 * k % 0x10000 == 0
  {
  }
}
