/**
 Two compression modules over an in-order link that may lose data packets but
 delivers Reset-Acks, with CCP open throughout.  Nothing is ever handed up as
 decompressed that differs from the packet sent.
 */
module CcpLink {
  import opened Bits
  import opened BsdSpec
  import opened BsdRoundTrip
  import opened PppComp

  /** A packet under way: what was sent, its form on the wire, and whether the link will lose it. */
  datatype Item = Item(sent: seq<byte>, wire: seq<byte>, lost: bool)

  /** What came out at the far end, beside the packet that was sent. */
  datatype Delivery = Delivery(sent: seq<byte>, up: Up)

  /**
   The whole link.  `a` sends and `b` receives.  Two fields are bookkeeping for
   the proof: `mirror` is the sender's codec as it was when the item now at the
   head of the channel was sent, and `gap` counts the packets with a sequence
   number that were lost since the last reset that `b` saw.
   */
  datatype Link = Link(a: Comp, b: Comp, chan: seq<Item>, log: seq<Delivery>, mirror: Db, gap: nat)

  /** Packets that may be sent: data, or the reset packets of CCP. */
  predicate Sendable(pkt: seq<byte>, mru: nat)
  {
    && HDRLEN <= |pkt| <= mru + HDRLEN
    && Protocol(pkt) != PPP_COMP as nat
    && (Protocol(pkt) == PPP_CCP && WholeCcp(pkt) ==> pkt[HDRLEN] == CCP_RESETREQ || pkt[HDRLEN] == CCP_RESETACK)
  }

  datatype Event = Send(pkt: seq<byte>, lost: bool) | Deliver

  /** How sending a packet moves the sender's codec. */
  function Moved(db: Db, pkt: seq<byte>): (r: Db)
    requires DbOk(db)
    ensures DbOk(r) && r.maxbits == db.maxbits
  {
    if IsResetAck(pkt) then
      ResetOk(db);
      Reset(db)
    else Incomp(db, pkt)
  }

  predicate Enabled(l: Link, e: Event)
  {
    match e
    case Send(pkt, lost) => Sendable(pkt, l.b.mru) && (IsResetAck(pkt) ==> !lost)
    case Deliver => l.chan != []
  }

  ghost predicate LinkOk(l: Link) {
    && CompOk(l.a) && CompOk(l.b) && DbOk(l.mirror)
    && forall i | 0 <= i < |l.chan| :: |l.chan[i].wire| >= HDRLEN
  }

  /** One step of the link. */
  function Step(l: Link, e: Event): (r: Link)
    requires LinkOk(l) && Enabled(l, e)
    ensures LinkOk(r)
  {
    match e
    case Send(pkt, lost) =>
      var (a, wire) := Transmit(l.a, pkt);
      WireHasHeader(l.a, pkt);
      l.(a := a, chan := l.chan + [Item(pkt, wire, lost)])
    case Deliver =>
      var item := l.chan[0];
      var rest := l.(chan := l.chan[1..], mirror := Moved(l.mirror, item.sent));
      if item.lost then
        rest.(gap := if Compressible(item.sent) then l.gap + 1 else l.gap)
      else
        var (b, up) := Receive(l.b, item.wire);
        rest.(b := b, log := l.log + [Delivery(item.sent, up)], gap := if IsResetAck(item.sent) then 0 else l.gap)
  }

  lemma WireHasHeader(c: Comp, pkt: seq<byte>)
    requires CompOk(c) && |pkt| >= HDRLEN
    ensures |Transmit(c, pkt).1| >= HDRLEN
  {
  }

  // ----- The invariant -----

  /** The items under way are what a sender starting from codec m puts on the wire, ending in codec tx. */
  ghost predicate Chain(m: Db, chan: seq<Item>, tx: Db, mtu: nat, mru: nat)
    decreases |chan|
  {
    && DbOk(m)
    && if chan == [] then m == tx
       else
         var item := chan[0];
         && Sendable(item.sent, mru)
         && (IsResetAck(item.sent) ==> !item.lost)
         && item.wire == WireOf(m, item.sent, mtu)
         && Chain(Moved(m, item.sent), chan[1..], tx, mtu, mru)
  }

  /** The wire form of a packet while CCP is up. */
  function WireOf(m: Db, pkt: seq<byte>, mtu: nat): seq<byte>
    requires DbOk(m)
  {
    var out := Compress(m, pkt, mtu + HDRLEN).2;
    if out.Some? then out.value else pkt
  }

  /** Both ends are up and compressing. */
  predicate Open(l: Link)
  {
    l.a.isUp && l.a.compRun && l.b.isUp && l.b.decompRun && !l.b.fatalError && l.a.tx.maxbits == l.b.rx.maxbits
  }

  /** Sequence number x is gap packets behind y, modulo 65536. */
  predicate Behind(x: nat, gap: nat, y: nat) { (x + gap) % 0x10000 == y }

  /** The receiver is behind by exactly the packets lost; with none lost it equals the sender at that point. */
  ghost predicate Tracks(b: Comp, mirror: Db, gap: nat)
  {
    && b.rx.maxbits == mirror.maxbits
    && (!b.error ==> Behind(b.rx.seqno, gap, mirror.seqno))
    && (!b.error && gap == 0 ==> b.rx == mirror)
  }

  ghost predicate Faithful(log: seq<Delivery>)
  {
    forall i | 0 <= i < |log| && log[i].up.Decompressed? :: log[i].up.pkt == log[i].sent
  }

  ghost predicate Inv(l: Link)
  {
    && LinkOk(l)
    && Open(l)
    && Chain(l.mirror, l.chan, l.a.tx, l.a.mtu, l.b.mru)
    && Tracks(l.b, l.mirror, l.gap)
    && Faithful(l.log)
  }

  /** The losses so far do not add up to a multiple of the sequence number space. */
  predicate Detectable(l: Link) { l.gap == 0 || l.gap % 0x10000 != 0 }

  // ----- Sending keeps the invariant -----

  lemma TransmitIs(a: Comp, pkt: seq<byte>, mru: nat)
    requires CompOk(a) && a.isUp && a.compRun && Sendable(pkt, mru)
    ensures Transmit(a, pkt) == (a.(tx := Moved(a.tx, pkt)), WireOf(a.tx, pkt, a.mtu))
  {
    hide Absorb, DbOk;
    if Compressible(pkt) {
      LockStep(a.tx, pkt, a.mtu + HDRLEN, mru);
    }
  }

  lemma {:induction false} ChainAppend(m: Db, chan: seq<Item>, tx: Db, mtu: nat, mru: nat, item: Item)
    requires Chain(m, chan, tx, mtu, mru) && DbOk(tx)
    requires Sendable(item.sent, mru) && (IsResetAck(item.sent) ==> !item.lost)
             && item.wire == WireOf(tx, item.sent, mtu)
    ensures Chain(m, chan + [item], Moved(tx, item.sent), mtu, mru)
    decreases |chan|
  {
    hide WireOf, Moved, DbOk, Sendable, IsResetAck;
    var chan' := chan + [item];
    if chan == [] {
      assert chan'[1..] == [];
    } else {
      assert chan'[1..] == chan[1..] + [item];
      ChainAppend(Moved(m, chan[0].sent), chan[1..], tx, mtu, mru, item);
    }
  }

  lemma SendKeeps(l: Link, pkt: seq<byte>, lost: bool)
    requires Inv(l) && Enabled(l, Send(pkt, lost))
    ensures Inv(Step(l, Send(pkt, lost)))
  {
    hide Chain, Moved, WireOf, DbOk, Transmit;
    TransmitIs(l.a, pkt, l.b.mru);
    ChainAppend(l.mirror, l.chan, l.a.tx, l.a.mtu, l.b.mru, Item(pkt, WireOf(l.a.tx, pkt, l.a.mtu), lost));
  }

  // ----- Delivering keeps the invariant -----

  lemma MovedSeqno(m: Db, pkt: seq<byte>)
    requires DbOk(m) && !IsResetAck(pkt)
    ensures Moved(m, pkt).seqno == if Compressible(pkt) then (m.seqno + 1) % 0x10000 else m.seqno
    ensures !Compressible(pkt) ==> Moved(m, pkt) == m
  {
    hide Absorb, DbOk;
    if Compressible(pkt) {
      AbsorbNumber(m, pkt[3], pkt[HDRLEN..]);
    }
  }

  lemma AbsorbNumber(m: Db, proto: byte, data: seq<byte>)
    requires DbOk(m)
    ensures Absorb(m, proto, data).0.seqno == (m.seqno + 1) % 0x10000
  {
    hide EncRun, DictOk, WidthOk, Ratio, Renew;
  }

  lemma BehindSteps(x: nat, gap: nat, y: nat)
    requires Behind(x, gap, y)
    ensures Behind(x, gap + 1, (y + 1) % 0x10000)
    ensures Behind((x + 1) % 0x10000, gap, (y + 1) % 0x10000)
  {
  }

  lemma LossKeepsTracking(b: Comp, m: Db, gap: nat, pkt: seq<byte>)
    requires CompOk(b) && DbOk(m) && Tracks(b, m, gap) && !IsResetAck(pkt)
    ensures Tracks(b, Moved(m, pkt), if Compressible(pkt) then gap + 1 else gap)
  {
    hide Moved, DbOk, Compressible, IsResetAck, Behind;
    MovedSeqno(m, pkt);
    if !b.error {
      BehindSteps(b.rx.seqno, gap, m.seqno);
    }
  }

  lemma PlainMoves(m: Db, pkt: seq<byte>)
    requires DbOk(m) && !IsResetAck(pkt)
    ensures Moved(m, pkt) == Incomp(m, pkt)
  {
  }

  /** A packet that came uncompressed. */
  lemma PlainKeepsTracking(b: Comp, m: Db, gap: nat, pkt: seq<byte>)
    requires CompOk(b) && DbOk(m) && Tracks(b, m, gap) && !IsResetAck(pkt)
    ensures Tracks(b.(rx := Incomp(b.rx, pkt)), Moved(m, pkt), gap)
  {
    hide Moved, DbOk, Compressible, IsResetAck, Incomp, Behind;
    MovedSeqno(m, pkt);
    MovedSeqno(b.rx, pkt);
    PlainMoves(b.rx, pkt);
    if !b.error {
      BehindSteps(b.rx.seqno, gap, m.seqno);
    }
  }

  /** A compressed packet: in step it is restored, and after a loss its number is wrong. */
  lemma CompressedKeepsTracking(b: Comp, m: Db, gap: nat, pkt: seq<byte>, maxolen: nat)
    requires CompOk(b) && DbOk(m) && Tracks(b, m, gap)
    requires |pkt| <= b.mru + HDRLEN && Compress(m, pkt, maxolen).2.Some?
    requires b.isUp && b.decompRun && !b.fatalError
    requires gap == 0 || gap % 0x10000 != 0
    ensures var wire := Compress(m, pkt, maxolen).2.value;
            && |wire| >= HDRLEN
            && var (b', up) := Receive(b, wire);
               && Tracks(b', Moved(m, pkt), gap)
               && (b.error ==> b' == b && up == Passed(wire))
               && (!b.error && gap == 0 ==> !b'.error && up == Decompressed(pkt))
               && (!b.error && gap != 0 ==> b'.error && up == Passed(wire))
               && b' == b.(rx := b'.rx, error := b'.error)
  {
    hide Compress, Moved, DbOk, Compressible, IsResetAck, Decompress, Behind, Protocol, Incomp;
    CompressedForm(m, pkt, maxolen);
    var wire := Compress(m, pkt, maxolen).2.value;
    if !b.error {
      if gap == 0 {
        LockStep(m, pkt, maxolen, b.mru);
        MovedSeqno(m, pkt);
        BehindSteps(b.rx.seqno, gap, m.seqno);
      } else {
        WrongNumber(b.rx, m.seqno, gap, wire, b.mru);
      }
    }
  }

  lemma CompressedForm(m: Db, pkt: seq<byte>, maxolen: nat)
    requires DbOk(m) && Compress(m, pkt, maxolen).2.Some?
    ensures var wire := Compress(m, pkt, maxolen).2.value;
            && |wire| > HDRLEN + OVHD
            && wire[4] as nat * 256 + wire[5] == m.seqno
            && Protocol(wire) == PPP_COMP as nat
    ensures Compressible(pkt) && !IsResetAck(pkt) && Moved(m, pkt) == Compress(m, pkt, maxolen).0
  {
    NonEmptyPayload(m, pkt[3], pkt[HDRLEN..]);
    hide Absorb, Pack, PadOnes;
  }

  lemma SameNumber(rx: Db, seqno: nat, gap: nat)
    requires DbOk(rx) && seqno < 0x10000 && Behind(rx.seqno, gap, seqno)
    ensures rx.seqno == seqno <==> gap % 0x10000 == 0
  {
  }

  lemma WrongNumber(rx: Db, seqno: nat, gap: nat, wire: seq<byte>, mru: nat)
    requires DbOk(rx) && seqno < 0x10000 && Behind(rx.seqno, gap, seqno) && gap % 0x10000 != 0
    requires |wire| > HDRLEN + OVHD && wire[4] as nat * 256 + wire[5] == seqno
    ensures Decompress(rx, wire, mru) == (NextSeq(rx), DecompError)
  {
    SameNumber(rx, seqno, gap);
  }

  /** A Reset-Ack puts both codecs into the same state, whatever state the receiver was in. */
  lemma ResetRestores(b: Comp, m: Db, ack: seq<byte>)
    requires CompOk(b) && DbOk(m) && b.rx.maxbits == m.maxbits
    requires IsResetAck(ack) && b.isUp && b.decompRun
    ensures Receive(b, ack) == (b.(rx := Moved(m, ack), error := false), Passed(ack))
    ensures Tracks(Receive(b, ack).0, Moved(m, ack), 0)
  {
    ResetOk(b.rx);
    ResetOk(m);
  }

  /** A compressed packet is about to arrive. */
  predicate CompressedNext(l: Link)
  {
    l.chan != [] && !l.chan[0].lost && l.chan[0].wire != l.chan[0].sent
  }

  /** What Receive does with each kind of packet that can be on the link. */
  lemma ReceiveKeeps(b: Comp, m: Db, gap: nat, pkt: seq<byte>, mtu: nat)
    requires CompOk(b) && DbOk(m) && Tracks(b, m, gap)
    requires b.isUp && b.decompRun && !b.fatalError
    requires Sendable(pkt, b.mru) && |WireOf(m, pkt, mtu)| >= HDRLEN
    requires WireOf(m, pkt, mtu) != pkt ==> gap == 0 || gap % 0x10000 != 0
    ensures var wire := WireOf(m, pkt, mtu);
            var (b', up) := Receive(b, wire);
            && Tracks(b', Moved(m, pkt), if IsResetAck(pkt) then 0 else gap)
            && b' == b.(rx := b'.rx, error := b'.error)
            && (up.Decompressed? ==> up.pkt == pkt)
            && (!b.error && gap == 0 ==> !b'.error && up.pkt == pkt)
            && (wire != pkt && b.error ==> b'.error && up == Passed(wire))
            && (wire != pkt && gap != 0 ==> b'.error && up == Passed(wire))
            && (wire == pkt ==> up == Passed(pkt) && b'.error == (b.error && !IsResetAck(pkt)))
  {
    var wire := WireOf(m, pkt, mtu);
    if IsResetAck(pkt) {
      NotCompressed(m, pkt, mtu);
      ResetRestores(b, m, pkt);
    } else if Protocol(pkt) == PPP_CCP {
      NotCompressed(m, pkt, mtu);
      MovedSeqno(m, pkt);
    } else if Compress(m, pkt, mtu + HDRLEN).2.Some? {
      WireDiffers(m, pkt, mtu);
      hide Compress, DbOk, Moved, Receive, Tracks, Sendable, IsResetAck;
      CompressedKeepsTracking(b, m, gap, pkt, mtu + HDRLEN);
    } else {
      hide Compress, DbOk, Moved, Tracks, Incomp, IsResetAck;
      PlainKeepsTracking(b, m, gap, pkt);
    }
  }

  lemma NotCompressed(m: Db, pkt: seq<byte>, mtu: nat)
    requires DbOk(m) && |pkt| >= HDRLEN && Protocol(pkt) == PPP_CCP
    ensures WireOf(m, pkt, mtu) == pkt && !Compressible(pkt)
  {
  }

  lemma WireDiffers(m: Db, pkt: seq<byte>, mtu: nat)
    requires DbOk(m) && Compress(m, pkt, mtu + HDRLEN).2.Some?
    ensures WireOf(m, pkt, mtu) == Compress(m, pkt, mtu + HDRLEN).2.value != pkt
  {
    CompressedForm(m, pkt, mtu + HDRLEN);
    hide Compress, DbOk;
  }

  lemma ChainTail(l: Link)
    requires Inv(l) && l.chan != []
    ensures Chain(Moved(l.mirror, l.chan[0].sent), l.chan[1..], l.a.tx, l.a.mtu, l.b.mru)
    ensures l.chan[0].wire == WireOf(l.mirror, l.chan[0].sent, l.a.mtu) && Sendable(l.chan[0].sent, l.b.mru)
    ensures IsResetAck(l.chan[0].sent) ==> !l.chan[0].lost
  {
    hide Sendable, WireOf, Moved, IsResetAck;
  }

  lemma FaithfulAppend(log: seq<Delivery>, d: Delivery)
    requires Faithful(log) && (d.up.Decompressed? ==> d.up.pkt == d.sent)
    ensures Faithful(log + [d])
  {
  }

  lemma SameSize(b: Comp, m: Db, gap: nat)
    requires Tracks(b, m, gap)
    ensures b.rx.maxbits == m.maxbits
  {
  }

  lemma LinkSays(l: Link)
    requires LinkOk(l)
    ensures CompOk(l.a) && CompOk(l.b) && DbOk(l.mirror) && (l.chan != [] ==> |l.chan[0].wire| >= HDRLEN)
  {
  }

  lemma DeliverKeeps(l: Link)
    requires Inv(l) && l.chan != []
    requires CompressedNext(l) ==> Detectable(l)
    ensures Inv(Step(l, Deliver))
  {
    hide DbOk, Moved, WireOf, Receive, Tracks, Sendable, IsResetAck, Compressible, Chain, Faithful, LinkOk;
    var item := l.chan[0];
    LinkSays(l);
    ChainTail(l);
    SameSize(l.b, l.mirror, l.gap);
    if item.lost {
      LossKeepsTracking(l.b, l.mirror, l.gap, item.sent);
    } else {
      ReceiveKeeps(l.b, l.mirror, l.gap, item.sent, l.a.mtu);
      var b := Receive(l.b, item.wire).0;
      SameSize(b, Moved(l.mirror, item.sent), if IsResetAck(item.sent) then 0 else l.gap);
      FaithfulAppend(l.log, Delivery(item.sent, Receive(l.b, item.wire).1));
    }
  }

  // ----- Whole runs -----

  lemma StepKeeps(l: Link, e: Event)
    requires Inv(l) && Enabled(l, e) && (e.Deliver? && CompressedNext(l) ==> Detectable(l))
    ensures Inv(Step(l, e))
  {
    hide Inv, Step;
    match e {
      case Send(pkt, lost) => SendKeeps(l, pkt, lost);
      case Deliver => DeliverKeeps(l);
    }
  }

  /** Every step is possible, and no compressed packet arrives when the losses are a multiple of 65536. */
  ghost predicate Admissible(l: Link, es: seq<Event>)
    requires LinkOk(l)
    decreases |es|
  {
    es == [] ||
    (&& Enabled(l, es[0])
     && (es[0].Deliver? && CompressedNext(l) ==> Detectable(l))
     && Admissible(Step(l, es[0]), es[1..]))
  }

  ghost function Run(l: Link, es: seq<Event>): (r: Link)
    requires LinkOk(l) && Admissible(l, es)
    ensures LinkOk(r)
    decreases |es|
  {
    if es == [] then l else Run(Step(l, es[0]), es[1..])
  }

  function Start(maxbits: nat, mtu: nat, mru: nat): Link
  {
    var end := Comp(true, true, true, true, false, false, mtu, mru, Initial(maxbits), Initial(maxbits));
    Link(end, end, [], [], Initial(maxbits), 0)
  }

  lemma StartOk(maxbits: nat, mtu: nat, mru: nat)
    requires INIT_BITS <= maxbits <= MAX_BITS
    ensures Inv(Start(maxbits, mtu, mru))
  {
    InitialOk(maxbits);
  }

  /**
   In every admissible run, whatever is lost, everything handed up as
   decompressed is the packet that was sent, and no fatal error is raised.
   */
  lemma {:induction false} NeverWrong(l: Link, es: seq<Event>)
    requires Inv(l) && Admissible(l, es)
    ensures Inv(Run(l, es)) && Faithful(Run(l, es).log) && !Run(l, es).b.fatalError
    decreases |es|
  {
    hide Step, Chain, Tracks, DbOk, Enabled, Detectable;
    if es != [] {
      StepKeeps(l, es[0]);
      NeverWrong(Step(l, es[0]), es[1..]);
    }
  }

  /** After a loss the next compressed packet raises the error and is not handed up as decompressed. */
  lemma LossDetected(l: Link)
    requires Inv(l) && CompressedNext(l) && l.gap != 0 && Detectable(l)
    ensures var l' := Step(l, Deliver);
            l'.b.error && l'.log == l.log + [Delivery(l.chan[0].sent, Passed(l.chan[0].wire))]
  {
    hide DbOk, Moved, WireOf, Receive, Tracks, Sendable, IsResetAck, Compressible;
    ReceiveKeeps(l.b, l.mirror, l.gap, l.chan[0].sent, l.a.mtu);
  }

  /**
   The exact test: a compressed packet that arrives is refused, and the error
   raised, if and only if the numbered packets lost since the last reset are not
   a multiple of 65536.
   */
  lemma RefusedIff(l: Link)
    requires Inv(l) && CompressedNext(l) && !l.b.error
    ensures Decompress(l.b.rx, l.chan[0].wire, l.b.mru).1 == DecompError <==> l.gap % 0x10000 != 0
    ensures Step(l, Deliver).b.error <==> l.gap % 0x10000 != 0
  {
    hide DbOk, Moved, Receive, Decompress, Tracks, Sendable, IsResetAck, Chain, Faithful, Compress;
    ChainTail(l);
    RefusedAt(l.b, l.mirror, l.gap, l.chan[0].sent, l.a.mtu + HDRLEN);
  }

  lemma RefusedAt(b: Comp, m: Db, gap: nat, pkt: seq<byte>, maxolen: nat)
    requires CompOk(b) && DbOk(m) && Tracks(b, m, gap) && !b.error
    requires b.isUp && b.decompRun && !b.fatalError && Compress(m, pkt, maxolen).2.Some?
    ensures var wire := Compress(m, pkt, maxolen).2.value;
            && |wire| >= HDRLEN
            && (Decompress(b.rx, wire, b.mru).1 == DecompError <==> gap % 0x10000 != 0)
            && (Receive(b, wire).0.error <==> gap % 0x10000 != 0)
  {
    hide Compress, Moved, DbOk, Compressible, IsResetAck, Behind, Incomp, Decode, Settle, Protocol;
    CompressedForm(m, pkt, maxolen);
    BoundedNumber(m);
    SameNumber(b.rx, m.seqno, gap);
  }

  lemma BoundedNumber(m: Db)
    requires DbOk(m)
    ensures m.seqno < 0x10000
  {
  }

  lemma OffStep(l: Link, e: Event)
    requires Inv(l) && Enabled(l, e) && l.b.error
    requires e.Deliver? && CompressedNext(l) ==> Detectable(l)
    requires !DeliversAck(l, e)
    ensures var l' := Step(l, e);
            l'.b.error && l.log <= l'.log && forall i | |l.log| <= i < |l'.log| :: l'.log[i].up.Passed?
  {
    hide DbOk, Moved, WireOf, Receive, Tracks, Sendable, IsResetAck, Compressible;
    if e.Deliver? && !l.chan[0].lost {
      ReceiveKeeps(l.b, l.mirror, l.gap, l.chan[0].sent, l.a.mtu);
    }
  }

  predicate DeliversAck(l: Link, e: Event)
  {
    e.Deliver? && l.chan != [] && !l.chan[0].lost && IsResetAck(l.chan[0].sent)
  }

  /** No Reset-Ack arrives in the run. */
  ghost predicate NoAck(l: Link, es: seq<Event>)
    requires LinkOk(l) && Admissible(l, es)
    decreases |es|
  {
    es == [] || (!DeliversAck(l, es[0]) && NoAck(Step(l, es[0]), es[1..]))
  }

  /** Once the error is raised nothing is decompressed, over any run in which no Reset-Ack arrives. */
  lemma {:induction false} OffUntilReset(l: Link, es: seq<Event>)
    requires Inv(l) && l.b.error && Admissible(l, es) && NoAck(l, es)
    ensures var l' := Run(l, es);
            l'.b.error && l.log <= l'.log && forall i | |l.log| <= i < |l'.log| :: l'.log[i].up.Passed?
    decreases |es|
  {
    hide Step, Chain, Tracks, DbOk, Enabled, Detectable, DeliversAck, CompressedNext, Faithful;
    if es != [] {
      StepKeeps(l, es[0]);
      OffStep(l, es[0]);
      OffUntilReset(Step(l, es[0]), es[1..]);
    }
  }

  /** The Reset-Ack resets both ends at the same point of the stream. */
  lemma ResetResynchronises(l: Link)
    requires Inv(l) && l.chan != [] && IsResetAck(l.chan[0].sent)
    ensures var l' := Step(l, Deliver);
            !l'.b.error && l'.gap == 0 && l'.b.rx == l'.mirror == Initial(l.a.tx.maxbits)
  {
    hide DbOk, WireOf;
    NotCompressed(l.mirror, l.chan[0].sent, l.a.mtu);
    ResetOk(l.b.rx);
    ResetOk(l.mirror);
  }

  // ----- Few losses -----

  /** Every step of the run is possible. */
  ghost predicate Possible(l: Link, es: seq<Event>)
    requires LinkOk(l)
    decreases |es|
  {
    es == [] || (Enabled(l, es[0]) && Possible(Step(l, es[0]), es[1..]))
  }

  /** The numbered packets lost since the last Reset-Ack, once pkt has been sent. */
  function Losses(n: nat, pkt: seq<byte>, lost: bool): nat
  {
    if IsResetAck(pkt) then 0 else if lost && Compressible(pkt) then n + 1 else n
  }

  /** With n lost before, fewer than 65536 are lost up to each Reset-Ack that is sent, and up to the end. */
  predicate FewLost(n: nat, es: seq<Event>)
    decreases |es|
  {
    n < 0x10000 && (es == [] || FewLost(if es[0].Send? then Losses(n, es[0].pkt, es[0].lost) else n, es[1..]))
  }

  /** The losses of the packets under way, from gap on, stay below 65536 and end at n. */
  predicate UnderWay(gap: nat, chan: seq<Item>, n: nat)
    decreases |chan|
  {
    gap < 0x10000 && if chan == [] then gap == n else UnderWay(Losses(gap, chan[0].sent, chan[0].lost), chan[1..], n)
  }

  lemma {:induction false} UnderWayAppend(gap: nat, chan: seq<Item>, n: nat, item: Item)
    requires UnderWay(gap, chan, n) && Losses(n, item.sent, item.lost) < 0x10000
    ensures UnderWay(gap, chan + [item], Losses(n, item.sent, item.lost))
    decreases |chan|
  {
    hide Losses;
    var chan' := chan + [item];
    if chan == [] {
      assert chan'[1..] == [];
    } else {
      assert chan'[1..] == chan[1..] + [item];
      UnderWayAppend(Losses(gap, chan[0].sent, chan[0].lost), chan[1..], n, item);
    }
  }

  lemma StepUnderWay(l: Link, e: Event, n: nat)
    requires Inv(l) && Enabled(l, e) && UnderWay(l.gap, l.chan, n)
    requires e.Send? ==> Losses(n, e.pkt, e.lost) < 0x10000
    ensures var l' := Step(l, e); UnderWay(l'.gap, l'.chan, if e.Send? then Losses(n, e.pkt, e.lost) else n)
    ensures Detectable(l)
  {
    hide Step, Inv, Enabled, Losses, UnderWay, LinkOk, Transmit;
    InvLinkOk(l);
    UnderWayBelow(l.gap, l.chan, n);
    if e.Send? {
      SendIs(l, e.pkt, e.lost);
      UnderWayAppend(l.gap, l.chan, n, Item(e.pkt, Transmit(l.a, e.pkt).1, e.lost));
    } else {
      DeliverIs(l);
    }
  }

  lemma UnderWayBelow(gap: nat, chan: seq<Item>, n: nat)
    requires UnderWay(gap, chan, n)
    ensures gap < 0x10000 && (chan != [] ==> UnderWay(Losses(gap, chan[0].sent, chan[0].lost), chan[1..], n))
  {
  }

  lemma SendIs(l: Link, pkt: seq<byte>, lost: bool)
    requires LinkOk(l) && Enabled(l, Send(pkt, lost))
    ensures |pkt| >= HDRLEN && CompOk(l.a)
    ensures var l' := Step(l, Send(pkt, lost));
            l'.gap == l.gap && l'.chan == l.chan + [Item(pkt, Transmit(l.a, pkt).1, lost)]
  {
    hide Transmit;
  }

  lemma DeliverIs(l: Link)
    requires Inv(l) && Enabled(l, Deliver)
    ensures var l' := Step(l, Deliver);
            l.chan != [] && l'.chan == l.chan[1..] && l'.gap == Losses(l.gap, l.chan[0].sent, l.chan[0].lost)
  {
    hide Moved, Receive, LinkOk, Chain, Tracks, Faithful, Compressible, IsResetAck;
    LinkSays(l);
    Pending(l);
  }

  lemma Pending(l: Link)
    requires Inv(l) && Enabled(l, Deliver)
    ensures l.chan != [] && (IsResetAck(l.chan[0].sent) ==> !l.chan[0].lost)
  {
    ChainTail(l);
  }

  /** So fewer than 65536 losses between Reset-Acks make every run admissible. */
  lemma {:induction false} FewLostAdmissible(l: Link, es: seq<Event>, n: nat)
    requires Inv(l) && Possible(l, es) && UnderWay(l.gap, l.chan, n) && FewLost(n, es)
    ensures Admissible(l, es)
    decreases |es|
  {
    hide Step, Chain, Tracks, DbOk, Enabled, Detectable, CompressedNext, Faithful, Losses, UnderWay;
    if es != [] {
      var n' := if es[0].Send? then Losses(n, es[0].pkt, es[0].lost) else n;
      assert FewLost(n', es[1..]);
      StepUnderWay(l, es[0], n);
      StepKeeps(l, es[0]);
      FewLostAdmissible(Step(l, es[0]), es[1..], n');
    }
  }

  // ----- Without losses -----

  ghost predicate LossFree(l: Link)
  {
    && !l.b.error
    && l.gap == 0
    && (forall i | 0 <= i < |l.chan| :: !l.chan[i].lost)
    && (forall i | 0 <= i < |l.log| :: l.log[i].up.pkt == l.log[i].sent)
  }

  lemma StepLossFree(l: Link, e: Event)
    requires Inv(l) && LossFree(l) && Enabled(l, e) && (e.Send? ==> !e.lost)
    ensures LossFree(Step(l, e))
  {
    hide DbOk, Moved, WireOf, Receive, Tracks, Sendable, IsResetAck, Compressible;
    if e.Deliver? {
      ReceiveKeeps(l.b, l.mirror, l.gap, l.chan[0].sent, l.a.mtu);
    }
  }

  /** All packets sent so far, in order: those delivered and those under way. */
  ghost function History(l: Link): seq<seq<byte>>
  {
    seq(|l.log|, i requires 0 <= i < |l.log| => l.log[i].sent) +
    seq(|l.chan|, i requires 0 <= i < |l.chan| => l.chan[i].sent)
  }

  ghost function SentIn(es: seq<Event>): seq<seq<byte>>
  {
    if es == [] then []
    else (if es[0].Send? then [es[0].pkt] else []) + SentIn(es[1..])
  }

  lemma StepHistory(l: Link, e: Event)
    requires LinkOk(l) && LossFree(l) && Enabled(l, e)
    ensures History(Step(l, e)) == History(l) + SentIn([e])
  {
    hide Transmit, Receive, Moved, CompOk, DbOk, Sendable, IsResetAck;
    assert SentIn([e]) == if e.Send? then [e.pkt] else [];
  }

  /** If nothing is lost, the far end hands up exactly the packets sent, in order, and never an error. */
  lemma {:induction false} LosslessRoundTrip(l: Link, es: seq<Event>)
    requires Inv(l) && LossFree(l) && Admissible(l, es)
    requires forall i | 0 <= i < |es| && es[i].Send? :: !es[i].lost
    ensures LossFree(Run(l, es)) && History(Run(l, es)) == History(l) + SentIn(es)
    decreases |es|
  {
    hide Step, Inv, LossFree, LinkOk, Enabled, Detectable, CompressedNext, History, SentIn;
    SentNone();
    if es == [] {
      assert History(l) + [] == History(l);
    } else {
      assert LinkOk(l) by { InvLinkOk(l); }
      StepKeeps(l, es[0]);
      StepLossFree(l, es[0]);
      StepHistory(l, es[0]);
      LosslessRoundTrip(Step(l, es[0]), es[1..]);
      SentCons(es);
      assert History(l) + (SentIn([es[0]]) + SentIn(es[1..])) == History(l) + SentIn([es[0]]) + SentIn(es[1..]);
    }
  }

  lemma InvLinkOk(l: Link)
    requires Inv(l)
    ensures LinkOk(l)
  {
  }

  lemma SentNone()
    ensures SentIn([]) == []
  {
  }

  lemma SentCons(es: seq<Event>)
    requires es != []
    ensures SentIn(es) == SentIn([es[0]]) + SentIn(es[1..])
  {
    assert [es[0]][1..] == [];
  }
}
