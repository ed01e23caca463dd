/** Both ends together: what stays in step packet by packet, and whole streams. */
module VjStream {
  import opened Bits
  import opened Wrappers
  import opened VjSpec
  import opened VjRoundTrip

  /** The receiver holds the same header as the sender for every slot the sender has used. */
  predicate SlotInStep(h: Header, slot: Slot) {
    h == BLANK || (Saved(h) && slot == Slot(h, HeaderLength(h)))
  }

  predicate InStep(tx: Tx, rx: Rx) {
    && TxOk(tx) && RxOk(rx)
    && (forall i :: 0 <= i < |tx.order| ==> SlotInStep(tx.headers[i], rx.slots[i]))
    && (tx.lastXmit != NO_CONNECTION ==> tx.lastXmit == rx.lastRecv && !rx.toss)
  }

  lemma StartInStep(maxState: nat)
    requires maxState < MAX_STATES
    ensures InStep(InitialTx(maxState), InitialRx)
  {
  }

  /** The position in the ring of the slot Compress uses for p. */
  function Position(tx: Tx, p: Header): (k: nat)
    requires TxOk(tx)
    ensures k < |tx.order|
  {
    var found := Search(tx.order, tx.headers, p, 0);
    if found.Some? then found.value else |tx.order| - 1
  }

  /** Compress sends p as differences from the header in its slot. */
  predicate SentAsDeltas(tx: Tx, p: Packet)
    requires TxOk(tx) && PacketOk(p)
  {
    && Compressible(p) && !Cut(p)
    && Search(tx.order, tx.headers, p.header, 0).Some?
    && !MustSendWhole(p.header, tx.headers[tx.order[Position(tx, p.header)]])
  }

  function Previous(tx: Tx, p: Header): Header
    requires TxOk(tx)
  {
    tx.headers[tx.order[Position(tx, p)]]
  }

  function Length(h: Header, data: seq<byte>): nat { HeaderLength(h) + |data| }

  /** The bits a compressed packet does not carry are those the receiver will put there. */
  predicate Exact(p: Header, h: Header, data: seq<byte>) {
    && p.x2 == h.x2 && p.flags.ecn == h.flags.ecn
    && (Special(Condense(p, h)) ==> !h.flags.urg)
    && p.ipLen == Length(p, data) % 0x1_0000
    && p.ipSum == IpChecksum(p)
  }

  /** The header the receiver rebuilds from differences. */
  function Rebuilt(p: Header, h: Header, data: seq<byte>): Header {
    Relabel(Carried(p, h), Length(p, data))
  }

  lemma SpecialNoUrgent(p: Header, h: Header)
    requires Special(Condense(p, h)) && !MustSendWhole(p, h)
    ensures !p.flags.urg && p.urp == h.urp
  {
  }

  lemma RebuiltIff(p: Header, h: Header, data: seq<byte>)
    requires Sendable(p, h)
    ensures Rebuilt(p, h, data) == p <==> Exact(p, h, data)
  {
  }

  /** What arrives when differences are sent, whatever the packet. */
  lemma DeltasArrive(rx: Rx, id: byte, p: Header, h: Header, explicit: bool, data: seq<byte>)
    requires RxOk(rx) && id < MAX_STATES && Sendable(p, h) && rx.slots[id] == Slot(h, HeaderLength(h))
    requires !explicit ==> rx.lastRecv == id && !rx.toss
    ensures var s := CompressedOctets(p, h, if explicit then Some(id) else None, data);
      UncompressTcp(rx, s)
      == (Rx(rx.slots[id := Slot(Rebuilt(p, h, data), HeaderLength(h))], id, false),
          Some(Segment(Rebuilt(p, h, data), data)))
  {
    hide CompressedOctets, Has, At, Restore, Relabel, Carried, MustSendWhole;
    var o := if explicit then Some(id) else None;
    HeadIs(p, h, o, data);
    RestoreIs(p, h, o, data);
    assert HeaderLength(p) == HeaderLength(h) by { assert SameShape(p, h) by { SendableShape(p, h); } }
  }

  lemma SendableShape(p: Header, h: Header)
    requires Sendable(p, h)
    ensures SameShape(p, h)
  {
  }

  // The ring of slots.

  /** Moving a slot to the front keeps every slot in the ring, once. */
  lemma ToFrontOk(order: seq<nat>, k: nat)
    requires k < |order|
    requires forall i :: 0 <= i < |order| ==> order[i] < |order|
    requires forall i, j :: 0 <= i < j < |order| ==> order[i] != order[j]
    ensures var r := ToFront(order, k);
      && (forall i :: 0 <= i < |r| ==> r[i] < |r|)
      && (forall i, j :: 0 <= i < j < |r| ==> r[i] != r[j])
      && multiset(r) == multiset(order)
  {
    assert order == order[..k] + [order[k]] + order[k + 1..];
  }

  /** After any packet the ring has the same slots, the one used first and the others in order. */
  lemma RingKept(tx: Tx, p: Packet, compressCid: bool)
    requires TxOk(tx) && PacketOk(p)
    ensures var tx' := Compress(tx, p, compressCid).0;
      && TxOk(tx') && multiset(tx'.order) == multiset(tx.order)
      && (!Compressible(p) ==> tx' == tx)
      && (Compressible(p) ==> tx'.order == ToFront(tx.order, Position(tx, p.header)))
  {
    hide MustSendWhole, CompressedOctets, Search, ToFront, Saved, Condense, PacketOk;
    if Compressible(p) {
      ToFrontOk(tx.order, Position(tx, p.header));
    }
  }

  // One packet.

  function Slotted(tx: Tx, p: Header): Tx
    requires TxOk(tx)
  {
    var id := tx.order[Position(tx, p)];
    Tx(ToFront(tx.order, Position(tx, p)), tx.headers[id := p], id)
  }

  function SlottedRx(rx: Rx, id: byte, p: Header): Rx
    requires RxOk(rx) && id < MAX_STATES
  {
    Rx(rx.slots[id := Slot(p, HeaderLength(p))], id, false)
  }

  /** Both ends having stored the same header in the same slot. */
  lemma BothStore(tx: Tx, rx: Rx, p: Header)
    requires InStep(tx, rx) && Saved(p)
    ensures InStep(Slotted(tx, p), SlottedRx(rx, tx.order[Position(tx, p)], p))
  {
  }

  /** A slot whose saved header differs little enough has been filled at both ends. */
  lemma SlotFilled(tx: Tx, rx: Rx, p: Packet)
    requires InStep(tx, rx) && PacketOk(p) && SentAsDeltas(tx, p)
    ensures var h, id := Previous(tx, p.header), tx.order[Position(tx, p.header)];
      Sendable(p.header, h) && rx.slots[id] == Slot(h, HeaderLength(h))
  {
  }

  lemma SendDeltas(tx: Tx, rx: Rx, p: Packet, compressCid: bool)
    requires InStep(tx, rx) && PacketOk(p) && SentAsDeltas(tx, p)
    ensures var h, id := Previous(tx, p.header), tx.order[Position(tx, p.header)];
            var (tx', sent) := Compress(tx, p, compressCid);
            && tx' == Slotted(tx, p.header)
            && Receive(rx, sent) == (Rx(rx.slots[id := Slot(Rebuilt(p.header, h, p.data), HeaderLength(h))], id, false),
                                     Some(Segment(Rebuilt(p.header, h, p.data), p.data)))
  {
    hide MustSendWhole, CompressedOctets, Search, ToFront, UncompressTcp, Rebuilt, Sendable;
    var id := tx.order[Position(tx, p.header)];
    SlotFilled(tx, rx, p);
    var explicit := !compressCid || tx.lastXmit != id;
    DeltasArrive(rx, id, p.header, tx.headers[id], explicit, p.data);
  }

  /**
   * A packet reaches the far end unchanged if and only if it went out whole or the bits
   * a compressed header leaves out are those of its predecessor; the ends then stay in step.
   */
  lemma PacketArrivesIff(tx: Tx, rx: Rx, p: Packet, compressCid: bool)
    requires InStep(tx, rx) && PacketOk(p)
    ensures var (tx', sent) := Compress(tx, p, compressCid);
            var (rx', got) := Receive(rx, sent);
            var exact := SentAsDeltas(tx, p) ==> Exact(p.header, Previous(tx, p.header), p.data);
            && (got == Some(p) <==> exact)
            && (exact ==> InStep(tx', rx'))
  {
    hide MustSendWhole, CompressedOctets, Search, ToFront, UncompressTcp, Rebuilt, Sendable, Exact;
    if SentAsDeltas(tx, p) {
      SlotFilled(tx, rx, p);
      SendDeltas(tx, rx, p, compressCid);
      RebuiltIff(p.header, Previous(tx, p.header), p.data);
      SendableLength(p.header, Previous(tx, p.header));
      BothStore(tx, rx, p.header);
    } else if Compressible(p) && !Cut(p) {
      WholeArrives(tx, rx, p, compressCid);
      BothStore(tx, rx, p.header);
    } else {
      RingKept(tx, p, compressCid);
    }
  }

  lemma SendableLength(p: Header, h: Header)
    requires Sendable(p, h)
    ensures Saved(p) && HeaderLength(p) == HeaderLength(h)
  {
  }

  lemma WholeArrives(tx: Tx, rx: Rx, p: Packet, compressCid: bool)
    requires InStep(tx, rx) && PacketOk(p) && Compressible(p) && !Cut(p) && !SentAsDeltas(tx, p)
    ensures var (tx', sent) := Compress(tx, p, compressCid);
            var id := tx.order[Position(tx, p.header)];
            && Saved(p.header) && tx' == Slotted(tx, p.header)
            && Receive(rx, sent) == (SlottedRx(rx, id, p.header), Some(p))
  {
  }

  // Whole streams.

  /** Reserved bits clear, an urgent pointer exactly with URG, a true length and checksum. */
  predicate Clean(h: Header) {
    h.x2 == 0 && h.flags.ecn == 0 && (h.flags.urg <==> h.urp != 0)
  }

  predicate CleanPacket(p: Packet) {
    && PacketOk(p)
    && (Compressible(p) && !Cut(p) ==>
          Clean(p.header) && p.header.ipLen == Length(p.header, p.data) % 0x1_0000
          && p.header.ipSum == IpChecksum(p.header))
  }

  predicate CleanTx(tx: Tx)
    requires TxOk(tx)
  {
    forall i :: 0 <= i < |tx.order| ==> Clean(tx.headers[i])
  }

  lemma CleanIsExact(tx: Tx, rx: Rx, p: Packet, compressCid: bool)
    requires InStep(tx, rx) && CleanTx(tx) && CleanPacket(p)
    ensures SentAsDeltas(tx, p) ==> Exact(p.header, Previous(tx, p.header), p.data)
    ensures var tx' := Compress(tx, p, compressCid).0; TxOk(tx') && CleanTx(tx')
  {
    if SentAsDeltas(tx, p) {
      var h := Previous(tx, p.header);
      assert Clean(h);
      if Special(Condense(p.header, h)) {
        SpecialNoUrgent(p.header, h);
      }
    }
    hide MustSendWhole, CompressedOctets, Search, ToFront, Condense, Clean;
    RingKept(tx, p, compressCid);
  }

  /** The packets that come out at the far end, one for each packet sent. */
  function Transfer(tx: Tx, rx: Rx, ps: seq<Packet>, cid: seq<bool>): (r: seq<Option<Packet>>)
    requires TxOk(tx) && RxOk(rx) && |cid| == |ps|
    requires forall i :: 0 <= i < |ps| ==> PacketOk(ps[i])
    decreases |ps|
  {
    if ps == [] then []
    else
      var (tx', sent) := Compress(tx, ps[0], cid[0]);
      var (rx', got) := Receive(rx, sent);
      RingKept(tx, ps[0], cid[0]);
      [got] + Transfer(tx', rx', ps[1..], cid[1..])
  }

  lemma {:induction false} StreamArrives(tx: Tx, rx: Rx, ps: seq<Packet>, cid: seq<bool>)
    requires InStep(tx, rx) && CleanTx(tx) && |cid| == |ps|
    requires forall i :: 0 <= i < |ps| ==> PacketOk(ps[i]) && CleanPacket(ps[i])
    ensures Transfer(tx, rx, ps, cid) == seq(|ps|, i requires 0 <= i < |ps| => Some(ps[i]))
    decreases |ps|
  {
    hide Compress, Receive, InStep, CleanTx, CleanPacket, SentAsDeltas, Exact;
    if ps != [] {
      assert CleanPacket(ps[0]);
      InStepOk(tx, rx);
      CleanIsExact(tx, rx, ps[0], cid[0]);
      PacketArrivesIff(tx, rx, ps[0], cid[0]);
      var (tx', sent) := Compress(tx, ps[0], cid[0]);
      StreamArrives(tx', Receive(rx, sent).0, ps[1..], cid[1..]);
    }
  }

  lemma InStepOk(tx: Tx, rx: Rx)
    requires InStep(tx, rx)
    ensures TxOk(tx) && RxOk(rx)
  {
  }

  /** From vj_compress_init, every stream of clean packets arrives bit for bit. */
  lemma FreshStreamArrives(maxState: nat, ps: seq<Packet>, cid: seq<bool>)
    requires maxState < MAX_STATES && |cid| == |ps|
    requires forall i :: 0 <= i < |ps| ==> PacketOk(ps[i]) && CleanPacket(ps[i])
    ensures Transfer(InitialTx(maxState), InitialRx, ps, cid)
            == seq(|ps|, i requires 0 <= i < |ps| => Some(ps[i]))
  {
    StartInStep(maxState);
    var tx := InitialTx(maxState);
    forall i | 0 <= i < |tx.order| ensures Clean(tx.headers[i]) {
      assert tx.headers[i] == BLANK;
    }
    StreamArrives(tx, InitialRx, ps, cid);
  }

  // Outside the clean streams: URG given up while the urgent pointer stays.

  /** The special masks do not touch URG: sent after an urgent header, p arrives with URG still set. */
  lemma UrgentLeftOver(rx: Rx, id: byte, p: Header, h: Header, data: seq<byte>)
    requires RxOk(rx) && id < MAX_STATES && rx.slots[id] == Slot(h, HeaderLength(h))
    requires Sendable(p, h) && Special(Condense(p, h)) && h.flags.urg
    ensures !p.flags.urg
    ensures var got := UncompressTcp(rx, CompressedOctets(p, h, Some(id), data)).1;
      got.Some? && got.value.Segment? && got.value.header.flags.urg
  {
    SpecialNoUrgent(p, h);
    hide UncompressTcp, CompressedOctets, IpChecksum, Condense, MustSendWhole, Special;
    DeltasArrive(rx, id, p, h, true, data);
  }

  /** The packet after h with URG withdrawn and everything else in place. */
  function Calmed(h: Header): Header {
    h.(tcpSeq := Plus32(h.tcpSeq, LastData(h.ipLen, HeaderLength(h))), flags := h.flags.(urg := false))
  }

  lemma MovedOn(n: u32, ipLen: u16, hlen: nat)
    requires hlen < ipLen
    ensures Minus32(Plus32(n, LastData(ipLen, hlen)), n) == ipLen - hlen
    ensures Plus32(n, LastData(ipLen, hlen)) != n
  {
  }

  /** Every urgent packet with data has a successor that UrgentLeftOver spoils. */
  lemma UrgentFamily(h: Header)
    requires Saved(h) && h.flags.urg && HeaderLength(h) < h.ipLen
    ensures Sendable(Calmed(h), h) && Special(Condense(Calmed(h), h))
  {
    var p := Calmed(h);
    MovedOn(h.tcpSeq, h.ipLen, HeaderLength(h));
    PlusMinus32(p.tcpAck, h.tcpAck);
    hide Minus32, Plus32, LastData;
    assert Changed(p, h) == Changes(false, false, false, true);
  }
}
