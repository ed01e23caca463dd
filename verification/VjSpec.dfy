/**
 * Van Jacobson TCP/IP header compression as functions on values: what one call
 * of the compressor or of the decompressor makes of its state and a packet.
 */
module VjSpec {
  import opened Bits
  import opened Wrappers

  type u16 = x: nat | x < 0x1_0000
  type u32 = x: nat | x < 0x1_0000_0000

  const MAX_STATES: nat := 16
  const NO_CONNECTION: byte := 255
  const IPPROTO_TCP: byte := 6

  /** The TCP control bits; ecn holds the two bits above URG. */
  datatype Flags = Flags(fin: bool, syn: bool, rst: bool, push: bool, ack: bool, urg: bool, ecn: nat)

  /** Every field of an IP header followed by a TCP header; IP options are 16-bit words. */
  datatype Header = Header(
    version: nat, hl: nat, tos: byte, ipLen: u16, ipId: u16, ipOff: u16, ttl: byte, proto: byte,
    ipSum: u16, src: u32, dst: u32, ipOptions: seq<u16>,
    ports: u32, tcpSeq: u32, tcpAck: u32, off: nat, x2: nat, flags: Flags,
    win: u16, tcpSum: u16, urp: u16, tcpOptions: seq<byte>)

  /** A zeroed slot. */
  const BLANK := Header(0, 0, 0, 0, 0, 0, 0, 0, 0, 0, 0, [], 0, 0, 0, 0, 0,
                        Flags(false, false, false, false, false, false, 0), 0, 0, 0, [])

  /** A datagram too short for the two fixed headers, or one that holds both. */
  datatype Packet = Runt(octets: seq<byte>) | Segment(header: Header, data: seq<byte>)

  function HeaderLength(h: Header): nat { 4 * h.hl + 4 * h.off }

  /** What the options of h occupy is what its length fields say. */
  predicate Whole(h: Header) {
    && 5 <= h.hl < 16 && |h.ipOptions| == 2 * (h.hl - 5)
    && 5 <= h.off < 16 && |h.tcpOptions| == 4 * (h.off - 5)
  }

  /** The datagram ends before the TCP options its header announces. */
  predicate Cut(p: Packet) {
    && p.Segment?
    && 5 <= p.header.hl < 16 && |p.header.ipOptions| == 2 * (p.header.hl - 5)
    && 5 <= p.header.off < 16 && |p.header.tcpOptions| < 4 * (p.header.off - 5)
    && p.data == []
  }

  /** What the caller hands over: a TCP datagram with a well-formed fixed part. */
  predicate PacketOk(p: Packet) {
    if p.Runt? then |p.octets| < 40
    else (Whole(p.header) || Cut(p)) && p.header.proto == IPPROTO_TCP
  }

  predicate Compressible(p: Packet) {
    && p.Segment?
    && p.header.ipOff % 0x4000 == 0
    && p.header.flags.ack && !p.header.flags.syn && !p.header.flags.fin && !p.header.flags.rst
  }

  // The transmitter: slots in ring order, most recently used first.

  datatype Tx = Tx(order: seq<nat>, headers: seq<Header>, lastXmit: byte)

  datatype Sent =
    | Plain(p: Packet)
    | Uncompressed(p: Packet)
    | Compressed(octets: seq<byte>)

  predicate SameConnection(p: Header, h: Header) {
    p.src == h.src && p.dst == h.dst && p.ports == h.ports
  }

  predicate TxOk(tx: Tx) {
    && 0 < |tx.order| <= MAX_STATES && |tx.headers| == MAX_STATES
    && (forall i :: 0 <= i < |tx.order| ==> tx.order[i] < |tx.order|)
    && (forall i, j :: 0 <= i < j < |tx.order| ==> tx.order[i] != tx.order[j])
  }

  /** The first position in ring order, from k on, whose slot holds the connection of p. */
  function Search(order: seq<nat>, headers: seq<Header>, p: Header, k: nat): (r: Option<nat>)
    requires k <= |order|
    requires forall i :: 0 <= i < |order| ==> order[i] < |headers|
    ensures r.Some? ==> k <= r.value < |order| && SameConnection(p, headers[order[r.value]])
    ensures r.Some? ==> forall i :: k <= i < r.value ==> !SameConnection(p, headers[order[i]])
    ensures r.None? ==> forall i :: k <= i < |order| ==> !SameConnection(p, headers[order[i]])
    decreases |order| - k
  {
    if k == |order| then None
    else if SameConnection(p, headers[order[k]]) then Some(k)
    else Search(order, headers, p, k + 1)
  }

  /** The ring with the slot at position k moved to the front. */
  function ToFront(order: seq<nat>, k: nat): (r: seq<nat>)
    requires k < |order|
    ensures |r| == |order|
    ensures r[0] == order[k]
    ensures forall i :: 0 < i <= k ==> r[i] == order[i - 1]
    ensures forall i :: k < i < |order| ==> r[i] == order[i]
  {
    [order[k]] + order[..k] + order[k + 1..]
  }

  /** The fields that must not differ between a compressed packet and its predecessor. */
  predicate SameShape(p: Header, h: Header) {
    && p.version == h.version && p.hl == h.hl && p.tos == h.tos
    && p.ipOff == h.ipOff
    && p.ttl == h.ttl && p.proto == h.proto
    && p.off == h.off
    && p.ipOptions == h.ipOptions
    && p.tcpOptions == h.tcpOptions
  }

  function Minus16(a: u16, b: u16): u16 { (a + 0x1_0000 - b) % 0x1_0000 }
  function Minus32(a: u32, b: u32): u32 { (a + 0x1_0000_0000 - b) % 0x1_0000_0000 }
  function Plus16(a: u16, b: nat): u16 { (a + b) % 0x1_0000 }
  function Plus32(a: u32, b: nat): u32 { (a + b) % 0x1_0000_0000 }

  /** A delta in one octet, or in three when it is zero or does not fit. */
  function EncodeZ(n: u16): (r: seq<byte>)
    ensures 1 <= |r| <= 3
  {
    if n >= 256 || n == 0 then [0, n / 256, n % 256] else [n]
  }

  /** Which fields a compressed packet carries. */
  datatype Changes = Changes(u: bool, w: bool, a: bool, s: bool)

  const NOTHING := Changes(false, false, false, false)
  const SPECIAL_I := Changes(true, true, false, true)
  const SPECIAL_D := Changes(true, true, true, true)

  function Bit(b: bool): (n: nat)
    ensures n <= 1
  {
    if b then 1 else 0
  }

  /** The low six bits of the change octet: U, W, A, S, PUSH and I. */
  function Mask(c: Changes, i: bool, push: bool): (m: byte)
    ensures m < 64
  {
    Bit(c.u) + 2 * Bit(c.w) + 4 * Bit(c.a) + 8 * Bit(c.s) + 16 * Bit(push) + 32 * Bit(i)
  }

  function Changed(p: Header, h: Header): Changes {
    Changes(p.flags.urg, p.win != h.win, p.tcpAck != h.tcpAck, p.tcpSeq != h.tcpSeq)
  }

  /** Some difference cannot be expressed. */
  predicate TooDifferent(p: Header, h: Header) {
    || !SameShape(p, h)
    || (!p.flags.urg && p.urp != h.urp)
    || Minus32(p.tcpAck, h.tcpAck) > 0xffff
    || Minus32(p.tcpSeq, h.tcpSeq) > 0xffff
  }

  /** The transmitter gives up: send the header whole. */
  predicate MustSendWhole(p: Header, h: Header) {
    var c := Changed(p, h);
    || TooDifferent(p, h)
    || (c == NOTHING && !(p.ipLen != h.ipLen && h.ipLen == HeaderLength(p)))
    || c == SPECIAL_I || c == SPECIAL_D
  }

  /** The two common cases that need no delta at all. */
  function Condense(p: Header, h: Header): (r: Changes) {
    var c := Changed(p, h);
    var ds := Minus32(p.tcpSeq, h.tcpSeq);
    if c == Changes(false, false, true, true) && ds == Minus32(p.tcpAck, h.tcpAck)
         && ds == h.ipLen - HeaderLength(p) then SPECIAL_I
    else if c == Changes(false, false, false, true) && ds == h.ipLen - HeaderLength(p) then SPECIAL_D
    else c
  }

  predicate Special(c: Changes) { c == SPECIAL_I || c == SPECIAL_D }

  function Optional(b: bool, s: seq<byte>): seq<byte> { if b then s else [] }

  /** The deltas of the changed fields, in the order urgent, window, ack, sequence. */
  function FieldDeltas(p: Header, h: Header): (r: seq<byte>)
  {
    var c := Changed(p, h);
    Optional(c.u, EncodeZ(p.urp))
    + Optional(c.w, EncodeZ(Minus16(p.win, h.win)))
    + Optional(c.a, EncodeZ(Minus32(p.tcpAck, h.tcpAck) % 0x1_0000))
    + Optional(c.s, EncodeZ(Minus32(p.tcpSeq, h.tcpSeq) % 0x1_0000))
  }

  function Deltas(p: Header, h: Header): (r: seq<byte>) {
    if Special(Condense(p, h)) then [] else FieldDeltas(p, h)
  }

  /** The identification does not simply go up by one. */
  predicate NewId(p: Header, h: Header) { p.ipId != h.ipId + 1 }

  function ChangeOctets(mask: byte, id: Option<byte>): (r: seq<byte>)
    requires mask < 64
    ensures |r| == if id.Some? then 2 else 1
  {
    if id.Some? then [mask + 64, id.value] else [mask]
  }

  function Octets16(n: u16): seq<byte> { [n / 256, n % 256] }

  function CompressedOctets(p: Header, h: Header, id: Option<byte>, data: seq<byte>): (r: seq<byte>)
  {
    ChangeOctets(Mask(Condense(p, h), NewId(p, h), p.flags.push), id)
    + Octets16(p.tcpSum)
    + Deltas(p, h)
    + Optional(NewId(p, h), EncodeZ(Minus16(p.ipId, h.ipId)))
    + data
  }

  /** vj_compress_tcp. */
  function Compress(tx: Tx, p: Packet, compressCid: bool): (r: (Tx, Sent))
    requires TxOk(tx) && PacketOk(p)
  {
    if !Compressible(p) then (tx, Plain(p))
    else
      var found := Search(tx.order, tx.headers, p.header, 0);
      var k := if found.Some? then found.value else |tx.order| - 1;
      var id := tx.order[k];
      var tx1 := tx.(order := ToFront(tx.order, k));
      if Cut(p) then (tx1, Plain(p))
      else if found.None? || MustSendWhole(p.header, tx.headers[id]) then
        (tx1.(headers := tx.headers[id := p.header], lastXmit := id),
         Uncompressed(p.(header := p.header.(proto := id))))
      else
        var explicit := !compressCid || tx.lastXmit != id;
        (tx1.(headers := tx.headers[id := p.header], lastXmit := id),
         Compressed(CompressedOctets(p.header, tx.headers[id], if explicit then Some(id) else None, p.data)))
  }

  /** vj_compress_init: slot 0 is the oldest, slot max_state the newest. */
  function InitialTx(maxState: nat): (tx: Tx)
    requires maxState < MAX_STATES
    ensures TxOk(tx)
  {
    Tx(seq(maxState + 1, i requires 0 <= i <= maxState => maxState - i), seq(MAX_STATES, _ => BLANK), NO_CONNECTION)
  }

  // The receiver.

  datatype Slot = Slot(header: Header, hlen: nat)
  datatype Rx = Rx(slots: seq<Slot>, lastRecv: byte, toss: bool)

  const InitialRx := Rx(seq(MAX_STATES, _ => Slot(BLANK, 0)), NO_CONNECTION, true)

  /** Without a known error, the last connection number is a slot. */
  predicate RxOk(rx: Rx) {
    |rx.slots| == MAX_STATES && (!rx.toss ==> rx.lastRecv < MAX_STATES)
  }

  /** vj_uncompress_uncomp: the header comes whole, with the slot in the protocol field. */
  function UncompressWhole(rx: Rx, p: Packet): (r: (Rx, Option<Packet>))
    requires RxOk(rx)
    ensures RxOk(r.0)
  {
    if p.Runt? || p.header.proto >= MAX_STATES || !Whole(p.header) then (rx.(toss := true), None)
    else
      var id := p.header.proto;
      var h := p.header.(proto := IPPROTO_TCP);
      (Rx(rx.slots[id := Slot(h, HeaderLength(h))], id, false), Some(p.(header := h)))
  }

  /** The octet at i, with zeros beyond the end. */
  function At(s: seq<byte>, i: nat): byte { if i < |s| then s[i] else 0 }

  /** The delta that starts at pos. */
  function Decode(s: seq<byte>, pos: nat): u16 {
    if At(s, pos) == 0 then 256 * At(s, pos + 1) + At(s, pos + 2) else At(s, pos)
  }

  /** Where the delta at pos ends, if there is one. */
  function Past(s: seq<byte>, present: bool, pos: nat): (r: nat)
    ensures pos <= r
  {
    if !present then pos else if At(s, pos) == 0 then pos + 3 else pos + 1
  }

  predicate Has(mask: byte, weight: nat)
    requires weight > 0
  {
    mask / weight % 2 == 1
  }

  function ChangesOf(mask: byte): Changes {
    Changes(Has(mask, 1), Has(mask, 2), Has(mask, 4), Has(mask, 8))
  }

  /** The octets of data the previous packet carried, in 32-bit arithmetic. */
  function LastData(ipLen: u16, hlen: nat): u32 { (ipLen - hlen) % 0x1_0000_0000 }

  /** The TCP fields restored by the change mask, and where the deltas end. */
  function RestoreTcp(h: Header, hlen: nat, c: Changes, s: seq<byte>, pos: nat): (r: (Header, nat))
  {
    if c == SPECIAL_I then
      (h.(tcpAck := Plus32(h.tcpAck, LastData(h.ipLen, hlen)),
          tcpSeq := Plus32(h.tcpSeq, LastData(h.ipLen, hlen))), pos)
    else if c == SPECIAL_D then
      (h.(tcpSeq := Plus32(h.tcpSeq, LastData(h.ipLen, hlen))), pos)
    else
      var pw := Past(s, c.u, pos);
      var pa := Past(s, c.w, pw);
      var ps := Past(s, c.a, pa);
      (h.(flags := h.flags.(urg := c.u),
          urp := if c.u then Decode(s, pos) else h.urp,
          win := if c.w then Plus16(h.win, Decode(s, pw)) else h.win,
          tcpAck := if c.a then Plus32(h.tcpAck, Decode(s, pa)) else h.tcpAck,
          tcpSeq := if c.s then Plus32(h.tcpSeq, Decode(s, ps)) else h.tcpSeq),
       Past(s, c.s, ps))
  }

  function WordSum(words: seq<u16>): (n: nat) {
    if words == [] then 0 else WordSum(words[..|words| - 1]) + words[|words| - 1]
  }

  /** The sixteen-bit words of the IP header, with the checksum field zero. */
  function IpWords(h: Header): seq<u16>
  {
    [(h.version % 16 * 16 + h.hl % 16) * 256 + h.tos, h.ipLen, h.ipId, h.ipOff, h.ttl * 256 + h.proto, 0,
     h.src / 0x1_0000, h.src % 0x1_0000, h.dst / 0x1_0000, h.dst % 0x1_0000] + h.ipOptions
  }

  function Fold(n: nat): nat { n % 0x1_0000 + n / 0x1_0000 }

  /** The IP header checksum: the complement of the sum folded twice. */
  function IpChecksum(h: Header): u16 {
    0xffff - Fold(Fold(WordSum(IpWords(h)))) % 0x1_0000
  }

  /** The saved header once a compressed packet has been applied to it, and where its data starts. */
  function Restore(slot: Slot, mask: byte, s: seq<byte>, pos: nat): (r: (Header, nat))
    ensures pos + 2 <= r.1
  {
    var h0 := slot.header.(tcpSum := 256 * At(s, pos) + At(s, pos + 1),
                           flags := slot.header.flags.(push := Has(mask, 16)));
    var (h1, pi) := RestoreTcp(h0, slot.hlen, ChangesOf(mask), s, pos + 2);
    if Has(mask, 32) then (h1.(ipId := Plus16(h1.ipId, Decode(s, pi))), Past(s, true, pi))
    else (h1.(ipId := Plus16(h1.ipId, 1)), pi)
  }

  /** The IP length and checksum are not carried: they are computed afresh. */
  function Relabel(h: Header, length: nat): Header {
    var h1 := h.(ipLen := length % 0x1_0000);
    h1.(ipSum := IpChecksum(h1))
  }

  /** vj_uncompress_tcp. */
  function UncompressTcp(rx: Rx, s: seq<byte>): (r: (Rx, Option<Packet>))
    requires RxOk(rx)
    ensures RxOk(r.0)
  {
    var mask := At(s, 0);
    if Has(mask, 64) && At(s, 1) >= MAX_STATES then (rx.(toss := true), None)
    else if !Has(mask, 64) && rx.toss then (rx, None)
    else
      var id := if Has(mask, 64) then At(s, 1) else rx.lastRecv;
      var slot := rx.slots[id];
      var (h, vjlen) := Restore(slot, mask, s, if Has(mask, 64) then 2 else 1);
      if vjlen > |s| then (Rx(rx.slots[id := slot.(header := h)], id, true), None)
      else
        var h1 := Relabel(h, slot.hlen + |s| - vjlen);
        (Rx(rx.slots[id := slot.(header := h1)], id, false), Some(Segment(h1, s[vjlen..])))
  }

  /** What the far end makes of a packet. */
  function Receive(rx: Rx, sent: Sent): (r: (Rx, Option<Packet>))
    requires RxOk(rx)
    ensures RxOk(r.0)
  {
    match sent
    case Plain(p) => (rx, Some(p))
    case Uncompressed(p) => UncompressWhole(rx, p)
    case Compressed(s) => UncompressTcp(rx, s)
  }

  /** vj_uncompress_err: a packet may have been missed. */
  function Missed(rx: Rx): Rx { rx.(toss := true) }
}
