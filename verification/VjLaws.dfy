/**
 * The compressed TCP/IP packet octet by octet, and when a packet is sent as
 * one, in terms of the header fields alone.
 */
module VjLaws {
  import opened Bits
  import opened Wrappers
  import opened VjSpec
  import opened VjRoundTrip

  // The change octet.

  /** The octets of data in the previous packet, if it had the headers of this one. */
  function DataBefore(p: Header, h: Header): int { h.ipLen - 4 * h.hl - 4 * p.off }

  function Distance32(a: u32, b: u32): nat { (a - b) % 0x1_0000_0000 }

  /** Echoed terminal traffic: sequence and acknowledgement both move on by the data of the packet before. */
  predicate Echoed(p: Header, h: Header) {
    && !p.flags.urg && p.win == h.win && p.tcpAck != h.tcpAck && p.tcpSeq != h.tcpSeq
    && Distance32(p.tcpSeq, h.tcpSeq) == DataBefore(p, h) == Distance32(p.tcpAck, h.tcpAck)
  }

  /** Unidirectional transfer: only the sequence number moves on, by the data of the packet before. */
  predicate Transferred(p: Header, h: Header) {
    && !p.flags.urg && p.win == h.win && p.tcpAck == h.tcpAck && p.tcpSeq != h.tcpSeq
    && Distance32(p.tcpSeq, h.tcpSeq) == DataBefore(p, h)
  }

  lemma DistanceIs(a: u32, b: u32)
    ensures Minus32(a, b) == Distance32(a, b)
  {
  }

  lemma CondenseIs(p: Header, h: Header)
    requires p.hl == h.hl
    ensures Condense(p, h) ==
      if Echoed(p, h) then Changes(true, true, false, true)
      else if Transferred(p, h) then Changes(true, true, true, true)
      else Changes(p.flags.urg, p.win != h.win, p.tcpAck != h.tcpAck, p.tcpSeq != h.tcpSeq)
  {
    DistanceIs(p.tcpSeq, h.tcpSeq);
    DistanceIs(p.tcpAck, h.tcpAck);
    hide Minus32, Distance32;
  }

  /** Each bit of the first octet of a compressed packet, from the fields. */
  lemma ChangeOctet(p: Header, h: Header, id: Option<byte>, data: seq<byte>)
    requires p.hl == h.hl
    ensures var s := CompressedOctets(p, h, id, data);
      && |s| > 1 && s[0] < 128
      && (Has(s[0], 64) <==> id.Some?) && (id.Some? ==> s[1] == id.value)
      && (Has(s[0], 32) <==> p.ipId != h.ipId + 1)
      && (Has(s[0], 16) <==> p.flags.push)
      && if Echoed(p, h) then s[0] % 16 == 11
         else if Transferred(p, h) then s[0] % 16 == 15
         else
           && (Has(s[0], 8) <==> p.tcpSeq != h.tcpSeq)
           && (Has(s[0], 4) <==> p.tcpAck != h.tcpAck)
           && (Has(s[0], 2) <==> p.win != h.win)
           && (Has(s[0], 1) <==> p.flags.urg)
  {
    hide Has, Mask, Condense, Deltas, EncodeZ, Optional, CompressedOctets, ChangeOctets, Bit, Echoed, Transferred;
    var c, i, push := Condense(p, h), NewId(p, h), p.flags.push;
    CondenseIs(p, h);
    HeadFirst(p, h, id, data);
    Longer(p, h, id, data);
    ChangeOctetIs(Mask(c, i, push), id);
    WeightsAre(c, i, push, id.Some?);
  }

  lemma Longer(p: Header, h: Header, id: Option<byte>, data: seq<byte>)
    ensures |CompressedOctets(p, h, id, data)| >= 3
  {
    hide Mask, Condense, NewId, Deltas, EncodeZ, Optional, ChangeOctets, Minus16;
  }

  lemma WeightsAre(c: Changes, i: bool, push: bool, explicit: bool)
    ensures var m := Mask(c, i, push) + 64 * Bit(explicit);
      && m < 128 && m % 16 == Bit(c.u) + 2 * Bit(c.w) + 4 * Bit(c.a) + 8 * Bit(c.s)
      && (Has(m, 1) <==> c.u) && (Has(m, 2) <==> c.w) && (Has(m, 4) <==> c.a) && (Has(m, 8) <==> c.s)
      && (Has(m, 16) <==> push) && (Has(m, 32) <==> i) && (Has(m, 64) <==> explicit)
      && (c == Changes(true, true, false, true) ==> m % 16 == 11)
      && (c == Changes(true, true, true, true) ==> m % 16 == 15)
  {
    hide Has;
    SevenBits(Bit(c.u), Bit(c.w), Bit(c.a), Bit(c.s), Bit(push), Bit(i), Bit(explicit),
              Mask(c, i, push) + 64 * Bit(explicit));
  }

  // What follows it.

  /** n stands at pos: in one octet if it fits and is not zero, else behind a zero in two. */
  predicate StandsAt(s: seq<byte>, pos: nat, n: u16) {
    if 0 < n < 256 then pos < |s| && s[pos] as nat == n
    else pos + 2 < |s| && s[pos] == 0 && s[pos + 1] as nat * 256 + s[pos + 2] == n
  }

  function Room(present: bool, n: u16): nat { if !present then 0 else if 0 < n < 256 then 1 else 3 }

  lemma Stands(pre: seq<byte>, present: bool, n: u16, post: seq<byte>)
    ensures |Optional(present, EncodeZ(n))| == Room(present, n)
    ensures present ==> StandsAt(pre + Optional(present, EncodeZ(n)) + post, |pre|, n)
  {
    var s := pre + Optional(present, EncodeZ(n)) + post;
    if present {
      assert s[|pre|] == EncodeZ(n)[0];
      if n >= 256 || n == 0 {
        assert s[|pre| + 1] == EncodeZ(n)[1] && s[|pre| + 2] == EncodeZ(n)[2];
      }
    }
  }

  function Distance16(a: u16, b: u16): u16 { (a - b) % 0x1_0000 }

  /** A field a compressed packet may carry: whether it does, and the number. */
  datatype Field = Field(there: bool, n: u16)

  /** The fields stand one after the other from pos on, those that are there, and then the data. */
  predicate Laid(s: seq<byte>, pos: nat, fields: seq<Field>, data: seq<byte>)
    decreases |fields|
  {
    if fields == [] then pos <= |s| && s[pos..] == data
    else
      var f := fields[0];
      && (f.there ==> StandsAt(s, pos, f.n))
      && Laid(s, pos + Room(f.there, f.n), fields[1..], data)
  }

  /** What a packet carries in this order: urgent pointer, window, acknowledgement, sequence, identification. */
  function Fields(p: Header, h: Header): seq<Field> {
    var plain := !Echoed(p, h) && !Transferred(p, h);
    [Field(p.flags.urg, p.urp),
     Field(p.win != h.win, Distance16(p.win, h.win)),
     Field(plain && p.tcpAck != h.tcpAck, Distance32(p.tcpAck, h.tcpAck) % 0x1_0000),
     Field(plain && p.tcpSeq != h.tcpSeq, Distance32(p.tcpSeq, h.tcpSeq) % 0x1_0000),
     Field(p.ipId != h.ipId + 1, Distance16(p.ipId, h.ipId))]
  }

  /** Urgent data with a new window and sequence number would read as a special case. */
  predicate Ambiguous(p: Header, h: Header) { p.flags.urg && p.win != h.win && p.tcpSeq != h.tcpSeq }

  /** The checksum as it is, then the deltas of what changed in that order, then the data. */
  lemma DeltasLaid(p: Header, h: Header, id: Option<byte>, data: seq<byte>)
    requires p.hl == h.hl && !Ambiguous(p, h)
    ensures var s := CompressedOctets(p, h, id, data); var pos := if id.Some? then 4 else 3;
      && pos <= |s| && s[pos - 2] as nat * 256 + s[pos - 1] == p.tcpSum
      && Laid(s, pos, Fields(p, h), data)
  {
    hide Mask, EncodeZ, ChangeOctets, Condense, Laid, Fields, Deltas, Written;
    var s := CompressedOctets(p, h, id, data);
    var head := ChangeOctets(Mask(Condense(p, h), NewId(p, h), p.flags.push), id) + Octets16(p.tcpSum);
    DeltasWritten(p, h);
    assert s == head + Written(Fields(p, h)) + data;
    WrittenLaid(head, Fields(p, h), data);
    assert s[|head| - 2] == head[|head| - 2] && s[|head| - 1] == head[|head| - 1];
  }

  function Written(fields: seq<Field>): seq<byte> {
    if fields == [] then [] else Optional(fields[0].there, EncodeZ(fields[0].n)) + Written(fields[1..])
  }

  lemma {:induction false} WrittenLaid(head: seq<byte>, fields: seq<Field>, data: seq<byte>)
    ensures Laid(head + Written(fields) + data, |head|, fields, data)
    decreases |fields|
  {
    hide EncodeZ, Optional, StandsAt, Room;
    var s := head + Written(fields) + data;
    if fields != [] {
      var first, rest := Optional(fields[0].there, EncodeZ(fields[0].n)), Written(fields[1..]);
      assert s == head + first + (rest + data);
      Stands(head, fields[0].there, fields[0].n, rest + data);
      assert s == (head + first) + rest + data;
      WrittenLaid(head + first, fields[1..], data);
    }
  }

  lemma DeltasWritten(p: Header, h: Header)
    requires p.hl == h.hl && !Ambiguous(p, h)
    ensures Deltas(p, h) + Optional(NewId(p, h), EncodeZ(Minus16(p.ipId, h.ipId))) == Written(Fields(p, h))
  {
    hide EncodeZ, Minus16, Minus32, Distance32, Distance16, Condense;
    Distance16Is(p.win, h.win);
    Distance16Is(p.ipId, h.ipId);
    DistanceIs(p.tcpAck, h.tcpAck);
    DistanceIs(p.tcpSeq, h.tcpSeq);
    CondenseIs(p, h);
    WrittenFive(Fields(p, h));
  }

  lemma WrittenFrom(f: seq<Field>, i: nat)
    requires i < |f|
    ensures Written(f[i..]) == Optional(f[i].there, EncodeZ(f[i].n)) + Written(f[i + 1..])
  {
    assert f[i..][1..] == f[i + 1..];
  }

  lemma WrittenNone()
    ensures Written([]) == []
  {
  }

  lemma WrittenFive(f: seq<Field>)
    requires |f| == 5
    ensures Written(f) == Optional(f[0].there, EncodeZ(f[0].n)) + Optional(f[1].there, EncodeZ(f[1].n))
                          + Optional(f[2].there, EncodeZ(f[2].n)) + Optional(f[3].there, EncodeZ(f[3].n))
                          + Optional(f[4].there, EncodeZ(f[4].n))
  {
    hide EncodeZ, Optional, Written;
    WrittenNone();
    WrittenFrom(f, 0);
    WrittenFrom(f, 1);
    WrittenFrom(f, 2);
    WrittenFrom(f, 3);
    WrittenFrom(f, 4);
    assert f[0..] == f && f[5..] == [];
  }

  lemma Distance16Is(a: u16, b: u16)
    ensures Minus16(a, b) == Distance16(a, b)
  {
  }

  // Which packets are sent compressed, which whole and which as they are.

  /** Not a fragment, and of the control bits that matter only ACK is set. */
  predicate Ordinary(p: Packet) {
    && p.Segment? && p.header.ipOff % 0x4000 == 0
    && p.header.flags.ack && !p.header.flags.syn && !p.header.flags.fin && !p.header.flags.rst
  }

  /** The slot of the packet's connection that was used last, or the one not used for longest. */
  predicate Chosen(tx: Tx, p: Header, k: nat)
    requires TxOk(tx)
  {
    && k < |tx.order|
    && (forall i :: 0 <= i < k ==> !SameConnection(p, tx.headers[tx.order[i]]))
    && (SameConnection(p, tx.headers[tx.order[k]]) || k == |tx.order| - 1)
  }

  lemma SearchIs(tx: Tx, p: Header, k: nat)
    requires TxOk(tx) && Chosen(tx, p, k)
    ensures Search(tx.order, tx.headers, p, 0) == if SameConnection(p, tx.headers[tx.order[k]]) then Some(k) else None
  {
  }

  /** One packet after another of a connection, with differences that can be expressed. */
  predicate Follows(p: Header, h: Header) {
    && SameConnection(p, h)
    && p.version == h.version && p.hl == h.hl && p.tos == h.tos && p.ipOff == h.ipOff && p.ttl == h.ttl
    && p.proto == h.proto && p.off == h.off && p.ipOptions == h.ipOptions && p.tcpOptions == h.tcpOptions
    && (p.flags.urg || p.urp == h.urp)
    && Distance32(p.tcpAck, h.tcpAck) < 0x1_0000 && Distance32(p.tcpSeq, h.tcpSeq) < 0x1_0000
    && !Ambiguous(p, h)
  }

  /** Nothing to express: probably a retransmission, unless the packet before carried no data and this one does. */
  predicate Repeated(p: Header, h: Header) {
    && !p.flags.urg && p.win == h.win && p.tcpAck == h.tcpAck && p.tcpSeq == h.tcpSeq
    && !(p.ipLen != h.ipLen && DataBefore(p, h) == 0)
  }

  lemma MustSendWholeIff(p: Header, h: Header)
    requires SameConnection(p, h)
    ensures MustSendWhole(p, h) <==> !Follows(p, h) || Repeated(p, h)
  {
    DistanceIs(p.tcpAck, h.tcpAck);
    DistanceIs(p.tcpSeq, h.tcpSeq);
    hide Minus32, Distance32;
  }

  /** How a packet is sent, from its fields and those of the slot chosen; which slot is now the newest and holds it. */
  lemma SentAs(tx: Tx, p: Packet, compressCid: bool, k: nat)
    requires TxOk(tx) && PacketOk(p) && k < |tx.order| && (p.Segment? ==> Chosen(tx, p.header, k))
    ensures var (tx2, sent) := Compress(tx, p, compressCid); var id := tx.order[k];
      var h := tx.headers[id];
      if !Ordinary(p) then tx2 == tx && sent == Plain(p)
      else
        && |tx2.order| == |tx.order| && tx2.order[0] == id
        && (forall i :: 0 < i <= k ==> tx2.order[i] == tx.order[i - 1])
        && (forall i :: k < i < |tx.order| ==> tx2.order[i] == tx.order[i])
        && if Cut(p) then sent == Plain(p) && tx2.headers == tx.headers && tx2.lastXmit == tx.lastXmit
           else
             && tx2.headers == tx.headers[id := p.header] && tx2.lastXmit as nat == id
             && sent == if !Follows(p.header, h) || Repeated(p.header, h)
                        then Uncompressed(p.(header := p.header.(proto := id)))
                        else
                          var cid := if compressCid && tx.lastXmit as nat == id then None else Some(id);
                          Compressed(CompressedOctets(p.header, h, cid, p.data))
  {
    hide MustSendWhole, Follows, Repeated, CompressedOctets, Cut, Search, SameConnection;
    if p.Segment? {
      SearchIs(tx, p.header, k);
      var h := tx.headers[tx.order[k]];
      if SameConnection(p.header, h) {
        MustSendWholeIff(p.header, h);
      } else {
        NoneFollows(p.header, h);
      }
    }
  }

  lemma NoneFollows(p: Header, h: Header)
    requires !SameConnection(p, h)
    ensures !Follows(p, h)
  {
  }

  // The checksum of a rebuilt header.

  /** The sum of words is what sums are: nothing for none, and additive. */
  lemma {:induction false} WordSumConcat(a: seq<u16>, b: seq<u16>)
    ensures WordSum(a + b) == WordSum(a) + WordSum(b)
    ensures |b| == 1 ==> WordSum(b) == b[0]
    decreases |b|
  {
    if b == [] {
      assert a + b == a;
    } else {
      var front := b[..|b| - 1];
      WordSumConcat(a, front);
      assert (a + b)[..|a + b| - 1] == a + front;
      assert |b| == 1 ==> front == [];
    }
  }

  lemma {:induction false} WordSumBound(words: seq<u16>)
    ensures WordSum(words) <= 0xffff * |words|
  {
    if words != [] {
      WordSumBound(words[..|words| - 1]);
    }
  }

  lemma FoldKeeps(n: nat)
    ensures Fold(n) % 0xffff == n % 0xffff
  {
    var q := n / 0x1_0000;
    assert n == Fold(n) + q * 0xffff;
  }

  lemma SumMore(h: Header, sum: u16)
    ensures FixedSum(h, sum) == FixedSum(h, 0) + sum
  {
  }

  lemma SameRest(n: nat, f: nat)
    requires n % 0xffff == f % 0xffff
    ensures (n - f + 0xffff) % 0xffff == 0
  {
  }

  lemma TwoFolds(n: nat)
    requires n < 0x100_0000
    ensures Fold(Fold(n)) < 0x1_0000 && Fold(Fold(n)) % 0xffff == n % 0xffff
  {
    FoldKeeps(n);
    FoldKeeps(Fold(n));
  }

  /** The ten words of the fixed part of a header, the checksum among them. */
  function FixedSum(h: Header, sum: u16): nat {
    (h.version * 16 + h.hl) * 256 + h.tos + h.ipLen + h.ipId + h.ipOff + h.ttl as nat * 256 + h.proto + sum
    + h.src / 0x1_0000 + h.src % 0x1_0000 + h.dst / 0x1_0000 + h.dst % 0x1_0000
  }

  /** With the checksum computed, the words of the header add up to zero in ones' complement. */
  lemma ChecksumVerifies(h: Header)
    requires Whole(h) && h.version < 16
    ensures (FixedSum(h, IpChecksum(h)) + WordSum(h.ipOptions)) % 0xffff == 0
  {
    hide Fold, WordSum, IpWords, FixedSum;
    var n := WordSum(IpWords(h));
    WordSumIs(h);
    IpSumSmall(h);
    TwoFolds(n);
    SameRest(n, Fold(Fold(n)));
    SumMore(h, IpChecksum(h));
  }

  lemma IpSumSmall(h: Header)
    requires Whole(h)
    ensures WordSum(IpWords(h)) < 0x100_0000
  {
    hide WordSum;
    WordSumBound(IpWords(h));
    assert |IpWords(h)| <= 30;
  }

  function TenOf(h: Header): (w: seq<u16>)
    ensures |w| == 10
  {
    [(h.version % 16 * 16 + h.hl % 16) * 256 + h.tos, h.ipLen, h.ipId, h.ipOff, h.ttl * 256 + h.proto, 0,
     h.src / 0x1_0000, h.src % 0x1_0000, h.dst / 0x1_0000, h.dst % 0x1_0000]
  }

  function SumOfTen(w: seq<u16>): nat
    requires |w| == 10
  {
    w[0] as nat + w[1] + w[2] + w[3] + w[4] + w[5] + w[6] + w[7] + w[8] + w[9]
  }

  lemma TenAre(h: Header)
    requires h.version < 16 && h.hl < 16
    ensures IpWords(h) == TenOf(h) + h.ipOptions
    ensures SumOfTen(TenOf(h)) == FixedSum(h, 0)
  {
    assert h.version % 16 == h.version && h.hl % 16 == h.hl;
  }

  lemma WordSumIs(h: Header)
    requires h.version < 16 && h.hl < 16
    ensures WordSum(IpWords(h)) == FixedSum(h, 0) + WordSum(h.ipOptions)
  {
    hide WordSum, TenOf, SumOfTen, FixedSum, IpWords;
    TenAre(h);
    TenWords(TenOf(h));
    WordSumConcat(TenOf(h), h.ipOptions);
  }

  lemma TenWords(w: seq<u16>)
    requires |w| == 10
    ensures WordSum(w) == SumOfTen(w)
  {
    hide WordSum;
    PrefixSum(w, 0);
    PrefixSum(w, 1);
    PrefixSum(w, 2);
    PrefixSum(w, 3);
    PrefixSum(w, 4);
    PrefixSum(w, 5);
    PrefixSum(w, 6);
    PrefixSum(w, 7);
    PrefixSum(w, 8);
    PrefixSum(w, 9);
    assert w[..10] == w;
  }

  lemma PrefixSum(w: seq<u16>, i: nat)
    requires i < |w|
    ensures WordSum(w[..0]) == 0 && WordSum(w[..i + 1]) == WordSum(w[..i]) + w[i]
  {
    assert w[..i + 1][..i] == w[..i];
  }

  // What the receiver refuses.

  /** Without a connection number, nothing is taken after an error; a number that is no slot is an error. */
  lemma Tossed(rx: Rx, s: seq<byte>)
    requires RxOk(rx) && s != []
    ensures !Has(s[0], 64) && rx.toss ==> UncompressTcp(rx, s) == (rx, None)
    ensures Has(s[0], 64) && |s| > 1 && s[1] >= 16 ==> UncompressTcp(rx, s) == (rx.(toss := true), None)
  {
    hide Has, Restore, Relabel;
  }

  /** What is handed up, and what is kept of it: the length is that of headers and data, and the sum verifies. */
  lemma Rebuilt(rx: Rx, s: seq<byte>)
    requires RxOk(rx) && s != [] && UncompressTcp(rx, s).1.Some?
    ensures var (rx2, out) := UncompressTcp(rx, s);
      var id := if Has(s[0], 64) then s[1] as nat else rx.lastRecv;
      && (Has(s[0], 64) ==> |s| > 1) && (!Has(s[0], 64) ==> !rx.toss) && id < 16 && out.value.Segment?
      && !rx2.toss && rx2.lastRecv as nat == id
      && rx2.slots == rx.slots[id := rx.slots[id].(header := out.value.header)]
      && |out.value.data| <= |s| && s[|s| - |out.value.data|..] == out.value.data
      && out.value.header.ipLen as nat == (rx.slots[id].hlen + |out.value.data|) % 0x1_0000
      && out.value.header.ipSum == IpChecksum(out.value.header)
  {
    hide Has, Restore, WordSum, Fold;
    SumIgnored();
  }

  /** The sum does not depend on the field it goes to. */
  lemma SumIgnored()
    ensures forall h: Header, sum: u16 :: IpChecksum(h.(ipSum := sum)) == IpChecksum(h)
  {
  }
}
