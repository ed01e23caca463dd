/**
 * The decompressor rebuilds every header: exactly what it makes of a compressed
 * packet, when that is the original, and the round trip over whole streams.
 */
module VjRoundTrip {
  import opened Bits
  import opened Wrappers
  import opened VjSpec

  // The octets of a compressed packet, read back field by field.

  lemma DecodeEncode(pre: seq<byte>, n: u16, post: seq<byte>)
    ensures var s := pre + EncodeZ(n) + post;
            Decode(s, |pre|) == n && Past(s, true, |pre|) == |pre + EncodeZ(n)|
  {
    var s := pre + EncodeZ(n) + post;
    assert s[|pre|] == EncodeZ(n)[0];
    if n >= 256 || n == 0 {
      assert s[|pre| + 1] == n / 256 && s[|pre| + 2] == n % 256;
    }
  }

  /** An optional delta: skipped when absent, and decoded when present. */
  lemma DecodeOptional(pre: seq<byte>, b: bool, n: u16, post: seq<byte>)
    ensures var s := pre + Optional(b, EncodeZ(n)) + post;
            (b ==> Decode(s, |pre|) == n) && Past(s, b, |pre|) == |pre + Optional(b, EncodeZ(n))|
  {
    if b {
      DecodeEncode(pre, n, post);
    }
  }

  lemma SevenBits(u: nat, w: nat, a: nat, s: nat, p: nat, i: nat, x: nat, m: byte)
    requires u < 2 && w < 2 && a < 2 && s < 2 && p < 2 && i < 2 && x < 2
    requires m == u + 2 * w + 4 * a + 8 * s + 16 * p + 32 * i + 64 * x
    ensures Has(m, 1) == (u == 1) && Has(m, 2) == (w == 1) && Has(m, 4) == (a == 1) && Has(m, 8) == (s == 1)
    ensures Has(m, 16) == (p == 1) && Has(m, 32) == (i == 1) && Has(m, 64) == (x == 1)
  {
    assert m / 2 == w + 2 * a + 4 * s + 8 * p + 16 * i + 32 * x;
    assert m / 4 == a + 2 * s + 4 * p + 8 * i + 16 * x;
    assert m / 8 == s + 2 * p + 4 * i + 8 * x;
    assert m / 16 == p + 2 * i + 4 * x;
    assert m / 32 == i + 2 * x;
    assert m / 64 == x;
  }

  lemma MaskBits(c: Changes, i: bool, push: bool, explicit: bool)
    ensures var m := Mask(c, i, push) + 64 * Bit(explicit);
            && m < 256 && ChangesOf(m) == c
            && Has(m, 16) == push && Has(m, 32) == i && Has(m, 64) == explicit
  {
    hide Has;
    SevenBits(Bit(c.u), Bit(c.w), Bit(c.a), Bit(c.s), Bit(push), Bit(i), Bit(explicit),
              Mask(c, i, push) + 64 * Bit(explicit));
  }

  lemma PlusMinus16(a: u16, b: u16)
    ensures Plus16(b, Minus16(a, b)) == a
    ensures Minus16(a, b) == 0 <==> a == b
  {
  }

  lemma PlusMinus32(a: u32, b: u32)
    ensures Plus32(b, Minus32(a, b)) == a
    ensures Minus32(a, b) == 0 <==> a == b
  {
  }

  /** What is known of a slot a compressed packet refers to. */
  predicate Saved(h: Header) {
    && Whole(h) && h.proto == IPPROTO_TCP
    && h.flags.ack && !h.flags.syn && !h.flags.fin && !h.flags.rst
  }

  predicate Sendable(p: Header, h: Header) {
    && Saved(h) && Saved(p) && SameConnection(p, h) && !MustSendWhole(p, h)
  }

  /** p with the bits no compressed packet carries taken from the saved header. */
  function Carried(p: Header, h: Header): Header {
    p.(x2 := h.x2, ipLen := h.ipLen, ipSum := h.ipSum,
       flags := p.flags.(ecn := h.flags.ecn,
                         urg := if Special(Condense(p, h)) then h.flags.urg else p.flags.urg))
  }

  /** The header in the slot once the checksum and the PUSH bit are in. */
  function Pushed(p: Header, h: Header): Header {
    h.(tcpSum := p.tcpSum, flags := h.flags.(push := p.flags.push))
  }

  /** A packet sent with a special mask moves on by just the data of its predecessor. */
  lemma SpecialMoves(p: Header, h: Header)
    requires Sendable(p, h) && Special(Condense(p, h))
    ensures Plus32(h.tcpSeq, LastData(h.ipLen, HeaderLength(h))) == p.tcpSeq
    ensures Condense(p, h) == SPECIAL_I ==> Plus32(h.tcpAck, LastData(h.ipLen, HeaderLength(h))) == p.tcpAck
    ensures Condense(p, h) == SPECIAL_D ==> p.tcpAck == h.tcpAck
    ensures p.urp == h.urp && p.win == h.win
  {
    hide Plus32;
    PlusMinus32(p.tcpAck, h.tcpAck);
    PlusMinus32(p.tcpSeq, h.tcpSeq);
  }

  lemma RestoreSpecial(p: Header, h: Header, s: seq<byte>, pos: nat)
    requires Sendable(p, h) && Special(Condense(p, h))
    ensures RestoreTcp(Pushed(p, h), HeaderLength(h), Condense(p, h), s, pos)
         == (Carried(p, h).(ipId := h.ipId), pos)
  {
    SpecialMoves(p, h);
    hide Condense, LastData, Plus32, Minus32;
  }

  /** Four optional deltas in a row. */
  lemma FourDeltas(pre: seq<byte>, c: Changes, nu: u16, nw: u16, na: u16, ns: u16, post: seq<byte>)
    ensures
      var u, w, a, q := Optional(c.u, EncodeZ(nu)), Optional(c.w, EncodeZ(nw)), Optional(c.a, EncodeZ(na)),
                        Optional(c.s, EncodeZ(ns));
      var s := pre + (u + w + a + q) + post;
      var pw := Past(s, c.u, |pre|);
      var pa := Past(s, c.w, pw);
      var ps := Past(s, c.a, pa);
      && (c.u ==> Decode(s, |pre|) == nu)
      && (c.w ==> Decode(s, pw) == nw)
      && (c.a ==> Decode(s, pa) == na)
      && (c.s ==> Decode(s, ps) == ns)
      && Past(s, c.s, ps) == |pre + (u + w + a + q)|
  {
    hide Decode, Past, Optional, EncodeZ;
    var u, w, a, q := Optional(c.u, EncodeZ(nu)), Optional(c.w, EncodeZ(nw)), Optional(c.a, EncodeZ(na)),
                      Optional(c.s, EncodeZ(ns));
    var s := pre + (u + w + a + q) + post;
    assert s == pre + u + (w + a + q + post);
    assert s == (pre + u) + w + (a + q + post);
    assert s == (pre + u + w) + a + (q + post);
    assert s == (pre + u + w + a) + q + post;
    DecodeOptional(pre, c.u, nu, w + a + q + post);
    DecodeOptional(pre + u, c.w, nw, a + q + post);
    DecodeOptional(pre + u + w, c.a, na, q + post);
    DecodeOptional(pre + u + w + a, c.s, ns, post);
  }

  lemma DeltasMove(p: Header, h: Header)
    requires Sendable(p, h) && !Special(Condense(p, h))
    ensures Condense(p, h) == Changed(p, h)
    ensures Plus16(h.win, Minus16(p.win, h.win)) == p.win
    ensures Minus32(p.tcpAck, h.tcpAck) < 0x1_0000 && Minus32(p.tcpSeq, h.tcpSeq) < 0x1_0000
    ensures Plus32(h.tcpAck, Minus32(p.tcpAck, h.tcpAck)) == p.tcpAck
    ensures Plus32(h.tcpSeq, Minus32(p.tcpSeq, h.tcpSeq)) == p.tcpSeq
    ensures !p.flags.urg ==> p.urp == h.urp
  {
    PlusMinus16(p.win, h.win);
    PlusMinus32(p.tcpAck, h.tcpAck);
    PlusMinus32(p.tcpSeq, h.tcpSeq);
    hide Plus16, Plus32, Minus16, Minus32;
  }

  lemma DeltasAre(p: Header, h: Header)
    requires Sendable(p, h) && !Special(Condense(p, h))
    requires Minus32(p.tcpAck, h.tcpAck) < 0x1_0000 && Minus32(p.tcpSeq, h.tcpSeq) < 0x1_0000
    ensures var c := Changed(p, h);
      Deltas(p, h) == Optional(c.u, EncodeZ(p.urp)) + Optional(c.w, EncodeZ(Minus16(p.win, h.win)))
                      + Optional(c.a, EncodeZ(Minus32(p.tcpAck, h.tcpAck)))
                      + Optional(c.s, EncodeZ(Minus32(p.tcpSeq, h.tcpSeq)))
  {
    hide Optional, EncodeZ, Minus16, Minus32, Condense, MustSendWhole;
  }

  lemma RestoreDeltas(p: Header, h: Header, pre: seq<byte>, post: seq<byte>)
    requires Sendable(p, h) && !Special(Condense(p, h))
    ensures RestoreTcp(Pushed(p, h), HeaderLength(h), Condense(p, h), pre + Deltas(p, h) + post, |pre|)
         == (Carried(p, h).(ipId := h.ipId), |pre + Deltas(p, h)|)
  {
    hide Decode, Past, Optional, EncodeZ, Plus16, Plus32, Minus16, Minus32, Condense, Deltas;
    DeltasMove(p, h);
    DeltasAre(p, h);
    FourDeltas(pre, Changed(p, h), p.urp, Minus16(p.win, h.win), Minus32(p.tcpAck, h.tcpAck),
               Minus32(p.tcpSeq, h.tcpSeq), post);
  }

  /** RestoreTcp over either form of the deltas. */
  lemma RestoreFields(p: Header, h: Header, pre: seq<byte>, post: seq<byte>)
    requires Sendable(p, h)
    ensures RestoreTcp(Pushed(p, h), HeaderLength(h), Condense(p, h), pre + Deltas(p, h) + post, |pre|)
         == (Carried(p, h).(ipId := h.ipId), |pre + Deltas(p, h)|)
  {
    hide RestoreTcp, Condense, Carried, Pushed;
    if Special(Condense(p, h)) {
      RestoreSpecial(p, h, pre + Deltas(p, h) + post, |pre|);
    } else {
      RestoreDeltas(p, h, pre, post);
    }
  }

  lemma RestoreId(p: Header, h: Header, pre: seq<byte>, post: seq<byte>)
    ensures var s := pre + Optional(NewId(p, h), EncodeZ(Minus16(p.ipId, h.ipId))) + post;
      && Plus16(h.ipId, if NewId(p, h) then Decode(s, |pre|) else 1) == p.ipId
      && (if NewId(p, h) then Past(s, true, |pre|) else |pre|) == |s| - |post|
  {
    hide Decode;
    PlusMinus16(p.ipId, h.ipId);
    DecodeOptional(pre, NewId(p, h), Minus16(p.ipId, h.ipId), post);
  }

  function Head(p: Header, h: Header, id: Option<byte>): seq<byte> {
    ChangeOctets(Mask(Condense(p, h), NewId(p, h), p.flags.push), id)
  }

  lemma HeadFirst(p: Header, h: Header, id: Option<byte>, data: seq<byte>)
    ensures var s, head := CompressedOctets(p, h, id, data), Head(p, h, id);
      |head| > 0 && At(s, 0) == head[0] && (id.Some? ==> |head| == 2 && At(s, 1) == head[1])
  {
    hide Mask, Condense, NewId, Deltas, EncodeZ, Optional, ChangeOctets, Octets16, Minus16;
    var head := Head(p, h, id);
    var s := CompressedOctets(p, h, id, data);
    assert |head| <= |s| && forall i :: 0 <= i < |head| ==> s[i] == head[i];
  }

  lemma ChangeOctetIs(mask: byte, id: Option<byte>)
    requires mask < 64
    ensures ChangeOctets(mask, id)[0] == mask + 64 * Bit(id.Some?)
    ensures id.Some? ==> ChangeOctets(mask, id)[1] == id.value
  {
  }

  /** The change octet and the connection number of a compressed packet. */
  lemma HeadIs(p: Header, h: Header, id: Option<byte>, data: seq<byte>)
    ensures var s := CompressedOctets(p, h, id, data); var mask := At(s, 0);
      && ChangesOf(mask) == Condense(p, h) && Has(mask, 16) == p.flags.push && Has(mask, 32) == NewId(p, h)
      && Has(mask, 64) == id.Some? && (id.Some? ==> At(s, 1) == id.value)
      && |Head(p, h, id)| == if id.Some? then 2 else 1
  {
    hide ChangesOf, Has, Mask, Condense, NewId, Deltas, EncodeZ, Optional, CompressedOctets, ChangeOctets, At, Bit;
    MaskBits(Condense(p, h), NewId(p, h), p.flags.push, id.Some?);
    HeadFirst(p, h, id, data);
    ChangeOctetIs(Mask(Condense(p, h), NewId(p, h), p.flags.push), id);
  }

  lemma SumIs(p: Header, h: Header, id: Option<byte>, data: seq<byte>)
    ensures var s := CompressedOctets(p, h, id, data); var pos := |Head(p, h, id)|;
      256 * At(s, pos) + At(s, pos + 1) == p.tcpSum
  {
    hide Mask, Condense, NewId, Deltas, EncodeZ, Optional;
    var s := CompressedOctets(p, h, id, data);
    var pos := |Head(p, h, id)|;
    assert s[pos] == Octets16(p.tcpSum)[0] && s[pos + 1] == Octets16(p.tcpSum)[1];
  }

  /** Applying a compressed packet to the header its sender had saved. */
  lemma RestoreIs(p: Header, h: Header, id: Option<byte>, data: seq<byte>)
    requires Sendable(p, h)
    ensures var s := CompressedOctets(p, h, id, data);
      && Restore(Slot(h, HeaderLength(h)), At(s, 0), s, |Head(p, h, id)|) == (Carried(p, h), |s| - |data|)
      && s[|s| - |data|..] == data
  {
    hide ChangesOf, Has, Mask, Condense, NewId, Deltas, EncodeZ, Optional, RestoreTcp, Past, Decode, Plus16, Minus16,
         ChangeOctets, Sendable, Special, At;
    var s := CompressedOctets(p, h, id, data);
    var head := Head(p, h, id) + Octets16(p.tcpSum);
    var tail := Optional(NewId(p, h), EncodeZ(Minus16(p.ipId, h.ipId)));
    assert s == head + Deltas(p, h) + (tail + data);
    assert s == (head + Deltas(p, h)) + tail + data;
    HeadIs(p, h, id, data);
    SumIs(p, h, id, data);
    RestoreFields(p, h, head, tail + data);
    RestoreId(p, h, head + Deltas(p, h), data);
  }
}
