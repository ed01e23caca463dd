/** The compressor and decompressor as they run: slots linked in a ring, headers updated in place. */
module VjCompressModule {
  import opened Bits
  import opened Wrappers
  import opened VjSpec
  import opened VjRoundTrip
  import opened VjStream

  /** A transmit slot: its successor in the ring, its connection number and the saved header. */
  datatype Cstate = Cstate(next: nat, id: byte, header: Header)

  /** Following next from the slot last visits the slots of order, each once, and returns. */
  ghost predicate Ring(s: seq<Cstate>, order: seq<nat>, last: nat) {
    && 0 < |order| <= MAX_STATES && |s| == MAX_STATES
    && (forall i :: 0 <= i < |order| ==> order[i] < |order|)
    && (forall i, j :: 0 <= i < j < |order| ==> order[i] != order[j])
    && (forall i :: 0 <= i < |order| - 1 ==> s[order[i]].next == order[i + 1])
    && s[order[|order| - 1]].next == order[0]
    && last == order[|order| - 1]
  }

  ghost predicate Holds(s: seq<Cstate>, headers: seq<Header>, n: nat) {
    && |headers| == |s| && n <= |s|
    && (forall i :: 0 <= i < |s| ==> s[i].header == headers[i])
    && (forall i :: 0 <= i < n ==> s[i].id == i)
  }

  lemma RingNext(s: seq<Cstate>, order: seq<nat>, last: nat, k: nat)
    requires Ring(s, order, last) && k < |order|
    ensures order[k] < |order| <= |s| && last < |order|
    ensures s[order[k]].next == if k == |order| - 1 then order[0] else order[k + 1]
    ensures order[k] == last <==> k == |order| - 1
    ensures s[last].next == order[0]
    ensures order[k] == order[0] <==> k == 0
  {
  }

  lemma SearchIs(order: seq<nat>, headers: seq<Header>, p: Header, k: nat, found: bool)
    requires forall i :: 0 <= i < |order| ==> order[i] < |headers|
    requires k < |order|
    requires found ==> SameConnection(p, headers[order[k]])
    requires !found ==> k == |order| - 1 && !SameConnection(p, headers[order[k]])
    requires forall i :: 0 <= i < k ==> !SameConnection(p, headers[order[i]])
    ensures Search(order, headers, p, 0) == if found then Some(k) else None
  {
  }

  /** The slot before position k. */
  function Before(order: seq<nat>, k: nat): nat
    requires k < |order|
  {
    if k > 0 then order[k - 1] else order[|order| - 1]
  }

  lemma RotateRing(s: seq<Cstate>, order: seq<nat>, last: nat)
    requires Ring(s, order, last)
    ensures Ring(s, ToFront(order, |order| - 1), Before(order, |order| - 1))
  {
  }

  function Link(s: seq<Cstate>, i: nat, j: nat): (r: seq<Cstate>)
    requires i < |s|
  {
    s[i := s[i].(next := j)]
  }

  lemma LinkHolds(s: seq<Cstate>, i: nat, j: nat, headers: seq<Header>, n: nat)
    requires i < |s| && Holds(s, headers, n)
    ensures Holds(Link(s, i, j), headers, n)
  {
  }

  lemma RelinkRing(s: seq<Cstate>, order: seq<nat>, last: nat, k: nat)
    requires Ring(s, order, last) && 0 < k < |order| - 1
    ensures Ring(Link(Link(Link(s, order[k - 1], s[order[k]].next), order[k], order[0]), last, order[k]),
                 ToFront(order, k), last)
  {
    ToFrontOk(order, k);
    var r := ToFront(order, k);
    var t := Link(Link(Link(s, order[k - 1], s[order[k]].next), order[k], order[0]), last, order[k]);
    forall i | 0 <= i < |r| - 1 ensures t[r[i]].next == r[i + 1] {
      if i == 0 {
      } else if i < k {
        assert r[i] == order[i - 1] && r[i + 1] == order[i];
      } else if i == k {
        assert r[i] == order[k - 1] && r[i + 1] == order[k + 1];
      } else {
        assert r[i] == order[i] && r[i + 1] == order[i + 1];
      }
    }
  }

  lemma InitialRing(s: seq<Cstate>, m: nat)
    requires m < MAX_STATES == |s|
    requires s[0] == Cstate(m, 0, BLANK)
    requires forall j :: 1 <= j < |s| ==> s[j] == if j <= m then Cstate(j - 1, j, BLANK) else Cstate(0, 0, BLANK)
    ensures Ring(s, InitialTx(m).order, 0)
    ensures Holds(s, InitialTx(m).headers, m + 1)
    ensures |InitialTx(m).order| == m + 1 && InitialTx(m).lastXmit == NO_CONNECTION
  {
  }

  class VjCompress {
    const tstate: array<Cstate>
    const rstate: array<Slot>
    var lastCs: nat
    var lastRecv: byte
    var lastXmit: byte
    var toss: bool
    ghost var order: seq<nat>
    ghost var headers: seq<Header>

    ghost predicate TxValid()
      reads this`order, this`headers, this`lastCs, tstate
    {
      && tstate.Length == MAX_STATES
      && Ring(tstate[..], order, lastCs)
      && Holds(tstate[..], headers, |order|)
    }

    ghost function TxView(): (tx: Tx)
      requires TxValid()
      reads this`order, this`headers, this`lastXmit, this`lastCs, tstate
      ensures TxOk(tx)
    {
      Tx(order, headers, lastXmit)
    }

    /** Every slot blank; slot max_state newest, slot 0 oldest. */
    constructor (maxState: int)
      requires -1 <= maxState < MAX_STATES
      ensures TxValid() && TxView() == InitialTx(if maxState == -1 then MAX_STATES - 1 else maxState)
      ensures RxValid() && RxView() == InitialRx
      ensures fresh(tstate) && fresh(rstate)
    {
      hide Ring, Holds, InitialTx;
      var m := if maxState == -1 then MAX_STATES - 1 else maxState;
      tstate := new Cstate[MAX_STATES](_ => Cstate(0, 0, BLANK));
      rstate := new Slot[MAX_STATES](_ => Slot(BLANK, 0));
      lastCs, lastRecv, lastXmit, toss := 0, NO_CONNECTION, NO_CONNECTION, true;
      order, headers := InitialTx(m).order, InitialTx(m).headers;
      new;
      var i := m;
      while i > 0
        modifies tstate
        invariant 0 <= i <= m
        invariant forall j :: 0 <= j < MAX_STATES ==>
          tstate[j] == if i < j <= m then Cstate(j - 1, j, BLANK) else Cstate(0, 0, BLANK)
      {
        tstate[i] := Cstate(i - 1, i, BLANK);
        i := i - 1;
      }
      tstate[0] := Cstate(m, 0, BLANK);
      InitialRing(tstate[..], m);
      assert rstate[..] == InitialRx.slots;
    }

    /** The slot p belongs to, its predecessor in the ring, and whether it holds p's connection. */
    method FindSlot(p: Header) returns (found: bool, cs: nat, lcs: nat, ghost k: nat)
      requires TxValid()
      ensures k < |order| && cs == order[k] && lcs == Before(order, k)
      ensures Search(order, headers, p, 0) == if found then Some(k) else None
      ensures !found ==> k == |order| - 1
      ensures cs == order[var i := Search(order, headers, p, 0); if i.Some? then i.value else |order| - 1]
    {
      RingNext(tstate[..], order, lastCs, 0);
      k := 0;
      lcs := lastCs;
      cs := tstate[lastCs].next;
      found := SameConnection(p, tstate[cs].header);
      var first := true;
      hide SameConnection, Search, Ring;
      while !found && (first || cs != lastCs)
        invariant k < |order| && cs == order[k] < MAX_STATES && lcs == Before(order, k)
        invariant found == SameConnection(p, headers[order[k]])
        invariant forall i :: 0 <= i < k ==> !SameConnection(p, headers[order[i]])
        invariant first ==> k == 0
        decreases if first then |order| else |order| - 1 - k, if found then 0 else 1
      {
        RingNext(tstate[..], order, lastCs, k);
        lcs := cs;
        cs := tstate[cs].next;
        k := if k == |order| - 1 then 0 else k + 1;
        RingNext(tstate[..], order, lastCs, k);
        found := SameConnection(p, tstate[cs].header);
        first := false;
      }
      RingNext(tstate[..], order, lastCs, k);
      SearchIs(order, headers, p, k, found);
    }

    /** The ring after the slot cs at position k has been moved to the front. */
    method MoveToFront(cs: nat, lcs: nat, ghost k: nat)
      requires TxValid() && k < |order| && cs == order[k] && lcs == Before(order, k)
      modifies this`lastCs, this`order, tstate
      ensures TxValid() && order == ToFront(old(order), k)
    {
      RingNext(tstate[..], order, lastCs, k);
      RingNext(tstate[..], order, lastCs, 0);
      hide ToFront, Ring, Holds, Link;
      if cs == lastCs {
        RotateRing(tstate[..], order, lastCs);
        order, lastCs := ToFront(order, k), lcs;
      } else if cs != tstate[lastCs].next {
        Relink(cs, lcs, k);
      } else {
        assert ToFront(order, 0) == order;
      }
    }

    /** Unlink a slot in the middle of the ring and put it back behind the last one. */
    method Relink(cs: nat, lcs: nat, ghost k: nat)
      requires TxValid() && 0 < k < |order| - 1 && cs == order[k] && lcs == order[k - 1]
      modifies this`order, tstate
      ensures TxValid() && order == ToFront(old(order), k)
    {
      RingNext(tstate[..], order, lastCs, k);
      RingNext(tstate[..], order, lastCs, k - 1);
      RelinkRing(tstate[..], order, lastCs, k);
      hide ToFront, Ring, Holds, Link;
      var head := tstate[lastCs].next;
      SetNext(lcs, tstate[cs].next);
      SetNext(cs, head);
      SetNext(lastCs, cs);
      order := ToFront(order, k);
    }

    method SetNext(i: nat, j: nat)
      requires tstate.Length == MAX_STATES && i < MAX_STATES && Holds(tstate[..], headers, |order|)
      modifies tstate
      ensures tstate[..] == Link(old(tstate[..]), i, j) && Holds(tstate[..], headers, |order|)
    {
      LinkHolds(tstate[..], i, j, headers, |order|);
      tstate[i] := tstate[i].(next := j);
    }

    // Sending.

    method StoreHeader(cs: nat, p: Header)
      requires TxValid() && cs < |order|
      modifies this`headers, tstate
      ensures TxValid() && headers == old(headers)[cs := p]
    {
      headers := headers[cs := p];
      tstate[cs] := tstate[cs].(header := p);
    }

    method CompressTcp(p: Packet, compressCid: bool) returns (sent: Sent)
      requires TxValid() && PacketOk(p)
      modifies this`lastCs, this`lastXmit, this`order, this`headers, tstate
      ensures TxValid()
      ensures (TxView(), sent) == Compress(old(TxView()), p, compressCid)
    {
      hide Search, ToFront, Ring, Holds, MustSendWhole, CompressedOctets, Condense, Deltas;
      if !Compressible(p) {
        return Plain(p);
      }
      ghost var tx := TxView();
      var found, cs, lcs, k := FindSlot(p.header);
      SlotIs(tstate[..], order, lastCs, headers, k);
      MoveToFront(cs, lcs, k);
      SlotIs(tstate[..], order, lastCs, headers, 0);
      if Cut(p) {
        return Plain(p);
      }
      var h, id := tstate[cs].header, tstate[cs].id;
      var whole, c, newSeq := true, NOTHING, [];
      if found {
        whole, c, newSeq := Differences(p.header, h);
      }
      StoreHeader(cs, p.header);
      if whole {
        lastXmit := id;
        return Uncompressed(p.(header := p.header.(proto := id)));
      }
      var explicit := !compressCid || lastXmit != id;
      lastXmit := id;
      var octets := Assemble(p.header, h, c, newSeq, if explicit then Some(id) else None, p.data);
      return Compressed(octets);
    }

    // Receiving.

    ghost predicate RxValid()
      reads this`lastRecv, this`toss
    {
      rstate.Length == MAX_STATES && (!toss ==> lastRecv < MAX_STATES)
    }

    ghost function RxView(): (rx: Rx)
      requires RxValid()
      reads this`lastRecv, this`toss, rstate
      ensures RxOk(rx)
    {
      Rx(rstate[..], lastRecv, toss)
    }

    method UncompressErr()
      requires RxValid()
      modifies this`toss
      ensures RxValid() && RxView() == Missed(old(RxView()))
    {
      toss := true;
    }

    method UncompressUncomp(p: Packet) returns (got: Option<Packet>)
      requires RxValid()
      modifies this`toss, this`lastRecv, rstate
      ensures RxValid()
      ensures (RxView(), got) == UncompressWhole(old(RxView()), p)
    {
      if p.Runt? || p.header.proto >= MAX_STATES || !Whole(p.header) {
        toss := true;
        return None;
      }
      lastRecv := p.header.proto;
      toss := false;
      var h := p.header.(proto := IPPROTO_TCP);
      rstate[lastRecv] := Slot(h, HeaderLength(h));
      return Some(p.(header := h));
    }

    method UncompressTcp(s: seq<byte>) returns (got: Option<Packet>)
      requires RxValid()
      modifies this`toss, this`lastRecv, rstate
      ensures RxValid()
      ensures (RxView(), got) == VjSpec.UncompressTcp(old(RxView()), s)
    {
      hide Restore, Relabel, Has;
      var mask, pos := At(s, 0), 1;
      if Has(mask, 64) {
        if At(s, 1) >= MAX_STATES {
          toss := true;
          return None;
        }
        toss, lastRecv, pos := false, At(s, 1), 2;
      } else if toss {
        return None;
      }
      var slot := rstate[lastRecv];
      var h, vjlen := RestoreHeader(slot, mask, s, pos);
      if vjlen > |s| {
        rstate[lastRecv] := slot.(header := h);
        toss := true;
        return None;
      }
      h := h.(ipLen := (slot.hlen + |s| - vjlen) % 0x1_0000);
      var sum := SumHeader(h);
      h := h.(ipSum := sum);
      assert h == Relabel(Restore(slot, mask, s, pos).0, slot.hlen + |s| - vjlen) by {
        RelabelIs(Restore(slot, mask, s, pos).0, slot.hlen + |s| - vjlen);
      }
      rstate[lastRecv] := slot.(header := h);
      return Some(Segment(h, s[vjlen..]));
    }
  }

  lemma RelabelIs(h: Header, length: nat)
    ensures var h1 := h.(ipLen := length % 0x1_0000); Relabel(h, length) == h1.(ipSum := IpChecksum(h1))
  {
  }

  lemma SlotIs(s: seq<Cstate>, order: seq<nat>, last: nat, headers: seq<Header>, k: nat)
    requires Ring(s, order, last) && Holds(s, headers, |order|) && k < |order|
    ensures order[k] < |order| <= |s| && s[order[k]].id == order[k] && s[order[k]].header == headers[order[k]]
  {
  }

  /** The fields that changed between the saved header h and p, if they can be expressed. */
  method Collect(p: Header, h: Header) returns (whole: bool, c: Changes, newSeq: seq<byte>)
    ensures whole == TooDifferent(p, h)
    ensures !whole ==> c == Changed(p, h) && newSeq == FieldDeltas(p, h)
  {
    hide Minus16, Minus32, EncodeZ, SameShape, Plus16, Plus32;
    whole, c, newSeq := true, NOTHING, [];
    if !SameShape(p, h) {
      return;
    }
    PlusMinus16(p.win, h.win);
    PlusMinus32(p.tcpAck, h.tcpAck);
    PlusMinus32(p.tcpSeq, h.tcpSeq);
    if p.flags.urg {
      newSeq := EncodeZ(p.urp);
      c := c.(u := true);
    } else if p.urp != h.urp {
      return;
    }
    var deltaW := Minus16(p.win, h.win);
    if deltaW > 0 {
      newSeq := newSeq + EncodeZ(deltaW);
      c := c.(w := true);
    }
    assert newSeq == Optional(p.flags.urg, EncodeZ(p.urp)) + Optional(p.win != h.win, EncodeZ(deltaW));
    var deltaA := Minus32(p.tcpAck, h.tcpAck);
    if deltaA > 0xffff {
      return;
    }
    if deltaA > 0 {
      newSeq := newSeq + EncodeZ(deltaA);
      c := c.(a := true);
    }
    var deltaS := Minus32(p.tcpSeq, h.tcpSeq);
    if deltaS > 0xffff {
      return;
    }
    if deltaS > 0 {
      newSeq := newSeq + EncodeZ(deltaS);
      c := c.(s := true);
    }
    whole := false;
  }

  /** What changed between the saved header h and p, or that p has to go out whole. */
  method Differences(p: Header, h: Header) returns (whole: bool, c: Changes, newSeq: seq<byte>)
    ensures whole == MustSendWhole(p, h)
    ensures !whole ==> c == Condense(p, h) && newSeq == Deltas(p, h)
  {
    hide Minus32, FieldDeltas, TooDifferent, Changed;
    whole, c, newSeq := Collect(p, h);
    if whole {
      return;
    }
    var deltaA, deltaS := Minus32(p.tcpAck, h.tcpAck), Minus32(p.tcpSeq, h.tcpSeq);
    if c == NOTHING {
      whole := !(p.ipLen != h.ipLen && h.ipLen == HeaderLength(p));
    } else if c == SPECIAL_I || c == SPECIAL_D {
      whole := true;
    } else if c == Changes(false, false, true, true) {
      if deltaS == deltaA && deltaS == h.ipLen - HeaderLength(p) {
        c, newSeq := SPECIAL_I, [];
      }
    } else if c == Changes(false, false, false, true) {
      if deltaS == h.ipLen - HeaderLength(p) {
        c, newSeq := SPECIAL_D, [];
      }
    }
  }

  /** The compressed packet, given the change mask and the deltas before the identification. */
  method Assemble(p: Header, h: Header, changes: Changes, deltas: seq<byte>, id: Option<byte>, data: seq<byte>)
    returns (r: seq<byte>)
    requires changes == Condense(p, h) && deltas == Deltas(p, h)
    ensures r == CompressedOctets(p, h, id, data)
  {
    hide Condense, Deltas, Mask, EncodeZ;
    var newSeq := deltas;
    var newId := p.ipId != h.ipId + 1;
    if newId {
      newSeq := newSeq + EncodeZ(Minus16(p.ipId, h.ipId));
    }
    r := ChangeOctets(Mask(changes, newId, p.flags.push), id);
    r := r + [p.tcpSum / 256, p.tcpSum % 256];
    r := r + newSeq + data;
    assert r == CompressedOctets(p, h, id, data);
  }

  method ReadDelta(s: seq<byte>, pos: nat) returns (n: u16, next: nat)
    ensures n == Decode(s, pos) && next == Past(s, true, pos)
  {
    if At(s, pos) == 0 {
      return 256 * At(s, pos + 1) + At(s, pos + 2), pos + 3;
    } else {
      return At(s, pos), pos + 1;
    }
  }

  /** The saved header with a compressed packet applied, and where the data starts. */
  method RestoreHeader(slot: Slot, mask: byte, s: seq<byte>, pos: nat) returns (h: Header, cp: nat)
    ensures (h, cp) == Restore(slot, mask, s, pos)
  {
    hide Decode, Past, Plus16, Plus32, LastData, Has, At;
    h, cp := slot.header, pos;
    h := h.(tcpSum := 256 * At(s, cp) + At(s, cp + 1));
    cp := cp + 2;
    h := h.(flags := h.flags.(push := Has(mask, 16)));
    h, cp := RestoreFieldsOf(h, slot.hlen, ChangesOf(mask), s, cp);
    if Has(mask, 32) {
      var n: u16;
      n, cp := ReadDelta(s, cp);
      h := h.(ipId := Plus16(h.ipId, n));
    } else {
      h := h.(ipId := Plus16(h.ipId, 1));
    }
  }

  method RestoreFieldsOf(saved: Header, hlen: nat, c: Changes, s: seq<byte>, pos: nat) returns (h: Header, cp: nat)
    ensures (h, cp) == RestoreTcp(saved, hlen, c, s, pos)
  {
    hide Decode, Plus16, Plus32, LastData;
    h, cp := saved, pos;
    if c == SPECIAL_I {
      var i := LastData(h.ipLen, hlen);
      h := h.(tcpAck := Plus32(h.tcpAck, i));
      h := h.(tcpSeq := Plus32(h.tcpSeq, i));
    } else if c == SPECIAL_D {
      h := h.(tcpSeq := Plus32(h.tcpSeq, LastData(h.ipLen, hlen)));
    } else {
      var n: u16;
      if c.u {
        n, cp := ReadDelta(s, cp);
        h := h.(flags := h.flags.(urg := true), urp := n);
      } else {
        h := h.(flags := h.flags.(urg := false));
      }
      if c.w {
        n, cp := ReadDelta(s, cp);
        h := h.(win := Plus16(h.win, n));
      }
      if c.a {
        n, cp := ReadDelta(s, cp);
        h := h.(tcpAck := Plus32(h.tcpAck, n));
      }
      if c.s {
        n, cp := ReadDelta(s, cp);
        h := h.(tcpSeq := Plus32(h.tcpSeq, n));
      }
    }
  }

  /** The IP header checksum, word by word. */
  method SumHeader(h: Header) returns (sum: u16)
    ensures sum == IpChecksum(h)
  {
    var words := IpWords(h);
    hide IpWords;
    var n: nat, i: nat := 0, 0;
    while i < |words|
      invariant 0 <= i <= |words| && n == WordSum(words[..i])
    {
      assert words[..i + 1][..i] == words[..i];
      n := n + words[i];
      i := i + 1;
    }
    assert words[..i] == words;
    n := n % 0x1_0000 + n / 0x1_0000;
    n := n % 0x1_0000 + n / 0x1_0000;
    sum := 0xffff - n % 0x1_0000;
  }
}
