/**
 The async HDLC module of modules/ppp_ahdlc.c as an object whose receive buffer
 is filled in place, and loop_chars of pppd/demand.c with its frame buffer.
 */
module Hdlc {
  import opened Wrappers
  import opened HdlcSpec
  import opened HdlcRoundTrip
  import Fcs

  class Ahdlc {
    var flush: bool
    var escaped: bool
    var rxBuf: array?<bv8>
    var rxLen: nat
    var rxSize: nat
    var infcs: bv16
    var xaccm: AsyncMap
    var raccm: bv32
    var mru: nat

    ghost predicate Valid()
      reads this
    {
      rxBuf != null ==> rxBuf.Length == rxSize && rxLen <= rxSize
    }

    ghost function State(): Rx
      requires Valid()
      reads this, rxBuf
    {
      Rx(flush, escaped, if rxBuf == null then None else Some(rxBuf[..rxLen]), rxSize, infcs)
    }

    /** ahdlc_open */
    constructor ()
      ensures Valid() && rxBuf == null && Clean(State())
      ensures raccm == 0 && mru == PPP_MRU && MapOk(xaccm, raccm)
    {
      flush, escaped, rxBuf, rxLen, rxSize, infcs := false, false, null, 0, 0, 0;
      raccm, mru := 0, PPP_MRU;
      xaccm := [0xffffffff, 0, 0, 0x60000000, 0, 0, 0, 0];
      new;
      InitialMapOk();
    }

    /** The transmit map ioctl. */
    method SetXaccm(m: AsyncMap)
      requires Valid()
      modifies `xaccm
      ensures Valid() && xaccm == SetMap(m)
    {
      xaccm := m[2 := m[2] & 0xbfffffff][3 := m[3] | 0x60000000];
    }

    /** ahdlc_encode */
    method Encode(frame: octets, lead: bool) returns (out: array<bv8>, n: nat)
      ensures fresh(out) && out.Length == Allocated(frame) && n <= out.Length
      ensures out[..n] == HdlcSpec.Encode(frame, xaccm, lead)
    {
      hide InTxMap, Fcs.Step, Fcs.Of, Fcs.Trailer, Stuff, StuffOctet, IsLcp;
      out := new bv8[Allocated(frame)](_ => 0);
      n := 0;
      if |frame| < HDRLEN {
        return;
      }
      if lead {
        out[n] := FLAG;
        n := n + 1;
      }
      ghost var prefix := out[..n];
      assert prefix == if lead then [FLAG] else [];
      var escapes := if IsLcp(frame) then xaccm[0 := 0xffffffff] else xaccm;
      var fcs;
      n, fcs := PutData(out, n, frame, escapes);
      StuffTwo(frame, Fcs.Trailer(fcs), escapes);
      n := PutTrailer(out, n, Fcs.Trailer(fcs), escapes);
      Regroup(prefix, Stuff(frame, escapes), StuffOctet(Fcs.Trailer(fcs)[0], escapes),
              StuffOctet(Fcs.Trailer(fcs)[1], escapes));
    }

    /** The FCS and the closing flag. */
    method PutTrailer(out: array<bv8>, n: nat, trailer: octets, escapes: AsyncMap) returns (n': nat)
      requires n + 5 <= out.Length && |trailer| == 2
      modifies out
      ensures n' <= n + 5
      ensures out[..n'] == old(out[..n]) + StuffOctet(trailer[0], escapes) + StuffOctet(trailer[1], escapes) + [FLAG]
    {
      hide StuffOctet;
      n' := PutStuffed(out, n, trailer[0], escapes);
      n' := PutStuffed(out, n', trailer[1], escapes);
      ghost var was := out[..n'];
      out[n'] := FLAG;
      n' := n' + 1;
      assert out[..n'] == was + [FLAG];
    }

    /** The octets of a frame from position n on, and its FCS. */
    method PutData(out: array<bv8>, n: nat, frame: octets, escapes: AsyncMap) returns (n': nat, fcs: bv16)
      requires n + 2 * |frame| <= out.Length
      modifies out
      ensures n <= n' <= n + 2 * |frame| && out[..n'] == old(out[..n]) + Stuff(frame, escapes)
      ensures fcs == Fcs.Of(Fcs.INIT, frame)
    {
      hide StuffOctet, Fcs.Step;
      n', fcs := n, Fcs.INIT;
      var i := 0;
      assert frame[..0] == [];
      while i < |frame|
        invariant 0 <= i <= |frame| && n <= n' <= n + 2 * i
        invariant out[..n'] == old(out[..n]) + Stuff(frame[..i], escapes)
        invariant fcs == Fcs.Of(Fcs.INIT, frame[..i])
      {
        assert frame[..i + 1][..i] == frame[..i];
        fcs := Fcs.Step(fcs, frame[i]);
        n' := PutStuffed(out, n', frame[i], escapes);
        i := i + 1;
      }
      assert frame[..i] == frame;
    }

    /** Write one octet at position n, escaped if the map says so. */
    method PutStuffed(out: array<bv8>, n: nat, c: bv8, escapes: AsyncMap) returns (n': nat)
      requires n + 2 <= out.Length
      modifies out
      ensures n < n' <= n + 2 && out[..n'] == old(out[..n]) + StuffOctet(c, escapes)
    {
      hide InTxMap;
      n' := n;
      if InTxMap(c, escapes) {
        out[n'] := ESCAPE;
        n' := n' + 1;
        out[n'] := c ^ TRANS;
      } else {
        out[n'] := c;
      }
      n' := n' + 1;
    }

    /** A flag arrives. */
    method ReceiveFlag() returns (events: seq<Event>)
      requires Valid()
      modifies this
      ensures Valid() && (State(), events) == RxStep(old(State()), FLAG, raccm, mru)
      ensures raccm == old(raccm) && mru == old(mru) && xaccm == old(xaccm)
      ensures rxBuf == old(rxBuf) || rxBuf == null
    {
      hide InRxMap, Fcs.Step;
      events := [];
      if flush || rxBuf == null || rxLen == 0 {
        flush := false;
        return;
      }
      if infcs == Fcs.GOOD {
        events := [Frame(DropFcs(rxBuf[..rxLen]))];
      } else {
        flush, escaped := false, false;
        events := [InputError];
      }
      rxBuf := null;
    }

    /** Allocate a receive buffer if there is none. */
    method MakeReady()
      requires Valid() && !flush
      modifies this
      ensures Valid() && rxBuf != null && State() == Ready(old(State()), mru)
      ensures raccm == old(raccm) && mru == old(mru) && xaccm == old(xaccm)
      ensures rxBuf == old(rxBuf) || fresh(rxBuf)
    {
      if rxBuf == null {
        rxSize := if mru < PPP_MRU then PPP_MRU else mru;
        rxSize := rxSize + 32;
        rxBuf, rxLen := new bv8[rxSize](_ => 0), 0;
        flush, escaped := false, false;
        infcs := Fcs.INIT;
      }
    }

    /** Put an octet into the receive buffer. */
    method StoreOctet(d: bv8)
      requires Valid() && rxBuf != null
      modifies this, rxBuf
      ensures Valid() && State() == Store(old(State()), d)
      ensures raccm == old(raccm) && mru == old(mru) && xaccm == old(xaccm)
      ensures rxBuf == old(rxBuf) || rxBuf == null
    {
      hide Fcs.Step;
      if rxLen < rxSize {
        infcs := Fcs.Step(infcs, d);
        ghost var was := rxBuf[..rxLen];
        rxBuf[rxLen] := d;
        rxLen := rxLen + 1;
        assert rxBuf[..rxLen] == was + [d];
      } else {
        rxBuf := null;
        flush := true;
      }
    }

    /** ahdlc_decode for one octet */
    method ReceiveOctet(c: bv8) returns (events: seq<Event>)
      requires Valid()
      modifies this, rxBuf
      ensures Valid() && (State(), events) == RxStep(old(State()), c, raccm, mru)
      ensures raccm == old(raccm) && mru == old(mru) && xaccm == old(xaccm)
      ensures rxBuf == old(rxBuf) || rxBuf == null || fresh(rxBuf)
    {
      hide InRxMap, Fcs.Step, Store, Ready;
      events := [];
      if c == FLAG {
        events := ReceiveFlag();
        return;
      }
      if flush {
        return;
      }
      MakeReady();
      if c == ESCAPE {
        escaped := true;
        return;
      }
      var d := c;
      if escaped {
        d := c ^ TRANS;
        escaped := false;
      } else if InRxMap(c, raccm) {
        return;
      }
      StoreOctet(d);
    }

    /** ahdlc_decode */
    method Receive(input: octets) returns (events: seq<Event>)
      requires Valid()
      modifies this, rxBuf
      ensures Valid() && (State(), events) == RxRun(old(State()), input, old(raccm), old(mru))
    {
      hide RxStep;
      events := [];
      var i := 0;
      assert input[..0] == [];
      while i < |input|
        invariant 0 <= i <= |input| && Valid()
        invariant raccm == old(raccm) && mru == old(mru)
        invariant rxBuf == old(rxBuf) || rxBuf == null || fresh(rxBuf)
        invariant (State(), events) == RxRun(old(State()), input[..i], old(raccm), old(mru))
      {
        assert input[..i + 1][..i] == input[..i];
        var more := ReceiveOctet(input[i]);
        events := events + more;
        i := i + 1;
      }
      assert input[..i] == input;
    }
  }

  lemma Regroup(p: octets, a: octets, b: octets, c: octets)
    ensures p + a + b + c + [FLAG] == p + (a + b + c) + [FLAG]
  {
  }

  lemma NoneInZero(c: bv8)
    ensures !InRxMap(c, 0) && !Bit(0, c)
  {
  }

  /** The map after opening works with a receiver that drops nothing. */
  lemma InitialMapOk()
    ensures MapOk([0xffffffff, 0, 0, 0x60000000, 0, 0, 0, 0], 0)
  {
    var m: AsyncMap := [0xffffffff, 0, 0, 0, 0, 0, 0, 0];
    assert !InTxMap(0x5d, m) by {
      assert WordOf(0x5d) == 2;
      Bv3Values(2);
      NoneInZero(0x5d);
    }
    forall c: bv8
      ensures !InRxMap(c, 0)
    {
      NoneInZero(c);
    }
    SetMapOkIff(m, 0);
    assert SetMap(m) == [0xffffffff, 0, 0, 0x60000000, 0, 0, 0, 0];
  }

  class LoopReceiver {
    var escape: bool
    var flush: bool
    const frame: array<bv8>
    var framelen: nat
    var fcs: bv16

    ghost predicate Valid()
      reads this
    {
      frame.Length == FRAMEMAX && framelen <= FRAMEMAX
    }

    ghost function State(): Loop
      requires Valid()
      reads this, frame
    {
      Loop(escape, flush, frame[..framelen], fcs)
    }

    /** demand_conf */
    constructor ()
      ensures Valid() && fresh(frame) && State() == Gathering([])
    {
      frame := new bv8[FRAMEMAX](_ => 0);
      framelen, escape, flush, fcs := 0, false, false, Fcs.INIT;
    }

    /** loop_chars; `frames` are the frames loop_frame gets */
    method Chars(input: octets) returns (frames: seq<octets>)
      requires Valid()
      modifies this, frame
      ensures Valid() && (State(), frames) == LoopRun(old(State()), input)
    {
      hide Fcs.Step;
      frames := [];
      var i := 0;
      assert input[..0] == [];
      while i < |input|
        invariant 0 <= i <= |input| && Valid()
        invariant (State(), frames) == LoopRun(old(State()), input[..i])
      {
        assert input[..i + 1][..i] == input[..i];
        var more := Char(input[i]);
        frames := frames + more;
        i := i + 1;
      }
      assert input[..i] == input;
    }

    method Char(octet: bv8) returns (frames: seq<octets>)
      requires Valid()
      modifies this, frame
      ensures Valid() && (State(), frames) == LoopStep(old(State()), octet)
    {
      hide Fcs.Step;
      frames := [];
      var c := octet;
      if c == FLAG {
        if !escape && !flush && framelen > 2 && fcs == Fcs.GOOD {
          framelen := framelen - 2;
          frames := [frame[..framelen]];
          assert frame[..framelen] == old(State()).frame[..framelen];
        }
        framelen, flush, escape, fcs := 0, false, false, Fcs.INIT;
        assert frame[..0] == [];
        return;
      }
      if flush {
        return;
      }
      if escape {
        c := c ^ TRANS;
        escape := false;
      } else if c == ESCAPE {
        escape := true;
        return;
      }
      if framelen >= FRAMEMAX {
        flush := true;
        return;
      }
      ghost var was := frame[..framelen];
      frame[framelen] := c;
      framelen := framelen + 1;
      assert frame[..framelen] == was + [c];
      fcs := Fcs.Step(fcs, c);
    }
  }
}
