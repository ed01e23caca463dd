/**
 The reset handshake over the lossy link: the receiving kernel refuses a packet, its pppd asks for
 a reset, the sending pppd answers with a Reset-Ack that resets its own kernel's compressor on the
 way out and the receiving one on arrival.  Data and requests may be lost.
 */
module CcpHandshake {
  import opened Bits
  import opened BsdSpec
  import opened PppComp
  import opened CcpLink
  import CcpReset

  /** The link, the receiving pppd, and the ids of the requests on their way back to the sender. */
  datatype Session = Session(link: Link, unit: CcpReset.Local, asked: seq<byte>)

  datatype Act =
    | Data(pkt: seq<byte>, lost: bool)   // the sender sends a packet
    | Arrive                             // the next packet reaches the receiver, or its loss is over
    | Expire                             // the timer of the receiving pppd fires
    | Answer(lost: bool)                 // the next request reaches the sending pppd, or is lost

  /** The Reset-Ack that fsm_sdata sends. */
  function Ack(id: byte): seq<byte> { [0xff, 3, 0x80, 0xfd, CCP_RESETACK, id, 0, 4] }

  lemma AckIs(id: byte, mru: nat)
    requires mru >= CCP_HDRLEN
    ensures IsResetAck(Ack(id)) && CcpLink.Sendable(Ack(id), mru) && Ack(id)[HDRLEN + 1] == id
  {
  }

  /** A packet the kernel could not decompress, which it hands to pppd as it came. */
  predicate Refused(up: Up) { up.Passed? && |up.pkt| >= HDRLEN && Protocol(up.pkt) == PPP_COMP as nat }

  /** What the receiving pppd makes of a packet handed up to it. */
  function Told(up: Up): (e: seq<CcpReset.Event>)
    ensures forall i | 0 <= i < |e| :: !e[i].Timeout? && !e[i].Down?
  {
    if Refused(up) then [CcpReset.PacketFailed]
    else if up.Passed? && IsResetAck(up.pkt) then [CcpReset.PeerAcks(up.pkt[HDRLEN + 1])]
    else []
  }

  /** The ids of the requests among the packets sent. */
  function Ids(out: seq<CcpReset.Msg>): seq<byte> {
    if out == [] then [] else (if out[0].ResetReq? then [out[0].id] else []) + Ids(out[1..])
  }

  function Notify(s: Session, e: CcpReset.Event): Session
    requires e.Timeout? ==> s.unit.timers > 0
  {
    var (unit, out) := CcpReset.Step(s.unit, e);
    s.(unit := unit, asked := s.asked + Ids(out))
  }

  /** No compressed packet arrives when the losses are a multiple of 65536; Reset-Acks only answer requests. */
  ghost predicate Allowed(s: Session, e: Act) {
    match e
    case Data(pkt, lost) => CcpLink.Sendable(pkt, s.link.b.mru) && !IsResetAck(pkt)
    case Arrive => s.link.chan != [] && (CompressedNext(s.link) ==> Detectable(s.link))
    case Expire => s.unit.timers > 0
    case Answer(_) => s.asked != []
  }

  ghost predicate SessionOk(s: Session) { LinkOk(s.link) && s.link.b.mru >= CCP_HDRLEN }

  lemma SameMru(l: Link, e: CcpLink.Event)
    requires LinkOk(l) && CcpLink.Enabled(l, e)
    ensures CcpLink.Step(l, e).b.mru == l.b.mru
  {
    hide Transmit, Moved, Decompress, Incomp, DbOk;
  }

  ghost function Next(s: Session, e: Act): (r: Session)
    requires SessionOk(s) && Allowed(s, e)
    ensures SessionOk(r)
  {
    match e
    case Data(pkt, lost) =>
      SameMru(s.link, Send(pkt, lost));
      s.(link := CcpLink.Step(s.link, Send(pkt, lost)))
    case Arrive =>
      var link := CcpLink.Step(s.link, Deliver);
      SameMru(s.link, Deliver);
      var s' := s.(link := link);
      if |link.log| == |s.link.log| then s'
      else
        var e := Told(link.log[|link.log| - 1].up);
        if e == [] then s' else Notify(s', e[0])
    case Expire => Notify(s, CcpReset.Timeout)
    case Answer(lost) =>
      var s' := s.(asked := s.asked[1..]);
      if lost then s'
      else
        AckIs(s.asked[0], s.link.b.mru);
        SameMru(s.link, Send(Ack(s.asked[0]), false));
        s'.(link := CcpLink.Step(s.link, Send(Ack(s.asked[0]), false)))
  }

  ghost predicate Sound(s: Session) {
    CcpLink.Inv(s.link) && CcpReset.Inv(s.unit) && s.unit.isOpened && s.link.b.mru >= CCP_HDRLEN
  }

  lemma SoundOk(s: Session)
    requires Sound(s)
    ensures SessionOk(s) && CcpLink.Inv(s.link)
  {
    InvLinkOk(s.link);
  }

  lemma UnitKeeps(u: CcpReset.Local, e: CcpReset.Event)
    requires CcpReset.Inv(u) && u.isOpened && (e.Timeout? ==> u.timers > 0) && !e.Down?
    ensures var u' := CcpReset.Step(u, e).0; CcpReset.Inv(u') && u'.isOpened
  {
  }

  lemma NextKeeps(s: Session, e: Act)
    requires Sound(s) && Allowed(s, e)
    ensures SessionOk(s) && Sound(Next(s, e))
  {
    SoundOk(s);
    hide CcpLink.Inv, CcpReset.Inv, CcpLink.Step, CcpReset.Step, LinkOk, Detectable, CompressedNext;
    match e {
      case Data(pkt, lost) =>
        StepKeeps(s.link, Send(pkt, lost));
        SameMru(s.link, Send(pkt, lost));
      case Arrive =>
        StepKeeps(s.link, Deliver);
        SameMru(s.link, Deliver);
        var log := CcpLink.Step(s.link, Deliver).log;
        if |log| != |s.link.log| {
          var t := Told(log[|log| - 1].up);
          if t != [] {
            UnitKeeps(s.unit, t[0]);
          }
        }
      case Expire => UnitKeeps(s.unit, CcpReset.Timeout);
      case Answer(lost) =>
        AckIs(s.asked[0], s.link.b.mru);
        if !lost {
          StepKeeps(s.link, Send(Ack(s.asked[0]), false));
          SameMru(s.link, Send(Ack(s.asked[0]), false));
        }
    }
  }

  // ----- Runs -----

  ghost predicate Possible(s: Session, es: seq<Act>)
    requires SessionOk(s)
    decreases |es|
  {
    es == [] || (Allowed(s, es[0]) && Possible(Next(s, es[0]), es[1..]))
  }

  ghost function Run(s: Session, es: seq<Act>): (r: Session)
    requires SessionOk(s) && Possible(s, es)
    ensures SessionOk(r)
    decreases |es|
  {
    if es == [] then s else Run(Next(s, es[0]), es[1..])
  }

  /** Whatever is lost, nothing is handed up as decompressed that was not sent, and no fatal error occurs. */
  lemma {:induction false} RunKeeps(s: Session, es: seq<Act>)
    requires Sound(s) && SessionOk(s) && Possible(s, es)
    ensures var r := Run(s, es); Sound(r) && Faithful(r.link.log) && !r.link.b.fatalError
    decreases |es|
  {
    if es == [] {
      hide LinkOk, Chain, Tracks, Faithful;
    } else {
      hide Next, Allowed, Sound, SessionOk;
      NextKeeps(s, es[0]);
      RunKeeps(Next(s, es[0]), es[1..]);
    }
  }

  lemma {:induction false} RunConcat(s: Session, a: seq<Act>, b: seq<Act>)
    requires SessionOk(s) && Possible(s, a + b)
    ensures Possible(s, a) && Possible(Run(s, a), b) && Run(s, a + b) == Run(Run(s, a), b)
    decreases |a|
  {
    hide Next, Allowed, SessionOk;
    if a == [] {
      assert a + b == b;
    } else {
      assert (a + b)[1..] == a[1..] + b;
      RunConcat(Next(s, a[0]), a[1..], b);
    }
  }

  lemma RunOne(s: Session, e: Act)
    requires SessionOk(s) && Possible(s, [e])
    ensures Allowed(s, e) && Run(s, [e]) == Next(s, e)
  {
    hide Next, Allowed, SessionOk;
    assert [e][1..] == [];
  }

  function Arrivals(es: seq<Act>): nat {
    if es == [] then 0 else (if es[0].Arrive? then 1 else 0) + Arrivals(es[1..])
  }

  function Answers(es: seq<Act>): nat {
    if es == [] then 0 else (if es[0].Answer? then 1 else 0) + Answers(es[1..])
  }

  // ----- Both queues move on -----

  lemma SendAppends(l: Link, pkt: seq<byte>, lost: bool)
    requires LinkOk(l) && CcpLink.Enabled(l, Send(pkt, lost))
    ensures var l' := CcpLink.Step(l, Send(pkt, lost));
            |l'.chan| == |l.chan| + 1 && l.chan <= l'.chan && l'.chan[|l.chan|].sent == pkt && l'.log == l.log
  {
    SendIs(l, pkt, lost);
    hide Transmit;
  }

  lemma NextQueues(s: Session, e: Act)
    requires Sound(s) && SessionOk(s) && Allowed(s, e)
    ensures var r := Next(s, e);
      && (if e.Arrive? then s.link.chan != [] && r.link.chan == s.link.chan[1..] else s.link.chan <= r.link.chan)
      && (if e.Answer? then s.asked != [] && r.asked == s.asked[1..] else s.asked <= r.asked)
      && (e == Answer(false) ==> |r.link.chan| == |s.link.chan| + 1
                                 && r.link.chan[|s.link.chan|].sent == Ack(s.asked[0]))
  {
    hide CcpLink.Inv, CcpReset.Inv, CcpLink.Step, CcpReset.Step, LinkOk, Detectable, CompressedNext, Ids, Ack;
    match e {
      case Data(pkt, lost) => SendAppends(s.link, pkt, lost);
      case Arrive => DeliverIs(s.link);
      case Expire =>
      case Answer(lost) =>
        AckIs(s.asked[0], s.link.b.mru);
        if !lost {
          SendAppends(s.link, Ack(s.asked[0]), false);
        }
    }
  }

  /** The packet k places behind the next is next once k have arrived. */
  lemma {:induction false} PacketReached(s: Session, es: seq<Act>, k: nat)
    requires Sound(s) && SessionOk(s) && Possible(s, es) && k < |s.link.chan| && Arrivals(es) == k
    ensures var r := Run(s, es); r.link.chan != [] && r.link.chan[0] == s.link.chan[k]
    decreases |es|
  {
    hide Next, Allowed, Sound, SessionOk;
    if es != [] {
      var s' := Next(s, es[0]);
      NextKeeps(s, es[0]);
      NextQueues(s, es[0]);
      PacketReached(s', es[1..], if es[0].Arrive? then k - 1 else k);
    }
  }

  /** The request j places behind the next is next once j have been answered or lost. */
  lemma {:induction false} RequestReached(s: Session, es: seq<Act>, j: nat)
    requires Sound(s) && SessionOk(s) && Possible(s, es) && j < |s.asked| && Answers(es) == j
    ensures var r := Run(s, es); r.asked != [] && r.asked[0] == s.asked[j]
    decreases |es|
  {
    hide Next, Allowed, Sound, SessionOk;
    if es != [] {
      var s' := Next(s, es[0]);
      NextKeeps(s, es[0]);
      NextQueues(s, es[0]);
      RequestReached(s', es[1..], if es[0].Answer? then j - 1 else j);
    }
  }

  // ----- Back in step -----

  /** The receiver has no error and its codec is the sender's at this point of the stream. */
  predicate InStep(l: Link) { !l.b.error && l.gap == 0 && l.b.rx == l.mirror }

  /** The Reset-Ack on top of the channel puts the ends in step, and ends the wait if it answers the request. */
  lemma AckArrives(s: Session, id: byte)
    requires Sound(s) && SessionOk(s) && Allowed(s, Arrive) && s.link.chan[0].sent == Ack(id)
    ensures var r := Next(s, Arrive);
      InStep(r.link) && (s.unit.rackPending && s.unit.reqid == id ==> !r.unit.rackPending && r.unit.timers == 0)
  {
    AckIs(id, s.link.b.mru);
    hide CcpLink.Inv, CcpLink.Step, LinkOk, Detectable, CompressedNext, Ack, Ids, IsResetAck;
    ResetResynchronises(s.link);
    AckPassed(s.link, id);
  }

  lemma AckPassed(l: Link, id: byte)
    requires CcpLink.Inv(l) && l.chan != [] && l.chan[0].sent == Ack(id) && IsResetAck(Ack(id))
    ensures LinkOk(l) && CcpLink.Step(l, Deliver).log == l.log + [Delivery(Ack(id), Passed(Ack(id)))]
    ensures Told(Passed(Ack(id))) == [CcpReset.PeerAcks(id)]
  {
    hide Moved, Tracks, Faithful, DbOk;
    ChainTail(l);
    NotCompressed(l.mirror, l.chan[0].sent, l.a.mtu);
  }

  /**
   Over every run: a request that gets through, and whose Reset-Ack arrives behind everything that was
   under way, leaves both ends in step.  Before and in between anything may happen: data, losses, more
   failures, timeouts and other requests.
   */
  lemma Handshake(s: Session, es1: seq<Act>, es2: seq<Act>, j: nat)
    requires Sound(s) && SessionOk(s) && j < |s.asked|
    requires Possible(s, es1) && Answers(es1) == j && Arrivals(es2) == |Run(s, es1).link.chan|
    requires Possible(s, es1 + ([Answer(false)] + (es2 + [Arrive])))
    ensures var r := Run(s, es1 + ([Answer(false)] + (es2 + [Arrive]))); Sound(r) && InStep(r.link)
  {
    hide Next, Allowed, Sound, SessionOk, InStep;
    RunConcat(s, es1, [Answer(false)] + (es2 + [Arrive]));
    RunKeeps(s, es1);
    RequestReached(s, es1, j);
    var s1 := Run(s, es1);
    RunConcat(s1, [Answer(false)], es2 + [Arrive]);
    RunOne(s1, Answer(false));
    NextKeeps(s1, Answer(false));
    NextQueues(s1, Answer(false));
    AckThrough(Next(s1, Answer(false)), es2, |s1.link.chan|, s.asked[j]);
  }

  lemma AckThrough(s: Session, es: seq<Act>, k: nat, id: byte)
    requires Sound(s) && SessionOk(s) && Possible(s, es + [Arrive])
    requires k < |s.link.chan| && s.link.chan[k].sent == Ack(id) && Arrivals(es) == k
    ensures Sound(Run(s, es + [Arrive])) && InStep(Run(s, es + [Arrive]).link)
  {
    hide Next, Allowed, Sound, SessionOk, InStep, Ack;
    RunConcat(s, es, [Arrive]);
    RunKeeps(s, es);
    PacketReached(s, es, k);
    var r := Run(s, es);
    RunOne(r, Arrive);
    NextKeeps(r, Arrive);
    AckArrives(r, id);
  }

  // ----- From then on -----

  predicate NoneLost(chan: seq<Item>) { forall i | 0 <= i < |chan| :: !chan[i].lost }

  /** All that was handed up from the n-th packet on is what was sent. */
  predicate HandedUp(log: seq<Delivery>, n: nat) { forall i | n <= i < |log| :: log[i].up.pkt == log[i].sent }

  lemma DeliverInStep(l: Link)
    requires CcpLink.Inv(l) && InStep(l) && l.chan != [] && !l.chan[0].lost
    ensures LinkOk(l)
    ensures var l' := CcpLink.Step(l, Deliver);
      InStep(l') && |l'.log| == |l.log| + 1 && l.log <= l'.log && l'.log[|l.log|].up.pkt == l'.log[|l.log|].sent
  {
    hide DbOk, Moved, WireOf, Receive, CcpLink.Sendable, IsResetAck, Compressible;
    ChainTail(l);
    ReceiveKeeps(l.b, l.mirror, l.gap, l.chan[0].sent, l.a.mtu);
  }

  lemma SendInStep(l: Link, pkt: seq<byte>, lost: bool)
    requires LinkOk(l) && CcpLink.Enabled(l, Send(pkt, lost))
    ensures var l' := CcpLink.Step(l, Send(pkt, lost));
      l'.b == l.b && l'.gap == l.gap && l'.mirror == l.mirror && l'.log == l.log
      && (!lost && NoneLost(l.chan) ==> NoneLost(l'.chan))
  {
    SendIs(l, pkt, lost);
    hide Transmit;
  }

  lemma NextInStep(s: Session, e: Act, n: nat)
    requires Sound(s) && SessionOk(s) && Allowed(s, e) && (e.Data? ==> !e.lost)
    requires InStep(s.link) && NoneLost(s.link.chan) && HandedUp(s.link.log, n)
    ensures var l := Next(s, e).link; InStep(l) && NoneLost(l.chan) && HandedUp(l.log, n)
  {
    hide CcpLink.Inv, CcpReset.Inv, CcpLink.Step, CcpReset.Step, LinkOk, Detectable, CompressedNext, Ids, Ack;
    match e {
      case Data(pkt, lost) => SendInStep(s.link, pkt, lost);
      case Arrive =>
        DeliverInStep(s.link);
        DeliverIs(s.link);
      case Expire =>
      case Answer(lost) =>
        AckIs(s.asked[0], s.link.b.mru);
        if !lost {
          SendInStep(s.link, Ack(s.asked[0]), false);
        }
    }
  }

  /** In step and with no further loss, over every run, each packet is handed up exactly as it was sent. */
  lemma {:induction false} StaysInStep(s: Session, es: seq<Act>, n: nat)
    requires Sound(s) && SessionOk(s) && Possible(s, es) && forall i | 0 <= i < |es| && es[i].Data? :: !es[i].lost
    requires InStep(s.link) && NoneLost(s.link.chan) && HandedUp(s.link.log, n)
    ensures var l := Run(s, es).link; InStep(l) && NoneLost(l.chan) && HandedUp(l.log, n)
    decreases |es|
  {
    hide Next, Allowed, Sound, SessionOk, InStep, NoneLost, HandedUp;
    if es != [] {
      NextKeeps(s, es[0]);
      NextInStep(s, es[0], n);
      StaysInStep(Next(s, es[0]), es[1..], n);
    }
  }

  // ----- From the loss on -----

  /** After a loss the next compressed packet is refused, and pppd asks or remembers to ask. */
  lemma LossAsks(s: Session)
    requires Sound(s) && SessionOk(s) && Allowed(s, Arrive) && CompressedNext(s.link) && s.link.gap != 0
    ensures var r := Next(s, Arrive);
      && r.link.b.error && r.unit.rackPending && r.unit.timers == 1
      && r.link.log == s.link.log + [Delivery(s.link.chan[0].sent, Passed(s.link.chan[0].wire))]
      && (if s.unit.rackPending then r.unit.rreqRepeat && r.asked == s.asked
          else r.asked == s.asked + [r.unit.reqid])
  {
    hide CcpLink.Inv, CcpLink.Step, LinkOk, Detectable, CompressedNext, Ack, IsResetAck, Refused;
    LossDetected(s.link);
    WireRefused(s.link);
    CcpReset.FailureAsks(s.unit);
    OneId(Next(s, Arrive).unit.reqid);
  }

  lemma OneId(id: byte)
    ensures Ids([CcpReset.ResetReq(id)]) == [id] && Ids([]) == []
  {
  }

  lemma WireRefused(l: Link)
    requires CcpLink.Inv(l) && CompressedNext(l)
    ensures Refused(Passed(l.chan[0].wire))
  {
    ChainTail(l);
    hide Compress, Moved, DbOk, CcpLink.Sendable, IsResetAck, Chain, Tracks, Faithful;
    CompressedForm(l.mirror, l.chan[0].sent, l.a.mtu + HDRLEN);
  }

  /** A remembered failure is asked about when the timer fires. */
  lemma ExpireAsks(s: Session)
    requires Sound(s) && SessionOk(s) && s.unit.rreqRepeat
    ensures Allowed(s, Expire) && Next(s, Expire).asked == s.asked + [s.unit.reqid]
  {
    hide CcpLink.Inv, LinkOk;
    OneId(s.unit.reqid);
  }

  /**
   A loss is repaired: the packet behind it raises the error and a request, and once that request
   and its Reset-Ack have got through, in any run, the ends are in step again and everything handed
   up as decompressed on the way is what was sent.
   */
  lemma LossRepaired(s: Session, es1: seq<Act>, es2: seq<Act>)
    requires Sound(s) && SessionOk(s) && Allowed(s, Arrive) && CompressedNext(s.link) && s.link.gap != 0
    requires !s.unit.rackPending
    requires var s1 := Next(s, Arrive);
      && Possible(s1, es1) && Answers(es1) == |s.asked| && Arrivals(es2) == |Run(s1, es1).link.chan|
      && Possible(s1, es1 + ([Answer(false)] + (es2 + [Arrive])))
    ensures var s1 := Next(s, Arrive);
      && s1.link.b.error
      && var r := Run(s1, es1 + ([Answer(false)] + (es2 + [Arrive])));
         InStep(r.link) && Faithful(r.link.log) && !r.link.b.fatalError
  {
    hide Next, Allowed, Sound, InStep, CompressedNext, SessionOk;
    LossAsks(s);
    NextKeeps(s, Arrive);
    Handshake(Next(s, Arrive), es1, es2, |s.asked|);
    RunKeeps(Next(s, Arrive), es1 + ([Answer(false)] + (es2 + [Arrive])));
  }

  /** CCP has just come up at both ends. */
  function Start(maxbits: nat, mtu: nat, mru: nat): Session {
    Session(CcpLink.Start(maxbits, mtu, mru), CcpReset.Local(false, false, 0, 0, 0, true), [])
  }

  lemma StartSound(maxbits: nat, mtu: nat, mru: nat)
    requires INIT_BITS <= maxbits <= MAX_BITS && mru >= CCP_HDRLEN
    ensures Sound(Start(maxbits, mtu, mru)) && SessionOk(Start(maxbits, mtu, mru))
  {
    StartOk(maxbits, mtu, mru);
    SoundOk(Start(maxbits, mtu, mru));
  }
}
