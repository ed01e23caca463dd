/**
 The reset-request side of pppd/ccp.c with CCP open: a request is sent when the
 decompressor fails, and repeated after a timeout if it kept failing.
 */
module CcpReset {
  import opened Bits

  /** CCP packets this code sends. */
  datatype Msg = ResetReq(id: byte) | ResetAck(id: byte)

  /** ccp_localstate, the ids of the fsm, and how many rack timers are running. */
  datatype Local = Local(rackPending: bool, rreqRepeat: bool, id: byte, reqid: byte, timers: nat, isOpened: bool)

  datatype Event =
    | PeerRequests(id: byte)     // a Reset-Request came in
    | PeerAcks(id: byte)         // a Reset-Ack came in
    | PacketFailed               // the kernel handed up a packet it could not decompress
    | Timeout                    // the rack timer fired
    | Down                       // CCP went down

  function NextId(id: byte): byte { if id == 255 then 0 else id + 1 }

  /** One event: the new state and the packets sent. */
  function Step(s: Local, e: Event): (r: (Local, seq<Msg>))
    requires e.Timeout? ==> s.timers > 0
  {
    match e
    case PeerRequests(id) => (s, if s.isOpened then [ResetAck(id)] else [])
    case PeerAcks(id) =>
      if s.rackPending && id == s.reqid
      then (s.(rackPending := false, rreqRepeat := false, timers := if s.timers > 0 then s.timers - 1 else 0), [])
      else (s, [])
    case PacketFailed =>
      if !s.isOpened then (s, [])
      else if !s.rackPending then
        var id := NextId(s.id);
        (s.(id := id, reqid := id, timers := s.timers + 1, rackPending := true), [ResetReq(id)])
      else (s.(rreqRepeat := true), [])
    case Timeout =>
      if s.isOpened && s.rreqRepeat then (s.(rreqRepeat := false), [ResetReq(s.reqid)])
      else (s.(rackPending := false, timers := s.timers - 1), [])
    case Down =>
      (s.(timers := if s.rackPending && s.timers > 0 then s.timers - 1 else s.timers,
          rackPending := false, rreqRepeat := false, isOpened := false), [])
  }

  class CcpUnit {
    var rackPending: bool
    var rreqRepeat: bool
    var id: byte
    var reqid: byte
    var timers: nat
    var isOpened: bool
    var sent: seq<Msg>

    ghost function State(): Local
      reads this
    {
      Local(rackPending, rreqRepeat, id, reqid, timers, isOpened)
    }

    /** One timer runs exactly while a request is outstanding. */
    ghost predicate Valid()
      reads this
    {
      Inv(State())
    }

    /** CCP has come up. */
    constructor ()
      ensures Valid() && State() == Local(false, false, 0, 0, 0, true) && sent == []
    {
      rackPending, rreqRepeat, id, reqid, timers, isOpened, sent := false, false, 0, 0, 0, true, [];
    }

    /** ccp_extcode */
    method ExtCode(ack: bool, number: byte)
      requires Valid()
      modifies this
      ensures Valid()
      ensures ack && old(rackPending) && number == old(reqid) ==> !rackPending && !rreqRepeat && timers == 0
      ensures !(ack && old(rackPending) && number == old(reqid)) ==> State() == old(State())
      ensures sent == old(sent) + if !ack && old(isOpened) then [ResetAck(number)] else []
      ensures var e := if ack then PeerAcks(number) else PeerRequests(number);
              (State(), sent) == (Step(old(State()), e).0, old(sent) + Step(old(State()), e).1)
    {
      if !ack {
        if isOpened {
          sent := sent + [ResetAck(number)];
        }
      } else {
        if rackPending && number == reqid {
          rackPending, rreqRepeat := false, false;
          timers := timers - 1;
        }
      }
      assert old(sent) + [] == old(sent);
    }

    /** ccp_datainput: an error found after decompression closes CCP, any other one asks for a reset. */
    method DataInput(fatal: bool)
      requires Valid()
      modifies this
      ensures Valid() && (isOpened ==> rackPending && timers == 1)
      ensures fatal ==> !isOpened && !rackPending && timers == 0 && sent == old(sent)
      ensures old(isOpened) && !fatal ==>
        isOpened && (sent == old(sent) + [ResetReq(reqid)] || (rreqRepeat && old(rackPending)))
      ensures old(isOpened && !rackPending) && !fatal ==> reqid as nat == (old(id) as nat + 1) % 256
      ensures var e := if fatal then Down else PacketFailed;
              (State(), sent) == (Step(old(State()), e).0, old(sent) + Step(old(State()), e).1)
    {
      assert old(sent) + [] == old(sent);
      if isOpened {
        if fatal {
          GoDown();
        } else if !rackPending {
          id := NextId(id);
          reqid := id;
          sent := sent + [ResetReq(reqid)];
          timers := timers + 1;
          rackPending := true;
        } else {
          rreqRepeat := true;
        }
      }
    }

    /** ccp_rack_timeout */
    method RackTimeout()
      requires Valid() && timers > 0
      modifies this
      ensures Valid() && (rackPending <==> old(rreqRepeat)) && !rreqRepeat
      ensures sent == old(sent) + if old(rreqRepeat) then [ResetReq(old(reqid))] else []
      ensures (State(), sent) == (Step(old(State()), Timeout).0, old(sent) + Step(old(State()), Timeout).1)
    {
      assert old(sent) + [] == old(sent);
      timers := timers - 1;
      if isOpened && rreqRepeat {
        sent := sent + [ResetReq(reqid)];
        timers := timers + 1;
        rreqRepeat := false;
      } else {
        rackPending := false;
      }
    }

    /** ccp_down */
    method GoDown()
      requires Valid()
      modifies this
      ensures Valid() && !rackPending && timers == 0 && sent == old(sent)
      ensures (State(), sent) == (Step(old(State()), Down).0, old(sent) + Step(old(State()), Down).1)
    {
      assert old(sent) + [] == old(sent);
      if rackPending {
        timers := timers - 1;
      }
      rackPending, rreqRepeat, isOpened := false, false, false;
    }
  }

  // ----- What every run keeps -----

  /** A run: each event in turn, with the packets each sends. */
  ghost predicate Possible(s: Local, es: seq<Event>)
    decreases |es|
  {
    es == [] || ((es[0].Timeout? ==> s.timers > 0) && Possible(Step(s, es[0]).0, es[1..]))
  }

  ghost function Final(s: Local, es: seq<Event>): Local
    requires Possible(s, es)
    decreases |es|
  {
    if es == [] then s else Final(Step(s, es[0]).0, es[1..])
  }

  /** One timer runs exactly while a request is outstanding, and only then can it be marked for repeating. */
  ghost predicate Inv(s: Local)
  {
    && s.timers == (if s.rackPending then 1 else 0)
    && (s.rreqRepeat ==> s.rackPending)
    && (s.rackPending ==> s.reqid == s.id)
    && (!s.isOpened ==> !s.rackPending)
  }

  lemma {:induction false} RunKeeps(s: Local, es: seq<Event>)
    requires Inv(s) && Possible(s, es)
    ensures Inv(Final(s, es))
    decreases |es|
  {
    if es != [] {
      RunKeeps(Step(s, es[0]).0, es[1..]);
    }
  }

  /** No end to a failure: neither an acknowledgement of the outstanding request nor CCP going down. */
  predicate Quiet(s: Local, e: Event)
  {
    !e.Down? && !(e.PeerAcks? && e.id == s.reqid)
  }

  ghost predicate AllQuiet(s: Local, es: seq<Event>)
    requires Possible(s, es)
    decreases |es|
  {
    es == [] || (Quiet(s, es[0]) && AllQuiet(Step(s, es[0]).0, es[1..]))
  }

  /** The packets a run sends. */
  ghost function Sent(s: Local, es: seq<Event>): seq<Msg>
    requires Possible(s, es)
    decreases |es|
  {
    if es == [] then [] else Step(s, es[0]).1 + Sent(Step(s, es[0]).0, es[1..])
  }

  /**
   No failure is forgotten: after a packet failed, the timer is running and its
   next firing asks again, unless a request went out at that moment; and as
   long as no answer comes the state that remembers it survives every other event.
   */
  lemma FailureAsks(s: Local)
    requires Inv(s) && s.isOpened
    ensures var (s', out) := Step(s, PacketFailed);
            && s'.rackPending && s'.timers == 1
            && (out == [ResetReq(s'.reqid)] || (out == [] && s'.rreqRepeat))
            && (s'.rreqRepeat ==> Step(s', Timeout).1 == [ResetReq(s'.reqid)] && Step(s', Timeout).0.rackPending)
  {
  }

  lemma {:induction false} FailureRemembered(s: Local, es: seq<Event>)
    requires Inv(s) && s.isOpened && s.rreqRepeat && Possible(s, es) && AllQuiet(s, es)
    ensures Final(s, es).rreqRepeat || ResetReq(s.reqid) in Sent(s, es)
    decreases |es|
  {
    if es != [] {
      var s' := Step(s, es[0]).0;
      if es[0].Timeout? {
        assert ResetReq(s.reqid) in Step(s, es[0]).1;
      } else {
        FailureRemembered(s', es[1..]);
      }
    }
  }

  // ----- Requests are told apart -----

  /** How many new requests a run makes, leaving out those repeated. */
  ghost function NewRequests(s: Local, es: seq<Event>): nat
    requires Possible(s, es)
    decreases |es|
  {
    if es == [] then 0
    else (if es[0].PacketFailed? && s.isOpened && !s.rackPending then 1 else 0) + NewRequests(Step(s, es[0]).0, es[1..])
  }

  /** Each new request takes the next id. */
  lemma {:induction false} IdsCount(s: Local, es: seq<Event>)
    requires Possible(s, es)
    ensures Final(s, es).id as nat == (s.id as nat + NewRequests(s, es)) % 256
    decreases |es|
  {
    if es != [] {
      IdsCount(Step(s, es[0]).0, es[1..]);
    }
  }

  /** An acknowledgement of an earlier request, up to 255 requests ago, does not pass for one of the last. */
  lemma StaleAckIgnored(s: Local, es: seq<Event>)
    requires Inv(s) && s.rackPending && Possible(s, es) && Final(s, es).rackPending && 0 < NewRequests(s, es) < 256
    ensures Final(s, es).reqid != s.reqid
    ensures Step(Final(s, es), PeerAcks(s.reqid)) == (Final(s, es), [])
  {
    hide Step;
    IdsCount(s, es);
    RunKeeps(s, es);
    Apart(s.id, NewRequests(s, es));
    OtherAck(Final(s, es), s.reqid);
  }

  lemma Apart(id: nat, n: nat)
    requires id < 256 && 0 < n < 256
    ensures (id + n) % 256 != id
  {
  }

  lemma OtherAck(s: Local, id: byte)
    requires id != s.reqid
    ensures Step(s, PeerAcks(id)) == (s, [])
  {
  }
}
