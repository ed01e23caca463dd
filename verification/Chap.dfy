/**
 * CHAP and the authentication phase with their state updated in place, as in pppd/chap.c and
 * pppd/auth.c. Whatever event is handled, everything reported so far was allowed when it was
 * reported, and no challenge was repeated beyond the limit.
 */
module Chap {
  import opened ChapSpec
  import opened ChapSafety
  import opened ChapLaws

  class Session {
    const conf: Config
    var srv: Server
    var cli: Client
    var pendPeer: bool
    var pendWith: bool
    var lcpOpen: bool
    var log: seq<Report>

    ghost function Value(): State
      reads this
    {
      State(srv, cli, pendPeer, pendWith, lcpOpen, log)
    }

    /** The reports are legal, the flags agree with them, and challenge_xmits counts the challenges. */
    ghost predicate Valid()
      reads this
    {
      Inv(conf, Value()) && Paced(conf, Value())
    }

    /** chap_init */
    constructor (conf: Config)
      ensures Valid() && Value() == Initial() && this.conf == conf
    {
      this.conf := conf;
      srv := Server(false, false, false, false, false, false, 0, 0, 0, 0);
      cli := ClientDown;
      pendPeer, pendWith, lcpOpen, log := false, false, false, [];
      new;
      InitialOk(conf);
    }

    /** Any event that can happen. */
    method Handle(e: Event)
      requires Valid() && Enabled(Value(), e)
      modifies this
      ensures Valid() && old(log) <= log && Legal(conf, log) && Bounded(conf, log)
      ensures Value() == Step(conf, old(Value()), e)
    {
      hide Inv, Paced, ChapSpec.Establish, ChapSpec.ServerTimeout, ChapSpec.HandleResponse;
      hide ChapSpec.HandleStatus, ChapSpec.ProtRej, Legal, Bounded;
      match e {
        case LinkEstablished(_, _, _, _, _) => Establish(e);
        case LinkDown => LinkDown();
        case ServerTimer(nonce) => ServerTimeout(nonce);
        case ClientTimer => ClientTimeout();
        case Response(_, _, _, _, _) => HandleResponse(e);
        case StatusIn(success, checkOk) => HandleStatus(success, checkOk);
        case ProtocolReject => ProtRej();
      }
      StepKeeps(conf, old(Value()), e);
      StepPaced(conf, old(Value()), e);
      LogGrows(conf, old(Value()), e);
      ValidSays(conf, Value());
    }

    /** link_down with chap_lowerdown */
    method LinkDown()
      modifies this
      ensures Value() == GoDown(old(Value()))
      ensures old(Valid()) && old(lcpOpen) ==> Valid()
    {
      hide Inv, Paced;
      if Valid() && lcpOpen {
        StepKeeps(conf, Value(), Event.LinkDown);
        StepPaced(conf, Value(), Event.LinkDown);
      }
      cli := ClientDown;
      srv := srv.(lowerUp := false, started := false, done := false, failed := false, timer := false, valid := false);
      lcpOpen := false;
      log := log + [Down];
    }

    method CloseLcp()
      modifies this
      ensures Value() == LcpClose(old(Value()))
    {
      if lcpOpen {
        LinkDown();
      }
    }

    /** auth_peer_fail */
    method AuthPeerFail()
      modifies this
      ensures Value() == PeerFail(old(Value()))
    {
      log := log + [PeerFailed];
      CloseLcp();
    }

    /** auth_withpeer_fail */
    method AuthWithPeerFail()
      modifies this
      ensures Value() == WithFail(old(Value()))
    {
      log := log + [WithFailed];
      CloseLcp();
    }

    /** auth_peer_success */
    method AuthPeerSuccess(id: nat, challenge: nat, response: nat)
      modifies this
      ensures Value() == PeerSuccess(old(Value()), id, challenge, response)
    {
      log := log + [PeerOk(id, challenge, response)];
      pendPeer := false;
      if !pendPeer && !pendWith {
        log := log + [Network];
      }
    }

    /** auth_withpeer_success */
    method AuthWithPeerSuccess()
      modifies this
      ensures Value() == WithSuccess(old(Value()))
    {
      log := log + [WithOk];
      pendWith := false;
      if !pendPeer && !pendWith {
        log := log + [Network];
      }
    }

    /** chap_server_timeout */
    method ServerTimeout(nonce: nat)
      modifies this
      ensures Value() == ChapSpec.ServerTimeout(conf, old(Value()), nonce)
      ensures old(Valid()) && old(srv.timer) ==> Valid()
    {
      hide Inv, Paced;
      if Valid() && srv.timer {
        StepKeeps(conf, Value(), ServerTimer(nonce));
        StepPaced(conf, Value(), ServerTimer(nonce));
      }
      srv := srv.(timer := false);
      if !srv.valid {
        srv := srv.(xmits := 0, challenge := nonce, id := srv.id + 1, chalId := (srv.id + 1) % 256);
        srv := srv.(valid := true);
      } else if srv.xmits >= conf.maxTransmits {
        srv := srv.(valid := false, done := true, failed := true);
        AuthPeerFail();
        return;
      }
      log := log + [Challenge(srv.chalId, srv.challenge)];
      srv := srv.(xmits := srv.xmits + 1, timer := true);
    }

    method ClearValid()
      modifies this
      ensures Value() == Invalidate(old(Value()))
    {
      srv := srv.(valid := false);
    }

    method StartTimer()
      modifies this
      ensures Value() == Rearm(old(Value()))
    {
      srv := srv.(timer := true);
    }

    method SetDone()
      modifies this
      ensures Value() == MarkDone(old(Value()))
    {
      srv := srv.(done := true);
    }

    /** The end of chap_handle_response. */
    method Settle(e: Event)
      requires e.Response?
      modifies this
      ensures Value() == ChapSpec.Settle(conf, old(Value()), e)
    {
      hide PeerFail, PeerSuccess, Invalidate, Rearm, MarkDone;
      ClearValid();
      if srv.failed {
        AuthPeerFail();
      } else {
        if !srv.done {
          AuthPeerSuccess(e.id, srv.challenge, e.response);
        }
        if conf.rechallenge {
          StartTimer();
        }
      }
      SetDone();
    }

    /** chap_handle_response */
    method HandleResponse(e: Event)
      requires e.Response? && Valid()
      modifies this
      ensures Valid() && Value() == ChapSpec.HandleResponse(conf, old(Value()), e)
      ensures forall i :: old(|log|) <= i < |log| && log[i].PeerOk? ==>
        old(srv.valid) && e.id == old(srv.chalId) && log[i] == PeerOk(e.id, old(srv.challenge), e.response)
        && conf.verify(e.id, old(srv.challenge), e.response)
    {
      hide ChapSpec.HandleResponse, Inv, Paced;
      StepKeeps(conf, Value(), e);
      StepPaced(conf, Value(), e);
      OnlyVerified(conf, Value(), e);
      Judge(e);
    }

    method Judge(e: Event)
      requires e.Response?
      modifies this
      ensures Value() == ChapSpec.HandleResponse(conf, old(Value()), e)
    {
      hide ChapSpec.Settle;
      if !srv.lowerUp || e.id != srv.chalId || e.len < 2 {
        return;
      }
      if srv.valid {
        if !e.nameFits {
          return;
        }
        srv := srv.(timer := false);
        var ok := conf.verify(e.id, srv.challenge, e.response);
        if !ok || !e.numberOk {
          srv := srv.(failed := true);
        }
      } else if !srv.done {
        return;
      }
      log := log + [Status(e.id, !srv.failed)];
      if srv.valid {
        Settle(e);
      }
    }

    /** chap_handle_status */
    method HandleStatus(success: bool, checkOk: bool)
      requires Valid()
      modifies this
      ensures Valid() && Value() == ChapSpec.HandleStatus(old(Value()), success, checkOk)
      ensures old(cli.started && !cli.done) && !(success && checkOk) ==> !lcpOpen
    {
      hide Inv, Paced;
      StepKeeps(conf, Value(), StatusIn(success, checkOk));
      StepPaced(conf, Value(), StatusIn(success, checkOk));
      StartedUp(conf, Value());
      if !(cli.started && cli.lowerUp && !cli.done) {
        return;
      }
      cli := cli.(done := true);
      cli := cli.(timer := false);
      if success && checkOk {
        AuthWithPeerSuccess();
      } else {
        cli := cli.(failed := true);
        AuthWithPeerFail();
      }
    }

    /** chap_client_timeout */
    method ClientTimeout()
      requires Valid() && cli.timer
      modifies this
      ensures Valid() && Value() == ChapSpec.ClientTimeout(old(Value())) && !lcpOpen
    {
      hide Inv, Paced;
      StepKeeps(conf, Value(), ClientTimer);
      StepPaced(conf, Value(), ClientTimer);
      cli := cli.(timer := false);
      cli := cli.(done := true, failed := true);
      AuthWithPeerFail();
    }

    /** chap_protrej */
    method ProtRej()
      requires Valid()
      modifies this
      ensures Valid() && Value() == ChapSpec.ProtRej(old(Value()))
      ensures old(srv.started || (cli.started && !cli.done)) ==> !lcpOpen
    {
      hide Inv, Paced;
      StepKeeps(conf, Value(), ProtocolReject);
      StepPaced(conf, Value(), ProtocolReject);
      srv := srv.(timer := false);
      if srv.started {
        srv := ServerDown(srv);
        AuthPeerFail();
      }
      if cli.started && !cli.done {
        cli := cli.(started := false);
        AuthWithPeerFail();
      }
    }

    /** chap_auth_peer */
    method AuthPeer(idSeed: nat, nonce: nat)
      modifies this
      ensures Value() == ChapSpec.AuthPeer(conf, old(Value()), idSeed, nonce)
    {
      hide ChapSpec.ServerTimeout;
      if srv.started {
        return;
      }
      srv := srv.(id := idSeed % 256);
      srv := srv.(started := true);
      if srv.lowerUp {
        ServerTimeout(nonce);
      }
    }

    /** chap_lowerup */
    method LowerUp(nonce: nat)
      modifies this
      ensures Value() == ChapSpec.LowerUp(conf, old(Value()), nonce)
    {
      hide ChapSpec.ServerTimeout;
      cli := cli.(lowerUp := true);
      srv := srv.(lowerUp := true);
      if srv.started {
        ServerTimeout(nonce);
      }
    }

    /** link_established */
    method Establish(e: Event)
      requires e.LinkEstablished? && Valid() && !lcpOpen
      modifies this
      ensures Valid() && Value() == ChapSpec.Establish(conf, old(Value()), e)
      ensures |log| > old(|log|) && log[old(|log|)] == Up(e.peer, e.withPeer) && lcpOpen == !e.refused
      ensures lcpOpen ==> pendPeer == e.peer && pendWith == e.withPeer
    {
      hide ChapSpec.AuthPeer, ChapSpec.LowerUp, LcpClose, Inv, Paced;
      EstablishReports(conf, Value(), e);
      StepKeeps(conf, Value(), e);
      StepPaced(conf, Value(), e);
      lcpOpen := true;
      log := log + [Up(e.peer, e.withPeer)];
      LowerUp(e.nonce);
      if e.refused {
        CloseLcp();
        return;
      }
      if e.peer {
        AuthPeer(e.idSeed, e.nonce);
      }
      if e.withPeer && !cli.started {
        cli := cli.(started := true, timer := true);
      }
      pendPeer, pendWith := e.peer, e.withPeer;
      if !e.peer && !e.withPeer {
        log := log + [Network];
      }
    }
  }

  lemma ValidSays(c: Config, s: State)
    requires Inv(c, s) && Paced(c, s)
    ensures Legal(c, s.log) && Bounded(c, s.log)
  {
  }
}
