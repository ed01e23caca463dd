/**
 CHAP (sections 4.1 and 4.2 of RFC 1994) as pppd/chap.c runs it in both
 directions, and the authentication phase control of pppd/auth.c, as a state
 machine on values.  A failure closes LCP, and LCP going down takes CHAP down
 with it before the code that reported the failure goes on.
 */
module ChapSpec {

  /** struct chap_server_state: its flags, the id counter and the challenge packet. */
  datatype Server = Server(
    lowerUp: bool, started: bool, done: bool, failed: bool, timer: bool, valid: bool,
    id: nat, chalId: nat, challenge: nat, xmits: nat)

  /** The flags of struct chap_client_state. */
  datatype Client = Client(lowerUp: bool, started: bool, done: bool, failed: bool, timer: bool)

  /** What happens, in order: packets sent, and what auth.c is told and does. */
  datatype Report =
    | Up(needPeer: bool, needWith: bool)                     // link_established
    | Down                                                   // link_down
    | Challenge(id: nat, challenge: nat)                     // challenge packet sent
    | Status(id: nat, success: bool)                         // success or failure packet sent
    | PeerOk(id: nat, challenge: nat, response: nat)         // auth_peer_success
    | PeerFailed                                             // auth_peer_fail
    | WithOk                                                 // auth_withpeer_success
    | WithFailed                                             // auth_withpeer_fail
    | Network                                                // network_phase

  datatype State = State(srv: Server, cli: Client, pendPeer: bool, pendWith: bool, lcpOpen: bool, log: seq<Report>)

  /** How a response is judged, which this model leaves open, and the configured limits. */
  datatype Config = Config(verify: (nat, nat, nat) -> bool, maxTransmits: nat, rechallenge: bool)

  datatype Event =
    | LinkEstablished(refused: bool, peer: bool, withPeer: bool, idSeed: nat, nonce: nat)
    | LinkDown
    | ServerTimer(nonce: nat)
    | ClientTimer
    | Response(id: nat, len: nat, nameFits: bool, response: nat, numberOk: bool)
    | StatusIn(success: bool, checkOk: bool)
    | ProtocolReject

  function ServerDown(srv: Server): Server
  {
    srv.(lowerUp := false, started := false, done := false, failed := false, timer := false, valid := false)
  }

  const ClientDown := Client(false, false, false, false, false)

  function Emit(s: State, r: Report): State { s.(log := s.log + [r]) }

  /** link_down: chap_lowerdown clears all flags of both sides. */
  function GoDown(s: State): State
  {
    Emit(s.(srv := ServerDown(s.srv), cli := ClientDown, lcpOpen := false), Down)
  }

  /** lcp_close: if LCP is open the link goes down at once. */
  function LcpClose(s: State): State { if s.lcpOpen then GoDown(s) else s }

  function PeerFail(s: State): State { LcpClose(Emit(s, PeerFailed)) }

  function WithFail(s: State): State { LcpClose(Emit(s, WithFailed)) }

  /** auth_peer_success: the bit is cleared, and with no bit left the network phase starts. */
  function PeerSuccess(s: State, id: nat, challenge: nat, response: nat): State
  {
    var s1 := Emit(s, PeerOk(id, challenge, response)).(pendPeer := false);
    if !s1.pendWith then Emit(s1, Network) else s1
  }

  function WithSuccess(s: State): State
  {
    var s1 := Emit(s, WithOk).(pendWith := false);
    if !s1.pendPeer then Emit(s1, Network) else s1
  }

  /** chap_server_timeout */
  function ServerTimeout(c: Config, s: State, nonce: nat): State
  {
    var srv := s.srv.(timer := false);
    if srv.valid && srv.xmits >= c.maxTransmits then
      PeerFail(s.(srv := srv.(valid := false, done := true, failed := true)))
    else
      var sv := if srv.valid then srv
                else srv.(xmits := 0, challenge := nonce, id := srv.id + 1, chalId := (srv.id + 1) % 256,
                          valid := true);
      Emit(s.(srv := sv.(xmits := sv.xmits + 1, timer := true)), Challenge(sv.chalId, sv.challenge))
  }

  /** Setting and clearing single flags of the server. */
  function Invalidate(s: State): State { s.(srv := s.srv.(valid := false)) }

  function Rearm(s: State): State { s.(srv := s.srv.(timer := true)) }

  function MarkDone(s: State): State { s.(srv := s.srv.(done := true)) }

  /** The end of chap_handle_response, for the outstanding challenge: tell auth.c how it went. */
  function Settle(c: Config, s: State, e: Event): State
    requires e.Response?
  {
    var s1 := Invalidate(s);
    if s1.srv.failed then MarkDone(PeerFail(s1))
    else
      var s2 := if !s1.srv.done then PeerSuccess(s1, e.id, s1.srv.challenge, e.response) else s1;
      MarkDone(if c.rechallenge then Rearm(s2) else s2)
  }

  /** chap_handle_response */
  function HandleResponse(c: Config, s: State, e: Event): State
    requires e.Response?
  {
    var srv := s.srv;
    if !srv.lowerUp || e.id != srv.chalId || e.len < 2 then s
    else if srv.valid then
      if !e.nameFits then s
      else
        var ok := c.verify(e.id, srv.challenge, e.response) && e.numberOk;
        var sv := srv.(timer := false, failed := srv.failed || !ok);
        Settle(c, Emit(s.(srv := sv), Status(e.id, !sv.failed)), e)
    else if srv.done then Emit(s, Status(e.id, !srv.failed))
    else s
  }

  /** chap_handle_status */
  function HandleStatus(s: State, success: bool, checkOk: bool): State
  {
    if !(s.cli.started && s.cli.lowerUp && !s.cli.done) then s
    else
      var s1 := s.(cli := s.cli.(done := true, timer := false));
      if success && checkOk then WithSuccess(s1)
      else WithFail(s1.(cli := s1.cli.(failed := true)))
  }

  /** chap_client_timeout */
  function ClientTimeout(s: State): State
  {
    WithFail(s.(cli := s.cli.(timer := false, done := true, failed := true)))
  }

  /** chap_protrej */
  function ProtRej(s: State): State
  {
    var s1 := if s.srv.started then PeerFail(s.(srv := ServerDown(s.srv)))
              else s.(srv := s.srv.(timer := false));
    if s1.cli.started && !s1.cli.done then WithFail(s1.(cli := s1.cli.(started := false))) else s1
  }

  /** chap_auth_peer */
  function AuthPeer(c: Config, s: State, idSeed: nat, nonce: nat): State
  {
    if s.srv.started then s
    else
      var s1 := s.(srv := s.srv.(id := idSeed % 256, started := true));
      if s1.srv.lowerUp then ServerTimeout(c, s1, nonce) else s1
  }

  /** chap_auth_with_peer */
  function AuthWithPeer(s: State): State
  {
    if s.cli.started then s else s.(cli := s.cli.(started := true, timer := true))
  }

  /** chap_lowerup */
  function LowerUp(c: Config, s: State, nonce: nat): State
  {
    var s1 := s.(cli := s.cli.(lowerUp := true), srv := s.srv.(lowerUp := true));
    if s1.srv.started then ServerTimeout(c, s1, nonce) else s1
  }

  /**
   * link_established, where CHAP is what either side asked for; `refused` is the case of a peer
   * that will not authenticate.
   */
  function Establish(c: Config, s: State, e: Event): State
    requires e.LinkEstablished?
  {
    var s0 := Emit(s.(lcpOpen := true), Up(e.peer, e.withPeer));
    var s1 := LowerUp(c, s0, e.nonce);
    if e.refused then LcpClose(s1)
    else
      var s2 := if e.peer then AuthPeer(c, s1, e.idSeed, e.nonce) else s1;
      var s3 := if e.withPeer then AuthWithPeer(s2) else s2;
      var s4 := s3.(pendPeer := e.peer, pendWith := e.withPeer);
      if !e.peer && !e.withPeer then Emit(s4, Network) else s4
  }

  predicate Enabled(s: State, e: Event)
  {
    match e
    case LinkEstablished(_, _, _, _, _) => !s.lcpOpen
    case LinkDown => s.lcpOpen
    case ServerTimer(_) => s.srv.timer
    case ClientTimer => s.cli.timer
    case _ => true
  }

  function Step(c: Config, s: State, e: Event): State
  {
    match e
    case LinkEstablished(_, _, _, _, _) => Establish(c, s, e)
    case LinkDown => GoDown(s)
    case ServerTimer(nonce) => ServerTimeout(c, s, nonce)
    case ClientTimer => ClientTimeout(s)
    case Response(_, _, _, _, _) => HandleResponse(c, s, e)
    case StatusIn(success, checkOk) => HandleStatus(s, success, checkOk)
    case ProtocolReject => ProtRej(s)
  }

  /** chap_init */
  function Initial(): State
  {
    State(Server(false, false, false, false, false, false, 0, 0, 0, 0), ClientDown, false, false, false, [])
  }
}
