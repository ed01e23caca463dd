/** What every run of CHAP and the authentication phase keeps. */
module ChapSafety {
  import opened ChapSpec

  // ----- What the log says about the current link -----

  /** A summary of the log since the link came up last. */
  datatype Sum = Sum(
    up: bool, needPeer: bool, needWith: bool,
    gotPeer: bool, gotWith: bool, peerFailed: bool,
    networks: nat, chalId: nat, challenge: nat)

  function Extend(sum: Sum, r: Report): Sum
  {
    match r
    case Up(needPeer, needWith) => Sum(true, needPeer, needWith, false, false, false, 0, sum.chalId, sum.challenge)
    case Down => sum.(up := false)
    case Challenge(id, challenge) => sum.(chalId := id, challenge := challenge)
    case Status(_, _) => sum
    case PeerOk(_, _, _) => sum.(gotPeer := true)
    case PeerFailed => sum.(peerFailed := true)
    case WithOk => sum.(gotWith := true)
    case WithFailed => sum
    case Network => sum.(networks := sum.networks + 1)
  }

  function Summary(log: seq<Report>): Sum
  {
    if |log| == 0 then Sum(false, false, false, false, false, false, 0, 0, 0)
    else Extend(Summary(log[..|log| - 1]), log[|log| - 1])
  }

  /**
   What may be reported next:
   the network phase once per link, after a success in each direction asked for;
   success of the peer once, not after a failure, and only for a response that
   verifies against the challenge sent last, under its id.
   */
  predicate Allowed(c: Config, sum: Sum, r: Report)
  {
    match r
    case Network =>
      && sum.up && sum.networks == 0
      && (sum.needPeer ==> sum.gotPeer) && (sum.needWith ==> sum.gotWith)
    case PeerOk(id, challenge, response) =>
      && sum.up && sum.needPeer && !sum.gotPeer && !sum.peerFailed
      && id == sum.chalId && challenge == sum.challenge && c.verify(id, challenge, response)
    case WithOk => sum.up && sum.needWith && !sum.gotWith
    case _ => true
  }

  ghost predicate Legal(c: Config, log: seq<Report>)
  {
    forall i | 0 <= i < |log| :: Allowed(c, Summary(log[..i]), log[i])
  }

  lemma EmitLegal(c: Config, s: State, r: Report)
    requires Legal(c, s.log) && Allowed(c, Summary(s.log), r)
    ensures Legal(c, Emit(s, r).log) && Summary(Emit(s, r).log) == Extend(Summary(s.log), r)
  {
    hide Allowed, Summary;
    var log := s.log + [r];
    forall i | 0 <= i < |log|
      ensures Allowed(c, Summary(log[..i]), log[i])
    {
      assert log[..i] == s.log[..i];
    }
    SummaryAppend(s.log, r);
  }

  lemma SummaryAppend(log: seq<Report>, r: Report)
    ensures Summary(log + [r]) == Extend(Summary(log), r)
  {
  }

  // ----- The invariant -----

  /** The flags of a side that is down; AUTH_DONE may be left over on the server side. */
  predicate Idle(s: State)
  {
    && !s.srv.lowerUp && !s.srv.started && !s.srv.failed && !s.srv.timer && !s.srv.valid
    && s.cli == ClientDown
  }

  predicate Matches(s: State, sum: Sum)
  {
    && sum.up == s.lcpOpen
    && (!s.lcpOpen ==> Idle(s))
    && (s.lcpOpen ==>
          && s.srv.lowerUp && s.cli.lowerUp && !s.srv.failed && !sum.peerFailed
          && (s.srv.started ==> sum.needPeer) && (s.cli.started ==> sum.needWith)
          && (sum.gotPeer ==> s.srv.done) && (sum.gotWith ==> s.cli.done)
          && s.pendPeer == (sum.needPeer && !sum.gotPeer)
          && s.pendWith == (sum.needWith && !sum.gotWith)
          && sum.networks == (if s.pendPeer || s.pendWith then 0 else 1)
          && (s.srv.valid ==> s.srv.started && sum.chalId == s.srv.chalId && sum.challenge == s.srv.challenge)
          && (s.srv.timer ==> s.srv.started))
  }

  ghost predicate Inv(c: Config, s: State)
  {
    Legal(c, s.log) && Matches(s, Summary(s.log))
  }

  lemma StartedUp(c: Config, s: State)
    requires Inv(c, s)
    ensures s.srv.started || s.cli.started ==> s.lcpOpen && s.srv.lowerUp && s.cli.lowerUp
  {
  }

  // ----- Each step keeps it -----

  lemma DownKeeps(c: Config, s: State)
    requires Legal(c, s.log) && s.lcpOpen
    ensures Inv(c, GoDown(s))
  {
    hide Legal, Summary;
    var s1 := s.(srv := ServerDown(s.srv), cli := ClientDown, lcpOpen := false);
    EmitLegal(c, s1, Down);
  }

  /** Reporting a failure with LCP open ends with the link down. */
  lemma FailKeeps(c: Config, s: State, r: Report)
    requires Legal(c, s.log) && s.lcpOpen && (r == PeerFailed || r == WithFailed)
    ensures Inv(c, LcpClose(Emit(s, r)))
    ensures LcpClose(Emit(s, r)) == GoDown(Emit(s, r))
  {
    hide Legal, Summary;
    EmitLegal(c, s, r);
    DownKeeps(c, Emit(s, r));
  }

  lemma TimeoutKeeps(c: Config, s: State, nonce: nat)
    requires Inv(c, s) && s.lcpOpen && s.srv.started
    ensures Inv(c, ServerTimeout(c, s, nonce))
  {
    hide Legal, Summary;
    var srv := s.srv.(timer := false);
    if srv.valid && srv.xmits >= c.maxTransmits {
      FailKeeps(c, s.(srv := srv.(valid := false, done := true, failed := true)), PeerFailed);
    } else {
      var sv := if srv.valid then srv
                else srv.(xmits := 0, challenge := nonce, id := srv.id + 1, chalId := (srv.id + 1) % 256,
                          valid := true);
      EmitLegal(c, s.(srv := sv.(xmits := sv.xmits + 1, timer := true)), Challenge(sv.chalId, sv.challenge));
    }
  }

  lemma PeerSuccessKeeps(c: Config, s: State, id: nat, challenge: nat, response: nat)
    requires Legal(c, s.log) && s.lcpOpen && s.srv.lowerUp && !s.srv.done && s.srv.started && !s.srv.valid
    requires Matches(s.(srv := s.srv.(done := false)), Summary(s.log))
    requires var sum := Summary(s.log);
             id == sum.chalId && challenge == sum.challenge && c.verify(id, challenge, response)
    ensures var s' := PeerSuccess(s, id, challenge, response);
            Inv(c, s'.(srv := s'.srv.(done := true))) && s'.lcpOpen && s'.srv == s.srv
  {
    hide Legal, Summary;
    EmitLegal(c, s, PeerOk(id, challenge, response));
    var s1 := Emit(s, PeerOk(id, challenge, response)).(pendPeer := false);
    if !s1.pendWith {
      EmitLegal(c, s1, Network);
    }
  }

  lemma ResponseKeeps(c: Config, s: State, e: Event)
    requires Inv(c, s) && e.Response?
    ensures Inv(c, HandleResponse(c, s, e))
  {
    hide Legal, Summary;
    var srv := s.srv;
    if !srv.lowerUp || e.id != srv.chalId || e.len < 2 {
    } else if srv.valid {
      if e.nameFits {
        var ok := c.verify(e.id, srv.challenge, e.response) && e.numberOk;
        var sv := srv.(timer := false, failed := srv.failed || !ok);
        EmitLegal(c, s.(srv := sv), Status(e.id, !sv.failed));
        var s1 := Emit(s.(srv := sv.(valid := false)), Status(e.id, !sv.failed));
        if sv.failed {
          FailKeeps(c, s1, PeerFailed);
        } else if !sv.done {
          PeerSuccessKeeps(c, s1, e.id, srv.challenge, e.response);
        }
      }
    } else if srv.done {
      EmitLegal(c, s, Status(e.id, !srv.failed));
    }
  }

  lemma StatusKeeps(c: Config, s: State, success: bool, checkOk: bool)
    requires Inv(c, s)
    ensures Inv(c, HandleStatus(s, success, checkOk))
  {
    hide Legal, Summary;
    if s.cli.started && s.cli.lowerUp && !s.cli.done {
      var s1 := s.(cli := s.cli.(done := true, timer := false));
      if success && checkOk {
        EmitLegal(c, s1, WithOk);
        var s2 := Emit(s1, WithOk).(pendWith := false);
        if !s2.pendPeer {
          EmitLegal(c, s2, Network);
        }
      } else {
        FailKeeps(c, s1.(cli := s1.cli.(failed := true)), WithFailed);
      }
    }
  }

  lemma RejectKeeps(c: Config, s: State)
    requires Inv(c, s)
    ensures Inv(c, ProtRej(s))
  {
    hide Legal, Summary;
    if s.srv.started {
      FailKeeps(c, s.(srv := ServerDown(s.srv)), PeerFailed);
    } else if s.cli.started && !s.cli.done {
      var s1 := s.(srv := s.srv.(timer := false));
      FailKeeps(c, s1.(cli := s1.cli.(started := false)), WithFailed);
    }
  }

  lemma EstablishKeeps(c: Config, s: State, e: Event)
    requires Inv(c, s) && e.LinkEstablished? && !s.lcpOpen
    ensures Inv(c, Establish(c, s, e))
  {
    hide Legal, Summary;
    EmitLegal(c, s.(lcpOpen := true), Up(e.peer, e.withPeer));
    var s0 := Emit(s.(lcpOpen := true), Up(e.peer, e.withPeer));
    var s1 := LowerUp(c, s0, e.nonce);
    if e.refused {
      DownKeeps(c, s1);
    } else {
      var s2 := if e.peer then AuthPeer(c, s1, e.idSeed, e.nonce) else s1;
      if e.peer {
        FirstChallenge(c, s1, e.idSeed, e.nonce);
      }
      var s3 := if e.withPeer then AuthWithPeer(s2) else s2;
      var s4 := s3.(pendPeer := e.peer, pendWith := e.withPeer);
      if !e.peer && !e.withPeer {
        EmitLegal(c, s4, Network);
      }
    }
  }

  /** Starting to authenticate the peer sends a challenge at once. */
  lemma FirstChallenge(c: Config, s: State, idSeed: nat, nonce: nat)
    requires Legal(c, s.log) && !s.srv.started && s.srv.lowerUp && !s.srv.valid
    ensures var s' := AuthPeer(c, s, idSeed, nonce);
            && Legal(c, s'.log)
            && s'.srv == s.srv.(started := true, timer := true, valid := true, id := idSeed % 256 + 1,
                                chalId := (idSeed % 256 + 1) % 256, challenge := nonce, xmits := 1)
            && s' == s.(srv := s'.srv, log := s'.log)
            && Summary(s'.log) == Extend(Summary(s.log), Challenge(s'.srv.chalId, nonce))
  {
    hide Legal, Summary;
    EmitLegal(c, s, Challenge((idSeed % 256 + 1) % 256, nonce));
  }

  lemma StepKeeps(c: Config, s: State, e: Event)
    requires Inv(c, s) && Enabled(s, e)
    ensures Inv(c, Step(c, s, e))
  {
    hide Legal, Summary, Establish, ServerTimeout, HandleResponse, HandleStatus, ProtRej;
    match e
    case LinkEstablished(_, _, _, _, _) => EstablishKeeps(c, s, e);
    case LinkDown => DownKeeps(c, s);
    case ServerTimer(nonce) => TimeoutKeeps(c, s, nonce);
    case ClientTimer => FailKeeps(c, s.(cli := s.cli.(timer := false, done := true, failed := true)), WithFailed);
    case Response(_, _, _, _, _) => ResponseKeeps(c, s, e);
    case StatusIn(success, checkOk) => StatusKeeps(c, s, success, checkOk);
    case ProtocolReject => RejectKeeps(c, s);
  }

  // ----- Whole runs -----

  ghost predicate Possible(c: Config, s: State, es: seq<Event>)
    decreases |es|
  {
    es == [] || (Enabled(s, es[0]) && Possible(c, Step(c, s, es[0]), es[1..]))
  }

  ghost function Run(c: Config, s: State, es: seq<Event>): State
    requires Possible(c, s, es)
    decreases |es|
  {
    if es == [] then s else Run(c, Step(c, s, es[0]), es[1..])
  }

  /** In every run, everything that is reported is allowed at that point. */
  lemma {:induction false} EveryRunLegal(c: Config, s: State, es: seq<Event>)
    requires Inv(c, s) && Possible(c, s, es)
    ensures Inv(c, Run(c, s, es)) && Legal(c, Run(c, s, es).log)
    decreases |es|
  {
    hide Step, Legal, Matches;
    if es != [] {
      StepKeeps(c, s, es[0]);
      EveryRunLegal(c, Step(c, s, es[0]), es[1..]);
    }
  }

  lemma InitialOk(c: Config)
    ensures Inv(c, Initial()) && Paced(c, Initial())
  {
  }

  /** What was reported stays reported. */
  lemma LogGrows(c: Config, s: State, e: Event)
    ensures s.log <= Step(c, s, e).log
  {
    hide Establish, ServerTimeout, HandleResponse;
    match e
    case LinkEstablished(_, _, _, _, _) => EstablishGrows(c, s, e);
    case ServerTimer(nonce) => TimeoutGrows(c, s, nonce);
    case Response(_, _, _, _, _) => ResponseGrows(c, s, e);
    case _ =>
  }

  lemma TimeoutGrows(c: Config, s: State, nonce: nat)
    ensures s.log <= ServerTimeout(c, s, nonce).log
  {
  }

  lemma EstablishGrows(c: Config, s: State, e: Event)
    requires e.LinkEstablished?
    ensures s.log <= Establish(c, s, e).log
  {
    hide ServerTimeout, ServerDown;
    var s0 := Emit(s.(lcpOpen := true), Up(e.peer, e.withPeer));
    TimeoutGrows(c, s0.(cli := s0.cli.(lowerUp := true), srv := s0.srv.(lowerUp := true)), e.nonce);
    var s1 := LowerUp(c, s0, e.nonce);
    TimeoutGrows(c, s1.(srv := s1.srv.(id := e.idSeed % 256, started := true)), e.nonce);
  }

  lemma ResponseGrows(c: Config, s: State, e: Event)
    requires e.Response?
    ensures s.log <= HandleResponse(c, s, e).log
  {
  }

  // ----- Challenges are not repeated for ever -----

  /** How often the last challenge was sent since a status, or the link going up or down, was reported. */
  function Streak(log: seq<Report>): (n: nat)
  {
    if |log| == 0 then 0
    else
      var n := Streak(log[..|log| - 1]);
      match log[|log| - 1]
      case Challenge(_, _) => n + 1
      case Status(_, _) => 0
      case Up(_, _) => 0
      case Down => 0
      case _ => n
  }

  function Limit(c: Config): nat { if c.maxTransmits < 1 then 1 else c.maxTransmits }

  /** At no point of the log was a challenge sent more often in a row than the limit. */
  ghost predicate Bounded(c: Config, log: seq<Report>)
  {
    forall i | 0 <= i <= |log| :: Streak(log[..i]) <= Limit(c)
  }

  /** challenge_xmits counts the challenges in the log. */
  ghost predicate Paced(c: Config, s: State)
  {
    && Bounded(c, s.log)
    && Streak(s.log) == (if s.srv.valid then s.srv.xmits else 0)
  }

  lemma EmitBounded(c: Config, s: State, r: Report)
    requires Bounded(c, s.log) && (r.Challenge? ==> Streak(s.log) < Limit(c))
    ensures Bounded(c, Emit(s, r).log)
    ensures Streak(Emit(s, r).log) == (if r.Challenge? then Streak(s.log) + 1
                                      else if r.Status? || r.Up? || r.Down? then 0 else Streak(s.log))
  {
    hide Limit;
    var log := s.log + [r];
    assert log[..|s.log|] == s.log && log[..|log|] == log && s.log[..|s.log|] == s.log;
    forall i | 0 <= i <= |log| ensures Streak(log[..i]) <= Limit(c) {
      if i <= |s.log| {
        assert log[..i] == s.log[..i];
      }
    }
  }

  lemma DownPaced(c: Config, s: State)
    requires Bounded(c, s.log)
    ensures Paced(c, GoDown(s))
  {
    hide Bounded, Streak;
    EmitBounded(c, s.(srv := ServerDown(s.srv), cli := ClientDown, lcpOpen := false), Down);
  }

  lemma FailPaced(c: Config, s: State, r: Report)
    requires Bounded(c, s.log) && s.lcpOpen && (r == PeerFailed || r == WithFailed)
    ensures Paced(c, LcpClose(Emit(s, r)))
  {
    hide Bounded, Streak;
    EmitBounded(c, s, r);
    DownPaced(c, Emit(s, r));
  }

  lemma TimeoutPaced(c: Config, s: State, nonce: nat)
    requires Paced(c, s) && s.lcpOpen
    ensures Paced(c, ServerTimeout(c, s, nonce))
  {
    hide Bounded, Streak;
    var srv := s.srv.(timer := false);
    if srv.valid && srv.xmits >= c.maxTransmits {
      FailPaced(c, s.(srv := srv.(valid := false, done := true, failed := true)), PeerFailed);
    } else {
      var sv := if srv.valid then srv
                else srv.(xmits := 0, challenge := nonce, id := srv.id + 1, chalId := (srv.id + 1) % 256,
                          valid := true);
      EmitBounded(c, s.(srv := sv.(xmits := sv.xmits + 1, timer := true)), Challenge(sv.chalId, sv.challenge));
    }
  }

  lemma ResponsePaced(c: Config, s: State, e: Event)
    requires Inv(c, s) && Paced(c, s) && e.Response?
    ensures Paced(c, HandleResponse(c, s, e))
  {
    hide Bounded, Streak, Legal, Summary;
    var srv := s.srv;
    if srv.lowerUp && e.id == srv.chalId && e.len >= 2 && (srv.valid ==> e.nameFits) && (srv.valid || srv.done) {
      var ok := c.verify(e.id, srv.challenge, e.response) && e.numberOk;
      var sv := if srv.valid then srv.(timer := false, failed := srv.failed || !ok) else srv;
      var s0 := s.(srv := sv);
      EmitBounded(c, s0, Status(e.id, !sv.failed));
      var s1 := Emit(s0.(srv := sv.(valid := false)), Status(e.id, !sv.failed));
      if srv.valid {
        if sv.failed {
          FailPaced(c, s1, PeerFailed);
        } else if !sv.done {
          var done := PeerOk(e.id, srv.challenge, e.response);
          EmitBounded(c, s1, done);
          EmitBounded(c, Emit(s1, done), Network);
        }
      }
    }
  }

  lemma StatusPaced(c: Config, s: State, success: bool, checkOk: bool)
    requires Inv(c, s) && Paced(c, s)
    ensures Paced(c, HandleStatus(s, success, checkOk))
  {
    hide Bounded, Streak, Legal, Summary;
    if s.cli.started && s.cli.lowerUp && !s.cli.done {
      var s1 := s.(cli := s.cli.(done := true, timer := false));
      if success && checkOk {
        EmitBounded(c, s1, WithOk);
        EmitBounded(c, Emit(s1, WithOk), Network);
      } else {
        FailPaced(c, s1.(cli := s1.cli.(failed := true)), WithFailed);
      }
    }
  }

  lemma RejectPaced(c: Config, s: State)
    requires Inv(c, s) && Paced(c, s)
    ensures Paced(c, ProtRej(s))
  {
    hide Bounded, Streak, Legal, Summary;
    if s.srv.started {
      FailPaced(c, s.(srv := ServerDown(s.srv)), PeerFailed);
    } else if s.cli.started && !s.cli.done {
      FailPaced(c, s.(srv := s.srv.(timer := false), cli := s.cli.(started := false)), WithFailed);
    }
  }

  lemma EstablishPaced(c: Config, s: State, e: Event)
    requires Inv(c, s) && Paced(c, s) && e.LinkEstablished? && !s.lcpOpen
    ensures Paced(c, Establish(c, s, e))
  {
    hide Bounded, Streak, Legal, Summary, ServerTimeout;
    EmitBounded(c, s.(lcpOpen := true), Up(e.peer, e.withPeer));
    var s1 := LowerUp(c, Emit(s.(lcpOpen := true), Up(e.peer, e.withPeer)), e.nonce);
    if e.refused {
      DownPaced(c, s1);
    } else if e.peer {
      TimeoutPaced(c, s1.(srv := s1.srv.(id := e.idSeed % 256, started := true)), e.nonce);
    } else if !e.withPeer {
      EmitBounded(c, s1, Network);
    }
  }

  lemma StepPaced(c: Config, s: State, e: Event)
    requires Inv(c, s) && Paced(c, s) && Enabled(s, e)
    ensures Paced(c, Step(c, s, e))
  {
    hide Bounded, Streak, Legal, Summary, Establish, ServerTimeout, HandleResponse, HandleStatus, ProtRej;
    match e
    case LinkEstablished(_, _, _, _, _) => EstablishPaced(c, s, e);
    case LinkDown => DownPaced(c, s);
    case ServerTimer(nonce) => TimeoutPaced(c, s, nonce);
    case ClientTimer => FailPaced(c, s.(cli := s.cli.(timer := false, done := true, failed := true)), WithFailed);
    case Response(_, _, _, _, _) => ResponsePaced(c, s, e);
    case StatusIn(success, checkOk) => StatusPaced(c, s, success, checkOk);
    case ProtocolReject => RejectPaced(c, s);
  }

  /** In every run, no challenge is sent more often in a row than chap_max_transmits, or once if that is less. */
  lemma {:induction false} EveryRunBounded(c: Config, s: State, es: seq<Event>)
    requires Inv(c, s) && Paced(c, s) && Possible(c, s, es)
    ensures Paced(c, Run(c, s, es)) && Bounded(c, Run(c, s, es).log)
    decreases |es|
  {
    hide Step, Bounded, Inv, Enabled;
    if es != [] {
      StepKeeps(c, s, es[0]);
      StepPaced(c, s, es[0]);
      EveryRunBounded(c, Step(c, s, es[0]), es[1..]);
    }
  }

  // ----- When a good response gets its success -----

  /** A response to the outstanding challenge that verifies. */
  predicate GoodResponse(c: Config, s: State, e: Event)
  {
    && s.srv.lowerUp && s.srv.valid && !s.srv.failed
    && e.Response? && e.id == s.srv.chalId && e.len >= 2 && e.nameFits && e.numberOk
    && c.verify(e.id, s.srv.challenge, e.response)
  }

  /** It is reported to auth.c if and only if AUTH_DONE was not already set. */
  lemma GoodResponseReportedIff(c: Config, s: State, e: Event)
    requires GoodResponse(c, s, e)
    ensures PeerOk(e.id, s.srv.challenge, e.response) in HandleResponse(c, s, e).log[|s.log|..] <==> !s.srv.done
  {
    var s1 := Emit(s, Status(e.id, true));
    var ok := PeerOk(e.id, s.srv.challenge, e.response);
    var s' := HandleResponse(c, s, e);
    if s.srv.done {
      assert s'.log[|s.log|..] == [Status(e.id, true)];
    } else {
      assert s'.log[|s.log| + 1] == ok;
      assert s'.log[|s.log|..][1] == ok;
    }
  }

  /** Whatever the response, success is reported only if it verifies against the outstanding challenge, under its id. */
  lemma OnlyVerified(c: Config, s: State, e: Event)
    requires e.Response?
    ensures var log := HandleResponse(c, s, e).log;
            forall i :: |s.log| <= i < |log| && log[i].PeerOk? ==>
              && s.srv.valid && e.id == s.srv.chalId && log[i] == PeerOk(e.id, s.srv.challenge, e.response)
              && c.verify(e.id, s.srv.challenge, e.response)
  {
  }

  /** A response that fails leaves AUTH_DONE set although the link has gone down. */
  lemma FailureLeavesDone(c: Config, s: State, e: Event)
    requires s.lcpOpen && s.srv.lowerUp && s.srv.valid
    requires e.Response? && e.id == s.srv.chalId && e.len >= 2 && e.nameFits
    requires !(c.verify(e.id, s.srv.challenge, e.response) && e.numberOk)
    ensures var s' := HandleResponse(c, s, e); !s'.lcpOpen && s'.srv.done && !s'.srv.lowerUp
  {
  }

  /** The server while it waits for the answer to its first challenge; `done` is left over from before. */
  function Waiting(done: bool, nonce: nat): Server { Server(true, true, done, false, true, true, 1, 1, nonce, 1) }

  const Listening := Client(true, false, false, false, false)

  lemma ComesUp(c: Config, s: State, nonce: nat)
    requires !s.srv.started && !s.srv.failed && !s.srv.valid && s.cli == ClientDown
    ensures Step(c, s, LinkEstablished(false, true, false, 0, nonce))
         == State(Waiting(s.srv.done, nonce), Listening, true, false, true,
                  s.log + [Up(true, false), Challenge(1, nonce)])
  {
  }

  lemma FailsOnce(c: Config, s: State, nonce: nat, bad: nat)
    requires s.srv == Waiting(false, nonce) && s.lcpOpen && !c.verify(1, nonce, bad)
    ensures var s' := Step(c, s, Response(1, 17, true, bad, true));
            && !s'.lcpOpen && s'.cli == ClientDown
            && !s'.srv.started && !s'.srv.failed && !s'.srv.valid && s'.srv.done
            && s'.log == s.log + [Status(1, false), PeerFailed, Down]
  {
  }

  lemma AnswersInVain(c: Config, s: State, nonce: nat, good: nat)
    requires s.srv == Waiting(true, nonce) && s.lcpOpen && c.verify(1, nonce, good)
    ensures var s' := Step(c, s, Response(1, 17, true, good, true));
            s'.lcpOpen && s'.pendPeer == s.pendPeer && s'.log == s.log + [Status(1, true)]
  {
  }

  /**
   So a peer that failed once and then answers correctly on the next link is
   told so, but the success is not reported and the network phase is not reached.
   */
  lemma SecondChanceLost(c: Config, n1: nat, n2: nat, bad: nat, good: nat)
    requires !c.verify(1, n1, bad) && c.verify(1, n2, good)
    ensures var up1, up2 := LinkEstablished(false, true, false, 0, n1), LinkEstablished(false, true, false, 0, n2);
            var s1 := Step(c, Initial(), up1);
            var s2 := Step(c, s1, Response(1, 17, true, bad, true));
            var s3 := Step(c, s2, up2);
            var s4 := Step(c, s3, Response(1, 17, true, good, true));
            && Enabled(Initial(), up1) && Enabled(s2, up2)
            && s4.lcpOpen && s4.pendPeer
            && Status(1, true) in s4.log
            && Network !in s4.log && PeerOk(1, n2, good) !in s4.log
  {
    hide Step;
    var up1, up2 := LinkEstablished(false, true, false, 0, n1), LinkEstablished(false, true, false, 0, n2);
    var s1 := Step(c, Initial(), up1);
    ComesUp(c, Initial(), n1);
    var s2 := Step(c, s1, Response(1, 17, true, bad, true));
    FailsOnce(c, s1, n1, bad);
    var s3 := Step(c, s2, up2);
    ComesUp(c, s2, n2);
    var s4 := Step(c, s3, Response(1, 17, true, good, true));
    AnswersInVain(c, s3, n2, good);
    assert s4.log == [Up(true, false), Challenge(1, n1), Status(1, false), PeerFailed, Down,
                      Up(true, false), Challenge(1, n2), Status(1, true)];
  }
}
