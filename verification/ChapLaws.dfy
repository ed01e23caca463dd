/**
 What each event of CHAP reports and leaves behind, told from the event, and
 which successes stand behind the network phase over whole runs.
 */
module ChapLaws {
  import opened ChapSpec
  import opened ChapSafety

  /** What is reported from state s on is exactly this. */
  predicate Reports(s: State, s2: State, rs: seq<Report>) { s2.log == s.log + rs }

  function If(b: bool, rs: seq<Report>): seq<Report> { if b then rs else [] }

  /**
   * The link comes up with the directions asked for pending, each begun, or is refused and goes down.
   * Only a link on which nothing was asked for reaches the network phase at once.
   */
  lemma EstablishReports(c: Config, s: State, e: Event)
    requires Inv(c, s) && e.LinkEstablished? && !s.lcpOpen
    ensures var s2 := Establish(c, s, e);
      if e.refused then Reports(s, s2, [Up(e.peer, e.withPeer), Down]) && !s2.lcpOpen
      else
        && Reports(s, s2, [Up(e.peer, e.withPeer)] + If(e.peer, [Challenge((e.idSeed + 1) % 256, e.nonce)])
                          + If(!e.peer && !e.withPeer, [Network]))
        && s2.lcpOpen && s2.pendPeer == e.peer && s2.pendWith == e.withPeer
        && s2.srv.started == s2.srv.valid == s2.srv.timer == e.peer && (e.peer ==> s2.srv.xmits == 1)
        && s2.cli.started == s2.cli.timer == e.withPeer && !s2.cli.done
  {
    hide Legal, Summary;
    assert (e.idSeed % 256 + 1) % 256 == (e.idSeed + 1) % 256;
  }

  /** A timer repeats the challenge that is out, sends a new one under the next id, or gives up. */
  lemma TimerReports(c: Config, s: State, nonce: nat)
    requires Inv(c, s) && s.srv.timer
    ensures var s2 := ServerTimeout(c, s, nonce);
      if !s.srv.valid then
        && Reports(s, s2, [Challenge((s.srv.id + 1) % 256, nonce)])
        && s2 == s.(srv := s.srv.(id := s.srv.id + 1, chalId := (s.srv.id + 1) % 256, challenge := nonce, valid := true,
                                  xmits := 1), log := s2.log)
      else if s.srv.xmits < c.maxTransmits then
        && Reports(s, s2, [Challenge(s.srv.chalId, s.srv.challenge)])
        && s2 == s.(srv := s.srv.(xmits := s.srv.xmits + 1), log := s2.log)
      else Reports(s, s2, [PeerFailed, Down]) && !s2.lcpOpen
  {
    hide Legal, Summary;
  }

  /** Each answer to a response. */
  lemma ResponseReports(c: Config, s: State, e: Event)
    requires Inv(c, s) && e.Response?
    ensures var s2 := HandleResponse(c, s, e);
      if !s.lcpOpen || e.id != s.srv.chalId || e.len < 2 || (s.srv.valid && !e.nameFits) then s2 == s
      else if !s.srv.valid then
        Reports(s, s2, If(s.srv.done, [Status(e.id, true)])) && s2 == s.(log := s2.log)
      else if !(c.verify(e.id, s.srv.challenge, e.response) && e.numberOk) then
        Reports(s, s2, [Status(e.id, false), PeerFailed, Down]) && !s2.lcpOpen
      else
        && Reports(s, s2, [Status(e.id, true)]
                          + If(!s.srv.done, [PeerOk(e.id, s.srv.challenge, e.response)] + If(!s.pendWith, [Network])))
        && s2.lcpOpen && s2.srv == s.srv.(valid := false, done := true, timer := c.rechallenge)
        && s2.cli == s.cli && s2.pendPeer == (s.pendPeer && s.srv.done) && s2.pendWith == s.pendWith
  {
    hide Legal, Summary;
  }

  /** A status counts once, and only while one is waited for: it is a success if and only if it says so and checks. */
  lemma StatusReports(c: Config, s: State, success: bool, checkOk: bool)
    requires Inv(c, s)
    ensures var s2 := HandleStatus(s, success, checkOk);
      if !s.cli.started || s.cli.done then s2 == s
      else if success && checkOk then
        && Reports(s, s2, [WithOk] + If(!s.pendPeer, [Network]))
        && s2.lcpOpen && !s2.pendWith && s2.cli == s.cli.(done := true, timer := false)
        && s2.srv == s.srv && s2.pendPeer == s.pendPeer
      else Reports(s, s2, [WithFailed, Down]) && !s2.lcpOpen
  {
    hide Legal, Summary;
  }

  /** The client that waited too long, and a peer that does not speak CHAP, end the link. */
  lemma GivesUp(c: Config, s: State)
    requires Inv(c, s)
    ensures s.cli.timer ==> Reports(s, ClientTimeout(s), [WithFailed, Down]) && !ClientTimeout(s).lcpOpen
    ensures var s2 := ProtRej(s);
      if s.srv.started then Reports(s, s2, [PeerFailed, Down]) && !s2.lcpOpen
      else if s.cli.started && !s.cli.done then Reports(s, s2, [WithFailed, Down]) && !s2.lcpOpen
      else Reports(s, s2, []) && s2.lcpOpen == s.lcpOpen
  {
    hide Legal, Summary;
  }

  // ----- Over runs -----

  predicate NoUpFrom(log: seq<Report>, m: nat) { forall i :: m <= i < |log| ==> !log[i].Up? }

  /** Only link_established reports that the link is up. */
  lemma NoUp(c: Config, s: State, e: Event)
    requires Inv(c, s) && Enabled(s, e) && !e.LinkEstablished?
    ensures s.log <= Step(c, s, e).log && NoUpFrom(Step(c, s, e).log, |s.log|)
  {
    hide Legal, Summary, Inv, ServerTimeout, HandleResponse, HandleStatus, ProtRej, ClientTimeout;
    ClientTimerUp(c, s);
    match e
    case LinkDown =>
    case ServerTimer(nonce) => TimerReports(c, s, nonce);
    case ClientTimer => GivesUp(c, s);
    case Response(_, _, _, _, _) => ResponseReports(c, s, e);
    case StatusIn(success, checkOk) => StatusReports(c, s, success, checkOk);
    case ProtocolReject => GivesUp(c, s);
  }

  /** The client's timer runs on an open link only. */
  lemma ClientTimerUp(c: Config, s: State)
    requires Inv(c, s)
    ensures s.cli.timer ==> s.lcpOpen
  {
    hide Legal, Summary;
  }

  predicate NoneUp(es: seq<Event>) { forall i :: 0 <= i < |es| ==> !es[i].LinkEstablished? }

  lemma {:induction false} RunNoUp(c: Config, s: State, es: seq<Event>)
    requires Inv(c, s) && Possible(c, s, es) && NoneUp(es)
    ensures s.log <= Run(c, s, es).log && NoUpFrom(Run(c, s, es).log, |s.log|)
    decreases |es|
  {
    hide Step, Inv, Enabled;
    if es != [] {
      NoUp(c, s, es[0]);
      StepKeeps(c, s, es[0]);
      RunNoUp(c, Step(c, s, es[0]), es[1..]);
      UpNowhere(s.log, Step(c, s, es[0]).log, Run(c, s, es).log);
    }
  }

  lemma UpNowhere(log: seq<Report>, log1: seq<Report>, log2: seq<Report>)
    requires log <= log1 <= log2 && NoUpFrom(log1, |log|) && NoUpFrom(log2, |log1|)
    ensures NoUpFrom(log2, |log|)
  {
    forall i | |log| <= i < |log2| ensures !log2[i].Up? {
      if i < |log1| {
        assert log2[i] == log1[i];
      }
    }
  }

  predicate PeerOkIn(log: seq<Report>, m: nat, i: nat)
    requires m <= i <= |log|
  {
    exists k :: m <= k < i && log[k].PeerOk?
  }

  predicate WithOkIn(log: seq<Report>, m: nat, i: nat)
    requires m <= i <= |log|
  {
    exists k :: m <= k < i && log[k].WithOk?
  }

  predicate NetworkIn(log: seq<Report>, m: nat, i: nat)
    requires m <= i <= |log|
  {
    exists k :: m <= k < i && log[k].Network?
  }

  /** The summary tells what the log holds since the link came up at m. */
  predicate Tells(sum: Sum, log: seq<Report>, m: nat, i: nat)
    requires m < i <= |log|
  {
    && log[m] == Up(sum.needPeer, sum.needWith)
    && (sum.gotPeer <==> PeerOkIn(log, m, i)) && (sum.gotWith <==> WithOkIn(log, m, i))
    && (sum.networks > 0 <==> NetworkIn(log, m, i))
  }

  lemma {:induction false} SummarySince(log: seq<Report>, m: nat, i: nat)
    requires m < i <= |log| && log[m].Up? && NoUpFrom(log, m + 1)
    ensures Tells(Summary(log[..i]), log, m, i)
    decreases i
  {
    hide Summary, Tells, Extend;
    assert log[..i] == log[..i - 1] + [log[i - 1]];
    SummaryAppend(log[..i - 1], log[i - 1]);
    if i > m + 1 {
      SummarySince(log, m, i - 1);
      TellsNext(Summary(log[..i - 1]), log, m, i);
    } else {
      TellsFirst(Summary(log[..m]), log, m);
    }
  }

  lemma TellsFirst(sum: Sum, log: seq<Report>, m: nat)
    requires m < |log| && log[m].Up?
    ensures Tells(Extend(sum, log[m]), log, m, m + 1)
  {
    hide PeerOkIn, WithOkIn, NetworkIn;
    InNone(log, m);
    InOneMore(log, m, m + 1);
  }

  lemma TellsNext(sum: Sum, log: seq<Report>, m: nat, i: nat)
    requires m + 1 < i <= |log| && Tells(sum, log, m, i - 1) && !log[i - 1].Up?
    ensures Tells(Extend(sum, log[i - 1]), log, m, i)
  {
    hide PeerOkIn, WithOkIn, NetworkIn, Extend;
    InOneMore(log, m, i);
    ExtendIs(sum, log[i - 1]);
  }

  lemma ExtendIs(sum: Sum, r: Report)
    requires !r.Up?
    ensures var e := Extend(sum, r);
      && e.needPeer == sum.needPeer && e.needWith == sum.needWith
      && e.gotPeer == (sum.gotPeer || r.PeerOk?) && e.gotWith == (sum.gotWith || r.WithOk?)
      && (e.networks > 0 <==> sum.networks > 0 || r.Network?)
  {
  }

  lemma InNone(log: seq<Report>, m: nat)
    requires m <= |log|
    ensures !PeerOkIn(log, m, m) && !WithOkIn(log, m, m) && !NetworkIn(log, m, m)
  {
  }

  lemma InOneMore(log: seq<Report>, m: nat, i: nat)
    requires m < i <= |log|
    ensures PeerOkIn(log, m, i) <==> PeerOkIn(log, m, i - 1) || log[i - 1].PeerOk?
    ensures WithOkIn(log, m, i) <==> WithOkIn(log, m, i - 1) || log[i - 1].WithOk?
    ensures NetworkIn(log, m, i) <==> NetworkIn(log, m, i - 1) || log[i - 1].Network?
  {
  }

  /**
   * Since the last link_established: the network phase comes only after the successes that event asked for,
   * and on a link that is up it has come exactly if they have.
   */
  lemma NetworkEarned(c: Config, s: State, e: Event, es: seq<Event>)
    requires Inv(c, s) && e.LinkEstablished? && Enabled(s, e) && Possible(c, Step(c, s, e), es) && NoneUp(es)
    ensures var end := Run(c, Step(c, s, e), es); var m := |s.log|;
      && s.log <= end.log && |end.log| > m && end.log[m] == Up(e.peer, e.withPeer) && NoUpFrom(end.log, m + 1)
      && (forall i :: m <= i < |end.log| && end.log[i].Network? ==>
            (e.peer ==> PeerOkIn(end.log, m, i)) && (e.withPeer ==> WithOkIn(end.log, m, i)))
      && (end.lcpOpen ==>
            (NetworkIn(end.log, m, |end.log|) <==>
               (e.peer ==> PeerOkIn(end.log, m, |end.log|)) && (e.withPeer ==> WithOkIn(end.log, m, |end.log|))))
  {
    hide Step, Inv, Enabled, Summary, PeerOkIn, WithOkIn, NetworkIn;
    var s1, m := Step(c, s, e), |s.log|;
    FirstUp(c, s, e);
    StepKeeps(c, s, e);
    RunNoUp(c, s1, es);
    EveryRunLegal(c, s1, es);
    var end := Run(c, s1, es);
    assert end.log[m] == s1.log[m];
    UpNowhere(s1.log[..m + 1], s1.log, end.log);
    forall i | m <= i < |end.log| && end.log[i].Network?
      ensures (e.peer ==> PeerOkIn(end.log, m, i)) && (e.withPeer ==> WithOkIn(end.log, m, i))
    {
      LegalAt(c, end, i);
      SummarySince(end.log, m, i);
    }
    SummarySince(end.log, m, |end.log|);
    assert end.log[..|end.log|] == end.log;
    if end.lcpOpen {
      OpenSays(c, end);
    }
  }

  lemma FirstUp(c: Config, s: State, e: Event)
    requires Inv(c, s) && e.LinkEstablished? && Enabled(s, e)
    ensures var log := Step(c, s, e).log;
      s.log <= log && |log| > |s.log| && log[|s.log|] == Up(e.peer, e.withPeer) && NoUpFrom(log, |s.log| + 1)
  {
    hide Inv, Establish;
    EstablishReports(c, s, e);
  }

  lemma LegalAt(c: Config, s: State, i: nat)
    requires Inv(c, s) && i < |s.log|
    ensures Allowed(c, Summary(s.log[..i]), s.log[i])
  {
  }

  lemma OpenSays(c: Config, s: State)
    requires Inv(c, s) && s.lcpOpen
    ensures var sum := Summary(s.log);
      sum.networks > 0 <==> (sum.needPeer ==> sum.gotPeer) && (sum.needWith ==> sum.gotWith)
  {
  }

  lemma {:induction false} RunSplit(c: Config, s: State, a: seq<Event>, b: seq<Event>)
    requires Possible(c, s, a + b)
    ensures Possible(c, s, a) && Possible(c, Run(c, s, a), b) && Run(c, s, a + b) == Run(c, Run(c, s, a), b)
    decreases |a|
  {
    hide Step, Enabled;
    if a == [] {
      assert a + b == b;
    } else {
      assert (a + b)[0] == a[0] && (a + b)[1..] == a[1..] + b;
      RunSplit(c, Step(c, s, a[0]), a[1..], b);
    }
  }

  /** In every run from the start: each network phase since the last link_established was earned as it asked. */
  lemma EveryNetworkEarned(c: Config, before: seq<Event>, e: Event, after: seq<Event>)
    requires Possible(c, Initial(), before + [e] + after) && e.LinkEstablished? && NoneUp(after)
    ensures Possible(c, Initial(), before)
    ensures var log, m := Run(c, Initial(), before + [e] + after).log, |Run(c, Initial(), before).log|;
      forall i :: m <= i < |log| && log[i].Network? ==>
        (e.peer ==> PeerOkIn(log, m, i)) && (e.withPeer ==> WithOkIn(log, m, i))
  {
    hide Step, Inv, Enabled, Initial, PeerOkIn, WithOkIn, NetworkIn;
    InitialOk(c);
    assert before + [e] + after == before + ([e] + after);
    RunSplit(c, Initial(), before, [e] + after);
    EveryRunLegal(c, Initial(), before);
    var s := Run(c, Initial(), before);
    assert ([e] + after)[0] == e && ([e] + after)[1..] == after;
    NetworkEarned(c, s, e, after);
  }
}
