/** What the outcome of a simulation says of it: the summary is read off the log of decisions, and
  * the log has every request, when it came. */
module MultiRegionReport {
  import opened Arith
  import opened MultiRegion
  import opened MultiRegionRuns
  import opened MultiRegionBounds

  /** When the requests of region r came that were decided on, let in or not. */
  function DecisionTimes(decisions: seq<Decision>, r: Region): seq<int> {
    if decisions == [] then []
    else
      var earlier := DecisionTimes(decisions[..|decisions| - 1], r);
      var d := decisions[|decisions| - 1];
      if d.region == r then earlier + [d.timeMs] else earlier
  }

  lemma DecisionTimesSnoc(decisions: seq<Decision>, d: Decision, r: Region)
    ensures DecisionTimes(decisions + [d], r) ==
            if d.region == r then DecisionTimes(decisions, r) + [d.timeMs] else DecisionTimes(decisions, r)
  {
    assert (decisions + [d])[..|decisions|] == decisions;
  }

  lemma {:induction false} AcceptedOrRefused(decisions: seq<Decision>, r: Region)
    ensures |DecisionTimes(decisions, r)| == |AcceptTimes(decisions, r)| + Refused(decisions, r)
  {
    if decisions != [] {
      AcceptedOrRefused(decisions[..|decisions| - 1], r);
    }
  }

  lemma {:induction false} EachInOneRegion(decisions: seq<Decision>)
    ensures |decisions| == |DecisionTimes(decisions, India)| + |DecisionTimes(decisions, US)|
  {
    if decisions != [] {
      EachInOneRegion(decisions[..|decisions| - 1]);
    }
  }

  /** By time; at one instant, India's before those of the US. */
  predicate NotAfter(d: Decision, later: Decision) {
    d.timeMs < later.timeMs || (d.timeMs == later.timeMs && (d.region == India || later.region == US))
  }

  predicate InOrder(decisions: seq<Decision>) {
    |decisions| <= 1 || (
      && InOrder(decisions[..|decisions| - 1])
      && NotAfter(decisions[|decisions| - 2], decisions[|decisions| - 1]))
  }

  lemma InOrderSnoc(decisions: seq<Decision>, d: Decision)
    requires InOrder(decisions) && (decisions != [] ==> NotAfter(decisions[|decisions| - 1], d))
    ensures InOrder(decisions + [d])
  {
    hide NotAfter;
    var all := decisions + [d];
    assert all[..|all| - 1] == decisions;
    if decisions != [] {
      assert all[|all| - 2] == decisions[|decisions| - 1] && all[|all| - 1] == d;
    }
  }

  /** The request that a decision answers. */
  function RequestOf(d: Decision): Event { Event(d.timeMs, 1, Request, d.region) }

  /** No request still queued comes before a decision. */
  ghost predicate Behind(queue: seq<Event>, decisions: seq<Decision>) {
    && InOrder(decisions)
    && (decisions != [] ==>
          forall e :: e in queue && e.kind.Request? ==> Before(RequestOf(decisions[|decisions| - 1]), e))
  }

  /** Every request is either decided on or still queued. */
  ghost predicate Logged(p: Setup, w: World, r: Region) {
    DecisionTimes(w.decisions, r) + RequestTimes(w.queue, r) == p.Schedule(r)
  }

  lemma RequestTimesHead(queue: seq<Event>, r: Region)
    requires queue != []
    ensures var (e, rest) := (queue[0], RequestTimes(queue[1..], r));
            RequestTimes(queue, r) == if e.kind.Request? && e.region == r then [e.timeMs] + rest else rest
  {
  }

  lemma StepLogged(p: Setup, w: World, r: Region)
    requires w.queue != [] && Logged(p, w, r)
    ensures Logged(p, Step(p.limit, p.lag, w), r)
  {
    hide Push, RequestTimes, DecisionTimes, Step, Requests;
    var e := w.queue[0];
    RequestTimesHead(w.queue, r);
    if e.kind.Request? {
      var next := AnswerFields(p, w);
      DecisionTimesSnoc(w.decisions, Asked(p, w), r);
      NoticeKeepsRequestTimes(w.queue[1..], Notice(e.timeMs + p.lag, e.region), r);
      MovedOver(DecisionTimes(w.decisions, r), e.timeMs, RequestTimes(w.queue[1..], r));
    } else {
      var next := DeliverFields(p, w);
    }
  }

  lemma MovedOver(s: seq<int>, x: int, t: seq<int>)
    ensures s + [x] + t == s + ([x] + t)
  {
  }

  lemma StepBehind(p: Setup, w: World)
    requires w.queue != [] && Pending(w.queue) && Behind(w.queue, w.decisions)
    ensures var next := Step(p.limit, p.lag, w); Behind(next.queue, next.decisions)
  {
    hide Push, Requests, InOrder, Sorted, Step, Before;
    PoppedPending(w.queue);
    if w.queue[0].kind.Request? {
      var next := AnswerFields(p, w);
      PushMembers(w.queue[1..], Notice(w.queue[0].timeMs + p.lag, w.queue[0].region));
      AskedBehind(p, w);
      forall e | e in w.queue[1..] && e.kind.Request? ensures Before(RequestOf(Asked(p, w)), e) {
        HeadFirst(w.queue, e);
      }
    } else {
      var next := DeliverFields(p, w);
    }
  }

  lemma AskedBehind(p: Setup, w: World)
    requires w.queue != [] && w.queue[0].kind.Request? && Pending(w.queue) && Behind(w.queue, w.decisions)
    ensures w.queue[0] == RequestOf(Asked(p, w))
    ensures InOrder(w.decisions + [Asked(p, w)])
  {
    hide InOrder, Sorted;
    var d := Asked(p, w);
    assert w.queue[0] in w.queue;
    if w.decisions != [] {
      var last := w.decisions[|w.decisions| - 1];
      assert Before(RequestOf(last), w.queue[0]);
    }
    InOrderSnoc(w.decisions, d);
  }

  lemma {:induction false} RunLogged(p: Setup, w: World)
    requires p.Valid() && Inv(p, w) && Logged(p, w, India) && Logged(p, w, US) && Behind(w.queue, w.decisions)
    ensures var end := Run(p.limit, p.lag, w);
            Logged(p, end, India) && Logged(p, end, US) && InOrder(end.decisions)
    decreases Requests(w.queue), |w.queue|
  {
    hide Inv, Logged, Behind, Step;
    if w.queue == [] {
      EndsInOrder(w);
    } else {
      StepKeeps(p, w);
      StepLogged(p, w, India);
      StepLogged(p, w, US);
      HeldPending(p, w);
      StepBehind(p, w);
      StepProgress(p, w);
      RunLogged(p, Step(p.limit, p.lag, w));
    }
  }

  lemma EndsInOrder(w: World)
    requires Behind(w.queue, w.decisions)
    ensures InOrder(w.decisions)
  {
  }

  lemma HeldPending(p: Setup, w: World)
    requires Inv(p, w)
    ensures Pending(w.queue)
  {
  }

  lemma StepProgress(p: Setup, w: World)
    requires w.queue != []
    ensures var next := Step(p.limit, p.lag, w);
            Requests(next.queue) < Requests(w.queue)
            || (Requests(next.queue) == Requests(w.queue) && |next.queue| < |w.queue|)
  {
  }

  lemma StartLogged(p: Setup)
    ensures Logged(p, Start(p.queue), India) && Logged(p, Start(p.queue), US)
    ensures Behind(Start(p.queue).queue, Start(p.queue).decisions)
  {
  }

  /** What a region's part of the summary and the log tell of its requests. */
  ghost predicate Reported(
    decisions: seq<Decision>, r: Region, requests: int, spacing: int, allowed: int, blocked: int)
  {
    && allowed == |AcceptTimes(decisions, r)|
    && blocked == Refused(decisions, r)
    && allowed + blocked == Max(0, requests)
    && DecisionTimes(decisions, r) == Arrivals(Max(0, requests), spacing)
  }

  lemma FinalLogged(p: Setup)
    requires p.Valid()
    ensures var end := Run(p.limit, p.lag, Start(p.queue));
            && Inv(p, end) && Shaped(end) && InOrder(end.decisions)
            && Logged(p, end, India) && Logged(p, end, US)
  {
    StartInv(p);
    StartShaped(p.queue);
    StartLogged(p);
    RunKeeps(p, Start(p.queue));
    RunShaped(p, Start(p.queue));
    RunLogged(p, Start(p.queue));
  }

  lemma RegionReported(p: Setup, end: World, r: Region, requests: int, spacing: int)
    requires end.queue == [] && RegionInv(p, end, r) && Shaped(end) && Logged(p, end, r)
    requires p.Schedule(r) == Arrivals(Sent(requests), spacing)
    ensures Reported(end.decisions, r, requests, spacing, end.At(r).allowedRequests, end.At(r).blockedRequests)
  {
    AcceptedOrRefused(end.decisions, r);
    assert DecisionTimes(end.decisions, r) + [] == DecisionTimes(end.decisions, r);
  }

  /** The summary: each region's counters count the decisions of that region in the log, which
    * has every request at the time it came; nothing is let in past the limit without being counted
    * as stale; and the parameters are reported as they were given. */
  lemma SummaryReportsTheLog(limit: int, lag: int, indiaRequests: int, usRequests: int, spacing: int)
    requires limit > 0 && lag >= 0
    ensures var outcome := Simulation(limit, lag, indiaRequests, usRequests, spacing);
            && outcome.Success?
            && var (s, decisions) := (outcome.summary, outcome.decisions);
            && Reported(decisions, India, indiaRequests, spacing, s.indiaAllowed, s.indiaBlocked)
            && Reported(decisions, US, usRequests, spacing, s.usAllowed, s.usBlocked)
            && s.totalAllowed == |AcceptTimes(decisions, India)| + |AcceptTimes(decisions, US)|
            && s.oversubscription == Max(0, s.totalAllowed - limit)
            && s.staleAllowedDecisions == s.oversubscription
            && s.maxReplicationQueueDepth == Max(0, indiaRequests) + Max(0, usRequests) == |decisions|
            && s.configuredLimit == limit && s.replicationLagMs == lag && s.requestSpacingMs == spacing
            && s.indiaRequestsSent == indiaRequests && s.usRequestsSent == usRequests
  {
    hide Inv, Shaped, Logged, RegionInv, Run;
    var p := SetupOf(limit, lag, indiaRequests, usRequests, spacing);
    var end := Final(limit, lag, indiaRequests, usRequests, spacing);
    InitialSetup(limit, lag, indiaRequests, usRequests, spacing);
    FinalLogged(p);
    InvRegions(p, end);
    RegionReported(p, end, India, indiaRequests, spacing);
    RegionReported(p, end, US, usRequests, spacing);
    EachInOneRegion(end.decisions);
    Conservation(limit, lag, indiaRequests, usRequests, spacing);
  }

  /** The simulation is refused exactly for a limit that is not positive, or else a negative lag. */
  lemma RefusedExactly(limit: int, lag: int, indiaRequests: int, usRequests: int, spacing: int)
    ensures var outcome := Simulation(limit, lag, indiaRequests, usRequests, spacing);
            && (outcome == Failure(LimitNotPositive) <==> limit <= 0)
            && (outcome == Failure(NegativeLag) <==> limit > 0 && lag < 0)
            && (outcome.Success? <==> limit > 0 && lag >= 0)
  {
  }

  lemma InvRegions(p: Setup, w: World)
    requires Inv(p, w)
    ensures RegionInv(p, w, India) && RegionInv(p, w, US)
  {
  }

  /** The log: in order of arrival, each decision informed by those before it, no request turned away
    * before the quota is used up, and none let in after one was turned away in its region. */
  lemma LogReportsTheRun(
    limit: int, lag: int, indiaRequests: int, usRequests: int, spacing: int, i: nat, j: nat)
    requires limit > 0 && lag >= 0
    ensures var decisions := Simulation(limit, lag, indiaRequests, usRequests, spacing).decisions;
            && InOrder(decisions)
            && (j < |decisions| ==> Informed(limit, lag, decisions[..j], decisions[j]))
            && (j < |decisions| && !decisions[j].accepted ==> decisions[j].actualGlobal >= limit)
            && (i < j < |decisions| && decisions[i].region == decisions[j].region && decisions[j].accepted ==>
                  decisions[i].accepted)
  {
    hide Inv, Shaped, Logged, Run, Informed, Final, Orderly;
    var p := SetupOf(limit, lag, indiaRequests, usRequests, spacing);
    InitialSetup(limit, lag, indiaRequests, usRequests, spacing);
    FinalLogged(p);
    FinalIs(limit, lag, indiaRequests, usRequests, spacing);
    var decisions := Final(limit, lag, indiaRequests, usRequests, spacing).decisions;
    if j < |decisions| {
      DecisionsInformed(limit, lag, indiaRequests, usRequests, spacing, j);
      if !decisions[j].accepted {
        RefusedAtQuota(limit, lag, indiaRequests, usRequests, spacing, j);
      }
      if i < j && decisions[i].region == decisions[j].region {
        AcceptsThenRefusals(limit, lag, indiaRequests, usRequests, spacing, i, j);
      }
    }
  }

  lemma FinalIs(limit: int, lag: int, indiaRequests: int, usRequests: int, spacing: int)
    ensures var p := SetupOf(limit, lag, indiaRequests, usRequests, spacing);
            Final(limit, lag, indiaRequests, usRequests, spacing) == Run(p.limit, p.lag, Start(p.queue))
  {
  }
}
