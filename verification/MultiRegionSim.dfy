/** The simulator as the source runs it: two region objects updated in place by one loop. */
module MultiRegionSim {
  import opened Arith
  import opened MultiRegion

  class RegionSnapshot {
    const name: Region
    var localAccepted: int
    var remoteObserved: int
    var allowedRequests: int
    var blockedRequests: int

    constructor (name: Region)
      ensures this.name == name && View() == NewSnapshot
    {
      this.name := name;
      localAccepted, remoteObserved, allowedRequests, blockedRequests := 0, 0, 0, 0;
    }

    function View(): Snapshot
      reads this
    {
      Snapshot(localAccepted, remoteObserved, allowedRequests, blockedRequests)
    }
  }

  method PushAll(queue: seq<Event>, requests: int, spacing: int, region: Region) returns (q: seq<Event>)
    ensures q == PushRequests(queue, Max(0, requests), spacing, region)
  {
    q := queue;
    var index := 0;
    while index < requests
      invariant 0 <= index <= Max(0, requests)
      invariant q == PushRequests(queue, index, spacing, region)
    {
      q := Push(q, Event(index * spacing, 1, Request, region));
      index := index + 1;
    }
  }

  /** Loop turn for a replication event. */
  method ApplyReplication(event: Event, india: RegionSnapshot, us: RegionSnapshot, ghost w: World)
    requires india != us && w.india == india.View() && w.us == us.View()
    modifies india, us
    ensures Deliver(w, event) == w.(india := india.View(), us := us.View())
  {
    var source, target := india, us;
    if event.region == US {
      source, target := us, india;
    }
    target.remoteObserved := Max(target.remoteObserved, source.localAccepted);
  }

  /** Loop turn for a request event. */
  method ApplyRequest(
    configuredLimit: int, replicationLagMs: int, event: Event, queue: seq<Event>,
    india: RegionSnapshot, us: RegionSnapshot, decisions: seq<Decision>, staleAllowed: int, ghost depth: int)
    returns (queue': seq<Event>, decisions': seq<Decision>, staleAllowed': int)
    requires india != us
    modifies india, us
    ensures World(queue', india.View(), us.View(), decisions', staleAllowed', depth) ==
            Answer(configuredLimit, replicationLagMs,
                   World(queue, old(india.View()), old(us.View()), decisions, staleAllowed, depth), event)
  {
    var region := india;
    if event.region == US {
      region := us;
    }
    var actualGlobal := india.localAccepted + us.localAccepted;
    var knownGlobal := region.localAccepted + region.remoteObserved;
    var accepted := knownGlobal < configuredLimit;
    queue', staleAllowed' := queue, staleAllowed;

    if accepted {
      if actualGlobal >= configuredLimit {
        staleAllowed' := staleAllowed + 1;
      }
      region.localAccepted := region.localAccepted + 1;
      region.allowedRequests := region.allowedRequests + 1;
      queue' := Push(queue, Event(event.timeMs + replicationLagMs, 0, Replication, event.region));
    } else {
      region.blockedRequests := region.blockedRequests + 1;
    }

    decisions' := decisions + [Decision(event.region, event.kind, event.timeMs, accepted,
                                        knownGlobal, actualGlobal, region.remoteObserved)];
  }

  method SimulateMultiRegionLimit(
    configuredLimit: int, replicationLagMs: int, indiaRequests: int, usRequests: int, requestSpacingMs: int)
    returns (outcome: Outcome)
    ensures outcome == Simulation(configuredLimit, replicationLagMs, indiaRequests, usRequests, requestSpacingMs)
  {
    if configuredLimit <= 0 {
      return Failure(LimitNotPositive);
    }
    if replicationLagMs < 0 {
      return Failure(NegativeLag);
    }

    var india := new RegionSnapshot(India);
    var us := new RegionSnapshot(US);

    var queue := PushAll([], indiaRequests, requestSpacingMs, India);
    queue := PushAll(queue, usRequests, requestSpacingMs, US);

    var decisions: seq<Decision> := [];
    var staleAllowed := 0;
    var maxQueueDepth := |queue|;
    ghost var w := Start(queue);

    while queue != []
      invariant india != us
      invariant w == World(queue, india.View(), us.View(), decisions, staleAllowed, maxQueueDepth)
      invariant Run(configuredLimit, replicationLagMs, w) ==
                Final(configuredLimit, replicationLagMs, indiaRequests, usRequests, requestSpacingMs)
      decreases Requests(queue), |queue|
    {
      ghost var before := w;
      w := Step(configuredLimit, replicationLagMs, w);
      maxQueueDepth := Max(maxQueueDepth, |queue|);
      var event := queue[0];
      queue := queue[1..];
      if event.kind == Replication {
        ApplyReplication(event, india, us, before.(queue := queue, maxQueueDepth := maxQueueDepth));
      } else {
        queue, decisions, staleAllowed := ApplyRequest(
          configuredLimit, replicationLagMs, event, queue, india, us, decisions, staleAllowed, maxQueueDepth);
      }
    }

    var totalAllowed := india.allowedRequests + us.allowedRequests;
    var summary := Summary(
      configuredLimit, replicationLagMs, requestSpacingMs, indiaRequests, usRequests,
      india.allowedRequests, india.blockedRequests, us.allowedRequests, us.blockedRequests,
      totalAllowed, Max(0, totalAllowed - configuredLimit), staleAllowed, maxQueueDepth);
    return Success(summary, decisions);
  }
}
