/** The two-region replication simulator of app/services/multi_region.py as a state machine over
  * its event queue. Each region decides on what it knows; an accepted request is told to the
  * other region one replication lag later. */
module MultiRegion {
  import opened Arith

  datatype Region = India | US {
    function Other(): Region { if India? then US else India }
    function Rank(): int { if India? then 0 else 1 }
  }

  datatype Kind = Replication | Request {
    function Rank(): int { if Replication? then 0 else 1 }
  }

  datatype Event = Event(timeMs: int, priority: int, kind: Kind, region: Region)

  /** Field by field, as a dataclass with order=True compares; the names of kinds and regions
    * compare alphabetically. */
  predicate Before(a: Event, b: Event) {
    a.timeMs < b.timeMs || (a.timeMs == b.timeMs && (
      a.priority < b.priority || (a.priority == b.priority && (
        a.kind.Rank() < b.kind.Rank() || (a.kind == b.kind &&
        a.region.Rank() <= b.region.Rank())))))
  }

  /** The heap of pending events, as the sorted sequence in which it gives them up. */
  function Push(queue: seq<Event>, e: Event): (q: seq<Event>)
    ensures |q| == |queue| + 1
  {
    if queue == [] || !Before(queue[0], e) then [e] + queue
    else [queue[0]] + Push(queue[1..], e)
  }

  predicate Sorted(queue: seq<Event>) {
    |queue| <= 1 || (Before(queue[0], queue[1]) && Sorted(queue[1..]))
  }

  function Requests(queue: seq<Event>): nat {
    if queue == [] then 0 else (if queue[0].kind.Request? then 1 else 0) + Requests(queue[1..])
  }

  lemma {:induction false} RequestsPush(queue: seq<Event>, e: Event)
    ensures Requests(Push(queue, e)) == Requests(queue) + (if e.kind.Request? then 1 else 0)
  {
    if !(queue == [] || !Before(queue[0], e)) {
      RequestsPush(queue[1..], e);
    }
  }

  datatype Snapshot = Snapshot(
    localAccepted: int, remoteObserved: int, allowedRequests: int, blockedRequests: int)

  datatype Decision = Decision(
    region: Region, kind: Kind, timeMs: int, accepted: bool,
    knownGlobal: int, actualGlobal: int, observedRemote: int)

  datatype World = World(
    queue: seq<Event>, india: Snapshot, us: Snapshot,
    decisions: seq<Decision>, staleAllowed: int, maxQueueDepth: int)
  {
    function At(r: Region): Snapshot { if r.India? then india else us }

    function With(r: Region, s: Snapshot): World { if r.India? then this.(india := s) else this.(us := s) }
  }

  /** A replication event brings the other region up to what its source has accepted by now. */
  function Deliver(w: World, e: Event): World {
    var target := w.At(e.region.Other());
    w.With(e.region.Other(),
           target.(remoteObserved := Max(target.remoteObserved, w.At(e.region).localAccepted)))
  }

  function Answer(limit: int, lag: int, w: World, e: Event): World {
    var region := w.At(e.region);
    var actual := w.india.localAccepted + w.us.localAccepted;
    var known := region.localAccepted + region.remoteObserved;
    var accepted := known < limit;
    var decision := Decision(e.region, e.kind, e.timeMs, accepted, known, actual, region.remoteObserved);
    var decided := w.(decisions := w.decisions + [decision]);
    if accepted then
      decided.(staleAllowed := w.staleAllowed + (if actual >= limit then 1 else 0),
               queue := Push(w.queue, Event(e.timeMs + lag, 0, Replication, e.region)))
      .With(e.region, region.(localAccepted := region.localAccepted + 1,
                              allowedRequests := region.allowedRequests + 1))
    else
      decided.With(e.region, region.(blockedRequests := region.blockedRequests + 1))
  }

  /** One turn of the event loop. */
  function Step(limit: int, lag: int, w: World): (next: World)
    requires w.queue != []
    ensures Requests(next.queue) < Requests(w.queue)
            || (Requests(next.queue) == Requests(w.queue) && |next.queue| < |w.queue|)
    ensures |next.queue| <= |w.queue|
  {
    var popped := w.(queue := w.queue[1..], maxQueueDepth := Max(w.maxQueueDepth, |w.queue|));
    if w.queue[0].kind.Replication? then Deliver(popped, w.queue[0])
    else
      RequestsPush(popped.queue, Event(w.queue[0].timeMs + lag, 0, Replication, w.queue[0].region));
      Answer(limit, lag, popped, w.queue[0])
  }

  /** The whole event loop; it comes to an end because every turn uses up a request, or else
    * shortens the queue. */
  function Run(limit: int, lag: int, w: World): (end: World)
    ensures end.queue == []
    decreases Requests(w.queue), |w.queue|
  {
    if w.queue == [] then w else Run(limit, lag, Step(limit, lag, w))
  }

  /** The queue that requests at index * spacing make, region by region. */
  function PushRequests(queue: seq<Event>, count: nat, spacing: int, region: Region): seq<Event> {
    if count == 0 then queue
    else Push(PushRequests(queue, count - 1, spacing, region), Event((count - 1) * spacing, 1, Request, region))
  }

  function InitialQueue(indiaRequests: int, usRequests: int, spacing: int): seq<Event> {
    PushRequests(PushRequests([], Max(0, indiaRequests), spacing, India), Max(0, usRequests), spacing, US)
  }

  const NewSnapshot := Snapshot(0, 0, 0, 0)

  function Start(queue: seq<Event>): World {
    World(queue, NewSnapshot, NewSnapshot, [], 0, |queue|)
  }

  datatype Summary = Summary(
    configuredLimit: int, replicationLagMs: int, requestSpacingMs: int,
    indiaRequestsSent: int, usRequestsSent: int,
    indiaAllowed: int, indiaBlocked: int, usAllowed: int, usBlocked: int,
    totalAllowed: int, oversubscription: int, staleAllowedDecisions: int, maxReplicationQueueDepth: int)

  datatype Error = LimitNotPositive | NegativeLag

  datatype Outcome = Success(summary: Summary, decisions: seq<Decision>) | Failure(error: Error)

  function Report(limit: int, lag: int, indiaRequests: int, usRequests: int, spacing: int, end: World): Summary {
    var total := end.india.allowedRequests + end.us.allowedRequests;
    Summary(limit, lag, spacing, indiaRequests, usRequests,
            end.india.allowedRequests, end.india.blockedRequests,
            end.us.allowedRequests, end.us.blockedRequests,
            total, Max(0, total - limit), end.staleAllowed, end.maxQueueDepth)
  }

  /** The final state of the simulation. */
  function Final(limit: int, lag: int, indiaRequests: int, usRequests: int, spacing: int): World {
    Run(limit, lag, Start(InitialQueue(indiaRequests, usRequests, spacing)))
  }

  function Simulation(limit: int, lag: int, indiaRequests: int, usRequests: int, spacing: int): Outcome {
    if limit <= 0 then Failure(LimitNotPositive)
    else if lag < 0 then Failure(NegativeLag)
    else
      var end := Final(limit, lag, indiaRequests, usRequests, spacing);
      Success(Report(limit, lag, indiaRequests, usRequests, spacing, end), end.decisions)
  }
}
