/** How much the simulation oversubscribes, exactly, for every limit, lag, positive spacing and
  * number of requests. A notice carries the sender's count at delivery, not at sending; so only
  * the first lag is blind, and after it a region misses at most the other's request of the same
  * instant. */
module MultiRegionExact {
  import opened Arith
  import opened MultiRegion
  import opened MultiRegionRuns
  import opened MultiRegionBounds

  // ----- the run, tick by tick -----

  datatype Tally = Tally(india: int, us: int) {
    function At(r: Region): int { if r.India? then india else us }
  }

  datatype Grid = Grid(p: Setup, spacing: int, blind: int) {
    function Count(r: Region): nat { |p.Schedule(r)| }

    /** Requests of both regions come at the multiples of `spacing`; `blind` is the number of
      * those within the first lag. */
    ghost predicate Valid() {
      && p.Valid() && spacing > 0 && p.lag > 0 && blind == CeilDiv(p.lag, spacing)
      && p.Schedule(India) == Arrivals(Count(India), spacing)
      && p.Schedule(US) == Arrivals(Count(US), spacing)
    }
  }

  /** What region r knows of the other's tally at tick j. */
  function Seen(g: Grid, t: Tally, j: int, r: Region): int {
    if j < g.blind then 0 else t.At(r.Other())
  }

  function Admit(g: Grid, t: Tally, j: int, r: Region): int {
    if j < g.Count(r) && t.At(r) + Seen(g, t, j, r) < g.p.limit then 1 else 0
  }

  /** The numbers accepted from the first j requests of each region. */
  function Ticks(g: Grid, j: nat): Tally {
    if j == 0 then Tally(0, 0)
    else
      var t := Ticks(g, j - 1);
      Tally(t.india + Admit(g, t, j - 1, India), t.us + Admit(g, t, j - 1, US))
  }

  lemma {:induction false} TicksInRange(g: Grid, j: nat, r: Region)
    requires g.p.limit > 0
    ensures 0 <= Ticks(g, j).At(r) <= Min(g.p.limit, Min(j, g.Count(r)))
    decreases j
  {
    if j > 0 {
      TicksInRange(g, j - 1, r);
      TicksInRange(g, j - 1, r.Other());
    }
  }

  /** Once a request of region r has been refused, all later ones are. */
  lemma {:induction false} RefusedForGood(g: Grid, j: nat, r: Region)
    requires g.p.limit > 0
    ensures Ticks(g, j).At(r) < j ==> Admit(g, Ticks(g, j), j, r) == 0
    decreases j
  {
    if j > 0 {
      RefusedForGood(g, j - 1, r);
      TicksInRange(g, j - 1, r);
      TicksInRange(g, j - 1, r.Other());
      TicksInRange(g, j, r.Other());
    }
  }

  lemma {:induction false} TicksSettle(g: Grid, j: nat, r: Region)
    requires j >= g.Count(r)
    ensures Ticks(g, j).At(r) == Ticks(g, g.Count(r)).At(r)
    decreases j
  {
    if j > g.Count(r) {
      TicksSettle(g, j - 1, r);
    }
  }

  lemma TicksUpTo(g: Grid, j: nat, r: Region)
    ensures Ticks(g, Min(g.Count(r), j)).At(r) == Ticks(g, j).At(r)
  {
    if j >= g.Count(r) {
      TicksSettle(g, j, r);
    }
  }

  // ----- the run of the simulator follows the ticks -----

  function Done(w: World, r: Region): int { w.At(r).localAccepted + w.At(r).blockedRequests }

  function TickNotice(g: Grid, m: int, source: Region): Event {
    Notice(m * g.spacing + g.p.lag, source)
  }

  /** Notices come after one lag at the earliest, and after every accept so far. */
  ghost predicate NoticesLate(g: Grid, w: World) {
    forall e :: e in w.queue && e.kind.Replication? ==>
      && g.p.lag <= e.timeMs
      && (w.india.localAccepted > 0 ==> (w.india.localAccepted - 1) * g.spacing < e.timeMs)
      && (w.us.localAccepted > 0 ==> (w.us.localAccepted - 1) * g.spacing < e.timeMs)
  }

  /** A region has observed nothing before the first lag is over, and nothing of the current instant. */
  ghost predicate NotTooMuch(g: Grid, queue: seq<Event>, observed: int) {
    queue != [] && observed > 0 ==>
      g.p.lag <= queue[0].timeMs && (observed - 1) * g.spacing < queue[0].timeMs
  }

  /** The notice of accept m, once delivered, has told of every accept before its own instant. */
  ghost predicate NotTooLittle(g: Grid, queue: seq<Event>, source: Region, accepted: int, observed: int) {
    forall m :: 0 <= m < accepted && TickNotice(g, m, source) !in queue ==>
      && (queue != [] ==> TickNotice(g, m, source).timeMs <= queue[0].timeMs)
      && Min(accepted, m + g.blind) <= observed
  }

  /** India's request of a tick is answered just before the one of the US. */
  ghost predicate InStep(g: Grid, w: World) {
    && Done(w, India) >= Min(g.Count(India), Done(w, US))
    && Done(w, US) >= Min(g.Count(US), Done(w, India) - 1)
  }

  ghost predicate OnTicks(g: Grid, w: World, r: Region) {
    Done(w, r) >= 0 && w.At(r).localAccepted == Ticks(g, Done(w, r)).At(r)
  }

  ghost predicate Observes(g: Grid, w: World, r: Region) {
    && NotTooMuch(g, w.queue, w.At(r).remoteObserved)
    && NotTooLittle(g, w.queue, r.Other(), w.At(r.Other()).localAccepted, w.At(r).remoteObserved)
  }

  ghost predicate Follows(g: Grid, w: World) {
    && NoticesLate(g, w)
    && Observes(g, w, India) && Observes(g, w, US)
    && InStep(g, w)
    && OnTicks(g, w, India) && OnTicks(g, w, US)
  }

  // ----- requests in the queue -----

  lemma {:induction false} RequestListed(queue: seq<Event>, r: Region)
    requires Pending(queue) && RequestTimes(queue, r) != []
    ensures Event(RequestTimes(queue, r)[0], 1, Request, r) in queue
  {
    if !(queue[0].kind.Request? && queue[0].region == r) {
      PoppedPending(queue);
      RequestListed(queue[1..], r);
    } else {
      assert queue[0] == Event(RequestTimes(queue, r)[0], 1, Request, r);
    }
  }

  /** The next request of region r, if there is one, is its tick number Done. */
  lemma NextRequest(g: Grid, w: World, r: Region)
    requires g.Valid() && Pending(w.queue) && RegionInv(g.p, w, r) && Done(w, r) < g.Count(r)
    ensures RequestTimes(w.queue, r) != [] && RequestTimes(w.queue, r)[0] == Done(w, r) * g.spacing
    ensures w.queue != [] && Before(w.queue[0], Event(Done(w, r) * g.spacing, 1, Request, r))
  {
    var pending := RequestTimes(w.queue, r);
    assert pending == g.p.Schedule(r)[Done(w, r)..];
    assert pending[0] == g.p.Schedule(r)[Done(w, r)];
    RequestListed(w.queue, r);
    HeadFirst(w.queue, Event(pending[0], 1, Request, r));
  }


  lemma HeadTick(g: Grid, w: World)
    requires g.Valid() && w.queue != [] && w.queue[0].kind.Request? && RegionInv(g.p, w, w.queue[0].region)
    ensures var r := w.queue[0].region;
            0 <= Done(w, r) < g.Count(r) && w.queue[0].timeMs == Done(w, r) * g.spacing
  {
    var r := w.queue[0].region;
    var pending := RequestTimes(w.queue, r);
    assert pending[0] == w.queue[0].timeMs;
    assert pending == g.p.Schedule(r)[Done(w, r)..];
  }

  lemma TickBefore(a: int, b: int, spacing: int)
    requires spacing > 0
    ensures a <= b <==> a * spacing <= b * spacing
  {
    if a <= b {
      MulMono(a, b, spacing);
    } else {
      MulMono(b + 1, a, spacing);
    }
  }

  /** Where the other region stands when a request is answered. */
  lemma BothDone(g: Grid, w: World)
    requires g.Valid() && Inv(g.p, w) && InStep(g, w) && w.queue != [] && w.queue[0].kind.Request?
    ensures var (r, o) := (w.queue[0].region, w.queue[0].region.Other());
            Done(w, o) == Min(g.Count(o), Done(w, r) + (if r.US? then 1 else 0))
  {
    var (r, o) := (w.queue[0].region, w.queue[0].region.Other());
    assert RegionInv(g.p, w, r) && RegionInv(g.p, w, o);
    HeadTick(g, w);
    if Done(w, o) < g.Count(o) {
      NextRequest(g, w, o);
      TickBefore(Done(w, r), Done(w, o), g.spacing);
      TickBefore(Done(w, o), Done(w, r), g.spacing);
    }
  }

  lemma AcceptAt(g: Grid, w: World, r: Region, m: nat)
    requires g.Valid() && RegionInv(g.p, w, r) && m < w.At(r).localAccepted
    ensures m < |AcceptTimes(w.decisions, r)| && AcceptTimes(w.decisions, r)[m] == m * g.spacing
  {
    assert AcceptTimes(w.decisions, r)[m] == g.p.Schedule(r)[m];
  }

  lemma ObservedAtMost(g: Grid, queue: seq<Event>, observed: int, j: nat)
    requires g.Valid() && queue != [] && queue[0].timeMs == j * g.spacing
    requires NotTooMuch(g, queue, observed) && observed >= 0
    ensures if j < g.blind then observed == 0 else observed <= j
  {
    if j < g.blind {
      MulMono(j, g.blind - 1, g.spacing);
    } else if observed > 0 {
      TickBefore(j, observed - 1, g.spacing);
    }
  }

  lemma ObservedAtLeast(g: Grid, queue: seq<Event>, source: Region, accepted: nat, observed: int, j: nat)
    requires g.Valid() && Pending(queue) && queue != [] && queue[0].kind.Request? && queue[0].timeMs == j * g.spacing
    requires NotTooLittle(g, queue, source, accepted, observed) && observed >= 0 && j >= g.blind
    ensures Min(accepted, j) <= observed
  {
    if accepted > 0 {
      CeilDivLeast(g.p.lag, g.spacing, 0);
      ToldByNow(g, queue, source, accepted, observed, j, Min(j - g.blind, accepted - 1));
    }
  }

  /** What a region has observed when it answers its request number j: nothing during the first
    * lag; afterwards every accept of an earlier tick, and no other. */
  lemma ObservedAt(g: Grid, w: World)
    requires g.Valid() && Inv(g.p, w) && w.queue != [] && w.queue[0].kind.Request?
    requires Observes(g, w, w.queue[0].region)
    ensures var r := w.queue[0].region;
            w.At(r).remoteObserved ==
            if Done(w, r) < g.blind then 0 else Min(w.At(r.Other()).localAccepted, Done(w, r))
  {
    var (r, o) := (w.queue[0].region, w.queue[0].region.Other());
    assert RegionInv(g.p, w, r) && RegionInv(g.p, w, o);
    HeadTick(g, w);
    ObservedAtMost(g, w.queue, w.At(r).remoteObserved, Done(w, r));
    if Done(w, r) >= g.blind {
      ObservedAtLeast(g, w.queue, o, w.At(o).localAccepted, w.At(r).remoteObserved, Done(w, r));
    }
  }

  lemma ToldByNow(g: Grid, queue: seq<Event>, source: Region, accepted: int, observed: int, j: nat, m: nat)
    requires g.Valid() && Pending(queue) && queue != [] && queue[0].kind.Request? && queue[0].timeMs == j * g.spacing
    requires NotTooLittle(g, queue, source, accepted, observed) && m < accepted && m + g.blind <= j
    ensures Min(accepted, m + g.blind) <= observed
  {
    MulMono(m + g.blind, j, g.spacing);
    assert (m + g.blind) * g.spacing == m * g.spacing + g.blind * g.spacing;
    assert TickNotice(g, m, source).timeMs <= queue[0].timeMs;
    if TickNotice(g, m, source) in queue {
      HeadFirst(queue, TickNotice(g, m, source));
    }
  }

  /** The other region's accepts of earlier ticks, when it may have answered the current tick already. */
  lemma EarlierTicks(g: Grid, j: nat, o: Region, ahead: nat)
    requires g.p.limit > 0 && ahead <= 1
    ensures Min(Ticks(g, Min(g.Count(o), j + ahead)).At(o), j) == Ticks(g, j).At(o)
  {
    TicksInRange(g, j, o);
    TicksUpTo(g, j + ahead, o);
    RefusedForGood(g, j, o);
  }

  /** A region decides on exactly the tally of the tick that it answers. */
  lemma DecidesOnTicks(g: Grid, w: World)
    requires g.Valid() && Inv(g.p, w) && Follows(g, w) && w.queue != [] && w.queue[0].kind.Request?
    ensures var r := w.queue[0].region;
            var t := Ticks(g, Done(w, r));
            && w.At(r).localAccepted == t.At(r)
            && w.At(r).remoteObserved == Seen(g, t, Done(w, r), r)
  {
    HeadTick(g, w);
    ObservedAt(g, w);
    BothDone(g, w);
    StandsOnTicks(g, w);
  }

  lemma StandsOnTicks(g: Grid, w: World)
    requires g.p.limit > 0 && w.queue != [] && OnTicks(g, w, India) && OnTicks(g, w, US)
    requires var (r, o) := (w.queue[0].region, w.queue[0].region.Other());
             && Done(w, o) == Min(g.Count(o), Done(w, r) + (if r.US? then 1 else 0))
             && w.At(r).remoteObserved == if Done(w, r) < g.blind then 0 else Min(w.At(o).localAccepted, Done(w, r))
    ensures var r := w.queue[0].region;
            var t := Ticks(g, Done(w, r));
            && w.At(r).localAccepted == t.At(r)
            && w.At(r).remoteObserved == Seen(g, t, Done(w, r), r)
  {
    var (r, o) := (w.queue[0].region, w.queue[0].region.Other());
    assert OnTicks(g, w, r) && OnTicks(g, w, o);
    EarlierTicks(g, Done(w, r), o, if r.US? then 1 else 0);
  }

  // ----- one turn of the loop -----

  lemma HeadsAdvance(p: Setup, w: World)
    requires p.Valid() && w.queue != [] && Pending(w.queue)
    ensures var next := Step(p.limit, p.lag, w);
            next.queue != [] ==> w.queue[0].timeMs <= next.queue[0].timeMs
    ensures var next := Step(p.limit, p.lag, w);
            forall e :: e in w.queue && e.kind.Replication? && e != w.queue[0] ==> e in next.queue
  {
    hide Step, Push;
    PoppedPending(w.queue);
    if w.queue[0].kind.Replication? {
      var next := DeliverFields(p, w);
    } else {
      var next := AnswerFields(p, w);
      var notice := Notice(w.queue[0].timeMs + p.lag, w.queue[0].region);
      PushMembers(w.queue[1..], notice);
      PushSorted(w.queue[1..], notice);
    }
  }

  lemma DeliverFollows(g: Grid, w: World)
    requires g.Valid() && Inv(g.p, w) && Follows(g, w) && w.queue != [] && w.queue[0].kind.Replication?
    ensures Follows(g, Step(g.p.limit, g.p.lag, w))
  {
    DeliverObservers(g, w);
    DeliverOther(g, w);
  }

  lemma DeliverObservers(g: Grid, w: World)
    requires g.Valid() && Pending(w.queue) && w.queue != [] && w.queue[0].kind.Replication?
    requires NoticesLate(g, w) && Observes(g, w, India) && Observes(g, w, US)
    ensures Observes(g, Step(g.p.limit, g.p.lag, w), India) && Observes(g, Step(g.p.limit, g.p.lag, w), US)
  {
    var next := DeliverFields(g.p, w);
    HeadsAdvance(g.p, w);
    DeliveredObserver(g, w, next, w.queue[0].region.Other());
    UntouchedObserver(g, w, next, w.queue[0].region);
  }

  lemma DeliverOther(g: Grid, w: World)
    requires g.Valid() && Pending(w.queue) && w.queue != [] && w.queue[0].kind.Replication?
    requires NoticesLate(g, w) && InStep(g, w) && OnTicks(g, w, India) && OnTicks(g, w, US)
    ensures var next := Step(g.p.limit, g.p.lag, w);
            NoticesLate(g, next) && InStep(g, next) && OnTicks(g, next, India) && OnTicks(g, next, US)
  {
    var next := DeliverFields(g.p, w);
    PoppedPending(w.queue);
    assert Done(next, India) == Done(w, India) && Done(next, US) == Done(w, US);
  }

  lemma DeliveredObserver(g: Grid, w: World, next: World, r: Region)
    requires g.Valid() && w.queue != [] && w.queue[0].kind.Replication? && w.queue[0].region == r.Other()
    requires NoticesLate(g, w) && Observes(g, w, r)
    requires next.queue == w.queue[1..] && next.At(r.Other()) == w.At(r.Other())
    requires next.At(r).remoteObserved == Max(w.At(r).remoteObserved, w.At(r.Other()).localAccepted)
    requires next.queue != [] ==> w.queue[0].timeMs <= next.queue[0].timeMs
    requires forall e :: e in w.queue && e.kind.Replication? && e != w.queue[0] ==> e in next.queue
    ensures Observes(g, next, r)
  {
    assert w.queue[0] in w.queue;
  }

  lemma UntouchedObserver(g: Grid, w: World, next: World, r: Region)
    requires g.Valid() && w.queue != [] && Observes(g, w, r)
    requires w.queue[0].kind.Replication? ==> w.queue[0].region == r
    requires next.At(r.Other()).localAccepted == w.At(r.Other()).localAccepted
    requires next.At(r).remoteObserved == w.At(r).remoteObserved
    requires next.queue != [] ==> w.queue[0].timeMs <= next.queue[0].timeMs
    requires forall e :: e in w.queue && e.kind.Replication? && e != w.queue[0] ==> e in next.queue
    ensures Observes(g, next, r)
  {
    forall m | 0 <= m < next.At(r.Other()).localAccepted && TickNotice(g, m, r.Other()) !in next.queue
      ensures TickNotice(g, m, r.Other()) !in w.queue
    {
    }
  }

  lemma AnswerFollows(g: Grid, w: World)
    requires g.Valid() && Inv(g.p, w) && Follows(g, w) && w.queue != [] && w.queue[0].kind.Request?
    ensures Follows(g, Step(g.p.limit, g.p.lag, w))
  {
    assert RegionInv(g.p, w, w.queue[0].region) && RegionInv(g.p, w, w.queue[0].region.Other());
    AnsweredNotices(g, w);
    AnswerObservers(g, w);
    AnswerOther(g, w);
  }

  lemma AnswerObservers(g: Grid, w: World)
    requires g.Valid() && Pending(w.queue) && w.queue != [] && w.queue[0].kind.Request?
    requires RegionInv(g.p, w, India) && RegionInv(g.p, w, US) && Observes(g, w, India) && Observes(g, w, US)
    ensures Observes(g, Step(g.p.limit, g.p.lag, w), India) && Observes(g, Step(g.p.limit, g.p.lag, w), US)
  {
    var next := AnswerFields(g.p, w);
    var r := w.queue[0].region;
    assert RegionInv(g.p, w, r) && RegionInv(g.p, w, r.Other());
    HeadsAdvance(g.p, w);
    UntouchedObserver(g, w, next, r);
    AnsweredObserver(g, w);
  }

  lemma AnswerOther(g: Grid, w: World)
    requires g.Valid() && Inv(g.p, w) && Follows(g, w) && w.queue != [] && w.queue[0].kind.Request?
    ensures var next := Step(g.p.limit, g.p.lag, w);
            InStep(g, next) && OnTicks(g, next, India) && OnTicks(g, next, US)
  {
    var next := AnswerFields(g.p, w);
    assert RegionInv(g.p, w, w.queue[0].region);
    HeadTick(g, w);
    DecidesOnTicks(g, w);
    BothDone(g, w);
    AnsweredTicks(g, w, next);
  }

  lemma AnsweredTicks(g: Grid, w: World, next: World)
    requires g.Valid() && w.queue != [] && InStep(g, w) && OnTicks(g, w, India) && OnTicks(g, w, US)
    requires var (r, o) := (w.queue[0].region, w.queue[0].region.Other());
             var t := Ticks(g, Done(w, r));
             && 0 <= Done(w, r) < g.Count(r)
             && Done(w, o) == Min(g.Count(o), Done(w, r) + (if r.US? then 1 else 0))
             && w.At(r).remoteObserved == Seen(g, t, Done(w, r), r)
             && next.At(o) == w.At(o)
             && next.At(r) ==
                (if Asked(g.p, w).accepted then
                   w.At(r).(localAccepted := w.At(r).localAccepted + 1, allowedRequests := w.At(r).allowedRequests + 1)
                 else w.At(r).(blockedRequests := w.At(r).blockedRequests + 1))
    ensures InStep(g, next) && OnTicks(g, next, India) && OnTicks(g, next, US)
  {
    var r := w.queue[0].region;
    assert Done(next, r) == Done(w, r) + 1 && Done(next, r.Other()) == Done(w, r.Other());
    assert OnTicks(g, w, r) && OnTicks(g, w, r.Other());
    assert OnTicks(g, next, r);
    assert OnTicks(g, next, r.Other());
  }

  lemma AnsweredNotices(g: Grid, w: World)
    requires g.Valid() && Pending(w.queue) && NoticesLate(g, w) && w.queue != [] && w.queue[0].kind.Request?
    requires RegionInv(g.p, w, w.queue[0].region) && RegionInv(g.p, w, w.queue[0].region.Other())
    ensures NoticesLate(g, Step(g.p.limit, g.p.lag, w))
  {
    var next := AnswerFields(g.p, w);
    LastAccepts(g, w, next);
    NextNotices(g, w, next);
  }

  lemma NextNotices(g: Grid, w: World, next: World)
    requires g.Valid() && Pending(w.queue) && NoticesLate(g, w) && w.queue != [] && w.queue[0].kind.Request?
    requires next.queue == w.queue[1..]
             || next.queue == Push(w.queue[1..], Notice(w.queue[0].timeMs + g.p.lag, w.queue[0].region))
    requires w.queue[0].timeMs >= 0
    requires next.india.localAccepted > 0 ==> (next.india.localAccepted - 1) * g.spacing <= w.queue[0].timeMs
    requires next.us.localAccepted > 0 ==> (next.us.localAccepted - 1) * g.spacing <= w.queue[0].timeMs
    ensures NoticesLate(g, next)
  {
    LaterThanHead(w.queue, g.p.lag, w.queue[0].region);
  }

  /** Behind a request at the head, every notice, old or new, has a later time. */
  lemma LaterThanHead(queue: seq<Event>, lag: int, r: Region)
    requires Pending(queue) && queue != [] && queue[0].kind.Request? && queue[0].timeMs >= 0 && lag > 0
    requires forall e :: e in queue && e.kind.Replication? ==> lag <= e.timeMs
    ensures forall e :: e in Push(queue[1..], Notice(queue[0].timeMs + lag, r)) && e.kind.Replication? ==>
                          queue[0].timeMs < e.timeMs && lag <= e.timeMs
    ensures forall e :: e in queue[1..] && e.kind.Replication? ==> queue[0].timeMs < e.timeMs && lag <= e.timeMs
  {
    PoppedPending(queue);
    PushMembers(queue[1..], Notice(queue[0].timeMs + lag, r));
    forall e | e in queue && e.kind.Replication? ensures queue[0].timeMs < e.timeMs {
      HeadFirst(queue, e);
    }
  }

  lemma OwnLastAccept(g: Grid, w: World, r: Region)
    requires g.Valid() && w.queue != [] && w.queue[0].kind.Request? && w.queue[0].region == r && RegionInv(g.p, w, r)
    ensures w.queue[0].timeMs >= 0
    ensures var accepted := w.At(r).localAccepted + (if Asked(g.p, w).accepted then 1 else 0);
            accepted > 0 ==> (accepted - 1) * g.spacing <= w.queue[0].timeMs
  {
    AcceptNow(g, w);
    if !Asked(g.p, w).accepted {
      LastAccept(g, w, r);
    }
  }

  lemma LastAccepts(g: Grid, w: World, next: World)
    requires g.Valid() && w.queue != [] && w.queue[0].kind.Request?
    requires RegionInv(g.p, w, w.queue[0].region) && RegionInv(g.p, w, w.queue[0].region.Other())
    requires next.At(w.queue[0].region.Other()) == w.At(w.queue[0].region.Other())
    requires next.At(w.queue[0].region).localAccepted ==
             w.At(w.queue[0].region).localAccepted + (if Asked(g.p, w).accepted then 1 else 0)
    ensures w.queue[0].timeMs >= 0
    ensures next.india.localAccepted > 0 ==> (next.india.localAccepted - 1) * g.spacing <= w.queue[0].timeMs
    ensures next.us.localAccepted > 0 ==> (next.us.localAccepted - 1) * g.spacing <= w.queue[0].timeMs
  {
    LastAccept(g, w, w.queue[0].region.Other());
    OwnLastAccept(g, w, w.queue[0].region);
  }

  lemma AcceptNow(g: Grid, w: World)
    requires g.Valid() && w.queue != [] && w.queue[0].kind.Request? && RegionInv(g.p, w, w.queue[0].region)
    ensures var r := w.queue[0].region;
            && w.queue[0].timeMs >= 0
            && (Asked(g.p, w).accepted ==>
                  w.At(r).localAccepted == Done(w, r) && w.At(r).localAccepted * g.spacing == w.queue[0].timeMs)
  {
    HeadTick(g, w);
    MulMono(0, Done(w, w.queue[0].region), g.spacing);
  }

  lemma LastAccept(g: Grid, w: World, r: Region)
    requires g.Valid() && w.queue != [] && RegionInv(g.p, w, r)
    ensures w.At(r).localAccepted > 0 ==> (w.At(r).localAccepted - 1) * g.spacing <= w.queue[0].timeMs
  {
    if w.At(r).localAccepted > 0 {
      AcceptAt(g, w, r, w.At(r).localAccepted - 1);
    }
  }

  lemma AnsweredObserver(g: Grid, w: World)
    requires g.Valid() && Pending(w.queue) && w.queue != [] && w.queue[0].kind.Request?
    requires RegionInv(g.p, w, w.queue[0].region) && Observes(g, w, w.queue[0].region.Other())
    ensures Observes(g, Step(g.p.limit, g.p.lag, w), w.queue[0].region.Other())
  {
    var next := AnswerFields(g.p, w);
    var (r, more) := (w.queue[0].region, Asked(g.p, w).accepted);
    HeadsAdvance(g.p, w);
    NoticeQueued(g, w, next);
    ObserverOfAnswer(g, w.queue, next.queue, r, w.At(r).localAccepted, w.At(r.Other()).remoteObserved,
                     more, Done(w, r));
  }

  lemma NoticeQueued(g: Grid, w: World, next: World)
    requires g.Valid() && w.queue != [] && w.queue[0].kind.Request? && RegionInv(g.p, w, w.queue[0].region)
    requires Asked(g.p, w).accepted ==>
               next.queue == Push(w.queue[1..], Notice(w.queue[0].timeMs + g.p.lag, w.queue[0].region))
    ensures var r := w.queue[0].region;
            && 0 <= Done(w, r) && w.queue[0].timeMs == Done(w, r) * g.spacing
            && (Asked(g.p, w).accepted ==>
                  w.At(r).localAccepted == Done(w, r) && TickNotice(g, Done(w, r), r) in next.queue)
  {
    HeadTick(g, w);
    AcceptNow(g, w);
    PushMembers(w.queue[1..], Notice(w.queue[0].timeMs + g.p.lag, w.queue[0].region));
  }

  lemma ObserverOfAnswer(
    g: Grid, queue: seq<Event>, queue': seq<Event>, r: Region, accepted: int, observed: int, more: bool, j: nat)
    requires g.Valid() && queue != [] && queue[0].kind.Request? && queue[0].timeMs == j * g.spacing
    requires NotTooMuch(g, queue, observed) && NotTooLittle(g, queue, r, accepted, observed)
    requires queue' != [] ==> queue[0].timeMs <= queue'[0].timeMs
    requires forall e :: e in queue && e.kind.Replication? ==> e in queue'
    requires more ==> accepted == j && TickNotice(g, j, r) in queue'
    ensures NotTooMuch(g, queue', observed)
    ensures NotTooLittle(g, queue', r, if more then accepted + 1 else accepted, observed)
  {
    var accepted' := if more then accepted + 1 else accepted;
    forall m | 0 <= m < accepted' && TickNotice(g, m, r) !in queue'
      ensures queue' != [] ==> TickNotice(g, m, r).timeMs <= queue'[0].timeMs
      ensures Min(accepted', m + g.blind) <= observed
    {
      assert TickNotice(g, m, r) !in queue;
      if more {
        DueAfter(g, m, j);
      }
    }
  }

  /** A request that comes no earlier than the notice of accept m comes `blind` ticks after it. */
  lemma DueAfter(g: Grid, m: int, j: int)
    requires g.Valid()
    ensures m * g.spacing + g.p.lag <= j * g.spacing ==> m + g.blind <= j
  {
    assert (j - m) * g.spacing == j * g.spacing - m * g.spacing;
    CeilDivLeast(g.p.lag, g.spacing, j - m);
  }

  lemma StartFollows(g: Grid)
    requires g.Valid()
    ensures Follows(g, Start(g.p.queue))
  {
  }

  lemma {:induction false} RunFollows(g: Grid, w: World)
    requires g.Valid() && Inv(g.p, w) && Follows(g, w)
    ensures Follows(g, Run(g.p.limit, g.p.lag, w))
    decreases Requests(w.queue), |w.queue|
  {
    if w.queue != [] {
      StepKeeps(g.p, w);
      if w.queue[0].kind.Replication? {
        DeliverFollows(g, w);
      } else {
        AnswerFollows(g, w);
      }
      RunFollows(g, Step(g.p.limit, g.p.lag, w));
    }
  }

  // ----- the tally in closed form -----

  function Least(a: int, b: int, c: int): int { Min(a, Min(b, c)) }

  /** During the first lag each region counts only for itself. */
  lemma {:induction false} BlindTicks(g: Grid, j: nat, r: Region)
    requires g.p.limit > 0 && j <= g.blind
    ensures Ticks(g, j).At(r) == Least(g.p.limit, j, g.Count(r))
    decreases j
  {
    if j > 0 {
      BlindTicks(g, j - 1, r);
    }
  }

  /** Both regions' requests of the first j ticks. */
  function Offered(g: Grid, j: int): int {
    Min(j, g.Count(India)) + Min(j, g.Count(US))
  }

  /** An odd limit is overrun by one if both regions still send when one more is left of it. */
  function Overrun(g: Grid): int {
    if g.p.limit % 2 == 1 && g.p.limit < 2 * Min(g.Count(India), g.Count(US)) then 1 else 0
  }

  lemma {:induction false} InformedTicks(g: Grid, j: nat)
    requires g.p.limit > 0 && 0 <= g.blind <= j && Offered(g, g.blind) < g.p.limit
    ensures Offered(g, j) < g.p.limit ==>
              Ticks(g, j) == Tally(Min(j, g.Count(India)), Min(j, g.Count(US)))
    ensures Offered(g, j) >= g.p.limit ==> Ticks(g, j).india + Ticks(g, j).us == g.p.limit + Overrun(g)
    decreases j
  {
    hide Admit, Overrun;
    if j == g.blind {
      BlindTicks(g, j, India);
      BlindTicks(g, j, US);
    } else {
      InformedTicks(g, j - 1);
      InformedTick(g, Ticks(g, j - 1), j - 1);
    }
  }

  /** The next tick after the blind ones, in numbers. */
  lemma InformedTick(g: Grid, t: Tally, j: nat)
    requires g.p.limit > 0 && 0 <= g.blind <= j
    requires Offered(g, j) < g.p.limit ==> t == Tally(Min(j, g.Count(India)), Min(j, g.Count(US)))
    requires Offered(g, j) >= g.p.limit ==> t.india + t.us == g.p.limit + Overrun(g)
    ensures var next := Tally(t.india + Admit(g, t, j, India), t.us + Admit(g, t, j, US));
            && (Offered(g, j + 1) < g.p.limit ==>
                  next == Tally(Min(j + 1, g.Count(India)), Min(j + 1, g.Count(US))))
            && (Offered(g, j + 1) >= g.p.limit ==> next.india + next.us == g.p.limit + Overrun(g))
  {
  }

  lemma {:induction false} FullTicks(g: Grid, j: nat)
    requires g.p.limit > 0 && 0 <= g.blind <= j
    requires Ticks(g, g.blind).india + Ticks(g, g.blind).us >= g.p.limit
    ensures Ticks(g, j) == Ticks(g, g.blind)
    decreases j
  {
    if j > g.blind {
      FullTicks(g, j - 1);
    }
  }

  /** What is accepted in all when `india` and `us` requests come, `spacing` > 0 apart. */
  function TotalAccepted(limit: int, lag: int, india: int, us: int, spacing: int): int
    requires spacing > 0
  {
    var blind := CeilDiv(lag, spacing);
    var early := Least(limit, blind, india) + Least(limit, blind, us);
    if lag > 0 && early >= limit then early
    else if lag > 0 && limit % 2 == 1 && limit < 2 * Min(india, us) then limit + 1
    else Min(limit, india + us)
  }

  lemma FinalTally(g: Grid, j: nat)
    requires g.Valid() && j >= g.Count(India) && j >= g.Count(US) && j >= g.blind >= 0
    ensures Ticks(g, j).india + Ticks(g, j).us ==
            TotalAccepted(g.p.limit, g.p.lag, g.Count(India), g.Count(US), g.spacing)
  {
    BlindTicks(g, g.blind, India);
    BlindTicks(g, g.blind, US);
    if Ticks(g, g.blind).india + Ticks(g, g.blind).us >= g.p.limit {
      FullTicks(g, j);
    } else {
      InformedTicks(g, j);
    }
  }

  /** The outcome, exactly: the first lag is spent blind, each region counting only for itself; if
    * that does not use up the limit, the rest is shared without error, except that an odd limit
    * is overrun by one when both regions ask at the instant when one request is left. */
  lemma ExactOversubscription(limit: int, lag: int, indiaRequests: int, usRequests: int, spacing: int)
    requires limit > 0 && lag >= 0 && spacing > 0
    ensures var outcome := Simulation(limit, lag, indiaRequests, usRequests, spacing);
            var total := TotalAccepted(limit, lag, Sent(indiaRequests), Sent(usRequests), spacing);
            && outcome.Success?
            && outcome.summary.totalAllowed == total
            && outcome.summary.oversubscription == Max(0, total - limit)
  {
    if lag == 0 {
      NoLagNoOversubscription(limit, indiaRequests, usRequests, spacing);
    } else {
      var p := SetupOf(limit, lag, indiaRequests, usRequests, spacing);
      InitialSetup(limit, lag, indiaRequests, usRequests, spacing);
      RunOfGrid(Grid(p, spacing, CeilDiv(lag, spacing)));
    }
  }

  lemma RunOfGrid(g: Grid)
    requires g.Valid()
    ensures var end := Run(g.p.limit, g.p.lag, Start(g.p.queue));
            end.india.allowedRequests + end.us.allowedRequests ==
            TotalAccepted(g.p.limit, g.p.lag, g.Count(India), g.Count(US), g.spacing)
  {
    var end := EndWorld(g, Start(g.p.queue));
    EndOfGrid(g, end);
  }

  lemma EndWorld(g: Grid, w: World) returns (end: World)
    requires g.Valid() && w == Start(g.p.queue)
    ensures end == Run(g.p.limit, g.p.lag, w)
    ensures Inv(g.p, end) && Follows(g, end) && end.queue == []
  {
    StartInv(g.p);
    StartFollows(g);
    RunFollows(g, w);
    RunKeeps(g.p, w);
    end := Run(g.p.limit, g.p.lag, w);
  }

  lemma EndOfGrid(g: Grid, end: World)
    requires g.Valid() && Inv(g.p, end) && Follows(g, end) && end.queue == []
    ensures end.india.allowedRequests + end.us.allowedRequests ==
            TotalAccepted(g.p.limit, g.p.lag, g.Count(India), g.Count(US), g.spacing)
  {
    AllObserved(g.p, end, India);
    AllObserved(g.p, end, US);
    EndTally(g);
  }

  lemma EndTally(g: Grid)
    requires g.Valid()
    ensures Ticks(g, g.Count(India)).india + Ticks(g, g.Count(US)).us ==
            TotalAccepted(g.p.limit, g.p.lag, g.Count(India), g.Count(US), g.spacing)
  {
    CeilDivLeast(g.p.lag, g.spacing, 0);
    var j := Max(g.blind, Max(g.Count(India), g.Count(US)));
    FinalTally(g, j);
    TicksUpTo(g, j, India);
    TicksUpTo(g, j, US);
  }

  /** The general bound min(limit, ceil(lag / spacing)) is reached, for every lag and spacing. */
  lemma BoundReached(lag: int, spacing: int)
    requires lag > 0 && spacing > 0
    ensures var n := CeilDiv(lag, spacing);
            n > 0 && Simulation(n, lag, n, n, spacing).Success?
            && Simulation(n, lag, n, n, spacing).summary.oversubscription == n
  {
    var n := CeilDiv(lag, spacing);
    CeilDivLeast(lag, spacing, 0);
    ExactOversubscription(n, lag, n, n, spacing);
  }

  /** Once the limit exceeds what both regions can send within one lag, it is overrun by one at most. */
  lemma AtMostOneBeyondTheBlindSpot(limit: int, lag: int, indiaRequests: int, usRequests: int, spacing: int)
    requires lag >= 0 && spacing > 0 && limit > 0 && limit >= 2 * CeilDiv(lag, spacing)
    ensures Simulation(limit, lag, indiaRequests, usRequests, spacing).Success?
    ensures Simulation(limit, lag, indiaRequests, usRequests, spacing).summary.oversubscription <= 1
  {
    ExactOversubscription(limit, lag, indiaRequests, usRequests, spacing);
  }
}
