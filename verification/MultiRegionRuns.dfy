/** What every run of the replication simulator keeps, for any schedule of requests. */
module MultiRegionRuns {
  import opened Arith
  import opened MultiRegion

  // ----- the queue -----

  function Notice(timeMs: int, source: Region): Event { Event(timeMs, 0, Replication, source) }

  function RequestTimes(queue: seq<Event>, r: Region): (times: seq<int>) {
    if queue == [] then []
    else if queue[0].kind.Request? && queue[0].region == r then [queue[0].timeMs] + RequestTimes(queue[1..], r)
    else RequestTimes(queue[1..], r)
  }

  lemma {:induction false} PushMembers(queue: seq<Event>, e: Event)
    ensures forall x :: x in Push(queue, e) <==> x == e || x in queue
  {
    if !(queue == [] || !Before(queue[0], e)) {
      PushMembers(queue[1..], e);
      assert queue == [queue[0]] + queue[1..];
    }
  }

  lemma {:induction false} PushSorted(queue: seq<Event>, e: Event)
    requires Sorted(queue)
    ensures Sorted(Push(queue, e))
    ensures Push(queue, e)[0] == e || (queue != [] && Push(queue, e)[0] == queue[0])
  {
    if queue == [] {
    } else if !Before(queue[0], e) {
      assert ([e] + queue)[1..] == queue;
    } else {
      PushSorted(queue[1..], e);
      assert ([queue[0]] + Push(queue[1..], e))[1..] == Push(queue[1..], e);
    }
  }

  lemma {:induction false} HeadFirst(queue: seq<Event>, e: Event)
    requires Sorted(queue) && e in queue
    ensures Before(queue[0], e)
  {
    if e != queue[0] {
      assert e in queue[1..];
      HeadFirst(queue[1..], e);
    }
  }

  lemma {:induction false} NoticeKeepsRequestTimes(queue: seq<Event>, e: Event, r: Region)
    requires e.kind.Replication?
    ensures RequestTimes(Push(queue, e), r) == RequestTimes(queue, r)
  {
    if queue == [] || !Before(queue[0], e) {
      assert ([e] + queue)[1..] == queue;
    } else {
      NoticeKeepsRequestTimes(queue[1..], e, r);
      assert ([queue[0]] + Push(queue[1..], e))[1..] == Push(queue[1..], e);
    }
  }

  lemma {:induction false} NoMoreRequestsThanEvents(queue: seq<Event>, r: Region)
    requires Sorted(queue)
    ensures forall t :: t in RequestTimes(queue, r) ==> queue != [] && queue[0].timeMs <= t
  {
    if queue != [] {
      NoMoreRequestsThanEvents(queue[1..], r);
    }
  }

  // ----- the log of decisions -----

  /** When the requests of region r that were let in arrived, in order. */
  function AcceptTimes(decisions: seq<Decision>, r: Region): (times: seq<int>) {
    if decisions == [] then []
    else
      var earlier := AcceptTimes(decisions[..|decisions| - 1], r);
      var d := decisions[|decisions| - 1];
      if d.region == r && d.accepted then earlier + [d.timeMs] else earlier
  }

  lemma AcceptTimesSnoc(decisions: seq<Decision>, d: Decision, r: Region)
    ensures AcceptTimes(decisions + [d], r) ==
            if d.region == r && d.accepted then AcceptTimes(decisions, r) + [d.timeMs] else AcceptTimes(decisions, r)
  {
    assert (decisions + [d])[..|decisions|] == decisions;
  }

  /** How many elements of s lie in the `lag` milliseconds from lo on. */
  function Window(s: seq<int>, lo: int, lag: int): nat { CountIn(s, lo, lo + lag) }

  /** What a decision is based on, given the decisions before it: it counts its own region
    * exactly, knows no more of the other region than there is, and misses at most what the other
    * region let in during the last `lag` milliseconds. */
  ghost predicate Informed(limit: int, lag: int, past: seq<Decision>, d: Decision) {
    var own, other := AcceptTimes(past, d.region), AcceptTimes(past, d.region.Other());
    && d.kind.Request?
    && (d.accepted <==> d.knownGlobal < limit)
    && d.actualGlobal == |own| + |other|
    && d.knownGlobal == |own| + d.observedRemote
    && 0 <= d.observedRemote <= |other|
    && d.actualGlobal - d.knownGlobal <= Window(other, d.timeMs - lag + 1, lag)
  }

  ghost predicate AllInformed(limit: int, lag: int, decisions: seq<Decision>) {
    decisions == [] || (
      && AllInformed(limit, lag, decisions[..|decisions| - 1])
      && Informed(limit, lag, decisions[..|decisions| - 1], decisions[|decisions| - 1]))
  }

  // ----- the invariant -----

  datatype Setup = Setup(limit: int, lag: int, queue: seq<Event>) {
    function Schedule(r: Region): seq<int> { RequestTimes(queue, r) }

    ghost predicate Valid() {
      && limit > 0 && lag >= 0 && Sorted(queue)
      && forall e :: e in queue ==> e.kind.Request? && e.priority == 1
    }
  }

  ghost predicate Pending(queue: seq<Event>) {
    Sorted(queue) && forall e :: e in queue ==> e.priority == if e.kind.Request? then 1 else 0
  }

  /** What holds of one region: `s` its counters, `pending` its requests still queued, `accepts`
    * when its accepted requests came. Accepted requests are a prefix of the schedule. */
  ghost predicate RegionOk(
    limit: int, schedule: seq<int>, s: Snapshot, otherLocal: int, pending: seq<int>, accepts: seq<int>)
  {
    && 0 <= s.localAccepted <= limit && 0 <= s.blockedRequests
    && s.allowedRequests == s.localAccepted
    && s.localAccepted + s.blockedRequests <= |schedule|
    && pending == schedule[s.localAccepted + s.blockedRequests..]
    && accepts == schedule[..s.localAccepted]
    && 0 <= s.remoteObserved <= otherLocal
    && (s.blockedRequests > 0 ==> s.localAccepted + s.remoteObserved >= limit)
  }

  /** Every accept is either still to be told to the other region, or already counted there. */
  ghost predicate Told(lag: int, source: Region, queue: seq<Event>, accepts: seq<int>, observed: int) {
    forall m :: 0 <= m < |accepts| ==> Notice(accepts[m] + lag, source) in queue || m < observed
  }

  /** No pending event lies before an accepted request. */
  ghost predicate Past(queue: seq<Event>, accepts: seq<int>) {
    accepts != [] && queue != [] ==> accepts[|accepts| - 1] <= queue[0].timeMs
  }

  ghost predicate RegionInv(p: Setup, w: World, r: Region) {
    var accepts := AcceptTimes(w.decisions, r);
    && RegionOk(p.limit, p.Schedule(r), w.At(r), w.At(r.Other()).localAccepted, RequestTimes(w.queue, r), accepts)
    && Told(p.lag, r, w.queue, accepts, w.At(r.Other()).remoteObserved)
    && Past(w.queue, accepts)
  }

  ghost predicate Inv(p: Setup, w: World) {
    && Pending(w.queue)
    && RegionInv(p, w, India) && RegionInv(p, w, US)
    && w.staleAllowed == Max(0, w.india.localAccepted + w.us.localAccepted - p.limit)
    && AllInformed(p.limit, p.lag, w.decisions)
  }

  lemma {:induction false} ScheduleSorted(queue: seq<Event>, r: Region)
    requires Sorted(queue)
    ensures NonDecreasing(RequestTimes(queue, r))
  {
    if queue != [] {
      ScheduleSorted(queue[1..], r);
      NoMoreRequestsThanEvents(queue[1..], r);
      var rest := RequestTimes(queue[1..], r);
      if queue[0].kind.Request? && queue[0].region == r {
        if rest != [] {
          assert rest[0] in rest;
        }
        ConsNonDecreasing(queue[0].timeMs, RequestTimes(queue[1..], r));
      }
    }
  }

  lemma {:induction false} ConsNonDecreasing(x: int, s: seq<int>)
    requires NonDecreasing(s) && (s != [] ==> x <= s[0])
    ensures NonDecreasing([x] + s)
  {
    if s != [] {
      ConsNonDecreasing(x, s[..|s| - 1]);
      assert ([x] + s)[..|s|] == [x] + s[..|s| - 1];
    }
  }

  // ----- delivering a notice -----

  lemma PoppedPending(queue: seq<Event>)
    requires queue != [] && Pending(queue)
    ensures Pending(queue[1..])
    ensures queue[1..] != [] ==> queue[0].timeMs <= queue[1..][0].timeMs
    ensures forall e :: e in queue <==> e == queue[0] || e in queue[1..]
  {
    assert queue == [queue[0]] + queue[1..];
  }

  lemma DeliverFields(p: Setup, w: World) returns (next: World)
    requires w.queue != [] && w.queue[0].kind.Replication?
    ensures next == Step(p.limit, p.lag, w)
    ensures var r := w.queue[0].region;
            var target := w.At(r.Other());
            && next.queue == w.queue[1..] && next.decisions == w.decisions && next.staleAllowed == w.staleAllowed
            && next.At(r) == w.At(r)
            && next.At(r.Other()) ==
               target.(remoteObserved := Max(target.remoteObserved, w.At(r).localAccepted))
  {
    next := Step(p.limit, p.lag, w);
  }

  lemma DeliverRegions(p: Setup, w: World)
    requires p.Valid() && w.queue != [] && w.queue[0].kind.Replication? && Pending(w.queue)
    requires RegionInv(p, w, India) && RegionInv(p, w, US)
    ensures RegionInv(p, Step(p.limit, p.lag, w), India) && RegionInv(p, Step(p.limit, p.lag, w), US)
  {
    var next := DeliverFields(p, w);
    DeliveredSource(p, w, next, w.queue[0].region);
    DeliveredTarget(p, w, next, w.queue[0].region.Other());
  }

  lemma DeliverKeeps(p: Setup, w: World)
    requires p.Valid() && Inv(p, w) && w.queue != [] && w.queue[0].kind.Replication?
    ensures Inv(p, Step(p.limit, p.lag, w))
  {
    var next := DeliverFields(p, w);
    PoppedPending(w.queue);
    DeliverRegions(p, w);
    assert next.india.localAccepted == w.india.localAccepted && next.us.localAccepted == w.us.localAccepted;
  }

  lemma DeliveredSource(p: Setup, w: World, next: World, r: Region)
    requires w.queue != [] && w.queue[0].kind.Replication? && Pending(w.queue) && RegionInv(p, w, r)
    requires next.queue == w.queue[1..] && next.decisions == w.decisions && next.At(r) == w.At(r)
    requires next.At(r.Other()).localAccepted == w.At(r.Other()).localAccepted
    requires next.At(r.Other()).remoteObserved >= w.At(r).localAccepted
    ensures RegionInv(p, next, r)
  {
    PoppedPending(w.queue);
  }

  lemma DeliveredTarget(p: Setup, w: World, next: World, r: Region)
    requires w.queue != [] && w.queue[0].kind.Replication? && Pending(w.queue) && RegionInv(p, w, r)
    requires w.queue[0].region == r.Other()
    requires next.queue == w.queue[1..] && next.decisions == w.decisions && next.At(r.Other()) == w.At(r.Other())
    requires next.At(r) ==
             w.At(r).(remoteObserved := Max(w.At(r).remoteObserved, w.At(r.Other()).localAccepted))
    ensures RegionInv(p, next, r)
  {
    hide AcceptTimes, RequestTimes, Told, NonDecreasing, Sorted;
    PoppedPending(w.queue);
    PoppedRequests(w.queue, r);
    ToldPopped(p.lag, r, w.queue, AcceptTimes(w.decisions, r), w.At(r.Other()).remoteObserved);
  }

  /** A notice of the other region tells nothing of this one. */
  lemma ToldPopped(lag: int, source: Region, queue: seq<Event>, accepts: seq<int>, observed: int)
    requires Told(lag, source, queue, accepts, observed) && queue != [] && queue[0].region != source
    ensures Told(lag, source, queue[1..], accepts, observed)
  {
    forall m | 0 <= m < |accepts| ensures Notice(accepts[m] + lag, source) in queue[1..] || m < observed {
      assert Notice(accepts[m] + lag, source) in queue || m < observed;
    }
  }

  lemma PoppedRequests(queue: seq<Event>, r: Region)
    requires queue != [] && queue[0].kind.Replication?
    ensures RequestTimes(queue[1..], r) == RequestTimes(queue, r)
  {
  }

  // ----- answering a request -----

  lemma {:induction false} CountOfSuffix(s: seq<int>, from: nat, lo: int, hi: int)
    requires from <= |s| && forall m :: from <= m < |s| ==> lo <= s[m] < hi
    ensures |s| - from <= CountIn(s, lo, hi)
  {
    if from < |s| {
      assert forall m :: from <= m < |s| - 1 ==> s[..|s| - 1][m] == s[m];
      CountOfSuffix(s[..|s| - 1], from, lo, hi);
    }
  }

  lemma AcceptsInOrder(p: Setup, w: World, r: Region)
    requires p.Valid() && RegionInv(p, w, r)
    ensures NonDecreasing(AcceptTimes(w.decisions, r))
  {
    ScheduleSorted(p.queue, r);
    var schedule, n := p.Schedule(r), w.At(r).localAccepted;
    assert schedule == schedule[..n] + schedule[n..];
    PrefixNonDecreasing(schedule[..n], schedule[n..]);
  }

  /** The blind spot: what a deciding region does not know of the other is recent. */
  lemma BlindSpot(lag: int, queue: seq<Event>, o: Region, accepts: seq<int>, observed: nat)
    requires queue != [] && queue[0].kind.Request? && Pending(queue)
    requires Told(lag, o, queue, accepts, observed) && Past(queue, accepts)
    requires NonDecreasing(accepts) && observed <= |accepts|
    ensures |accepts| - observed <= Window(accepts, queue[0].timeMs - lag + 1, lag)
  {
    var now := queue[0].timeMs;
    forall m | observed <= m < |accepts|
      ensures now - lag + 1 <= accepts[m] < now + 1
    {
      HeadFirst(queue, Notice(accepts[m] + lag, o));
      NonDecreasingAt(accepts, m, |accepts| - 1);
    }
    CountOfSuffix(accepts, observed, now - lag + 1, now + 1);
  }

  /** The decision that the next event asks for. */
  function Asked(p: Setup, w: World): Decision
    requires w.queue != []
  {
    var e := w.queue[0];
    var s := w.At(e.region);
    var known := s.localAccepted + s.remoteObserved;
    Decision(e.region, e.kind, e.timeMs, known < p.limit, known,
             w.india.localAccepted + w.us.localAccepted, s.remoteObserved)
  }

  lemma AnswerFields(p: Setup, w: World) returns (next: World)
    requires w.queue != [] && w.queue[0].kind.Request?
    ensures next == Step(p.limit, p.lag, w)
    ensures var (e, d) := (w.queue[0], Asked(p, w));
            var s := w.At(e.region);
            && next.decisions == w.decisions + [d]
            && next.At(e.region.Other()) == w.At(e.region.Other())
            && next.queue ==
               (if d.accepted then Push(w.queue[1..], Notice(e.timeMs + p.lag, e.region)) else w.queue[1..])
            && next.At(e.region) ==
               (if d.accepted then s.(localAccepted := s.localAccepted + 1, allowedRequests := s.allowedRequests + 1)
                else s.(blockedRequests := s.blockedRequests + 1))
            && next.staleAllowed == w.staleAllowed + (if d.accepted && d.actualGlobal >= p.limit then 1 else 0)
  {
    next := Step(p.limit, p.lag, w);
  }

  lemma AnswerKeeps(p: Setup, w: World)
    requires p.Valid() && Inv(p, w) && w.queue != [] && w.queue[0].kind.Request?
    ensures Inv(p, Step(p.limit, p.lag, w))
  {
    AnswerRegions(p, w);
    AnswerQueue(p, w);
    AnswerLog(p, w);
  }

  lemma AnswerQueue(p: Setup, w: World)
    requires w.queue != [] && w.queue[0].kind.Request? && Pending(w.queue)
    requires w.staleAllowed == Max(0, w.india.localAccepted + w.us.localAccepted - p.limit)
    ensures var next := Step(p.limit, p.lag, w);
            && Pending(next.queue)
            && next.staleAllowed == Max(0, next.india.localAccepted + next.us.localAccepted - p.limit)
  {
    var next := AnswerFields(p, w);
    AnswerPending(w.queue, Notice(w.queue[0].timeMs + p.lag, w.queue[0].region));
    AnswerStale(p, w, next);
  }

  lemma AnswerLog(p: Setup, w: World)
    requires p.Valid() && Inv(p, w) && w.queue != [] && w.queue[0].kind.Request?
    ensures AllInformed(p.limit, p.lag, Step(p.limit, p.lag, w).decisions)
  {
    var next := AnswerFields(p, w);
    AnswerInformed(p, w);
    AllInformedSnoc(p, w.decisions, Asked(p, w));
  }

  lemma AnswerRegions(p: Setup, w: World)
    requires p.Valid() && w.queue != [] && w.queue[0].kind.Request? && Pending(w.queue)
    requires RegionInv(p, w, India) && RegionInv(p, w, US)
    ensures RegionInv(p, Step(p.limit, p.lag, w), India) && RegionInv(p, Step(p.limit, p.lag, w), US)
  {
    var r := w.queue[0].region;
    assert RegionInv(p, w, r) && RegionInv(p, w, r.Other());
    AnswerOwnRegion(p, w, r);
    AnswerOtherRegion(p, w, r);
  }

  lemma AnswerOwnRegion(p: Setup, w: World, r: Region)
    requires p.Valid() && w.queue != [] && w.queue[0].kind.Request? && Pending(w.queue)
    requires w.queue[0].region == r && RegionInv(p, w, r)
    ensures RegionInv(p, Step(p.limit, p.lag, w), r)
  {
    var next := AnswerFields(p, w);
    if Asked(p, w).accepted {
      AcceptedRegion(p, w, next, r, Notice(w.queue[0].timeMs + p.lag, r));
    } else {
      BlockedRegion(p, w, next, r);
    }
  }

  lemma AnswerOtherRegion(p: Setup, w: World, r: Region)
    requires p.Valid() && w.queue != [] && w.queue[0].kind.Request? && Pending(w.queue)
    requires w.queue[0].region == r && RegionInv(p, w, r.Other())
    ensures RegionInv(p, Step(p.limit, p.lag, w), r.Other())
  {
    hide Step, AcceptTimes, RequestTimes, Push, Told, NonDecreasing, Sorted;
    var next := AnswerFields(p, w);
    UntouchedRegion(p, w, next, Notice(w.queue[0].timeMs + p.lag, r));
  }

  lemma AnswerPending(queue: seq<Event>, notice: Event)
    requires queue != [] && Pending(queue) && notice.kind.Replication? && notice.priority == 0
    ensures Pending(queue[1..]) && Pending(Push(queue[1..], notice))
  {
    PoppedPending(queue);
    PushMembers(queue[1..], notice);
    PushSorted(queue[1..], notice);
  }

  lemma AnswerStale(p: Setup, w: World, next: World)
    requires w.queue != []
    requires var (e, d) := (w.queue[0], Asked(p, w));
             var s := w.At(e.region);
             && w.staleAllowed == Max(0, w.india.localAccepted + w.us.localAccepted - p.limit)
             && next.At(e.region.Other()) == w.At(e.region.Other())
             && next.At(e.region).localAccepted == s.localAccepted + (if d.accepted then 1 else 0)
             && next.staleAllowed == w.staleAllowed + (if d.accepted && d.actualGlobal >= p.limit then 1 else 0)
    ensures next.staleAllowed == Max(0, next.india.localAccepted + next.us.localAccepted - p.limit)
  {
  }

  lemma AllInformedSnoc(p: Setup, decisions: seq<Decision>, d: Decision)
    requires AllInformed(p.limit, p.lag, decisions) && Informed(p.limit, p.lag, decisions, d)
    ensures AllInformed(p.limit, p.lag, decisions + [d])
  {
    assert (decisions + [d])[..|decisions|] == decisions;
  }

  lemma AnswerInformed(p: Setup, w: World)
    requires p.Valid() && Inv(p, w) && w.queue != [] && w.queue[0].kind.Request?
    ensures Informed(p.limit, p.lag, w.decisions, Asked(p, w))
  {
    var r := w.queue[0].region;
    assert RegionInv(p, w, r) && RegionInv(p, w, r.Other());
    AskedInformed(p, w, r, r.Other());
  }

  lemma AskedInformed(p: Setup, w: World, r: Region, o: Region)
    requires p.Valid() && w.queue != [] && w.queue[0].kind.Request? && w.queue[0].region == r && o == r.Other()
    requires Pending(w.queue) && RegionInv(p, w, r) && RegionInv(p, w, o)
    ensures Informed(p.limit, p.lag, w.decisions, Asked(p, w))
  {
    AcceptsInOrder(p, w, o);
    BlindSpot(p.lag, w.queue, o, AcceptTimes(w.decisions, o), w.At(r).remoteObserved);
  }

  lemma AcceptNext(limit: int, schedule: seq<int>, s: Snapshot, otherLocal: int, pending: seq<int>, accepts: seq<int>)
    requires RegionOk(limit, schedule, s, otherLocal, pending, accepts) && pending != []
    requires s.localAccepted + s.remoteObserved < limit
    ensures RegionOk(limit, schedule,
                     s.(localAccepted := s.localAccepted + 1, allowedRequests := s.allowedRequests + 1),
                     otherLocal, pending[1..], accepts + [pending[0]])
  {
    var n := s.localAccepted;
    assert schedule[..n] + [schedule[n]] == schedule[..n + 1];
  }

  lemma BlockNext(limit: int, schedule: seq<int>, s: Snapshot, otherLocal: int, pending: seq<int>, accepts: seq<int>)
    requires RegionOk(limit, schedule, s, otherLocal, pending, accepts) && pending != []
    requires s.localAccepted + s.remoteObserved >= limit
    ensures RegionOk(limit, schedule, s.(blockedRequests := s.blockedRequests + 1), otherLocal, pending[1..], accepts)
  {
  }

  lemma ToldKeeps(lag: int, r: Region, queue: seq<Event>, queue': seq<Event>, accepts: seq<int>, observed: int)
    requires Told(lag, r, queue, accepts, observed)
    requires forall e :: e in queue && e.kind.Replication? ==> e in queue'
    ensures Told(lag, r, queue', accepts, observed)
  {
  }

  lemma ToldOneMore(lag: int, r: Region, queue: seq<Event>, accepts: seq<int>, observed: int, now: int)
    requires Told(lag, r, queue, accepts, observed) && Notice(now + lag, r) in queue
    ensures Told(lag, r, queue, accepts + [now], observed)
  {
    forall m | 0 <= m < |accepts + [now]|
      ensures Notice((accepts + [now])[m] + lag, r) in queue || m < observed
    {
      if m < |accepts| {
        assert Notice(accepts[m] + lag, r) in queue || m < observed;
      }
    }
  }

  lemma AcceptedRegion(p: Setup, w: World, next: World, r: Region, notice: Event)
    requires p.Valid() && w.queue != [] && w.queue[0].kind.Request? && Pending(w.queue) && RegionInv(p, w, r)
    requires w.queue[0].region == r && notice == Notice(w.queue[0].timeMs + p.lag, r) && Asked(p, w).accepted
    requires next.decisions == w.decisions + [Asked(p, w)] && next.queue == Push(w.queue[1..], notice)
    requires next.At(r.Other()) == w.At(r.Other())
    requires next.At(r) ==
             w.At(r).(localAccepted := w.At(r).localAccepted + 1, allowedRequests := w.At(r).allowedRequests + 1)
    ensures RegionInv(p, next, r)
  {
    var (e, o) := (w.queue[0], w.At(r.Other()));
    var (accepts, pending) := (AcceptTimes(w.decisions, r), RequestTimes(w.queue, r));
    PoppedPending(w.queue);
    PushMembers(w.queue[1..], notice);
    PushSorted(w.queue[1..], notice);
    NoticeKeepsRequestTimes(w.queue[1..], notice, r);
    AcceptTimesSnoc(w.decisions, Asked(p, w), r);
    AcceptNext(p.limit, p.Schedule(r), w.At(r), o.localAccepted, pending, accepts);
    ToldKeeps(p.lag, r, w.queue, next.queue, accepts, o.remoteObserved);
    ToldOneMore(p.lag, r, next.queue, accepts, o.remoteObserved, e.timeMs);
  }

  lemma BlockedRegion(p: Setup, w: World, next: World, r: Region)
    requires p.Valid() && w.queue != [] && w.queue[0].kind.Request? && Pending(w.queue) && RegionInv(p, w, r)
    requires w.queue[0].region == r && !Asked(p, w).accepted
    requires next.decisions == w.decisions + [Asked(p, w)] && next.queue == w.queue[1..]
    requires next.At(r.Other()) == w.At(r.Other())
    requires next.At(r) == w.At(r).(blockedRequests := w.At(r).blockedRequests + 1)
    ensures RegionInv(p, next, r)
  {
    var o := w.At(r.Other());
    var (accepts, pending) := (AcceptTimes(w.decisions, r), RequestTimes(w.queue, r));
    PoppedPending(w.queue);
    AcceptTimesSnoc(w.decisions, Asked(p, w), r);
    BlockNext(p.limit, p.Schedule(r), w.At(r), o.localAccepted, pending, accepts);
    ToldKeeps(p.lag, r, w.queue, next.queue, accepts, o.remoteObserved);
  }

  lemma RequestPopped(queue: seq<Event>, r: Region)
    requires queue != [] && queue[0].region != r
    ensures RequestTimes(queue[1..], r) == RequestTimes(queue, r)
  {
  }

  lemma UntouchedRegion(p: Setup, w: World, next: World, notice: Event)
    requires p.Valid() && w.queue != [] && w.queue[0].kind.Request? && Pending(w.queue)
    requires var (e, d, r) := (w.queue[0], Asked(p, w), w.queue[0].region);
             && RegionInv(p, w, r.Other()) && notice == Notice(e.timeMs + p.lag, r)
             && next.decisions == w.decisions + [d]
             && next.At(r.Other()) == w.At(r.Other())
             && next.queue == (if d.accepted then Push(w.queue[1..], notice) else w.queue[1..])
             && next.At(r).localAccepted >= w.At(r).localAccepted
             && next.At(r).remoteObserved == w.At(r).remoteObserved
    ensures RegionInv(p, next, w.queue[0].region.Other())
  {
    hide AcceptTimes, RequestTimes, Push, Told, NonDecreasing, Sorted;
    var (e, d, r) := (w.queue[0], Asked(p, w), w.queue[0].region.Other());
    RequestPopped(w.queue, r);
    PoppedPending(w.queue);
    PushMembers(w.queue[1..], notice);
    PushSorted(w.queue[1..], notice);
    NoticeKeepsRequestTimes(w.queue[1..], notice, r);
    AcceptTimesSnoc(w.decisions, d, r);
    ToldKeeps(p.lag, r, w.queue, next.queue, AcceptTimes(w.decisions, r), w.At(r.Other()).remoteObserved);
  }

  // ----- whole runs -----

  lemma StartInv(p: Setup)
    requires p.Valid()
    ensures Inv(p, Start(p.queue))
  {
  }

  lemma StepKeeps(p: Setup, w: World)
    requires p.Valid() && Inv(p, w) && w.queue != []
    ensures Inv(p, Step(p.limit, p.lag, w))
  {
    if w.queue[0].kind.Replication? {
      DeliverKeeps(p, w);
    } else {
      AnswerKeeps(p, w);
    }
  }

  lemma {:induction false} RunKeeps(p: Setup, w: World)
    requires p.Valid() && Inv(p, w)
    ensures Inv(p, Run(p.limit, p.lag, w))
    decreases Requests(w.queue), |w.queue|
  {
    if w.queue != [] {
      StepKeeps(p, w);
      RunKeeps(p, Step(p.limit, p.lag, w));
    }
  }
}
