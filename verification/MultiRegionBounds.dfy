/** What the simulation reports, for every limit, lag, spacing and number of requests. */
module MultiRegionBounds {
  import opened Arith
  import opened MultiRegion
  import opened MultiRegionRuns

  // ----- the initial queue -----

  ghost predicate OnlyRequests(queue: seq<Event>) {
    Sorted(queue) && forall e :: e in queue ==> e.kind.Request? && e.priority == 1
  }

  lemma {:induction false} PushOther(queue: seq<Event>, t: int, r: Region)
    ensures RequestTimes(Push(queue, Event(t, 1, Request, r)), r.Other()) == RequestTimes(queue, r.Other())
  {
    var e := Event(t, 1, Request, r);
    if queue == [] || !Before(queue[0], e) {
      assert ([e] + queue)[1..] == queue;
    } else {
      PushOther(queue[1..], t, r);
      assert ([queue[0]] + Push(queue[1..], e))[1..] == Push(queue[1..], e);
    }
  }

  lemma HeadListed(queue: seq<Event>, r: Region)
    requires queue != []
    ensures queue[0].kind.Request? && queue[0].region == r ==> queue[0].timeMs in RequestTimes(queue, r)
  {
    if queue[0].kind.Request? && queue[0].region == r {
      assert RequestTimes(queue, r)[0] == queue[0].timeMs;
    }
  }

  lemma {:induction false} NoneFromHere(queue: seq<Event>, t: int, r: Region)
    requires OnlyRequests(queue) && queue != [] && !Before(queue[0], Event(t, 1, Request, r))
    requires forall x :: x in RequestTimes(queue, r) ==> x <= t
    ensures RequestTimes(queue, r) == []
    decreases |queue|
  {
    assert queue[0] in queue;
    var rest := queue[1..];
    assert forall e :: e in rest ==> e in queue;
    HeadListed(queue, r);
    if rest != [] {
      assert rest[0] in queue;
      NoneFromHere(rest, t, r);
    }
  }

  lemma {:induction false} PushLast(queue: seq<Event>, t: int, r: Region)
    requires OnlyRequests(queue) && forall x :: x in RequestTimes(queue, r) ==> x <= t
    ensures RequestTimes(Push(queue, Event(t, 1, Request, r)), r) == RequestTimes(queue, r) + [t]
  {
    var e := Event(t, 1, Request, r);
    if queue == [] {
    } else if !Before(queue[0], e) {
      NoneFromHere(queue, t, r);
      assert ([e] + queue)[1..] == queue;
    } else {
      var rest := queue[1..];
      assert forall x :: x in rest ==> x in queue;
      assert queue[0] in queue;
      assert forall x :: x in RequestTimes(rest, r) ==> x in RequestTimes(queue, r);
      PushLast(rest, t, r);
      assert ([queue[0]] + Push(rest, e))[1..] == Push(rest, e);
    }
  }

  lemma {:induction false} PushFirst(queue: seq<Event>, t: int, r: Region)
    requires OnlyRequests(queue) && forall x :: x in RequestTimes(queue, r) ==> t < x
    ensures RequestTimes(Push(queue, Event(t, 1, Request, r)), r) == [t] + RequestTimes(queue, r)
  {
    var e := Event(t, 1, Request, r);
    if queue == [] || !Before(queue[0], e) {
      assert ([e] + queue)[1..] == queue;
    } else {
      var rest := queue[1..];
      assert forall x :: x in rest ==> x in queue;
      assert queue[0] in queue;
      HeadListed(queue, r);
      PushFirst(rest, t, r);
      assert ([queue[0]] + Push(rest, e))[1..] == Push(rest, e);
    }
  }

  /** When `count` requests, `spacing` apart, arrive; in order of arrival. */
  function Arrivals(count: nat, spacing: int): (times: seq<int>)
    ensures |times| == count
  {
    if spacing >= 0 then seq(count, i => i * spacing) else seq(count, i => (count - 1 - i) * spacing)
  }

  lemma PushOnlyRequests(queue: seq<Event>, t: int, r: Region)
    requires OnlyRequests(queue)
    ensures OnlyRequests(Push(queue, Event(t, 1, Request, r)))
  {
    PushMembers(queue, Event(t, 1, Request, r));
    PushSorted(queue, Event(t, 1, Request, r));
  }

  lemma PushArrival(queue: seq<Event>, count: nat, spacing: int, r: Region)
    requires OnlyRequests(queue) && RequestTimes(queue, r) == Arrivals(count, spacing)
    ensures RequestTimes(Push(queue, Event(count * spacing, 1, Request, r)), r) == Arrivals(count + 1, spacing)
  {
    var (t, arrivals) := (count * spacing, Arrivals(count, spacing));
    if spacing >= 0 {
      forall x | x in arrivals ensures x <= t {
        var i :| 0 <= i < |arrivals| && arrivals[i] == x;
        MulMono(i, count, spacing);
      }
      PushLast(queue, t, r);
      assert arrivals + [t] == Arrivals(count + 1, spacing);
    } else {
      forall x | x in arrivals ensures t < x {
        var i :| 0 <= i < |arrivals| && arrivals[i] == x;
        MulMono(count - i, count, -spacing);
        assert (count - 1 - i) * -spacing == (count - i) * -spacing + spacing;
      }
      PushFirst(queue, t, r);
      assert [t] + arrivals == Arrivals(count + 1, spacing);
    }
  }

  lemma {:induction false} QueueOf(queue: seq<Event>, count: nat, spacing: int, r: Region)
    requires OnlyRequests(queue) && RequestTimes(queue, r) == []
    ensures var q := PushRequests(queue, count, spacing, r);
            && OnlyRequests(q) && |q| == |queue| + count
            && RequestTimes(q, r) == Arrivals(count, spacing)
            && RequestTimes(q, r.Other()) == RequestTimes(queue, r.Other())
  {
    if count > 0 {
      QueueOf(queue, count - 1, spacing, r);
      var q := PushRequests(queue, count - 1, spacing, r);
      PushOnlyRequests(q, (count - 1) * spacing, r);
      PushOther(q, (count - 1) * spacing, r);
      PushArrival(q, count - 1, spacing, r);
    }
  }

  function Sent(requests: int): nat { Max(0, requests) }

  function SetupOf(limit: int, lag: int, indiaRequests: int, usRequests: int, spacing: int): Setup {
    Setup(limit, lag, InitialQueue(indiaRequests, usRequests, spacing))
  }

  lemma InitialSetup(limit: int, lag: int, indiaRequests: int, usRequests: int, spacing: int)
    requires limit > 0 && lag >= 0
    ensures var p := SetupOf(limit, lag, indiaRequests, usRequests, spacing);
            && p.Valid() && |p.queue| == Sent(indiaRequests) + Sent(usRequests)
            && p.Schedule(India) == Arrivals(Sent(indiaRequests), spacing)
            && p.Schedule(US) == Arrivals(Sent(usRequests), spacing)
  {
    QueueOf([], Sent(indiaRequests), spacing, India);
    QueueOf(PushRequests([], Sent(indiaRequests), spacing, India), Sent(usRequests), spacing, US);
  }

  lemma FinalInv(limit: int, lag: int, indiaRequests: int, usRequests: int, spacing: int)
    requires limit > 0 && lag >= 0
    ensures Inv(SetupOf(limit, lag, indiaRequests, usRequests, spacing),
                Final(limit, lag, indiaRequests, usRequests, spacing))
  {
    var p := SetupOf(limit, lag, indiaRequests, usRequests, spacing);
    InitialSetup(limit, lag, indiaRequests, usRequests, spacing);
    StartInv(p);
    RunKeeps(p, Start(p.queue));
  }

  // ----- conservation, convergence, exact staleness -----

  lemma {:induction false} RunDepth(limit: int, lag: int, w: World, n: int)
    requires |w.queue| <= n == w.maxQueueDepth
    ensures Run(limit, lag, w).maxQueueDepth == n
    decreases Requests(w.queue), |w.queue|
  {
    if w.queue != [] {
      RunDepth(limit, lag, Step(limit, lag, w), n);
    }
  }

  /** Every request is answered; in the end each region has observed all that the other accepted;
    * stale admissions and oversubscription are the same number; and the queue was never longer
    * than it started. */
  lemma Conservation(limit: int, lag: int, indiaRequests: int, usRequests: int, spacing: int)
    requires limit > 0 && lag >= 0
    ensures var end := Final(limit, lag, indiaRequests, usRequests, spacing);
            && end.india.allowedRequests + end.india.blockedRequests == Sent(indiaRequests)
            && end.us.allowedRequests + end.us.blockedRequests == Sent(usRequests)
            && end.india.allowedRequests >= 0 && end.india.blockedRequests >= 0
            && end.us.allowedRequests >= 0 && end.us.blockedRequests >= 0
            && end.india.remoteObserved == end.us.localAccepted
            && end.us.remoteObserved == end.india.localAccepted
            && end.staleAllowed == Max(0, end.india.allowedRequests + end.us.allowedRequests - limit)
            && end.maxQueueDepth == Sent(indiaRequests) + Sent(usRequests)
  {
    var p := SetupOf(limit, lag, indiaRequests, usRequests, spacing);
    var end := Final(limit, lag, indiaRequests, usRequests, spacing);
    InitialSetup(limit, lag, indiaRequests, usRequests, spacing);
    FinalInv(limit, lag, indiaRequests, usRequests, spacing);
    RunDepth(limit, lag, Start(p.queue), |p.queue|);
    AllObserved(p, end, India);
    AllObserved(p, end, US);
  }

  lemma AllObserved(p: Setup, end: World, r: Region)
    requires end.queue == [] && RegionInv(p, end, r) && RegionInv(p, end, r.Other())
    ensures end.At(r.Other()).remoteObserved == end.At(r).localAccepted
    ensures end.At(r).allowedRequests + end.At(r).blockedRequests == |p.Schedule(r)|
  {
    var accepts := AcceptTimes(end.decisions, r);
    if accepts != [] {
      assert Notice(accepts[|accepts| - 1] + p.lag, r) !in end.queue;
    }
  }

  // ----- the oversubscription bound -----

  /** Within any `lag` milliseconds, at most `burst` requests of each region arrive. */
  ghost predicate BurstsAtMost(p: Setup, burst: int) {
    && (forall lo :: Window(p.Schedule(India), lo, p.lag) <= burst)
    && (forall lo :: Window(p.Schedule(US), lo, p.lag) <= burst)
  }

  lemma {:induction false} CountInPrefix(s: seq<int>, t: seq<int>, lo: int, hi: int)
    ensures CountIn(s, lo, hi) <= CountIn(s + t, lo, hi)
  {
    if t == [] {
      assert s + t == s;
    } else {
      assert (s + t)[..|s + t| - 1] == s + t[..|t| - 1];
      CountInPrefix(s, t[..|t| - 1], lo, hi);
    }
  }

  lemma WindowOfAccepts(p: Setup, w: World, r: Region, lo: int, burst: int)
    requires RegionInv(p, w, r) && BurstsAtMost(p, burst)
    ensures Window(AcceptTimes(w.decisions, r), lo, p.lag) <= burst
  {
    var schedule, n := p.Schedule(r), w.At(r).localAccepted;
    assert schedule == schedule[..n] + schedule[n..];
    CountInPrefix(schedule[..n], schedule[n..], lo, lo + p.lag);
    assert Window(schedule, lo, p.lag) <= burst;
  }

  lemma OtherWithinBurst(p: Setup, w: World, o: Region, lo: int, burst: int)
    requires Inv(p, w) && BurstsAtMost(p, burst)
    ensures Window(AcceptTimes(w.decisions, o), lo, p.lag) <= burst
  {
    assert RegionInv(p, w, o);
    WindowOfAccepts(p, w, o, lo, burst);
  }

  lemma AskedWithinBurst(p: Setup, w: World, burst: int)
    requires p.Valid() && Inv(p, w) && w.queue != [] && w.queue[0].kind.Request? && BurstsAtMost(p, burst)
    ensures Asked(p, w).actualGlobal <= Asked(p, w).knownGlobal + burst
  {
    AnswerInformed(p, w);
    OtherWithinBurst(p, w, w.queue[0].region.Other(), w.queue[0].timeMs - p.lag + 1, burst);
  }

  lemma StepWithinBurst(p: Setup, w: World, burst: int)
    requires p.Valid() && Inv(p, w) && w.queue != [] && burst >= 0 && BurstsAtMost(p, burst)
    requires w.india.localAccepted + w.us.localAccepted <= p.limit + burst
    ensures var next := Step(p.limit, p.lag, w);
            next.india.localAccepted + next.us.localAccepted <= p.limit + burst
  {
    if w.queue[0].kind.Request? {
      var next := AnswerFields(p, w);
      AskedWithinBurst(p, w, burst);
    }
  }

  lemma {:induction false} RunWithinBurst(p: Setup, w: World, burst: int)
    requires p.Valid() && Inv(p, w) && burst >= 0 && BurstsAtMost(p, burst)
    requires w.india.localAccepted + w.us.localAccepted <= p.limit + burst
    ensures var end := Run(p.limit, p.lag, w);
            end.india.localAccepted + end.us.localAccepted <= p.limit + burst
    decreases Requests(w.queue), |w.queue|
  {
    if w.queue != [] {
      StepKeeps(p, w);
      StepWithinBurst(p, w, burst);
      RunWithinBurst(p, Step(p.limit, p.lag, w), burst);
    }
  }

  lemma RunTotals(p: Setup, w: World, burst: int)
    requires p.Valid() && Inv(p, w) && burst >= 0 && BurstsAtMost(p, burst)
    requires w.india.localAccepted == 0 && w.us.localAccepted == 0
    ensures var end := Run(p.limit, p.lag, w);
            end.india.allowedRequests + end.us.allowedRequests <= p.limit + Min(p.limit, burst)
  {
    RunKeeps(p, w);
    RunWithinBurst(p, w, burst);
    TotalsOf(p, Run(p.limit, p.lag, w), burst);
  }

  /** For any schedule of requests whatever: the total exceeds the limit by no more than one region
    * can receive within one replication lag, and by no more than the limit itself. */
  lemma OversubscriptionOfAnySchedule(p: Setup, burst: int)
    requires p.Valid() && burst >= 0 && BurstsAtMost(p, burst)
    ensures var end := Run(p.limit, p.lag, Start(p.queue));
            end.india.allowedRequests + end.us.allowedRequests <= p.limit + Min(p.limit, burst)
  {
    StartInv(p);
    StartEmpty(p.queue);
    RunTotals(p, Start(p.queue), burst);
  }

  lemma StartEmpty(queue: seq<Event>)
    ensures Start(queue).india.localAccepted == 0 && Start(queue).us.localAccepted == 0
  {
  }

  lemma TotalsOf(p: Setup, end: World, burst: int)
    requires Inv(p, end) && end.india.localAccepted + end.us.localAccepted <= p.limit + burst
    ensures end.india.allowedRequests + end.us.allowedRequests <= p.limit + Min(p.limit, burst)
  {
  }

  predicate Gapped(s: seq<int>, gap: int) {
    |s| <= 1 || (Gapped(s[..|s| - 1], gap) && s[|s| - 2] + gap <= s[|s| - 1])
  }

  lemma {:induction false} GappedWindow(s: seq<int>, gap: int, lo: int, lag: int)
    requires gap > 0 && lag >= 0 && Gapped(s, gap)
    ensures Window(s, lo, lag) <= CeilDiv(lag, gap)
    ensures s != [] && lo <= s[|s| - 1] < lo + lag ==> (Window(s, lo, lag) - 1) * gap <= s[|s| - 1] - lo
    ensures s != [] && s[|s| - 1] < lo ==> Window(s, lo, lag) == 0
  {
    if s == [] {
      CeilDivLeast(lag, gap, 0);
      if CeilDiv(lag, gap) < 0 {
        MulMono(CeilDiv(lag, gap), -1, gap);
      }
    } else {
      var t := s[..|s| - 1];
      var last, n := s[|s| - 1], Window(t, lo, lag);
      GappedWindow(t, gap, lo, lag);
      if lo <= last < lo + lag {
        assert (n + 1 - 1) * gap == (n - 1) * gap + gap;
        if n > CeilDiv(lag, gap) - 1 {
          MulMono(CeilDiv(lag, gap), n, gap);
        }
      }
    }
  }

  function Abs(x: int): int { if x < 0 then -x else x }

  lemma {:induction false} ArrivalsGapped(count: nat, spacing: int)
    ensures Gapped(Arrivals(count, spacing), Abs(spacing))
    decreases count
  {
    if count > 1 {
      if spacing >= 0 {
        ArrivalsGapped(count - 1, spacing);
        assert Arrivals(count, spacing)[..count - 1] == Arrivals(count - 1, spacing);
      } else {
        DescendingGapped(count, count, spacing);
        assert Arrivals(count, spacing)[..count] == Arrivals(count, spacing);
      }
    }
  }

  lemma {:induction false} DescendingGapped(count: nat, n: nat, spacing: int)
    requires n <= count && spacing < 0
    ensures Gapped(Arrivals(count, spacing)[..n], -spacing)
  {
    if n > 1 {
      DescendingGapped(count, n - 1, spacing);
      var s := Arrivals(count, spacing);
      assert s[..n][..n - 1] == s[..n - 1];
      assert s[n - 2] == (count - 1 - (n - 2)) * spacing && s[n - 1] == (count - 1 - (n - 1)) * spacing;
      assert (count - 1 - (n - 1)) * spacing == (count - 1 - (n - 2)) * spacing - spacing;
    }
  }

  /** Oversubscription is at most the smaller of the limit and ceil(lag / spacing). */
  lemma OversubscriptionBound(limit: int, lag: int, indiaRequests: int, usRequests: int, spacing: int)
    requires limit > 0 && lag >= 0 && spacing != 0
    ensures var outcome := Simulation(limit, lag, indiaRequests, usRequests, spacing);
            outcome.Success? && outcome.summary.oversubscription <= Min(limit, CeilDiv(lag, Abs(spacing)))
  {
    var p := SetupOf(limit, lag, indiaRequests, usRequests, spacing);
    var burst := CeilDiv(lag, Abs(spacing));
    InitialSetup(limit, lag, indiaRequests, usRequests, spacing);
    ArrivalsGapped(Sent(indiaRequests), spacing);
    ArrivalsGapped(Sent(usRequests), spacing);
    GappedWindow([], Abs(spacing), 0, lag);
    forall lo ensures Window(p.Schedule(India), lo, lag) <= burst {
      GappedWindow(p.Schedule(India), Abs(spacing), lo, lag);
    }
    forall lo ensures Window(p.Schedule(US), lo, lag) <= burst {
      GappedWindow(p.Schedule(US), Abs(spacing), lo, lag);
    }
    OversubscriptionOfAnySchedule(p, burst);
  }

  // ----- single decisions -----

  lemma {:induction false} EachInformed(limit: int, lag: int, decisions: seq<Decision>, n: nat)
    requires AllInformed(limit, lag, decisions) && n < |decisions|
    ensures Informed(limit, lag, decisions[..n], decisions[n])
  {
    if n < |decisions| - 1 {
      EachInformed(limit, lag, decisions[..|decisions| - 1], n);
      assert decisions[..|decisions| - 1][..n] == decisions[..n];
    }
  }

  /** Every decision reported is correctly informed, up to the blind spot of one lag. */
  lemma DecisionsInformed(limit: int, lag: int, indiaRequests: int, usRequests: int, spacing: int, n: nat)
    requires limit > 0 && lag >= 0
    requires n < |Final(limit, lag, indiaRequests, usRequests, spacing).decisions|
    ensures var decisions := Final(limit, lag, indiaRequests, usRequests, spacing).decisions;
            Informed(limit, lag, decisions[..n], decisions[n])
  {
    FinalInv(limit, lag, indiaRequests, usRequests, spacing);
    EachInformed(limit, lag, Final(limit, lag, indiaRequests, usRequests, spacing).decisions, n);
  }

  /** No region turns a request away while the global quota lasts, so the total gets as far as limit
    * and requests allow. */
  lemma NothingWasted(limit: int, lag: int, indiaRequests: int, usRequests: int, spacing: int)
    requires limit > 0 && lag >= 0
    ensures var end := Final(limit, lag, indiaRequests, usRequests, spacing);
            && (forall n: nat :: n < |end.decisions| && !end.decisions[n].accepted ==>
                  end.decisions[n].actualGlobal >= limit)
            && end.india.allowedRequests + end.us.allowedRequests
               >= Min(limit, Sent(indiaRequests) + Sent(usRequests))
  {
    hide Final, Sent;
    var end := Final(limit, lag, indiaRequests, usRequests, spacing);
    forall n: nat | n < |end.decisions| && !end.decisions[n].accepted
      ensures end.decisions[n].actualGlobal >= limit
    {
      RefusedAtQuota(limit, lag, indiaRequests, usRequests, spacing, n);
    }
    TotalReached(limit, lag, indiaRequests, usRequests, spacing);
  }

  lemma RefusedAtQuota(limit: int, lag: int, indiaRequests: int, usRequests: int, spacing: int, n: nat)
    requires limit > 0 && lag >= 0
    requires n < |Final(limit, lag, indiaRequests, usRequests, spacing).decisions|
    requires !Final(limit, lag, indiaRequests, usRequests, spacing).decisions[n].accepted
    ensures Final(limit, lag, indiaRequests, usRequests, spacing).decisions[n].actualGlobal >= limit
  {
    hide Final, AcceptTimes;
    DecisionsInformed(limit, lag, indiaRequests, usRequests, spacing, n);
  }

  lemma TotalReached(limit: int, lag: int, indiaRequests: int, usRequests: int, spacing: int)
    requires limit > 0 && lag >= 0
    ensures var end := Final(limit, lag, indiaRequests, usRequests, spacing);
            end.india.allowedRequests + end.us.allowedRequests
            >= Min(limit, Sent(indiaRequests) + Sent(usRequests))
  {
    hide Final, AcceptTimes, RequestTimes, AllInformed;
    FinalInv(limit, lag, indiaRequests, usRequests, spacing);
    Conservation(limit, lag, indiaRequests, usRequests, spacing);
  }

  /** Without lag, each decision knows the exact global count, and the limit is met exactly. */
  lemma NoLagNoOversubscription(limit: int, indiaRequests: int, usRequests: int, spacing: int)
    requires limit > 0
    ensures var end := Final(limit, 0, indiaRequests, usRequests, spacing);
            && (forall n: nat :: n < |end.decisions| ==> end.decisions[n].knownGlobal == end.decisions[n].actualGlobal)
            && end.india.allowedRequests + end.us.allowedRequests
               == Min(limit, Sent(indiaRequests) + Sent(usRequests))
  {
    var end := Final(limit, 0, indiaRequests, usRequests, spacing);
    forall n: nat | n < |end.decisions|
      ensures end.decisions[n].knownGlobal == end.decisions[n].actualGlobal
    {
      DecisionsInformed(limit, 0, indiaRequests, usRequests, spacing, n);
      var d := end.decisions[n];
      EmptyWindow(AcceptTimes(end.decisions[..n], d.region.Other()), d.timeMs + 1);
    }
    var p := SetupOf(limit, 0, indiaRequests, usRequests, spacing);
    InitialSetup(limit, 0, indiaRequests, usRequests, spacing);
    forall lo ensures Window(p.Schedule(India), lo, 0) <= 0 && Window(p.Schedule(US), lo, 0) <= 0 {
      EmptyWindow(p.Schedule(India), lo);
      EmptyWindow(p.Schedule(US), lo);
    }
    OversubscriptionOfAnySchedule(p, 0);
    NothingWasted(limit, 0, indiaRequests, usRequests, spacing);
    Conservation(limit, 0, indiaRequests, usRequests, spacing);
  }

  lemma EmptyWindow(s: seq<int>, lo: int)
    ensures Window(s, lo, 0) == 0
  {
    CountInNone(s, lo, lo);
  }

  // ----- the shape of the decisions -----

  function Refused(decisions: seq<Decision>, r: Region): nat {
    if decisions == [] then 0
    else
      var d := decisions[|decisions| - 1];
      Refused(decisions[..|decisions| - 1], r) + (if d.region == r && !d.accepted then 1 else 0)
  }

  /** Nothing is accepted in a region that has refused a request before. */
  ghost predicate Orderly(decisions: seq<Decision>) {
    decisions == [] || (
      var past, d := decisions[..|decisions| - 1], decisions[|decisions| - 1];
      Orderly(past) && (d.accepted ==> Refused(past, d.region) == 0))
  }

  ghost predicate Shaped(w: World) {
    && Orderly(w.decisions)
    && Refused(w.decisions, India) == w.india.blockedRequests
    && Refused(w.decisions, US) == w.us.blockedRequests
  }

  lemma RefusedSnoc(decisions: seq<Decision>, d: Decision, r: Region)
    ensures Refused(decisions + [d], r) == Refused(decisions, r) + (if d.region == r && !d.accepted then 1 else 0)
    ensures Orderly(decisions + [d]) <==> Orderly(decisions) && (d.accepted ==> Refused(decisions, d.region) == 0)
  {
    assert (decisions + [d])[..|decisions|] == decisions;
  }

  lemma StepShaped(p: Setup, w: World)
    requires p.Valid() && Inv(p, w) && Shaped(w) && w.queue != []
    ensures Shaped(Step(p.limit, p.lag, w))
  {
    if w.queue[0].kind.Request? {
      var next := AnswerFields(p, w);
      AnswerShaped(p, w, next);
    }
  }

  lemma AnswerShaped(p: Setup, w: World, next: World)
    requires w.queue != [] && RegionInv(p, w, w.queue[0].region) && Shaped(w)
    requires var (d, r) := (Asked(p, w), w.queue[0].region);
             && next.decisions == w.decisions + [d]
             && next.At(r.Other()) == w.At(r.Other())
             && next.At(r).blockedRequests == w.At(r).blockedRequests + (if d.accepted then 0 else 1)
    ensures Shaped(next)
  {
    RefusedSnoc(w.decisions, Asked(p, w), India);
    RefusedSnoc(w.decisions, Asked(p, w), US);
  }

  lemma {:induction false} RunShaped(p: Setup, w: World)
    requires p.Valid() && Inv(p, w) && Shaped(w)
    ensures Shaped(Run(p.limit, p.lag, w))
    decreases Requests(w.queue), |w.queue|
  {
    if w.queue != [] {
      StepKeeps(p, w);
      StepShaped(p, w);
      RunShaped(p, Step(p.limit, p.lag, w));
    }
  }

  lemma {:induction false} RefusedOnce(decisions: seq<Decision>, i: nat)
    requires i < |decisions| && !decisions[i].accepted
    ensures Refused(decisions, decisions[i].region) > 0
  {
    if i < |decisions| - 1 {
      RefusedOnce(decisions[..|decisions| - 1], i);
    }
  }

  lemma {:induction false} OrderlyPair(decisions: seq<Decision>, i: nat, j: nat)
    requires Orderly(decisions) && i < j < |decisions| && decisions[i].region == decisions[j].region
    ensures decisions[j].accepted ==> decisions[i].accepted
  {
    var past := decisions[..|decisions| - 1];
    if j < |decisions| - 1 {
      OrderlyPair(past, i, j);
    } else if !decisions[i].accepted {
      RefusedOnce(past, i);
    }
  }

  /** Each region's decisions are accepts, followed by nothing but refusals. */
  lemma AcceptsThenRefusals(limit: int, lag: int, indiaRequests: int, usRequests: int, spacing: int, i: nat, j: nat)
    requires limit > 0 && lag >= 0
    requires var decisions := Final(limit, lag, indiaRequests, usRequests, spacing).decisions;
             i < j < |decisions| && decisions[i].region == decisions[j].region
    ensures var decisions := Final(limit, lag, indiaRequests, usRequests, spacing).decisions;
            decisions[j].accepted ==> decisions[i].accepted
  {
    FinalOrderly(limit, lag, indiaRequests, usRequests, spacing);
    OrderlyPair(Final(limit, lag, indiaRequests, usRequests, spacing).decisions, i, j);
  }

  lemma FinalOrderly(limit: int, lag: int, indiaRequests: int, usRequests: int, spacing: int)
    requires limit > 0 && lag >= 0
    ensures Orderly(Final(limit, lag, indiaRequests, usRequests, spacing).decisions)
  {
    var p := SetupOf(limit, lag, indiaRequests, usRequests, spacing);
    InitialSetup(limit, lag, indiaRequests, usRequests, spacing);
    RunOrderly(p);
  }

  lemma RunOrderly(p: Setup)
    requires p.Valid()
    ensures Orderly(Run(p.limit, p.lag, Start(p.queue)).decisions)
  {
    StartInv(p);
    StartShaped(p.queue);
    RunShaped(p, Start(p.queue));
  }

  lemma StartShaped(queue: seq<Event>)
    ensures Shaped(Start(queue))
  {
  }
}
