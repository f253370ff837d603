/** What becomes of each request in a run of Distributed: one answer, a bounded number of script
  * runs; and the runs that show what the limits of DistributedRuns cannot exclude. */
module DistributedRequests {
  import opened Arith
  import opened Limiters
  import opened FixedWindowRuns
  import opened Keyed
  import opened Fallback
  import opened FallbackRuns
  import opened RedisScripts
  import opened ScriptRuns
  import opened RateLimiter
  import opened Distributed
  import opened DistributedRuns

  // ----- answers and attempts -----

  /** How many attempts were made for request id. */
  function TriesOf(steps: seq<Step>, id: int): nat {
    if steps == [] then 0
    else
      var step := steps[|steps| - 1];
      TriesOf(steps[..|steps| - 1], id) + (if step.Try? && step.id == id then 1 else 0)
  }

  function Arrivals(steps: seq<Step>): nat {
    if steps == [] then 0
    else Arrivals(steps[..|steps| - 1]) + (if steps[|steps| - 1].Arrive? then 1 else 0)
  }

  function AnswersTo(responses: seq<Response>, id: int): nat {
    if responses == [] then 0
    else AnswersTo(responses[..|responses| - 1], id) + (if responses[|responses| - 1].id == id then 1 else 0)
  }

  /** All answers to request id that did not come from Redis. */
  function Recoveries(responses: seq<Response>, id: int): nat {
    if responses == [] then 0
    else
      var r := responses[|responses| - 1];
      Recoveries(responses[..|responses| - 1], id) + (if r.id == id && !r.source.FromRedis? then 1 else 0)
  }

  lemma AnswersSnoc(responses: seq<Response>, r: Response, id: int)
    ensures AnswersTo(responses + [r], id) == AnswersTo(responses, id) + (if r.id == id then 1 else 0)
    ensures Recoveries(responses + [r], id) ==
            Recoveries(responses, id) + (if r.id == id && !r.source.FromRedis? then 1 else 0)
  {
    assert (responses + [r])[..|responses|] == responses;
  }

  lemma {:induction false} NoAnswers(responses: seq<Response>, id: int)
    requires forall r :: r in responses ==> r.id != id
    ensures AnswersTo(responses, id) == 0 && Recoveries(responses, id) == 0
  {
    if responses != [] {
      var before := responses[..|responses| - 1];
      forall r | r in before ensures r.id != id {
        var i :| 0 <= i < |before| && before[i] == r;
        assert responses[i] in responses;
      }
      assert responses[|responses| - 1] in responses;
      NoAnswers(before, id);
    }
  }

  /** On its way, a request has no answer yet and has failed as often as it was tried; once
    * answered, it has one answer, from Redis after at most max(1, retries + 1) attempts, or from
    * elsewhere after exactly that many. */
  ghost predicate Followed(p: Params, w: World, tries: nat, id: int) {
    var (answers, max) := (AnswersTo(w.responses, id), Max(1, p.retryAttempts + 1));
    && answers <= 1 && Recoveries(w.responses, id) <= answers && tries <= max
    && (id in w.flights ==> answers == 0 && w.flights[id].failed == tries)
    && (id !in w.flights && answers == 0 ==> tries == 0)
    && (answers == 1 ==> tries >= 1)
    && (Recoveries(w.responses, id) == 1 ==> tries == max)
  }

  lemma ArriveFollowed(p: Params, w: World, tries: nat, step: Step, id: int)
    requires p.Valid() && step.Arrive? && Enabled(p, w, step) && Followed(p, w, tries, id)
    ensures Followed(p, StepNext(p, w, step), tries, id)
  {
    if step.id == id {
      NoAnswers(w.responses, id);
    }
  }

  lemma TryFollowed(p: Params, w: World, tries: nat, other: int, a: Attempt, id: int)
    requires p.Valid() && Enabled(p, w, Try(other, a)) && Followed(p, w, tries, id)
    ensures Followed(p, TryNext(p, w, other, a), tries + (if other == id then 1 else 0), id)
  {
    hide RateLimiter.RunPolicy, LetsIn, AnswersTo, Recoveries, EvalOf, CallsOf, Members;
    var next := TryNext(p, w, other, a);
    if next.responses != w.responses {
      AnswersSnoc(w.responses, next.responses[|w.responses|], id);
    }
  }

  lemma RecoveryFollowed(p: Params, w: World, tries: nat, other: int, clockMs: int, id: int)
    requires p.Valid() && Enabled(p, w, Recovery(other, clockMs)) && Followed(p, w, tries, id)
    ensures Followed(p, RecoveryNext(p, w, other, clockMs), tries, id)
  {
    hide Recover;
    var next := RecoveryNext(p, w, other, clockMs);
    AnswersSnoc(w.responses, next.responses[|w.responses|], id);
  }

  /** Over every run, each request is answered at most once, takes at most max(1, retries + 1) script
    * attempts, and is handed to the fallback or the failure mode only after all of them failed. */
  lemma {:induction false} OneAnswer(p: Params, steps: seq<Step>, id: int)
    requires p.Valid() && Legal(p, steps)
    ensures Followed(p, WorldAfter(p, steps), TriesOf(steps, id), id)
  {
    hide TryNext, RecoveryNext, Followed;
    if steps == [] {
      StartFollowed(p, id);
    } else {
      var (before, step) := (steps[..|steps| - 1], steps[|steps| - 1]);
      OneAnswer(p, before, id);
      var (w, tries) := (WorldAfter(p, before), TriesOf(before, id));
      match step {
        case Arrive(_, _, _) => ArriveFollowed(p, w, tries, step, id);
        case Try(other, attempt) => TryFollowed(p, w, tries, other, attempt, id);
        case Recovery(other, clockMs) => RecoveryFollowed(p, w, tries, other, clockMs, id);
      }
    }
  }

  lemma StartFollowed(p: Params, id: int)
    ensures Followed(p, Initial(p), 0, id)
  {
  }

  lemma FlightRemoved(flights: map<int, Flight>, id: int)
    requires id in flights
    ensures |flights - {id}| == |flights| - 1
  {
    assert (flights - {id}).Keys == flights.Keys - {id};
  }

  lemma FlightSet(flights: map<int, Flight>, id: int, f: Flight)
    ensures |flights[id := f]| == |flights| + (if id in flights then 0 else 1)
  {
    assert flights[id := f].Keys == flights.Keys + {id};
  }

  /** Arrivals aside, a step turns a request on its way into an answer, or leaves their numbers. */
  lemma StepAccounted(p: Params, w: World, step: Step)
    requires p.Valid() && Enabled(p, w, step)
    ensures var next := StepNext(p, w, step);
            |next.responses| + |next.flights| ==
            |w.responses| + |w.flights| + (if step.Arrive? then 1 else 0)
  {
    hide RateLimiter.RunPolicy, Recover, LetsIn;
    match step {
      case Arrive(id, instance, key) => FlightSet(w.flights, id, Flight(instance, key, 0));
      case Try(id, _) =>
        FlightRemoved(w.flights, id);
        FlightSet(w.flights, id, w.flights[id].(failed := w.flights[id].failed + 1));
      case Recovery(id, _) => FlightRemoved(w.flights, id);
    }
  }

  /** No request gets lost: each that arrived is answered or on its way. */
  lemma {:induction false} AllAccountedFor(p: Params, steps: seq<Step>)
    requires p.Valid() && Legal(p, steps)
    ensures var w := WorldAfter(p, steps);
            Arrivals(steps) == |w.responses| + |w.flights|
  {
    hide StepNext;
    if steps != [] {
      AllAccountedFor(p, steps[..|steps| - 1]);
      StepAccounted(p, WorldAfter(p, steps[..|steps| - 1]), steps[|steps| - 1]);
    }
  }

  // ----- one request at a time -----

  /** Nobody on the way, and every id and set member so far below n. */
  ghost predicate Quiet(w: World, n: int) {
    && w.flights == map[]
    && (forall r :: r in w.responses ==> r.id < n)
    && (forall m :: m in Members(w.evals) ==> m < n)
  }

  /** A request that never gets through to Redis, from its arrival to its last failed attempt. */
  lemma {:induction false} FailedTries(p: Params, steps: seq<Step>, id: int, instance: nat, key: string, k: nat)
    returns (run: seq<Step>)
    requires p.Valid() && Legal(p, steps) && Enabled(p, WorldAfter(p, steps), Arrive(id, instance, key))
    requires k <= MaxAttempts(p.retryAttempts)
    ensures Legal(p, run)
    ensures var w := WorldAfter(p, steps);
            WorldAfter(p, run) == w.(flights := w.flights[id := Flight(instance, key, k)])
  {
    if k == 0 {
      run := steps + [Arrive(id, instance, key)];
      RunSnoc(p, steps, Arrive(id, instance, key));
    } else {
      var earlier := FailedTries(p, steps, id, instance, key, k - 1);
      RunSnoc(p, earlier, Try(id, NeverRan));
      run := earlier + [Try(id, NeverRan)];
      FlightAgain(WorldAfter(p, steps).flights, id, Flight(instance, key, k - 1), Flight(instance, key, k));
    }
  }

  lemma FlightAgain(flights: map<int, Flight>, id: int, f: Flight, g: Flight)
    ensures flights[id := f][id := g] == flights[id := g]
  {
  }

  lemma Landed(id: int, f: Flight)
    ensures map[][id := f] - {id} == map[]
  {
  }

  /** A request that finds Redis out of reach. */
  lemma Outage(p: Params, steps: seq<Step>, n: int, instance: nat, key: string, clockMs: int)
    returns (run: seq<Step>)
    requires p.Valid() && Legal(p, steps) && Quiet(WorldAfter(p, steps), n) && instance < p.instances
    requires |WorldAfter(p, steps).local| == p.instances && LastTime(WorldAfter(p, steps).local[instance]) <= clockMs
    ensures Legal(p, run) && Quiet(WorldAfter(p, run), n + 1)
    ensures var (w, w') := (WorldAfter(p, steps), WorldAfter(p, run));
            && w'.evals == w.evals && w'.lost == w.lost
            && w'.local ==
               (if p.fallback then w.local[instance := w.local[instance] + [Call(key, clockMs)]] else w.local)
            && |w'.responses| == |w.responses| + 1
            && var r := w'.responses[|w.responses|];
               && w'.responses == w.responses + [r] && r.key == key && r.nowMs == clockMs
               && (!p.fallback ==> r.decision.allowed == p.failOpen(key))
  {
    hide Apply, RunScript, Members;
    var w := WorldAfter(p, steps);
    RunLogged(p, steps);
    var tried := FailedTries(p, steps, n, instance, key, MaxAttempts(p.retryAttempts));
    run := tried + [Recovery(n, clockMs)];
    RunSnoc(p, tried, Recovery(n, clockMs));
    Landed(n, Flight(instance, key, MaxAttempts(p.retryAttempts)));
  }

  /** An attempt whose reply arrives ends the request, with an answer of its own. */
  lemma DeliveredLands(p: Params, w: World, id: int, a: Attempt)
    requires p.Valid() && RedisLogged(p, w) && Enabled(p, w, Try(id, a)) && a.Ran? && a.delivered
    ensures var next := TryNext(p, w, id, a);
            && next.flights == w.flights - {id} && next.local == w.local && next.lost == w.lost
            && next.evals == w.evals + [EvalOf(w.flights[id].key, a)]
            && |next.responses| == |w.responses| + 1
            && next.responses == w.responses + [next.responses[|w.responses|]]
            && next.responses[|w.responses|].id == id
  {
    hide RunScript, Admits, Purge, LetsIn, Decide, ReplyOf, ParseCommonDecision, RedisLogged, RateLimiter.RunPolicy;
    TryDecides(p, w, id, a);
  }

  /** A request whose first attempt is answered. */
  lemma Served(p: Params, steps: seq<Step>, n: int, instance: nat, key: string, nowMs: int)
    returns (run: seq<Step>)
    requires p.Valid() && Legal(p, steps) && Quiet(WorldAfter(p, steps), n) && instance < p.instances
    requires LastTime(CallsOf(WorldAfter(p, steps).evals)) <= nowMs
    ensures Legal(p, run) && Quiet(WorldAfter(p, run), n + 1)
    ensures var (w, w') := (WorldAfter(p, steps), WorldAfter(p, run));
            w'.evals == w.evals + [Eval(Call(key, nowMs), n, {})] && w'.lost == w.lost && w'.local == w.local
  {
    hide TryNext, RedisLogged, StoreLogged, Members, CallsOf, Realistic, LastTime, WorldAfter, Legal;
    var w := WorldAfter(p, steps);
    var a := Ran(nowMs, n, {}, true);
    var arrived := steps + [Arrive(n, instance, key)];
    Arrived(p, steps, n, instance, key);
    run := arrived + [Try(n, a)];
    RunSnoc(p, arrived, Try(n, a));
    RunLogged(p, arrived);
    DeliveredLands(p, WorldAfter(p, arrived), n, a);
    EvalsSnoc(p.configs, w.evals, EvalOf(key, a));
    Landed(n, Flight(instance, key, 0));
  }

  lemma Arrived(p: Params, steps: seq<Step>, n: int, instance: nat, key: string)
    requires p.Valid() && Legal(p, steps) && Quiet(WorldAfter(p, steps), n) && instance < p.instances
    ensures Legal(p, steps + [Arrive(n, instance, key)])
    ensures var w := WorldAfter(p, steps);
            WorldAfter(p, steps + [Arrive(n, instance, key)]) ==
            w.(flights := map[][n := Flight(instance, key, 0)])
  {
    hide RedisLogged, StoreLogged, Members;
    RunLogged(p, steps);
    RunSnoc(p, steps, Arrive(n, instance, key));
  }

  // ----- failing open -----

  lemma AllowedAtSnoc(responses: seq<Response>, r: Response, key: string, lo: int, hi: int)
    ensures AllowedAt(responses + [r], key, lo, hi) ==
            AllowedAt(responses, key, lo, hi)
            + (if r.key == key && r.decision.allowed && lo <= r.nowMs < hi then 1 else 0)
  {
    assert (responses + [r])[..|responses|] == responses;
  }

  /** Failing open without the fallback has no limit: any number of requests of one key can be let
    * in within one millisecond, without a single script run. */
  lemma {:induction false} FailOpenUnlimited(p: Params, key: string, n: nat, now: int) returns (steps: seq<Step>)
    requires p.Valid() && !p.fallback && p.failOpen(key) && p.instances > 0 && now >= 0
    ensures Legal(p, steps) && Quiet(WorldAfter(p, steps), n)
    ensures AllowedAt(WorldAfter(p, steps).responses, key, now, now + 1) == n
    ensures WorldAfter(p, steps).evals == []
    ensures WorldAfter(p, steps).local == seq(p.instances, _ => [])
  {
    hide TryNext, RecoveryNext;
    steps := [];
    if n > 0 {
      var before := FailOpenUnlimited(p, key, n - 1, now);
      var w := WorldAfter(p, before);
      steps := Outage(p, before, n - 1, 0, key, now);
      AllowedAtSnoc(w.responses, WorldAfter(p, steps).responses[|w.responses|], key, now, now + 1);
    }
  }

  // ----- the limit with the fallback is reached -----

  /** All calls so far are at `now`, k of them. */
  ghost predicate Burst(calls: seq<Call>, key: string, now: int, k: nat) {
    TimesOf(calls, key) == Copies(now, k) && (calls != [] ==> calls[|calls| - 1].nowMs == now)
  }

  lemma BurstSnoc(calls: seq<Call>, key: string, now: int, k: nat)
    requires Burst(calls, key, now, k)
    ensures Burst(calls + [Call(key, now)], key, now, k + 1)
  {
    TimesOfSnoc(calls, Call(key, now), key);
    assert Copies(now, k) + [now] == Copies(now, k + 1);
  }

  /** k requests served by Redis at instant `now`. */
  lemma {:induction false} ServedBurst(p: Params, key: string, now: int, k: nat) returns (steps: seq<Step>)
    requires p.Valid() && p.instances > 0 && now >= 0
    ensures Legal(p, steps) && Quiet(WorldAfter(p, steps), k)
    ensures var w := WorldAfter(p, steps);
            && Burst(CallsOf(w.evals), key, now, k) && w.lost == []
            && w.local == seq(p.instances, _ => [])
  {
    hide TryNext, RecoveryNext;
    steps := [];
    if k > 0 {
      var before := ServedBurst(p, key, now, k - 1);
      var w := WorldAfter(p, before);
      steps := Served(p, before, k - 1, 0, key, now);
      EvalsSnoc(p.configs, w.evals, Eval(Call(key, now), k - 1, {}));
      BurstSnoc(CallsOf(w.evals), key, now, k - 1);
    }
  }

  /** k requests more at instance i, all finding Redis out of reach. */
  lemma {:induction false} OutageBurst(p: Params, before: seq<Step>, n: nat, i: nat, key: string, now: int, k: nat)
    returns (steps: seq<Step>)
    requires p.Valid() && p.fallback && i < p.instances && now >= 0 && Legal(p, before)
    requires Quiet(WorldAfter(p, before), n) && |WorldAfter(p, before).local| == p.instances
    requires WorldAfter(p, before).local[i] == []
    ensures Legal(p, steps) && Quiet(WorldAfter(p, steps), n + k)
    ensures var (w, w') := (WorldAfter(p, before), WorldAfter(p, steps));
            && w'.evals == w.evals && w'.lost == w.lost && |w'.local| == p.instances
            && Burst(w'.local[i], key, now, k)
            && forall j :: 0 <= j < p.instances && j != i ==> w'.local[j] == w.local[j]
  {
    hide TryNext, RecoveryNext;
    steps := before;
    if k > 0 {
      var earlier := OutageBurst(p, before, n, i, key, now, k - 1);
      steps := Outage(p, earlier, n + k - 1, i, key, now);
      BurstSnoc(WorldAfter(p, earlier).local[i], key, now, k - 1);
    }
  }

  /** k requests at each of the first i instances, after k that Redis served. */
  lemma {:induction false} OutageEverywhere(p: Params, key: string, now: int, k: nat, i: nat) returns (steps: seq<Step>)
    requires p.Valid() && p.fallback && 0 < p.instances && i <= p.instances && now >= 0
    ensures Legal(p, steps) && exists n: nat :: Quiet(WorldAfter(p, steps), n)
    ensures var w := WorldAfter(p, steps);
            && Burst(CallsOf(w.evals), key, now, k) && w.lost == [] && |w.local| == p.instances
            && (forall j :: 0 <= j < i ==> Burst(w.local[j], key, now, k))
            && (forall j :: i <= j < p.instances ==> w.local[j] == [])
    decreases i
  {
    hide TryNext, RecoveryNext, Burst;
    if i == 0 {
      steps := ServedBurst(p, key, now, k);
    } else {
      var before := OutageEverywhere(p, key, now, k, i - 1);
      var n: nat :| Quiet(WorldAfter(p, before), n);
      steps := OutageBurst(p, before, n, i - 1, key, now, k);
    }
  }

  lemma BurstAdmitted(c: Config, calls: seq<Call>, key: string, start: int)
    requires c.Valid() && c.FixedWindowConfig? && Aligned(c, start) && Burst(calls, key, start, c.limit)
    ensures CountIn(Admitted(c, TimesOf(calls, key)), start, start + c.WindowMs()) == c.limit
  {
    hide CountIn, Admitted, NonDecreasing, Aligned, Copies;
    SortedCopies(start, c.limit);
    AdmittedPerWindow(c, Copies(start, c.limit), start);
    CountCopies(start, c.limit, start, start + c.WindowMs());
  }

  lemma SortedCopies(x: int, n: nat)
    ensures NonDecreasing(Copies(x, n))
  {
    assert Copies(x, n) + Copies(x, 0) == Copies(x, n);
    CopiesInOrder(x, n, x, 0);
  }

  lemma {:induction false} LocalsFull(p: Params, steps: seq<Step>, key: string, start: int, i: nat)
    requires p.Valid() && Legal(p, steps) && i <= p.instances && |WorldAfter(p, steps).local| == p.instances
    requires var c := p.configs(key); c.FixedWindowConfig? && Aligned(c, start)
    requires forall j :: 0 <= j < i ==> Burst(WorldAfter(p, steps).local[j], key, start, p.configs(key).limit)
    ensures var c := p.configs(key);
            LocalSum(WorldAfter(p, steps).responses, key, i, start, start + c.WindowMs()) == i * c.limit
    decreases i
  {
    hide Burst, CountIn, AllowedBy, Admitted, Legal, StepNext, Aligned, TimesOf, LetInBy;
    if i > 0 {
      var c := p.configs(key);
      LocalsFull(p, steps, key, start, i - 1);
      LocalLetIn(p, steps, i - 1, key, start, start + c.WindowMs());
      BurstAdmitted(c, WorldAfter(p, steps).local[i - 1], key, start);
      Successor(i - 1, c.limit);
    }
  }

  /** The limit of WindowLimit cannot be improved: for every fixed window policy and number of
    * instances there is a run that lets in (instances + 1) * limit requests in one window. */
  lemma FallbackLimitReached(p: Params, key: string, start: int) returns (steps: seq<Step>)
    requires p.Valid() && p.fallback && p.instances > 0 && start >= 0
    requires p.configs(key).FixedWindowConfig? && Aligned(p.configs(key), start)
    ensures Legal(p, steps)
    ensures var c := p.configs(key);
            AllowedAt(WorldAfter(p, steps).responses, key, start, start + c.WindowMs()) == (p.instances + 1) * c.limit
  {
    hide TryNext, RecoveryNext, Burst, Quiet;
    steps := OutageEverywhere(p, key, start, p.configs(key).limit, p.instances);
    FullEverywhere(p, steps, key, start);
  }

  lemma FullEverywhere(p: Params, steps: seq<Step>, key: string, start: int)
    requires p.Valid() && p.fallback && Legal(p, steps)
    requires var c := p.configs(key); c.FixedWindowConfig? && Aligned(c, start)
    requires var (w, k) := (WorldAfter(p, steps), p.configs(key).limit);
             && Burst(CallsOf(w.evals), key, start, k) && w.lost == [] && |w.local| == p.instances
             && forall j :: 0 <= j < p.instances ==> Burst(w.local[j], key, start, k)
    ensures var c := p.configs(key);
            AllowedAt(WorldAfter(p, steps).responses, key, start, start + c.WindowMs()) == (p.instances + 1) * c.limit
  {
    hide Burst, AllowedAt, LocalSum, CountIn, AllowedBy, WorldAfter, Legal, AllSourced, Admitted, Aligned;
    var (c, w) := (p.configs(key), WorldAfter(p, steps));
    var (lo, hi) := (start, start + c.WindowMs());
    EverySourced(p, steps);
    BySource(p, w.responses, key, lo, hi);
    LocalsFull(p, steps, key, start, p.instances);
    NothingLetInTwice(p, steps, key, lo, hi);
    BurstAdmitted(c, CallsOf(w.evals), key, start);
    CountInNone(TimesOf([], key), lo, hi);
    Successor(p.instances, c.limit);
  }

  lemma Successor(n: int, m: int)
    ensures (n + 1) * m == n * m + m
  {
  }
}
