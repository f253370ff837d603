/** The evaluation loop of RateLimiter, undisturbed, is a run of the interleaved steps of
  * Distributed: so what holds of all runs holds of the loop. */
module EvaluateRuns {
  import opened Arith
  import opened Limiters
  import opened Keyed
  import opened Fallback
  import opened RedisScripts
  import opened ScriptRuns
  import opened RateLimiter
  import opened Distributed

  /** The script runs among the attempts come in Redis order, with fresh members. */
  predicate Timely(last: int, members: set<int>, attempts: seq<Attempt>)
    decreases |attempts|
  {
    attempts == [] || (
      match attempts[0]
      case NeverRan => Timely(last, members, attempts[1..])
      case Ran(nowMs, member, _, _) =>
        last <= nowMs && member !in members && Timely(nowMs, members + {member}, attempts[1..]))
  }

  ghost predicate Ready(p: Params, w: World, id: int, attempts: seq<Attempt>) {
    && id in w.flights && w.flights[id].failed + |attempts| == Max(1, p.retryAttempts + 1)
    && Timely(LastTime(CallsOf(w.evals)), Members(w.evals), attempts)
  }

  /** What a finished evaluation leaves, as the method states it. */
  ghost predicate Finished(p: Params, w: World, id: int, attempts: seq<Attempt>, clockMs: int, end: World)
    requires p.Valid() && id in w.flights && w.flights[id].instance < |w.stores|
  {
    var f := w.flights[id];
    var tried := TryAll(w.space, p.configs(f.key), f.key, attempts);
    var recovered := Recover(p.fallback, p.ttlMs, w.stores[f.instance], p.PolicyOf(f.key), f.key, clockMs);
    && end.space == tried.0
    && end.stores == (if tried.1.Some? then w.stores else w.stores[f.instance := recovered.0])
    && end.flights == w.flights - {id}
    && |end.responses| == |w.responses| + 1 && end.responses[..|w.responses|] == w.responses
    && var r := end.responses[|w.responses|];
       r.id == id && r.key == f.key && r.decision == (if tried.1.Some? then tried.1.value else recovered.1)
  }

  lemma OneTry(p: Params, w: World, id: int, attempts: seq<Attempt>)
    requires p.Valid() && attempts != [] && Ready(p, w, id, attempts)
    ensures Enabled(p, w, Try(id, attempts[0]))
    ensures var (f, next) := (w.flights[id], TryNext(p, w, id, attempts[0]));
            var (space, decision) := RateLimiter.RunPolicy(w.space, p.configs(f.key), f.key, attempts[0]);
            && next.space == space && next.stores == w.stores && next.local == w.local
            && (if decision.Some? then
                  && next.flights == w.flights - {id}
                  && exists r: Response :: r.id == id && r.key == f.key && r.decision == decision.value
                       && next.responses == w.responses + [r]
                else
                  && next.responses == w.responses
                  && next.flights == w.flights[id := f.(failed := f.failed + 1)]
                  && Ready(p, next, id, attempts[1..]))
  {
    hide RunScript, LetsIn, Purge;
    var (f, a) := (w.flights[id], attempts[0]);
    var next := TryNext(p, w, id, a);
    if a.Ran? {
      EvalsSnoc(p.configs, w.evals, EvalOf(f.key, a));
    }
    if RateLimiter.RunPolicy(w.space, p.configs(f.key), f.key, a).1.Some? {
      var r := next.responses[|w.responses|];
      assert next.responses == w.responses + [r];
    }
  }

  /** From any point of any run, a request whose steps are taken without interruption ends as the
    * evaluation loop says. */
  lemma {:induction false} EvaluateIsARun(p: Params, steps: seq<Step>, id: int, attempts: seq<Attempt>, clockMs: int)
    returns (run: seq<Step>)
    requires p.Valid() && Legal(p, steps) && Ready(p, WorldAfter(p, steps), id, attempts)
    requires var w := WorldAfter(p, steps);
             && w.flights[id].instance < |w.stores| == |w.local|
             && LastTime(w.local[w.flights[id].instance]) <= clockMs
    ensures Legal(p, run) && Finished(p, WorldAfter(p, steps), id, attempts, clockMs, WorldAfter(p, run))
    decreases |attempts|
  {
    hide RateLimiter.RunPolicy, Recover, LetsIn, Timely, TryNext;
    var w := WorldAfter(p, steps);
    if attempts == [] {
      run := steps + [Recovery(id, clockMs)];
      RunSnoc(p, steps, Recovery(id, clockMs));
    } else {
      OneTry(p, w, id, attempts);
      run := steps + [Try(id, attempts[0])];
      RunSnoc(p, steps, Try(id, attempts[0]));
      var next := WorldAfter(p, run);
      if id in next.flights {
        run := EvaluateIsARun(p, run, id, attempts[1..], clockMs);
        FlightGone(w.flights, id, next.flights[id]);
      }
    }
  }

  lemma FlightGone(flights: map<int, Flight>, id: int, f: Flight)
    ensures flights[id := f] - {id} == flights - {id}
  {
  }
}
