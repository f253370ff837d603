/** Many instances evaluating requests against one Redis: a request at a time makes one attempt, in
  * any interleaving with all others; attempts fail before they run, or run and lose their reply. */
module Distributed {
  import opened Arith
  import opened Limiters
  import opened Keyed
  import opened Fallback
  import opened FallbackRuns
  import opened RedisScripts
  import opened ScriptRuns
  import opened RateLimiter

  datatype Params = Params(
    configs: Configs,            // a key belongs to one policy version
    failOpen: string -> bool,
    instances: nat,
    retryAttempts: int,
    fallback: bool,
    ttlMs: nat)
  {
    ghost predicate Valid() { AllValid(configs) }

    function PolicyOf(key: string): Policy { Policy(configs(key), failOpen(key)) }
  }

  /** A request on its way: where, for which key, and how many attempts have failed. */
  datatype Flight = Flight(instance: nat, key: string, failed: nat)

  datatype Source = FromRedis | FromLocal(instance: nat) | FromPolicy

  datatype Response = Response(id: int, key: string, nowMs: int, source: Source, decision: RateLimitDecision)

  /** The servers, the requests, and what has happened so far. */
  datatype World = World(
    space: Keyspace,
    stores: seq<Store>,          // one for each instance
    flights: map<int, Flight>,
    responses: seq<Response>,
    evals: seq<Eval>,            // every script evaluation
    lost: seq<Call>,             // those that let a request in that never heard of it
    local: seq<seq<Call>>)       // the calls of each instance's in-memory limiter

  datatype Step =
    | Arrive(id: int, instance: nat, key: string)
    | Try(id: int, attempt: Attempt)
    | Recovery(id: int, clockMs: int)

  function Initial(p: Params): World {
    World(map[], seq(p.instances, _ => EmptyStore), map[], [], [], [], seq(p.instances, _ => []))
  }

  function LastTime(calls: seq<Call>): int {
    if calls == [] then 0 else calls[|calls| - 1].nowMs
  }

  predicate Enabled(p: Params, w: World, step: Step) {
    match step
    case Arrive(id, instance, key) =>
      && id !in w.flights && (forall r :: r in w.responses ==> r.id != id)
      && instance < p.instances && |w.stores| == |w.local| == p.instances
    case Try(id, attempt) =>
      && id in w.flights && w.flights[id].failed < MaxAttempts(p.retryAttempts)
      && (attempt.Ran? ==>
            // Redis has one clock that does not go back, and members are fresh
            LastTime(CallsOf(w.evals)) <= attempt.nowMs && attempt.member !in Members(w.evals))
    case Recovery(id, clockMs) =>
      && id in w.flights && w.flights[id].failed == MaxAttempts(p.retryAttempts)
      && w.flights[id].instance < |w.stores| == |w.local|
      && LastTime(w.local[w.flights[id].instance]) <= clockMs
  }

  function EvalOf(key: string, a: Attempt): Eval
    requires a.Ran?
  {
    Eval(Call(key, a.nowMs), a.member, a.victims)
  }

  /** Whether the script lets the request in, whether or not anybody hears of it. */
  predicate LetsIn(space: Keyspace, c: Config, e: Eval)
    requires c.Valid()
  {
    var reply := RunScript(Purge(space, e.victims, e.call.nowMs), c, e.call.key, e.member, e.call.nowMs).1;
    reply.Reply? && reply.allowed
  }

  function TryNext(p: Params, w: World, id: int, a: Attempt): (next: World)
    requires AllValid(p.configs) && id in w.flights
  {
    var f := w.flights[id];
    var c := p.configs(f.key);
    var (space, decision) := RateLimiter.RunPolicy(w.space, c, f.key, a);
    var ran := w.(space := space, evals := if a.Ran? then w.evals + [EvalOf(f.key, a)] else w.evals);
    if decision.Some? then
      ran.(flights := w.flights - {id},
           responses := w.responses + [Response(id, f.key, a.nowMs, FromRedis, decision.value)])
    else
      ran.(flights := w.flights[id := f.(failed := f.failed + 1)],
           lost := if a.Ran? && LetsIn(w.space, c, EvalOf(f.key, a)) then w.lost + [Call(f.key, a.nowMs)] else w.lost)
  }

  function RecoveryNext(p: Params, w: World, id: int, clockMs: int): (next: World)
    requires AllValid(p.configs) && id in w.flights && w.flights[id].instance < |w.stores| == |w.local|
  {
    var f := w.flights[id];
    var (store, decision) := Recover(p.fallback, p.ttlMs, w.stores[f.instance], p.PolicyOf(f.key), f.key, clockMs);
    var source := if p.fallback then FromLocal(f.instance) else FromPolicy;
    w.(stores := w.stores[f.instance := store],
       local := if p.fallback then w.local[f.instance := w.local[f.instance] + [Call(f.key, clockMs)]] else w.local,
       flights := w.flights - {id},
       responses := w.responses + [Response(id, f.key, clockMs, source, decision)])
  }

  function StepNext(p: Params, w: World, step: Step): (next: World)
    requires AllValid(p.configs) && Enabled(p, w, step)
  {
    match step
    case Arrive(id, instance, key) => w.(flights := w.flights[id := Flight(instance, key, 0)])
    case Try(id, attempt) => TryNext(p, w, id, attempt)
    case Recovery(id, clockMs) => RecoveryNext(p, w, id, clockMs)
  }

  ghost predicate Legal(p: Params, steps: seq<Step>)
    requires p.Valid()
    decreases |steps|, 0
  {
    steps == [] || (
      var before := steps[..|steps| - 1];
      Legal(p, before) && Enabled(p, WorldAfter(p, before), steps[|steps| - 1]))
  }

  /** The world after a run. */
  ghost function WorldAfter(p: Params, steps: seq<Step>): (w: World)
    requires p.Valid() && Legal(p, steps)
    decreases |steps|, 1
  {
    if steps == [] then Initial(p)
    else StepNext(p, WorldAfter(p, steps[..|steps| - 1]), steps[|steps| - 1])
  }

  lemma RunSnoc(p: Params, steps: seq<Step>, step: Step)
    requires p.Valid()
    ensures Legal(p, steps + [step]) <==> Legal(p, steps) && Enabled(p, WorldAfter(p, steps), step)
    ensures Legal(p, steps + [step]) ==>
              WorldAfter(p, steps + [step]) == StepNext(p, WorldAfter(p, steps), step)
  {
    assert (steps + [step])[..|steps|] == steps;
  }
}
