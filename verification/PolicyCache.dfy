/** The policy caches: one Redis entry for all instances and one snapshot in each, both with a time
  * to live (app/services/policy_cache.py, app/services/policy_service.py, app/main.py). A load is a
  * chain of steps between which anything else may happen. Times are milliseconds of one clock. */
module PolicyCache {
  import opened Arith
  import opened Policies

  type PolicyList = seq<PolicyRead>

  // ----- the snapshot of an instance -----

  datatype Snapshot = Snapshot(policies: PolicyList, loadedAtMs: int)

  /** What `get_fresh` returns: the snapshot's policies while its age is within the time to live. */
  function Fresh(snapshot: Option<Snapshot>, ttlMs: int, nowMs: int): Option<PolicyList> {
    if snapshot.None? || nowMs - snapshot.value.loadedAtMs > ttlMs then None else Some(snapshot.value.policies)
  }

  class PolicySnapshotStore {
    var snapshot: Option<Snapshot>

    constructor ()
      ensures snapshot == None
    {
      snapshot := None;
    }

    method Set(policies: PolicyList, nowMs: int)
      modifies this
      ensures snapshot == Some(Snapshot(policies, nowMs))
    {
      snapshot := Some(Snapshot(policies, nowMs));
    }

    method GetFresh(ttlSeconds: int, nowMs: int) returns (policies: Option<PolicyList>)
      ensures policies == Fresh(snapshot, ttlSeconds * 1000, nowMs)
    {
      if snapshot.None? {
        return None;
      }
      var ageMs := nowMs - snapshot.value.loadedAtMs;
      if ageMs > ttlSeconds * 1000 {
        return None;
      }
      policies := Some(snapshot.value.policies);
    }

    method Clear()
      modifies this
      ensures snapshot == None
    {
      snapshot := None;
    }
  }

  // ----- the protocol -----

  datatype Params = Params(cacheTtlMs: nat, localTtlMs: nat, loadMs: nat)

  /** One version of the table: its active policies, from a moment on. */
  datatype Commit = Commit(nowMs: int, policies: PolicyList)

  datatype CacheEntry = CacheEntry(policies: PolicyList, expiresAtMs: int)

  /** A list on its way through a load. */
  datatype Phase =
    | Asking                        // about to read the Redis entry
    | Unreachable                   // Redis failed; about to look at the snapshot
    | Reading(toStore: bool)        // about to query the database
    | Storing(policies: PolicyList) // about to write the Redis entry
    | Keeping(policies: PolicyList) // about to set the snapshot and return

  datatype Load = Load(instance: nat, startedMs: int, phase: Phase)

  datatype Returned = Returned(load: int, nowMs: int, policies: PolicyList)

  datatype World = World(
    nowMs: int,
    table: seq<Commit>,
    cache: Option<CacheEntry>,
    snapshots: map<nat, Snapshot>,
    loads: map<int, Load>,
    returned: seq<Returned>)

  /** How a Redis command ends: not executed, executed with the reply lost, or executed. */
  datatype Outcome = NotExecuted | ReplyLost | Executed

  datatype Event =
    | Start(load: int, instance: nat)
    | GetEntry(load: int, outcome: Outcome)
    | CheckSnapshot(load: int)
    | Query(load: int)
    | SetEntry(load: int, outcome: Outcome)
    | Keep(load: int)
    | CommitTable(policies: PolicyList)
    | DeleteEntry                   // an invalidation that got through
    | ExpireEntry
    | ClearSnapshot(instance: nat)  // own invalidation, or a pubsub message that got through

  datatype Step = Step(nowMs: int, event: Event)

  function InstanceSnapshot(w: World, i: nat): Option<Snapshot> {
    if i in w.snapshots then Some(w.snapshots[i]) else None
  }

  predicate InPhase(p: Params, w: World, step: Step, load: int) {
    load in w.loads && step.nowMs <= w.loads[load].startedMs + p.loadMs
  }

  /** The clock does not go back, and a load is through within `loadMs`. Redis may drop the entry
    * from its expiry on, and does not return it later than that. */
  predicate Enabled(p: Params, w: World, step: Step) {
    && w.nowMs <= step.nowMs && w.table != []
    && match step.event
       case Start(load, _) => load !in w.loads
       case GetEntry(load, outcome) =>
         && InPhase(p, w, step, load) && w.loads[load].phase.Asking?
         && (outcome.Executed? && w.cache.Some? ==> step.nowMs <= w.cache.value.expiresAtMs)
       case CheckSnapshot(load) => InPhase(p, w, step, load) && w.loads[load].phase.Unreachable?
       case Query(load) => InPhase(p, w, step, load) && w.loads[load].phase.Reading?
       case SetEntry(load, _) => InPhase(p, w, step, load) && w.loads[load].phase.Storing?
       case Keep(load) => InPhase(p, w, step, load) && w.loads[load].phase.Keeping?
       case CommitTable(_) => true
       case DeleteEntry => true
       case ExpireEntry => w.cache.Some? && w.cache.value.expiresAtMs <= step.nowMs
       case ClearSnapshot(_) => true
  }

  function To(w: World, load: int, phase: Phase): map<int, Load>
    requires load in w.loads
  {
    w.loads[load := w.loads[load].(phase := phase)]
  }

  function Return(w: World, load: int, nowMs: int, policies: PolicyList): World {
    w.(loads := w.loads - {load}, returned := w.returned + [Returned(load, nowMs, policies)])
  }

  function Next(p: Params, w: World, step: Step): (next: World)
    requires Enabled(p, w, step)
  {
    var now := w.(nowMs := step.nowMs);
    match step.event
    case Start(load, instance) => now.(loads := w.loads[load := Load(instance, step.nowMs, Asking)])
    case GetEntry(load, outcome) =>
      if !outcome.Executed? then now.(loads := To(w, load, Unreachable))
      else if w.cache.Some? then now.(loads := To(w, load, Keeping(w.cache.value.policies)))
      else now.(loads := To(w, load, Reading(true)))
    case CheckSnapshot(load) =>
      var local := Fresh(InstanceSnapshot(w, w.loads[load].instance), p.localTtlMs, step.nowMs);
      if local.Some? then Return(now, load, step.nowMs, local.value)
      else now.(loads := To(w, load, Reading(false)))
    case Query(load) =>
      var policies := w.table[|w.table| - 1].policies;
      now.(loads := To(w, load, if w.loads[load].phase.toStore then Storing(policies) else Keeping(policies)))
    case SetEntry(load, outcome) =>
      var policies := w.loads[load].phase.policies;
      now.(cache := if outcome.NotExecuted? then w.cache else Some(CacheEntry(policies, step.nowMs + p.cacheTtlMs)),
           loads := To(w, load, Keeping(policies)))
    case Keep(load) =>
      var policies := w.loads[load].phase.policies;
      Return(now.(snapshots := w.snapshots[w.loads[load].instance := Snapshot(policies, step.nowMs)]),
             load, step.nowMs, policies)
    case CommitTable(policies) => now.(table := w.table + [Commit(step.nowMs, policies)])
    case DeleteEntry => now.(cache := None)
    case ExpireEntry => now.(cache := None)
    case ClearSnapshot(instance) => now.(snapshots := w.snapshots - {instance})
  }

  function Initial(nowMs: int, policies: PolicyList): World {
    World(nowMs, [Commit(nowMs, policies)], None, map[], map[], [])
  }

  ghost predicate Legal(p: Params, start: World, steps: seq<Step>)
    decreases |steps|, 0
  {
    steps == [] || (
      Legal(p, start, steps[..|steps| - 1])
      && Enabled(p, After(p, start, steps[..|steps| - 1]), steps[|steps| - 1]))
  }

  ghost function After(p: Params, start: World, steps: seq<Step>): World
    requires Legal(p, start, steps)
    decreases |steps|, 1
  {
    if steps == [] then start else Next(p, After(p, start, steps[..|steps| - 1]), steps[|steps| - 1])
  }

  lemma RunSnoc(p: Params, start: World, steps: seq<Step>, step: Step)
    ensures Legal(p, start, steps + [step]) <==>
            Legal(p, start, steps) && Enabled(p, After(p, start, steps), step)
    ensures Legal(p, start, steps + [step]) ==>
              After(p, start, steps + [step]) == Next(p, After(p, start, steps), step)
  {
    assert (steps + [step])[..|steps|] == steps;
  }
}
