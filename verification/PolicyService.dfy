/** The policy service as an object: the table, the Redis entry and the instance's snapshot, which
  * its methods update in place (app/services/policy_service.py). What the network does to each
  * Redis command, and the clock at each point, are parameters. */
module PolicyService {
  import opened Arith
  import opened Policies
  import opened PolicyMatcher
  import opened PolicyAdmin
  import opened PolicyCache
  import opened PolicyCacheRuns
  import opened KeyBuilder

  class PolicyTable {
    var rows: Rows

    constructor ()
      ensures rows == map[]
    {
      rows := map[];
    }
  }

  class PolicyRedis {
    var entry: Option<CacheEntry>

    constructor ()
      ensures entry == None
    {
      entry := None;
    }
  }

  /** What becomes of one load: the two Redis commands, and the clock at each step. */
  datatype LoadLuck = LoadLuck(onGet: Outcome, onSet: Outcome, getMs: int, checkMs: int, setMs: int, keepMs: int)

  /** The entry that GET sees: Redis returns none that has expired. */
  function Visible(entry: Option<CacheEntry>, nowMs: int): Option<CacheEntry> {
    if entry.Some? && nowMs <= entry.value.expiresAtMs then entry else None
  }

  /** What a load returns, and the entry and snapshot it leaves. */
  function Loaded(
    active: PolicyList, entry: Option<CacheEntry>, snapshot: Option<Snapshot>, cacheTtlMs: int, localTtlMs: int,
    luck: LoadLuck): (PolicyList, Option<CacheEntry>, Option<Snapshot>)
  {
    if !luck.onGet.Executed? then
      var local := Fresh(snapshot, localTtlMs, luck.checkMs);
      if local.Some? then (local.value, entry, snapshot)
      else (active, entry, Some(Snapshot(active, luck.keepMs)))
    else
      var hit := Visible(entry, luck.getMs);
      if hit.Some? then (hit.value.policies, entry, Some(Snapshot(hit.value.policies, luck.keepMs)))
      else
        (active,
         if luck.onSet.NotExecuted? then entry else Some(CacheEntry(active, luck.setMs + cacheTtlMs)),
         Some(Snapshot(active, luck.keepMs)))
  }

  class PolicyService {
    const table: PolicyTable
    const redis: PolicyRedis
    const snapshots: PolicySnapshotStore
    const cacheTtlSeconds: int
    const localTtlSeconds: int

    constructor (table: PolicyTable, redis: PolicyRedis, snapshots: PolicySnapshotStore,
                 cacheTtlSeconds: int, localTtlSeconds: int)
      ensures this.table == table && this.redis == redis && this.snapshots == snapshots
      ensures this.cacheTtlSeconds == cacheTtlSeconds && this.localTtlSeconds == localTtlSeconds
    {
      this.table, this.redis, this.snapshots := table, redis, snapshots;
      this.cacheTtlSeconds, this.localTtlSeconds := cacheTtlSeconds, localTtlSeconds;
    }

    /** `active` is what the database query returns, if it is made. */
    method ListActivePoliciesCached(active: PolicyList, luck: LoadLuck) returns (policies: PolicyList)
      modifies redis, snapshots
      ensures (policies, redis.entry, snapshots.snapshot) ==
              Loaded(active, old(redis.entry), old(snapshots.snapshot), cacheTtlSeconds * 1000,
                     localTtlSeconds * 1000, luck)
    {
      if !luck.onGet.Executed? {
        var local := snapshots.GetFresh(localTtlSeconds, luck.checkMs);
        if local.Some? {
          return local.value;
        }
        snapshots.Set(active, luck.keepMs);
        return active;
      }
      var payload := Visible(redis.entry, luck.getMs);
      if payload.Some? {
        policies := payload.value.policies;
        snapshots.Set(policies, luck.keepMs);
        return;
      }
      policies := active;
      if !luck.onSet.NotExecuted? {
        redis.entry := Some(CacheEntry(active, luck.setMs + cacheTtlSeconds * 1000));
      }
      snapshots.Set(active, luck.keepMs);
    }

    method ResolvePolicy(active: PolicyList, luck: LoadLuck, i: RequestIdentity) returns (policy: Option<PolicyRead>)
      modifies redis, snapshots
      ensures policy == SelectBestPolicy(Loaded(active, old(redis.entry), old(snapshots.snapshot),
                                                cacheTtlSeconds * 1000, localTtlSeconds * 1000, luck).0, i)
      ensures (redis.entry, snapshots.snapshot) ==
              var loaded := Loaded(active, old(redis.entry), old(snapshots.snapshot), cacheTtlSeconds * 1000,
                                   localTtlSeconds * 1000, luck);
              (loaded.1, loaded.2)
    {
      var policies := ListActivePoliciesCached(active, luck);
      policy := SelectBestPolicy(policies, i);
    }

    /** The own snapshot is cleared whatever happens to the Redis command. */
    method InvalidatePolicyCache(delete: Outcome)
      modifies redis, snapshots
      ensures snapshots.snapshot == None
      ensures redis.entry == if delete.NotExecuted? then old(redis.entry) else None
    {
      snapshots.Clear();
      if !delete.NotExecuted? {
        redis.entry := None;
      }
    }

    method Create(freshId: string, payload: Payload, delete: Outcome) returns (result: AdminResult)
      requires ValidPayload(payload)
      modifies table, redis, snapshots
      ensures (table.rows, result) == CreatePolicy(old(table.rows), freshId, payload)
      ensures result.Done? ==> snapshots.snapshot == None
      ensures result.Done? ==> redis.entry == if delete.NotExecuted? then old(redis.entry) else None
      ensures result.Failed? ==> snapshots.snapshot == old(snapshots.snapshot) && redis.entry == old(redis.entry)
    {
      if !NameFree(table.rows, payload.name, freshId) {
        return Failed(NameTaken);
      }
      var row := PolicyRead(freshId, 1, payload);
      table.rows := table.rows[freshId := row];
      InvalidatePolicyCache(delete);
      result := Done(row);
    }

    /** The columns that differ from what was read, and the next version number, are written; in a
      * session of its own the row is still the one read. */
    method SetFields(read: PolicyRead, next: Payload, delete: Outcome) returns (result: AdminResult)
      requires read.id in table.rows && table.rows[read.id] == read
      modifies table, redis, snapshots
      ensures (table.rows, result) == CommitChange(old(table.rows), read, next)
      ensures result.Done? ==> snapshots.snapshot == None
      ensures result.Done? ==> redis.entry == if delete.NotExecuted? then old(redis.entry) else None
      ensures result.Failed? ==> snapshots.snapshot == old(snapshots.snapshot) && redis.entry == old(redis.entry)
    {
      FlushedAlone(read.payload, next);
      if !NameFree(table.rows, next.name, read.id) {
        return Failed(NameTaken);
      }
      var row := PolicyRead(read.id, read.version + 1, next);
      table.rows := table.rows[read.id := row];
      InvalidatePolicyCache(delete);
      result := Done(row);
    }

    method Update(id: string, change: PolicyUpdate, delete: Outcome) returns (result: AdminResult)
      requires id in table.rows ==> table.rows[id].id == id
      modifies table, redis, snapshots
      ensures (table.rows, result) == UpdatePolicy(old(table.rows), id, change)
      ensures snapshots.snapshot == if table.rows != old(table.rows) then None else old(snapshots.snapshot)
      ensures redis.entry ==
              if table.rows != old(table.rows) && !delete.NotExecuted? then None else old(redis.entry)
    {
      if id !in table.rows {
        return Failed(NotFound);
      }
      var policy := table.rows[id];
      if change == NoChange {
        return Done(policy);
      }
      if !Accepted(policy.payload, change) {
        return Failed(Invalid);
      }
      result := SetFields(policy, Merged(policy.payload, change), delete);
    }

    method Delete(id: string, delete: Outcome) returns (result: AdminResult)
      modifies table, redis, snapshots
      ensures (table.rows, result) == DeletePolicy(old(table.rows), id)
      ensures snapshots.snapshot == if table.rows != old(table.rows) then None else old(snapshots.snapshot)
      ensures redis.entry ==
              if table.rows != old(table.rows) && !delete.NotExecuted? then None else old(redis.entry)
    {
      if id !in table.rows {
        return Failed(NotFound);
      }
      table.rows := table.rows - {id};
      InvalidatePolicyCache(delete);
      result := Deleted;
    }

    /** `freshId` is the id that a new row would get. */
    method UpsertByName(freshId: string, payload: Payload, delete: Outcome) returns (result: AdminResult)
      requires ValidPayload(payload) && freshId !in table.rows
      requires forall id :: id in table.rows ==> table.rows[id].id == id
      modifies table, redis, snapshots
      ensures exists id :: (if Named(old(table.rows), payload.name) == {} then id == freshId
                            else id in Named(old(table.rows), payload.name))
                && (table.rows, result) == Effect(old(table.rows), Upsert(id, payload))
      ensures snapshots.snapshot == if table.rows != old(table.rows) then None else old(snapshots.snapshot)
      ensures redis.entry ==
              if table.rows != old(table.rows) && !delete.NotExecuted? then None else old(redis.entry)
    {
      var named := Named(table.rows, payload.name);
      if named == {} {
        result := Create(freshId, payload, delete);
        assert (table.rows, result) == Effect(old(table.rows), Upsert(freshId, payload));
        return;
      }
      var id :| id in named;
      if table.rows[id].payload == payload {
        result := Done(table.rows[id]);
      } else {
        result := SetFields(table.rows[id], payload, delete);
      }
      assert (table.rows, result) == Effect(old(table.rows), Upsert(id, payload));
    }
  }

  // ----- the method and the protocol -----

  /** A load that missed, and one that follows it: while the entry has not expired and Redis answers, or
    * else while the snapshot is fresh, it returns the list that the first one read; after that, the
    * table as it is then. */
  lemma LoadedAgain(
    active: PolicyList, entry: Option<CacheEntry>, snapshot: Option<Snapshot>, cacheTtlMs: int, localTtlMs: int,
    first: LoadLuck, active': PolicyList, luck: LoadLuck)
    requires first.onGet.Executed? && !first.onSet.NotExecuted?
    requires entry.Some? ==> entry.value.expiresAtMs < first.getMs
    ensures var (policies, entry', snapshot') := Loaded(active, entry, snapshot, cacheTtlMs, localTtlMs, first);
            && policies == active
            && Loaded(active', entry', snapshot', cacheTtlMs, localTtlMs, luck).0 ==
               if (if luck.onGet.Executed? then luck.getMs <= first.setMs + cacheTtlMs
                   else luck.checkMs <= first.keepMs + localTtlMs)
               then active else active'
  {
  }

  predicate InTime(p: Params, w: World, luck: LoadLuck) {
    && w.nowMs <= luck.getMs <= luck.checkMs <= luck.keepMs <= luck.getMs + p.loadMs
    && luck.getMs <= luck.setMs <= luck.keepMs
  }

  ghost predicate LoadEnds(
    p: Params, w: World, load: int, instance: nat, luck: LoadLuck, end: World)
    requires w.table != []
  {
    var (policies, entry, snapshot) :=
      Loaded(w.table[|w.table| - 1].policies, w.cache, InstanceSnapshot(w, instance), p.cacheTtlMs, p.localTtlMs, luck);
    && end.table == w.table && end.cache == entry && InstanceSnapshot(end, instance) == snapshot
    && |end.returned| == |w.returned| + 1 && end.returned[..|w.returned|] == w.returned
    && end.returned[|w.returned|].load == load && end.returned[|w.returned|].policies == policies
  }

  /** The world w, except that the load has come to `phase` and the Redis entry is `cache`. */
  ghost predicate At(
    next: World, w: World, load: int, instance: nat, luck: LoadLuck, cache: Option<CacheEntry>, phase: Phase)
  {
    && next.table == w.table && next.snapshots == w.snapshots && next.returned == w.returned
    && next.cache == cache
    && load in next.loads && next.loads[load] == Load(instance, luck.getMs, phase)
  }

  lemma Ask(p: Params, start: World, steps: seq<PolicyCache.Step>, load: int, instance: nat, luck: LoadLuck)
    returns (run: seq<PolicyCache.Step>, phase: Phase)
    requires Legal(p, start, steps)
    requires var w := After(p, start, steps);
             && w.table != [] && load !in w.loads && InTime(p, w, luck) && w.cache == Visible(w.cache, luck.getMs)
    ensures Legal(p, start, run) && After(p, start, run).nowMs == luck.getMs
    ensures var w := After(p, start, steps);
            && At(After(p, start, run), w, load, instance, luck, w.cache, phase)
            && phase == (if !luck.onGet.Executed? then Unreachable
                         else if w.cache.Some? then Keeping(w.cache.value.policies) else Reading(true))
  {
    var w := After(p, start, steps);
    run := Do(p, start, steps, luck.getMs, Start(load, instance));
    run := Do(p, start, run, luck.getMs, GetEntry(load, luck.onGet));
    phase := After(p, start, run).loads[load].phase;
  }

  lemma Finish(
    p: Params, start: World, steps: seq<PolicyCache.Step>, w: World, load: int, instance: nat, luck: LoadLuck,
    cache: Option<CacheEntry>, policies: PolicyList) returns (run: seq<PolicyCache.Step>)
    requires Legal(p, start, steps) && w.table != [] && InTime(p, w, luck)
    requires After(p, start, steps).nowMs <= luck.keepMs
    requires At(After(p, start, steps), w, load, instance, luck, cache, Keeping(policies))
    ensures Legal(p, start, run)
    ensures var end := After(p, start, run);
            && end.table == w.table && end.cache == cache
            && InstanceSnapshot(end, instance) == Some(Snapshot(policies, luck.keepMs))
            && end.returned == w.returned + [Returned(load, luck.keepMs, policies)]
  {
    run := Do(p, start, steps, luck.keepMs, Keep(load));
  }

  lemma QueryStep(
    p: Params, start: World, steps: seq<PolicyCache.Step>, w: World, load: int, instance: nat, luck: LoadLuck,
    toStore: bool, nowMs: int) returns (run: seq<PolicyCache.Step>)
    requires Legal(p, start, steps) && w.table != [] && InTime(p, w, luck)
    requires After(p, start, steps).nowMs <= nowMs <= luck.keepMs
    requires At(After(p, start, steps), w, load, instance, luck, w.cache, Reading(toStore))
    ensures Legal(p, start, run) && After(p, start, run).nowMs == nowMs
    ensures var policies := w.table[|w.table| - 1].policies;
            At(After(p, start, run), w, load, instance, luck, w.cache,
               if toStore then Storing(policies) else Keeping(policies))
  {
    run := Do(p, start, steps, nowMs, Query(load));
  }

  lemma StoreStep(
    p: Params, start: World, steps: seq<PolicyCache.Step>, w: World, load: int, instance: nat, luck: LoadLuck,
    policies: PolicyList) returns (run: seq<PolicyCache.Step>)
    requires Legal(p, start, steps) && w.table != [] && InTime(p, w, luck)
    requires After(p, start, steps).nowMs == luck.setMs
    requires At(After(p, start, steps), w, load, instance, luck, w.cache, Storing(policies))
    ensures Legal(p, start, run) && After(p, start, run).nowMs == luck.setMs
    ensures At(After(p, start, run), w, load, instance, luck,
               if luck.onSet.NotExecuted? then w.cache else Some(CacheEntry(policies, luck.setMs + p.cacheTtlMs)),
               Keeping(policies))
  {
    run := Do(p, start, steps, luck.setMs, SetEntry(load, luck.onSet));
  }

  lemma CheckStep(
    p: Params, start: World, steps: seq<PolicyCache.Step>, w: World, load: int, instance: nat, luck: LoadLuck)
    returns (run: seq<PolicyCache.Step>)
    requires Legal(p, start, steps) && w.table != [] && InTime(p, w, luck)
    requires After(p, start, steps).nowMs == luck.getMs
    requires At(After(p, start, steps), w, load, instance, luck, w.cache, Unreachable)
    ensures Legal(p, start, run) && After(p, start, run).nowMs == luck.checkMs
    ensures var local := Fresh(InstanceSnapshot(w, instance), p.localTtlMs, luck.checkMs);
            var end := After(p, start, run);
            if local.Some? then
              && end.table == w.table && end.cache == w.cache && end.snapshots == w.snapshots
              && end.returned == w.returned + [Returned(load, luck.checkMs, local.value)]
            else At(end, w, load, instance, luck, w.cache, Reading(false))
  {
    run := Do(p, start, steps, luck.checkMs, CheckSnapshot(load));
  }

  /** An undisturbed load, as the method does it, is a run of the protocol's steps. */
  lemma LoadIsARun(p: Params, start: World, steps: seq<PolicyCache.Step>, load: int, instance: nat, luck: LoadLuck)
    returns (run: seq<PolicyCache.Step>)
    requires Legal(p, start, steps)
    requires var w := After(p, start, steps);
             && w.table != [] && load !in w.loads && InTime(p, w, luck)
             && w.cache == Visible(w.cache, luck.getMs)   // Redis drops what has expired
    ensures Legal(p, start, run)
    ensures LoadEnds(p, After(p, start, steps), load, instance, luck, After(p, start, run))
  {
    hide After, Legal, At;
    var w := After(p, start, steps);
    var policies := w.table[|w.table| - 1].policies;
    var phase: Phase;
    run, phase := Ask(p, start, steps, load, instance, luck);
    if !luck.onGet.Executed? {
      run := CheckStep(p, start, run, w, load, instance, luck);
      if Fresh(InstanceSnapshot(w, instance), p.localTtlMs, luck.checkMs).None? {
        run := QueryStep(p, start, run, w, load, instance, luck, false, luck.keepMs);
        run := Finish(p, start, run, w, load, instance, luck, w.cache, policies);
      }
    } else if w.cache.Some? {
      run := Finish(p, start, run, w, load, instance, luck, w.cache, w.cache.value.policies);
    } else {
      run := QueryStep(p, start, run, w, load, instance, luck, true, luck.setMs);
      run := StoreStep(p, start, run, w, load, instance, luck, policies);
      var cache := if luck.onSet.NotExecuted? then w.cache else Some(CacheEntry(policies, luck.setMs + p.cacheTtlMs));
      run := Finish(p, start, run, w, load, instance, luck, cache, policies);
    }
  }

  // ----- caches and versions together -----

  /** The table in the cache protocol only ever shows policies that administration stored. */
  ghost predicate ShowsStored(table: seq<Commit>, stored: set<PolicyRead>) {
    forall k, p :: 0 <= k < |table| && p in table[k].policies ==> p in stored
  }

  /** However stale the lists that two requests are answered from, on whichever instances: two
    * policies in them that give the requests the same Redis key are one version of one policy. */
  lemma StaleListsAgree(
    p: Params, nowMs: int, policies: PolicyList, steps: seq<PolicyCache.Step>, ops: seq<Op>, a: Returned, b: Returned,
    x: PolicyRead, i: RequestIdentity, y: PolicyRead, j: RequestIdentity)
    requires Legal(p, Initial(nowMs, policies), steps) && Serialised(ops)
    requires var w := After(p, Initial(nowMs, policies), steps);
             a in w.returned && b in w.returned && ShowsStored(w.table, AdminAfter(ops).stored)
    requires x in a.policies && y in b.policies && RateLimitKey(x, i) == RateLimitKey(y, j)
    ensures x == y && ConfigOf(x.payload).Valid()
  {
    hide RateLimitKey, Staleness;
    ReturnedAreStored(p, nowMs, policies, steps, AdminAfter(ops).stored, a, x);
    ReturnedAreStored(p, nowMs, policies, steps, AdminAfter(ops).stored, b, y);
    OneKeyOneLimit(ops, x, i, y, j);
  }

  lemma ReturnedAreStored(
    p: Params, nowMs: int, policies: PolicyList, steps: seq<PolicyCache.Step>, stored: set<PolicyRead>, a: Returned,
    x: PolicyRead)
    requires Legal(p, Initial(nowMs, policies), steps)
    requires var w := After(p, Initial(nowMs, policies), steps); a in w.returned && ShowsStored(w.table, stored)
    requires x in a.policies
    ensures x in stored
  {
    hide Staleness, After, Legal;
    var w := After(p, Initial(nowMs, policies), steps);
    BoundedStaleness(p, nowMs, policies, steps, a);
    var t :| a.nowMs - Staleness(p) <= t <= a.nowMs && PolicyCacheRuns.HeldAt(w.table, a.policies, t);
    var k :| 0 <= k < |w.table| && Holds(w.table, k, a.policies, t);
    assert x in w.table[k].policies;
  }
}
