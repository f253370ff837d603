/** How old a policy list can be when it is used, over every run of PolicyCache. */
module PolicyCacheRuns {
  import opened Arith
  import opened Policies
  import opened PolicyCache

  /** At instant t the table held this list. */
  ghost predicate HeldAt(table: seq<Commit>, policies: PolicyList, t: int) {
    exists k :: 0 <= k < |table| && Holds(table, k, policies, t)
  }

  predicate Holds(table: seq<Commit>, k: nat, policies: PolicyList, t: int)
    requires k < |table|
  {
    && table[k].policies == policies && table[k].nowMs <= t
    && (k + 1 < |table| ==> t <= table[k + 1].nowMs)
  }

  /** The list was in the table at some moment not before `since` and not after `until`. */
  ghost predicate FromTable(table: seq<Commit>, policies: PolicyList, since: int, until: int) {
    exists t :: since <= t <= until && HeldAt(table, policies, t)
  }

  /** The longest a returned list can lag behind the table. */
  function Staleness(p: Params): nat { p.cacheTtlMs + p.localTtlMs + 2 * p.loadMs }

  ghost predicate CacheOk(p: Params, w: World) {
    w.cache.Some? ==>
      FromTable(w.table, w.cache.value.policies, w.cache.value.expiresAtMs - p.cacheTtlMs - p.loadMs, w.nowMs)
  }

  ghost predicate SnapshotOk(p: Params, w: World, i: nat)
    requires i in w.snapshots
  {
    var s := w.snapshots[i];
    FromTable(w.table, s.policies, s.loadedAtMs - p.cacheTtlMs - 2 * p.loadMs, w.nowMs)
  }

  /** A list on its way is as fresh as its source allows, counted from the start of the load. */
  ghost predicate LoadOk(p: Params, w: World, load: int)
    requires load in w.loads
  {
    var l := w.loads[load];
    && l.startedMs <= w.nowMs
    && (l.phase.Storing? ==> FromTable(w.table, l.phase.policies, l.startedMs, w.nowMs))
    && (l.phase.Keeping? ==>
          FromTable(w.table, l.phase.policies, l.startedMs - p.cacheTtlMs - p.loadMs, w.nowMs))
  }

  ghost predicate ReturnOk(p: Params, w: World, r: Returned) {
    r.nowMs <= w.nowMs && FromTable(w.table, r.policies, r.nowMs - Staleness(p), r.nowMs)
  }

  ghost predicate Inv(p: Params, w: World) {
    && w.table != [] && w.table[|w.table| - 1].nowMs <= w.nowMs
    && CacheOk(p, w)
    && (forall i :: i in w.snapshots ==> SnapshotOk(p, w, i))
    && (forall load :: load in w.loads ==> LoadOk(p, w, load))
    && (forall r :: r in w.returned ==> ReturnOk(p, w, r))
  }

  // ----- what was in the table stays so -----

  lemma HeldStays(table: seq<Commit>, policies: PolicyList, t: int, next: Commit)
    requires HeldAt(table, policies, t) && t <= next.nowMs
    ensures HeldAt(table + [next], policies, t)
  {
    var k :| 0 <= k < |table| && Holds(table, k, policies, t);
    assert Holds(table + [next], k, policies, t);
  }

  lemma Wider(table: seq<Commit>, policies: PolicyList, since: int, until: int, since': int, until': int)
    requires FromTable(table, policies, since, until) && since' <= since && until <= until'
    ensures FromTable(table, policies, since', until')
  {
    var t :| since <= t <= until && HeldAt(table, policies, t);
    assert since' <= t <= until' && HeldAt(table, policies, t);
  }

  lemma Stays(table: seq<Commit>, policies: PolicyList, since: int, until: int, until': int, next: Commit)
    requires FromTable(table, policies, since, until) && until <= until' && until <= next.nowMs
    ensures FromTable(table + [next], policies, since, until')
    ensures FromTable(table, policies, since, until')
  {
    var t :| since <= t <= until && HeldAt(table, policies, t);
    HeldStays(table, policies, t, next);
  }

  lemma CurrentHeld(table: seq<Commit>, t: int)
    requires table != [] && table[|table| - 1].nowMs <= t
    ensures HeldAt(table, table[|table| - 1].policies, t)
    ensures FromTable(table, table[|table| - 1].policies, t, t)
  {
    assert Holds(table, |table| - 1, table[|table| - 1].policies, t);
  }

  /** Time passes, and the table may change: everything held so far stays accounted for. */
  lemma Later(p: Params, w: World, next: World)
    requires Inv(p, w) && w.nowMs <= next.nowMs
    requires next.table == w.table
             || (|next.table| == |w.table| + 1 && next.table == w.table + [next.table[|w.table|]]
                 && next.table[|w.table|].nowMs == next.nowMs)
    requires next.cache == w.cache && next.snapshots == w.snapshots && next.loads == w.loads
             && next.returned == w.returned
    ensures Inv(p, next)
  {
    hide FromTable;
    var c := Commit(next.nowMs, []);
    var last := if next.table == w.table then c else next.table[|w.table|];
    if w.cache.Some? {
      Stays(w.table, w.cache.value.policies, w.cache.value.expiresAtMs - p.cacheTtlMs - p.loadMs, w.nowMs,
            next.nowMs, last);
    }
    forall i | i in next.snapshots ensures SnapshotOk(p, next, i) {
      assert SnapshotOk(p, w, i);
      Stays(w.table, w.snapshots[i].policies, w.snapshots[i].loadedAtMs - p.cacheTtlMs - 2 * p.loadMs, w.nowMs,
            next.nowMs, last);
    }
    forall load | load in next.loads ensures LoadOk(p, next, load) {
      LoadLater(p, w, next, load, last);
    }
    forall r | r in next.returned ensures ReturnOk(p, next, r) {
      assert ReturnOk(p, w, r);
      Stays(w.table, r.policies, r.nowMs - Staleness(p), r.nowMs, r.nowMs, last);
    }
  }

  lemma LoadLater(p: Params, w: World, next: World, load: int, last: Commit)
    requires Inv(p, w) && w.nowMs <= next.nowMs && next.loads == w.loads && load in w.loads
    requires next.table == w.table || next.table == w.table + [last]
    requires last.nowMs == next.nowMs
    ensures LoadOk(p, next, load)
  {
    hide FromTable;
    assert LoadOk(p, w, load);
    var l := w.loads[load];
    if l.phase.Storing? {
      Stays(w.table, l.phase.policies, l.startedMs, w.nowMs, next.nowMs, last);
    } else if l.phase.Keeping? {
      Stays(w.table, l.phase.policies, l.startedMs - p.cacheTtlMs - p.loadMs, w.nowMs, next.nowMs, last);
    }
  }

  // ----- each step, once time has passed -----

  /** A load moves on to a phase that is in order. */
  lemma LoadMoves(p: Params, w: World, load: int, l: Load)
    requires Inv(p, w) && LoadOk(p, w.(loads := w.loads[load := l]), load)
    ensures Inv(p, w.(loads := w.loads[load := l]))
  {
    hide FromTable;
    var next := w.(loads := w.loads[load := l]);
    forall k | k in next.loads ensures LoadOk(p, next, k) {
      if k != load {
        assert LoadOk(p, w, k);
      }
    }
    forall i | i in next.snapshots ensures SnapshotOk(p, next, i) {
      assert SnapshotOk(p, w, i);
    }
    forall r | r in next.returned ensures ReturnOk(p, next, r) {
      assert ReturnOk(p, w, r);
    }
  }

  lemma LoadReturns(p: Params, w: World, load: int, policies: PolicyList)
    requires Inv(p, w) && ReturnOk(p, w, Returned(load, w.nowMs, policies))
    ensures Inv(p, Return(w, load, w.nowMs, policies))
  {
    hide FromTable;
    var next := Return(w, load, w.nowMs, policies);
    forall k | k in next.loads ensures LoadOk(p, next, k) {
      assert LoadOk(p, w, k);
    }
    forall i | i in next.snapshots ensures SnapshotOk(p, next, i) {
      assert SnapshotOk(p, w, i);
    }
    forall r | r in next.returned ensures ReturnOk(p, next, r) {
      assert r in w.returned ==> ReturnOk(p, w, r);
    }
  }

  lemma CacheChanges(p: Params, w: World, cache: Option<CacheEntry>)
    requires Inv(p, w) && CacheOk(p, w.(cache := cache))
    ensures Inv(p, w.(cache := cache))
  {
    hide FromTable;
    var next := w.(cache := cache);
    forall k | k in next.loads ensures LoadOk(p, next, k) {
      assert LoadOk(p, w, k);
    }
    forall i | i in next.snapshots ensures SnapshotOk(p, next, i) {
      assert SnapshotOk(p, w, i);
    }
    forall r | r in next.returned ensures ReturnOk(p, next, r) {
      assert ReturnOk(p, w, r);
    }
  }

  lemma SnapshotsChange(p: Params, w: World, snapshots: map<nat, Snapshot>)
    requires Inv(p, w)
    requires forall i :: i in snapshots ==> SnapshotOk(p, w.(snapshots := snapshots), i)
    ensures Inv(p, w.(snapshots := snapshots))
  {
    hide FromTable;
    var next := w.(snapshots := snapshots);
    forall k | k in next.loads ensures LoadOk(p, next, k) {
      assert LoadOk(p, w, k);
    }
    forall r | r in next.returned ensures ReturnOk(p, next, r) {
      assert ReturnOk(p, w, r);
    }
  }

  lemma GetKeeps(p: Params, w: World, nowMs: int, load: int, outcome: Outcome)
    requires Inv(p, w) && w.nowMs == nowMs && Enabled(p, w, Step(nowMs, GetEntry(load, outcome)))
    ensures Inv(p, Next(p, w, Step(nowMs, GetEntry(load, outcome))))
  {
    hide FromTable, Inv;
    var l := w.loads[load];
    Started(p, w, load);
    if outcome.Executed? && w.cache.Some? {
      var entry := w.cache.value;
      CacheHeld(p, w);
      Wider(w.table, entry.policies, entry.expiresAtMs - p.cacheTtlMs - p.loadMs, w.nowMs,
            l.startedMs - p.cacheTtlMs - p.loadMs, w.nowMs);
      LoadMoves(p, w, load, l.(phase := Keeping(entry.policies)));
    } else {
      LoadMoves(p, w, load, l.(phase := if outcome.Executed? then Reading(true) else Unreachable));
    }
  }

  lemma Started(p: Params, w: World, load: int)
    requires Inv(p, w) && load in w.loads
    ensures LoadOk(p, w, load)
  {
  }

  lemma CacheHeld(p: Params, w: World)
    requires Inv(p, w)
    ensures CacheOk(p, w)
  {
  }

  lemma CheckKeeps(p: Params, w: World, nowMs: int, load: int)
    requires Inv(p, w) && w.nowMs == nowMs && Enabled(p, w, Step(nowMs, CheckSnapshot(load)))
    ensures Inv(p, Next(p, w, Step(nowMs, CheckSnapshot(load))))
  {
    hide FromTable, Inv;
    var l := w.loads[load];
    Started(p, w, load);
    var local := Fresh(InstanceSnapshot(w, l.instance), p.localTtlMs, nowMs);
    if local.Some? {
      var s := w.snapshots[l.instance];
      SnapshotHeld(p, w, l.instance);
      Wider(w.table, s.policies, s.loadedAtMs - p.cacheTtlMs - 2 * p.loadMs, nowMs, nowMs - Staleness(p), nowMs);
      LoadReturns(p, w, load, s.policies);
    } else {
      LoadMoves(p, w, load, l.(phase := Reading(false)));
    }
  }

  lemma SnapshotHeld(p: Params, w: World, i: nat)
    requires Inv(p, w) && i in w.snapshots
    ensures SnapshotOk(p, w, i)
  {
  }

  lemma QueryKeeps(p: Params, w: World, nowMs: int, load: int)
    requires Inv(p, w) && w.nowMs == nowMs && Enabled(p, w, Step(nowMs, Query(load)))
    ensures Inv(p, Next(p, w, Step(nowMs, Query(load))))
  {
    hide FromTable;
    var l := w.loads[load];
    var policies := w.table[|w.table| - 1].policies;
    assert LoadOk(p, w, load);
    CurrentHeld(w.table, nowMs);
    Wider(w.table, policies, nowMs, nowMs, l.startedMs, nowMs);
    Wider(w.table, policies, nowMs, nowMs, l.startedMs - p.cacheTtlMs - p.loadMs, nowMs);
    LoadMoves(p, w, load, l.(phase := if l.phase.toStore then Storing(policies) else Keeping(policies)));
  }

  lemma SetKeeps(p: Params, w: World, nowMs: int, load: int, outcome: Outcome)
    requires Inv(p, w) && w.nowMs == nowMs && Enabled(p, w, Step(nowMs, SetEntry(load, outcome)))
    ensures Inv(p, Next(p, w, Step(nowMs, SetEntry(load, outcome))))
  {
    hide FromTable, Inv;
    var l := w.loads[load];
    var policies := l.phase.policies;
    Started(p, w, load);
    Wider(w.table, policies, l.startedMs, nowMs, nowMs - p.loadMs, nowMs);
    Wider(w.table, policies, l.startedMs, nowMs, l.startedMs - p.cacheTtlMs - p.loadMs, nowMs);
    LoadMoves(p, w, load, l.(phase := Keeping(policies)));
    if !outcome.NotExecuted? {
      CacheChanges(p, w.(loads := To(w, load, Keeping(policies))), Some(CacheEntry(policies, nowMs + p.cacheTtlMs)));
    }
  }

  lemma KeepKeeps(p: Params, w: World, nowMs: int, load: int)
    requires Inv(p, w) && w.nowMs == nowMs && Enabled(p, w, Step(nowMs, Keep(load)))
    ensures Inv(p, Next(p, w, Step(nowMs, Keep(load))))
  {
    hide FromTable, Inv;
    var l := w.loads[load];
    var policies := l.phase.policies;
    Started(p, w, load);
    Wider(w.table, policies, l.startedMs - p.cacheTtlMs - p.loadMs, nowMs, nowMs - p.cacheTtlMs - 2 * p.loadMs, nowMs);
    Wider(w.table, policies, l.startedMs - p.cacheTtlMs - p.loadMs, nowMs, nowMs - Staleness(p), nowMs);
    var snapshots := w.snapshots[l.instance := Snapshot(policies, nowMs)];
    forall i | i in snapshots ensures SnapshotOk(p, w.(snapshots := snapshots), i) {
      if i != l.instance {
        SnapshotHeld(p, w, i);
      }
    }
    SnapshotsChange(p, w, snapshots);
    LoadReturns(p, w.(snapshots := snapshots), load, policies);
  }

  lemma ClearKeeps(p: Params, w: World, instance: nat)
    requires Inv(p, w)
    ensures Inv(p, w.(snapshots := w.snapshots - {instance}))
  {
    hide FromTable, Inv;
    var snapshots := w.snapshots - {instance};
    forall i | i in snapshots ensures SnapshotOk(p, w.(snapshots := snapshots), i) {
      SnapshotHeld(p, w, i);
    }
    SnapshotsChange(p, w, snapshots);
  }

  /** A step is the same whether the clock moves with it or just before it. */
  lemma ClockFirst(p: Params, w: World, step: Step)
    requires Enabled(p, w, step)
    ensures var now := w.(nowMs := step.nowMs);
            Enabled(p, now, step) && Next(p, now, step) == Next(p, w, step)
  {
  }

  lemma StepKeeps(p: Params, w: World, step: Step)
    requires Inv(p, w) && Enabled(p, w, step)
    ensures Inv(p, Next(p, w, step))
  {
    hide FromTable, Inv, CacheOk, Fresh;
    var now := w.(nowMs := step.nowMs);
    ClockFirst(p, w, step);
    Later(p, w, now) by { assert now.table == w.table; }
    match step.event {
      case Start(load, instance) => StartKeeps(p, now, load, instance);
      case GetEntry(load, outcome) => GetKeeps(p, now, step.nowMs, load, outcome);
      case CheckSnapshot(load) => CheckKeeps(p, now, step.nowMs, load);
      case Query(load) => QueryKeeps(p, now, step.nowMs, load);
      case SetEntry(load, outcome) => SetKeeps(p, now, step.nowMs, load, outcome);
      case Keep(load) => KeepKeeps(p, now, step.nowMs, load);
      case CommitTable(policies) => CommitKeeps(p, w, step.nowMs, policies);
      case DeleteEntry => DropKeeps(p, now);
      case ExpireEntry => DropKeeps(p, now);
      case ClearSnapshot(instance) => ClearKeeps(p, now, instance);
    }
  }

  lemma StartKeeps(p: Params, w: World, load: int, instance: nat)
    requires Inv(p, w)
    ensures Inv(p, w.(loads := w.loads[load := Load(instance, w.nowMs, Asking)]))
  {
    LoadMoves(p, w, load, Load(instance, w.nowMs, Asking));
  }

  lemma CommitKeeps(p: Params, w: World, nowMs: int, policies: PolicyList)
    requires Inv(p, w) && w.nowMs <= nowMs
    ensures Inv(p, w.(nowMs := nowMs, table := w.table + [Commit(nowMs, policies)]))
  {
    Later(p, w, w.(nowMs := nowMs, table := w.table + [Commit(nowMs, policies)]));
  }

  lemma DropKeeps(p: Params, w: World)
    requires Inv(p, w)
    ensures Inv(p, w.(cache := None))
  {
    CacheChanges(p, w, None);
  }

  // ----- whole runs -----

  lemma {:induction false} RunKeeps(p: Params, nowMs: int, policies: PolicyList, steps: seq<Step>)
    requires Legal(p, Initial(nowMs, policies), steps)
    ensures Inv(p, After(p, Initial(nowMs, policies), steps))
  {
    hide Inv, Next, Enabled;
    if steps == [] {
      InitialOk(p, nowMs, policies);
    } else {
      RunKeeps(p, nowMs, policies, steps[..|steps| - 1]);
      StepKeeps(p, After(p, Initial(nowMs, policies), steps[..|steps| - 1]), steps[|steps| - 1]);
    }
  }

  lemma InitialOk(p: Params, nowMs: int, policies: PolicyList)
    ensures Inv(p, Initial(nowMs, policies))
  {
  }

  /** Over every interleaving of loads at any number of instances with table changes, invalidations
    * that fail or get through, lost messages and Redis outages: each list that a load returns was
    * the table's, at some moment no longer ago than both times to live and two load times. */
  lemma BoundedStaleness(p: Params, nowMs: int, policies: PolicyList, steps: seq<Step>, r: Returned)
    requires Legal(p, Initial(nowMs, policies), steps)
    requires r in After(p, Initial(nowMs, policies), steps).returned
    ensures FromTable(After(p, Initial(nowMs, policies), steps).table, r.policies, r.nowMs - Staleness(p), r.nowMs)
  {
    RunKeeps(p, nowMs, policies, steps);
    assert ReturnOk(p, After(p, Initial(nowMs, policies), steps), r);
  }

  // ----- the bound is reached -----

  lemma Do(p: Params, start: World, steps: seq<Step>, nowMs: int, event: Event) returns (run: seq<Step>)
    requires Legal(p, start, steps) && Enabled(p, After(p, start, steps), Step(nowMs, event))
    ensures Legal(p, start, run) && After(p, start, run) == Next(p, After(p, start, steps), Step(nowMs, event))
  {
    run := steps + [Step(nowMs, event)];
    RunSnoc(p, start, steps, Step(nowMs, event));
  }

  /** A load that queries at once. */
  lemma QuickQuery(p: Params, first: PolicyList) returns (run: seq<Step>)
    ensures var start := Initial(0, first);
            Legal(p, start, run)
            && After(p, start, run) ==
               World(0, [Commit(0, first)], None, map[], map[1 := Load(0, 0, Storing(first))], [])
  {
    var start := Initial(0, first);
    run := Do(p, start, [], 0, Start(1, 0));
    run := Do(p, start, run, 0, GetEntry(1, Executed));
    run := Do(p, start, run, 0, Query(1));
    SetAgain(Load(0, 0, Asking), Load(0, 0, Reading(true)));
    SetAgain(Load(0, 0, Reading(true)), Load(0, 0, Storing(first)));
  }

  lemma SetAgain(l: Load, m: Load)
    ensures map[1 := l][1 := m] == map[1 := m]
  {
  }

  lemma ChangedAfterQuery(p: Params, first: PolicyList, second: PolicyList) returns (run: seq<Step>)
    ensures var start := Initial(0, first);
            Legal(p, start, run)
            && After(p, start, run) ==
               World(0, [Commit(0, first)] + [Commit(0, second)], None, map[], map[1 := Load(0, 0, Storing(first))], [])
  {
    hide After, Legal;
    run := QuickQuery(p, first);
    run := Do(p, Initial(0, first), run, 0, CommitTable(second));
  }

  /** The table changes right after the query, and the load stores as late as it may. */
  lemma SlowStore(p: Params, first: PolicyList, second: PolicyList) returns (run: seq<Step>)
    ensures var start := Initial(0, first);
            Legal(p, start, run)
            && After(p, start, run) ==
               World(p.loadMs, [Commit(0, first)] + [Commit(0, second)],
                     Some(CacheEntry(first, p.loadMs + p.cacheTtlMs)),
                     map[], map[1 := Load(0, 0, Keeping(first))], [])
  {
    hide After, Legal;
    var start := Initial(0, first);
    run := ChangedAfterQuery(p, first, second);
    run := Do(p, start, run, p.loadMs, SetEntry(1, Executed));
    SetAgain(Load(0, 0, Storing(first)), Load(0, 0, Keeping(first)));
  }

  /** Another load hits the entry in its last millisecond and takes its time to keep the list. */
  lemma LateHit(p: Params, first: PolicyList, second: PolicyList) returns (run: seq<Step>)
    ensures var (start, hit) := (Initial(0, first), p.loadMs + p.cacheTtlMs);
            Legal(p, start, run)
            && After(p, start, run).nowMs == hit + p.loadMs
            && After(p, start, run).table == [Commit(0, first)] + [Commit(0, second)]
            && After(p, start, run).snapshots == map[0 := Snapshot(first, hit + p.loadMs)]
            && 3 !in After(p, start, run).loads
  {
    hide After, Legal;
    var (start, hit) := (Initial(0, first), p.loadMs + p.cacheTtlMs);
    run := HitAtLast(p, first, second);
    run := Do(p, start, run, hit + p.loadMs, Keep(2));
  }

  lemma HitAtLast(p: Params, first: PolicyList, second: PolicyList) returns (run: seq<Step>)
    ensures var (start, hit) := (Initial(0, first), p.loadMs + p.cacheTtlMs);
            Legal(p, start, run)
            && var w := After(p, start, run);
               && w.nowMs == hit && w.table == [Commit(0, first)] + [Commit(0, second)] && w.snapshots == map[]
               && 2 in w.loads && w.loads[2] == Load(0, hit, Keeping(first)) && 3 !in w.loads
  {
    hide After, Legal;
    var (start, hit) := (Initial(0, first), p.loadMs + p.cacheTtlMs);
    run := SlowStore(p, first, second);
    run := Do(p, start, run, hit, Start(2, 0));
    run := Do(p, start, run, hit, GetEntry(2, Executed));
  }

  /** The bound of BoundedStaleness is reached for all times to live and load times: there is a run
    * that returns a list which had left the table exactly that long ago. */
  lemma StalenessReached(p: Params, first: PolicyList, second: PolicyList) returns (run: seq<Step>, r: Returned)
    requires first != second
    ensures Legal(p, Initial(0, first), run) && r in After(p, Initial(0, first), run).returned
    ensures r.policies == first && r.nowMs == Staleness(p)
    ensures forall t :: HeldAt(After(p, Initial(0, first), run).table, first, t) ==> t <= 0
  {
    var (start, late) := (Initial(0, first), p.loadMs + p.cacheTtlMs + p.loadMs + p.localTtlMs);
    run := LateHit(p, first, second);
    run := Do(p, start, run, late, Start(3, 0));
    run := Do(p, start, run, late, GetEntry(3, NotExecuted));
    var before := After(p, start, run);
    run := Do(p, start, run, late, CheckSnapshot(3));
    r := Returned(3, late, first);
    assert After(p, start, run).returned == before.returned + [r];
  }
}
