/** Administration by overlapping sessions: each reads a row, and later writes back the columns that
  * it changed and the version that it read plus one, without a lock. What a commit may find in the
  * row by then without harm, exactly. */
module PolicySessions {
  import opened Arith
  import opened Policies
  import opened KeyBuilder
  import opened PolicyAdmin

  // ----- the columns -----

  predicate Same<T(==)>(read: T, next: T, current: T) { next == read || next == current }

  /** Every column that the session changed holds the new value already. */
  predicate Absorbed(read: Payload, next: Payload, current: Payload) {
    var (r, n, c) := (read.selectors, next.selectors, current.selectors);
    && Same(read.name, next.name, current.name) && Same(read.description, next.description, current.description)
    && Same(read.algorithm, next.algorithm, current.algorithm) && Same(read.rate, next.rate, current.rate)
    && Same(read.windowSeconds, next.windowSeconds, current.windowSeconds)
    && Same(read.burstCapacity, next.burstCapacity, current.burstCapacity)
    && Same(read.active, next.active, current.active) && Same(read.priority, next.priority, current.priority)
    && Same(r.route, n.route, c.route) && Same(r.userId, n.userId, c.userId)
    && Same(r.ipAddress, n.ipAddress, c.ipAddress) && Same(r.tenantId, n.tenantId, c.tenantId)
    && Same(r.apiKey, n.apiKey, c.apiKey) && Same(read.failOpen, next.failOpen, current.failOpen)
  }

  lemma FlushedAbsorbed(read: Payload, next: Payload, current: Payload)
    ensures Flushed(read, next, current) == current <==> Absorbed(read, next, current)
  {
  }

  /** The session moves the policy to another algorithm than the token bucket and leaves the burst
    * capacity alone, and the row has got one; or it sets a burst capacity and leaves the algorithm
    * alone, and the row is no token bucket any more. */
  predicate Clashes(read: Payload, next: Payload, current: Payload) {
    || (&& next.algorithm != read.algorithm && !next.algorithm.UseTokenBucket?
        && next.burstCapacity == read.burstCapacity && current.burstCapacity.Some?)
    || (&& next.burstCapacity != read.burstCapacity && next.burstCapacity.Some?
        && next.algorithm == read.algorithm && !current.algorithm.UseTokenBucket?)
  }

  /** Each commit is validated against what its session read. The row that it leaves satisfies the
    * schema exactly when algorithm and burst capacity do not clash; no other column can matter. */
  lemma FlushedValidExactly(read: Payload, next: Payload, current: Payload)
    requires ValidPayload(read) && ValidPayload(next) && ValidPayload(current)
    ensures ValidPayload(Flushed(read, next, current)) <==> !Clashes(read, next, current)
  {
    var f := Flushed(read, next, current);
    assert f.name == next.name || f.name == current.name;
    assert f.description == next.description || f.description == current.description;
  }

  // ----- one commit -----

  /** The version read is the current one, or the one before it with nothing left to write. */
  predicate Harmless(read: PolicyRead, next: Payload, current: PolicyRead) {
    || read.version == current.version
    || (read.version + 1 == current.version && Absorbed(read.payload, next, current.payload))
  }

  function Committed(w: Admin, read: PolicyRead, next: Payload): Admin {
    var (rows, result) := CommitChange(w.rows, read, next);
    Record(w, rows, result)
  }

  predicate Succeeds(w: Admin, read: PolicyRead, next: Payload) {
    CommitChange(w.rows, read, next).1.Done?
  }

  lemma CommitWrites(w: Admin, read: PolicyRead, next: Payload)
    requires Succeeds(w, read, next)
    ensures read.id in w.rows
    ensures var row := PolicyRead(read.id, read.version + 1, Flushed(read.payload, next, w.rows[read.id].payload));
            && Committed(w, read, next) == Admin(w.rows[read.id := row], w.stored + {row})
            && NameFree(w.rows, row.payload.name, read.id)
            && NameFree(w.rows[read.id := row], row.payload.name, read.id)
  {
    hide Flushed;
  }

  lemma HarmlessKeeps(w: Admin, read: PolicyRead, next: Payload)
    requires Inv(w) && read in w.stored && Succeeds(w, read, next) && ValidPayload(next)
    requires Harmless(read, next, w.rows[read.id])
    ensures Inv(Committed(w, read, next))
  {
    hide ValidPayload, NoColon, NameFree, Flushed, Absorbed;
    CommitWrites(w, read, next);
    assert Latest(w, read.id);
    var current := w.rows[read.id];
    if read.version == current.version {
      assert read == current;
      FreshCommitKeeps(w, read.id, next);
    } else {
      FlushedAbsorbed(read.payload, next, current.payload);
      assert w.rows[read.id := current] == w.rows && w.stored + {current} == w.stored;
    }
  }

  lemma HarmfulBreaks(w: Admin, read: PolicyRead, next: Payload)
    requires Inv(w) && read in w.stored && Succeeds(w, read, next)
    requires !Harmless(read, next, w.rows[read.id])
    ensures !Inv(Committed(w, read, next))
  {
    hide ValidPayload, NoColon, NameFree, Flushed, Absorbed;
    CommitWrites(w, read, next);
    assert Latest(w, read.id);
    var (current, after) := (w.rows[read.id], Committed(w, read, next));
    FlushedAbsorbed(read.payload, next, current.payload);
    assert current in after.stored && after.rows[read.id] in after.stored;
    assert Inv(after) ==> Latest(after, read.id);
  }

  /** A commit keeps everything that SerialisedRunsKeep promises exactly when it is harmless. */
  lemma CommitKeepsExactly(w: Admin, read: PolicyRead, next: Payload)
    requires Inv(w) && read in w.stored && Succeeds(w, read, next) && ValidPayload(next)
    ensures Inv(Committed(w, read, next)) <==> Harmless(read, next, w.rows[read.id])
  {
    if Harmless(read, next, w.rows[read.id]) {
      HarmlessKeeps(w, read, next);
    } else {
      HarmfulBreaks(w, read, next);
    }
  }

  // ----- what a harmful commit leads to -----

  /** An update that makes a policy a token bucket of another rate than `taken`. */
  function Differing(taken: Payload): PolicyUpdate {
    NoChange.(algorithm := To(UseTokenBucket), rate := To(taken.rate + 1))
  }

  lemma DifferingAccepted(read: Payload, next: Payload, current: Payload, taken: Payload)
    requires ValidPayload(read) && ValidPayload(next) && ValidPayload(current) && ValidPayload(taken)
    ensures var f := Flushed(read, next, current);
            && Accepted(f, Differing(taken)) && Differing(taken) != NoChange
            && Merged(f, Differing(taken)).name == f.name && Merged(f, Differing(taken)).rate != taken.rate
  {
  }

  function Updated(w: Admin, id: string, u: PolicyUpdate): Admin {
    var (rows, result) := UpdatePolicy(w.rows, id, u);
    Record(w, rows, result)
  }

  /** After a harmful commit, one ordinary update more can give a version a second payload. */
  lemma HarmfulCollides(w: Admin, read: PolicyRead, next: Payload) returns (u: PolicyUpdate)
    requires Inv(w) && read in w.stored && Succeeds(w, read, next) && ValidPayload(next)
    requires !Harmless(read, next, w.rows[read.id])
    ensures !Unique(Updated(Committed(w, read, next), read.id, u).stored)
  {
    hide ValidPayload, NoColon, NameFree, Flushed, Absorbed, Merged, Accepted;
    CommitWrites(w, read, next);
    assert Latest(w, read.id);
    var (current, after) := (w.rows[read.id], Committed(w, read, next));
    var row := after.rows[read.id];
    FlushedAbsorbed(read.payload, next, current.payload);
    if read.version + 1 == current.version {
      u := NoChange;
      assert current in after.stored && row in after.stored;
    } else {
      assert Stored(w, read.id, read.version + 2);
      var taken :| taken in w.stored && taken.id == read.id && taken.version == read.version + 2;
      u := Differing(taken.payload);
      DifferingAccepted(read.payload, next, current.payload, taken.payload);
      DifferingStored(after, row, taken, u);
    }
  }

  lemma DifferingStored(after: Admin, row: PolicyRead, taken: PolicyRead, u: PolicyUpdate)
    requires row.id in after.rows && after.rows[row.id] == row && taken in after.stored
    requires taken.id == row.id && taken.version == row.version + 1
    requires u != NoChange && Accepted(row.payload, u) && NameFree(after.rows, row.payload.name, row.id)
    requires Merged(row.payload, u).name == row.payload.name && Merged(row.payload, u).rate != taken.payload.rate
    ensures !Unique(Updated(after, row.id, u).stored)
  {
    hide Flushed, Merged, Accepted, NameFree;
    FlushedAlone(row.payload, Merged(row.payload, u));
    var second := PolicyRead(row.id, row.version + 1, Merged(row.payload, u));
    assert Updated(after, row.id, u).stored == after.stored + {second};
    assert second in after.stored + {second} && taken in after.stored + {second};
  }

  /** So a commit is safe for the meaning of versions, now and after any later update of the policy,
    * exactly when it is harmless. */
  lemma CommitKeepsVersionsExactly(w: Admin, read: PolicyRead, next: Payload)
    requires Inv(w) && read in w.stored && Succeeds(w, read, next) && ValidPayload(next)
    ensures (forall u :: Unique(Updated(Committed(w, read, next), read.id, u).stored)) <==>
            Harmless(read, next, w.rows[read.id])
  {
    hide ValidPayload, NoColon, NameFree, Flushed, Absorbed, Unique, Harmless, Committed;
    if Harmless(read, next, w.rows[read.id]) {
      HarmlessKeeps(w, read, next);
      forall u ensures Unique(Updated(Committed(w, read, next), read.id, u).stored) {
        ApplyKeeps(Committed(w, read, next), Update(read.id, u));
      }
    } else {
      var u := HarmfulCollides(w, read, next);
    }
  }

  // ----- runs of overlapping sessions -----

  datatype Sessions = Sessions(admin: Admin, open: map<int, PolicyRead>)

  datatype Event =
    | Read(session: int, id: string)
    | Commit(session: int, next: Payload)   // an update or upsert, validated against what was read
    | Whole(op: Op)                         // needs no earlier read

  predicate Enabled(w: Sessions, e: Event) {
    match e
    case Read(_, id) => id in w.admin.rows
    case Commit(session, next) => session in w.open && ValidPayload(next)
    case Whole(op) => Allowed(w.admin, op)
  }

  function Next(w: Sessions, e: Event): Sessions
    requires Enabled(w, e)
  {
    match e
    case Read(session, id) => w.(open := w.open[session := w.admin.rows[id]])
    case Commit(session, next) =>
      Sessions(Committed(w.admin, w.open[session], next), w.open - {session})
    case Whole(op) => w.(admin := Apply(w.admin, op))
  }

  ghost predicate Legal(events: seq<Event>)
    decreases |events|, 0
  {
    events == [] || (
      Legal(events[..|events| - 1]) && Enabled(SessionsAfter(events[..|events| - 1]), events[|events| - 1]))
  }

  ghost function SessionsAfter(events: seq<Event>): Sessions
    requires Legal(events)
    decreases |events|, 1
  {
    if events == [] then Sessions(Admin(map[], {}), map[])
    else Next(SessionsAfter(events[..|events| - 1]), events[|events| - 1])
  }

  /** A commit that succeeds is harmless. */
  predicate HarmlessEvent(w: Sessions, e: Event)
    requires Enabled(w, e)
  {
    e.Commit? && Succeeds(w.admin, w.open[e.session], e.next) ==>
      w.open[e.session].id in w.admin.rows
      && Harmless(w.open[e.session], e.next, w.admin.rows[w.open[e.session].id])
  }

  /** Every commit of the run was harmless when it happened. */
  ghost predicate AllHarmless(events: seq<Event>)
    requires Legal(events)
  {
    events == [] || (
      && AllHarmless(events[..|events| - 1])
      && HarmlessEvent(SessionsAfter(events[..|events| - 1]), events[|events| - 1]))
  }

  /** At every moment of the run, versions are unique and latest, names unique and rows valid. */
  ghost predicate AlwaysInOrder(events: seq<Event>)
    requires Legal(events)
  {
    Inv(SessionsAfter(events).admin) && (events == [] || AlwaysInOrder(events[..|events| - 1]))
  }

  ghost predicate OpenStored(w: Sessions) {
    forall s :: s in w.open ==> w.open[s] in w.admin.stored
  }

  lemma EventExactly(w: Sessions, e: Event)
    requires Inv(w.admin) && OpenStored(w) && Enabled(w, e)
    ensures Inv(Next(w, e).admin) <==> HarmlessEvent(w, e)
    ensures OpenStored(Next(w, e))
  {
    hide ValidPayload, NoColon, NameFree, Flushed, Absorbed, Inv, Harmless, Apply, Effect;
    match e {
      case Read(_, id) => RowStored(w.admin, id);
      case Commit(session, next) =>
        if Succeeds(w.admin, w.open[session], next) {
          CommitWrites(w.admin, w.open[session], next);
          CommitKeepsExactly(w.admin, w.open[session], next);
        }
      case Whole(op) =>
        ApplyKeeps(w.admin, op);
        StoredGrows(w.admin, op);
    }
  }

  lemma RowStored(w: Admin, id: string)
    requires Inv(w) && id in w.rows
    ensures w.rows[id] in w.stored
  {
    assert Latest(w, id);
  }

  lemma StoredGrows(w: Admin, op: Op)
    requires Allowed(w, op)
    ensures w.stored <= Apply(w, op).stored
  {
    hide Effect;
  }

  lemma {:induction false} OpenAreStored(events: seq<Event>)
    requires Legal(events) && AlwaysInOrder(events)
    ensures OpenStored(SessionsAfter(events))
  {
    hide Next, Enabled, Inv;
    if events != [] {
      var earlier := events[..|events| - 1];
      OpenAreStored(earlier);
      InOrderNow(earlier);
      EventExactly(SessionsAfter(earlier), events[|events| - 1]);
    } else {
      NothingOpen();
    }
  }

  lemma NothingOpen()
    ensures OpenStored(SessionsAfter([])) && Inv(SessionsAfter([]).admin)
  {
  }

  lemma InOrderNow(events: seq<Event>)
    requires Legal(events) && AlwaysInOrder(events)
    ensures Inv(SessionsAfter(events).admin)
  {
  }

  /** Over every run of overlapping sessions: the table is in order at every moment exactly when
    * every commit was harmless when it happened. */
  lemma {:induction false} OverlappingRunsExactly(events: seq<Event>)
    requires Legal(events)
    ensures AlwaysInOrder(events) <==> AllHarmless(events)
  {
    hide Next, Enabled, Inv, HarmlessEvent;
    if events == [] {
      NothingOpen();
    } else {
      var (earlier, e) := (events[..|events| - 1], events[|events| - 1]);
      OverlappingRunsExactly(earlier);
      if AlwaysInOrder(earlier) {
        InOrderNow(earlier);
        OpenAreStored(earlier);
        EventExactly(SessionsAfter(earlier), e);
      }
    }
  }

  // ----- overlapping updates of one policy -----

  /** Two overlapping updates of any token bucket without a burst capacity: one makes it a fixed
    * window, the other sets a capacity. Both validate, both write the same next version, and the row
    * ends up with both changes, which no validation would let in. */
  lemma OverlappingUpdates(w: Admin, id: string)
    requires Inv(w) && id in w.rows
    requires w.rows[id].payload.algorithm.UseTokenBucket? && w.rows[id].payload.burstCapacity.None?
    ensures var (read, base) := (w.rows[id], w.rows[id].payload);
            var (u, v) := (NoChange.(algorithm := To(UseFixedWindow)), NoChange.(burstCapacity := To(15)));
            var (first, second) := (Merged(base, u), Merged(base, v));
            var middle := Committed(w, read, first);
            var end := Committed(middle, read, second);
            && Accepted(base, u) && Accepted(base, v)
            && Succeeds(w, read, first) && Succeeds(middle, read, second)
            && Inv(middle) && id in middle.rows && !Harmless(read, second, middle.rows[id])
            && !Unique(end.stored) && id in end.rows && !ValidPayload(end.rows[id].payload)
  {
    var (read, base) := (w.rows[id], w.rows[id].payload);
    var first := Merged(base, NoChange.(algorithm := To(UseFixedWindow)));
    var second := Merged(base, NoChange.(burstCapacity := To(15)));
    assert Latest(w, id);
    FreshCommitKeeps(w, id, first);
    FlushedAlone(base, first);
    var middle := Committed(w, read, first);
    var end := Committed(middle, read, second);
    FlushedValidExactly(base, second, first);
    assert middle.rows[id] in end.stored && end.rows[id] in end.stored;
  }
}
