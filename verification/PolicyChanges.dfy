/** What the operations of app/services/policy_service.py store, column by column. */
module PolicyChanges {
  import opened Arith
  import opened Policies
  import opened PolicyAdmin

  // ----- updates -----

  /** A required column: the value given, or what it was. */
  predicate AsAsked<T(==)>(f: Field<T>, before: T, after: T) {
    match f
    case To(value) => after == value
    case Unset => after == before
    case Null => false
  }

  /** A nullable column: the value given, nothing if null was given, or what it was. */
  predicate AsAskedOrNone<T(==)>(f: Field<T>, before: Option<T>, after: Option<T>) {
    match f
    case To(value) => after == Some(value)
    case Unset => after == before
    case Null => after == None
  }

  predicate SelectorsAsAsked(u: PolicyUpdate, before: Selectors, after: Selectors) {
    && AsAskedOrNone(u.route, before.route, after.route)
    && AsAskedOrNone(u.userId, before.userId, after.userId)
    && AsAskedOrNone(u.ipAddress, before.ipAddress, after.ipAddress)
    && AsAskedOrNone(u.tenantId, before.tenantId, after.tenantId)
    && AsAskedOrNone(u.apiKey, before.apiKey, after.apiKey)
  }

  predicate PayloadAsAsked(u: PolicyUpdate, before: Payload, after: Payload) {
    && AsAsked(u.name, before.name, after.name)
    && AsAskedOrNone(u.description, before.description, after.description)
    && AsAsked(u.algorithm, before.algorithm, after.algorithm)
    && AsAsked(u.rate, before.rate, after.rate)
    && AsAsked(u.windowSeconds, before.windowSeconds, after.windowSeconds)
    && AsAskedOrNone(u.burstCapacity, before.burstCapacity, after.burstCapacity)
    && AsAsked(u.active, before.active, after.active)
    && AsAsked(u.priority, before.priority, after.priority)
    && SelectorsAsAsked(u, before.selectors, after.selectors)
    && AsAsked(u.failOpen, before.failOpen, after.failOpen)
  }

  lemma OnlyOneAsAsked(u: PolicyUpdate, before: Payload, after: Payload, other: Payload)
    requires PayloadAsAsked(u, before, after) && PayloadAsAsked(u, before, other)
    ensures after == other
  {
  }

  lemma MergedAsAsked(p: Payload, u: PolicyUpdate)
    requires Accepted(p, u)
    ensures PayloadAsAsked(u, p, Merged(p, u))
  {
    hide ValidPayload;
  }

  lemma AskedAccepted(p: Payload, u: PolicyUpdate, next: Payload)
    requires PayloadAsAsked(u, p, next) && ValidPayload(next)
    ensures Accepted(p, u) && Merged(p, u) == next
  {
    hide ValidPayload;
    MergedIs(p, u, next);
  }

  lemma MergedIs(p: Payload, u: PolicyUpdate, next: Payload)
    requires PayloadAsAsked(u, p, next)
    ensures Merged(p, u) == next
  {
  }

  /** An update that asks for something puts the row in the state asked for, as the next version, and
    * leaves every other row alone; it fails, and changes nothing, if the state asked for violates the
    * schema, or has a name that another row has. */
  lemma UpdateStores(rows: Rows, id: string, u: PolicyUpdate)
    requires id in rows ==> rows[id].id == id
    ensures var (after, result) := Effect(rows, Update(id, u));
            && (result.Failed? ==> after == rows)
            && (result.Done? ==>
                  && id in rows && after == rows[id := result.policy] && result.policy.id == id
                  && PayloadAsAsked(u, rows[id].payload, result.policy.payload)
                  && result.policy.version == rows[id].version + (if u == NoChange then 0 else 1)
                  && (u != NoChange ==>
                        ValidPayload(result.policy.payload) && NameFree(rows, result.policy.payload.name, id)))
  {
    hide ValidPayload, NameFree, Merged, PayloadAsAsked, Flushed;
    if id in rows {
      var p := rows[id].payload;
      if u == NoChange {
        NothingAsked(p);
      } else if Accepted(p, u) {
        MergedAsAsked(p, u);
        FlushedAlone(p, Merged(p, u));
      }
    }
  }

  lemma NothingAsked(p: Payload)
    ensures PayloadAsAsked(NoChange, p, p)
  {
  }

  /** And it succeeds whenever it can. */
  lemma UpdateSucceeds(rows: Rows, id: string, u: PolicyUpdate, next: Payload)
    requires id in rows && rows[id].id == id
    requires PayloadAsAsked(u, rows[id].payload, next) && ValidPayload(next) && NameFree(rows, next.name, id)
    ensures var (after, result) := Effect(rows, Update(id, u));
            result.Done? && after[id].payload == next
  {
    hide ValidPayload, NameFree, Merged, PayloadAsAsked, Flushed, Accepted;
    var p := rows[id].payload;
    AskedAccepted(p, u, next);
    FlushedAlone(p, next);
    if u == NoChange {
      NothingAsked(p);
      OnlyOneAsAsked(u, p, p, next);
    }
  }

  // ----- creation and upserts -----

  /** An upsert stores the whole payload: as a new policy of version 1, or as the next version of the
    * one that has the name, unless nothing differs. */
  lemma UpsertStores(rows: Rows, id: string, payload: Payload)
    requires ValidPayload(payload) && (id in rows ==> rows[id].id == id)
    ensures var (after, result) := Effect(rows, Upsert(id, payload));
            && (result.Done? <==> (id in rows && rows[id].payload == payload) || NameFree(rows, payload.name, id))
            && (!result.Done? ==> result == Failed(NameTaken) && after == rows)
            && (result.Done? ==>
                  && after == rows[id := result.policy] && result.policy.id == id && result.policy.payload == payload
                  && result.policy.version ==
                     if id !in rows then 1
                     else if rows[id].payload == payload then rows[id].version
                     else rows[id].version + 1)
  {
    hide ValidPayload, NameFree, Flushed;
    if id in rows {
      FlushedAlone(rows[id].payload, payload);
    }
  }

  /** A new policy is stored as given, with version 1, unless its name is taken. */
  lemma CreateStores(rows: Rows, id: string, payload: Payload)
    requires ValidPayload(payload) && id !in rows
    ensures var (after, result) := Effect(rows, Create(id, payload));
            if exists k :: k in rows && rows[k].payload.name == payload.name then
              after == rows && result == Failed(NameTaken)
            else
              result == Done(PolicyRead(id, 1, payload)) && after == rows[id := PolicyRead(id, 1, payload)]
  {
    hide ValidPayload;
  }

  /** A deletion takes the row away, and no other. */
  lemma DeleteRemoves(rows: Rows, id: string)
    ensures var (after, result) := Effect(rows, Delete(id));
            && id !in after && (forall k :: k != id ==> (k in after <==> k in rows))
            && (forall k :: k in after ==> after[k] == rows[k])
            && result == if id in rows then Deleted else Failed(NotFound)
  {
  }

  // ----- commits of overlapping sessions -----

  /** A column after a commit: the new value if the session changed it, else what it held by then. */
  predicate Written<T(==)>(read: T, next: T, before: T, after: T) {
    && (next != read ==> after == next)
    && (next == read ==> after == before)
  }

  predicate SelectorsWritten(read: Selectors, next: Selectors, before: Selectors, after: Selectors) {
    && Written(read.route, next.route, before.route, after.route)
    && Written(read.userId, next.userId, before.userId, after.userId)
    && Written(read.ipAddress, next.ipAddress, before.ipAddress, after.ipAddress)
    && Written(read.tenantId, next.tenantId, before.tenantId, after.tenantId)
    && Written(read.apiKey, next.apiKey, before.apiKey, after.apiKey)
  }

  predicate PayloadWritten(read: Payload, next: Payload, before: Payload, after: Payload) {
    && Written(read.name, next.name, before.name, after.name)
    && Written(read.description, next.description, before.description, after.description)
    && Written(read.algorithm, next.algorithm, before.algorithm, after.algorithm)
    && Written(read.rate, next.rate, before.rate, after.rate)
    && Written(read.windowSeconds, next.windowSeconds, before.windowSeconds, after.windowSeconds)
    && Written(read.burstCapacity, next.burstCapacity, before.burstCapacity, after.burstCapacity)
    && Written(read.active, next.active, before.active, after.active)
    && Written(read.priority, next.priority, before.priority, after.priority)
    && SelectorsWritten(read.selectors, next.selectors, before.selectors, after.selectors)
    && Written(read.failOpen, next.failOpen, before.failOpen, after.failOpen)
  }

  lemma FlushedWritten(read: Payload, next: Payload, current: Payload)
    ensures PayloadWritten(read, next, current, Flushed(read, next, current))
  {
  }

  /** A commit writes the columns that its session changed, and no other; the version is the one read
    * plus one, whatever the row holds. */
  lemma CommitWrites(rows: Rows, read: PolicyRead, next: Payload)
    ensures var (after, result) := CommitChange(rows, read, next);
            && (result.Failed? ==> after == rows)
            && (result.Done? ==>
                  && read.id in rows && after == rows[read.id := result.policy]
                  && result.policy.id == read.id && result.policy.version == read.version + 1
                  && PayloadWritten(read.payload, next, rows[read.id].payload, result.policy.payload)
                  && NameFree(rows, result.policy.payload.name, read.id))
  {
    hide Flushed, NameFree;
    if read.id in rows {
      FlushedWritten(read.payload, next, rows[read.id].payload);
    }
  }

  /** No column is changed by both. */
  predicate Apart<T(==)>(read: T, a: T, b: T) { a == read || b == read }

  predicate ChangesApart(read: Payload, a: Payload, b: Payload) {
    && Apart(read.name, a.name, b.name) && Apart(read.description, a.description, b.description)
    && Apart(read.algorithm, a.algorithm, b.algorithm) && Apart(read.rate, a.rate, b.rate)
    && Apart(read.windowSeconds, a.windowSeconds, b.windowSeconds)
    && Apart(read.burstCapacity, a.burstCapacity, b.burstCapacity)
    && Apart(read.active, a.active, b.active) && Apart(read.priority, a.priority, b.priority)
    && Apart(read.selectors.route, a.selectors.route, b.selectors.route)
    && Apart(read.selectors.userId, a.selectors.userId, b.selectors.userId)
    && Apart(read.selectors.ipAddress, a.selectors.ipAddress, b.selectors.ipAddress)
    && Apart(read.selectors.tenantId, a.selectors.tenantId, b.selectors.tenantId)
    && Apart(read.selectors.apiKey, a.selectors.apiKey, b.selectors.apiKey)
    && Apart(read.failOpen, a.failOpen, b.failOpen)
  }

  /** Two sessions that read the same row and change different columns: both changes stay, and it does
    * not matter which commits first. */
  lemma ChangesApartBothStay(read: Payload, a: Payload, b: Payload, current: Payload)
    requires ChangesApart(read, a, b)
    ensures Flushed(read, b, Flushed(read, a, current)) == Flushed(read, a, Flushed(read, b, current))
    ensures PayloadWritten(read, a, Flushed(read, b, current), Flushed(read, b, Flushed(read, a, current)))
    ensures PayloadWritten(read, b, Flushed(read, a, current), Flushed(read, b, Flushed(read, a, current)))
  {
  }
}
