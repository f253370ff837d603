/** Administration of the policy table in app/services/policy_service.py: what each operation does
  * to the rows, and what a version number means. */
module PolicyAdmin {
  import opened Arith
  import opened Limiters
  import opened Policies
  import opened PolicyMatcher
  import opened KeyBuilder

  type Rows = map<string, PolicyRead>

  datatype AdminError = NotFound | Invalid | NameTaken

  datatype AdminResult = Done(policy: PolicyRead) | Deleted | Failed(error: AdminError)

  /** A field of an update request: not given, given as null, or given. */
  datatype Field<+T> = Unset | Null | To(value: T)

  datatype PolicyUpdate = PolicyUpdate(
    name: Field<string>, description: Field<string>, algorithm: Field<Algorithm>, rate: Field<int>,
    windowSeconds: Field<int>, burstCapacity: Field<int>, active: Field<bool>, priority: Field<int>,
    route: Field<string>, userId: Field<string>, ipAddress: Field<string>, tenantId: Field<string>,
    apiKey: Field<string>, failOpen: Field<bool>)

  const NoChange := PolicyUpdate(
    Unset, Unset, Unset, Unset, Unset, Unset, Unset, Unset, Unset, Unset, Unset, Unset, Unset, Unset)

  function Required<T>(f: Field<T>, current: T): T {
    if f.To? then f.value else current
  }

  function Nullable<T>(f: Field<T>, current: Option<T>): Option<T> {
    match f
    case Unset => current
    case Null => None
    case To(value) => Some(value)
  }

  function Merged(p: Payload, u: PolicyUpdate): Payload {
    Payload(Required(u.name, p.name), Nullable(u.description, p.description),
            Required(u.algorithm, p.algorithm), Required(u.rate, p.rate),
            Required(u.windowSeconds, p.windowSeconds), Nullable(u.burstCapacity, p.burstCapacity),
            Required(u.active, p.active), Required(u.priority, p.priority),
            Selectors(Nullable(u.route, p.selectors.route), Nullable(u.userId, p.selectors.userId),
                      Nullable(u.ipAddress, p.selectors.ipAddress), Nullable(u.tenantId, p.selectors.tenantId),
                      Nullable(u.apiKey, p.selectors.apiKey)),
            Required(u.failOpen, p.failOpen))
  }

  /** The merged payload passes validation as a new policy would; null is no value for a required
    * field. */
  predicate Accepted(p: Payload, u: PolicyUpdate) {
    && !u.name.Null? && !u.algorithm.Null? && !u.rate.Null? && !u.windowSeconds.Null? && !u.active.Null?
    && !u.priority.Null? && !u.failOpen.Null?
    && ValidPayload(Merged(p, u))
  }

  function Kept<T(==)>(read: T, next: T, current: T): T {
    if next == read then current else next
  }

  /** A commit writes the columns that the session changed, over whatever the row holds by then. */
  function Flushed(read: Payload, next: Payload, current: Payload): Payload {
    var (r, n, c) := (read.selectors, next.selectors, current.selectors);
    Payload(Kept(read.name, next.name, current.name),
            Kept(read.description, next.description, current.description),
            Kept(read.algorithm, next.algorithm, current.algorithm), Kept(read.rate, next.rate, current.rate),
            Kept(read.windowSeconds, next.windowSeconds, current.windowSeconds),
            Kept(read.burstCapacity, next.burstCapacity, current.burstCapacity),
            Kept(read.active, next.active, current.active), Kept(read.priority, next.priority, current.priority),
            Selectors(Kept(r.route, n.route, c.route), Kept(r.userId, n.userId, c.userId),
                      Kept(r.ipAddress, n.ipAddress, c.ipAddress), Kept(r.tenantId, n.tenantId, c.tenantId),
                      Kept(r.apiKey, n.apiKey, c.apiKey)),
            Kept(read.failOpen, next.failOpen, current.failOpen))
  }

  predicate NameFree(rows: Rows, name: string, except: string) {
    forall id :: id in rows && id != except ==> rows[id].payload.name != name
  }

  /** The commit of a session that read `read` and wants its payload to be `next`. */
  function CommitChange(rows: Rows, read: PolicyRead, next: Payload): (Rows, AdminResult) {
    if read.id !in rows then (rows, Failed(NotFound))
    else
      var payload := Flushed(read.payload, next, rows[read.id].payload);
      if !NameFree(rows, payload.name, read.id) then (rows, Failed(NameTaken))
      else
        var row := PolicyRead(read.id, read.version + 1, payload);
        (rows[read.id := row], Done(row))
  }

  function CreatePolicy(rows: Rows, freshId: string, payload: Payload): (Rows, AdminResult)
    requires ValidPayload(payload)
  {
    if !NameFree(rows, payload.name, freshId) then (rows, Failed(NameTaken))
    else (rows[freshId := PolicyRead(freshId, 1, payload)], Done(PolicyRead(freshId, 1, payload)))
  }

  function UpdatePolicy(rows: Rows, id: string, u: PolicyUpdate): (Rows, AdminResult) {
    if id !in rows then (rows, Failed(NotFound))
    else if u == NoChange then (rows, Done(rows[id]))
    else if !Accepted(rows[id].payload, u) then (rows, Failed(Invalid))
    else CommitChange(rows, rows[id], Merged(rows[id].payload, u))
  }

  function DeletePolicy(rows: Rows, id: string): (Rows, AdminResult) {
    if id !in rows then (rows, Failed(NotFound)) else (rows - {id}, Deleted)
  }

  /** The row with this name, if any; there is one at most in a reachable table. */
  function Named(rows: Rows, name: string): (found: set<string>) {
    set id | id in rows && rows[id].payload.name == name
  }

  function UpsertRow(rows: Rows, id: string, payload: Payload): (Rows, AdminResult)
    requires id in rows
  {
    if rows[id].payload == payload then (rows, Done(rows[id])) else CommitChange(rows, rows[id], payload)
  }

  // ----- the table and everything it ever held -----

  datatype Admin = Admin(rows: Rows, stored: set<PolicyRead>)

  datatype Op =
    | Create(freshId: string, payload: Payload)
    | Update(id: string, change: PolicyUpdate)
    | Delete(id: string)
    | Upsert(id: string, payload: Payload)   // id of the row with that name, or a fresh one

  /** Ids are fresh UUIDs, payloads have passed validation. */
  predicate Allowed(w: Admin, op: Op) {
    match op
    case Create(id, payload) => NoColon(id) && ValidPayload(payload) && forall p :: p in w.stored ==> p.id != id
    case Update(_, _) => true
    case Delete(_) => true
    case Upsert(id, payload) =>
      ValidPayload(payload) &&
      if Named(w.rows, payload.name) == {} then NoColon(id) && forall p :: p in w.stored ==> p.id != id
      else id in Named(w.rows, payload.name)
  }

  function Effect(rows: Rows, op: Op): (Rows, AdminResult)
    requires op.Create? || op.Upsert? ==> ValidPayload(op.payload)
  {
    match op
    case Create(id, payload) => CreatePolicy(rows, id, payload)
    case Update(id, change) => UpdatePolicy(rows, id, change)
    case Delete(id) => DeletePolicy(rows, id)
    case Upsert(id, payload) => if id in rows then UpsertRow(rows, id, payload) else CreatePolicy(rows, id, payload)
  }

  function Record(w: Admin, rows: Rows, result: AdminResult): Admin {
    Admin(rows, if result.Done? then w.stored + {result.policy} else w.stored)
  }

  function Apply(w: Admin, op: Op): Admin
    requires Allowed(w, op)
  {
    var (rows, result) := Effect(w.rows, op);
    Record(w, rows, result)
  }

  /** An id and a version name one payload. */
  ghost predicate Unique(stored: set<PolicyRead>) {
    forall p, q :: p in stored && q in stored && p.id == q.id && p.version == q.version ==> p == q
  }

  /** Each row is the latest version of its policy, and every earlier version was stored. */
  ghost predicate Latest(w: Admin, id: string)
    requires id in w.rows
  {
    && w.rows[id].id == id && w.rows[id] in w.stored && w.rows[id].version >= 1
    && (forall p :: p in w.stored && p.id == id ==> p.version <= w.rows[id].version)
    && (forall v: nat :: 1 <= v <= w.rows[id].version ==> Stored(w, id, v))
  }

  ghost predicate Stored(w: Admin, id: string, v: nat) {
    exists p :: p in w.stored && p.id == id && p.version == v
  }

  ghost predicate Inv(w: Admin) {
    && Unique(w.stored)
    && (forall p :: p in w.stored ==> ValidPayload(p.payload) && NoColon(p.id))
    && (forall id :: id in w.rows ==> Latest(w, id))
    && (forall id :: id in w.rows ==> NameFree(w.rows, w.rows[id].payload.name, id))
  }

  // ----- one operation at a time -----

  /** Without interference, a commit stores what was asked for. */
  lemma FlushedAlone(read: Payload, next: Payload)
    ensures Flushed(read, next, read) == next
  {
  }

  /** A row that is its policy's next version, or its first. */
  ghost predicate NextVersion(w: Admin, row: PolicyRead) {
    && ValidPayload(row.payload) && NoColon(row.id) && NameFree(w.rows, row.payload.name, row.id)
    && (if row.id in w.rows then row.version == w.rows[row.id].version + 1
        else row.version == 1 && forall p :: p in w.stored ==> p.id != row.id)
  }

  lemma StoreKeeps(w: Admin, row: PolicyRead)
    requires Inv(w) && NextVersion(w, row)
    ensures Inv(Record(w, w.rows[row.id := row], Done(row)))
  {
    var next := Record(w, w.rows[row.id := row], Done(row));
    hide ValidPayload, NoColon, Latest, Unique;
    StoreUnique(w, row);
    forall id | id in next.rows ensures Latest(next, id) {
      StoreLatest(w, row, id);
    }
    forall id | id in next.rows ensures NameFree(next.rows, next.rows[id].payload.name, id) {
      if id != row.id {
        assert NameFree(w.rows, w.rows[id].payload.name, id);
      }
    }
  }

  lemma StoreUnique(w: Admin, row: PolicyRead)
    requires Inv(w) && NextVersion(w, row)
    ensures Unique(w.stored + {row})
  {
    hide ValidPayload, NoColon, NameFree;
    if row.id in w.rows {
      assert Latest(w, row.id);
    }
  }

  lemma StoreLatest(w: Admin, row: PolicyRead, id: string)
    requires Inv(w) && NextVersion(w, row) && (id in w.rows || id == row.id)
    ensures Latest(Record(w, w.rows[row.id := row], Done(row)), id)
  {
    hide ValidPayload, NoColon, NameFree;
    var next := Record(w, w.rows[row.id := row], Done(row));
    if id in w.rows {
      assert Latest(w, id);
    }
    forall v: nat | 1 <= v <= next.rows[id].version ensures Stored(next, id, v) {
      if id == row.id && v == row.version {
        assert row in next.stored;
      } else {
        assert Stored(w, id, v);
        var p :| p in w.stored && p.id == id && p.version == v;
        assert p in next.stored;
      }
    }
  }

  lemma RemoveKeeps(w: Admin, id: string)
    requires Inv(w)
    ensures Inv(Admin(w.rows - {id}, w.stored))
  {
    hide ValidPayload, NoColon;
    var next := Admin(w.rows - {id}, w.stored);
    forall k | k in next.rows ensures Latest(next, k) && NameFree(next.rows, next.rows[k].payload.name, k) {
      assert Latest(w, k) && NameFree(w.rows, w.rows[k].payload.name, k);
      forall v: nat | 1 <= v <= next.rows[k].version ensures Stored(next, k, v) {
        assert Stored(w, k, v);
      }
    }
  }

  /** A session that commits what it has just read keeps everything. */
  lemma FreshCommitKeeps(w: Admin, id: string, next: Payload)
    requires Inv(w) && id in w.rows && ValidPayload(next)
    ensures var (rows, result) := CommitChange(w.rows, w.rows[id], next);
            && Inv(Record(w, rows, result))
            && (result.Done? ==> result.policy == PolicyRead(id, w.rows[id].version + 1, next))
  {
    hide ValidPayload, NoColon, NameFree, Flushed;
    assert Latest(w, id);
    FlushedAlone(w.rows[id].payload, next);
    if CommitChange(w.rows, w.rows[id], next).1.Done? {
      StoreKeeps(w, PolicyRead(id, w.rows[id].version + 1, next));
    }
  }

  lemma SameAgain(w: Admin, id: string)
    requires Inv(w) && id in w.rows
    ensures Record(w, w.rows, Done(w.rows[id])) == w
  {
    assert Latest(w, id);
    assert w.stored + {w.rows[id]} == w.stored;
  }

  lemma CreateKeeps(w: Admin, id: string, payload: Payload)
    requires Inv(w) && ValidPayload(payload) && NoColon(id) && forall p :: p in w.stored ==> p.id != id
    ensures var (rows, result) := CreatePolicy(w.rows, id, payload);
            Inv(Record(w, rows, result))
  {
    hide ValidPayload, NoColon, NameFree;
    assert id in w.rows ==> Latest(w, id);
    if CreatePolicy(w.rows, id, payload).1.Done? {
      StoreKeeps(w, PolicyRead(id, 1, payload));
    }
  }

  lemma ApplyKeeps(w: Admin, op: Op)
    requires Inv(w) && Allowed(w, op)
    ensures Inv(Apply(w, op))
  {
    hide ValidPayload, NoColon, NameFree, Flushed, CommitChange, CreatePolicy, Inv, Merged;
    match op {
      case Create(id, payload) => CreateKeeps(w, id, payload);
      case Update(id, change) =>
        if id in w.rows {
          SameAgain(w, id);
          if change != NoChange && Accepted(w.rows[id].payload, change) {
            FreshCommitKeeps(w, id, Merged(w.rows[id].payload, change));
          }
        }
      case Delete(id) =>
        if id in w.rows {
          RemoveKeeps(w, id);
        }
      case Upsert(id, payload) =>
        if id in w.rows {
          SameAgain(w, id);
          FreshCommitKeeps(w, id, payload);
        } else {
          CreateKeeps(w, id, payload);
        }
    }
  }

  // ----- whole runs -----

  ghost predicate Serialised(ops: seq<Op>)
    decreases |ops|, 0
  {
    ops == [] || (Serialised(ops[..|ops| - 1]) && Allowed(AdminAfter(ops[..|ops| - 1]), ops[|ops| - 1]))
  }

  /** The table after operations that each complete before the next one reads. */
  ghost function AdminAfter(ops: seq<Op>): Admin
    requires Serialised(ops)
    decreases |ops|, 1
  {
    if ops == [] then Admin(map[], {}) else Apply(AdminAfter(ops[..|ops| - 1]), ops[|ops| - 1])
  }

  /** Over every serialised run: an id and a version stand for one payload forever, every policy
    * ever stored satisfies the schema, and rows carry the latest version. */
  lemma {:induction false} SerialisedRunsKeep(ops: seq<Op>)
    requires Serialised(ops)
    ensures Inv(AdminAfter(ops))
  {
    hide Apply, Allowed;
    if ops != [] {
      SerialisedRunsKeep(ops[..|ops| - 1]);
      ApplyKeeps(AdminAfter(ops[..|ops| - 1]), ops[|ops| - 1]);
    }
  }

  /** So a Redis key means one limiter: equal keys come with equal configurations, whichever
    * versions of whichever policies they were built from. */
  lemma OneKeyOneLimit(ops: seq<Op>, p: PolicyRead, i: RequestIdentity, q: PolicyRead, j: RequestIdentity)
    requires Serialised(ops) && p in AdminAfter(ops).stored && q in AdminAfter(ops).stored
    requires RateLimitKey(p, i) == RateLimitKey(q, j)
    ensures p == q && ConfigOf(p.payload).Valid()
  {
    SerialisedRunsKeep(ops);
    KeysNeverCollide(p, i, q, j);
  }
}
