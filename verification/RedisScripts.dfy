/** The Lua scripts of app/redis/scripts.py as atomic steps on a small Redis: string counters,
  * sorted sets and hashes in one keyspace, each with an expiry time. Token amounts are scaled as
  * in Limiters. */
module RedisScripts {
  import opened Arith
  import opened Limiters

  /** A script works on the key it is given, or on that key with a window start appended. */
  datatype StoreKey = Plain(key: string) | Windowed(key: string, windowStart: int)

  datatype Entry = Entry(score: int, member: int)

  datatype Value = Counter(n: int) | SortedSet(entries: seq<Entry>) | Hash(tokens: int, lastRefillMs: int)

  datatype Slot = Slot(value: Value, expiresAtMs: int)

  type Keyspace = map<StoreKey, Slot>

  /** The server drops keys at some moment after they expire: any of `victims` whose time has come. */
  function Purge(space: Keyspace, victims: set<StoreKey>, now: int): Keyspace {
    map k | k in space && !(k in victims && space[k].expiresAtMs <= now) :: space[k]
  }

  /** What a script returns; a command on a key of another type fails instead. */
  datatype Reply =
    | Reply(allowed: bool, limit: int, remaining: int, resetAtMs: int, retryMs: int)
    | WrongType

  // ----- sorted sets -----

  function Scores(entries: seq<Entry>): (scores: seq<int>) {
    if entries == [] then [] else Scores(entries[..|entries| - 1]) + [entries[|entries| - 1].score]
  }

  /** ZREMRANGEBYSCORE 0 cutoff */
  function RemoveUpTo(entries: seq<Entry>, cutoff: int): (kept: seq<Entry>) {
    if entries == [] then []
    else
      var kept := RemoveUpTo(entries[..|entries| - 1], cutoff);
      var last := entries[|entries| - 1];
      if 0 <= last.score <= cutoff then kept else kept + [last]
  }

  function RemoveMember(entries: seq<Entry>, member: int): (kept: seq<Entry>) {
    if entries == [] then []
    else
      var kept := RemoveMember(entries[..|entries| - 1], member);
      var last := entries[|entries| - 1];
      if last.member == member then kept else kept + [last]
  }

  function Insert(entries: seq<Entry>, e: Entry): seq<Entry> {
    if entries == [] || entries[|entries| - 1].score <= e.score then entries + [e]
    else Insert(entries[..|entries| - 1], e) + [entries[|entries| - 1]]
  }

  /** ZADD: a member occurs once, at its latest score. */
  function Add(entries: seq<Entry>, e: Entry): seq<Entry> {
    Insert(RemoveMember(entries, e.member), e)
  }

  // ----- the scripts -----

  function FixedWindowScript(space: Keyspace, key: string, limit: int, windowMs: int, now: int): (Keyspace, Reply)
    requires windowMs > 0
  {
    var start := WindowStart(now, windowMs);
    var k := Windowed(key, start);
    if k in space && !space[k].value.Counter? then (space, WrongType) else
    var count := (if k in space then space[k].value.n else 0) + 1;
    var expiresAt := if count == 1 || k !in space then now + windowMs + 1000 else space[k].expiresAtMs;
    var resetAt := start + windowMs;
    var allowed := count <= limit;
    (space[k := Slot(Counter(count), expiresAt)],
     Reply(allowed, limit, if allowed then limit - count else 0, resetAt, Max(0, resetAt - now)))
  }

  function SlidingWindowLogScript(
    space: Keyspace, key: string, limit: int, windowMs: int, member: int, now: int): (Keyspace, Reply)
  {
    var k := Plain(key);
    if k in space && !space[k].value.SortedSet? then (space, WrongType) else
    var kept := RemoveUpTo(if k in space then space[k].value.entries else [], now - windowMs);
    var allowed := |kept| < limit;
    var entries := if allowed then Add(kept, Entry(now, member)) else kept;
    var count := if allowed then |kept| + 1 else |kept|;
    var expiresAt := if allowed || k !in space then now + windowMs + 1000 else space[k].expiresAtMs;
    var resetAt := (if entries != [] then entries[0].score else now) + windowMs;
    (if entries == [] then space - {k} else space[k := Slot(SortedSet(entries), expiresAt)],
     Reply(allowed, limit, if allowed then limit - count else 0, resetAt, Max(0, resetAt - now)))
  }

  /** Unlike the in-memory bucket, the clock of the last refill never goes back. */
  function BucketRefilled(stored: Option<TokenBucket>, full: int, rate: int, now: int): TokenBucket {
    var current := if stored.None? then TokenBucket(full, now) else stored.value;
    if now > current.lastRefillMs then
      TokenBucket(Min(full, current.tokens + (now - current.lastRefillMs) * rate), now)
    else current
  }

  function BucketIn(space: Keyspace, key: string): Option<TokenBucket>
    requires Plain(key) in space ==> space[Plain(key)].value.Hash?
  {
    if Plain(key) in space then
      Some(TokenBucket(space[Plain(key)].value.tokens, space[Plain(key)].value.lastRefillMs))
    else None
  }

  function TokenBucketScript(
    space: Keyspace, key: string, capacity: int, cost: int, rate: int, ttlMs: int, now: int): (Keyspace, Reply)
    requires cost > 0 && rate > 0
  {
    var k := Plain(key);
    if k in space && !space[k].value.Hash? then (space, WrongType) else
    var full := capacity * cost;
    var found := BucketRefilled(BucketIn(space, key), full, rate, now);
    var allowed := found.tokens >= cost;
    var left := if allowed then found.tokens - cost else found.tokens;
    var retry := if allowed then 0 else CeilDiv(cost - found.tokens, rate);
    (space[k := Slot(Hash(left, found.lastRefillMs), now + ttlMs)],
     Reply(allowed, capacity, left / cost, now + CeilDiv(full - left, rate), retry))
  }

  /** Expiry of a bucket as app/services/rate_limiter.py sets it. */
  function BucketTtl(c: Config): int
    requires c.Valid() && c.TokenBucketConfig?
  {
    Max(c.WindowMs(), CeilDiv(c.capacity * c.WindowMs(), c.rate) + c.WindowMs())
  }

  /** The script that `_run_policy` chooses, with its arguments. */
  function RunScript(space: Keyspace, c: Config, key: string, member: int, now: int): (Keyspace, Reply)
    requires c.Valid()
  {
    match c
    case FixedWindowConfig(limit, _) => FixedWindowScript(space, key, limit, c.WindowMs(), now)
    case SlidingLogConfig(limit, _) => SlidingWindowLogScript(space, key, limit, c.WindowMs(), member, now)
    case TokenBucketConfig(capacity, rate, _) =>
      TokenBucketScript(space, key, capacity, c.WindowMs(), rate, BucketTtl(c), now)
  }

  // ----- the scripts, command by command -----

  class Redis {
    var keyspace: Keyspace

    constructor ()
      ensures keyspace == map[]
    {
      keyspace := map[];
    }

    method Expire(victims: set<StoreKey>, now: int)
      modifies this
      ensures keyspace == Purge(old(keyspace), victims, now)
    {
      keyspace := map k | k in keyspace && !(k in victims && keyspace[k].expiresAtMs <= now) :: keyspace[k];
    }

    method EvalFixedWindow(key: string, limit: int, windowMs: int, now: int) returns (reply: Reply)
      requires windowMs > 0
      modifies this
      ensures (keyspace, reply) == FixedWindowScript(old(keyspace), key, limit, windowMs, now)
    {
      var windowStart := WindowStart(now, windowMs);
      var k := Windowed(key, windowStart);
      var count := 1;
      if k in keyspace {
        if !keyspace[k].value.Counter? {
          return WrongType;
        }
        count := keyspace[k].value.n + 1;
      }
      var expiresAt := now + windowMs + 1000;
      if count != 1 && k in keyspace {
        expiresAt := keyspace[k].expiresAtMs;
      }
      keyspace := keyspace[k := Slot(Counter(count), expiresAt)];

      var resetAtMs := windowStart + windowMs;
      var remaining := 0;
      var allowed := false;
      if count <= limit {
        allowed := true;
        remaining := limit - count;
      }
      reply := Reply(allowed, limit, remaining, resetAtMs, Max(0, resetAtMs - now));
    }

    method EvalSlidingWindowLog(key: string, limit: int, windowMs: int, member: int, now: int) returns (reply: Reply)
      modifies this
      ensures (keyspace, reply) == SlidingWindowLogScript(old(keyspace), key, limit, windowMs, member, now)
    {
      var k := Plain(key);
      var entries: seq<Entry> := [];
      var expiresAt := now + windowMs + 1000;
      if k in keyspace {
        if !keyspace[k].value.SortedSet? {
          return WrongType;
        }
        entries, expiresAt := keyspace[k].value.entries, keyspace[k].expiresAtMs;
      }
      entries := RemoveUpTo(entries, now - windowMs);
      var count := |entries|;
      var allowed := false;
      var remaining := 0;
      if count < limit {
        entries := Add(entries, Entry(now, member));
        expiresAt := now + windowMs + 1000;
        count := count + 1;
        allowed := true;
        remaining := limit - count;
      }
      if entries == [] {
        keyspace := keyspace - {k};
      } else {
        keyspace := keyspace[k := Slot(SortedSet(entries), expiresAt)];
      }

      var resetAtMs := now + windowMs;
      if entries != [] {
        resetAtMs := entries[0].score + windowMs;
      }
      reply := Reply(allowed, limit, remaining, resetAtMs, Max(0, resetAtMs - now));
    }

    method EvalTokenBucket(key: string, capacity: int, cost: int, rate: int, ttlMs: int, now: int)
      returns (reply: Reply)
      requires cost > 0 && rate > 0
      modifies this
      ensures (keyspace, reply) == TokenBucketScript(old(keyspace), key, capacity, cost, rate, ttlMs, now)
    {
      var k := Plain(key);
      var full := capacity * cost;
      var tokens, lastRefillMs := full, now;
      if k in keyspace {
        if !keyspace[k].value.Hash? {
          return WrongType;
        }
        tokens, lastRefillMs := keyspace[k].value.tokens, keyspace[k].value.lastRefillMs;
      }

      if now > lastRefillMs {
        var elapsed := now - lastRefillMs;
        tokens := Min(full, tokens + elapsed * rate);
        lastRefillMs := now;
      }

      var allowed := false;
      var remaining := tokens / cost;
      var retryMs := 0;
      if tokens >= cost {
        tokens := tokens - cost;
        allowed := true;
        remaining := tokens / cost;
      } else {
        retryMs := CeilDiv(cost - tokens, rate);
      }

      var refillToFullMs := CeilDiv(full - tokens, rate);
      var resetAtMs := now + refillToFullMs;
      keyspace := keyspace[k := Slot(Hash(tokens, lastRefillMs), now + ttlMs)];
      reply := Reply(allowed, capacity, remaining, resetAtMs, retryMs);
    }

    method RunPolicy(c: Config, key: string, member: int, now: int) returns (reply: Reply)
      requires c.Valid()
      modifies this
      ensures (keyspace, reply) == RunScript(old(keyspace), c, key, member, now)
    {
      match c {
        case FixedWindowConfig(limit, _) => reply := EvalFixedWindow(key, limit, c.WindowMs(), now);
        case SlidingLogConfig(limit, _) => reply := EvalSlidingWindowLog(key, limit, c.WindowMs(), member, now);
        case TokenBucketConfig(capacity, rate, _) =>
          reply := EvalTokenBucket(key, capacity, c.WindowMs(), rate, BucketTtl(c), now);
      }
    }
  }
}
