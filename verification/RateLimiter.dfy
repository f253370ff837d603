/** The evaluation of one request in app/services/rate_limiter.py: script attempts against Redis,
  * a bounded number of retries, then the in-memory limiter or a fixed answer. What becomes of each
  * attempt is up to the network, and is a parameter. */
module RateLimiter {
  import opened Arith
  import opened Limiters
  import opened Fallback
  import opened RedisScripts

  datatype RateLimitDecision = RateLimitDecision(
    allowed: bool, limit: int, remaining: int, resetAtEpochSeconds: int, retryAfterSeconds: int,
    degraded: bool, localFallback: bool)

  function ParseCommonDecision(reply: Reply): RateLimitDecision
    requires reply.Reply?
  {
    RateLimitDecision(reply.allowed, reply.limit, reply.remaining, CeilDiv(reply.resetAtMs, 1000),
                      if reply.allowed then 0 else CeilDiv(reply.retryMs, 1000), false, false)
  }

  function LocalDecision(d: FallbackDecision): RateLimitDecision {
    RateLimitDecision(d.allowed, d.limit, d.remaining, d.resetAtEpochSeconds, d.retryAfterSeconds, true, true)
  }

  /** The answer without any limiter: by the policy's failure mode. */
  function BuildDegradedDecision(p: Policy, nowEpoch: int): RateLimitDecision {
    var limit := HeaderLimit(p.config);
    if p.failOpen then
      RateLimitDecision(true, limit, limit, nowEpoch + p.config.windowSeconds, 0, true, false)
    else
      RateLimitDecision(false, limit, 0, nowEpoch + 1, 1, true, false)
  }

  /** What decides about a request, of the policy that was selected for it. */
  datatype Policy = Policy(config: Config, failOpen: bool)

  /** The script either never runs, or runs once and its reply may be lost. */
  datatype Attempt =
    | NeverRan
    | Ran(nowMs: int, member: int, victims: set<StoreKey>, delivered: bool)

  /** One `_run_policy`: the keyspace it leaves, and the decision unless it raises a RedisError. */
  function RunPolicy(space: Keyspace, c: Config, key: string, a: Attempt): (Keyspace, Option<RateLimitDecision>)
    requires c.Valid()
  {
    match a
    case NeverRan => (space, None)
    case Ran(nowMs, member, victims, delivered) =>
      var (next, reply) := RunScript(Purge(space, victims, nowMs), c, key, member, nowMs);
      (next, if delivered && reply.Reply? then Some(ParseCommonDecision(reply)) else None)
  }

  function MaxAttempts(retryAttempts: int): (n: nat)
    ensures n >= 1
  {
    Max(1, retryAttempts + 1)
  }

  /** Attempts until the first that brings a decision. */
  function TryAll(space: Keyspace, c: Config, key: string, attempts: seq<Attempt>)
    : (Keyspace, Option<RateLimitDecision>)
    requires c.Valid()
    decreases |attempts|
  {
    if attempts == [] then (space, None)
    else
      var (next, decision) := RunPolicy(space, c, key, attempts[0]);
      if decision.Some? then (next, decision) else TryAll(next, c, key, attempts[1..])
  }

  /** What the instance answers when every attempt has failed, and what that does to its store. */
  function Recover(fallback: bool, ttlMs: int, store: Store, p: Policy, key: string, clockMs: int)
    : (Store, RateLimitDecision)
    requires p.config.Valid()
  {
    if fallback then
      var (next, d) := Apply(ttlMs, store, p.config, key, clockMs);
      (next, LocalDecision(ToDecision(p.config, d)))
    else (store, BuildDegradedDecision(p, clockMs / 1000))
  }

  class RateLimiterService {
    const redis: Redis
    const localFallback: LocalFallbackLimiter
    const retryAttempts: int
    const enableLocalFallback: bool

    constructor (redis: Redis, localFallback: LocalFallbackLimiter, retryAttempts: int, enableLocalFallback: bool)
      ensures this.redis == redis && this.localFallback == localFallback
      ensures this.retryAttempts == retryAttempts && this.enableLocalFallback == enableLocalFallback
    {
      this.redis, this.localFallback := redis, localFallback;
      this.retryAttempts, this.enableLocalFallback := retryAttempts, enableLocalFallback;
    }

    method TryOnce(c: Config, key: string, a: Attempt) returns (decision: Option<RateLimitDecision>)
      requires c.Valid()
      modifies redis
      ensures (redis.keyspace, decision) == RunPolicy(old(redis.keyspace), c, key, a)
    {
      match a {
        case NeverRan => decision := None;
        case Ran(nowMs, member, victims, delivered) =>
          redis.Expire(victims, nowMs);
          var reply := redis.RunPolicy(c, key, member, nowMs);
          decision := if delivered && reply.Reply? then Some(ParseCommonDecision(reply)) else None;
      }
    }

    method RecoverAfterRedisFailure(p: Policy, key: string, clockMs: int) returns (decision: RateLimitDecision)
      requires p.config.Valid() && localFallback.Valid() && clockMs >= 0
      modifies localFallback, localFallback.States()
      ensures localFallback.Valid() && fresh(localFallback.States() - old(localFallback.States()))
      ensures (localFallback.View(), decision) ==
              Recover(enableLocalFallback, localFallback.stateTtlMs, old(localFallback.View()), p, key, clockMs)
    {
      if enableLocalFallback {
        var d := localFallback.ApplyCall(p.config, key, None, clockMs);
        decision := LocalDecision(d);
      } else {
        decision := BuildDegradedDecision(p, clockMs / 1000);
      }
    }

    /** `attempts` says what becomes of each attempt, if it comes to that. Without a policy the
      * request is not limited. */
    method Evaluate(policy: Option<Policy>, key: string, attempts: seq<Attempt>, clockMs: int)
      returns (decision: Option<RateLimitDecision>)
      requires policy.Some? ==> policy.value.config.Valid()
      requires localFallback.Valid() && clockMs >= 0 && |attempts| == Max(1, retryAttempts + 1)
      modifies redis, localFallback, localFallback.States()
      ensures localFallback.Valid() && fresh(localFallback.States() - old(localFallback.States()))
      ensures policy.None? ==>
                decision == None && redis.keyspace == old(redis.keyspace)
                && localFallback.View() == old(localFallback.View())
      ensures policy.Some? ==>
                var tried := TryAll(old(redis.keyspace), policy.value.config, key, attempts);
                var recovered := Recover(enableLocalFallback, localFallback.stateTtlMs, old(localFallback.View()),
                                         policy.value, key, clockMs);
                && redis.keyspace == tried.0
                && decision == (if tried.1.Some? then tried.1 else Some(recovered.1))
                && localFallback.View() == (if tried.1.Some? then old(localFallback.View()) else recovered.0)
    {
      hide RunPolicy, Recover;
      if policy.None? {
        return None;
      }
      decision := None;
      var attempt := 0;
      while attempt < MaxAttempts(retryAttempts) && decision.None?
        invariant 0 <= attempt <= |attempts|
        invariant localFallback.Valid() && localFallback.States() == old(localFallback.States())
        invariant localFallback.View() == old(localFallback.View())
        invariant decision.None? ==>
                    TryAll(old(redis.keyspace), policy.value.config, key, attempts) ==
                    TryAll(redis.keyspace, policy.value.config, key, attempts[attempt..])
        invariant decision.Some? ==>
                    TryAll(old(redis.keyspace), policy.value.config, key, attempts) == (redis.keyspace, decision)
      {
        decision := TryOnce(policy.value.config, key, attempts[attempt]);
        assert attempts[attempt..][1..] == attempts[attempt + 1..];
        attempt := attempt + 1;
      }
      if decision.None? {
        var recovered := RecoverAfterRedisFailure(policy.value, key, clockMs);
        decision := Some(recovered);
      }
    }
  }
}
