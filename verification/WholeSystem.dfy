/** Administration, keys and distributed evaluation put together: what a stored policy promises to
  * its clients, whatever instances, caches and networks do. */
module WholeSystem {
  import opened Arith
  import opened Limiters
  import opened FixedWindowRuns
  import opened TokenBucketRuns
  import opened Policies
  import opened KeyBuilder
  import opened PolicyAdmin
  import opened Keyed
  import opened FallbackRuns
  import opened Answers
  import opened RateLimiter
  import opened ScriptRuns
  import opened ResponseHeaders
  import opened Distributed
  import opened DistributedRuns

  ghost predicate KeyOfStored(stored: set<PolicyRead>, key: string, p: PolicyRead, i: RequestIdentity) {
    p in stored && RateLimitKey(p, i) == key
  }

  /** The payload behind a key, if any stored policy has it. */
  ghost function PayloadAt(stored: set<PolicyRead>, key: string): Option<Payload> {
    if exists p, i :: KeyOfStored(stored, key, p, i) then
      var p, i :| KeyOfStored(stored, key, p, i);
      Some(p.payload)
    else None
  }

  ghost function ConfigAt(stored: set<PolicyRead>, key: string): Config {
    var payload := PayloadAt(stored, key);
    if payload.Some? then ConfigOf(payload.value) else FixedWindowConfig(1, 1)
  }

  ghost predicate FailsOpenAt(stored: set<PolicyRead>, key: string) {
    var payload := PayloadAt(stored, key);
    payload.Some? && payload.value.failOpen
  }

  /** The instances treat each key as the policy behind it says. */
  ghost predicate Configured(params: Params, stored: set<PolicyRead>) {
    forall key ::
      params.configs(key) == ConfigAt(stored, key) && params.failOpen(key) == FailsOpenAt(stored, key)
  }

  /** After any serialised administration, that is well defined: each key has a valid configuration,
    * and every policy whose key it is, for any of its requests, gets its own. */
  lemma KeysConfigureOnePolicy(ops: seq<Op>, params: Params)
    requires Serialised(ops) && Configured(params, AdminAfter(ops).stored)
    ensures params.Valid()
    ensures forall p, i :: p in AdminAfter(ops).stored ==>
              && params.configs(RateLimitKey(p, i)) == ConfigOf(p.payload)
              && params.failOpen(RateLimitKey(p, i)) == p.payload.failOpen
  {
    hide RateLimitKey, ValidPayload, ConfigOf, AdminAfter, Serialised;
    var stored := AdminAfter(ops).stored;
    forall key ensures params.configs(key).Valid() {
      ConfigAtValid(ops, key);
    }
    forall p, i | p in stored
      ensures PayloadAt(stored, RateLimitKey(p, i)) == Some(p.payload)
    {
      PayloadAtKey(ops, p, i);
    }
  }

  lemma ConfigAtValid(ops: seq<Op>, key: string)
    requires Serialised(ops)
    ensures ConfigAt(AdminAfter(ops).stored, key).Valid()
  {
    hide RateLimitKey, ValidPayload, ConfigOf;
    var stored := AdminAfter(ops).stored;
    if PayloadAt(stored, key).Some? {
      var p, i :| KeyOfStored(stored, key, p, i) && PayloadAt(stored, key) == Some(p.payload);
      OneKeyOneLimit(ops, p, i, p, i);
    }
  }

  lemma PayloadAtKey(ops: seq<Op>, p: PolicyRead, i: RequestIdentity)
    requires Serialised(ops) && p in AdminAfter(ops).stored
    ensures PayloadAt(AdminAfter(ops).stored, RateLimitKey(p, i)) == Some(p.payload)
  {
    var (stored, key) := (AdminAfter(ops).stored, RateLimitKey(p, i));
    assert KeyOfStored(stored, key, p, i);
    var q, j := BehindKey(stored, key, p, i);
    OneKeyOneLimit(ops, p, i, q, j);
  }

  lemma BehindKey(stored: set<PolicyRead>, key: string, p: PolicyRead, i: RequestIdentity)
    returns (q: PolicyRead, j: RequestIdentity)
    requires KeyOfStored(stored, key, p, i)
    ensures KeyOfStored(stored, key, q, j) && PayloadAt(stored, key) == Some(q.payload)
  {
    hide RateLimitKey;
    q, j :| KeyOfStored(stored, key, q, j) && PayloadAt(stored, key) == Some(q.payload);
  }

  /** A policy keeps its promise: over every serialised administration and every run of any number
    * of instances, the requests that a fixed window policy version applies to are let in at most
    * `rate` times in each of its windows, here the k-th since the epoch, when it fails closed
    * without the fallback, and at most (instances + 1) * rate times with it. */
  lemma PolicyLimit(ops: seq<Op>, params: Params, steps: seq<Distributed.Step>, p: PolicyRead, i: RequestIdentity,
                    k: int)
    requires Serialised(ops) && Configured(params, AdminAfter(ops).stored)
    requires params.Valid() && Legal(params, steps)
    requires p in AdminAfter(ops).stored && p.payload.algorithm.UseFixedWindow?
    requires params.fallback || !p.payload.failOpen
    ensures var windowMs := p.payload.windowSeconds * 1000;
            AllowedAt(WorldAfter(params, steps).responses, RateLimitKey(p, i), k * windowMs, k * windowMs + windowMs)
            <= if params.fallback then (params.instances + 1) * p.payload.rate else p.payload.rate
  {
    hide RateLimitKey, WorldAfter, Legal, AllowedAt, AdminAfter, Serialised, Configured, Aligned;
    KeysConfigureOnePolicy(ops, params);
    var key := RateLimitKey(p, i);
    assert params.configs(key) == ConfigOf(p.payload) && params.configs(key).Valid();
    AlignedMultiple(params.configs(key), k);
    WindowLimit(params, steps, key, k * params.configs(key).WindowMs());
  }

  lemma AlignedMultiple(c: Config, k: int)
    requires c.FixedWindowConfig? && c.Valid()
    ensures Aligned(c, k * c.WindowMs())
  {
    MultipleAligned(k, c.WindowMs());
  }

  /** The same for sliding logs, in any interval of window length; with the fallback each instance
    * adds `rate`, or 2 * rate - 1 if the window outlasts the time to live of its limiter's states. */
  lemma PolicyLogLimit(ops: seq<Op>, params: Params, steps: seq<Distributed.Step>, p: PolicyRead, i: RequestIdentity,
                       from: int)
    requires Serialised(ops) && Configured(params, AdminAfter(ops).stored)
    requires params.Valid() && Legal(params, steps)
    requires p in AdminAfter(ops).stored && p.payload.algorithm.UseSlidingWindowLog?
    requires params.fallback || !p.payload.failOpen
    ensures var (rate, windowMs) := (p.payload.rate, p.payload.windowSeconds * 1000);
            AllowedAt(WorldAfter(params, steps).responses, RateLimitKey(p, i), from, from + windowMs)
            <= if !params.fallback then rate
               else if rate == 1 || windowMs <= params.ttlMs then (params.instances + 1) * rate
               else rate + params.instances * (2 * rate - 1)
  {
    hide RateLimitKey, WorldAfter, Legal, AllowedAt, AdminAfter, Serialised, Configured;
    KeysConfigureOnePolicy(ops, params);
    var key := RateLimitKey(p, i);
    assert params.configs(key) == ConfigOf(p.payload) && params.configs(key).Valid();
    LogLimit(params, steps, key, from);
    Distribute(params.instances, 1, p.payload.rate);
  }

  /** The same for token buckets, in any interval: a full bucket, of the burst capacity or else of
    * `rate` tokens, and the refill pay for every request,
    * once for Redis and once for each instance that can fall back. */
  lemma PolicyBucketLimit(ops: seq<Op>, params: Params, steps: seq<Distributed.Step>, p: PolicyRead, i: RequestIdentity,
                          lo: int, hi: int)
    requires Serialised(ops) && Configured(params, AdminAfter(ops).stored)
    requires params.Valid() && Legal(params, steps) && lo < hi
    requires p in AdminAfter(ops).stored && p.payload.algorithm.UseTokenBucket?
    requires params.fallback || !p.payload.failOpen
    ensures var (rate, windowMs) := (p.payload.rate, p.payload.windowSeconds * 1000);
            var burst := if p.payload.burstCapacity.Some? then p.payload.burstCapacity.value else rate;
            windowMs > 0 &&
            var most := (burst * windowMs + (hi - 1 - lo) * rate) / windowMs;
            AllowedAt(WorldAfter(params, steps).responses, RateLimitKey(p, i), lo, hi)
            <= if params.fallback then (params.instances + 1) * most else most
  {
    hide RateLimitKey, WorldAfter, Legal, AllowedAt, AdminAfter, Serialised, Configured, BucketMost;
    KeysConfigureOnePolicy(ops, params);
    var key := RateLimitKey(p, i);
    assert params.configs(key) == ConfigOf(p.payload) && params.configs(key).Valid();
    BucketLimit(params, steps, key, lo, hi);
    StoredIsValid(ops, p);
    BucketMostOfPayload(p.payload, lo, hi);
  }

  lemma StoredIsValid(ops: seq<Op>, p: PolicyRead)
    requires Serialised(ops) && p in AdminAfter(ops).stored
    ensures ValidPayload(p.payload)
  {
    hide ValidPayload, AdminAfter, Serialised;
    SerialisedRunsKeep(ops);
  }

  lemma BucketMostOfPayload(p: Payload, lo: int, hi: int)
    requires ValidPayload(p) && p.algorithm.UseTokenBucket?
    ensures var windowMs := p.windowSeconds * 1000;
            var burst := if p.burstCapacity.Some? then p.burstCapacity.value else p.rate;
            BucketMost(ConfigOf(p), lo, hi) == (burst * windowMs + (hi - 1 - lo) * p.rate) / windowMs
  {
  }

  // ----- a burst on a fresh key -----

  lemma BurstOfPayload(p: Payload)
    requires ValidPayload(p)
    ensures BurstSize(ConfigOf(p)) == if p.burstCapacity.Some? then p.burstCapacity.value else p.rate
  {
  }

  lemma {:induction false} AllCounted(s: seq<int>, now: int)
    requires forall x :: x in s ==> x == now
    ensures CountIn(s, now, now + 1) == |s|
  {
    if s != [] {
      var t := s[..|s| - 1];
      forall x | x in t ensures x == now {
        var i :| 0 <= i < |t| && t[i] == x;
        assert s[i] in s;
      }
      AllCounted(t, now);
      assert s[|s| - 1] in s;
    }
  }

  lemma BurstCounted(c: Config, now: int, k: nat)
    requires c.Valid()
    ensures CountIn(Admitted(c, Copies(now, k)), now, now + 1) == Min(k, BurstSize(c))
  {
    hide Admitted;
    FreshBurst(c, now, k);
    AdmittedFrom(c, Copies(now, k));
    AllCounted(Admitted(c, Copies(now, k)), now);
  }

  /** A policy gives what it promises: in every run in which Redis has only seen a burst of k requests
    * for one of its keys, all at one instant, the burst capacity of them, or `rate` if there is none,
    * were let in; and each was told so, unless its reply was lost. */
  lemma PolicyBurst(ops: seq<Op>, params: Params, steps: seq<Distributed.Step>, p: PolicyRead, i: RequestIdentity,
                    now: int, k: nat)
    requires Serialised(ops) && Configured(params, AdminAfter(ops).stored)
    requires params.Valid() && Legal(params, steps) && p in AdminAfter(ops).stored
    requires TimesOf(CallsOf(WorldAfter(params, steps).evals), RateLimitKey(p, i)) == Copies(now, k)
    ensures var (w, key) := (WorldAfter(params, steps), RateLimitKey(p, i));
            CountIn(AllowedBy(w.responses, key, FromRedis), now, now + 1) + CountIn(TimesOf(w.lost, key), now, now + 1)
            == Min(k, if p.payload.burstCapacity.Some? then p.payload.burstCapacity.value else p.payload.rate)
  {
    hide RateLimitKey, WorldAfter, Legal, AllowedBy, AdminAfter, Serialised, Configured, CountIn, Admitted, TimesOf,
         BurstSize, ValidPayload, ConfigOf;
    KeysConfigureOnePolicy(ops, params);
    var key := RateLimitKey(p, i);
    assert params.configs(key) == ConfigOf(p.payload) && params.configs(key).Valid();
    NothingLetInTwice(params, steps, key, now, now + 1);
    BurstCounted(params.configs(key), now, k);
    StoredIsValid(ops, p);
    BurstOfPayload(p.payload);
  }

  // ----- what clients are told -----

  /** Every answer for a key of a policy announces its burst capacity, or `rate` if there is none, as
    * the limit; and all its numbers are true of the policy as it was stored. */
  lemma PolicyAnswers(ops: seq<Op>, params: Params, steps: seq<Distributed.Step>, p: PolicyRead, i: RequestIdentity,
                      n: nat)
    requires Serialised(ops) && Configured(params, AdminAfter(ops).stored)
    requires params.Valid() && Legal(params, steps) && p in AdminAfter(ops).stored
    requires n < |WorldAfter(params, steps).responses|
    requires WorldAfter(params, steps).responses[n].key == RateLimitKey(p, i)
    ensures var (w, r) := (WorldAfter(params, steps), WorldAfter(params, steps).responses[n]);
            && params.configs(r.key) == ConfigOf(p.payload) && Justified(params, w, r)
            && r.decision.limit ==
               if p.payload.burstCapacity.Some? then p.payload.burstCapacity.value else p.payload.rate
  {
    hide RateLimitKey, WorldAfter, Legal, AdminAfter, Serialised, Configured, Justified, BurstSize, ValidPayload,
         ConfigOf;
    KeysConfigureOnePolicy(ops, params);
    EveryAnswerIsTrue(params, steps);
    var (w, r) := (WorldAfter(params, steps), WorldAfter(params, steps).responses[n]);
    assert params.configs(r.key) == ConfigOf(p.payload);
    LimitIsAnnounced(params, w, r);
    StoredIsValid(ops, p);
    BurstOfPayload(p.payload);
  }

  lemma LimitIsAnnounced(params: Params, w: World, r: Response)
    requires params.Valid() && Justified(params, w, r)
    ensures r.decision.limit == BurstSize(params.configs(r.key))
  {
    hide RemainingPass, RetryIsLeast, ResetIsFirst, TimesOf, CallsOf, EvictionSafe;
    match r.source {
      case FromRedis =>
        var n: nat :| TrueOfRedis(params, w.evals, r, n);
      case FromLocal(j) =>
        var m: nat, n: nat :| TrueOfLimiter(params, w.local[j], r, m, n);
      case FromPolicy =>
    }
  }
}
