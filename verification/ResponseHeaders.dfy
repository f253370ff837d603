/** What a client may rely on in an answer, whoever gives it: the numbers of the rate-limit headers,
  * which are in whole seconds, said in terms of what later requests will meet. */
module ResponseHeaders {
  import opened Arith
  import opened Limiters
  import opened TokenBucketRuns
  import opened Answers
  import opened Keyed
  import opened Fallback
  import opened FallbackRuns
  import opened RedisScripts
  import opened ScriptRuns
  import opened RateLimiter
  import opened Distributed
  import opened DistributedRuns
  import opened KeyBuilder

  function SecondsAfter(now: int, seconds: int): int { now + seconds * 1000 }

  /** How many requests can be stored up: what the limit header announces. */
  ghost predicate IsLimit(c: Config, n: int) {
    match c
    case FixedWindowConfig(limit, _) => n == limit
    case SlidingLogConfig(limit, _) => n == limit
    case TokenBucketConfig(capacity, _, _) => n == capacity
  }

  /** Of a burst right after the request, exactly the first `remaining` pass. */
  ghost predicate RemainingPass(c: Config, history: seq<int>, now: int, remaining: int)
    requires c.Valid()
  {
    remaining >= 0 && forall k: nat :: Allows(c, history + Copies(now, k), now) <==> k < remaining
  }

  /** After denied probes, the key is let in again `seconds` whole seconds from now, and not earlier. */
  ghost predicate RetryIsLeast(c: Config, history: seq<int>, now: int, seconds: int)
    requires c.Valid()
  {
    && seconds >= 1
    && forall probes, s: nat ::
         NonDecreasing(history + probes + [SecondsAfter(now, s)]) && Denied(c, history, probes) ==>
           (Allows(c, history + probes, SecondsAfter(now, s)) <==> s >= seconds)
  }

  /** What a client waits for at instant t: the whole limit of a fixed window, more room in a sliding
    * log than right after the request, a full bucket. */
  ghost predicate Restored(c: Config, history: seq<int>, now: int, probes: seq<int>, t: int)
    requires c.Valid()
  {
    var s := After(c, history + probes);
    match c
    case FixedWindowConfig(limit, _) => Quota(c, s, t) == limit
    case SlidingLogConfig(_, _) => Quota(c, s, t) > Quota(c, After(c, history), now)
    case TokenBucketConfig(_, _, _) => Available(c, s, t) == Full(c)
  }

  /** `epoch` is the first second, counted from the epoch, at which that has come. */
  ghost predicate ResetIsFirst(c: Config, history: seq<int>, now: int, epoch: int)
    requires c.Valid()
  {
    && SecondsAfter(0, epoch) >= now
    && forall probes, e: int ::
         NonDecreasing(history + probes + [SecondsAfter(0, e)]) && Denied(c, history, probes) ==>
           (Restored(c, history, now, probes, SecondsAfter(0, e)) <==> e >= epoch)
  }

  /** Everything that decision d tells about a request at `now` after the requests at `times`. */
  ghost predicate Truthful(c: Config, times: seq<int>, now: int, d: RateLimitDecision)
    requires c.Valid()
  {
    var history := times + [now];
    && (d.allowed <==> Allows(c, times, now))
    && IsLimit(c, d.limit)
    && RemainingPass(c, history, now, d.remaining)
    && (if d.allowed then d.retryAfterSeconds == 0 else RetryIsLeast(c, history, now, d.retryAfterSeconds))
    && ResetIsFirst(c, history, now, d.resetAtEpochSeconds)
  }

  // ----- one answer -----

  lemma RemainingIsTrue(c: Config, times: seq<int>, now: int)
    requires c.Valid() && NonDecreasing(times + [now])
    ensures RemainingPass(c, times + [now], now, Decide(c, times, now).remaining)
  {
    hide Allows, Decide, NonDecreasing, Quota;
    RemainingOfDecide(c, times, now);
    forall k: nat
      ensures Allows(c, times + [now] + Copies(now, k), now) <==> k < Decide(c, times, now).remaining
    {
      RemainingIsExact(c, times, now, k);
    }
  }

  lemma RetryAfterProbes(c: Config, times: seq<int>, now: int, probes: seq<int>, s: nat)
    requires c.Valid() && NonDecreasing(times + [now] + probes + [SecondsAfter(now, s)])
    requires !Decide(c, times, now).allowed && Denied(c, times + [now], probes)
    ensures Allows(c, times + [now] + probes, SecondsAfter(now, s)) <==>
            s >= CeilDiv(Decide(c, times, now).retryAfterMs, 1000)
  {
    hide Allows, Decide, Quota, Denied, After, NonDecreasing;
    var (history, t) := (times + [now], SecondsAfter(now, s));
    assert history + (probes + [t]) == history + probes + [t];
    PrefixNonDecreasing(history, probes + [t]);
    RetryOfDecide(c, times, now, t);
    AllowsThroughDenials(c, history, probes, t);
    CeilDivLeast(Decide(c, times, now).retryAfterMs, 1000, s);
  }

  lemma RetryIsTrue(c: Config, times: seq<int>, now: int)
    requires c.Valid() && NonDecreasing(times + [now]) && !Decide(c, times, now).allowed
    ensures RetryIsLeast(c, times + [now], now, CeilDiv(Decide(c, times, now).retryAfterMs, 1000))
  {
    hide Allows, Decide, Denied, NonDecreasing, Quota, After, SecondsAfter;
    var retry := Decide(c, times, now).retryAfterMs;
    RetryOfDecide(c, times, now, now);
    CeilDivLeast(retry, 1000, 0);
    forall probes, s: nat
      | NonDecreasing(times + [now] + probes + [SecondsAfter(now, s)]) && Denied(c, times + [now], probes)
      ensures Allows(c, times + [now] + probes, SecondsAfter(now, s)) <==> s >= CeilDiv(retry, 1000)
    {
      RetryAfterProbes(c, times, now, probes, s);
    }
  }

  lemma ResetAhead(c: Config, times: seq<int>, now: int)
    requires c.Valid() && NonDecreasing(times + [now])
    ensures Decide(c, times, now).resetAtMs >= now
  {
    var at := BeforeAndAfter(c, times, now);
    var s := After(c, times);
    match c {
      case FixedWindowConfig(_, _) =>
      case SlidingLogConfig(_, _) => NextAllRecent(c, s, at, now); LogAnswer(c, s, now);
      case TokenBucketConfig(_, _, _) => BucketAnswer(c, s, now);
    }
  }

  lemma ResetAfterProbes(c: Config, times: seq<int>, now: int, probes: seq<int>, e: int)
    requires c.Valid() && NonDecreasing(times + [now] + probes + [SecondsAfter(0, e)])
    requires Denied(c, times + [now], probes)
    ensures Restored(c, times + [now], now, probes, SecondsAfter(0, e)) <==>
            e >= CeilDiv(Decide(c, times, now).resetAtMs, 1000)
  {
    hide Allows, Decide, Quota, Denied, After, NonDecreasing, Available, Full;
    ResetIsExact(c, times, now, probes, SecondsAfter(0, e));
    CeilDivLeast(Decide(c, times, now).resetAtMs, 1000, e);
  }

  lemma ResetIsTrue(c: Config, times: seq<int>, now: int)
    requires c.Valid() && NonDecreasing(times + [now])
    ensures ResetIsFirst(c, times + [now], now, CeilDiv(Decide(c, times, now).resetAtMs, 1000))
  {
    hide Decide, Denied, NonDecreasing, Restored;
    var reset := Decide(c, times, now).resetAtMs;
    ResetAhead(c, times, now);
    CeilDivLeast(reset, 1000, CeilDiv(reset, 1000));
    forall probes, e: int
      | NonDecreasing(times + [now] + probes + [SecondsAfter(0, e)]) && Denied(c, times + [now], probes)
      ensures Restored(c, times + [now], now, probes, SecondsAfter(0, e)) <==> e >= CeilDiv(reset, 1000)
    {
      ResetAfterProbes(c, times, now, probes, e);
    }
  }

  lemma DecisionIsTrue(c: Config, times: seq<int>, now: int, d: RateLimitDecision)
    requires c.Valid() && NonDecreasing(times + [now])
    requires var due := Decide(c, times, now);
             && d.allowed == due.allowed && IsLimit(c, d.limit) && d.remaining == due.remaining
             && d.resetAtEpochSeconds == CeilDiv(due.resetAtMs, 1000)
             && d.retryAfterSeconds == (if due.allowed then 0 else CeilDiv(due.retryAfterMs, 1000))
    ensures Truthful(c, times, now, d)
  {
    hide Allows, Decide, NonDecreasing, RemainingPass, RetryIsLeast, ResetIsFirst, IsLimit;
    AllowedIsDue(c, times, now);
    RemainingIsTrue(c, times, now);
    ResetIsTrue(c, times, now);
    if !d.allowed {
      RetryIsTrue(c, times, now);
    }
  }

  lemma AllowedIsDue(c: Config, times: seq<int>, now: int)
    requires c.Valid()
    ensures Decide(c, times, now).allowed <==> Allows(c, times, now)
  {
  }

  /** The reply that is due, as the service passes it on. */
  lemma ParsedIsTrue(c: Config, times: seq<int>, now: int)
    requires c.Valid() && NonDecreasing(times + [now])
    ensures Truthful(c, times, now, ParseCommonDecision(ReplyOf(c, Decide(c, times, now))))
  {
    hide Decide, Truthful, NonDecreasing;
    DecisionIsTrue(c, times, now, ParseCommonDecision(ReplyOf(c, Decide(c, times, now))));
  }

  /** The fallback's answer that is due, as the service passes it on. */
  lemma LocalIsTrue(c: Config, times: seq<int>, now: int)
    requires c.Valid() && NonDecreasing(times + [now])
    ensures Truthful(c, times, now, LocalDecision(ToDecision(c, Decide(c, times, now))))
  {
    hide Decide, Truthful, NonDecreasing;
    DecisionIsTrue(c, times, now, LocalDecision(ToDecision(c, Decide(c, times, now))));
  }

  // ----- all answers of a run -----

  /** From Redis: true of all calls of the key that Redis had run before. */
  ghost predicate TrueOfRedis(p: Params, evals: seq<Eval>, r: Response, n: nat)
    requires p.Valid()
  {
    && n < |evals| && evals[n].call == Call(r.key, r.nowMs)
    && Truthful(p.configs(r.key), TimesOf(CallsOf(evals[..n]), r.key), r.nowMs, r.decision)
  }

  /** From a fallback limiter: true of the calls of the key that it had run before, all of them if the
    * configuration is safe, and otherwise those since the state was last forgotten. */
  ghost predicate TrueOfLimiter(p: Params, calls: seq<Call>, r: Response, m: nat, n: nat)
    requires p.Valid()
  {
    && m <= n < |calls| && calls[n] == Call(r.key, r.nowMs)
    && (EvictionSafe(p.configs(r.key), p.ttlMs) ==> m == 0)
    && Truthful(p.configs(r.key), TimesOf(calls[m..n], r.key), r.nowMs, r.decision)
  }

  /** Without either, by the failure mode: failing open, the whole limit, until a window from the
    * current second on; failing closed, nothing until the next second. */
  ghost predicate ByFailureMode(c: Config, failOpen: bool, now: int, d: RateLimitDecision) {
    && d.allowed == failOpen && IsLimit(c, d.limit)
    && d.remaining == (if failOpen then d.limit else 0)
    && d.retryAfterSeconds == (if failOpen then 0 else 1)
    && var wait := if failOpen then c.windowSeconds else 1;
       SecondsAfter(now, wait) - 1000 < SecondsAfter(0, d.resetAtEpochSeconds) <= SecondsAfter(now, wait)
  }

  ghost predicate Justified(p: Params, w: World, r: Response)
    requires p.Valid()
  {
    match r.source
    case FromRedis =>
      && !r.decision.degraded && !r.decision.localFallback
      && exists n: nat :: TrueOfRedis(p, w.evals, r, n)
    case FromLocal(i) =>
      && p.fallback && r.decision.degraded && r.decision.localFallback
      && i < |w.local| && exists m: nat, n: nat :: TrueOfLimiter(p, w.local[i], r, m, n)
    case FromPolicy =>
      && !p.fallback && r.decision.degraded && !r.decision.localFallback
      && ByFailureMode(p.configs(r.key), p.failOpen(r.key), r.nowMs, r.decision)
  }

  ghost predicate AllJustified(p: Params, w: World)
    requires p.Valid()
  {
    forall k: nat :: k < |w.responses| ==> Justified(p, w, w.responses[k])
  }

  /** The logs have only grown from w to w'. */
  predicate Grown(w: World, w': World) {
    && w.evals <= w'.evals && |w.local| == |w'.local|
    && forall i: nat :: i < |w.local| ==> w.local[i] <= w'.local[i]
  }

  lemma JustifiedLater(p: Params, w: World, w': World, r: Response)
    requires p.Valid() && Justified(p, w, r) && Grown(w, w')
    ensures Justified(p, w', r)
  {
    hide Truthful, EvictionSafe, ByFailureMode, TimesOf, CallsOf;
    match r.source {
      case FromRedis =>
        var n: nat :| TrueOfRedis(p, w.evals, r, n);
        assert w'.evals[..n] == w.evals[..n];
        assert TrueOfRedis(p, w'.evals, r, n);
      case FromLocal(i) =>
        var m: nat, n: nat :| TrueOfLimiter(p, w.local[i], r, m, n);
        assert w'.local[i][m..n] == w.local[i][m..n];
        assert TrueOfLimiter(p, w'.local[i], r, m, n);
      case FromPolicy =>
    }
  }

  lemma AllJustifiedLater(p: Params, w: World, w': World)
    requires p.Valid() && AllJustified(p, w) && Grown(w, w') && w'.responses == w.responses
    ensures AllJustified(p, w')
  {
    hide Justified, Grown;
    forall k: nat | k < |w'.responses| ensures Justified(p, w', w'.responses[k]) {
      JustifiedLater(p, w, w', w.responses[k]);
    }
  }

  lemma JustifiedSnoc(p: Params, w: World, w': World, r: Response)
    requires p.Valid() && AllJustified(p, w) && Grown(w, w') && w'.responses == w.responses + [r]
    requires Justified(p, w', r)
    ensures AllJustified(p, w')
  {
    hide Justified, Grown;
    forall k: nat | k < |w'.responses| ensures Justified(p, w', w'.responses[k]) {
      if k < |w.responses| {
        JustifiedLater(p, w, w', w.responses[k]);
      }
    }
  }

  lemma EvalTimesInOrder(p: Params, w: World, id: int, a: Attempt)
    requires p.Valid() && RedisLogged(p, w) && Enabled(p, w, Try(id, a)) && a.Ran?
    ensures NonDecreasing(TimesOf(CallsOf(w.evals), w.flights[id].key) + [a.nowMs])
  {
    hide RunScript, Realistic, SpaceAfter, Admits, Decide;
    var key := w.flights[id].key;
    TryRuns(p, w, id, a);
    EvalsSnoc(p.configs, w.evals, EvalOf(key, a));
    NextInOrder(CallsOf(w.evals), Call(key, a.nowMs));
  }

  lemma TryAnswer(p: Params, w: World, id: int, a: Attempt) returns (r: Response)
    requires p.Valid() && RedisLogged(p, w) && Enabled(p, w, Try(id, a)) && a.Ran? && a.delivered
    ensures TryNext(p, w, id, a).responses == w.responses + [r]
    ensures var key := w.flights[id].key;
            r == Response(id, key, a.nowMs, FromRedis,
                          ParseCommonDecision(ReplyOf(p.configs(key),
                            Decide(p.configs(key), TimesOf(CallsOf(w.evals), key), a.nowMs))))
  {
    hide RunScript, Admits, Decide, LetsIn, ParseCommonDecision, RedisLogged, Purge, RateLimiter.RunPolicy;
    TryDecides(p, w, id, a);
    var key := w.flights[id].key;
    r := Response(id, key, a.nowMs, FromRedis,
                  ParseCommonDecision(ReplyOf(p.configs(key),
                    Decide(p.configs(key), TimesOf(CallsOf(w.evals), key), a.nowMs))));
  }

  lemma TryGrown(p: Params, w: World, id: int, a: Attempt)
    requires p.Valid() && id in w.flights
    ensures Grown(w, TryNext(p, w, id, a))
    ensures !(a.Ran? && a.delivered) ==> TryNext(p, w, id, a).responses == w.responses
  {
    hide RunScript, LetsIn, Purge;
  }

  lemma RedisJustified(p: Params, w: World, past: seq<Eval>, e: Eval, r: Response)
    requires p.Valid() && w.evals == past + [e] && e.call == Call(r.key, r.nowMs) && r.source == FromRedis
    requires NonDecreasing(TimesOf(CallsOf(past), r.key) + [r.nowMs])
    requires r.decision ==
             ParseCommonDecision(ReplyOf(p.configs(r.key),
               Decide(p.configs(r.key), TimesOf(CallsOf(past), r.key), r.nowMs)))
    ensures Justified(p, w, r)
  {
    hide Decide, Truthful, TimesOf, CallsOf, NonDecreasing;
    ParsedIsTrue(p.configs(r.key), TimesOf(CallsOf(past), r.key), r.nowMs);
    assert w.evals[..|past|] == past;
    assert TrueOfRedis(p, w.evals, r, |past|);
  }

  lemma TryJustified(p: Params, w: World, id: int, a: Attempt)
    requires p.Valid() && RedisLogged(p, w) && Enabled(p, w, Try(id, a)) && AllJustified(p, w)
    ensures AllJustified(p, TryNext(p, w, id, a))
  {
    hide RunScript, Decide, LetsIn, Purge, TryNext, Grown, AllJustified, Justified, RedisLogged, TimesOf, CallsOf,
         ParseCommonDecision, NonDecreasing, RateLimiter.RunPolicy;
    var next := TryNext(p, w, id, a);
    TryGrown(p, w, id, a);
    if a.Ran? && a.delivered {
      TrySpace(p, w, id, a);
      EvalTimesInOrder(p, w, id, a);
      var r := TryAnswer(p, w, id, a);
      RedisJustified(p, next, w.evals, EvalOf(w.flights[id].key, a), r);
      JustifiedSnoc(p, w, next, r);
    } else {
      AllJustifiedLater(p, w, next);
    }
  }

  lemma RecoveryGrown(p: Params, w: World, id: int, clockMs: int) returns (r: Response)
    requires p.Valid() && Enabled(p, w, Recovery(id, clockMs))
    ensures var (f, next) := (w.flights[id], RecoveryNext(p, w, id, clockMs));
            && Grown(w, next) && next.responses == w.responses + [r]
            && r.key == f.key && r.nowMs == clockMs
            && r.source == (if p.fallback then FromLocal(f.instance) else FromPolicy)
            && (!p.fallback ==> r.decision == BuildDegradedDecision(p.PolicyOf(f.key), clockMs / 1000))
            && f.instance < |w.local| == |next.local|
            && (p.fallback ==>
                  next.local[f.instance] == w.local[f.instance] + [Call(f.key, clockMs)])
  {
    hide Fallback.Apply, BuildDegradedDecision, ToDecision;
    var next := RecoveryNext(p, w, id, clockMs);
    r := next.responses[|w.responses|];
  }

  lemma DegradedByFailureMode(policy: Policy, now: int)
    requires policy.config.Valid()
    ensures var d := BuildDegradedDecision(policy, now / 1000);
            d.degraded && !d.localFallback && ByFailureMode(policy.config, policy.failOpen, now, d)
  {
  }

  lemma LocalDue(ttlMs: nat, configs: Configs, past: seq<Call>, call: Call) returns (m: nat)
    requires AllValid(configs) && InOrder(past + [call])
    ensures m <= |past| && (EvictionSafe(configs(call.key), ttlMs) ==> m == 0)
    ensures var times := TimesOf(past[m..], call.key);
            && NonDecreasing(times + [call.nowMs])
            && Given(ttlMs, configs, past, call) == Decide(configs(call.key), times, call.nowMs)
  {
    hide Decide, Given, EvictionSafe, InOrder, TimesOf, NonDecreasing;
    m := DueSinceForgotten(ttlMs, configs, past, call);
    SuffixInOrder(past + [call], m);
    assert (past + [call])[m..] == past[m..] + [call];
    NextInOrder(past[m..], call);
  }

  lemma CallInOrder(p: Params, w: World, id: int, clockMs: int)
    requires p.Valid() && Logged(p, w) && Enabled(p, w, Recovery(id, clockMs))
    ensures InOrder(w.local[w.flights[id].instance] + [Call(w.flights[id].key, clockMs)])
  {
    hide StoreAfter, RedisLogged;
    var f := w.flights[id];
    assert StoreLogged(p, w, f.instance);
    InOrderSnoc(w.local[f.instance], Call(f.key, clockMs));
  }

  lemma LocalJustified(p: Params, past: seq<Call>, call: Call, calls: seq<Call>, r: Response)
    requires p.Valid() && InOrder(past + [call]) && calls == past + [call]
    requires r.key == call.key && r.nowMs == call.nowMs
    requires r.decision == LocalDecision(ToDecision(p.configs(r.key), Given(p.ttlMs, p.configs, past, call)))
    ensures exists m: nat, n: nat :: TrueOfLimiter(p, calls, r, m, n)
  {
    hide Decide, Truthful, Given, ToDecision, EvictionSafe, TimesOf, NonDecreasing, InOrder;
    var m := LocalDue(p.ttlMs, p.configs, past, call);
    LocalIsTrue(p.configs(call.key), TimesOf(past[m..], call.key), call.nowMs);
    assert calls[m..|past|] == past[m..];
    assert TrueOfLimiter(p, calls, r, m, |past|);
  }

  lemma RecoveryJustified(p: Params, w: World, id: int, clockMs: int)
    requires p.Valid() && Logged(p, w) && Enabled(p, w, Recovery(id, clockMs)) && AllJustified(p, w)
    ensures AllJustified(p, RecoveryNext(p, w, id, clockMs))
  {
    hide RecoveryNext, Grown, AllJustified, Given, ToDecision, BuildDegradedDecision, ByFailureMode, Logged,
         TrueOfLimiter;
    var (f, next) := (w.flights[id], RecoveryNext(p, w, id, clockMs));
    var r := RecoveryGrown(p, w, id, clockMs);
    RecoveryFields(p, w, id, clockMs);
    if p.fallback {
      CallInOrder(p, w, id, clockMs);
      LocalJustified(p, w.local[f.instance], Call(f.key, clockMs), next.local[f.instance], r);
      LocalFlags(p.configs(f.key), Given(p.ttlMs, p.configs, w.local[f.instance], Call(f.key, clockMs)));
    } else {
      DegradedByFailureMode(p.PolicyOf(f.key), clockMs);
    }
    JustifiedSnoc(p, w, next, r);
  }

  lemma LocalFlags(c: Config, d: Computation)
    ensures var told := LocalDecision(ToDecision(c, d)); told.degraded && told.localFallback
  {
  }

  /** Every answer of every run, from whichever source, tells the truth about its limit, what
    * remains, when to retry and when all is restored, to the second. */
  lemma {:induction false} EveryAnswerIsTrue(p: Params, steps: seq<Step>)
    requires p.Valid() && Legal(p, steps)
    ensures AllJustified(p, WorldAfter(p, steps))
  {
    hide TryNext, RecoveryNext, AllJustified, Logged;
    if steps == [] {
      NoAnswers(p);
    } else {
      var (before, step) := (steps[..|steps| - 1], steps[|steps| - 1]);
      var w := WorldAfter(p, before);
      EveryAnswerIsTrue(p, before);
      RunLogged(p, before);
      match step {
        case Arrive(id, instance, key) => AllJustifiedLater(p, w, StepNext(p, w, step));
        case Try(id, attempt) => FromLogged(p, w); TryJustified(p, w, id, attempt);
        case Recovery(id, clockMs) => RecoveryJustified(p, w, id, clockMs);
      }
    }
  }

  lemma FromLogged(p: Params, w: World)
    requires p.Valid() && Logged(p, w)
    ensures RedisLogged(p, w)
  {
  }

  lemma NoAnswers(p: Params)
    requires p.Valid()
    ensures AllJustified(p, Initial(p))
  {
  }

  // ----- the headers themselves -----

  /** X-RateLimit-Limit, X-RateLimit-Remaining, X-RateLimit-Reset and Retry-After, as text. */
  datatype Headers = Headers(limit: string, remaining: string, reset: string, retryAfter: string)

  function Text(n: int): string { if n < 0 then "-" + Decimal(-n) else Decimal(n) }

  function HeadersOf(d: RateLimitDecision): Headers {
    Headers(Text(d.limit), Text(Max(0, d.remaining)), Text(d.resetAtEpochSeconds), Text(Max(0, d.retryAfterSeconds)))
  }

  /** How a client reads a number. */
  function Number(text: string): int {
    if text != "" && text[0] == '-' then -Read(text[1..]) else Read(text)
  }

  lemma NumberOfText(n: int)
    ensures Number(Text(n)) == n
  {
    hide Decimal, Read;
    DecimalReads(if n < 0 then -n else n);
    if n < 0 {
      assert ("-" + Decimal(-n))[1..] == Decimal(-n);
    } else {
      assert Decimal(n)[0] in Decimal(n);
    }
  }

  lemma NothingNegative(p: Params, w: World, r: Response)
    requires p.Valid() && Justified(p, w, r)
    ensures r.decision.remaining >= 0 && r.decision.retryAfterSeconds >= 0
  {
    hide ResetIsFirst, TimesOf, CallsOf, EvictionSafe;
    match r.source {
      case FromRedis =>
        var n: nat :| TrueOfRedis(p, w.evals, r, n);
      case FromLocal(i) =>
        var m: nat, n: nat :| TrueOfLimiter(p, w.local[i], r, m, n);
      case FromPolicy =>
    }
  }

  /** What a client reads in the headers of any answer is what was decided; cutting off at zero never
    * matters. */
  lemma HeadersSayTheDecision(p: Params, steps: seq<Step>, n: nat)
    requires p.Valid() && Legal(p, steps) && n < |WorldAfter(p, steps).responses|
    ensures var d := WorldAfter(p, steps).responses[n].decision;
            var headers := HeadersOf(d);
            && Number(headers.limit) == d.limit && Number(headers.remaining) == d.remaining
            && Number(headers.reset) == d.resetAtEpochSeconds && Number(headers.retryAfter) == d.retryAfterSeconds
  {
    hide Number, Text, Justified, WorldAfter;
    EveryAnswerIsTrue(p, steps);
    var (w, d) := (WorldAfter(p, steps), WorldAfter(p, steps).responses[n].decision);
    NothingNegative(p, w, w.responses[n]);
    NumberOfText(d.limit);
    NumberOfText(d.remaining);
    NumberOfText(d.resetAtEpochSeconds);
    NumberOfText(d.retryAfterSeconds);
  }
}
