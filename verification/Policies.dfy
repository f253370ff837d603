/** Policies as app/schemas/policy.py defines them. */
module Policies {
  import opened Arith
  import opened Limiters

  datatype Algorithm = UseFixedWindow | UseSlidingWindowLog | UseTokenBucket

  datatype Payload = Payload(
    name: string, description: Option<string>, algorithm: Algorithm, rate: int, windowSeconds: int,
    burstCapacity: Option<int>, active: bool, priority: int, selectors: Selectors, failOpen: bool)

  datatype Selectors = Selectors(
    route: Option<string>, userId: Option<string>, ipAddress: Option<string>, tenantId: Option<string>,
    apiKey: Option<string>)

  datatype PolicyRead = PolicyRead(id: string, version: nat, payload: Payload)

  predicate NoLongerThan(s: Option<string>, max: nat) {
    s.Some? ==> |s.value| <= max
  }

  /** What validation demands of every policy created or updated. */
  predicate ValidPayload(p: Payload) {
    && 3 <= |p.name| <= 120 && NoLongerThan(p.description, 1000)
    && p.rate > 0 && p.windowSeconds > 0 && (p.burstCapacity.Some? ==> p.burstCapacity.value > 0)
    && NoLongerThan(p.selectors.route, 255) && NoLongerThan(p.selectors.userId, 128)
    && NoLongerThan(p.selectors.ipAddress, 64) && NoLongerThan(p.selectors.tenantId, 128)
    && NoLongerThan(p.selectors.apiKey, 128)
    && (!p.algorithm.UseTokenBucket? ==> p.burstCapacity.None?)
  }

  /** `burst_capacity or rate` */
  function Capacity(p: Payload): int {
    if p.burstCapacity.Some? && p.burstCapacity.value != 0 then p.burstCapacity.value else p.rate
  }

  function ConfigOf(p: Payload): (c: Config)
    ensures ValidPayload(p) ==> c.Valid()
  {
    match p.algorithm
    case UseFixedWindow => FixedWindowConfig(p.rate, p.windowSeconds)
    case UseSlidingWindowLog => SlidingLogConfig(p.rate, p.windowSeconds)
    case UseTokenBucket => TokenBucketConfig(Capacity(p), p.rate, p.windowSeconds)
  }

  datatype RequestIdentity = RequestIdentity(
    route: string, userId: Option<string>, ipAddress: Option<string>, tenantId: Option<string>,
    apiKey: Option<string>)
}
