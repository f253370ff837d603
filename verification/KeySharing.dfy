/** Which requests share a counter: the identity that the keys of app/services/key_builder.py show. */
module KeySharing {
  import opened Arith
  import opened Policies
  import opened PolicyMatcher
  import opened PolicyOrder
  import opened KeyBuilder

  /** The value that stands in a key for selector k: the request's, or, where that is missing or
    * empty, the policy's; the route is always the request's. */
  function Shown(p: PolicyRead, i: RequestIdentity, k: Kind): string {
    if SelectorOf(p, k).None? then ""
    else if k.Route? then i.route
    else
      var value := ValueOf(i, k);
      if value.None? || value.value == "" then SelectorOf(p, k).value else value.value
  }

  /** No value contains the character that separates segments. */
  predicate Plain(p: PolicyRead, i: RequestIdentity) {
    forall k :: k in Kinds(p) ==> NoColon(Shown(p, i, k))
  }

  predicate ShownAlike(p: PolicyRead, i: RequestIdentity, j: RequestIdentity) {
    forall k :: k in Kinds(p) ==> Shown(p, i, k) == Shown(p, j, k)
  }

  function Name(k: Kind): string {
    match k
    case User => "user"
    case ApiKey => "api_key"
    case Tenant => "tenant"
    case Ip => "ip"
    case Route => "route"
  }

  function Part(p: PolicyRead, i: RequestIdentity, k: Kind): string {
    Segment(SelectorOf(p, k), Name(k), Shown(p, i, k))
  }

  /** The order in which selectors stand in a key. */
  function KindAt(n: nat): Kind
    requires n < 5
  {
    [Route, User, Ip, Tenant, ApiKey][n]
  }

  function Parts(p: PolicyRead, i: RequestIdentity, from: nat): string
    requires from <= 5
    decreases 5 - from
  {
    if from == 5 then "" else Part(p, i, KindAt(from)) + Parts(p, i, from + 1)
  }

  lemma FiveParts(a: string, b: string, c: string, d: string, e: string)
    ensures a + b + c + d + e == a + (b + (c + (d + (e + ""))))
  {
  }

  lemma TailParts(p: PolicyRead, i: RequestIdentity)
    ensures Tail(p, i) == Parts(p, i, 0)
  {
    hide Segment;
    FiveParts(Part(p, i, Route), Part(p, i, User), Part(p, i, Ip), Part(p, i, Tenant), Part(p, i, ApiKey));
    PartsUnrolled(p, i);
    TailUnrolled(p, i);
  }

  lemma PartsUnrolled(p: PolicyRead, i: RequestIdentity)
    ensures Parts(p, i, 0) ==
            Part(p, i, Route) + (Part(p, i, User) + (Part(p, i, Ip) + (Part(p, i, Tenant) + (Part(p, i, ApiKey) + ""))))
  {
    hide Part;
    assert Parts(p, i, 5) == "";
    assert Parts(p, i, 4) == Part(p, i, ApiKey) + Parts(p, i, 5);
    assert Parts(p, i, 3) == Part(p, i, Tenant) + Parts(p, i, 4);
    assert Parts(p, i, 2) == Part(p, i, Ip) + Parts(p, i, 3);
    assert Parts(p, i, 1) == Part(p, i, User) + Parts(p, i, 2);
    assert Parts(p, i, 0) == Part(p, i, Route) + Parts(p, i, 1);
  }

  lemma TailUnrolled(p: PolicyRead, i: RequestIdentity)
    ensures Tail(p, i) ==
            Part(p, i, Route) + Part(p, i, User) + Part(p, i, Ip) + Part(p, i, Tenant) + Part(p, i, ApiKey)
  {
    hide Segment, Shown;
    ShownValues(p, i);
    SegmentUnset("route", i.route, Shown(p, i, Route));
  }

  lemma ShownValues(p: PolicyRead, i: RequestIdentity)
    ensures var s := p.payload.selectors;
            && (s.route.Some? ==> Shown(p, i, Route) == i.route)
            && Shown(p, i, User) == (if s.userId.Some? then Or(i.userId, s.userId.value) else "")
            && Shown(p, i, Ip) == (if s.ipAddress.Some? then Or(i.ipAddress, s.ipAddress.value) else "")
            && Shown(p, i, Tenant) == (if s.tenantId.Some? then Or(i.tenantId, s.tenantId.value) else "")
            && Shown(p, i, ApiKey) == (if s.apiKey.Some? then Or(i.apiKey, s.apiKey.value) else "")
  {
  }

  lemma SegmentUnset(name: string, v: string, w: string)
    ensures Segment(None, name, v) == Segment(None, name, w)
  {
  }

  lemma SplitSegment(selector: Option<string>, name: string, v: string, x: string, w: string, y: string)
    requires Rest(x) && Rest(y) && (selector.Some? ==> NoColon(v) && NoColon(w))
    requires Segment(selector, name, v) + x == Segment(selector, name, w) + y
    ensures x == y && (selector.Some? ==> v == w)
  {
    hide Rest, NoColon;
    if selector.Some? {
      var front := ":" + name + "=";
      Regroup(front, v, x);
      Regroup(front, w, y);
      DropPrefix(front, v + x, w + y);
      SplitHead(v, x, w, y);
    } else {
      assert "" + x == x && "" + y == y;
    }
  }

  lemma Regroup(a: string, b: string, c: string)
    ensures a + b + c == a + (b + c)
  {
  }

  lemma PartsAreRest(p: PolicyRead, i: RequestIdentity, from: nat)
    requires from <= 5
    ensures Rest(Parts(p, i, from))
    decreases 5 - from
  {
    if from < 5 {
      PartsAreRest(p, i, from + 1);
    }
  }

  lemma {:induction false} PartsShow(p: PolicyRead, i: RequestIdentity, j: RequestIdentity, from: nat)
    requires from <= 5 && Plain(p, i) && Plain(p, j) && Parts(p, i, from) == Parts(p, j, from)
    ensures forall n: nat :: from <= n < 5 && KindAt(n) in Kinds(p) ==> Shown(p, i, KindAt(n)) == Shown(p, j, KindAt(n))
    decreases 5 - from
  {
    hide Shown, Segment, Rest;
    if from < 5 {
      var k := KindAt(from);
      PartsAreRest(p, i, from + 1);
      PartsAreRest(p, j, from + 1);
      SplitSegment(SelectorOf(p, k), Name(k), Shown(p, i, k), Parts(p, i, from + 1),
                   Shown(p, j, k), Parts(p, j, from + 1));
      PartsShow(p, i, j, from + 1);
    }
  }

  lemma {:induction false} PartsAlike(p: PolicyRead, i: RequestIdentity, j: RequestIdentity, from: nat)
    requires from <= 5 && ShownAlike(p, i, j)
    ensures Parts(p, i, from) == Parts(p, j, from)
    decreases 5 - from
  {
    hide Shown;
    if from < 5 {
      PartsAlike(p, i, j, from + 1);
    }
  }

  lemma EveryKindAt(k: Kind) returns (n: nat)
    ensures n < 5 && KindAt(n) == k
  {
    n := match k case Route => 0 case User => 1 case Ip => 2 case Tenant => 3 case ApiKey => 4;
  }

  /** Under one policy, two requests share a counter exactly when their keys show the same for every
    * selector that the policy has, whatever else differs; as long as no value contains a colon. */
  lemma SharedExactly(p: PolicyRead, i: RequestIdentity, j: RequestIdentity)
    requires Plain(p, i) && Plain(p, j)
    ensures RateLimitKey(p, i) == RateLimitKey(p, j) <==> ShownAlike(p, i, j)
  {
    hide Shown, Head, Tail, Parts, Kinds;
    TailParts(p, i);
    TailParts(p, j);
    if RateLimitKey(p, i) == RateLimitKey(p, j) {
      DropPrefix(Head(p), Tail(p, i), Tail(p, j));
      PartsShow(p, i, j, 0);
      forall k | k in Kinds(p) ensures Shown(p, i, k) == Shown(p, j, k) {
        var n := EveryKindAt(k);
      }
    }
    if ShownAlike(p, i, j) {
      PartsAlike(p, i, j, 0);
    }
  }

  /** With a colon they can share one although everything differs: route "a" with user "b:user=c", and
    * route "a:user=b" with user "c". */
  lemma ColonsConfuse(p: PolicyRead)
    requires Kinds(p) == {Route, User}
    ensures var (i, j) := (RequestIdentity("a", Some("b:user=c"), None, None, None),
                           RequestIdentity("a:user=b", Some("c"), None, None, None));
            RateLimitKey(p, i) == RateLimitKey(p, j) && !ShownAlike(p, i, j)
  {
    hide Kinds, Tail, Head;
    RouteAndUser(p, "a", "b:user=c");
    RouteAndUser(p, "a:user=b", "c");
    assert ":route=" + "a" + (":user=" + "b:user=c") == ":route=" + "a:user=b" + (":user=" + "c");
    KindsOf(p);
    assert Route in Kinds(p) && "a" != "a:user=b";
  }

  lemma RouteAndUser(p: PolicyRead, route: string, user: string)
    requires Kinds(p) == {Route, User} && user != ""
    ensures Tail(p, RequestIdentity(route, Some(user), None, None, None)) == ":route=" + route + (":user=" + user)
  {
    hide Kinds;
    KindsOf(p);
  }

  /** Requests that get the policy never come to that: their values are the policy's own. */
  lemma EligibleShow(p: PolicyRead, i: RequestIdentity, k: Kind)
    requires Eligible(p, i) && k in Kinds(p)
    ensures Shown(p, i, k) == SelectorOf(p, k).value
  {
  }
}
