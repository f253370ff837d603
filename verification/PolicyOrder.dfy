/** The order of app/services/policy_matcher.py in terms of which selectors a policy has: how many,
  * which of them rank first, then priority and version. */
module PolicyOrder {
  import opened Arith
  import opened Policies
  import opened PolicyMatcher

  /** What a selector is about; the earlier a kind, the more it weighs. */
  datatype Kind = User | ApiKey | Tenant | Ip | Route {
    function Rank(): nat {
      match this
      case User => 0
      case ApiKey => 1
      case Tenant => 2
      case Ip => 3
      case Route => 4
    }
  }

  const AllKinds := {User, ApiKey, Tenant, Ip, Route}

  function SelectorOf(p: PolicyRead, k: Kind): Option<string> {
    match k
    case User => p.payload.selectors.userId
    case ApiKey => p.payload.selectors.apiKey
    case Tenant => p.payload.selectors.tenantId
    case Ip => p.payload.selectors.ipAddress
    case Route => p.payload.selectors.route
  }

  function ValueOf(i: RequestIdentity, k: Kind): Option<string> {
    match k
    case User => i.userId
    case ApiKey => i.apiKey
    case Tenant => i.tenantId
    case Ip => i.ipAddress
    case Route => Some(i.route)
  }

  function Kinds(p: PolicyRead): set<Kind> {
    set k | k in AllKinds && SelectorOf(p, k).Some?
  }

  function RankSum(kinds: set<Kind>): nat {
    RankIf(kinds, User) + RankIf(kinds, ApiKey) + RankIf(kinds, Tenant) + RankIf(kinds, Ip) + RankIf(kinds, Route)
  }

  function RankIf(kinds: set<Kind>, k: Kind): nat { if k in kinds then k.Rank() else 0 }

  /** A request gets policy p only if p is switched on and has no selector that says otherwise. */
  predicate Eligible(p: PolicyRead, i: RequestIdentity) {
    p.payload.active && forall k :: k in Kinds(p) ==> SelectorOf(p, k) == ValueOf(i, k)
  }

  /** More selectors; among as many, the ones that rank first; then priority, then version. */
  predicate Preferred(p: PolicyRead, q: PolicyRead) {
    var (a, b) := (Kinds(p), Kinds(q));
    || |a| > |b|
    || (|a| == |b| && (
          || RankSum(a) < RankSum(b)
          || (RankSum(a) == RankSum(b) && (
                || p.payload.priority > q.payload.priority
                || (p.payload.priority == q.payload.priority && p.version > q.version)))))
  }

  // ----- the scores are that order -----

  function One(kinds: set<Kind>, k: Kind): nat { if k in kinds then 1 else 0 }

  lemma Without(kinds: set<Kind>, k: Kind) returns (rest: set<Kind>)
    ensures rest == kinds - {k} && |kinds| == One(kinds, k) + |rest|
    ensures forall j :: j != k ==> One(rest, j) == One(kinds, j)
  {
    rest := kinds - {k};
    if k in kinds {
      assert kinds == rest + {k};
    } else {
      assert kinds == rest;
    }
  }

  lemma SizeOf(kinds: set<Kind>)
    ensures |kinds| == One(kinds, User) + One(kinds, ApiKey) + One(kinds, Tenant) + One(kinds, Ip) + One(kinds, Route)
  {
    hide One;
    var four := Without(kinds, User);
    var three := Without(four, ApiKey);
    var two := Without(three, Tenant);
    var one := Without(two, Ip);
    var none := Without(one, Route);
    NoOtherKind(none);
  }

  lemma NoOtherKind(kinds: set<Kind>)
    requires User !in kinds && ApiKey !in kinds && Tenant !in kinds && Ip !in kinds && Route !in kinds
    ensures kinds == {}
  {
    forall k: Kind ensures k !in kinds {
      match k {
        case User =>
        case ApiKey =>
        case Tenant =>
        case Ip =>
        case Route =>
      }
    }
  }

  lemma KindsOf(p: PolicyRead)
    ensures var s := p.payload.selectors;
            && (User in Kinds(p) <==> s.userId.Some?) && (ApiKey in Kinds(p) <==> s.apiKey.Some?)
            && (Tenant in Kinds(p) <==> s.tenantId.Some?) && (Ip in Kinds(p) <==> s.ipAddress.Some?)
            && (Route in Kinds(p) <==> s.route.Some?)
  {
  }

  lemma ScoreParts(p: PolicyRead)
    ensures PolicyScore(p) == Score(|Kinds(p)|, PolicyScore(p).selectorWeight, p.payload.priority, p.version)
    ensures PolicyScore(p).selectorWeight == 20 * |Kinds(p)| - 2 * RankSum(Kinds(p))
  {
    SizeOf(Kinds(p));
    KindsOf(p);
  }

  lemma LessIsPreferred(p: PolicyRead, q: PolicyRead)
    ensures Less(PolicyScore(q), PolicyScore(p)) <==> Preferred(p, q)
  {
    hide PolicyScore, Kinds, RankSum;
    ScoreParts(p);
    ScoreParts(q);
  }

  lemma AppliesIsEligible(p: PolicyRead, i: RequestIdentity)
    ensures Applies(p, i) <==> Eligible(p, i)
  {
    KindsOf(p);
    if Eligible(p, i) {
      SelectorHolds(p, i, User);
      SelectorHolds(p, i, ApiKey);
      SelectorHolds(p, i, Tenant);
      SelectorHolds(p, i, Ip);
      SelectorHolds(p, i, Route);
    }
  }

  lemma SelectorHolds(p: PolicyRead, i: RequestIdentity, k: Kind)
    requires Eligible(p, i)
    ensures Selects(SelectorOf(p, k), ValueOf(i, k))
  {
  }

  // ----- what is selected -----

  /** The policy selected is the first eligible one, in the list, to which no eligible one is preferred;
    * there is one if any policy is eligible. */
  lemma SelectsPreferred(policies: seq<PolicyRead>, i: RequestIdentity) returns (n: nat)
    ensures var selected := SelectBestPolicy(policies, i);
            && (selected.Some? <==> exists p :: p in policies && Eligible(p, i))
            && (selected.Some? ==>
                  && n < |policies| && selected.value == policies[n] && Eligible(policies[n], i)
                  && (forall q :: q in policies && Eligible(q, i) ==> !Preferred(q, policies[n]))
                  && (forall k :: 0 <= k < n && Eligible(policies[k], i) ==> Preferred(policies[n], policies[k])))
  {
    hide Applies, Eligible, PolicyScore, Less, Preferred, SelectBestPolicy;
    n := SelectsWinner(policies, i);
    forall p ensures Applies(p, i) <==> Eligible(p, i) {
      AppliesIsEligible(p, i);
    }
    var selected := SelectBestPolicy(policies, i);
    if selected.Some? {
      forall q | q in policies && Eligible(q, i) ensures !Preferred(q, policies[n]) {
        var k :| 0 <= k < |policies| && policies[k] == q;
        assert Applies(policies[k], i);
        LessIsPreferred(q, policies[n]);
      }
      forall k | 0 <= k < n && Eligible(policies[k], i) ensures Preferred(policies[n], policies[k]) {
        assert Applies(policies[k], i);
        LessIsPreferred(policies[n], policies[k]);
      }
      assert policies[n] in policies;
    } else {
      forall p | p in policies ensures !Eligible(p, i) {
        var k :| 0 <= k < |policies| && policies[k] == p;
        assert !Applies(policies[k], i);
      }
    }
  }

  lemma NotOver(policies: seq<PolicyRead>, i: RequestIdentity, p: PolicyRead, q: PolicyRead)
    requires p in policies && Eligible(p, i) && Preferred(p, q)
    ensures SelectBestPolicy(policies, i).Some? && SelectBestPolicy(policies, i).value != q
  {
    hide Eligible, Preferred, SelectBestPolicy;
    var n := SelectsPreferred(policies, i);
  }

  /** More selectors win, whichever they are and whatever the priorities. */
  lemma MoreSelectorsWin(policies: seq<PolicyRead>, i: RequestIdentity, p: PolicyRead, q: PolicyRead)
    requires p in policies && Eligible(p, i) && |Kinds(p)| > |Kinds(q)|
    ensures SelectBestPolicy(policies, i).Some? && SelectBestPolicy(policies, i).value != q
  {
    NotOver(policies, i, p, q);
  }

  /** If the selectors differ in one only, the earlier of user, API key, tenant, address and route
    * wins, whatever the priorities. */
  lemma EarlierKindWins(policies: seq<PolicyRead>, i: RequestIdentity, p: PolicyRead, q: PolicyRead, x: Kind, y: Kind)
    requires p in policies && Eligible(p, i)
    requires x in Kinds(p) && y !in Kinds(p) && Kinds(q) == Kinds(p) - {x} + {y} && x.Rank() < y.Rank()
    ensures SelectBestPolicy(policies, i).Some? && SelectBestPolicy(policies, i).value != q
  {
    hide Eligible, Kinds, SelectBestPolicy;
    ExchangedRanks(Kinds(p), x, y);
    NotOver(policies, i, p, q);
  }

  lemma ExchangedRanks(kinds: set<Kind>, x: Kind, y: Kind)
    requires x in kinds && y !in kinds && x != y
    ensures var others := kinds - {x} + {y};
            && |others| == |kinds|
            && RankSum(others) == RankSum(kinds) - x.Rank() + y.Rank()
  {
    var others := kinds - {x} + {y};
    var rest := Without(kinds, x);
    var same := Without(others, y);
    assert rest == same;
    assert forall k :: k != x && k != y ==> (k in others <==> k in kinds);
  }

  /** Among policies with the same selectors, the priority decides, and then the version. */
  lemma PriorityThenVersion(policies: seq<PolicyRead>, i: RequestIdentity, p: PolicyRead, q: PolicyRead)
    requires p in policies && Eligible(p, i) && Kinds(p) == Kinds(q)
    requires p.payload.priority > q.payload.priority
             || (p.payload.priority == q.payload.priority && p.version > q.version)
    ensures SelectBestPolicy(policies, i).Some? && SelectBestPolicy(policies, i).value != q
  {
    NotOver(policies, i, p, q);
  }

  /** Different selectors can weigh the same: then too the priority decides, as between user and
    * address on one side, API key and tenant on the other. */
  lemma CrossedPairsTie(policies: seq<PolicyRead>, i: RequestIdentity, p: PolicyRead, q: PolicyRead)
    requires p in policies && Eligible(p, i)
    requires {Kinds(p), Kinds(q)} == {{User, Ip}, {ApiKey, Tenant}}
    requires p.payload.priority > q.payload.priority
    ensures SelectBestPolicy(policies, i).Some? && SelectBestPolicy(policies, i).value != q
  {
    hide Eligible, SelectBestPolicy, Kinds;
    assert Kinds(p) in {{User, Ip}, {ApiKey, Tenant}} && Kinds(q) in {{User, Ip}, {ApiKey, Tenant}};
    assert |{User, Ip}| == 2 && |{ApiKey, Tenant}| == 2;
    NotOver(policies, i, p, q);
  }
}
