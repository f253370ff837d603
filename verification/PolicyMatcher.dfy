/** Which policy applies to a request: app/services/policy_matcher.py. */
module PolicyMatcher {
  import opened Arith
  import opened Policies

  predicate Selects(selector: Option<string>, value: Option<string>) {
    selector.None? || selector == value
  }

  predicate PolicyMatches(p: PolicyRead, i: RequestIdentity) {
    var s := p.payload.selectors;
    && Selects(s.route, Some(i.route)) && Selects(s.userId, i.userId) && Selects(s.ipAddress, i.ipAddress)
    && Selects(s.tenantId, i.tenantId) && Selects(s.apiKey, i.apiKey)
  }

  function Weight(s: Option<string>, w: nat): nat { if s.Some? then w else 0 }

  datatype Score = Score(specificity: nat, selectorWeight: nat, priority: int, version: nat)

  function PolicyScore(p: PolicyRead): Score {
    var s := p.payload.selectors;
    Score(Weight(s.route, 1) + Weight(s.userId, 1) + Weight(s.ipAddress, 1) + Weight(s.tenantId, 1)
          + Weight(s.apiKey, 1),
          Weight(s.userId, 20) + Weight(s.apiKey, 18) + Weight(s.tenantId, 16) + Weight(s.ipAddress, 14)
          + Weight(s.route, 12),
          p.payload.priority, p.version)
  }

  /** Tuples compare element by element. */
  predicate Less(a: Score, b: Score) {
    || a.specificity < b.specificity
    || (a.specificity == b.specificity && (
          || a.selectorWeight < b.selectorWeight
          || (a.selectorWeight == b.selectorWeight && (
                || a.priority < b.priority
                || (a.priority == b.priority && a.version < b.version)))))
  }

  predicate Applies(p: PolicyRead, i: RequestIdentity) {
    p.payload.active && PolicyMatches(p, i)
  }

  function Matching(policies: seq<PolicyRead>, i: RequestIdentity): (matching: seq<PolicyRead>) {
    if policies == [] then []
    else
      var earlier := Matching(policies[..|policies| - 1], i);
      var last := policies[|policies| - 1];
      if Applies(last, i) then earlier + [last] else earlier
  }

  /** `max` by score: an element later in the list replaces the best only if it scores higher. */
  function Best(policies: seq<PolicyRead>): PolicyRead
    requires policies != []
  {
    if |policies| == 1 then policies[0]
    else
      var (best, last) := (Best(policies[..|policies| - 1]), policies[|policies| - 1]);
      if Less(PolicyScore(best), PolicyScore(last)) then last else best
  }

  function SelectBestPolicy(policies: seq<PolicyRead>, i: RequestIdentity): Option<PolicyRead> {
    var matching := Matching(policies, i);
    if matching == [] then None else Some(Best(matching))
  }

  /** Position n holds an applicable policy that no other outscores, and scores above all before it. */
  ghost predicate Winner(policies: seq<PolicyRead>, i: RequestIdentity, n: nat) {
    && n < |policies| && Applies(policies[n], i)
    && (forall k :: 0 <= k < |policies| && Applies(policies[k], i) ==>
          !Less(PolicyScore(policies[n]), PolicyScore(policies[k])))
    && (forall k :: 0 <= k < n && Applies(policies[k], i) ==>
          Less(PolicyScore(policies[k]), PolicyScore(policies[n])))
  }

  ghost predicate NoneApplies(policies: seq<PolicyRead>, i: RequestIdentity) {
    forall k :: 0 <= k < |policies| ==> !Applies(policies[k], i)
  }

  /** The selected policy is the first of the best: the only winner. Nothing is selected exactly
    * when nothing applies. */
  lemma {:induction false} SelectsWinner(policies: seq<PolicyRead>, i: RequestIdentity) returns (n: nat)
    ensures SelectBestPolicy(policies, i).None? <==> NoneApplies(policies, i)
    ensures SelectBestPolicy(policies, i).Some? ==>
              Winner(policies, i, n) && SelectBestPolicy(policies, i) == Some(policies[n])
  {
    n := 0;
    if policies != [] {
      var (before, last) := (policies[..|policies| - 1], policies[|policies| - 1]);
      assert policies == before + [last];
      var m := SelectsWinner(before, i);
      n := SelectsOneMore(before, last, i, m);
    }
  }

  lemma SelectsOneMore(before: seq<PolicyRead>, last: PolicyRead, i: RequestIdentity, m: nat) returns (n: nat)
    requires SelectBestPolicy(before, i).None? <==> NoneApplies(before, i)
    requires SelectBestPolicy(before, i).Some? ==>
               Winner(before, i, m) && SelectBestPolicy(before, i) == Some(before[m])
    ensures var policies := before + [last];
            && (SelectBestPolicy(policies, i).None? <==> NoneApplies(policies, i))
            && (SelectBestPolicy(policies, i).Some? ==>
                  Winner(policies, i, n) && SelectBestPolicy(policies, i) == Some(policies[n]))
  {
    hide Applies, PolicyScore, Less;
    MatchingOneMore(before, last, i);
    BestOfOneMore(Matching(before, i), last);
    n := m;
    if !Applies(last, i) {
      NoneMore(before, last, i, m);
    } else if SelectBestPolicy(before, i).Some? && !Less(PolicyScore(before[m]), PolicyScore(last)) {
      WinnerStays(before, last, i, m);
    } else {
      n := |before|;
      LastWins(before, last, i, m);
    }
  }

  lemma MatchingOneMore(before: seq<PolicyRead>, last: PolicyRead, i: RequestIdentity)
    ensures Matching(before + [last], i) ==
            if Applies(last, i) then Matching(before, i) + [last] else Matching(before, i)
  {
    assert (before + [last])[..|before|] == before;
  }

  lemma NoneMore(before: seq<PolicyRead>, last: PolicyRead, i: RequestIdentity, m: nat)
    requires !Applies(last, i)
    ensures NoneApplies(before + [last], i) <==> NoneApplies(before, i)
    ensures Winner(before, i, m) ==> Winner(before + [last], i, m)
  {
    hide Applies, PolicyScore, Less;
    assert forall k :: 0 <= k < |before| ==> (before + [last])[k] == before[k];
  }

  lemma WinnerStays(before: seq<PolicyRead>, last: PolicyRead, i: RequestIdentity, m: nat)
    requires Winner(before, i, m) && !Less(PolicyScore(before[m]), PolicyScore(last))
    ensures Winner(before + [last], i, m)
  {
    hide Applies, PolicyScore, Less;
    assert forall k :: 0 <= k < |before| ==> (before + [last])[k] == before[k];
  }

  lemma LastWins(before: seq<PolicyRead>, last: PolicyRead, i: RequestIdentity, m: nat)
    requires Applies(last, i)
    requires NoneApplies(before, i) || (Winner(before, i, m) && Less(PolicyScore(before[m]), PolicyScore(last)))
    ensures Winner(before + [last], i, |before|)
  {
    hide Applies, PolicyScore;
    assert forall k :: 0 <= k < |before| ==> (before + [last])[k] == before[k];
  }

  lemma BestOfOneMore(matching: seq<PolicyRead>, last: PolicyRead)
    ensures Best(matching + [last]) ==
            if matching == [] || Less(PolicyScore(Best(matching)), PolicyScore(last)) then last else Best(matching)
  {
    assert (matching + [last])[..|matching|] == matching;
  }

  lemma WinnerIsUnique(policies: seq<PolicyRead>, i: RequestIdentity, m: nat, n: nat)
    requires Winner(policies, i, m) && Winner(policies, i, n)
    ensures m == n
  {
  }

  /** The score of the selected policy depends on which policies there are, not on their order. */
  lemma OrderDoesNotMatter(policies: seq<PolicyRead>, others: seq<PolicyRead>, i: RequestIdentity)
    requires forall p :: p in policies <==> p in others
    ensures var (a, b) := (SelectBestPolicy(policies, i), SelectBestPolicy(others, i));
            && (a.Some? <==> b.Some?)
            && (a.Some? ==> PolicyScore(a.value) == PolicyScore(b.value))
  {
    var m := SelectsWinner(policies, i);
    var n := SelectsWinner(others, i);
    if SelectBestPolicy(policies, i).Some? {
      WinnerAmong(policies, others, i, m);
    }
    if SelectBestPolicy(others, i).Some? {
      WinnerAmong(others, policies, i, n);
    }
    if SelectBestPolicy(policies, i).Some? && SelectBestPolicy(others, i).Some? {
      NeitherLess(PolicyScore(policies[m]), PolicyScore(others[n]));
    }
  }

  lemma WinnerAmong(policies: seq<PolicyRead>, others: seq<PolicyRead>, i: RequestIdentity, n: nat)
    requires Winner(policies, i, n) && forall p :: p in policies <==> p in others
    ensures !NoneApplies(others, i)
    ensures forall k :: 0 <= k < |others| && Applies(others[k], i) ==>
              !Less(PolicyScore(policies[n]), PolicyScore(others[k]))
  {
    assert policies[n] in others;
    forall k | 0 <= k < |others| && Applies(others[k], i)
      ensures !Less(PolicyScore(policies[n]), PolicyScore(others[k]))
    {
      assert others[k] in policies;
    }
  }

  lemma NeitherLess(a: Score, b: Score)
    requires !Less(a, b) && !Less(b, a)
    ensures a == b
  {
  }

  predicate Covers(s: Option<string>, t: Option<string>) { t.Some? ==> s.Some? }

  /** Policy p has every selector that q has, and one more. */
  predicate StrictlyNarrower(p: PolicyRead, q: PolicyRead) {
    var (s, t) := (p.payload.selectors, q.payload.selectors);
    && Covers(s.route, t.route) && Covers(s.userId, t.userId) && Covers(s.ipAddress, t.ipAddress)
    && Covers(s.tenantId, t.tenantId) && Covers(s.apiKey, t.apiKey)
    && !(Covers(t.route, s.route) && Covers(t.userId, s.userId) && Covers(t.ipAddress, s.ipAddress)
         && Covers(t.tenantId, s.tenantId) && Covers(t.apiKey, s.apiKey))
  }

  /** A policy never wins over an applicable one with strictly more selectors, whatever the
    * priorities and versions. */
  lemma NarrowerWins(policies: seq<PolicyRead>, i: RequestIdentity, p: PolicyRead, q: PolicyRead)
    requires p in policies && Applies(p, i) && StrictlyNarrower(p, q)
    ensures SelectBestPolicy(policies, i).Some? && SelectBestPolicy(policies, i).value != q
    ensures Less(PolicyScore(q), PolicyScore(SelectBestPolicy(policies, i).value))
  {
    var n := SelectsWinner(policies, i);
    var k :| 0 <= k < |policies| && policies[k] == p;
    assert Applies(policies[k], i) && !NoneApplies(policies, i);
    assert !Less(PolicyScore(policies[n]), PolicyScore(policies[k]));
    assert Less(PolicyScore(q), PolicyScore(p));
  }
}
