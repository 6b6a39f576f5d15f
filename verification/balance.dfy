/**
 * Priority groups and the request-local selection of targets: how nodes are grouped, which target
 * a request tries next, and why its attempts reach every selectable target before any twice.
 */
module Balancing {
  import opened Basics
  import opened Ordering

  /** The weighted round-robin selector, known only by what it ranges over. */
  class RRLoadBalance {
    const weights: map<string, int>

    constructor (weights: map<string, int>)
      ensures this.weights == weights
    {
      this.weights := weights;
    }

    method Next() returns (target: string)
      ensures if weights == map[] then target == "" else target in weights
    {
      if weights.Keys == {} {
        return "";
      }
      target :| target in weights.Keys;
    }
  }

  datatype PriorityGroup = PriorityGroup(priority: int, targets: seq<string>, weights: map<string, int>, selector: RRLoadBalance)

  // ----- grouping -----

  function PriorityOf(priorities: map<string, int>, target: string): int {
    if target in priorities then priorities[target] else 0
  }

  /** The positive-weight servers of one priority. */
  function Share(servers: map<string, int>, priorities: map<string, int>, priority: int): map<string, int> {
    map t | t in servers && servers[t] > 0 && PriorityOf(priorities, t) == priority :: servers[t]
  }

  ghost predicate WellFormed(g: PriorityGroup) {
    && Sorted(g.targets) && (forall t :: t in g.targets <==> t in g.weights)
    && g.weights != map[] && g.selector.weights == g.weights
    && (forall t :: t in g.weights ==> g.weights[t] > 0)
  }

  /** No target has the name by which a selection says that there is none. */
  ghost predicate ValidGroup(g: PriorityGroup) {
    WellFormed(g) && "" !in g.weights
  }

  ghost predicate Descending(values: seq<int>) {
    forall i, j :: 0 <= i < j < |values| ==> values[i] > values[j]
  }

  /** One priority's group. */
  ghost predicate IsShare(g: PriorityGroup, servers: map<string, int>, priorities: map<string, int>) {
    WellFormed(g) && g.weights == Share(servers, priorities, g.priority)
  }

  ghost predicate HasPriority(groups: seq<PriorityGroup>, priority: int) {
    exists i :: 0 <= i < |groups| && groups[i].priority == priority
  }

  /** The groups partition the positive-weight servers by priority, the highest first. */
  ghost predicate Grouped(groups: seq<PriorityGroup>, servers: map<string, int>, priorities: map<string, int>) {
    && (forall i :: 0 <= i < |groups| ==> IsShare(groups[i], servers, priorities))
    && (forall i, j :: 0 <= i < j < |groups| ==> groups[i].priority > groups[j].priority)
    && (forall t :: t in servers && servers[t] > 0 ==> HasPriority(groups, PriorityOf(priorities, t)))
  }

  method MaxOf(values: set<int>) returns (max: int)
    requires values != {}
    ensures max in values && forall v :: v in values ==> v <= max
  {
    max := Pick(values);
    var rest := values - {max};
    while rest != {}
      invariant rest <= values && max in values
      invariant forall v :: v in values ==> v in rest || v <= max
      decreases |rest|
    {
      var v := Pick(rest);
      rest := rest - {v};
      if v > max { max := v; }
    }
  }

  method SortDescending(values: set<int>) returns (r: seq<int>)
    ensures Descending(r) && forall v :: v in r <==> v in values
  {
    r := [];
    var rest := values;
    while rest != {}
      invariant Descending(r) && rest <= values && (forall v :: v in r <==> v in values && v !in rest)
      invariant forall v, w :: v in r && w in rest ==> v > w
      decreases |rest|
    {
      var max := MaxOf(rest);
      forall i | 0 <= i < |r|
        ensures r[i] > max
      {
        assert r[i] in r && max in rest;
      }
      r := r + [max];
      rest := rest - {max};
    }
  }

  function Restrict(servers: map<string, int>, keys: set<string>): map<string, int> {
    map t | t in servers && t in keys :: servers[t]
  }

  function GroupAt(weights: map<int, map<string, int>>, priority: int): map<string, int> {
    if priority in weights then weights[priority] else map[]
  }

  lemma ShareNext(servers: map<string, int>, priorities: map<string, int>, done: set<string>, target: string, p: int)
    requires target in servers && target !in done
    ensures var before := Share(Restrict(servers, done), priorities, p);
      Share(Restrict(servers, done + {target}), priorities, p)
        == if servers[target] > 0 && PriorityOf(priorities, target) == p then before[target := servers[target]] else before
  {
  }

  ghost predicate Collected(weights: map<int, map<string, int>>, servers: map<string, int>, priorities: map<string, int>) {
    && (forall p :: GroupAt(weights, p) == Share(servers, priorities, p))
    && (forall p :: p in weights ==> weights[p] != map[])
  }

  lemma NothingCollected(servers: map<string, int>, priorities: map<string, int>)
    ensures Collected(map[], Restrict(servers, {}), priorities)
  {
    assert forall p :: Share(Restrict(servers, {}), priorities, p) == map[];
  }

  method CollectNext(weights: map<int, map<string, int>>, servers: map<string, int>, priorities: map<string, int>, target: string, ghost done: set<string>)
    returns (r: map<int, map<string, int>>)
    requires target in servers && target !in done && Collected(weights, Restrict(servers, done), priorities)
    ensures Collected(r, Restrict(servers, done + {target}), priorities)
  {
    forall p
      ensures var before := GroupAt(weights, p);
        Share(Restrict(servers, done + {target}), priorities, p)
          == if servers[target] > 0 && PriorityOf(priorities, target) == p then before[target := servers[target]] else before
    {
      ShareNext(servers, priorities, done, target, p);
    }
    if servers[target] <= 0 {
      return weights;
    }
    var priority := PriorityOf(priorities, target);
    r := weights[priority := GroupAt(weights, priority)[target := servers[target]]];
    assert target in r[priority];
  }

  /** Collects the positive-weight servers by priority. */
  method CollectWeights(servers: map<string, int>, priorities: map<string, int>) returns (weights: map<int, map<string, int>>)
    ensures Collected(weights, servers, priorities)
  {
    weights := map[];
    var rest := servers.Keys;
    ghost var done := {};
    NothingCollected(servers, priorities);
    while rest != {}
      invariant rest !! done && rest + done == servers.Keys && Collected(weights, Restrict(servers, done), priorities)
      decreases |rest|
    {
      var target := Pick(rest);
      weights := CollectNext(weights, servers, priorities, target, done);
      rest, done := rest - {target}, done + {target};
    }
    assert Restrict(servers, servers.Keys) == servers;
  }

  /** The group of one priority. */
  method NewGroup(servers: map<string, int>, priorities: map<string, int>, priority: int, share: map<string, int>) returns (g: PriorityGroup)
    requires share == Share(servers, priorities, priority) && share != map[]
    ensures IsShare(g, servers, priorities) && g.priority == priority
  {
    var targets := SortedList(share.Keys);
    var selector := new RRLoadBalance(share);
    g := PriorityGroup(priority, targets, share, selector);
  }

  method NewPriorityGroups(servers: map<string, int>, priorities: map<string, int>) returns (groups: seq<PriorityGroup>)
    ensures Grouped(groups, servers, priorities)
    ensures groups == [] <==> forall t :: t in servers ==> servers[t] <= 0
  {
    var weights := CollectWeights(servers, priorities);
    var values := SortDescending(weights.Keys);
    groups := [];
    for i := 0 to |values|
      invariant |groups| == i
      invariant forall j :: 0 <= j < i ==> IsShare(groups[j], servers, priorities) && groups[j].priority == values[j]
    {
      assert values[i] in values;
      CollectedShare(weights, servers, priorities, values[i]);
      var group := NewGroup(servers, priorities, values[i], weights[values[i]]);
      groups := groups + [group];
    }
    EveryServerGrouped(groups, values, weights, servers, priorities);
  }

  lemma CollectedShare(weights: map<int, map<string, int>>, servers: map<string, int>, priorities: map<string, int>, p: int)
    requires Collected(weights, servers, priorities)
    ensures p in weights ==> weights[p] == Share(servers, priorities, p) && weights[p] != map[]
    ensures p !in weights ==> Share(servers, priorities, p) == map[]
  {
    assert GroupAt(weights, p) == Share(servers, priorities, p);
  }

  lemma EveryServerGrouped(groups: seq<PriorityGroup>, values: seq<int>, weights: map<int, map<string, int>>,
                           servers: map<string, int>, priorities: map<string, int>)
    requires |groups| == |values| && Collected(weights, servers, priorities)
    requires Descending(values) && forall v :: v in values <==> v in weights
    requires forall j :: 0 <= j < |groups| ==> IsShare(groups[j], servers, priorities) && groups[j].priority == values[j]
    ensures Grouped(groups, servers, priorities)
    ensures groups == [] <==> forall t :: t in servers ==> servers[t] <= 0
  {
    forall t | t in servers && servers[t] > 0
      ensures HasPriority(groups, PriorityOf(priorities, t))
    {
      var p := PriorityOf(priorities, t);
      CollectedShare(weights, servers, priorities, p);
      assert t in Share(servers, priorities, p);
      assert p in values;
    }
    if groups != [] {
      assert IsShare(groups[0], servers, priorities);
      assert groups[0].weights.Keys != {};
      var t :| t in groups[0].weights;
      assert t in servers;
    } else {
      assert forall p :: !HasPriority(groups, p);
    }
  }

  // ----- one group's next target -----

  /** The targets of a group that a request may try; no filter admits all of them. */
  predicate IsEligible(tried: set<string>, selectable: Option<set<string>>, target: string) {
    target !in tried && (selectable.None? || target in selectable.value)
  }

  /** The heaviest of the first targets, the earliest among equals. */
  ghost predicate IsHeaviest(g: PriorityGroup, tried: set<string>, selectable: Option<set<string>>, n: nat, best: string)
    requires n <= |g.targets| && forall t :: t in g.targets ==> t in g.weights
  {
    && best in g.targets[..n] && IsEligible(tried, selectable, best) && best in g.weights
    && forall i :: 0 <= i < n && IsEligible(tried, selectable, g.targets[i]) ==>
         g.weights[g.targets[i]] < g.weights[best] || (g.weights[g.targets[i]] == g.weights[best] && (g.targets[i] == best || Less(best, g.targets[i])))
  }

  /** What the loop over a group's targets has found. */
  ghost predicate Scanned(g: PriorityGroup, tried: set<string>, selectable: Option<set<string>>, n: nat, best: string, bestWeight: int)
    requires n <= |g.targets| && forall t :: t in g.targets ==> t in g.weights
  {
    if best == "" then bestWeight == 0 && forall j :: 0 <= j < n ==> !IsEligible(tried, selectable, g.targets[j])
    else IsHeaviest(g, tried, selectable, n, best) && bestWeight == g.weights[best]
  }

  lemma ScanNext(g: PriorityGroup, tried: set<string>, selectable: Option<set<string>>, n: nat, best: string, bestWeight: int)
    requires ValidGroup(g) && n < |g.targets| && Scanned(g, tried, selectable, n, best, bestWeight)
    ensures var next := g.targets[n];
      && next in g.weights
      && if IsEligible(tried, selectable, next) && g.weights[next] > bestWeight
         then Scanned(g, tried, selectable, n + 1, next, g.weights[next])
         else Scanned(g, tried, selectable, n + 1, best, bestWeight)
  {
    var next := g.targets[n];
    assert next in g.targets && g.targets[..n + 1] == g.targets[..n] + [next];
    if best != "" {
      var k :| 0 <= k < n && g.targets[k] == best;
      assert Less(best, next);
    }
  }

  /** The heaviest eligible target and the number of eligible ones. */
  method ScanTargets(g: PriorityGroup, tried: set<string>, selectable: Option<set<string>>) returns (best: string, eligible: nat)
    requires ValidGroup(g)
    ensures eligible == |g.targets| <==> forall j :: 0 <= j < |g.targets| ==> IsEligible(tried, selectable, g.targets[j])
    ensures exists bestWeight :: Scanned(g, tried, selectable, |g.targets|, best, bestWeight)
  {
    var bestWeight := 0;
    best, eligible := "", 0;
    for i := 0 to |g.targets|
      invariant eligible <= i && (eligible == i <==> forall j :: 0 <= j < i ==> IsEligible(tried, selectable, g.targets[j]))
      invariant Scanned(g, tried, selectable, i, best, bestWeight)
    {
      var next := g.targets[i];
      ScanNext(g, tried, selectable, i, best, bestWeight);
      if IsEligible(tried, selectable, next) {
        eligible := eligible + 1;
        if g.weights[next] > bestWeight {
          best, bestWeight := next, g.weights[next];
        }
      }
    }
  }

  /** The next target of a group: by round robin while all are eligible, by weight among the rest. */
  method NextUntried(g: PriorityGroup, tried: set<string>, selectable: Option<set<string>>) returns (target: string)
    requires ValidGroup(g)
    ensures target == "" <==> forall t :: t in g.weights ==> !IsEligible(tried, selectable, t)
    ensures target != "" ==> target in g.weights && IsEligible(tried, selectable, target)
    ensures target != "" && (exists t :: t in g.weights && !IsEligible(tried, selectable, t)) ==>
              IsHeaviest(g, tried, selectable, |g.targets|, target)
  {
    if |g.targets| == 0 {
      return "";
    }
    if |tried| == 0 && selectable.None? {
      target := g.selector.Next();
      return;
    }
    var best, eligible := ScanTargets(g, tried, selectable);
    assert g.targets[..|g.targets|] == g.targets;
    assert forall t :: t in g.weights ==> t in g.targets;
    if eligible == |g.targets| {
      target := g.selector.Next();
    } else {
      target := best;
    }
  }

  // ----- a request's next target -----

  /** The targets of each group, the highest priority first. */
  type Tiers = seq<set<string>>

  function TiersOf(groups: seq<PriorityGroup>): Tiers {
    seq(|groups|, i requires 0 <= i < |groups| => groups[i].weights.Keys)
  }

  predicate Disjoint(tiers: Tiers) {
    forall i, j :: 0 <= i < j < |tiers| ==> tiers[i] !! tiers[j]
  }

  function Members(tiers: Tiers): set<string> {
    set i, t | 0 <= i < |tiers| && t in tiers[i] :: t
  }

  ghost predicate ValidGroups(groups: seq<PriorityGroup>) {
    && (forall i :: 0 <= i < |groups| ==> ValidGroup(groups[i]))
    && Disjoint(TiersOf(groups))
  }

  /** The tier of a target is that of its priority. */
  lemma TierOfPriority(groups: seq<PriorityGroup>, servers: map<string, int>, priorities: map<string, int>, i: nat, t: string)
    requires Grouped(groups, servers, priorities) && i < |groups|
    ensures t in TiersOf(groups)[i] <==> t in servers && servers[t] > 0 && PriorityOf(priorities, t) == groups[i].priority
  {
    assert IsShare(groups[i], servers, priorities);
  }

  lemma GroupedIsPartition(groups: seq<PriorityGroup>, servers: map<string, int>, priorities: map<string, int>)
    requires Grouped(groups, servers, priorities)
    ensures Disjoint(TiersOf(groups))
    ensures forall t :: t in Members(TiersOf(groups)) <==> t in servers && servers[t] > 0
  {
    var tiers := TiersOf(groups);
    forall i, j | 0 <= i < j < |tiers|
      ensures tiers[i] !! tiers[j]
    {
      forall t | t in tiers[i]
        ensures t !in tiers[j]
      {
        TierOfPriority(groups, servers, priorities, i, t);
        TierOfPriority(groups, servers, priorities, j, t);
      }
    }
    forall t
      ensures t in Members(tiers) <==> t in servers && servers[t] > 0
    {
      if t in Members(tiers) {
        var i :| 0 <= i < |tiers| && t in tiers[i];
        TierOfPriority(groups, servers, priorities, i, t);
      } else if t in servers && servers[t] > 0 {
        var i :| 0 <= i < |groups| && groups[i].priority == PriorityOf(priorities, t);
        TierOfPriority(groups, servers, priorities, i, t);
      }
    }
  }

  /** The groups serve selections unless the empty string is one of the targets. */
  lemma GroupedIsValid(groups: seq<PriorityGroup>, servers: map<string, int>, priorities: map<string, int>)
    requires Grouped(groups, servers, priorities)
    ensures ValidGroups(groups) <==> !("" in servers && servers[""] > 0)
  {
    GroupedIsPartition(groups, servers, priorities);
    var tiers := TiersOf(groups);
    forall i | 0 <= i < |groups|
      ensures WellFormed(groups[i]) && (ValidGroup(groups[i]) <==> "" !in tiers[i])
    {
      assert IsShare(groups[i], servers, priorities);
    }
    assert "" in Members(tiers) <==> exists i :: 0 <= i < |tiers| && "" in tiers[i];
    if i :| 0 <= i < |tiers| && "" in tiers[i] {
      assert !ValidGroup(groups[i]);
    }
  }

  /** The tiers partition the positive-weight servers, and no tier holds a priority above an earlier one's. */
  ghost predicate Layered(tiers: Tiers, servers: map<string, int>, priorities: map<string, int>) {
    && Disjoint(tiers)
    && (forall t :: t in Members(tiers) <==> t in servers && servers[t] > 0)
    && (forall a, b, t, u :: 0 <= a <= b < |tiers| && t in tiers[a] && u in tiers[b] ==> PriorityOf(priorities, t) >= PriorityOf(priorities, u))
  }

  lemma GroupedIsLayered(groups: seq<PriorityGroup>, servers: map<string, int>, priorities: map<string, int>)
    requires Grouped(groups, servers, priorities)
    ensures Layered(TiersOf(groups), servers, priorities)
  {
    GroupedIsPartition(groups, servers, priorities);
    var tiers := TiersOf(groups);
    forall a, b, t, u | 0 <= a <= b < |tiers| && t in tiers[a] && u in tiers[b]
      ensures PriorityOf(priorities, t) >= PriorityOf(priorities, u)
    {
      TierOfPriority(groups, servers, priorities, a, t);
      TierOfPriority(groups, servers, priorities, b, u);
      assert a == b || groups[a].priority > groups[b].priority;
    }
  }

  /** The targets that the filter admits. */
  function Candidates(tiers: Tiers, selectable: Option<set<string>>): set<string> {
    if selectable.None? then Members(tiers) else Members(tiers) * selectable.value
  }

  /** An untried candidate of the highest group that has one. */
  ghost predicate IsNext(tiers: Tiers, candidates: set<string>, tried: set<string>, t: string) {
    exists i :: 0 <= i < |tiers| && t in tiers[i] && t in candidates && t !in tried
      && forall j :: 0 <= j < i ==> tiers[j] * candidates <= tried
  }

  /** The first groups have no untried candidate. */
  ghost predicate Exhausted(tiers: Tiers, n: nat, candidates: set<string>, tried: set<string>)
    requires n <= |tiers|
  {
    forall j :: 0 <= j < n ==> tiers[j] * candidates <= tried
  }

  lemma EligibleInTier(tiers: Tiers, i: nat, tried: set<string>, selectable: Option<set<string>>)
    requires i < |tiers|
    ensures forall t :: t in tiers[i] ==> (IsEligible(tried, selectable, t) <==> t in Candidates(tiers, selectable) && t !in tried)
    ensures tiers[i] * Candidates(tiers, selectable) <= tried <==> forall t :: t in tiers[i] ==> !IsEligible(tried, selectable, t)
  {
    assert forall t :: t in tiers[i] ==> t in Members(tiers);
  }

  lemma AllTiersTried(tiers: Tiers, tried: set<string>, selectable: Option<set<string>>)
    ensures Candidates(tiers, selectable) <= tried <==> Exhausted(tiers, |tiers|, Candidates(tiers, selectable), tried)
  {
    var candidates := Candidates(tiers, selectable);
    if Exhausted(tiers, |tiers|, candidates, tried) {
      forall t | t in candidates
        ensures t in tried
      {
        var j :| 0 <= j < |tiers| && t in tiers[j];
        assert t in tiers[j] * candidates;
      }
    }
  }

  /** A group's answer is the request's next target, or leaves it to the groups after. */
  lemma TierAnswers(tiers: Tiers, i: nat, tried: set<string>, selectable: Option<set<string>>, target: string)
    requires i < |tiers| && Exhausted(tiers, i, Candidates(tiers, selectable), tried)
    requires target == "" <==> forall t :: t in tiers[i] ==> !IsEligible(tried, selectable, t)
    requires target != "" ==> target in tiers[i] && IsEligible(tried, selectable, target)
    ensures target == "" ==> Exhausted(tiers, i + 1, Candidates(tiers, selectable), tried)
    ensures target != "" ==> IsNext(tiers, Candidates(tiers, selectable), tried, target) && target in Candidates(tiers, selectable) && target !in tried
  {
    EligibleInTier(tiers, i, tried, selectable);
  }

  /** The first group with an eligible target gives one; the empty string means that there is none. */
  method FirstUntried(groups: seq<PriorityGroup>, tried: set<string>, selectable: Option<set<string>>) returns (target: string)
    requires ValidGroups(groups)
    ensures target == "" <==> Candidates(TiersOf(groups), selectable) <= tried
    ensures target != "" ==> IsNext(TiersOf(groups), Candidates(TiersOf(groups), selectable), tried, target)
  {
    ghost var tiers := TiersOf(groups);
    ghost var candidates := Candidates(tiers, selectable);
    AllTiersTried(tiers, tried, selectable);
    for i := 0 to |groups|
      invariant Exhausted(tiers, i, candidates, tried)
    {
      target := NextUntried(groups[i], tried, selectable);
      assert tiers[i] == groups[i].weights.Keys;
      TierAnswers(tiers, i, tried, selectable, target);
      if target != "" {
        return;
      }
    }
    target := "";
  }

  /** What a request remembers: the target of its last attempt, and those of the attempts before. */
  class RequestState {
    var last: string
    var tried: set<string>

    constructor ()
      ensures last == "" && tried == {}
    {
      last, tried := "", {};
    }

    /** Every target that the current cycle has attempted. */
    function Attempted(): set<string>
      reads this
    {
      if last == "" then tried else tried + {last}
    }

    method FinishPreviousAttempt()
      modifies this
      ensures last == "" && tried == Attempted() == old(Attempted())
    {
      if last != "" {
        tried := tried + {last};
        last := "";
      }
    }

    /** Records a target that was chosen elsewhere. */
    method RecordAttempt(target: string)
      modifies this
      ensures Attempted() == old(Attempted()) + if target == "" then {} else {target}
    {
      if target == "" {
        return;
      }
      FinishPreviousAttempt();
      tried := tried + {target};
    }

    /** The next target: an untried candidate, or the first of a new cycle when all were tried. */
    method Select(groups: seq<PriorityGroup>, selectable: Option<set<string>>) returns (target: string)
      requires ValidGroups(groups)
      modifies this
      ensures var candidates := Candidates(TiersOf(groups), selectable);
        && (target == "" <==> candidates == {})
        && (target != "" ==> IsNext(TiersOf(groups), candidates, Open(candidates, old(Attempted())), target))
        && Attempted() == Taken(candidates, old(Attempted()), target)
    {
      FinishPreviousAttempt();
      target := FirstUntried(groups, tried, selectable);
      if target == "" {
        tried := {};
        target := FirstUntried(groups, tried, selectable);
      }
      last := target;
    }
  }

  /** The attempts that still count: none once every candidate was tried. */
  function Open(candidates: set<string>, attempted: set<string>): set<string> {
    if candidates <= attempted then {} else attempted
  }

  /** The attempts after one more selection. */
  function Taken(candidates: set<string>, attempted: set<string>, target: string): set<string> {
    if target == "" then Open(candidates, attempted) else Open(candidates, attempted) + {target}
  }

  // ----- every candidate once before any twice -----

  /** The attempts of the current cycle after a history of selections. */
  function Attempts(candidates: set<string>, history: seq<string>): set<string> {
    if history == [] then {} else Taken(candidates, Attempts(candidates, history[..|history| - 1]), history[|history| - 1])
  }

  /** Selections as `Select` makes them while the candidates stay the same. */
  ghost predicate IsTour(tiers: Tiers, candidates: set<string>, history: seq<string>) {
    forall i {:trigger IsTourStep(tiers, candidates, history, i)} :: 0 <= i < |history| ==> IsTourStep(tiers, candidates, history, i)
  }

  ghost predicate IsTourStep(tiers: Tiers, candidates: set<string>, history: seq<string>, i: nat)
    requires i < |history|
  {
    history[i] != "" && IsNext(tiers, candidates, Open(candidates, Attempts(candidates, history[..i])), history[i])
  }

  /** A position at which a cycle begins. */
  predicate Begins(candidates: set<string>, history: seq<string>, i: nat)
    requires i <= |history|
  {
    Open(candidates, Attempts(candidates, history[..i])) == {}
  }

  function Elements(s: seq<string>): set<string> {
    set x | x in s
  }

  lemma {:induction false} DistinctSize(s: seq<string>)
    requires Distinct(s)
    ensures |Elements(s)| == |s|
  {
    if s != [] {
      var rest := s[..|s| - 1];
      DistinctSize(rest);
      assert Elements(s) == Elements(rest) + {s[|s| - 1]};
    }
  }

  lemma SubsetOfSize(a: set<string>, b: set<string>)
    requires a <= b && |a| >= |b|
    ensures a == b
  {
    assert b == a + (b - a);
  }

  /** The attempts after one more selection of a tour. */
  lemma TourStep(tiers: Tiers, candidates: set<string>, history: seq<string>, k: nat)
    requires IsTour(tiers, candidates, history) && k < |history|
    ensures var open := Open(candidates, Attempts(candidates, history[..k]));
      && history[k] in candidates && history[k] !in open && IsNext(tiers, candidates, open, history[k])
      && Attempts(candidates, history[..k + 1]) == open + {history[k]}
  {
    assert IsTourStep(tiers, candidates, history, k);
    assert history[..k + 1][..k] == history[..k];
  }

  ghost predicate Distinct(s: seq<string>) {
    forall i, j :: 0 <= i < j < |s| ==> s[i] != s[j]
  }

  /** Within a cycle the attempts are the selections since it began, all different candidates. */
  lemma {:induction false} WithinCycle(tiers: Tiers, candidates: set<string>, history: seq<string>, i: nat, j: nat)
    requires IsTour(tiers, candidates, history) && i <= j <= |history| && j - i <= |candidates|
    requires Begins(candidates, history, i)
    ensures Elements(history[i..j]) <= candidates && Distinct(history[i..j])
    ensures j > i ==> Attempts(candidates, history[..j]) == Elements(history[i..j])
    decreases j
  {
    if j > i {
      var k := j - 1;
      WithinCycle(tiers, candidates, history, i, k);
      TourStep(tiers, candidates, history, k);
      OpenWithin(candidates, history, i, k);
      assert history[i..j] == history[i..k] + [history[k]];
      DistinctLonger(history[i..k], history[k]);
    }
  }

  lemma DistinctLonger(s: seq<string>, x: string)
    requires Distinct(s) && x !in Elements(s)
    ensures Distinct(s + [x]) && Elements(s + [x]) == Elements(s) + {x}
  {
    assert forall i :: 0 <= i < |s| ==> s[i] in Elements(s);
  }

  /** Before a cycle is complete, the attempts that count are its own. */
  lemma OpenWithin(candidates: set<string>, history: seq<string>, i: nat, k: nat)
    requires i <= k <= |history| && k - i < |candidates| && Begins(candidates, history, i) && Distinct(history[i..k])
    requires k > i ==> Attempts(candidates, history[..k]) == Elements(history[i..k])
    ensures Open(candidates, Attempts(candidates, history[..k])) == Elements(history[i..k])
  {
    if k > i {
      DistinctSize(history[i..k]);
      SubsetSize(candidates, Elements(history[i..k]));
    }
  }

  /**
   * A cycle visits every candidate exactly once and ends where the next begins.
   */
  lemma CycleCovers(tiers: Tiers, candidates: set<string>, history: seq<string>, i: nat)
    requires IsTour(tiers, candidates, history) && i + |candidates| <= |history| && Begins(candidates, history, i)
    ensures Elements(history[i..i + |candidates|]) == candidates && Distinct(history[i..i + |candidates|])
    ensures Begins(candidates, history, i + |candidates|)
  {
    var j := i + |candidates|;
    WithinCycle(tiers, candidates, history, i, j);
    DistinctSize(history[i..j]);
    SubsetOfSize(Elements(history[i..j]), candidates);
  }

  /** The next target is in no lower group than any candidate that was open. */
  lemma NextIsHighest(tiers: Tiers, candidates: set<string>, open: set<string>, t: string, u: string, a: nat, b: nat)
    requires Disjoint(tiers) && IsNext(tiers, candidates, open, t) && u in candidates && u !in open
    requires a < |tiers| && t in tiers[a] && b < |tiers| && u in tiers[b]
    ensures a <= b
  {
    assert u in tiers[b] * candidates;
  }

  /** What a cycle tries later was open before. */
  lemma LaterWasOpen(tiers: Tiers, candidates: set<string>, history: seq<string>, i: nat, x: nat, y: nat)
    requires IsTour(tiers, candidates, history) && i <= x < y < |history| && y < i + |candidates|
    requires Begins(candidates, history, i)
    ensures history[y] !in Open(candidates, Attempts(candidates, history[..x]))
  {
    WithinCycle(tiers, candidates, history, i, x);
    OpenWithin(candidates, history, i, x);
    WithinCycle(tiers, candidates, history, i, y + 1);
    NotBefore(history[i..y + 1], x - i);
    assert history[i..y + 1][..x - i] == history[i..x];
  }

  lemma NotBefore(s: seq<string>, n: nat)
    requires Distinct(s) && n < |s|
    ensures s[|s| - 1] !in Elements(s[..n])
  {
  }

  /** Within a cycle no target is tried after one of a lower group. */
  lemma HigherFirst(tiers: Tiers, candidates: set<string>, history: seq<string>, i: nat, x: nat, y: nat, a: nat, b: nat)
    requires Disjoint(tiers) && IsTour(tiers, candidates, history) && i <= x < y < |history| && y < i + |candidates|
    requires Begins(candidates, history, i)
    requires a < |tiers| && history[x] in tiers[a] && b < |tiers| && history[y] in tiers[b]
    ensures a <= b
  {
    TourStep(tiers, candidates, history, x);
    TourStep(tiers, candidates, history, y);
    LaterWasOpen(tiers, candidates, history, i, x, y);
    NextIsHighest(tiers, candidates, Open(candidates, Attempts(candidates, history[..x])), history[x], history[y], a, b);
  }

  /** Cycles follow each other without a gap. */
  lemma {:induction false} CycleStarts(tiers: Tiers, candidates: set<string>, history: seq<string>, k: nat)
    requires IsTour(tiers, candidates, history) && k * |candidates| <= |history|
    ensures Begins(candidates, history, k * |candidates|)
  {
    if k > 0 {
      assert k * |candidates| == (k - 1) * |candidates| + |candidates|;
      CycleStarts(tiers, candidates, history, k - 1);
      CycleCovers(tiers, candidates, history, (k - 1) * |candidates|);
    }
  }

  // ----- the balancer without health checks -----

  class PriorityLoadBalance {
    const groups: seq<PriorityGroup>

    constructor (groups: seq<PriorityGroup>)
      ensures this.groups == groups
    {
      this.groups := groups;
    }

    /** Without a request to remember attempts, only the highest group is used. */
    method Next() returns (target: string)
      requires ValidGroups(groups)
      ensures if groups == [] then target == "" else target in groups[0].weights
    {
      if |groups| == 0 {
        return "";
      }
      target := groups[0].selector.Next();
    }

    method NextForRequest(state: RequestState) returns (target: string)
      requires ValidGroups(groups)
      modifies state
      ensures var candidates := Members(TiersOf(groups));
        && (target == "" <==> candidates == {})
        && (target != "" ==> IsNext(TiersOf(groups), candidates, Open(candidates, old(state.Attempted())), target))
        && state.Attempted() == Taken(candidates, old(state.Attempted()), target)
    {
      target := state.Select(groups, None);
    }
  }
}
