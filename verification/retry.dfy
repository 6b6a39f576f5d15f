/**
 * The transport's retry loop: which targets a request reaches, in what order, and when it stops.
 */
module Retry {
  import opened Basics
  import opened Balancing

  /** The number of retries of an upstream: as configured, or one for each further node. */
  function HTTPRetryCount(configured: Option<int>, nodes: nat): nat {
    match configured
    case Some(retries) => if retries > 0 then retries else 0
    case None => if nodes > 0 then nodes - 1 else 0
  }

  /** The world's part: whether each attempt fails, and whether a retry is prevented before it. */
  datatype Script = Script(fails: nat -> bool, blocked: nat -> bool)

  /** The retries a request is given: none when it cannot be replayed. */
  function Retries(count: nat, replayable: bool): nat {
    if replayable then count else 0
  }

  /** After some attempts, all but the last failed and none was prevented. */
  ghost predicate Tried(script: Script, n: nat, failed: bool) {
    && n >= 1 && (failed <==> script.fails(n - 1))
    && (forall i :: 0 <= i < n - 1 ==> script.fails(i))
    && (forall i :: 0 < i < n ==> !script.blocked(i))
  }

  lemma TriedMore(script: Script, n: nat)
    requires Tried(script, n, true) && !script.blocked(n)
    ensures Tried(script, n + 1, script.fails(n))
  {
  }

  /** The attempts end with a success, with the last retry, or where a retry is prevented. */
  ghost predicate Attempted(attempts: seq<string>, script: Script, retries: nat, failed: bool, stopped: bool) {
    && Tried(script, |attempts|, failed) && |attempts| <= retries + 1
    && (stopped ==> failed && |attempts| <= retries && script.blocked(|attempts|))
    && (failed && !stopped ==> |attempts| == retries + 1)
  }

  lemma TourExtends(tiers: Tiers, candidates: set<string>, history: seq<string>, target: string)
    requires IsTour(tiers, candidates, history) && target != ""
    requires IsNext(tiers, candidates, Open(candidates, Attempts(candidates, history)), target)
    ensures IsTour(tiers, candidates, history + [target])
    ensures Attempts(candidates, history + [target]) == Taken(candidates, Attempts(candidates, history), target)
  {
    var longer := history + [target];
    assert longer[..|history|] == history;
    forall i | 0 <= i < |longer|
      ensures IsTourStep(tiers, candidates, longer, i)
    {
      assert longer[..i] == if i < |history| then history[..i] else history;
      if i < |history| {
        assert IsTourStep(tiers, candidates, history, i);
      }
    }
  }

  /** The director's and each retry's choice of a target, which prolongs the request's tour. */
  method NextAttempt(groups: seq<PriorityGroup>, selectable: Option<set<string>>, state: RequestState, attempts: seq<string>)
    returns (longer: seq<string>)
    requires ValidGroups(groups)
    requires var candidates := Candidates(TiersOf(groups), selectable);
      IsTour(TiersOf(groups), candidates, attempts) && state.Attempted() == Attempts(candidates, attempts)
    modifies state
    ensures var candidates := Candidates(TiersOf(groups), selectable);
      && IsTour(TiersOf(groups), candidates, longer) && state.Attempted() == Attempts(candidates, longer)
      && (if candidates == {} then longer == attempts else |longer| == |attempts| + 1 && longer[..|attempts|] == attempts)
  {
    ghost var tiers := TiersOf(groups);
    ghost var candidates := Candidates(tiers, selectable);
    var target := state.Select(groups, selectable);
    if target == "" {
      NoTour(tiers, attempts);
      return attempts;
    }
    TourExtends(tiers, candidates, attempts, target);
    longer := attempts + [target];
  }

  lemma NoTour(tiers: Tiers, attempts: seq<string>)
    requires IsTour(tiers, {}, attempts)
    ensures attempts == []
  {
    if attempts != [] {
      TourStep(tiers, {}, attempts, 0);
    }
  }

  /** Selecting a target and retrying on others while attempts fail; no attempt when there is no candidate. */
  method Forward(groups: seq<PriorityGroup>, selectable: Option<set<string>>, state: RequestState, count: nat, replayable: bool, script: Script)
    returns (attempts: seq<string>, failed: bool, stopped: bool)
    requires ValidGroups(groups) && state.Attempted() == {}
    modifies state
    ensures var candidates := Candidates(TiersOf(groups), selectable);
      && IsTour(TiersOf(groups), candidates, attempts)
      && (attempts == [] <==> candidates == {}) && (attempts == [] ==> failed)
      && (attempts != [] ==> Attempted(attempts, script, Retries(count, replayable), failed, stopped))
  {
    ghost var tiers := TiersOf(groups);
    ghost var candidates := Candidates(tiers, selectable);
    failed, stopped := true, false;
    attempts := NextAttempt(groups, selectable, state, []);
    if |attempts| == 0 {
      return;
    }
    failed := script.fails(0);
    var remaining := Retries(count, replayable);
    while failed && remaining > 0
      invariant IsTour(tiers, candidates, attempts) && state.Attempted() == Attempts(candidates, attempts)
      invariant !stopped && |attempts| + remaining == Retries(count, replayable) + 1 && Tried(script, |attempts|, failed)
    {
      if script.blocked(|attempts|) {
        stopped := true;
        break;
      }
      TriedMore(script, |attempts|);
      attempts := NextAttempt(groups, selectable, state, attempts);
      failed := script.fails(|attempts| - 1);
      remaining := remaining - 1;
    }
  }

  lemma PrioritiesDescend(servers: map<string, int>, priorities: map<string, int>, tiers: Tiers, attempts: seq<string>, x: nat, y: nat)
    requires Layered(tiers, servers, priorities) && IsTour(tiers, Members(tiers), attempts)
    requires x < y < |attempts| && y < |Members(tiers)|
    ensures PriorityOf(priorities, attempts[x]) >= PriorityOf(priorities, attempts[y])
  {
    TourStep(tiers, Members(tiers), attempts, x);
    TourStep(tiers, Members(tiers), attempts, y);
    var a :| 0 <= a < |tiers| && attempts[x] in tiers[a];
    var b :| 0 <= b < |tiers| && attempts[y] in tiers[b];
    assert attempts[..0] == [];
    HigherFirst(tiers, Members(tiers), attempts, 0, x, y, a, b);
  }

  /** The servers of positive weight. */
  function Live(servers: map<string, int>): set<string> {
    set t | t in servers && servers[t] > 0
  }

  /** Every one of the targets once, those of higher priority first. */
  ghost predicate InPriorityOrder(attempts: seq<string>, targets: set<string>, priorities: map<string, int>) {
    && Elements(attempts) == targets && Distinct(attempts)
    && forall x, y, p, q :: 0 <= x < y < |attempts| && IsOf(priorities, attempts[x], p) && IsOf(priorities, attempts[y], q) ==> p >= q
  }

  /** The priority of a node is the configured one, or 0. */
  ghost predicate IsOf(priorities: map<string, int>, target: string, priority: int) {
    (target in priorities ==> priority == priorities[target]) && (target !in priorities ==> priority == 0)
  }

  /** The first attempts of a request are on every server of positive weight once, by priority. */
  lemma EveryNodeOnce(servers: map<string, int>, priorities: map<string, int>, tiers: Tiers, attempts: seq<string>)
    requires Layered(tiers, servers, priorities) && IsTour(tiers, Members(tiers), attempts) && |attempts| >= |Live(servers)|
    ensures InPriorityOrder(attempts[..|Live(servers)|], Live(servers), priorities)
  {
    assert Members(tiers) == Live(servers);
    var first := attempts[..|Live(servers)|];
    FirstCycle(tiers, attempts);
    forall x, y | 0 <= x < y < |first|
      ensures PriorityOf(priorities, first[x]) >= PriorityOf(priorities, first[y])
    {
      PrioritiesDescend(servers, priorities, tiers, attempts, x, y);
    }
  }

  lemma FirstCycle(tiers: Tiers, attempts: seq<string>)
    requires IsTour(tiers, Members(tiers), attempts) && |attempts| >= |Members(tiers)|
    ensures var first := attempts[..|Members(tiers)|]; Elements(first) == Members(tiers) && Distinct(first)
  {
    assert attempts[0..|Members(tiers)|] == attempts[..|Members(tiers)|] && attempts[..0] == [];
    CycleCovers(tiers, Members(tiers), attempts, 0);
  }

  /** Every attempt fails and no retry is prevented. */
  ghost predicate Hopeless(script: Script) {
    forall n :: script.fails(n) && !script.blocked(n)
  }

  /**
   * A request to an upstream without health checks, from its nodes to its last attempt. With the
   * default number of retries, a replayable request that meets only failures is attempted once for
   * each node, and reaches every node of positive weight before any twice, higher priorities first.
   */
  method Serve(servers: map<string, int>, priorities: map<string, int>, configured: Option<int>, replayable: bool, script: Script)
    returns (attempts: seq<string>, failed: bool, stopped: bool)
    requires "" !in Live(servers)
    ensures attempts == [] <==> Live(servers) == {}
    ensures attempts == [] ==> failed
    ensures attempts != [] ==> Attempted(attempts, script, Retries(HTTPRetryCount(configured, |servers|), replayable), failed, stopped)
    ensures Elements(attempts) <= Live(servers)
    ensures |attempts| >= |Live(servers)| ==> InPriorityOrder(attempts[..|Live(servers)|], Live(servers), priorities)
    ensures configured.None? && replayable && Hopeless(script) && attempts != [] ==> |attempts| == |servers| >= |Live(servers)|
    // how often it is attempted: once if it cannot be replayed, else once more than the retries
    ensures !replayable ==> |attempts| <= 1
    ensures configured.Some? ==> |attempts| <= 1 + if configured.value > 0 then configured.value else 0
    ensures configured.Some? && replayable && Hopeless(script) && attempts != [] ==>
              |attempts| == 1 + if configured.value > 0 then configured.value else 0
    ensures |attempts| > 1 ==> forall n :: 0 <= n < |attempts| - 1 ==> script.fails(n) && !script.blocked(n + 1)
    ensures attempts != [] ==> (failed <==> script.fails(|attempts| - 1))
    ensures configured.None? && replayable && Hopeless(script) && attempts != [] && Live(servers) == servers.Keys ==>
              InPriorityOrder(attempts, servers.Keys, priorities)
  {
    var groups := NewPriorityGroups(servers, priorities);
    GroupedIsValid(groups, servers, priorities);
    GroupedIsLayered(groups, servers, priorities);
    var state := new RequestState();
    attempts, failed, stopped := Forward(groups, None, state, HTTPRetryCount(configured, |servers|), replayable, script);
    Toured(servers, priorities, TiersOf(groups), attempts);
    if attempts != [] {
      AttemptCount(attempts, script, configured, |servers|, replayable, failed, stopped);
    }
    if attempts != [] && configured.None? && replayable && Hopeless(script) {
      OncePerNode(servers, attempts, script, failed, stopped);
    }
  }

  /** How many attempts there are, and how all but the last ended. */
  lemma AttemptCount(attempts: seq<string>, script: Script, configured: Option<int>, nodes: nat, replayable: bool, failed: bool, stopped: bool)
    requires Attempted(attempts, script, Retries(HTTPRetryCount(configured, nodes), replayable), failed, stopped)
    ensures !replayable ==> |attempts| == 1
    ensures configured.Some? ==> |attempts| <= 1 + if configured.value > 0 then configured.value else 0
    ensures configured.Some? && replayable && Hopeless(script) ==> |attempts| == 1 + if configured.value > 0 then configured.value else 0
    ensures forall n :: 0 <= n < |attempts| - 1 ==> script.fails(n) && !script.blocked(n + 1)
    ensures failed <==> script.fails(|attempts| - 1)
  {
    if Hopeless(script) {
      assert script.fails(|attempts| - 1) && !script.blocked(|attempts|);
    }
  }

  /** A tour over the servers of positive weight, in terms of the servers. */
  lemma Toured(servers: map<string, int>, priorities: map<string, int>, tiers: Tiers, attempts: seq<string>)
    requires Layered(tiers, servers, priorities) && IsTour(tiers, Members(tiers), attempts)
    ensures Members(tiers) == Live(servers) && Elements(attempts) <= Live(servers)
    ensures |attempts| >= |Live(servers)| ==> InPriorityOrder(attempts[..|Live(servers)|], Live(servers), priorities)
    ensures |attempts| == |Live(servers)| ==> InPriorityOrder(attempts, Live(servers), priorities)
  {
    assert Members(tiers) == Live(servers);
    OnlyCandidates(tiers, Members(tiers), attempts);
    if |attempts| >= |Live(servers)| {
      EveryNodeOnce(servers, priorities, tiers, attempts);
    }
    assert attempts[..|attempts|] == attempts;
  }

  lemma OncePerNode(servers: map<string, int>, attempts: seq<string>, script: Script, failed: bool, stopped: bool)
    requires Attempted(attempts, script, HTTPRetryCount(None, |servers|), failed, stopped) && Hopeless(script)
    requires Elements(attempts) <= Live(servers)
    ensures |attempts| == |servers| >= |Live(servers)|
  {
    assert attempts[0] in Live(servers);
    assert |servers.Keys| == |servers| && servers.Keys != {};
    SubsetSize(Live(servers), servers.Keys);
    assert script.fails(|attempts| - 1) && !script.blocked(|attempts|);
  }

  lemma OnlyCandidates(tiers: Tiers, candidates: set<string>, attempts: seq<string>)
    requires IsTour(tiers, candidates, attempts)
    ensures Elements(attempts) <= candidates
  {
    forall i | 0 <= i < |attempts|
      ensures attempts[i] in candidates
    {
      TourStep(tiers, candidates, attempts, i);
    }
  }

  /** Over any number of complete cycles every candidate is attempted, once in each. */
  lemma CyclesCover(tiers: Tiers, candidates: set<string>, attempts: seq<string>, k: nat)
    requires IsTour(tiers, candidates, attempts) && (k + 1) * |candidates| <= |attempts|
    ensures k * |candidates| + |candidates| <= |attempts|
    ensures var cycle := attempts[k * |candidates|..k * |candidates| + |candidates|];
      Elements(cycle) == candidates && Distinct(cycle)
  {
    assert (k + 1) * |candidates| == k * |candidates| + |candidates|;
    CycleStarts(tiers, candidates, attempts, k);
    CycleCovers(tiers, candidates, attempts, k * |candidates|);
  }
}
