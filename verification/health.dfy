/**
 * Upstream health: passive counters with hysteresis, the marks that active probes make, and the
 * balancer that keeps one selector of healthy targets for each priority group.
 */
module Health {
  import opened Basics
  import opened Ordering
  import opened Balancing

  /** A zero failure threshold disables its class; zero successes disable passive recovery. */
  datatype Config = Config(
    healthyStatuses: set<int>,
    unhealthyStatuses: set<int>,
    healthySuccesses: nat,
    httpFailures: nat,
    tcpFailures: nat,
    timeouts: nat
  )

  datatype HealthState = HealthState(
    httpFailures: nat,
    tcpFailures: nat,
    timeouts: nat,
    healthySuccesses: nat,
    unhealthy: bool,
    generation: nat
  )

  const Fresh := HealthState(0, 0, 0, 0, false, 0)

  /** What a request's owner reports about its upstream. */
  datatype Report = Status(code: int) | TCPFailure(timeout: bool)

  // ----- one target's counters -----

  /** The state after a change of health: the generation counts the changes. */
  function Quarantined(st: HealthState): HealthState {
    st.(unhealthy := true, generation := st.generation + 1)
  }

  function Recovered(st: HealthState): HealthState {
    HealthState(0, 0, 0, 0, false, st.generation + 1)
  }

  function OnHTTP(config: Config, st: HealthState, code: int): HealthState {
    if code in config.healthyStatuses then
      if st.unhealthy then
        if config.healthySuccesses == 0 then st
        else if st.healthySuccesses + 1 >= config.healthySuccesses then Recovered(st)
        else st.(healthySuccesses := st.healthySuccesses + 1)
      else st.(httpFailures := 0, tcpFailures := 0, timeouts := 0, healthySuccesses := 0)
    else if code in config.unhealthyStatuses then
      var counted := st.(healthySuccesses := 0, httpFailures := st.httpFailures + 1);
      if st.unhealthy then st.(healthySuccesses := 0)
      else if config.httpFailures > 0 && counted.httpFailures >= config.httpFailures then Quarantined(counted)
      else counted
    else st
  }

  function OnTCPFailure(config: Config, st: HealthState, timeout: bool): HealthState {
    var reset := st.(healthySuccesses := 0);
    if st.unhealthy then reset
    else if timeout then
      var counted := reset.(timeouts := st.timeouts + 1);
      if config.timeouts > 0 && counted.timeouts >= config.timeouts then Quarantined(counted) else counted
    else
      var counted := reset.(tcpFailures := st.tcpFailures + 1);
      if config.tcpFailures > 0 && counted.tcpFailures >= config.tcpFailures then Quarantined(counted) else counted
  }

  function OnReport(config: Config, st: HealthState, report: Report): HealthState {
    match report
    case Status(code) => OnHTTP(config, st, code)
    case TCPFailure(timeout) => OnTCPFailure(config, st, timeout)
  }

  /** The state of a target after its passive reports. */
  function Passive(config: Config, reports: seq<Report>): HealthState {
    if reports == [] then Fresh else OnReport(config, Passive(config, reports[..|reports| - 1]), reports[|reports| - 1])
  }

  // ----- what the reports say, without counters -----

  datatype Kind = Good | BadStatus | BadConnection | TimedOut | Neutral

  function KindOf(config: Config, report: Report): Kind {
    match report
    case Status(code) => if code in config.healthyStatuses then Good else if code in config.unhealthyStatuses then BadStatus else Neutral
    case TCPFailure(timeout) => if timeout then TimedOut else BadConnection
  }

  predicate IsFailure(kind: Kind) {
    kind.BadStatus? || kind.BadConnection? || kind.TimedOut?
  }

  function Threshold(config: Config, kind: Kind): nat {
    match kind
    case BadStatus => config.httpFailures
    case BadConnection => config.tcpFailures
    case TimedOut => config.timeouts
    case _ => 0
  }

  /** How many reports of one failure class there are since the last healthy status. */
  function FailuresSince(config: Config, reports: seq<Report>, kind: Kind): nat {
    if reports == [] then 0
    else
      var last := KindOf(config, reports[|reports| - 1]);
      if last == Good then 0
      else FailuresSince(config, reports[..|reports| - 1], kind) + (if last == kind then 1 else 0)
  }

  /** How many healthy statuses there are since the last classified failure. */
  function SuccessesSince(config: Config, reports: seq<Report>): nat {
    if reports == [] then 0
    else
      var last := KindOf(config, reports[|reports| - 1]);
      if IsFailure(last) then 0
      else SuccessesSince(config, reports[..|reports| - 1]) + (if last == Good then 1 else 0)
  }

  /** The last report brings its failure class to a positive threshold. */
  predicate Trips(config: Config, reports: seq<Report>) {
    && reports != []
    && var kind := KindOf(config, reports[|reports| - 1]);
       IsFailure(kind) && Threshold(config, kind) > 0 && FailuresSince(config, reports, kind) >= Threshold(config, kind)
  }

  /** The last report completes the configured number of healthy statuses. */
  predicate Restores(config: Config, reports: seq<Report>) {
    && reports != []
    && KindOf(config, reports[|reports| - 1]) == Good
    && config.healthySuccesses > 0 && SuccessesSince(config, reports) >= config.healthySuccesses
  }

  /** The counters of a target are what its reports say. */
  lemma {:induction false} CountersMeaning(config: Config, reports: seq<Report>)
    ensures var st := Passive(config, reports);
      if st.unhealthy then st.healthySuccesses == if config.healthySuccesses == 0 then 0 else SuccessesSince(config, reports)
      else
        && st.httpFailures == FailuresSince(config, reports, BadStatus)
        && st.tcpFailures == FailuresSince(config, reports, BadConnection)
        && st.timeouts == FailuresSince(config, reports, TimedOut)
        && st.healthySuccesses == 0
  {
    if reports != [] {
      CountersMeaning(config, reports[..|reports| - 1]);
    }
  }

  /** Health changes exactly where the reports trip it or restore it. */
  lemma HealthStep(config: Config, reports: seq<Report>)
    requires reports != []
    ensures var before, after := Passive(config, reports[..|reports| - 1]), Passive(config, reports);
      && (after.unhealthy <==> if before.unhealthy then !Restores(config, reports) else Trips(config, reports))
      && after.generation == before.generation + if before.unhealthy != after.unhealthy then 1 else 0
  {
    CountersMeaning(config, reports[..|reports| - 1]);
  }

  /** Some report tripped the target and none since then restored it. */
  ghost predicate TrippedForGood(config: Config, reports: seq<Report>) {
    exists j: nat :: TrippedAt(config, reports, j)
  }

  /** Tripped at this many reports, and not restored by any of those after. */
  ghost predicate TrippedAt(config: Config, reports: seq<Report>, j: nat) {
    0 < j <= |reports| && Trips(config, reports[..j]) && forall i :: j < i <= |reports| ==> !Restores(config, reports[..i])
  }

  lemma TrippedAtStep(config: Config, reports: seq<Report>, j: nat)
    requires reports != []
    ensures TrippedAt(config, reports, j) <==>
            if j == |reports| then Trips(config, reports) else TrippedAt(config, reports[..|reports| - 1], j) && !Restores(config, reports)
  {
    var n := |reports|;
    var before := reports[..n - 1];
    assert reports[..n] == reports;
    assert forall i :: 0 <= i < n ==> before[..i] == reports[..i];
  }

  lemma TrippedStep(config: Config, reports: seq<Report>)
    requires reports != []
    ensures TrippedForGood(config, reports) <==>
            Trips(config, reports) || (TrippedForGood(config, reports[..|reports| - 1]) && !Restores(config, reports))
  {
    var before := reports[..|reports| - 1];
    forall j: nat
      ensures TrippedAt(config, reports, j) <==>
              if j == |reports| then Trips(config, reports) else TrippedAt(config, before, j) && !Restores(config, reports)
    {
      TrippedAtStep(config, reports, j);
    }
    if j: nat :| TrippedAt(config, before, j) {
      assert TrippedAt(config, reports, j) <==> !Restores(config, reports);
    }
    assert TrippedAt(config, reports, |reports|) <==> Trips(config, reports);
  }

  /**
   * Passive hysteresis, over every sequence of reports: a target is unhealthy exactly when some
   * failure class reached its positive threshold with no healthy status between, and since then
   * there were never as many healthy statuses as configured with no classified failure between.
   */
  lemma {:induction false} PassiveHysteresis(config: Config, reports: seq<Report>)
    ensures Passive(config, reports).unhealthy <==> TrippedForGood(config, reports)
  {
    if reports != [] {
      PassiveHysteresis(config, reports[..|reports| - 1]);
      HealthStep(config, reports);
      TrippedStep(config, reports);
    }
  }

  // ----- marks -----

  /** Whether a mark made for an expected generation applies; none is expected by an unconditional mark. */
  predicate MarkApplies(st: HealthState, expected: Option<nat>, toHealthy: bool) {
    st.unhealthy == toHealthy && (expected.None? || expected.value == st.generation)
  }

  function Marked(st: HealthState, toHealthy: bool): HealthState {
    if toHealthy then Recovered(st) else Quarantined(st.(healthySuccesses := 0))
  }

  /** What happens to a target: reports about its requests, and marks by probes or by others. */
  datatype Happening = Reported(report: Report) | Mark(expected: Option<nat>, toHealthy: bool)

  function OnHappening(config: Config, st: HealthState, what: Happening): HealthState {
    match what
    case Reported(report) => OnReport(config, st, report)
    case Mark(expected, toHealthy) => if MarkApplies(st, expected, toHealthy) then Marked(st, toHealthy) else st
  }

  function After(config: Config, past: seq<Happening>): HealthState {
    if past == [] then Fresh else OnHappening(config, After(config, past[..|past| - 1]), past[|past| - 1])
  }

  /** The last thing to happen is a mark that changes health: the target is as the mark expects it. */
  predicate Turns(config: Config, past: seq<Happening>) {
    && past != [] && past[|past| - 1].Mark?
    && var st, mark := After(config, past[..|past| - 1]), past[|past| - 1];
       st.unhealthy == mark.toHealthy && (mark.expected.Some? ==> mark.expected.value == st.generation)
  }

  /** The reports of one failure class since the last healthy status or recovering mark. */
  function FailuresCounted(config: Config, past: seq<Happening>, kind: Kind): nat {
    if past == [] then 0
    else
      var before := FailuresCounted(config, past[..|past| - 1], kind);
      match past[|past| - 1]
      case Reported(report) =>
        var last := KindOf(config, report);
        if last == Good then 0 else before + (if last == kind then 1 else 0)
      case Mark(_, toHealthy) => if toHealthy && Turns(config, past) then 0 else before
  }

  /** The healthy statuses since the last classified failure or mark that changed health. */
  function SuccessesCounted(config: Config, past: seq<Happening>): nat {
    if past == [] then 0
    else
      var before := SuccessesCounted(config, past[..|past| - 1]);
      match past[|past| - 1]
      case Reported(report) =>
        var last := KindOf(config, report);
        if IsFailure(last) then 0 else before + (if last == Good then 1 else 0)
      case Mark(_, _) => if Turns(config, past) then 0 else before
  }

  /** The counters of a target are what its reports and marks say, in any mixture. */
  lemma {:induction false} CountersWithMarks(config: Config, past: seq<Happening>)
    ensures var st := After(config, past);
      if st.unhealthy then st.healthySuccesses == if config.healthySuccesses == 0 then 0 else SuccessesCounted(config, past)
      else
        && st.httpFailures == FailuresCounted(config, past, BadStatus)
        && st.tcpFailures == FailuresCounted(config, past, BadConnection)
        && st.timeouts == FailuresCounted(config, past, TimedOut)
        && st.healthySuccesses == 0
  {
    if past != [] {
      CountersWithMarks(config, past[..|past| - 1]);
    }
  }

  /**
   * Health with marks. A report trips a healthy target exactly when its class reaches a positive
   * threshold, and restores an unhealthy one exactly when it completes the healthy statuses asked
   * for; a mark changes health exactly when it is due. Each change counts one generation.
   */
  lemma HealthWithMarks(config: Config, past: seq<Happening>)
    requires past != []
    ensures var before, after, what := After(config, past[..|past| - 1]), After(config, past), past[|past| - 1];
      && (what.Reported? && before.unhealthy ==>
            (after.unhealthy <==> !(KindOf(config, what.report) == Good && 0 < config.healthySuccesses <= SuccessesCounted(config, past))))
      && (what.Reported? && !before.unhealthy ==>
            var kind := KindOf(config, what.report);
            (after.unhealthy <==> IsFailure(kind) && 0 < Threshold(config, kind) <= FailuresCounted(config, past, kind)))
      && (what.Mark? ==> after.unhealthy == if Turns(config, past) then !what.toHealthy else before.unhealthy)
      && after.generation == before.generation + (if after.unhealthy != before.unhealthy then 1 else 0)
  {
    CountersWithMarks(config, past[..|past| - 1]);
  }

  // ----- all targets -----

  type States = map<string, HealthState>

  predicate IsHealthyTarget(states: States, t: string) {
    t in states && !states[t].unhealthy
  }

  predicate NoneHealthy(targets: set<string>, states: States) {
    forall t :: t in targets ==> !IsHealthyTarget(states, t)
  }

  /** The healthy part of a group's weights. */
  function HealthyShare(weights: map<string, int>, states: States): map<string, int> {
    map t | t in weights && IsHealthyTarget(states, t) :: weights[t]
  }

  ghost predicate Tracked(groups: seq<PriorityGroup>, states: States) {
    ValidGroups(groups) && Members(TiersOf(groups)) <= states.Keys
  }

  /** Each group's selector ranges over exactly its healthy targets. */
  ghost predicate SelectorsMatch(groups: seq<PriorityGroup>, selectors: seq<RRLoadBalance>, states: States) {
    && |selectors| == |groups|
    && forall i :: 0 <= i < |groups| ==> selectors[i].weights == HealthyShare(groups[i].weights, states)
  }

  /** The targets a request may be sent to: the healthy ones, or all when none is. */
  function Selectable(tiers: Tiers, states: States): set<string> {
    var healthy := set t | t in Members(tiers) && IsHealthyTarget(states, t);
    if healthy == {} then Members(tiers) else healthy
  }

  lemma SelectableMeaning(tiers: Tiers, states: States)
    ensures Selectable(tiers, states) <= Members(tiers) && (Selectable(tiers, states) == {} <==> Members(tiers) == {})
    ensures !NoneHealthy(Members(tiers), states) ==> forall t :: t in Selectable(tiers, states) ==> IsHealthyTarget(states, t)
  {
    var healthy := set t | t in Members(tiers) && IsHealthyTarget(states, t);
    if !NoneHealthy(Members(tiers), states) {
      var t :| t in Members(tiers) && IsHealthyTarget(states, t);
      assert t in healthy;
    }
  }

  lemma NextIsCandidate(tiers: Tiers, candidates: set<string>, tried: set<string>, target: string)
    requires IsNext(tiers, candidates, tried, target)
    ensures target in candidates
  {
  }

  /** Same members with the same health give the same selectors. */
  lemma SelectorsStay(groups: seq<PriorityGroup>, selectors: seq<RRLoadBalance>, before: States, after: States)
    requires SelectorsMatch(groups, selectors, before)
    requires before.Keys == after.Keys && forall t :: t in before ==> before[t].unhealthy == after[t].unhealthy
    ensures SelectorsMatch(groups, selectors, after)
  {
    forall i | 0 <= i < |groups|
      ensures HealthyShare(groups[i].weights, after) == HealthyShare(groups[i].weights, before)
    {
    }
  }

  class HealthAwareLoadBalance {
    const groups: seq<PriorityGroup>
    const config: Config
    var states: States
    var healthySelectors: seq<RRLoadBalance>

    ghost predicate Valid()
      reads this
    {
      Tracked(groups, states) && SelectorsMatch(groups, healthySelectors, states)
    }

    constructor (groups: seq<PriorityGroup>, targets: set<string>, config: Config)
      requires ValidGroups(groups) && Members(TiersOf(groups)) <= targets
      ensures Valid() && this.groups == groups && this.config == config
      ensures states == map t | t in targets :: Fresh
    {
      this.groups := groups;
      this.config := config;
      states := map t | t in targets :: Fresh;
      healthySelectors := [];
      new;
      RefreshHealthySelectors();
    }

    method RefreshHealthySelectors()
      requires Tracked(groups, states)
      modifies this`healthySelectors
      ensures Valid()
    {
      var selectors: seq<RRLoadBalance> := [];
      for i := 0 to |groups|
        invariant |selectors| == i
        invariant forall j :: 0 <= j < i ==> selectors[j].weights == HealthyShare(groups[j].weights, states)
      {
        var weights := groups[i].weights;
        assert ValidGroup(groups[i]);
        var share := HealthyShare(weights, states);
        if share.Keys == weights.Keys {
          assert share == weights;
          selectors := selectors + [groups[i].selector];
        } else {
          var selector := new RRLoadBalance(share);
          selectors := selectors + [selector];
        }
      }
      healthySelectors := selectors;
    }

    /** A healthy target of the highest group that has one; with none healthy, any target of the highest group. */
    method Next() returns (target: string)
      requires Valid()
      ensures !NoneHealthy(Members(TiersOf(groups)), states) ==>
                IsHealthyTarget(states, target) && IsNext(TiersOf(groups), Selectable(TiersOf(groups), states), {}, target)
      ensures NoneHealthy(Members(TiersOf(groups)), states) ==>
                if groups == [] then target == "" else target in groups[0].weights
    {
      ghost var tiers := TiersOf(groups);
      for i := 0 to |healthySelectors|
        invariant NoneBefore(tiers, i, states)
      {
        target := healthySelectors[i].Next();
        assert ValidGroup(groups[i]) && tiers[i] == groups[i].weights.Keys;
        TierOffers(tiers, states, i, healthySelectors[i].weights.Keys, target);
        if target != "" {
          return;
        }
      }
      NoneInAny(tiers, states);
      if |groups| == 0 {
        return "";
      }
      assert ValidGroup(groups[0]);
      target := groups[0].selector.Next();
    }

    /** The target of a request's next attempt, among the healthy targets or, with none healthy, among all. */
    method NextForRequest(state: RequestState) returns (target: string)
      requires Valid()
      modifies state
      ensures var candidates := Selectable(TiersOf(groups), states);
        && (target == "" <==> candidates == {})
        && (target != "" ==> IsNext(TiersOf(groups), candidates, Open(candidates, old(state.Attempted())), target))
        && state.Attempted() == Taken(candidates, old(state.Attempted()), target)
      // a quarantined target is used only when there is no healthy one
      ensures target != "" ==> target in Members(TiersOf(groups))
      ensures target != "" && !NoneHealthy(Members(TiersOf(groups)), states) ==> IsHealthyTarget(states, target)
      ensures target == "" <==> Members(TiersOf(groups)) == {}
    {
      ghost var tiers := TiersOf(groups);
      var selectable := Selectable(TiersOf(groups), states);
      SelectableMeaning(tiers, states);
      assert Candidates(tiers, Some(selectable)) == selectable;
      ghost var attempted := state.Attempted();
      target := state.Select(groups, Some(selectable));
      if target != "" {
        NextIsCandidate(tiers, selectable, Open(selectable, attempted), target);
      }
    }

    /** Stores a target's new state, and renews the selectors when its health changed. */
    method Put(target: string, st: HealthState)
      requires Valid() && target in states
      modifies this
      ensures Valid() && states == old(states)[target := st]
    {
      var changed := states[target].unhealthy != st.unhealthy;
      ghost var before := states;
      states := states[target := st];
      if changed {
        RefreshHealthySelectors();
      } else {
        SelectorsStay(groups, healthySelectors, before, states);
      }
    }

    method ReportHTTP(target: string, code: int)
      requires Valid()
      modifies this
      ensures Valid()
      ensures states == if target in old(states) then old(states)[target := OnHTTP(config, old(states)[target], code)] else old(states)
    {
      if target !in states {
        return;
      }
      var st := states[target];
      if code in config.healthyStatuses {
        if st.unhealthy {
          if config.healthySuccesses == 0 {
            assert states[target := st] == states;
            return;
          }
          st := st.(healthySuccesses := st.healthySuccesses + 1);
          if st.healthySuccesses >= config.healthySuccesses {
            st := Recovered(st);
          }
        } else {
          st := st.(httpFailures := 0, tcpFailures := 0, timeouts := 0, healthySuccesses := 0);
        }
      } else if code in config.unhealthyStatuses {
        st := st.(healthySuccesses := 0);
        if !st.unhealthy {
          st := st.(httpFailures := st.httpFailures + 1);
          if config.httpFailures > 0 && st.httpFailures >= config.httpFailures {
            st := Quarantined(st);
          }
        }
      }
      Put(target, st);
    }

    method ReportTCPFailure(target: string, timeout: bool)
      requires Valid()
      modifies this
      ensures Valid()
      ensures states == if target in old(states) then old(states)[target := OnTCPFailure(config, old(states)[target], timeout)] else old(states)
    {
      if target !in states {
        return;
      }
      var st := states[target].(healthySuccesses := 0);
      if !st.unhealthy {
        if timeout {
          st := st.(timeouts := st.timeouts + 1);
          if config.timeouts > 0 && st.timeouts >= config.timeouts {
            st := Quarantined(st);
          }
        } else {
          st := st.(tcpFailures := st.tcpFailures + 1);
          if config.tcpFailures > 0 && st.tcpFailures >= config.tcpFailures {
            st := Quarantined(st);
          }
        }
      }
      Put(target, st);
    }

    method HealthStatus(target: string) returns (healthy: bool, generation: nat)
      ensures healthy <==> IsHealthyTarget(states, target)
      ensures generation == if target in states then states[target].generation else 0
    {
      if target !in states {
        return false, 0;
      }
      return !states[target].unhealthy, states[target].generation;
    }

    /** Recovers or quarantines a target, if it is not so already and its generation is the expected one. */
    method Mark(target: string, expected: Option<nat>, toHealthy: bool) returns (changed: bool)
      requires Valid()
      modifies this
      ensures Valid()
      ensures changed <==> target in old(states) && MarkApplies(old(states)[target], expected, toHealthy)
      ensures states == if changed then old(states)[target := Marked(old(states)[target], toHealthy)] else old(states)
    {
      if target !in states || !MarkApplies(states[target], expected, toHealthy) {
        return false;
      }
      Put(target, Marked(states[target], toHealthy));
      return true;
    }
  }

  /** The first groups have no healthy target. */
  ghost predicate NoneBefore(tiers: Tiers, n: nat, states: States)
    requires n <= |tiers|
  {
    forall j :: 0 <= j < n ==> NoneHealthy(tiers[j], states)
  }

  lemma NoneInAny(tiers: Tiers, states: States)
    requires NoneBefore(tiers, |tiers|, states)
    ensures NoneHealthy(Members(tiers), states)
  {
    forall t | t in Members(tiers)
      ensures !IsHealthyTarget(states, t)
    {
      var j :| 0 <= j < |tiers| && t in tiers[j];
      assert NoneHealthy(tiers[j], states);
    }
  }

  /** What a group's selector answers, in terms of the tiers. */
  lemma TierOffers(tiers: Tiers, states: States, i: nat, offered: set<string>, target: string)
    requires i < |tiers| && NoneBefore(tiers, i, states)
    requires forall t :: t in offered <==> t in tiers[i] && IsHealthyTarget(states, t)
    requires if offered == {} then target == "" else target in offered && target != ""
    ensures target == "" ==> NoneBefore(tiers, i + 1, states)
    ensures target != "" ==>
              && IsHealthyTarget(states, target) && !NoneHealthy(Members(tiers), states)
              && IsNext(tiers, Selectable(tiers, states), {}, target)
  {
    if target != "" {
      assert target in tiers[i];
      assert target in Members(tiers);
      forall j | 0 <= j < i
        ensures tiers[j] * Selectable(tiers, states) <= {}
      {
        assert NoneHealthy(tiers[j], states);
      }
    }
  }

  // ----- reports about several targets -----

  /** The states after reports about any targets; a report about an unknown one is ignored. */
  function Reported(config: Config, states: States, reports: seq<(string, Report)>): States {
    if reports == [] then states
    else
      var before := Reported(config, states, reports[..|reports| - 1]);
      var (target, report) := reports[|reports| - 1];
      if target in before then before[target := OnReport(config, before[target], report)] else before
  }

  function About(reports: seq<(string, Report)>, target: string): seq<Report> {
    if reports == [] then []
    else
      var before := About(reports[..|reports| - 1], target);
      if reports[|reports| - 1].0 == target then before + [reports[|reports| - 1].1] else before
  }

  /** Targets do not influence each other: each has the state its own reports give it. */
  lemma {:induction false} TargetsAreIndependent(config: Config, states: States, reports: seq<(string, Report)>, target: string)
    requires target in states && states[target] == Fresh
    ensures target in Reported(config, states, reports)
    ensures Reported(config, states, reports)[target] == Passive(config, About(reports, target))
  {
    if reports != [] {
      var before := reports[..|reports| - 1];
      TargetsAreIndependent(config, states, before, target);
      var about := About(before, target) + [reports[|reports| - 1].1];
      assert about[..|about| - 1] == About(before, target);
    }
  }
}
