/**
 * Active probes of one target, racing with passive reports and other marks. The probe goroutine
 * takes the balancer's lock several times in each round, and anything may happen in between; a
 * generation stamped on each probe is what keeps stale results harmless.
 */
module Probes {
  import opened Basics
  import opened Balancing
  import opened Health

  /** How many successes recover a target, and how many failures of a class quarantine it. */
  datatype ProbeConfig = ProbeConfig(healthySuccesses: nat, httpFailures: nat, tcpFailures: nat, timeouts: nat)

  datatype Result = Success | HTTPFailure | ConnectFailure | Timeout | Ignored

  /** A probe, by the step at which it began and the generation that it was stamped with. */
  datatype Sample = Sample(began: nat, generation: nat)

  /** The goroutine's counters, each with the probes it has counted. */
  datatype Counters = Counters(
    successes: seq<Sample>,
    httpFailures: seq<Sample>,
    tcpFailures: seq<Sample>,
    timeouts: seq<Sample>,
    generation: nat
  )

  function NoneCounted(generation: nat): Counters {
    Counters([], [], [], [], generation)
  }

  /** The step the goroutine takes next. */
  datatype Pc =
    | Waiting
    | Probing(sample: Sample)
    | Applying(sample: Sample, result: Result)
    | Marking(sample: Sample, toHealthy: bool, streak: seq<Sample>, needed: nat)
    | Resetting

  /** What the goroutine has applied so far: results with the health they met, and fresh starts of the counters. */
  datatype Event = Applied(result: Result, healthy: bool) | Restarted

  /** `log` and `now` record the past; nothing the goroutine does depends on them. */
  datatype Machine = Machine(health: HealthState, pc: Pc, counters: Counters, log: seq<Event>, now: nat)

  datatype Action =
    | Reports(report: Report)
    | OtherMark(toHealthy: bool)
    | Begin
    | End(result: Result)
    | Apply
    | TryMark
    | Reset

  predicate Enabled(m: Machine, a: Action) {
    match a
    case Reports(_) | OtherMark(_) => true
    case Begin => m.pc.Waiting?
    case End(_) => m.pc.Probing?
    case Apply => m.pc.Applying?
    case TryMark => m.pc.Marking?
    case Reset => m.pc.Resetting?
  }

  // ----- one round's decision -----

  datatype Decision = Decision(counters: Counters, pc: Pc)

  /** A failure counter with one more probe, and its threshold. */
  function Counted(config: ProbeConfig, c: Counters, sample: Sample, result: Result): (Counters, seq<Sample>, nat) {
    match result
    case HTTPFailure => (c.(httpFailures := c.httpFailures + [sample]), c.httpFailures + [sample], config.httpFailures)
    case ConnectFailure => (c.(tcpFailures := c.tcpFailures + [sample]), c.tcpFailures + [sample], config.tcpFailures)
    case _ => (c.(timeouts := c.timeouts + [sample]), c.timeouts + [sample], config.timeouts)
  }

  /** What a finished probe does to the counters, and whether it goes on to mark the target. */
  function Decide(config: ProbeConfig, counters: Counters, healthy: bool, generation: nat, sample: Sample, result: Result): Decision {
    if generation != sample.generation then Decision(NoneCounted(generation), Waiting)
    else
      var c := if counters.generation != generation then NoneCounted(generation) else counters;
      if result.Success? then
        var cleared := c.(httpFailures := [], tcpFailures := [], timeouts := []);
        if healthy then Decision(cleared.(successes := []), Waiting)
        else if |c.successes| + 1 >= config.healthySuccesses then
          Decision(cleared.(successes := []), Marking(sample, true, c.successes + [sample], config.healthySuccesses))
        else Decision(cleared.(successes := c.successes + [sample]), Waiting)
      else if result.Ignored? then Decision(c, Waiting)
      else
        var cleared := c.(successes := []);
        if !healthy then Decision(cleared.(httpFailures := [], tcpFailures := [], timeouts := []), Waiting)
        else
          var (counted, streak, threshold) := Counted(config, cleared, sample, result);
          if threshold > 0 && |streak| >= threshold then
            Decision(counted.(httpFailures := [], tcpFailures := [], timeouts := []), Marking(sample, false, streak, threshold))
          else Decision(counted, Waiting)
  }

  /** What a finished probe adds to the log. */
  function Logged(counters: Counters, healthy: bool, generation: nat, sample: Sample, result: Result, pc: Pc): seq<Event> {
    if generation != sample.generation then [Restarted]
    else
      (if counters.generation != generation then [Restarted] else []) + [Applied(result, healthy)] + (if pc.Marking? then [Restarted] else [])
  }

  // ----- streaks, read off the log -----

  predicate IsFailure(result: Result) {
    result.HTTPFailure? || result.ConnectFailure? || result.Timeout?
  }

  function Threshold(config: ProbeConfig, result: Result): nat {
    match result
    case HTTPFailure => config.httpFailures
    case ConnectFailure => config.tcpFailures
    case Timeout => config.timeouts
    case _ => 0
  }

  /** The successes in a row on an unhealthy target; ignored results do not break the row. */
  function SuccessRun(log: seq<Event>): nat {
    if log == [] then 0
    else
      var before := SuccessRun(log[..|log| - 1]);
      match log[|log| - 1]
      case Restarted => 0
      case Applied(result, healthy) =>
        if result.Ignored? then before else if result.Success? && !healthy then before + 1 else 0
  }

  /** The failures of one class on a healthy target since the last success. */
  function FailureRun(log: seq<Event>, kind: Result): nat {
    if log == [] then 0
    else
      var before := FailureRun(log[..|log| - 1], kind);
      match log[|log| - 1]
      case Restarted => 0
      case Applied(result, healthy) =>
        if result.Ignored? then before else if result.Success? || !healthy then 0 else if result == kind then before + 1 else before
  }

  /** A mark by this goroutine changes the target only in this step. */
  predicate MarkSucceeds(m: Machine) {
    m.pc.Marking? && MarkApplies(m.health, Some(m.pc.sample.generation), m.pc.toHealthy)
  }

  function Next(config: Config, active: ProbeConfig, m: Machine, a: Action): Machine
    requires Enabled(m, a)
  {
    var stepped := m.(now := m.now + 1);
    match a
    case Reports(report) => stepped.(health := OnReport(config, m.health, report))
    case OtherMark(toHealthy) => stepped.(health := if MarkApplies(m.health, None, toHealthy) then Marked(m.health, toHealthy) else m.health)
    case Begin => stepped.(pc := Probing(Sample(m.now, m.health.generation)))
    case End(result) => stepped.(pc := Applying(m.pc.sample, result))
    case Apply =>
      var d := Decide(active, m.counters, !m.health.unhealthy, m.health.generation, m.pc.sample, m.pc.result);
      stepped.(counters := d.counters, pc := d.pc,
               log := m.log + Logged(m.counters, !m.health.unhealthy, m.health.generation, m.pc.sample, m.pc.result, d.pc))
    case TryMark =>
      if MarkSucceeds(m) then stepped.(health := Marked(m.health, m.pc.toHealthy), pc := Waiting) else stepped.(pc := Resetting)
    case Reset => stepped.(counters := NoneCounted(m.health.generation), pc := Waiting, log := m.log + [Restarted])
  }

  // ----- the invariant -----

  ghost predicate AllStamped(samples: seq<Sample>, generation: nat) {
    forall i :: 0 <= i < |samples| ==> samples[i].generation == generation
  }

  /** Every probe that a counter holds was stamped with the counters' generation. */
  ghost predicate Uniform(c: Counters) {
    && AllStamped(c.successes, c.generation) && AllStamped(c.httpFailures, c.generation)
    && AllStamped(c.tcpFailures, c.generation) && AllStamped(c.timeouts, c.generation)
  }

  /** A mark has as many results behind it as its threshold asks for. */
  ghost predicate Earned(config: ProbeConfig, pc: Pc) {
    pc.Marking? ==>
      && AllStamped(pc.streak, pc.sample.generation) && |pc.streak| >= pc.needed
      && (if pc.toHealthy then pc.needed == config.healthySuccesses
          else pc.needed > 0 && pc.needed in {config.httpFailures, config.tcpFailures, config.timeouts})
  }

  /** The counters are the streaks of the log. */
  ghost predicate Counting(c: Counters, log: seq<Event>) {
    && |c.successes| == SuccessRun(log) && |c.httpFailures| == FailureRun(log, HTTPFailure)
    && |c.tcpFailures| == FailureRun(log, ConnectFailure) && |c.timeouts| == FailureRun(log, Timeout)
  }

  ghost predicate Inv(config: ProbeConfig, m: Machine) {
    Uniform(m.counters) && Earned(config, m.pc) && Counting(m.counters, m.log)
  }

  lemma DecideKeepsUniform(config: ProbeConfig, counters: Counters, healthy: bool, generation: nat, sample: Sample, result: Result)
    requires Uniform(counters)
    ensures var d := Decide(config, counters, healthy, generation, sample, result);
      Uniform(d.counters) && Earned(config, d.pc)
  {
  }

  lemma LogRestarted(log: seq<Event>)
    ensures SuccessRun(log + [Restarted]) == 0 && forall kind :: FailureRun(log + [Restarted], kind) == 0
  {
    assert (log + [Restarted])[..|log|] == log;
  }

  lemma LogApplied(log: seq<Event>, result: Result, healthy: bool)
    ensures var more := log + [Applied(result, healthy)];
      && SuccessRun(more) == (if result.Ignored? then SuccessRun(log) else if result.Success? && !healthy then SuccessRun(log) + 1 else 0)
      && forall kind :: FailureRun(more, kind) ==
           if result.Ignored? then FailureRun(log, kind) else if result.Success? || !healthy then 0
           else if result == kind then FailureRun(log, kind) + 1 else FailureRun(log, kind)
  {
    assert (log + [Applied(result, healthy)])[..|log|] == log;
  }

  /** The log up to and including a result that is not stale, before any mark restarts the counters. */
  function LogWith(counters: Counters, log: seq<Event>, healthy: bool, generation: nat, result: Result): seq<Event> {
    (if counters.generation != generation then log + [Restarted] else log) + [Applied(result, healthy)]
  }

  /** The counters after a probe are the streaks of the log after it. */
  lemma DecisionCounts(config: ProbeConfig, counters: Counters, log: seq<Event>, healthy: bool, generation: nat, sample: Sample, result: Result)
    requires Counting(counters, log)
    ensures var d := Decide(config, counters, healthy, generation, sample, result);
      Counting(d.counters, log + Logged(counters, healthy, generation, sample, result, d.pc))
  {
    LogRestarted(log);
    if generation == sample.generation {
      var d := Decide(config, counters, healthy, generation, sample, result);
      var start := if counters.generation != generation then log + [Restarted] else log;
      LogApplied(start, result, healthy);
      LogRestarted(start + [Applied(result, healthy)]);
      assert log + Logged(counters, healthy, generation, sample, result, d.pc)
          == start + [Applied(result, healthy)] + if d.pc.Marking? then [Restarted] else [];
      if !d.pc.Marking? {
        assert start + [Applied(result, healthy)] + [] == start + [Applied(result, healthy)];
      }
    }
  }

  /**
   * One probe's decision, by the log: a stale result restarts the counters; otherwise the target is
   * marked exactly when the streak that the result completes is long enough.
   */
  lemma DecisionMeaning(config: ProbeConfig, counters: Counters, log: seq<Event>, healthy: bool, generation: nat, sample: Sample, result: Result)
    requires Counting(counters, log)
    ensures var d := Decide(config, counters, healthy, generation, sample, result);
      && Counting(d.counters, log + Logged(counters, healthy, generation, sample, result, d.pc))
      && (generation != sample.generation ==> d.pc.Waiting?)
      && (generation == sample.generation ==>
            var with := LogWith(counters, log, healthy, generation, result);
            && (d.pc.Marking? && d.pc.toHealthy <==> result.Success? && !healthy && SuccessRun(with) >= config.healthySuccesses)
            && (d.pc.Marking? && !d.pc.toHealthy <==>
                  IsFailure(result) && healthy && Threshold(config, result) > 0 && FailureRun(with, result) >= Threshold(config, result)))
  {
    DecisionCounts(config, counters, log, healthy, generation, sample, result);
    LogRestarted(log);
    var start := if counters.generation != generation then log + [Restarted] else log;
    LogApplied(start, result, healthy);
  }

  lemma StepKeepsInv(config: Config, active: ProbeConfig, m: Machine, a: Action)
    requires Inv(active, m) && Enabled(m, a)
    ensures Inv(active, Next(config, active, m, a))
  {
    if a.Apply? {
      DecideKeepsUniform(active, m.counters, !m.health.unhealthy, m.health.generation, m.pc.sample, m.pc.result);
      DecisionMeaning(active, m.counters, m.log, !m.health.unhealthy, m.health.generation, m.pc.sample, m.pc.result);
    } else if a.Reset? {
      LogRestarted(m.log);
    }
  }

  // ----- runs -----

  ghost predicate IsRun(config: Config, active: ProbeConfig, states: seq<Machine>, actions: seq<Action>) {
    && |states| == |actions| + 1
    && states[0] == Machine(Fresh, Waiting, NoneCounted(0), [], 0)
    && forall i :: 0 <= i < |actions| ==> Enabled(states[i], actions[i]) && states[i + 1] == Next(config, active, states[i], actions[i])
  }

  lemma {:induction false} RunKeepsInv(config: Config, active: ProbeConfig, states: seq<Machine>, actions: seq<Action>, n: nat)
    requires IsRun(config, active, states, actions) && n < |states|
    ensures Inv(active, states[n]) && states[n].now == n
  {
    if n > 0 {
      var k := n - 1;
      RunKeepsInv(config, active, states, actions, k);
      assert states[k + 1] == Next(config, active, states[k], actions[k]);
      StepKeepsInv(config, active, states[k], actions[k]);
    }
  }

  /** Health changes only together with the generation, which only grows. */
  lemma HealthMoves(config: Config, active: ProbeConfig, m: Machine, a: Action)
    requires Enabled(m, a)
    ensures var n := Next(config, active, m, a);
      n.health.generation == m.health.generation + if n.health.unhealthy != m.health.unhealthy then 1 else 0
  {
  }

  /** The same generation at two steps means the same health throughout. */
  lemma {:induction false} SameGeneration(config: Config, active: ProbeConfig, states: seq<Machine>, actions: seq<Action>, i: nat, j: nat)
    requires IsRun(config, active, states, actions) && i <= j < |states|
    ensures states[i].health.generation <= states[j].health.generation
    ensures states[i].health.generation == states[j].health.generation ==>
              forall k :: i <= k <= j ==> states[k].health.generation == states[j].health.generation && states[k].health.unhealthy == states[j].health.unhealthy
    decreases j
  {
    if i < j {
      var k := j - 1;
      SameGeneration(config, active, states, actions, i, k);
      assert states[k + 1] == Next(config, active, states[k], actions[k]);
      HealthMoves(config, active, states[k], actions[k]);
    }
  }

  /** A sample is a probe that began at its step under its generation. */
  ghost predicate Genuine(states: seq<Machine>, n: nat, sample: Sample) {
    sample.began < n <= |states| && states[sample.began].health.generation == sample.generation
  }

  ghost predicate AllGenuine(states: seq<Machine>, n: nat, samples: seq<Sample>) {
    forall i :: 0 <= i < |samples| ==> Genuine(states, n, samples[i])
  }

  ghost predicate GenuineCounters(states: seq<Machine>, n: nat, c: Counters) {
    && AllGenuine(states, n, c.successes) && AllGenuine(states, n, c.httpFailures)
    && AllGenuine(states, n, c.tcpFailures) && AllGenuine(states, n, c.timeouts)
  }

  ghost predicate GenuinePc(states: seq<Machine>, n: nat, pc: Pc) {
    && (pc.Probing? || pc.Applying? || pc.Marking? ==> Genuine(states, n, pc.sample))
    && (pc.Marking? ==> AllGenuine(states, n, pc.streak))
  }

  /** Every sample that the machine holds is genuine. */
  ghost predicate Grounded(states: seq<Machine>, n: nat, m: Machine) {
    GenuineCounters(states, n, m.counters) && GenuinePc(states, n, m.pc)
  }

  lemma DecideKeepsGenuine(states: seq<Machine>, n: nat, config: ProbeConfig, counters: Counters, healthy: bool, generation: nat, sample: Sample, result: Result)
    requires GenuineCounters(states, n, counters) && Genuine(states, n, sample)
    ensures var d := Decide(config, counters, healthy, generation, sample, result);
      GenuineCounters(states, n, d.counters) && GenuinePc(states, n, d.pc)
  {
  }

  lemma LaterIsGenuine(states: seq<Machine>, n: nat, m: Machine)
    requires n < |states| && Grounded(states, n, m)
    ensures Grounded(states, n + 1, m)
  {
  }

  lemma StepKeepsGrounded(config: Config, active: ProbeConfig, states: seq<Machine>, n: nat, a: Action)
    requires n < |states| && states[n].now == n && Grounded(states, n, states[n]) && Enabled(states[n], a)
    ensures Grounded(states, n + 1, Next(config, active, states[n], a))
  {
    var m := states[n];
    LaterIsGenuine(states, n, m);
    if a.Apply? {
      DecideKeepsGenuine(states, n + 1, active, m.counters, !m.health.unhealthy, m.health.generation, m.pc.sample, m.pc.result);
    }
  }

  lemma {:induction false} RunIsGrounded(config: Config, active: ProbeConfig, states: seq<Machine>, actions: seq<Action>, n: nat)
    requires IsRun(config, active, states, actions) && n < |states|
    ensures Grounded(states, n, states[n])
  {
    if n > 0 {
      var k := n - 1;
      RunIsGrounded(config, active, states, actions, k);
      RunKeepsInv(config, active, states, actions, k);
      assert states[k + 1] == Next(config, active, states[k], actions[k]);
      StepKeepsGrounded(config, active, states, k, actions[k]);
    }
  }

  /**
   * Stale probes are harmless. In every interleaving, when a probe's mark changes the target, each
   * of the results counted for it, enough for its threshold, came from a probe that began under
   * the target's current generation; the target's health had not changed since the first of them.
   */
  lemma StaleProbesAreHarmless(config: Config, active: ProbeConfig, states: seq<Machine>, actions: seq<Action>, n: nat, i: nat)
    requires IsRun(config, active, states, actions) && n < |actions| && actions[n] == TryMark && MarkSucceeds(states[n])
    requires i < |states[n].pc.streak|
    ensures var m := states[n];
      && Earned(active, m.pc)
      && m.pc.streak[i].generation == m.health.generation && m.pc.streak[i].began < n
      && forall k :: m.pc.streak[i].began <= k <= n ==>
           states[k].health.generation == m.health.generation && states[k].health.unhealthy == m.health.unhealthy
  {
    RunKeepsInv(config, active, states, actions, n);
    RunIsGrounded(config, active, states, actions, n);
    var sample := states[n].pc.streak[i];
    assert Genuine(states, n, sample);
    SameGeneration(config, active, states, actions, sample.began, n);
  }

  /**
   * What a mark does: in every interleaving the target's health changes in the step of the mark
   * exactly if its generation is still that of the probe and its health is what the mark is to
   * change. It becomes what the mark says, and its generation grows by one.
   */
  lemma MarkFlips(config: Config, active: ProbeConfig, states: seq<Machine>, actions: seq<Action>, n: nat)
    requires IsRun(config, active, states, actions) && n < |actions| && actions[n] == TryMark
    ensures var m, after := states[n], states[n + 1].health;
      && m.pc.Marking?
      && (after.unhealthy != m.health.unhealthy <==> m.pc.sample.generation == m.health.generation && m.health.unhealthy == m.pc.toHealthy)
      && (after.unhealthy != m.health.unhealthy ==>
            && after.unhealthy == !m.pc.toHealthy && after.generation == m.health.generation + 1
            && after.healthySuccesses == 0
            && (m.pc.toHealthy ==> after.httpFailures == after.tcpFailures == after.timeouts == 0))
      && (after.unhealthy == m.health.unhealthy ==> after == m.health && states[n + 1].pc.Resetting?)
  {
    assert Enabled(states[n], actions[n]) && states[n + 1] == Next(config, active, states[n], actions[n]);
  }

  /**
   * When a probe tries to mark: in every interleaving a finished probe goes on to mark its target
   * exactly if it is not stale and completes a long enough streak, of successes on an unhealthy
   * target or of failures of one class on a healthy one.
   */
  lemma MarksAreEarned(config: Config, active: ProbeConfig, states: seq<Machine>, actions: seq<Action>, n: nat)
    requires IsRun(config, active, states, actions) && n < |actions| && actions[n] == Apply
    ensures var m, pc := states[n], states[n + 1].pc;
      var with := LogWith(m.counters, m.log, !m.health.unhealthy, m.health.generation, m.pc.result);
      && (pc.Marking? && pc.toHealthy <==>
            m.pc.sample.generation == m.health.generation && m.pc.result.Success? && m.health.unhealthy && SuccessRun(with) >= active.healthySuccesses)
      && (pc.Marking? && !pc.toHealthy <==>
            m.pc.sample.generation == m.health.generation && IsFailure(m.pc.result) && !m.health.unhealthy
            && Threshold(active, m.pc.result) > 0 && FailureRun(with, m.pc.result) >= Threshold(active, m.pc.result))
  {
    RunKeepsInv(config, active, states, actions, n);
    var m := states[n];
    DecisionMeaning(active, m.counters, m.log, !m.health.unhealthy, m.health.generation, m.pc.sample, m.pc.result);
  }

  // ----- the target's history -----

  /** What an action is for the target's health. */
  function HappeningOf(m: Machine, a: Action): seq<Happening> {
    match a
    case Reports(report) => [Reported(report)]
    case OtherMark(toHealthy) => [Mark(None, toHealthy)]
    case TryMark => if m.pc.Marking? then [Mark(Some(m.pc.sample.generation), m.pc.toHealthy)] else []
    case _ => []
  }

  function Happenings(states: seq<Machine>, actions: seq<Action>, n: nat): seq<Happening>
    requires n <= |actions| < |states|
  {
    if n == 0 then [] else Happenings(states, actions, n - 1) + HappeningOf(states[n - 1], actions[n - 1])
  }

  /**
   * In every interleaving the target's health is what the passive reports, the marks of others and
   * those of the probes make of it, in their order.
   */
  lemma {:induction false} HealthIsItsHistory(config: Config, active: ProbeConfig, states: seq<Machine>, actions: seq<Action>, n: nat)
    requires IsRun(config, active, states, actions) && n < |states|
    ensures states[n].health == After(config, Happenings(states, actions, n))
  {
    if n > 0 {
      var k := n - 1;
      HealthIsItsHistory(config, active, states, actions, k);
      assert Enabled(states[k], actions[k]) && states[k + 1] == Next(config, active, states[k], actions[k]);
      StepHappens(config, active, states[k], actions[k]);
      var past, what := Happenings(states, actions, k), HappeningOf(states[k], actions[k]);
      if what == [] {
        assert past + what == past;
      } else {
        assert what == [what[0]];
        AfterMore(config, past, what[0]);
      }
    }
  }

  lemma AfterMore(config: Config, past: seq<Happening>, what: Happening)
    ensures After(config, past + [what]) == OnHappening(config, After(config, past), what)
  {
    assert (past + [what])[..|past|] == past;
  }

  lemma StepHappens(config: Config, active: ProbeConfig, m: Machine, a: Action)
    requires Enabled(m, a)
    ensures var what := HappeningOf(m, a);
      && |what| <= 1
      && Next(config, active, m, a).health == if what == [] then m.health else OnHappening(config, m.health, what[0])
  {
  }

  /** Reports and marks of others may fall between any two steps, and the goroutine always has a step of its own. */
  lemma AnythingMayInterfere(m: Machine, report: Report, toHealthy: bool, result: Result)
    ensures Enabled(m, Reports(report)) && Enabled(m, OtherMark(toHealthy))
    ensures Enabled(m, Begin) || Enabled(m, End(result)) || Enabled(m, Apply) || Enabled(m, TryMark) || Enabled(m, Reset)
  {
  }

  /** How many steps a round of the goroutine has ahead of it. */
  function Ahead(pc: Pc): nat {
    match pc
    case Waiting => 0
    case Probing(_) => 4
    case Applying(_, _) => 3
    case Marking(_, _, _, _) => 2
    case Resetting => 1
  }

  /** A probe is stamped when it begins, applied with its own result, and every step leads to the end of the round. */
  lemma RoundsEnd(config: Config, active: ProbeConfig, states: seq<Machine>, actions: seq<Action>, n: nat)
    requires IsRun(config, active, states, actions) && n < |actions|
    ensures var m, after := states[n], states[n + 1].pc;
      match actions[n]
      case Reports(_) => after == m.pc
      case OtherMark(_) => after == m.pc
      case Begin => after == Probing(Sample(n, m.health.generation))
      case End(result) => m.pc.Probing? && after == Applying(m.pc.sample, result)
      case _ => Ahead(after) < Ahead(m.pc)
  {
    RunKeepsInv(config, active, states, actions, n);
    assert Enabled(states[n], actions[n]) && states[n + 1] == Next(config, active, states[n], actions[n]);
  }
}
